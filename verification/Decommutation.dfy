/** Container layout by running offsets, extraction of a container's parameters from a payload, and
    the round trip between them. */
module Decommutation {
  import opened Prelude
  import opened BitStrings
  import opened BitFields

  datatype ParameterType = Uint | Int | Float | Text | Boolean | Binary

  // A raw value; a float is kept as the bits it is read from.
  datatype Value =
    | IntValue(n: int)
    | FloatBits(raw: nat, width: nat)
    | BoolValue(b: bool)
    | StringValue(text: seq<byte>)
    | BytesValue(bytes: seq<byte>)

  datatype Entry = Entry(parameterName: string, startOffsetBits: nat, lengthBits: nat)

  // A `ParameterRefEntry`: its reference, and its start offset where a readable one is given.
  datatype EntryNode = EntryNode(parameterRef: Option<string>, startOffset: Option<nat>)

  datatype Parameter = Parameter(name: string, rawValue: Value)

  /* Layout */

  function End(e: Entry): nat { e.startOffsetBits + e.lengthBits }

  function RunningOffset(entries: seq<Entry>): nat {
    if entries == [] then 0 else End(entries[|entries| - 1])
  }

  function LaidOut(nodes: seq<EntryNode>, sizes: map<string, nat>): Result<seq<Entry>, XtceError> {
    if nodes == [] then Ok([])
    else
      match LaidOut(nodes[..|nodes| - 1], sizes)
      case Err(error) => Err(error)
      case Ok(entries) =>
        var node := nodes[|nodes| - 1];
        if node.parameterRef.None? || node.parameterRef.value !in sizes then Err(XmlValidationError)
        else
          var name := node.parameterRef.value;
          var start := if node.startOffset.Some? then node.startOffset.value else RunningOffset(entries);
          Ok(entries + [Entry(name, start, sizes[name])])
  }

  // The entry list of a container.
  method LayOut(nodes: seq<EntryNode>, sizes: map<string, nat>) returns (r: Result<seq<Entry>, XtceError>)
    ensures r == LaidOut(nodes, sizes)
  {
    var entries: seq<Entry> := [];
    var runningOffset: nat := 0;
    for i := 0 to |nodes|
      invariant LaidOut(nodes[..i], sizes) == Ok(entries) && runningOffset == RunningOffset(entries)
    {
      assert nodes[..i + 1][..i] == nodes[..i];
      var node := nodes[i];
      if node.parameterRef.None? {
        FailsFrom(nodes, sizes, i + 1);
        return Err(XmlValidationError);
      }
      if node.startOffset.Some? {
        runningOffset := node.startOffset.value;
      }
      var name := node.parameterRef.value;
      if name !in sizes {
        FailsFrom(nodes, sizes, i + 1);
        return Err(XmlValidationError);
      }
      entries := entries + [Entry(name, runningOffset, sizes[name])];
      runningOffset := runningOffset + sizes[name];
    }
    assert nodes[..|nodes|] == nodes;
    return Ok(entries);
  }

  lemma {:induction false} FailsFrom(nodes: seq<EntryNode>, sizes: map<string, nat>, n: nat)
    requires n <= |nodes| && LaidOut(nodes[..n], sizes).Err?
    ensures LaidOut(nodes, sizes) == LaidOut(nodes[..n], sizes)
    decreases |nodes|
  {
    if n < |nodes| {
      var init := nodes[..|nodes| - 1];
      assert init[..n] == nodes[..n];
      FailsFrom(init, sizes, n);
    } else {
      assert nodes[..n] == nodes;
    }
  }

  predicate Known(node: EntryNode, sizes: map<string, nat>) {
    node.parameterRef.Some? && node.parameterRef.value in sizes
  }

  // Entry i names the i-th reference, has its size, and starts where told or where the last one ends.
  ghost predicate Follows(nodes: seq<EntryNode>, sizes: map<string, nat>, entries: seq<Entry>, i: nat)
    requires i < |nodes| == |entries|
  {
    && Known(nodes[i], sizes)
    && entries[i].parameterName == nodes[i].parameterRef.value
    && entries[i].lengthBits == sizes[nodes[i].parameterRef.value]
    && entries[i].startOffsetBits ==
         if nodes[i].startOffset.Some? then nodes[i].startOffset.value
         else if i == 0 then 0
         else entries[i - 1].startOffsetBits + entries[i - 1].lengthBits
  }

  lemma {:induction false} LayoutIff(nodes: seq<EntryNode>, sizes: map<string, nat>)
    ensures LaidOut(nodes, sizes).Ok? <==> forall i :: 0 <= i < |nodes| ==> Known(nodes[i], sizes)
    ensures LaidOut(nodes, sizes).Err? ==> LaidOut(nodes, sizes).error == XmlValidationError
    ensures LaidOut(nodes, sizes).Ok? ==>
      var entries := LaidOut(nodes, sizes).value;
      |entries| == |nodes| && forall i :: 0 <= i < |nodes| ==> Follows(nodes, sizes, entries, i)
    decreases |nodes|
  {
    if nodes != [] {
      var k := |nodes| - 1;
      var init := nodes[..k];
      LayoutIff(init, sizes);
      assert forall i :: 0 <= i < k ==> init[i] == nodes[i];
      if LaidOut(nodes, sizes).Ok? {
        var before, entries := LaidOut(init, sizes).value, LaidOut(nodes, sizes).value;
        assert entries[..k] == before;
        forall i | 0 <= i < k
          ensures Follows(nodes, sizes, entries, i)
        {
          assert Follows(init, sizes, before, i);
        }
        assert Follows(nodes, sizes, entries, k);
      }
    }
  }

  function Total(lengths: seq<nat>): nat {
    if lengths == [] then 0 else Total(lengths[..|lengths| - 1]) + lengths[|lengths| - 1]
  }

  function Lengths(entries: seq<Entry>): (lengths: seq<nat>)
    ensures |lengths| == |entries| && forall i :: 0 <= i < |lengths| ==> lengths[i] == entries[i].lengthBits
  {
    seq(|entries|, i requires 0 <= i < |entries| => entries[i].lengthBits)
  }

  predicate Covers(e: Entry, bit: nat) { e.startOffsetBits <= bit < End(e) }

  // Without explicit offsets every entry starts after the sum of the lengths before it.
  lemma {:induction false} StartsAtSum(nodes: seq<EntryNode>, sizes: map<string, nat>, n: nat)
    requires LaidOut(nodes, sizes).Ok? && n <= |LaidOut(nodes, sizes).value| == |nodes|
    requires forall i :: 0 <= i < |nodes| ==> nodes[i].startOffset.None?
    ensures
      var entries := LaidOut(nodes, sizes).value;
      && RunningOffset(entries[..n]) == Total(Lengths(entries)[..n])
      && (n < |entries| ==> entries[n].startOffsetBits == Total(Lengths(entries)[..n]))
    decreases n
  {
    var entries := LaidOut(nodes, sizes).value;
    LayoutIff(nodes, sizes);
    if n > 0 {
      StartsAtSum(nodes, sizes, n - 1);
      assert Lengths(entries)[..n][..n - 1] == Lengths(entries)[..n - 1];
      assert entries[..n][n - 1] == entries[n - 1];
    }
    if n < |entries| {
      assert Follows(nodes, sizes, entries, n);
    }
  }

  lemma EntryBounds(nodes: seq<EntryNode>, sizes: map<string, nat>, n: nat)
    requires LaidOut(nodes, sizes).Ok? && n < |LaidOut(nodes, sizes).value|
    requires forall i :: 0 <= i < |nodes| ==> nodes[i].startOffset.None?
    ensures
      var entries := LaidOut(nodes, sizes).value;
      entries[n].startOffsetBits == Total(Lengths(entries)[..n]) && End(entries[n]) == Total(Lengths(entries)[..n + 1])
  {
    var entries := LaidOut(nodes, sizes).value;
    LayoutIff(nodes, sizes);
    StartsAtSum(nodes, sizes, n);
    assert Lengths(entries)[..n + 1][..n] == Lengths(entries)[..n];
  }

  // The entries tile the bits up to the sum of all lengths: each bit lies in one entry.
  lemma LayoutTiles(nodes: seq<EntryNode>, sizes: map<string, nat>, bit: nat)
    requires LaidOut(nodes, sizes).Ok?
    requires forall i :: 0 <= i < |nodes| ==> nodes[i].startOffset.None?
    ensures
      var entries := LaidOut(nodes, sizes).value;
      && (bit < Total(Lengths(entries)) <==> exists i :: 0 <= i < |entries| && Covers(entries[i], bit))
      && forall i, j ::
           0 <= i < |entries| && 0 <= j < |entries| && Covers(entries[i], bit) && Covers(entries[j], bit) ==> i == j
  {
    hide LaidOut, Total;
    var entries := LaidOut(nodes, sizes).value;
    forall n {:trigger entries[n]} | 0 <= n < |entries|
      ensures entries[n].startOffsetBits == Total(Lengths(entries)[..n])
      ensures End(entries[n]) == Total(Lengths(entries)[..n + 1])
    {
      EntryBounds(nodes, sizes, n);
    }
    SumsTile(Lengths(entries), bit);
    if bit < Total(Lengths(entries)) {
      var i :| 0 <= i < |entries| && Total(Lengths(entries)[..i]) <= bit < Total(Lengths(entries)[..i + 1]);
      assert Covers(entries[i], bit);
    }
    if i :| 0 <= i < |entries| && Covers(entries[i], bit) {
      assert Total(Lengths(entries)[..i]) <= bit < Total(Lengths(entries)[..i + 1]);
    }
    forall i, j | 0 <= i < j < |entries|
      ensures !(Covers(entries[i], bit) && Covers(entries[j], bit))
    {
      SumsGrow(Lengths(entries), i + 1, j);
    }
  }

  lemma {:induction false} SumsGrow(lengths: seq<nat>, a: nat, b: nat)
    requires a <= b <= |lengths|
    ensures Total(lengths[..a]) <= Total(lengths[..b])
    decreases b
  {
    if a < b {
      SumsGrow(lengths, a, b - 1);
      assert lengths[..b][..b - 1] == lengths[..b - 1];
    }
  }

  lemma NoSum(lengths: seq<nat>)
    ensures Total(lengths[..0]) == 0
  {}

  lemma {:induction false} SumsTile(lengths: seq<nat>, bit: nat)
    ensures bit < Total(lengths) <==>
      exists i {:trigger lengths[..i]} :: 0 <= i < |lengths| && Total(lengths[..i]) <= bit < Total(lengths[..i + 1])
  {
    hide Total;
    assert lengths[..|lengths|] == lengths;
    NoSum(lengths);
    var n := 0;
    while n < |lengths| && Total(lengths[..n + 1]) <= bit
      invariant n <= |lengths| && Total(lengths[..n]) <= bit
    {
      n := n + 1;
    }
    if exists i {:trigger lengths[..i]} :: 0 <= i < |lengths| && Total(lengths[..i]) <= bit < Total(lengths[..i + 1]) {
      var i :| 0 <= i < |lengths| && Total(lengths[..i]) <= bit < Total(lengths[..i + 1]);
      SumsGrow(lengths, i + 1, |lengths|);
    }
  }

  /* Extraction */

  function Wrap<T>(r: Result<T, XtceError>, f: T -> Value): Result<Value, XtceError> {
    match r
    case Ok(v) => Ok(f(v))
    case Err(error) => Err(error)
  }

  // A float is read as the bits that make it; only 32 and 64 of them do.
  function RawFloat(payload: seq<byte>, start: nat, length: nat): Result<nat, XtceError> {
    if length == 32 || length == 64 then BitFields.Uint(payload, start, length) else Err(DecommutationFailed)
  }

  function Read(utf8: seq<byte> -> bool, payload: seq<byte>, kind: ParameterType, e: Entry): Result<Value, XtceError> {
    var start, length := e.startOffsetBits, e.lengthBits;
    match kind
    case Uint => Wrap(BitFields.Uint(payload, start, length), v => IntValue(AsI64(v)))
    case Int => Wrap(BitFields.Int(payload, start, length), v => IntValue(v))
    case Float => Wrap(RawFloat(payload, start, length), raw => FloatBits(raw, length))
    case Boolean => Wrap(Bool(payload, start, length), b => BoolValue(b))
    case Text => Wrap(BitFields.Text(utf8, payload, start, length), text => StringValue(text))
    case Binary => Wrap(BitFields.Binary(payload, start, length), bytes => BytesValue(bytes))
  }

  function ReadEntry(
    utf8: seq<byte> -> bool, payload: seq<byte>, types: map<string, ParameterType>, e: Entry): Result<Value, XtceError>
  {
    if e.parameterName !in types then Err(DecommutationFailed)
    else Read(utf8, payload, types[e.parameterName], e)
  }

  method ExtractValue(utf8: seq<byte> -> bool, payload: seq<byte>, kind: ParameterType, e: Entry)
    returns (r: Result<Value, XtceError>)
    ensures r == Read(utf8, payload, kind, e)
  {
    var start, length := e.startOffsetBits, e.lengthBits;
    match kind {
      case Uint =>
        var v := ExtractUint(payload, start, length);
        return Wrap(v, n => IntValue(AsI64(n)));
      case Int =>
        var v := ExtractInt(payload, start, length);
        return Wrap(v, n => IntValue(n));
      case Float =>
        if length != 32 && length != 64 {
          return Err(DecommutationFailed);
        }
        var v := ExtractUint(payload, start, length);
        return Wrap(v, raw => FloatBits(raw, length));
      case Boolean =>
        var v := ExtractBool(payload, start, length);
        return Wrap(v, b => BoolValue(b));
      case Text =>
        var v := ExtractString(utf8, payload, start, length);
        return Wrap(v, text => StringValue(text));
      case Binary =>
        var v := ExtractBinary(payload, start, length);
        return Wrap(v, bytes => BytesValue(bytes));
    }
  }

  // `decommute`: the values of all entries in order, or the first failure.
  method Decommute(
    utf8: seq<byte> -> bool, payload: seq<byte>, entries: seq<Entry>, types: map<string, ParameterType>)
    returns (r: Result<seq<Parameter>, XtceError>)
    ensures r.Ok? <==> forall i :: 0 <= i < |entries| ==> ReadEntry(utf8, payload, types, entries[i]).Ok?
    ensures r.Ok? ==> |r.value| == |entries| && forall i :: 0 <= i < |entries| ==>
      && r.value[i].name == entries[i].parameterName
      && ReadEntry(utf8, payload, types, entries[i]) == Ok(r.value[i].rawValue)
    ensures r.Err? ==> exists i ::
      && 0 <= i < |entries| && ReadEntry(utf8, payload, types, entries[i]) == Err(r.error)
      && (forall j :: 0 <= j < i ==> ReadEntry(utf8, payload, types, entries[j]).Ok?)
  {
    var results: seq<Parameter> := [];
    for k := 0 to |entries|
      invariant |results| == k
      invariant forall i :: 0 <= i < k ==>
        && results[i].name == entries[i].parameterName
        && ReadEntry(utf8, payload, types, entries[i]) == Ok(results[i].rawValue)
    {
      var e := entries[k];
      if e.parameterName !in types {
        assert ReadEntry(utf8, payload, types, entries[k]) == Err(DecommutationFailed);
        return Err(DecommutationFailed);
      }
      var value := ExtractValue(utf8, payload, types[e.parameterName], e);
      assert ReadEntry(utf8, payload, types, entries[k]) == value;
      if value.Err? {
        return Err(value.error);
      }
      results := results + [Parameter(e.parameterName, value.value)];
    }
    return Ok(results);
  }

  // An integer or boolean entry fails exactly if it is wider than a word or has a bit beyond the payload.
  lemma NumberFailsIff(
    utf8: seq<byte> -> bool, payload: seq<byte>, types: map<string, ParameterType>, e: Entry)
    requires e.parameterName in types
    requires types[e.parameterName].Uint? || types[e.parameterName].Int? || types[e.parameterName].Boolean?
    ensures ReadEntry(utf8, payload, types, e).Err? <==>
      e.lengthBits > 64 || (e.lengthBits > 0 && End(e) > 8 * |payload|)
  {}

  // A container of integers and booleans of at most 64 bits decommutes if and only if no entry with
  // a bit in it ends beyond the payload.
  lemma NumbersDecommuteIff(
    utf8: seq<byte> -> bool, payload: seq<byte>, entries: seq<Entry>, types: map<string, ParameterType>)
    requires forall i :: 0 <= i < |entries| ==>
      && entries[i].parameterName in types && entries[i].lengthBits <= 64
      && (types[entries[i].parameterName].Uint? || types[entries[i].parameterName].Int?
          || types[entries[i].parameterName].Boolean?)
    ensures
      (forall i :: 0 <= i < |entries| ==> ReadEntry(utf8, payload, types, entries[i]).Ok?) <==>
      (forall i :: 0 <= i < |entries| ==> entries[i].lengthBits == 0 || End(entries[i]) <= 8 * |payload|)
  {
    hide ReadEntry;
    forall i | 0 <= i < |entries|
      ensures ReadEntry(utf8, payload, types, entries[i]).Ok? <==>
        entries[i].lengthBits == 0 || End(entries[i]) <= 8 * |payload|
    {
      NumberFailsIff(utf8, payload, types, entries[i]);
    }
  }

  /* Round trip */

  // What a field of a packet is encoded from.
  datatype Field = Field(name: string, value: FieldValue, width: nat)

  datatype FieldValue =
    | UintField(v: nat)
    | IntField(n: int)
    | FloatField(raw: nat)
    | BoolField(b: bool)
    | BytesField(bytes: seq<byte>)
    | TextField(text: seq<byte>)

  ghost predicate Fits(utf8: seq<byte> -> bool, f: Field) {
    match f.value
    case UintField(v) => f.width <= 63 && v < Pow2(f.width)
    case IntField(n) => 0 < f.width <= 64 && FitsSigned(n, f.width)
    case FloatField(raw) => (f.width == 32 || f.width == 64) && raw < Pow2(f.width)
    case BoolField(_) => 0 < f.width <= 64
    case BytesField(bytes) => f.width == 8 * |bytes|
    case TextField(text) => IsText(utf8, text, f.width)
  }

  function KindOf(value: FieldValue): ParameterType {
    match value
    case UintField(_) => Uint
    case IntField(_) => Int
    case FloatField(_) => Float
    case BoolField(_) => Boolean
    case BytesField(_) => Binary
    case TextField(_) => Text
  }

  function RawValue(f: Field): Value {
    match f.value
    case UintField(v) => IntValue(v)
    case IntField(n) => IntValue(n)
    case FloatField(raw) => FloatBits(raw, f.width)
    case BoolField(b) => BoolValue(b)
    case BytesField(bytes) => BytesValue(bytes)
    case TextField(text) => StringValue(text)
  }

  function Zeros(n: nat): (bits: seq<bool>)
    ensures |bits| == n
  {
    seq(n, _ => false)
  }

  // The bits of a field: numbers big-endian, negative ones modulo 2^width, texts padded with nulls.
  function Encoded(f: Field): seq<bool> {
    match f.value
    case UintField(v) => UintBits(v, f.width)
    case IntField(n) => UintBits(n % Pow2(f.width), f.width)
    case FloatField(raw) => UintBits(raw, f.width)
    case BoolField(b) => UintBits(if b then 1 else 0, f.width)
    case BytesField(bytes) => Bits(bytes)
    case TextField(text) => Bits(text) + Zeros(if f.width >= 8 * |text| then f.width - 8 * |text| else 0)
  }

  lemma EncodedWidth(utf8: seq<byte> -> bool, f: Field)
    requires Fits(utf8, f)
    ensures |Encoded(f)| == f.width
  {}

  // The payload has these bits from there on.
  predicate Carries(payload: seq<byte>, start: nat, bits: seq<bool>) {
    start + |bits| <= 8 * |payload| && Bits(payload)[start..start + |bits|] == bits
  }

  lemma NumberReads(payload: seq<byte>, start: nat, v: nat, width: nat)
    requires width <= 64 && v < Pow2(width) && Carries(payload, start, UintBits(v, width))
    ensures BitFields.Uint(payload, start, width) == Ok(v)
  {
    hide UintBits, ValueOf, Bits;
    UintBitsRead(v, width);
  }

  lemma CarriesPart(payload: seq<byte>, start: nat, bits: seq<bool>, from: nat, to: nat)
    requires Carries(payload, start, bits) && from <= to <= |bits|
    ensures Carries(payload, start + from, bits[from..to])
  {
    var whole := Bits(payload);
    assert whole[start..start + |bits|][from..to] == whole[start + from..start + to];
  }

  lemma CarriesWithin(payload: seq<byte>, start: nat, a: seq<bool>, b: seq<bool>, from: nat, to: nat)
    requires Carries(payload, start, a + b) && from <= to <= |a|
    ensures Carries(payload, start + from, a[from..to])
  {
    hide Carries;
    CarriesPart(payload, start, a + b, from, to);
    assert (a + b)[from..to] == a[from..to];
  }

  lemma BitsOfByte(data: seq<byte>, k: nat)
    requires k < |data|
    ensures Bits(data)[8 * k..8 * k + 8] == ByteBits(data[k])
  {
    hide ByteBit, Bits;
    var bits := Bits(data)[8 * k..8 * k + 8];
    forall i | 0 <= i < 8
      ensures bits[i] == ByteBits(data[k])[i]
    {
      var j := 8 * k + i;
      assert j / 8 == k && j % 8 == i;
      BitsAt(data, j);
    }
  }

  lemma CarriedByte(payload: seq<byte>, start: nat, b: byte)
    requires Carries(payload, start, ByteBits(b))
    ensures InBuffer(payload, start, 8) && ByteAt(payload, start) == b
  {
    ValueOfByte(b);
  }

  lemma CarriedSlice(payload: seq<byte>, start: nat, a: seq<bool>, rest: seq<bool>, from: nat, b: byte)
    requires Carries(payload, start, a + rest) && from + 8 <= |a| && a[from..from + 8] == ByteBits(b)
    ensures InBuffer(payload, start + from, 8) && ByteAt(payload, start + from) == b
  {
    hide ByteBits, Bits, Carries, ByteAt, InBuffer;
    CarriesWithin(payload, start, a, rest, from, from + 8);
    CarriedByte(payload, start + from, b);
  }

  lemma ByteReads(payload: seq<byte>, start: nat, data: seq<byte>, rest: seq<bool>, k: nat)
    requires Carries(payload, start, Bits(data) + rest) && k < |data|
    ensures InBuffer(payload, start + k * 8, 8) && ByteAt(payload, start + k * 8) == data[k]
  {
    hide ByteBits, Bits, Carries, ByteAt, InBuffer;
    BitsOfByte(data, k);
    CarriedSlice(payload, start, Bits(data), rest, 8 * k, data[k]);
  }

  lemma {:induction false} ZerosAreZero(n: nat)
    ensures ValueOf(Zeros(n)) == 0
  {
    if n > 0 {
      ZerosAreZero(n - 1);
      assert Zeros(n)[..n - 1] == Zeros(n - 1);
    }
  }

  lemma BytesRead(payload: seq<byte>, start: nat, bytes: seq<byte>)
    requires Carries(payload, start, Bits(bytes))
    ensures BitFields.Binary(payload, start, 8 * |bytes|) == Ok(bytes)
  {
    hide ByteAt, Bits;
    assert Bits(bytes) + [] == Bits(bytes);
    assert InBuffer(payload, start, 8 * |bytes|);
    hide Carries;
    forall k | 0 <= k < |bytes|
      ensures ByteAt(payload, start + k * 8) == bytes[k]
    {
      ByteReads(payload, start, bytes, [], k);
    }
    BinaryIs(payload, start, bytes);
  }

  ghost predicate IsText(utf8: seq<byte> -> bool, text: seq<byte>, width: nat) {
    width % 8 == 0 && 8 * |text| <= width && utf8(text) && forall k :: 0 <= k < |text| ==> text[k] != 0
  }

  lemma TextReads(utf8: seq<byte> -> bool, payload: seq<byte>, start: nat, text: seq<byte>, width: nat)
    requires IsText(utf8, text, width)
    requires Carries(payload, start, Bits(text) + Zeros(width - 8 * |text|))
    ensures BitFields.Text(utf8, payload, start, width) == Ok(text)
  {
    hide StandsAt, TextBytes, Carries;
    TextStands(utf8, payload, start, text, width);
    TextBytesIff(payload, start, width / 8, text);
  }

  lemma TextStands(utf8: seq<byte> -> bool, payload: seq<byte>, start: nat, text: seq<byte>, width: nat)
    requires IsText(utf8, text, width)
    requires Carries(payload, start, Bits(text) + Zeros(width - 8 * |text|))
    ensures StandsAt(text, payload, start, width / 8)
  {
    hide ByteAt, Bits;
    var padding := Zeros(width - 8 * |text|);
    assert InBuffer(payload, start, 8 * |text|);
    hide Carries;
    forall k | 0 <= k < |text|
      ensures ByteAt(payload, start + k * 8) == text[k]
    {
      ByteReads(payload, start, text, padding, k);
    }
    if |text| < width / 8 {
      PaddingReads(payload, start, Bits(text), width - 8 * |text|);
    }
  }

  lemma PaddingReads(payload: seq<byte>, start: nat, bits: seq<bool>, n: nat)
    requires n >= 8 && Carries(payload, start, bits + Zeros(n))
    ensures InBuffer(payload, start + |bits|, 8) && ByteAt(payload, start + |bits|) == 0
  {
    CarriesPart(payload, start, bits + Zeros(n), |bits|, |bits| + 8);
    assert (bits + Zeros(n))[|bits|..|bits| + 8] == Zeros(8);
    ZerosAreZero(8);
  }

  lemma IntReads(payload: seq<byte>, start: nat, n: int, width: nat)
    requires 0 < width <= 64 && FitsSigned(n, width) && Carries(payload, start, UintBits(n % Pow2(width), width))
    ensures BitFields.Int(payload, start, width) == Ok(n)
  {
    hide BitFields.Int;
    NumberReads(payload, start, n % Pow2(width), width);
    IntIsTwosComplement(payload, start, width, n);
  }

  // Each field reads back.
  lemma FieldReads(utf8: seq<byte> -> bool, payload: seq<byte>, e: Entry, f: Field)
    requires Fits(utf8, f) && e.lengthBits == f.width && Carries(payload, e.startOffsetBits, Encoded(f))
    ensures Read(utf8, payload, KindOf(f.value), e) == Ok(RawValue(f))
  {
    hide BitFields.Uint, BitFields.Int, BitFields.Text, BitFields.Binary, Carries;
    var start := e.startOffsetBits;
    match f.value
    case UintField(v) =>
      NumberReads(payload, start, v, f.width);
      Pow2Grows(f.width, 63);
      PowersOfTwo();
    case IntField(n) => IntReads(payload, start, n, f.width);
    case FloatField(raw) => NumberReads(payload, start, raw, f.width);
    case BoolField(b) =>
      Pow2Grows(1, f.width);
      NumberReads(payload, start, if b then 1 else 0, f.width);
    case BytesField(bytes) => BytesRead(payload, start, bytes);
    case TextField(text) => TextReads(utf8, payload, start, text, f.width);
  }

  function EncodedAll(fields: seq<Field>): seq<bool> {
    if fields == [] then [] else EncodedAll(fields[..|fields| - 1]) + Encoded(fields[|fields| - 1])
  }

  function Nodes(fields: seq<Field>): (nodes: seq<EntryNode>)
    ensures |nodes| == |fields|
    ensures forall i :: 0 <= i < |nodes| ==> nodes[i] == EntryNode(Some(fields[i].name), None)
  {
    seq(|fields|, i requires 0 <= i < |fields| => EntryNode(Some(fields[i].name), None))
  }

  ghost predicate Described(
    utf8: seq<byte> -> bool, fields: seq<Field>, sizes: map<string, nat>, types: map<string, ParameterType>)
  {
    forall i :: 0 <= i < |fields| ==>
      && Fits(utf8, fields[i])
      && fields[i].name in sizes && sizes[fields[i].name] == fields[i].width
      && fields[i].name in types && types[fields[i].name] == KindOf(fields[i].value)
  }

  lemma {:induction false} CarriesField(payload: seq<byte>, fields: seq<Field>, i: nat)
    requires Carries(payload, 0, EncodedAll(fields)) && i < |fields|
    ensures Carries(payload, |EncodedAll(fields[..i])|, Encoded(fields[i]))
    decreases |fields|
  {
    hide Encoded;
    var init := fields[..|fields| - 1];
    var bits := EncodedAll(fields);
    if i == |fields| - 1 {
      CarriesPart(payload, 0, bits, |EncodedAll(init)|, |bits|);
      assert bits[|EncodedAll(init)|..|bits|] == Encoded(fields[i]);
    } else {
      CarriesPart(payload, 0, bits, 0, |EncodedAll(init)|);
      assert bits[0..|EncodedAll(init)|] == EncodedAll(init);
      CarriesField(payload, init, i);
      assert init[..i] == fields[..i];
    }
  }

  lemma {:induction false} EncodedStart(
    utf8: seq<byte> -> bool, fields: seq<Field>, sizes: map<string, nat>, types: map<string, ParameterType>,
    entries: seq<Entry>, n: nat)
    requires Described(utf8, fields, sizes, types) && n <= |fields| == |entries|
    requires forall i :: 0 <= i < |fields| ==> entries[i].lengthBits == fields[i].width
    ensures |EncodedAll(fields[..n])| == Total(Lengths(entries)[..n])
    decreases n
  {
    hide Encoded;
    if n > 0 {
      EncodedStart(utf8, fields, sizes, types, entries, n - 1);
      EncodedWidth(utf8, fields[n - 1]);
      assert fields[..n][..n - 1] == fields[..n - 1];
      assert Lengths(entries)[..n][..n - 1] == Lengths(entries)[..n - 1];
    }
  }

  // A payload made by writing the fields one after the other, laid out without explicit offsets,
  // decommutes to the fields' values, whatever follows them in the payload.
  lemma LayoutRoundTrip(
    utf8: seq<byte> -> bool, fields: seq<Field>, sizes: map<string, nat>, types: map<string, ParameterType>,
    payload: seq<byte>, i: nat)
    requires Described(utf8, fields, sizes, types) && Carries(payload, 0, EncodedAll(fields)) && i < |fields|
    ensures
      var layout := LaidOut(Nodes(fields), sizes);
      && layout.Ok? && |layout.value| == |fields|
      && layout.value[i].parameterName == fields[i].name
      && ReadEntry(utf8, payload, types, layout.value[i]) == Ok(RawValue(fields[i]))
  {
    hide Read, RawValue, Encoded, Carries, Fits;
    var nodes := Nodes(fields);
    LayoutIff(nodes, sizes);
    var entries := LaidOut(nodes, sizes).value;
    forall k | 0 <= k < |fields|
      ensures entries[k].lengthBits == fields[k].width && entries[k].parameterName == fields[k].name
    {
      assert Follows(nodes, sizes, entries, k);
    }
    StartsAtSum(nodes, sizes, i);
    EncodedStart(utf8, fields, sizes, types, entries, i);
    CarriesField(payload, fields, i);
    FieldReads(utf8, payload, entries[i], fields[i]);
  }

  // A 64-bit unsigned value goes through `as i64`: it comes back if and only if its first bit is not set.
  lemma WideUintWraps(payload: seq<byte>, utf8: seq<byte> -> bool, e: Entry, v: nat)
    requires e.lengthBits == 64 && v < Pow2(64) && Carries(payload, e.startOffsetBits, UintBits(v, e.lengthBits))
    ensures Read(utf8, payload, Uint, e) == Ok(IntValue(v)) <==> v < TWO_TO_THE_63
  {
    NumberReads(payload, e.startOffsetBits, v, e.lengthBits);
    PowersOfTwo();
  }

  // The lowest such value reads as the lowest signed one.
  lemma HighBitReadsNegative(utf8: seq<byte> -> bool, width: nat)
    requires width == 64
    ensures Read(utf8, Packed(UintBits(TWO_TO_THE_63, width)), Uint, Entry("p", 0, width)) ==
      Ok(IntValue(-0x8000_0000_0000_0000))
  {
    hide Packed;
    PowersOfTwo();
    PackedCarries(UintBits(TWO_TO_THE_63, width));
    NumberReads(Packed(UintBits(TWO_TO_THE_63, width)), 0, TWO_TO_THE_63, width);
  }

  /* Packing */

  // The shortest payload with these bits.
  function Packed(bits: seq<bool>): (payload: seq<byte>)
    ensures |payload| == (|bits| + 7) / 8
  {
    seq((|bits| + 7) / 8, k requires 0 <= k < (|bits| + 7) / 8 => ByteOf((bits + Zeros(7))[8 * k..8 * k + 8]))
  }

  lemma PackedCarries(bits: seq<bool>)
    ensures Carries(Packed(bits), 0, bits)
  {
    hide ByteBit, ByteOf;
    var payload := Packed(bits);
    forall i | 0 <= i < |bits|
      ensures Bits(payload)[i] == bits[i]
    {
      var k := i / 8;
      var chunk := (bits + Zeros(7))[8 * k..8 * k + 8];
      BitsAt(payload, i);
      ByteOfBits(chunk);
      assert ByteBits(payload[k])[i % 8] == chunk[i % 8];
    }
  }
}

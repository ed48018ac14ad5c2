/** Extraction of fields of any width and alignment from a packet (`extract_uint`, `extract_int`,
    `extract_bool`, `extract_string`, `extract_binary`). */
module BitFields {
  import opened Prelude
  import opened Bytes
  import opened BitStrings

  datatype XtceError = DecommutationFailed | XmlValidationError

  const TWO_TO_THE_63: nat := 0x8000_0000_0000_0000
  const TWO_TO_THE_64: nat := 0x1_0000_0000_0000_0000

  // `as i64` on a `u64`.
  function AsI64(u: int): int { if u < TWO_TO_THE_63 then u else u - TWO_TO_THE_64 }

  predicate InBuffer(buffer: seq<byte>, start: nat, length: nat) { start + length <= 8 * |buffer| }

  // The number written by the bits of a field.
  function Field(buffer: seq<byte>, start: nat, length: nat): (v: nat)
    requires InBuffer(buffer, start, length)
  {
    ValueOf(Bits(buffer)[start..start + length])
  }

  function Uint(buffer: seq<byte>, start: nat, length: nat): Result<nat, XtceError> {
    if length == 0 then Ok(0)
    else if length > 64 || !InBuffer(buffer, start, length) then Err(DecommutationFailed)
    else Ok(Field(buffer, start, length))
  }

  method ExtractUint(buffer: seq<byte>, startOffsetBits: nat, lengthBits: nat) returns (r: Result<nat, XtceError>)
    ensures r == Uint(buffer, startOffsetBits, lengthBits)
    ensures r.Ok? ==> r.value < TWO_TO_THE_64
  {
    if lengthBits == 0 {
      return Ok(0);
    }
    if lengthBits > 64 {
      return Err(DecommutationFailed);
    }
    var endBit := startOffsetBits + lengthBits;
    var requiredBytes := (endBit + 7) / 8;
    if |buffer| < requiredBytes {
      return Err(DecommutationFailed);
    }
    var val := 0;
    for i := 0 to lengthBits
      invariant val == Field(buffer, startOffsetBits, i)
    {
      var bitIndex := startOffsetBits + i;
      var bit := ByteBit(buffer[bitIndex / 8], bitIndex % 8);
      FieldGrows(buffer, startOffsetBits, i);
      val := val * 2 + Digit(bit);
    }
    FieldBound(buffer, startOffsetBits, lengthBits);
    return Ok(val);
  }

  lemma FieldGrows(buffer: seq<byte>, start: nat, i: nat)
    requires InBuffer(buffer, start, i + 1)
    ensures Field(buffer, start, i + 1) ==
      Field(buffer, start, i) * 2 + Digit(ByteBit(buffer[(start + i) / 8], (start + i) % 8))
  {
    var longer := Bits(buffer)[start..start + i + 1];
    assert longer[..i] == Bits(buffer)[start..start + i];
    BitsAt(buffer, start + i);
  }

  lemma PowersOfTwo()
    ensures Pow2(63) == TWO_TO_THE_63 && Pow2(64) == TWO_TO_THE_64
  {
    Pow2Of8();
    Pow2Adds(8, 8);
    Pow2Adds(16, 16);
    Pow2Adds(32, 32);
    assert Pow2(64) == 2 * Pow2(63);
  }

  lemma {:induction false} Pow2Grows(a: nat, b: nat)
    requires a <= b
    ensures Pow2(a) <= Pow2(b)
    decreases b
  {
    if a < b { Pow2Grows(a, b - 1); }
  }

  lemma FieldBound(buffer: seq<byte>, start: nat, length: nat)
    requires InBuffer(buffer, start, length) && length <= 64
    ensures Field(buffer, start, length) < Pow2(length) <= TWO_TO_THE_64
  {
    ValueBound(Bits(buffer)[start..start + length]);
    Pow2Grows(length, 64);
    PowersOfTwo();
  }

  /* What a field is worth */

  // Shift the buffer's big-endian number right to the end of the field and mask it.
  lemma FieldIsShiftedAndMasked(buffer: seq<byte>, start: nat, length: nat)
    requires InBuffer(buffer, start, length)
    ensures Field(buffer, start, length) ==
      BigEndian(buffer) / Pow2(8 * |buffer| - (start + length)) % Pow2(length)
  {
    BitsAreBigEndian(buffer);
    ValueOfSlice(Bits(buffer), start, start + length);
  }

  // A field splits at any bit inside it.
  lemma FieldSplits(buffer: seq<byte>, start: nat, high: nat, low: nat)
    requires InBuffer(buffer, start, high + low)
    ensures Field(buffer, start, high + low) ==
      Field(buffer, start, high) * Pow2(low) + Field(buffer, start + high, low)
  {
    var bits := Bits(buffer);
    assert bits[start..start + (high + low)] == bits[start..start + high] + bits[start + high..start + high + low];
    ValueOfConcat(bits[start..start + high], bits[start + high..start + high + low]);
  }

  // Extraction fails exactly on a field wider than a word or one with a bit beyond the buffer.
  lemma UintFailsIff(buffer: seq<byte>, start: nat, length: nat)
    ensures Uint(buffer, start, length).Err? <==>
      length > 64 || exists k {:trigger k / 8} :: start <= k < start + length && k / 8 >= |buffer|
  {
    if 0 < length && !InBuffer(buffer, start, length) {
      assert (start + length - 1) / 8 >= |buffer|;
    }
  }

  /* Signed integers */

  // Setting the bits above the field, when its first bit is set.
  function SignExtended(raw: nat, length: nat): int
    requires 0 < length <= 64
  {
    if raw / Pow2(length - 1) % 2 == 1 && length < 64 then raw + TWO_TO_THE_64 - Pow2(length) else raw
  }

  function Int(buffer: seq<byte>, start: nat, length: nat): Result<int, XtceError> {
    match Uint(buffer, start, length)
    case Err(error) => Err(error)
    case Ok(raw) =>
      if length == 0 then Ok(0) else Ok(AsI64(SignExtended(raw, length)))
  }

  predicate FitsSigned(v: int, length: nat)
    requires length > 0
  {
    -(Pow2(length - 1) as int) <= v < Pow2(length - 1)
  }

  method ExtractInt(buffer: seq<byte>, startOffsetBits: nat, lengthBits: nat) returns (r: Result<int, XtceError>)
    ensures r == Int(buffer, startOffsetBits, lengthBits)
  {
    var raw := ExtractUint(buffer, startOffsetBits, lengthBits);
    if raw.Err? {
      return Err(raw.error);
    }
    if lengthBits == 0 {
      return Ok(0);
    }
    var signBit := raw.value / Pow2(lengthBits - 1) % 2;
    if signBit == 1 {
      if lengthBits == 64 {
        return Ok(AsI64(raw.value));
      } else {
        var extended := raw.value + (TWO_TO_THE_64 - Pow2(lengthBits));
        return Ok(AsI64(extended));
      }
    }
    return Ok(AsI64(raw.value));
  }

  lemma TwosComplement(raw: nat, length: nat)
    requires 0 < length <= 64 && raw < Pow2(length)
    ensures
      var v := AsI64(SignExtended(raw, length));
      FitsSigned(v, length) && v % Pow2(length) == raw
  {
    PowersOfTwo();
    Pow2Grows(length, 64);
    Pow2Grows(length - 1, 63);
    var half := Pow2(length - 1);
    assert Pow2(length) == 2 * half;
    SignBit(raw, half);
    var v := AsI64(SignExtended(raw, length));
    assert v == if raw >= half then raw - 2 * half else raw;
    Wrapped(v, raw, 2 * half);
  }

  lemma SignBit(raw: nat, half: nat)
    requires 0 < half && raw < 2 * half
    ensures raw / half % 2 == 1 <==> raw >= half
  {
    DivMod(if raw >= half then 1 else 0, if raw >= half then raw - half else raw, half);
  }

  lemma Wrapped(v: int, raw: nat, m: nat)
    requires raw < m && (v == raw || v == raw - m)
    ensures v % m == raw
  {
    QuotientUnique(v / m, v % m, if v == raw then 0 else -1, raw, m);
  }

  // A signed field reads as the one number of its width that has these bits.
  lemma IntIsTwosComplement(buffer: seq<byte>, start: nat, length: nat, v: int)
    requires 0 < length <= 64 && InBuffer(buffer, start, length)
    ensures Int(buffer, start, length) == Ok(v) <==>
      FitsSigned(v, length) && v % Pow2(length) == Field(buffer, start, length)
  {
    var raw := Field(buffer, start, length);
    FieldBound(buffer, start, length);
    TwosComplement(raw, length);
    var w := AsI64(SignExtended(raw, length));
    if FitsSigned(v, length) && v % Pow2(length) == raw {
      Congruent(v, w, Pow2(length));
    }
  }

  lemma Congruent(v: int, w: int, m: nat)
    requires m > 0 && v % m == w % m && w - m < v < w + m
    ensures v == w
  {
    assert v == v / m * m + v % m && w == w / m * m + w % m;
    assert v - w == (v / m - w / m) * m;
    MultipleIsFar(v / m - w / m, m);
  }

  /* Booleans, byte strings and texts */

  function Bool(buffer: seq<byte>, start: nat, length: nat): Result<bool, XtceError> {
    match Uint(buffer, start, length)
    case Err(error) => Err(error)
    case Ok(raw) => Ok(raw != 0)
  }

  method ExtractBool(buffer: seq<byte>, startOffsetBits: nat, lengthBits: nat) returns (r: Result<bool, XtceError>)
    ensures r == Bool(buffer, startOffsetBits, lengthBits)
  {
    var raw := ExtractUint(buffer, startOffsetBits, lengthBits);
    if raw.Err? {
      return Err(raw.error);
    }
    return Ok(raw.value != 0);
  }

  function ByteAt(buffer: seq<byte>, start: nat): byte
    requires InBuffer(buffer, start, 8)
  {
    FieldBound(buffer, start, 8);
    Pow2Of8();
    Field(buffer, start, 8)
  }

  lemma UintOfByte(buffer: seq<byte>, start: nat)
    ensures Uint(buffer, start, 8) ==
      if InBuffer(buffer, start, 8) then Ok(ByteAt(buffer, start) as nat) else Err(DecommutationFailed)
  {}

  function BytesAt(buffer: seq<byte>, start: nat, n: nat): (b: seq<byte>)
    requires InBuffer(buffer, start, 8 * n)
    ensures |b| == n
  {
    seq(n, i requires 0 <= i < n => ByteAt(buffer, start + i * 8))
  }

  function Binary(buffer: seq<byte>, start: nat, length: nat): Result<seq<byte>, XtceError> {
    if length % 8 != 0 then Err(DecommutationFailed)
    else if length == 0 then Ok([])
    else if InBuffer(buffer, start, length) then Ok(BytesAt(buffer, start, length / 8))
    else Err(DecommutationFailed)
  }

  lemma BinaryIs(buffer: seq<byte>, start: nat, bytes: seq<byte>)
    requires InBuffer(buffer, start, 8 * |bytes|)
    requires forall k :: 0 <= k < |bytes| ==> ByteAt(buffer, start + k * 8) == bytes[k]
    ensures Binary(buffer, start, 8 * |bytes|) == Ok(bytes)
  {
    hide ByteAt;
    if bytes != [] {
      assert BytesAt(buffer, start, |bytes|) == bytes;
    }
  }

  method ExtractByte(buffer: seq<byte>, start: nat) returns (r: Result<byte, XtceError>)
    ensures r == if InBuffer(buffer, start, 8) then Ok(ByteAt(buffer, start)) else Err(DecommutationFailed)
  {
    var raw := ExtractUint(buffer, start, 8);
    UintOfByte(buffer, start);
    if raw.Err? {
      return Err(raw.error);
    }
    return Ok(raw.value % 256);
  }

  method ExtractBinary(buffer: seq<byte>, startOffsetBits: nat, lengthBits: nat)
    returns (r: Result<seq<byte>, XtceError>)
    ensures r == Binary(buffer, startOffsetBits, lengthBits)
  {
    if lengthBits % 8 != 0 {
      return Err(DecommutationFailed);
    }
    var lengthBytes := lengthBits / 8;
    var bytes: seq<byte> := [];
    for i := 0 to lengthBytes
      invariant |bytes| == i && (i > 0 ==> InBuffer(buffer, startOffsetBits, 8 * i))
      invariant forall k :: 0 <= k < i ==> bytes[k] == ByteAt(buffer, startOffsetBits + k * 8)
    {
      var b := ExtractByte(buffer, startOffsetBits + i * 8);
      if b.Err? {
        return Err(b.error);
      }
      bytes := bytes + [b.value];
    }
    if lengthBytes > 0 {
      assert bytes == BytesAt(buffer, startOffsetBits, lengthBytes);
    }
    return Ok(bytes);
  }

  // The bytes of a text field of n bytes up to a null byte; what follows it is not looked at.
  function TextBytes(buffer: seq<byte>, start: nat, n: nat): Result<seq<byte>, XtceError>
    decreases n
  {
    if n == 0 then Ok([])
    else if !InBuffer(buffer, start, 8) then Err(DecommutationFailed)
    else if ByteAt(buffer, start) == 0 then Ok([])
    else Prefixed([ByteAt(buffer, start)], TextBytes(buffer, start + 8, n - 1))
  }

  function Prefixed(head: seq<byte>, tail: Result<seq<byte>, XtceError>): Result<seq<byte>, XtceError> {
    if tail.Ok? then Ok(head + tail.value) else tail
  }

  // `utf8` tells the byte sequences that are valid UTF-8.
  function Text(utf8: seq<byte> -> bool, buffer: seq<byte>, start: nat, length: nat): Result<seq<byte>, XtceError> {
    if length % 8 != 0 then Err(DecommutationFailed)
    else
      match TextBytes(buffer, start, length / 8)
      case Err(error) => Err(error)
      case Ok(bytes) => if utf8(bytes) then Ok(bytes) else Err(DecommutationFailed)
  }

  method ExtractString(utf8: seq<byte> -> bool, buffer: seq<byte>, startOffsetBits: nat, lengthBits: nat)
    returns (r: Result<seq<byte>, XtceError>)
    ensures r == Text(utf8, buffer, startOffsetBits, lengthBits)
  {
    hide ByteAt, InBuffer;
    if lengthBits % 8 != 0 {
      return Err(DecommutationFailed);
    }
    var lengthBytes := lengthBits / 8;
    var bytes: seq<byte> := [];
    PrefixedNothing(TextBytes(buffer, startOffsetBits, lengthBytes));
    ghost var whole := TextBytes(buffer, startOffsetBits, lengthBytes);
    var i := 0;
    while i < lengthBytes
      invariant 0 <= i <= lengthBytes
      invariant whole == Prefixed(bytes, TextBytes(buffer, startOffsetBits + i * 8, lengthBytes - i))
    {
      var b := ExtractByte(buffer, startOffsetBits + i * 8);
      if b.Err? {
        return Err(b.error);
      }
      if b.value == 0 {
        break;
      }
      PrefixedTwice(bytes, [b.value], TextBytes(buffer, startOffsetBits + (i + 1) * 8, lengthBytes - (i + 1)));
      bytes := bytes + [b.value];
      i := i + 1;
    }
    assert bytes + [] == bytes;
    assert whole == Ok(bytes);
    if utf8(bytes) {
      return Ok(bytes);
    }
    return Err(DecommutationFailed);
  }

  lemma PrefixedNothing(tail: Result<seq<byte>, XtceError>)
    ensures Prefixed([], tail) == tail
  {
    assert tail.Ok? ==> [] + tail.value == tail.value;
  }

  lemma PrefixedIs(head: byte, tail: Result<seq<byte>, XtceError>, text: seq<byte>)
    ensures Prefixed([head], tail) == Ok(text) <==> text != [] && text[0] == head && tail == Ok(text[1..])
  {
    if tail.Ok? {
      assert ([head] + tail.value)[1..] == tail.value;
    }
    if text != [] {
      assert text == [text[0]] + text[1..];
    }
  }

  lemma PrefixedTwice(a: seq<byte>, b: seq<byte>, tail: Result<seq<byte>, XtceError>)
    ensures Prefixed(a, Prefixed(b, tail)) == Prefixed(a + b, tail)
  {
    if tail.Ok? {
      assert a + (b + tail.value) == a + b + tail.value;
    }
  }

  // The text is what stands before the first null byte or the end of the field; only a text that
  // runs out of the buffer before either cannot be read.
  ghost predicate StandsAt(text: seq<byte>, buffer: seq<byte>, start: nat, n: nat) {
    && |text| <= n && (text != [] ==> InBuffer(buffer, start, 8 * |text|))
    && (forall k :: 0 <= k < |text| ==> text[k] == ByteAt(buffer, start + k * 8) && text[k] != 0)
    && (|text| < n ==>
          InBuffer(buffer, start + |text| * 8, 8) && ByteAt(buffer, start + |text| * 8) == 0)
  }

  lemma {:induction false} TextBytesIff(buffer: seq<byte>, start: nat, n: nat, text: seq<byte>)
    ensures TextBytes(buffer, start, n) == Ok(text) <==> StandsAt(text, buffer, start, n)
    decreases n
  {
    hide ByteAt;
    if text != [] && StandsAt(text, buffer, start, n) {
      assert text[0] == ByteAt(buffer, start + 0 * 8);
    }
    if n > 0 && InBuffer(buffer, start, 8) && ByteAt(buffer, start) != 0 {
      PrefixedIs(ByteAt(buffer, start), TextBytes(buffer, start + 8, n - 1), text);
      if text != [] {
        TextBytesIff(buffer, start + 8, n - 1, text[1..]);
        StandsAtCons(text, buffer, start, n);
      }
    }
  }

  lemma StandsAtCons(text: seq<byte>, buffer: seq<byte>, start: nat, n: nat)
    requires text != [] && n > 0 && InBuffer(buffer, start, 8) && ByteAt(buffer, start) != 0
    ensures StandsAt(text, buffer, start, n) <==>
      text[0] == ByteAt(buffer, start) && StandsAt(text[1..], buffer, start + 8, n - 1)
  {
    hide ByteAt;
    var rest := text[1..];
    assert forall k {:trigger rest[k]} :: 0 <= k < |rest| ==>
      rest[k] == text[k + 1] && start + 8 + k * 8 == start + (k + 1) * 8;
    assert forall k {:trigger text[k]} :: 1 <= k < |text| ==>
      text[k] == rest[k - 1] && start + k * 8 == start + 8 + (k - 1) * 8;
  }
}

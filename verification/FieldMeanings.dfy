/** What the readers of booleans, byte strings and texts read, told from the bits of the buffer. */
module FieldMeanings {
  import opened Prelude
  import opened Bytes
  import opened BitStrings
  import opened BitFields
  import Decommutation

  // These bits stand in the buffer from a place on; no bits stand anywhere.
  predicate BitsStand(buffer: seq<byte>, start: nat, bits: seq<bool>) {
    bits == [] || (start + |bits| <= 8 * |buffer| && Bits(buffer)[start..start + |bits|] == bits)
  }

  lemma {:induction false} ValueZeroIff(bits: seq<bool>)
    ensures ValueOf(bits) != 0 <==> exists k :: 0 <= k < |bits| && bits[k]
  {
    if bits != [] {
      var n := |bits| - 1;
      ValueZeroIff(bits[..n]);
      if k :| 0 <= k < |bits| && bits[k] {
        assert k < n ==> bits[..n][k];
      }
      if k :| 0 <= k < n && bits[..n][k] {
        assert bits[k];
      }
    }
  }

  // Some bit of the field is set.
  predicate SomeSet(whole: seq<bool>, start: nat, length: nat) {
    exists k {:trigger whole[k]} :: start <= k < start + length && k < |whole| && whole[k]
  }

  lemma SomeSetIff(whole: seq<bool>, start: nat, length: nat)
    requires start + length <= |whole|
    ensures SomeSet(whole, start, length) <==> ValueOf(whole[start..start + length]) != 0
  {
    hide ValueOf;
    var bits := whole[start..start + length];
    ValueZeroIff(bits);
    if SomeSet(whole, start, length) {
      var k :| start <= k < start + length && k < |whole| && whole[k];
      assert bits[k - start];
    }
    if ValueOf(bits) != 0 {
      var k :| 0 <= k < |bits| && bits[k];
      assert whole[start + k];
    }
  }

  // A boolean is read if its bits are there, at most 64 of them, and is true if one of them is set.
  lemma BoolIff(buffer: seq<byte>, start: nat, length: nat, b: bool)
    ensures Bool(buffer, start, length) == Ok(b) <==>
      && length <= 64 && (length == 0 || start + length <= 8 * |buffer|)
      && (b <==> SomeSet(Bits(buffer), start, length))
  {
    hide Bits, ValueOf;
    if start + length <= 8 * |buffer| {
      SomeSetIff(Bits(buffer), start, length);
    }
  }

  lemma ByteAtIff(buffer: seq<byte>, start: nat, b: byte)
    requires InBuffer(buffer, start, 8)
    ensures ByteAt(buffer, start) == b <==> BitsStand(buffer, start, ByteBits(b))
  {
    hide Bits, ByteBits, ValueOf;
    var bits := Bits(buffer)[start..start + 8];
    assert ByteAt(buffer, start) == ByteOf(bits);
    ByteOfBits(bits);
    ValueOfByte(b);
  }

  // The bits of a byte string stand where those of its bytes do.
  lemma BytesStandIff(buffer: seq<byte>, start: nat, bytes: seq<byte>)
    requires InBuffer(buffer, start, 8 * |bytes|)
    ensures BitsStand(buffer, start, Bits(bytes)) <==>
      forall k :: 0 <= k < |bytes| ==> BitsStand(buffer, start + k * 8, ByteBits(bytes[k]))
  {
    hide Bits, ByteBits;
    var whole, bits := Bits(buffer), Bits(bytes);
    if BitsStand(buffer, start, bits) && bytes != [] {
      forall k | 0 <= k < |bytes|
        ensures BitsStand(buffer, start + k * 8, ByteBits(bytes[k]))
      {
        Decommutation.BitsOfByte(bytes, k);
        SameSlice(whole, start, bits, 8 * k, 8 * k + 8);
      }
    }
    if forall k :: 0 <= k < |bytes| ==> BitsStand(buffer, start + k * 8, ByteBits(bytes[k])) {
      forall i | 0 <= i < |bits|
        ensures whole[start + i] == bits[i]
      {
        BitOfByte(buffer, start, bytes, i);
      }
      SameBits(whole, start, bits);
    }
  }

  lemma BitOfByte(buffer: seq<byte>, start: nat, bytes: seq<byte>, i: nat)
    requires InBuffer(buffer, start, 8 * |bytes|) && i < 8 * |bytes|
    requires BitsStand(buffer, start + i / 8 * 8, ByteBits(bytes[i / 8]))
    ensures Bits(buffer)[start + i] == Bits(bytes)[i]
  {
    hide Bits, ByteBits;
    var k := i / 8;
    var whole, bits := Bits(buffer), Bits(bytes);
    Decommutation.BitsOfByte(bytes, k);
    assert whole[start + k * 8..start + k * 8 + 8][i - 8 * k] == bits[8 * k..8 * k + 8][i - 8 * k];
  }

  lemma SameBits(whole: seq<bool>, start: nat, bits: seq<bool>)
    requires start + |bits| <= |whole| && forall i :: 0 <= i < |bits| ==> whole[start + i] == bits[i]
    ensures whole[start..start + |bits|] == bits
  {}

  lemma SameSlice(whole: seq<bool>, start: nat, bits: seq<bool>, from: nat, to: nat)
    requires start + |bits| <= |whole| && whole[start..start + |bits|] == bits && from <= to <= |bits|
    ensures whole[start + from..start + to] == bits[from..to]
  {
    forall i | 0 <= i < to - from
      ensures whole[start + from..start + to][i] == bits[from..to][i]
    {
      assert bits[from + i] == whole[start + (from + i)];
    }
  }

  // A byte string is read if its length is one of whole bytes and its bits are there, and they are its bits.
  lemma BinaryIff(buffer: seq<byte>, start: nat, length: nat, bytes: seq<byte>)
    ensures Binary(buffer, start, length) == Ok(bytes) <==>
      length == 8 * |bytes| && BitsStand(buffer, start, Bits(bytes))
    ensures Binary(buffer, start, length).Err? <==>
      length % 8 != 0 || (length > 0 && start + length > 8 * |buffer|)
  {
    hide Bits, ByteAt;
    if length == 8 * |bytes| && bytes != [] && InBuffer(buffer, start, length) {
      BytesStandIff(buffer, start, bytes);
      forall k | 0 <= k < |bytes|
        ensures BytesAt(buffer, start, |bytes|)[k] == bytes[k] <==> BitsStand(buffer, start + k * 8, ByteBits(bytes[k]))
      {
        ByteAtIff(buffer, start + k * 8, bytes[k]);
      }
      assert BytesAt(buffer, start, |bytes|) == bytes <==>
        forall k :: 0 <= k < |bytes| ==> BytesAt(buffer, start, |bytes|)[k] == bytes[k];
    }
  }

  lemma StandsIff(buffer: seq<byte>, start: nat, n: nat, text: seq<byte>)
    requires |text| <= n
    ensures StandsAt(text, buffer, start, n) <==>
      && (forall k :: 0 <= k < |text| ==> text[k] != 0) && BitsStand(buffer, start, Bits(text))
      && (|text| < n ==> BitsStand(buffer, start + 8 * |text|, ByteBits(0)))
  {
    hide Bits, ByteBits, ByteAt;
    if text == [] || InBuffer(buffer, start, 8 * |text|) {
      if text != [] {
        BytesStandIff(buffer, start, text);
        forall k | 0 <= k < |text|
          ensures text[k] == ByteAt(buffer, start + k * 8) <==> BitsStand(buffer, start + k * 8, ByteBits(text[k]))
        {
          ByteAtIff(buffer, start + k * 8, text[k]);
        }
      }
      if InBuffer(buffer, start + |text| * 8, 8) {
        ByteAtIff(buffer, start + |text| * 8, 0);
      }
    }
  }

  // A text is read if its length is one of whole bytes, it has no null byte, its bits stand at the start
  // of the field, it is valid, and it fills the field or the eight bits behind it are zero; what follows
  // them need not be there.
  lemma TextIff(utf8: seq<byte> -> bool, buffer: seq<byte>, start: nat, length: nat, text: seq<byte>)
    ensures Text(utf8, buffer, start, length) == Ok(text) <==>
      && length % 8 == 0 && 8 * |text| <= length && utf8(text)
      && (forall k :: 0 <= k < |text| ==> text[k] != 0)
      && BitsStand(buffer, start, Bits(text))
      && (8 * |text| < length ==> BitsStand(buffer, start + 8 * |text|, ByteBits(0)))
  {
    hide Bits, ByteBits, ByteAt, TextBytes;
    var n := length / 8;
    TextBytesIff(buffer, start, n, text);
    if length % 8 == 0 && |text| <= n {
      StandsIff(buffer, start, n, text);
    }
  }

  /* Entries of a container */

  // The bits of an entry are in the payload; an entry without bits has none to miss.
  predicate Inside(payload: seq<byte>, e: Decommutation.Entry) {
    e.lengthBits == 0 || e.startOffsetBits + e.lengthBits <= 8 * |payload|
  }

  function BitsOf(payload: seq<byte>, e: Decommutation.Entry): seq<bool> {
    if e.startOffsetBits + e.lengthBits <= 8 * |payload| then
      Bits(payload)[e.startOffsetBits..e.startOffsetBits + e.lengthBits]
    else []
  }

  // What an entry of this kind says, told from its bits.
  ghost predicate Says(
    utf8: seq<byte> -> bool, payload: seq<byte>, kind: Decommutation.ParameterType, e: Decommutation.Entry,
    value: Decommutation.Value)
  {
    var start, length, written := e.startOffsetBits, e.lengthBits, ValueOf(BitsOf(payload, e));
    match kind
    case Uint =>
      && length <= 64 && Inside(payload, e)
      && value == Decommutation.IntValue(
                    if written < 0x8000_0000_0000_0000 then written else written - 0x1_0000_0000_0000_0000)
    case Int =>
      && length <= 64 && Inside(payload, e) && value.IntValue?
      && if length == 0 then value.n == 0
         else -(Pow2(length - 1) as int) <= value.n < Pow2(length - 1) && value.n % Pow2(length) == written
    case Float =>
      (length == 32 || length == 64) && Inside(payload, e) && value == Decommutation.FloatBits(written, length)
    case Boolean =>
      && length <= 64 && Inside(payload, e)
      && value == Decommutation.BoolValue(SomeSet(Bits(payload), start, length))
    case Text =>
      && value.StringValue? && length % 8 == 0 && 8 * |value.text| <= length && utf8(value.text)
      && (forall k :: 0 <= k < |value.text| ==> value.text[k] != 0)
      && BitsStand(payload, start, Bits(value.text))
      && (8 * |value.text| < length ==> BitsStand(payload, start + 8 * |value.text|, ByteBits(0)))
    case Binary =>
      value.BytesValue? && length == 8 * |value.bytes| && BitsStand(payload, start, Bits(value.bytes))
  }

  lemma UintSays(payload: seq<byte>, e: Decommutation.Entry)
    ensures Uint(payload, e.startOffsetBits, e.lengthBits) ==
      if e.lengthBits <= 64 && Inside(payload, e) then Ok(ValueOf(BitsOf(payload, e))) else Err(DecommutationFailed)
  {
    hide Bits;
  }

  lemma IntSays(payload: seq<byte>, e: Decommutation.Entry, n: int)
    ensures Int(payload, e.startOffsetBits, e.lengthBits) == Ok(n) <==>
      && e.lengthBits <= 64 && Inside(payload, e)
      && if e.lengthBits == 0 then n == 0
         else -(Pow2(e.lengthBits - 1) as int) <= n < Pow2(e.lengthBits - 1)
              && n % Pow2(e.lengthBits) == ValueOf(BitsOf(payload, e))
    ensures Int(payload, e.startOffsetBits, e.lengthBits).Err? ==>
      Int(payload, e.startOffsetBits, e.lengthBits).error == DecommutationFailed
  {
    hide Bits, ValueOf, SignExtended, AsI64, Pow2;
    if 0 < e.lengthBits <= 64 && Inside(payload, e) {
      IntIsTwosComplement(payload, e.startOffsetBits, e.lengthBits, n);
    }
  }

  lemma OneError(utf8: seq<byte> -> bool, payload: seq<byte>, start: nat, length: nat)
    ensures Text(utf8, payload, start, length).Err? ==> Text(utf8, payload, start, length).error == DecommutationFailed
    ensures Bool(payload, start, length).Err? ==> Bool(payload, start, length).error == DecommutationFailed
    ensures Binary(payload, start, length).Err? ==> Binary(payload, start, length).error == DecommutationFailed
  {
    hide ByteAt, Bits;
    TextBytesError(payload, start, length / 8);
  }

  lemma TextBytesError(payload: seq<byte>, start: nat, n: nat)
    ensures TextBytes(payload, start, n).Err? ==> TextBytes(payload, start, n).error == DecommutationFailed
    decreases n
  {
    hide ByteAt;
  }

  lemma NumbersSay(
    utf8: seq<byte> -> bool, payload: seq<byte>, kind: Decommutation.ParameterType, e: Decommutation.Entry,
    value: Decommutation.Value)
    requires kind.Uint? || kind.Int? || kind.Float?
    ensures Decommutation.Read(utf8, payload, kind, e) == Ok(value) <==> Says(utf8, payload, kind, e, value)
    ensures Decommutation.Read(utf8, payload, kind, e).Err? ==>
      Decommutation.Read(utf8, payload, kind, e).error == DecommutationFailed
  {
    hide Bits, BitFields.Int, BitFields.Uint, ValueOf, BitsOf, Inside, Pow2;
    UintSays(payload, e);
    IntSays(payload, e, if value.IntValue? then value.n else 0);
  }

  lemma OthersSay(
    utf8: seq<byte> -> bool, payload: seq<byte>, kind: Decommutation.ParameterType, e: Decommutation.Entry,
    value: Decommutation.Value)
    requires kind.Boolean? || kind.Text? || kind.Binary?
    ensures Decommutation.Read(utf8, payload, kind, e) == Ok(value) <==> Says(utf8, payload, kind, e, value)
    ensures Decommutation.Read(utf8, payload, kind, e).Err? ==>
      Decommutation.Read(utf8, payload, kind, e).error == DecommutationFailed
  {
    hide Bits, Bool, BitFields.Binary, BitFields.Text, BitsStand, SomeSet, ByteBits;
    var start, length := e.startOffsetBits, e.lengthBits;
    OneError(utf8, payload, start, length);
    if kind.Boolean? {
      BoolIff(payload, start, length, SomeSet(Bits(payload), start, length));
      BoolIff(payload, start, length, !SomeSet(Bits(payload), start, length));
    } else if value.StringValue? {
      TextIff(utf8, payload, start, length, value.text);
    } else if value.BytesValue? {
      BinaryIff(payload, start, length, value.bytes);
    }
  }

  // An entry is read exactly as what its kind makes of its bits, and otherwise fails.
  lemma EntryReadsIff(
    utf8: seq<byte> -> bool, payload: seq<byte>, types: map<string, Decommutation.ParameterType>,
    e: Decommutation.Entry, value: Decommutation.Value)
    ensures Decommutation.ReadEntry(utf8, payload, types, e) == Ok(value) <==>
      e.parameterName in types && Says(utf8, payload, types[e.parameterName], e, value)
    ensures Decommutation.ReadEntry(utf8, payload, types, e).Err? ==>
      Decommutation.ReadEntry(utf8, payload, types, e).error == DecommutationFailed
  {
    hide Says, Decommutation.Read;
    if e.parameterName in types {
      var kind := types[e.parameterName];
      if kind.Uint? || kind.Int? || kind.Float? {
        NumbersSay(utf8, payload, kind, e, value);
      } else {
        OthersSay(utf8, payload, kind, e, value);
      }
    }
  }
}

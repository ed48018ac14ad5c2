/** Numbers and the bits that write them, most significant bit first. */
module BitStrings {
  import opened Prelude
  import opened Bytes

  function Pow2(k: nat): (p: nat)
    ensures p > 0
  {
    if k == 0 then 1 else 2 * Pow2(k - 1)
  }

  // Bit i of a byte, counted from the most significant one.
  predicate ByteBit(b: byte, i: nat) {
    match i
    case 0 => b / 128 % 2 == 1
    case 1 => b / 64 % 2 == 1
    case 2 => b / 32 % 2 == 1
    case 3 => b / 16 % 2 == 1
    case 4 => b / 8 % 2 == 1
    case 5 => b / 4 % 2 == 1
    case 6 => b / 2 % 2 == 1
    case _ => b % 2 == 1
  }

  function ByteBits(b: byte): (p: seq<bool>)
    ensures |p| == 8
  {
    seq(8, i requires 0 <= i < 8 => ByteBit(b, i))
  }

  // The bits of a packet, most significant bit of the first byte first.
  function Bits(data: seq<byte>): (p: seq<bool>)
    ensures |p| == 8 * |data|
  {
    if data == [] then [] else Bits(data[..|data| - 1]) + ByteBits(data[|data| - 1])
  }

  function Digit(bit: bool): (d: nat)
    ensures d < 2
  {
    if bit then 1 else 0
  }

  function ValueOf(bits: seq<bool>): nat {
    if bits == [] then 0 else ValueOf(bits[..|bits| - 1]) * 2 + Digit(bits[|bits| - 1])
  }

  function UintBits(v: nat, width: nat): (bits: seq<bool>)
    ensures |bits| == width
  {
    if width == 0 then [] else UintBits(v / 2, width - 1) + [v % 2 == 1]
  }

  lemma {:induction false} ValueBound(bits: seq<bool>)
    ensures ValueOf(bits) < Pow2(|bits|)
  {
    if bits != [] { ValueBound(bits[..|bits| - 1]); }
  }

  lemma ValueSnoc(bits: seq<bool>, bit: bool)
    ensures ValueOf(bits + [bit]) == ValueOf(bits) * 2 + Digit(bit)
  {
    assert (bits + [bit])[..|bits|] == bits;
  }

  lemma HalfAndDigit(v: nat, bit: bool)
    ensures (v * 2 + Digit(bit)) / 2 == v && ((v * 2 + Digit(bit)) % 2 == 1 <==> bit)
  {}

  // Writing and reading are inverse, both ways.
  lemma {:induction false} UintBitsRead(v: nat, width: nat)
    requires v < Pow2(width)
    ensures ValueOf(UintBits(v, width)) == v
  {
    if width > 0 {
      var init := UintBits(v / 2, width - 1);
      UintBitsRead(v / 2, width - 1);
      ValueSnoc(init, v % 2 == 1);
      HalfAndDigit(v / 2, v % 2 == 1);
    }
  }

  lemma {:induction false} ValueWritten(bits: seq<bool>)
    ensures UintBits(ValueOf(bits), |bits|) == bits
  {
    if bits != [] {
      var init, last := bits[..|bits| - 1], bits[|bits| - 1];
      ValueWritten(init);
      assert bits == init + [last];
      HalfAndDigit(ValueOf(init), last);
    }
  }

  lemma {:induction false} ValueOfConcat(a: seq<bool>, b: seq<bool>)
    ensures ValueOf(a + b) == ValueOf(a) * Pow2(|b|) + ValueOf(b)
    decreases |b|
  {
    if b == [] {
      assert a + b == a;
    } else {
      var init := b[..|b| - 1];
      assert (a + b)[..|a + b| - 1] == a + init;
      ValueOfConcat(a, init);
    }
  }

  lemma {:induction false} Pow2Adds(a: nat, b: nat)
    ensures Pow2(a + b) == Pow2(a) * Pow2(b)
  {
    if b > 0 { Pow2Adds(a, b - 1); }
  }

  lemma EightBits(bits: seq<bool>)
    requires |bits| == 8
    ensures ValueOf(bits) ==
      128 * Digit(bits[0]) + 64 * Digit(bits[1]) + 32 * Digit(bits[2]) + 16 * Digit(bits[3]) +
      8 * Digit(bits[4]) + 4 * Digit(bits[5]) + 2 * Digit(bits[6]) + Digit(bits[7])
  {
    hide ValueOf, Pow2;
    var hi, lo := bits[..4], bits[4..];
    FourBits(hi);
    FourBits(lo);
    ValueOfConcat(hi, lo);
    assert hi + lo == bits;
    Pow2Of4();
  }

  lemma Pow2Of4()
    ensures Pow2(4) == 16
  {}

  lemma FourBits(bits: seq<bool>)
    requires |bits| == 4
    ensures ValueOf(bits) == 8 * Digit(bits[0]) + 4 * Digit(bits[1]) + 2 * Digit(bits[2]) + Digit(bits[3])
  {
    assert bits[..3][..2] == bits[..2] && bits[..2][..1] == bits[..1] && bits[..1][..0] == [];
    assert ValueOf(bits[..1]) == Digit(bits[0]);
    assert ValueOf(bits[..2]) == 2 * Digit(bits[0]) + Digit(bits[1]);
  }

  lemma ValueOfByte(b: byte)
    ensures ValueOf(ByteBits(b)) == b
  {
    hide ByteBit, ValueOf;
    EightBits(ByteBits(b));
    ByteDigits(b);
    DigitsOfByte(b);
  }

  lemma DigitsOfByte(b: byte)
    ensures
      && Digit(ByteBit(b, 0)) == b / 128 % 2 && Digit(ByteBit(b, 1)) == b / 64 % 2
      && Digit(ByteBit(b, 2)) == b / 32 % 2 && Digit(ByteBit(b, 3)) == b / 16 % 2
      && Digit(ByteBit(b, 4)) == b / 8 % 2 && Digit(ByteBit(b, 5)) == b / 4 % 2
      && Digit(ByteBit(b, 6)) == b / 2 % 2 && Digit(ByteBit(b, 7)) == b % 2
  {}

  lemma ByteDigits(b: byte)
    ensures
      128 * (b / 128 % 2) + 64 * (b / 64 % 2) + 32 * (b / 32 % 2) + 16 * (b / 16 % 2) +
      8 * (b / 8 % 2) + 4 * (b / 4 % 2) + 2 * (b / 2 % 2) + b % 2 == b
  {
    HighDigits(b);
    LowDigits(b);
  }

  lemma HighDigits(b: byte)
    ensures 8 * (b / 128 % 2) + 4 * (b / 64 % 2) + 2 * (b / 32 % 2) + b / 16 % 2 == b / 16
  {
    var n := b / 16;
    assert b / 128 == n / 8 && b / 64 == n / 4 && b / 32 == n / 2;
    FourDigits(n);
  }

  lemma LowDigits(b: byte)
    ensures 8 * (b / 8 % 2) + 4 * (b / 4 % 2) + 2 * (b / 2 % 2) + b % 2 == b % 16
  {
    var h, n := b / 16, b % 16;
    assert b / 8 == 2 * h + n / 8 && b / 4 == 2 * (2 * h) + n / 4;
    assert b / 2 == 2 * (4 * h) + n / 2 && b == 2 * (8 * h) + n;
    EvenPlus(h, n / 8);
    EvenPlus(2 * h, n / 4);
    EvenPlus(4 * h, n / 2);
    EvenPlus(8 * h, n);
    FourDigits(n);
  }

  lemma EvenPlus(h: nat, x: nat)
    ensures (2 * h + x) % 2 == x % 2
  {}

  lemma FourDigits(n: nat)
    requires n < 16
    ensures 8 * (n / 8 % 2) + 4 * (n / 4 % 2) + 2 * (n / 2 % 2) + n % 2 == n
  {}

  lemma Pow2Of8()
    ensures Pow2(8) == 256
  {}

  // The byte with these bits.
  function ByteOf(bits: seq<bool>): byte
    requires |bits| == 8
  {
    ValueBound(bits);
    Pow2Of8();
    ValueOf(bits)
  }

  lemma ByteOfBits(bits: seq<bool>)
    requires |bits| == 8
    ensures ByteBits(ByteOf(bits)) == bits
  {
    ValueOfByte(ByteOf(bits));
    ValueWritten(bits);
    ValueWritten(ByteBits(ByteOf(bits)));
  }

  // The bits of a byte sequence write its big-endian value.
  lemma {:induction false} BitsAreBigEndian(data: seq<byte>)
    ensures ValueOf(Bits(data)) == BigEndian(data)
  {
    if data != [] {
      var init, last := data[..|data| - 1], data[|data| - 1];
      BitsAreBigEndian(init);
      ValueOfConcat(Bits(init), ByteBits(last));
      ValueOfByte(last);
      Pow2Of8();
    }
  }

  lemma {:induction false} BitsAt(data: seq<byte>, k: nat)
    requires k < 8 * |data|
    ensures Bits(data)[k] == ByteBit(data[k / 8], k % 8)
  {
    var n := |data| - 1;
    if k < 8 * n {
      BitsAt(data[..n], k);
    } else {
      assert k / 8 == n && k % 8 == k - 8 * n;
    }
  }

  // A slice of a number's bits: shift the rest out, mask what is before.
  lemma ValueOfSlice(bits: seq<bool>, start: nat, end: nat)
    requires start <= end <= |bits|
    ensures ValueOf(bits[start..end]) == ValueOf(bits) / Pow2(|bits| - end) % Pow2(end - start)
  {
    var before, field, after := bits[..start], bits[start..end], bits[end..];
    assert bits[..end] == before + field && bits == bits[..end] + after;
    ValueOfConcat(bits[..end], after);
    ValueOfConcat(before, field);
    ValueBound(after);
    ValueBound(field);
    DivMod(ValueOf(bits[..end]), ValueOf(after), Pow2(|after|));
    DivMod(ValueOf(before), ValueOf(field), Pow2(|field|));
  }

  lemma DivMod(q: nat, r: nat, d: nat)
    requires r < d
    ensures (q * d + r) / d == q && (q * d + r) % d == r
  {
    QuotientUnique(q, r, (q * d + r) / d, (q * d + r) % d, d);
  }

  lemma QuotientUnique(q: int, r: nat, q': int, r': nat, d: nat)
    requires r < d && r' < d && q * d + r == q' * d + r'
    ensures q == q' && r == r'
  {
    var e := q - q';
    assert e * d == r' - r;
    MultipleIsFar(e, d);
  }

  lemma MultipleIsFar(e: int, d: nat)
    ensures e >= 1 ==> e * d >= d
    ensures e <= -1 ==> e * d + d <= 0
  {
    if e >= 1 {
      assert (e - 1) * d >= 0;
    } else if e <= -1 {
      assert (-e - 1) * d >= 0;
    }
  }
}

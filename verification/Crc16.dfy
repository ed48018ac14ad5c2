/** The CRC register of `Parser::compute_crc16` (and of the dataset generator), and its meaning as
    polynomial division. A 16-bit word is the sequence of its bits, most significant first: a
    shift to the left drops the first bit, exclusive or is coefficientwise addition. */
module Crc16 {
  import opened Prelude
  import opened BitStrings
  import opened Gf2

  type Word = w: Poly | |w| == 16 witness Zero(16)

  /* The register, as the code runs it */

  function Preset(): Word { Ones(16) }  // 0xFFFF

  // 0x1021, the generator without its leading term.
  function Generator(): (w: Word)
    ensures forall i :: 0 <= i < 16 ==> w[i] == (i in {3, 10, 15})
  {
    [false, false, false, true, false, false, false, false,
     false, false, true, false, false, false, false, true]
  }

  function ShiftLeft(w: Word): Word { w[1..] + [false] }

  function ShiftOnce(crc: Word): Word {
    if crc[0] then Add(ShiftLeft(crc), Generator()) else ShiftLeft(crc)
  }

  function ShiftTimes(crc: Word, n: nat): Word
    decreases n
  {
    if n == 0 then crc else ShiftTimes(ShiftOnce(crc), n - 1)
  }

  // The register after a packet: each byte is mixed into the upper half, then shifted through.
  function Crc(data: seq<byte>): Word {
    if data == [] then Preset()
    else ShiftTimes(MixByte(Crc(data[..|data| - 1]), data[|data| - 1]), 8)
  }

  function MixByte(crc: Word, b: byte): Word { Add(crc, ByteBits(b) + Zero(8)) }

  method ComputeCrc16(data: seq<byte>) returns (crc: Word)
    ensures crc == Crc(data)
  {
    crc := Preset();
    for i := 0 to |data|
      invariant crc == Crc(data[..i])
    {
      crc := MixByte(crc, data[i]);
      crc := ShiftOut(crc, 8);
      assert data[..i + 1][..i] == data[..i];
    }
    assert data[..|data|] == data;
  }

  // The inner loop of `compute_crc16`.
  method ShiftOut(start: Word, n: nat) returns (crc: Word)
    ensures crc == ShiftTimes(start, n)
  {
    crc := start;
    for k := 0 to n
      invariant ShiftTimes(crc, n - k) == ShiftTimes(start, n)
    {
      if crc[0] {
        crc := Add(ShiftLeft(crc), Generator());
      } else {
        crc := ShiftLeft(crc);
      }
    }
  }

  /* The register, fed one message bit at a time */

  function FeedBit(w: Word, bit: bool): Word {
    if w[0] != bit then Add(ShiftLeft(w), Generator()) else ShiftLeft(w)
  }

  function Feed(w: Word, bits: Poly): Word
    decreases |bits|
  {
    if bits == [] then w else Feed(FeedBit(w, bits[0]), bits[1..])
  }

  lemma {:induction false} FeedSnoc(w: Word, bits: Poly, bit: bool)
    ensures Feed(w, bits + [bit]) == FeedBit(Feed(w, bits), bit)
    decreases |bits|
  {
    if bits == [] {
      assert ([bit])[1..] == [];
    } else {
      assert (bits + [bit])[1..] == bits[1..] + [bit];
      FeedSnoc(FeedBit(w, bits[0]), bits[1..], bit);
    }
  }

  lemma {:induction false} FeedConcat(w: Word, p: Poly, q: Poly)
    ensures Feed(w, p + q) == Feed(Feed(w, p), q)
    decreases |p|
  {
    if p == [] {
      assert p + q == q;
    } else {
      assert (p + q)[1..] == p[1..] + q;
      FeedConcat(FeedBit(w, p[0]), p[1..], q);
    }
  }

  // Mixing the message bits in beforehand is the same as feeding them one by one.
  lemma {:induction false} PendingBits(w: Word, bits: Poly)
    requires |bits| <= 16
    ensures ShiftTimes(Add(w, bits + Zero(16 - |bits|)), |bits|) == Feed(w, bits)
    decreases |bits|
  {
    if bits == [] {
      assert Add(w, bits + Zero(16)) == w;
    } else {
      PendingBit(w, bits);
      PendingBits(FeedBit(w, bits[0]), bits[1..]);
    }
  }

  lemma PendingBit(w: Word, bits: Poly)
    requires 0 < |bits| <= 16
    ensures ShiftOnce(Add(w, bits + Zero(16 - |bits|))) == Add(FeedBit(w, bits[0]), bits[1..] + Zero(17 - |bits|))
  {
    var mixed := Add(w, bits + Zero(16 - |bits|));
    assert ShiftOnce(mixed) == FeedBit(mixed, false);
    hide FeedBit, ShiftOnce;
    forall k | 0 <= k < 16
      ensures FeedBit(mixed, false)[k] == Add(FeedBit(w, bits[0]), bits[1..] + Zero(17 - |bits|))[k]
    {
      FedBit(mixed, false, k);
      FedBit(w, bits[0], k);
    }
  }

  lemma FedBit(w: Word, bit: bool, k: nat)
    requires k < 16
    ensures FeedBit(w, bit)[k] == ((k < 15 && w[k + 1]) != (w[0] != bit && k in {3, 10, 15}))
  {}

  lemma {:induction false} CrcFeedsBits(data: seq<byte>)
    ensures Crc(data) == Feed(Preset(), Bits(data))
  {
    if data != [] {
      var init, last := data[..|data| - 1], data[|data| - 1];
      CrcFeedsBits(init);
      PendingBits(Crc(init), ByteBits(last));
      FeedConcat(Preset(), Bits(init), ByteBits(last));
    }
  }

  /* Division */

  // The message times x^16, with its 16 highest coefficients complemented by the preset.
  function Dividend(bits: Poly): (p: Poly)
    ensures |p| == |bits| + 16
  {
    Add(bits + Zero(16), Ones(16) + Zero(|bits|))
  }

  // The feedback bits of the register, in order.
  function Quotient(bits: Poly): (q: Poly)
    ensures |q| == |bits|
  {
    if bits == [] then []
    else
      var init := bits[..|bits| - 1];
      Quotient(init) + [Feed(Preset(), init)[0] != bits[|bits| - 1]]
  }

  lemma {:induction false} RegisterDivides(bits: Poly)
    ensures Dividend(bits) == Add(TimesG(Quotient(bits)), Zero(|bits|) + Feed(Preset(), bits))
  {
    hide Dividend, TimesG, FeedBit, Add;
    if bits == [] {
      NothingFed();
    } else {
      var n := |bits| - 1;
      var init, bit := bits[..n], bits[n];
      assert bits == init + [bit];
      RegisterDivides(init);
      FeedSnoc(Preset(), init, bit);
      DivisionStep(init, bit, Quotient(init), Feed(Preset(), init));
    }
  }

  lemma NothingFed()
    ensures Dividend([]) == Add(TimesG([]), Zero(0) + Preset())
  {}

  // One more message bit: the quotient grows by the feedback bit.
  lemma DivisionStep(bits: Poly, bit: bool, q: Poly, w: Word)
    requires |q| == |bits|
    requires Dividend(bits) == Add(TimesG(q), Zero(|bits|) + w)
    ensures Dividend(bits + [bit]) ==
      Add(TimesG(q + [w[0] != bit]), Zero(|bits| + 1) + FeedBit(w, bit))
  {
    hide FeedBit;
    var n, t := |bits|, w[0] != bit;
    var dividend, r := Dividend(bits + [bit]), Zero(n + 1) + FeedBit(w, bit);
    forall i | 0 <= i < n + 17
      ensures dividend[i] == (TimesG(q + [t])[i] != r[i])
    {
      ProductOfExtended(q, t, i);
      if i > n {
        FedBit(w, bit, i - n - 1);
      }
      if i < n + 16 {
        assert Dividend(bits)[i] == (TimesG(q)[i] != (Zero(n) + w)[i]);
      }
    }
  }

  lemma ProductOfExtended(q: Poly, t: bool, i: nat)
    requires i < |q| + 17
    ensures TimesG(q + [t])[i] == ((i < |q| + 16 && TimesG(q)[i]) != (t && i - |q| in {0, 4, 11, 16}))
  {
    assert TimesG(q + [t])[i] == ProductCoeff(q + [t], i);
    assert i < |q| + 16 ==> TimesG(q)[i] == ProductCoeff(q, i);
  }

  lemma CrcIsRemainder(data: seq<byte>)
    ensures IsRemainder(Dividend(Bits(data)), Crc(data))
    ensures forall r: Poly :: IsRemainder(Dividend(Bits(data)), r) ==> r == Crc(data)
  {
    var bits := Bits(data);
    CrcFeedsBits(data);
    RegisterDivides(bits);
    assert |Quotient(bits)| == |Dividend(bits)| - 16;
    forall r: Poly | IsRemainder(Dividend(bits), r)
      ensures r == Crc(data)
    {
      RemainderUnique(Dividend(bits), r, Crc(data));
    }
  }
}

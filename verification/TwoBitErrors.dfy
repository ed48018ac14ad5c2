/** Errors of two bits: they go undetected exactly if the distance of the bits is a multiple of the
    period of the CRC register. */
module TwoBitErrors {
  import opened Prelude
  import opened BitStrings
  import opened Gf2
  import opened Crc16
  import opened SpacePacket
  import opened CrcPeriod

  /* The register after an error pattern */

  lemma {:induction false} FeedAdds(u: Word, v: Word, p: Poly, q: Poly)
    requires |p| == |q|
    ensures Feed(Add(u, v), Add(p, q)) == Add(Feed(u, p), Feed(v, q))
    decreases |p|
  {
    hide Add, FeedBit;
    if p != [] {
      AddUncons(p, q);
      FeedBitAdds(u, v, p[0], q[0]);
      FeedAdds(FeedBit(u, p[0]), FeedBit(v, q[0]), p[1..], q[1..]);
    }
  }

  lemma AddUncons(p: Poly, q: Poly)
    requires |p| == |q| > 0
    ensures Add(p, q)[0] == (p[0] != q[0]) && Add(p, q)[1..] == Add(p[1..], q[1..])
  {}

  lemma FeedBitAdds(u: Word, v: Word, a: bool, b: bool)
    ensures FeedBit(Add(u, v), a != b) == Add(FeedBit(u, a), FeedBit(v, b))
  {}

  // A damaged copy of a valid packet is accepted if and only if its error pattern leaves the register
  // at zero.
  lemma AcceptedIffErrorFeedsZero(sent: seq<byte>, received: seq<byte>)
    requires |sent| == |received| && ValidateCrc(sent).Ok?
    ensures ValidateCrc(received).Ok? <==> Feed(Zero(16), ErrorPattern(sent, received)) == Zero(16)
  {
    hide Crc, Feed, ValidateCrc, Add;
    SentIsLong(sent);
    ValidIffZeroResidue(sent);
    ValidIffZeroResidue(received);
    CrcFeedsBits(sent);
    CrcFeedsBits(received);
    var e := ErrorPattern(sent, received);
    FeedAdds(Preset(), Zero(16), Bits(sent), e);
    Restored(Bits(sent), Bits(received));
    AddZero(Preset());
    AddToZero(Feed(Zero(16), e));
  }

  lemma SentIsLong(sent: seq<byte>)
    requires ValidateCrc(sent).Ok?
    ensures |sent| >= 3
  {}

  lemma Restored(p: Poly, q: Poly)
    requires |p| == |q|
    ensures Add(p, Add(p, q)) == q
  {}

  lemma AddToZero(u: Word)
    ensures Add(Zero(16), u) == u
  {}

  /* Two wrong bits */

  lemma {:induction false} FeedZeros(w: Word, n: nat)
    ensures Feed(w, Zero(n)) == ShiftTimes(w, n)
    decreases n
  {
    if n > 0 {
      assert Zero(n)[1..] == Zero(n - 1);
      FeedZeros(ShiftOnce(w), n - 1);
      assert FeedBit(w, false) == ShiftOnce(w);
    }
  }

  // These two bits and no others.
  predicate TwoBits(e: Poly, i: nat, j: nat) {
    i < j < |e| && forall k :: 0 <= k < |e| ==> e[k] == (k == i || k == j)
  }

  lemma TwoBitsSplit(e: Poly, i: nat, j: nat)
    requires TwoBits(e, i, j)
    ensures e == Zero(i) + ([true] + (Zero(j - i - 1) + ([true] + Zero(|e| - j - 1))))
  {}

  lemma FeedOne(w: Word, rest: Poly)
    ensures Feed(w, [true] + rest) == Feed(FeedBit(w, true), rest)
  {
    assert ([true] + rest)[1..] == rest;
  }

  // A one into an empty register is worth x^16.
  lemma FirstOne(n: nat)
    requires n == 16
    ensures FeedBit(Zero(16), true) == Residue(n)
  {
    hide WordOf, ShiftOnce, Shifted, FeedBit, Feed;
    var k := PowerOf16();
    GeneratorIsHex();
  }

  lemma FeedTwo(e: Poly, i: nat, j: nat)
    requires TwoBits(e, i, j)
    ensures Feed(Zero(16), e) ==
      ShiftTimes(FeedBit(ShiftTimes(FeedBit(Zero(16), true), j - i - 1), true), |e| - j - 1)
  {
    hide FeedBit, ShiftOnce, Feed;
    TwoBitsSplit(e, i, j);
    var last := [true] + Zero(|e| - j - 1);
    var rest := [true] + (Zero(j - i - 1) + last);
    FeedConcat(Zero(16), Zero(i), rest);
    FeedZeros(Zero(16), i);
    ShiftsOfZero(i);
    FeedOne(Zero(16), Zero(j - i - 1) + last);
    var first := FeedBit(Zero(16), true);
    FeedConcat(first, Zero(j - i - 1), last);
    FeedZeros(first, j - i - 1);
    var w := ShiftTimes(first, j - i - 1);
    FeedOne(w, Zero(|e| - j - 1));
    FeedZeros(FeedBit(w, true), |e| - j - 1);
  }

  // A one into a register is the shift and the one into an empty register.
  lemma FeedOneAdds(w: Word)
    ensures FeedBit(w, true) == Add(ShiftOnce(w), FeedBit(Zero(16), true))
  {}

  lemma AddIsZeroIff(u: Word, v: Word)
    ensures Add(u, v) == Zero(16) <==> u == v
  {
    if Add(u, v) == Zero(16) {
      forall i | 0 <= i < 16
        ensures u[i] == v[i]
      {
        assert !Add(u, v)[i];
      }
    }
  }

  lemma ShiftsToZeroIff(w: Word, n: nat)
    ensures ShiftTimes(w, n) == Zero(16) <==> w == Zero(16)
  {
    ShiftsOfZero(n);
    if ShiftTimes(w, n) == Zero(16) {
      ShiftsInjective(w, Zero(16), n);
    }
  }

  lemma TwoBitsFeedZeroIff(e: Poly, i: nat, j: nat, n: nat)
    requires TwoBits(e, i, j) && n == 16
    ensures Feed(Zero(16), e) == Zero(16) <==> Returns(j - i)
  {
    hide FeedBit, ShiftOnce, Feed, Add;
    var d := j - i;
    FeedTwo(e, i, j);
    FirstOne(n);
    var w := ShiftTimes(Residue(n), d - 1);
    ShiftsToZeroIff(FeedBit(w, true), |e| - j - 1);
    FeedOneAdds(w);
    ShiftsCompose(Residue(n), d - 1, 1);
    assert ShiftTimes(w, 1) == ShiftTimes(ShiftOnce(w), 0);
    AddIsZeroIff(ShiftTimes(Residue(n), d), Residue(n));
    ShiftsCompose(One(), n, d);
    ShiftsCompose(One(), d, n);
    if ShiftTimes(Residue(d), n) == ShiftTimes(One(), n) {
      ShiftsInjective(Residue(d), One(), n);
    }
  }

  // Two wrong bits go undetected if and only if their distance is a multiple of 32767 bits, wherever
  // they are and however long the packet.
  lemma TwoBitErrorAcceptedIff(sent: seq<byte>, received: seq<byte>, i: nat, j: nat)
    requires |sent| == |received| && ValidateCrc(sent).Ok?
    requires TwoBits(ErrorPattern(sent, received), i, j)
    ensures ValidateCrc(received).Ok? <==> (j - i) % PERIOD == 0
  {
    hide ValidateCrc, Feed, Returns;
    AcceptedIffErrorFeedsZero(sent, received);
    TwoBitsFeedZeroIff(ErrorPattern(sent, received), i, j, 16);
    ReturnsIff(j - i);
  }
}

/** Polynomials over the two-element field, as coefficient sequences, and their division by
    the generator G(x) = x^16 + x^12 + x^5 + 1 of section 4.1.6 of CCSDS 132.0-B. */
module Gf2 {

  // p[0] is the coefficient of the highest power, x^(|p|-1); addition is coefficientwise.
  type Poly = seq<bool>

  function Zero(n: nat): (p: Poly)
    ensures |p| == n && forall i :: 0 <= i < n ==> !p[i]
  {
    seq(n, _ => false)
  }

  function Ones(n: nat): (p: Poly)
    ensures |p| == n && forall i :: 0 <= i < n ==> p[i]
  {
    seq(n, _ => true)
  }

  function Add(p: Poly, q: Poly): (r: Poly)
    requires |p| == |q|
    ensures |r| == |p| && forall i :: 0 <= i < |p| ==> r[i] == (p[i] != q[i])
  {
    seq(|p|, i requires 0 <= i < |p| => p[i] != q[i])
  }

  predicate Coeff(p: Poly, i: int) { 0 <= i < |p| && p[i] }

  // The product G * q: the sum of q shifted by 16, 12, 5 and 0 places.
  function TimesG(q: Poly): (r: Poly)
    ensures |r| == |q| + 16
    ensures forall i {:trigger r[i]} :: 0 <= i < |r| ==> r[i] == ProductCoeff(q, i)
  {
    seq(|q| + 16, i => ProductCoeff(q, i))
  }

  predicate ProductCoeff(q: Poly, i: int) {
    ((Coeff(q, i) != Coeff(q, i - 4)) != Coeff(q, i - 11)) != Coeff(q, i - 16)
  }

  ghost predicate MultipleOfG(p: Poly) {
    |p| >= 16 && exists q: Poly :: |q| == |p| - 16 && p == TimesG(q)
  }

  // p == q * G + r with deg r < 16.
  ghost predicate IsRemainder(p: Poly, r: Poly) {
    |r| == 16 && |p| >= 16 &&
    exists q: Poly :: |q| == |p| - 16 && p == Add(TimesG(q), Zero(|q|) + r)
  }

  predicate IsZero(p: Poly) { forall i :: 0 <= i < |p| ==> !p[i] }

  function CountOnes(p: Poly): nat {
    if p == [] then 0 else CountOnes(p[..|p| - 1]) + if p[|p| - 1] then 1 else 0
  }

  lemma TimesGDistributes(p: Poly, q: Poly)
    requires |p| == |q|
    ensures TimesG(Add(p, q)) == Add(TimesG(p), TimesG(q))
  {
    forall i: int
      ensures Coeff(Add(p, q), i) == (Coeff(p, i) != Coeff(q, i))
    {}
  }

  // The highest and the lowest power of G * q are 16 above and exactly at those of q.
  lemma ProductExtremes(q: Poly) returns (first: nat, last: nat)
    requires !IsZero(q)
    ensures first <= last < |q| && q[first] && q[last]
    ensures forall i :: 0 <= i < |q| && q[i] ==> first <= i <= last
    ensures TimesG(q)[first] && forall i :: 0 <= i < first ==> !TimesG(q)[i]
    ensures TimesG(q)[last + 16] && forall i :: last + 16 < i < |q| + 16 ==> !TimesG(q)[i]
  {
    first := 0;
    while !q[first]
      invariant first < |q| && forall i :: 0 <= i < first ==> !q[i]
      decreases |q| - first
    {
      first := first + 1;
    }
    last := |q| - 1;
    while !q[last]
      invariant first <= last < |q| && forall i :: last < i < |q| ==> !q[i]
      decreases last
    {
      last := last - 1;
    }
  }

  // A multiple of G of degree below 16 is zero; this is why remainders are unique.
  lemma RemainderUnique(p: Poly, r: Poly, r': Poly)
    requires IsRemainder(p, r) && IsRemainder(p, r')
    ensures r == r'
  {
    var q: Poly :| |q| == |p| - 16 && p == Add(TimesG(q), Zero(|q|) + r);
    var q': Poly :| |q'| == |p| - 16 && p == Add(TimesG(q'), Zero(|q'|) + r');
    var d := Add(q, q');
    TimesGDistributes(q, q');
    hide TimesG, Add;
    forall i | 0 <= i < |p|
      ensures TimesG(d)[i] == (i >= |q| && r[i - |q|] != r'[i - |q|])
    {
      assert p[i] == (TimesG(q)[i] != (Zero(|q|) + r)[i]);
      assert p[i] == (TimesG(q')[i] != (Zero(|q'|) + r')[i]);
    }
    ShortMultipleIsZero(d);
    forall i | 0 <= i < 16
      ensures r[i] == r'[i]
    {
      assert !TimesG(d)[|q| + i];
    }
  }

  lemma ShortMultipleIsZero(d: Poly)
    requires forall i :: 0 <= i < |d| ==> !TimesG(d)[i]
    ensures forall i :: 0 <= i < |d| + 16 ==> !TimesG(d)[i]
  {
    if !IsZero(d) {
      var first, last := ProductExtremes(d);
      assert false;
    }
  }

  lemma MultipleIffZeroRemainder(p: Poly)
    requires |p| >= 16
    ensures MultipleOfG(p) <==> IsRemainder(p, Zero(16))
  {
    forall q: Poly | |q| == |p| - 16
      ensures Add(TimesG(q), Zero(|q|) + Zero(16)) == TimesG(q)
    {}
  }

  lemma RemainderDecides(p: Poly, r: Poly)
    requires IsRemainder(p, r)
    ensures MultipleOfG(p) <==> r == Zero(16)
  {
    MultipleIffZeroRemainder(p);
    if MultipleOfG(p) {
      RemainderUnique(p, r, Zero(16));
    }
  }

  // Changing the 16 lowest coefficients changes the remainder by the same amount.
  lemma RemainderOfSum(p: Poly, r: Poly, s: Poly)
    requires IsRemainder(p, r) && |s| == 16
    ensures IsRemainder(Add(p, Zero(|p| - 16) + s), Add(r, s))
  {
    var q: Poly :| |q| == |p| - 16 && p == Add(TimesG(q), Zero(|q|) + r);
    assert Add(p, Zero(|p| - 16) + s) == Add(TimesG(q), Zero(|q|) + Add(r, s));
  }

  // A dividend becomes a multiple of G by appending its own remainder, and by nothing else.
  lemma AppendedRemainderDecides(p: Poly, r: Poly, s: Poly)
    requires IsRemainder(p, r) && |s| == 16
    ensures MultipleOfG(Add(p, Zero(|p| - 16) + s)) <==> r == s
  {
    RemainderOfSum(p, r, s);
    RemainderDecides(Add(p, Zero(|p| - 16) + s), Add(r, s));
    if Add(r, s) == Zero(16) {
      forall i | 0 <= i < 16
        ensures r[i] == s[i]
      {
        assert !Add(r, s)[i];
      }
    }
  }

  // Adding a polynomial that G divides does not change divisibility.
  lemma SumOfMultiples(p: Poly, e: Poly)
    requires |p| == |e| && MultipleOfG(p)
    ensures MultipleOfG(Add(p, e)) <==> MultipleOfG(e)
  {
    var q: Poly :| |q| == |p| - 16 && p == TimesG(q);
    if MultipleOfG(e) {
      var k: Poly :| |k| == |e| - 16 && e == TimesG(k);
      TimesGDistributes(q, k);
      assert Add(p, e) == TimesG(Add(q, k));
    }
    if MultipleOfG(Add(p, e)) {
      var k: Poly :| |k| == |e| - 16 && Add(p, e) == TimesG(k);
      TimesGDistributes(q, k);
      assert e == Add(p, Add(p, e));
      assert e == TimesG(Add(q, k));
    }
  }

  // x is invertible modulo G, so multiplying by x^16 neither makes nor breaks a multiple.
  lemma ShiftedMultiple(p: Poly)
    requires |p| >= 16
    ensures MultipleOfG(p + Zero(16)) <==> MultipleOfG(p)
  {
    if MultipleOfG(p) {
      var q: Poly :| |q| == |p| - 16 && p == TimesG(q);
      assert p + Zero(16) == TimesG(q + Zero(16));
    }
    if MultipleOfG(p + Zero(16)) {
      var q: Poly :| |q| == |p| && p + Zero(16) == TimesG(q);
      var k := q[..|p| - 16];
      if !IsZero(q) {
        var first, last := ProductExtremes(q);
        assert last < |p| - 16 by {
          assert (p + Zero(16))[last + 16] == TimesG(q)[last + 16];
        }
      }
      assert forall j: int :: Coeff(k, j) == Coeff(q, j);
      forall i | 0 <= i < |p|
        ensures p[i] == TimesG(k)[i]
      {
        assert p[i] == (p + Zero(16))[i] == TimesG(q)[i];
      }
    }
  }

  // A nonzero polynomial whose nonzero coefficients fit in 16 consecutive places.
  predicate IsBurst16(e: Poly) {
    !IsZero(e) && exists k :: 0 <= k < |e| && InWindow(e, k)
  }

  predicate InWindow(e: Poly, k: nat) {
    forall i :: 0 <= i < |e| && e[i] ==> k <= i < k + 16
  }

  lemma BurstNotMultiple(e: Poly)
    requires IsBurst16(e)
    ensures !MultipleOfG(e)
  {
    if MultipleOfG(e) {
      var q: Poly :| |q| == |e| - 16 && e == TimesG(q);
      if !IsZero(q) {
        var first, last := ProductExtremes(q);
      }
    }
  }

  // G(1) = 0: every multiple of G has an even number of terms.
  lemma {:induction false} ProductParity(q: Poly)
    ensures CountOnes(TimesG(q)) % 2 == 0
  {
    if q == [] {
      CountOnesOfZero(TimesG(q));
    } else {
      var n := |q| - 1;
      var k, last := q[..n], if q[n] then GBits() else Zero(17);
      hide TimesG, Add, GBits, CountOnes;
      ProductParity(k);
      ProductSnoc(q);
      CountOnesShifted(TimesG(k));
      CountOnesOfSum(TimesG(k) + [false], Zero(n) + last);
      CountOnesPadded(n, last);
      CountOnesOfZero(Zero(17));
      GBitsParity();
    }
  }

  lemma CountOnesShifted(p: Poly)
    ensures CountOnes(p + [false]) == CountOnes(p)
  {
    assert (p + [false])[..|p|] == p;
  }

  lemma ProductSnoc(q: Poly)
    requires q != []
    ensures
      var n := |q| - 1;
      TimesG(q) == Add(TimesG(q[..n]) + [false], Zero(n) + if q[n] then GBits() else Zero(17))
  {}

  function GBits(): (g: Poly)
    ensures |g| == 17 && forall i :: 0 <= i < 17 ==> g[i] == (i in {0, 4, 11, 16})
  {
    [true, false, false, false, true, false, false, false, false, false, false, true,
     false, false, false, false, true]
  }

  lemma GBitsParity()
    ensures CountOnes(GBits()) % 2 == 0
  {
    var g := GBits();
    CountOnesOfZero(Zero(3));
    CountOnesOfZero(Zero(6));
    CountOnesOfZero(Zero(4));
    CountOnesOfConcat([true], Zero(3));
    CountOnesOfConcat([true] + Zero(3), [true]);
    CountOnesOfConcat([true] + Zero(3) + [true], Zero(6));
    CountOnesOfConcat([true] + Zero(3) + [true] + Zero(6), [true]);
    CountOnesOfConcat([true] + Zero(3) + [true] + Zero(6) + [true], Zero(4));
    CountOnesOfConcat([true] + Zero(3) + [true] + Zero(6) + [true] + Zero(4), [true]);
    assert g == [true] + Zero(3) + [true] + Zero(6) + [true] + Zero(4) + [true];
    assert CountOnes([true]) == 1 by { assert [true][..0] == []; }
  }

  lemma {:induction false} CountOnesOfZero(p: Poly)
    requires IsZero(p)
    ensures CountOnes(p) == 0
  {
    if p != [] { CountOnesOfZero(p[..|p| - 1]); }
  }

  lemma {:induction false} CountOnesOfConcat(p: Poly, q: Poly)
    ensures CountOnes(p + q) == CountOnes(p) + CountOnes(q)
  {
    if q == [] {
      assert p + q == p;
    } else {
      assert (p + q)[..|p + q| - 1] == p + q[..|q| - 1];
      CountOnesOfConcat(p, q[..|q| - 1]);
    }
  }

  lemma CountOnesPadded(n: nat, q: Poly)
    ensures CountOnes(Zero(n) + q) == CountOnes(q)
  {
    CountOnesOfZero(Zero(n));
    CountOnesOfConcat(Zero(n), q);
  }

  lemma {:induction false} CountOnesOfSum(p: Poly, q: Poly)
    requires |p| == |q|
    ensures CountOnes(Add(p, q)) % 2 == (CountOnes(p) + CountOnes(q)) % 2
  {
    if p != [] {
      hide Add;
      var n := |p| - 1;
      assert Add(p, q)[..n] == Add(p[..n], q[..n]);
      CountOnesOfSum(p[..n], q[..n]);
    }
  }

  lemma OddNotMultiple(e: Poly)
    requires CountOnes(e) % 2 == 1
    ensures !MultipleOfG(e)
  {
    if MultipleOfG(e) {
      var q: Poly :| |q| == |e| - 16 && e == TimesG(q);
      ProductParity(q);
    }
  }
}

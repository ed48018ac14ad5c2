/** The period of the CRC register: shifted without input, it returns to 1 after 32767 shifts, and not
    before. */
module CrcPeriod {
  import opened Gf2
  import opened Crc16

  /* The register without input is linear */

  function One(): Word { Zero(15) + [true] }

  lemma ShiftAdds(u: Word, v: Word)
    ensures ShiftOnce(Add(u, v)) == Add(ShiftOnce(u), ShiftOnce(v))
  {}

  lemma ShiftInjective(u: Word, v: Word)
    requires ShiftOnce(u) == ShiftOnce(v)
    ensures u == v
  {
    assert ShiftOnce(u)[15] == u[0] && ShiftOnce(v)[15] == v[0];
    forall i | 1 <= i < 16
      ensures u[i] == v[i]
    {
      assert ShiftOnce(u)[i - 1] == (u[i] != (u[0] && Generator()[i - 1]));
      assert ShiftOnce(v)[i - 1] == (v[i] != (v[0] && Generator()[i - 1]));
    }
  }

  lemma {:induction false} ShiftsInjective(u: Word, v: Word, n: nat)
    requires ShiftTimes(u, n) == ShiftTimes(v, n)
    ensures u == v
    decreases n
  {
    if n > 0 {
      ShiftsInjective(ShiftOnce(u), ShiftOnce(v), n - 1);
      ShiftInjective(u, v);
    }
  }

  lemma {:induction false} ShiftsCompose(w: Word, m: nat, n: nat)
    ensures ShiftTimes(w, m + n) == ShiftTimes(ShiftTimes(w, m), n)
    decreases m
  {
    if m > 0 { ShiftsCompose(ShiftOnce(w), m - 1, n); }
  }

  lemma {:induction false} ShiftsOfZero(n: nat)
    ensures ShiftTimes(Zero(16), n) == Zero(16)
    decreases n
  {
    ZeroShifts();
    if n > 0 { ShiftsOfZero(n - 1); }
  }

  lemma ZeroShifts()
    ensures ShiftOnce(Zero(16)) == Zero(16)
  {}

  lemma AddSelf(u: Poly)
    ensures Add(u, u) == Zero(|u|)
  {}

  // The remainder of x^n.
  function Residue(n: nat): Word { ShiftTimes(One(), n) }

  /* Squares of remainders */

  // The multiple of v by the polynomial with these coefficients.
  function Multiple(coefficients: Poly, v: Word): Word {
    if coefficients == [] then Zero(16)
    else
      var n := |coefficients| - 1;
      Add(ShiftOnce(Multiple(coefficients[..n], v)), if coefficients[n] then v else Zero(16))
  }

  lemma {:induction false} MultipleShifts(p: Poly, v: Word)
    ensures ShiftOnce(Multiple(p, v)) == Multiple(p, ShiftOnce(v))
  {
    hide ShiftOnce, Add;
    if p == [] {
      ZeroShifts();
    } else {
      var n := |p| - 1;
      MultipleShifts(p[..n], v);
      ShiftAdds(ShiftOnce(Multiple(p[..n], v)), if p[n] then v else Zero(16));
      ZeroShifts();
    }
  }

  lemma {:induction false} MultipleShiftsBy(p: Poly, v: Word, n: nat)
    ensures ShiftTimes(Multiple(p, v), n) == Multiple(p, ShiftTimes(v, n))
    decreases n
  {
    hide ShiftOnce, Multiple;
    if n > 0 {
      MultipleShifts(p, v);
      MultipleShiftsBy(p, ShiftOnce(v), n - 1);
    }
  }

  lemma AddSwaps(a: Word, b: Word, c: Word, d: Word)
    ensures Add(Add(a, b), Add(c, d)) == Add(Add(a, c), Add(b, d))
  {}

  lemma {:induction false} MultipleAdds(p: Poly, u: Word, v: Word)
    ensures Multiple(p, Add(u, v)) == Add(Multiple(p, u), Multiple(p, v))
  {
    hide ShiftOnce, Add;
    AddSelf(Zero(16));
    if p != [] {
      var n := |p| - 1;
      MultipleAdds(p[..n], u, v);
      ShiftAdds(Multiple(p[..n], u), Multiple(p[..n], v));
      AddSwaps(ShiftOnce(Multiple(p[..n], u)), ShiftOnce(Multiple(p[..n], v)),
               if p[n] then u else Zero(16), if p[n] then v else Zero(16));
    }
  }

  // A multiple of one is the polynomial itself.
  lemma {:induction false} MultipleOfOne(p: Poly)
    requires |p| <= 16
    ensures Multiple(p, One()) == Zero(16 - |p|) + p
  {
    hide ShiftOnce, Add;
    if p == [] {
      assert Zero(16) + p == Zero(16);
    } else {
      var n := |p| - 1;
      MultipleOfOne(p[..n]);
      PlainShift(16 - n, p[..n], p[n]);
      assert p == p[..n] + [p[n]];
    }
  }

  lemma PlainShift(z: nat, s: Poly, last: bool)
    requires 1 <= z && z + |s| == 16
    ensures Add(ShiftOnce(Zero(z) + s), if last then One() else Zero(16)) == Zero(z - 1) + (s + [last])
  {
    var w := Zero(z) + s;
    assert !w[0];
    assert ShiftOnce(w) == w[1..] + [false];
  }

  // The multiple by the polynomial in x^2 with these coefficients.
  function Squared(coefficients: Poly, v: Word): Word {
    if coefficients == [] then Zero(16)
    else
      var n := |coefficients| - 1;
      Add(ShiftOnce(ShiftOnce(Squared(coefficients[..n], v))), if coefficients[n] then v else Zero(16))
  }

  // The mixed terms of a square cancel.
  lemma {:induction false} MultipleTwice(p: Poly, v: Word)
    ensures Multiple(p, Multiple(p, v)) == Squared(p, v)
  {
    hide ShiftOnce, Add;
    if p != [] {
      var n := |p| - 1;
      var init, b := p[..n], if p[n] then v else Zero(16);
      var m := Multiple(init, v);
      MultipleTwice(init, v);
      MultipleAdds(init, ShiftOnce(m), b);
      MultipleShifts(init, m);
      ShiftAdds(ShiftOnce(Multiple(init, m)), Multiple(init, b));
      if p[n] {
        MixedCancel(ShiftOnce(ShiftOnce(Multiple(init, m))), ShiftOnce(m), v);
      } else {
        MultipleOfZero(init);
        ZeroShifts();
        AddZero(ShiftOnce(ShiftOnce(Multiple(init, m))));
        AddZero(ShiftOnce(m));
      }
    }
  }

  lemma MixedCancel(square: Word, mixed: Word, v: Word)
    ensures Add(Add(square, mixed), Add(mixed, v)) == Add(square, v)
  {}

  lemma AddZero(u: Word)
    ensures Add(u, Zero(16)) == u
  {}

  lemma {:induction false} MultipleOfZero(p: Poly)
    ensures Multiple(p, Zero(16)) == Zero(16)
  {
    ZeroShifts();
    AddZero(Zero(16));
    if p != [] { MultipleOfZero(p[..|p| - 1]); }
  }

  lemma ResidueOfDouble(n: nat)
    ensures Residue(2 * n) == Squared(Residue(n), One())
  {
    hide ShiftOnce, Multiple, Squared;
    var r := Residue(n);
    MultipleOfOne(r);
    assert Zero(0) + r == r;
    MultipleShiftsBy(r, One(), n);
    ShiftsCompose(One(), n, n);
    MultipleTwice(r, One());
  }

  /* Computing with registers */

  // Four bits of a register, and a register, in the form that can be evaluated.
  datatype Nibble = Nibble(b3: bool, b2: bool, b1: bool, b0: bool)

  datatype Register = Register(r3: Nibble, r2: Nibble, r1: Nibble, r0: Nibble)

  function Digit(n: nat): Nibble { Nibble(n >= 8, n % 8 >= 4, n % 4 >= 2, n % 2 == 1) }

  // The register with these hexadecimal digits.
  function Hex(a: nat, b: nat, c: nat, d: nat): Register { Register(Digit(a), Digit(b), Digit(c), Digit(d)) }

  function BitsOf(n: Nibble): (p: Poly)
    ensures |p| == 4 && p[0] == n.b3 && p[1] == n.b2 && p[2] == n.b1 && p[3] == n.b0
  {
    [n.b3, n.b2, n.b1, n.b0]
  }

  // Four groups of four bits.
  function Word4(a: Poly, b: Poly, c: Poly, d: Poly): Word
    requires |a| == |b| == |c| == |d| == 4
  {
    a + b + c + d
  }

  function WordOf(r: Register): Word { Word4(BitsOf(r.r3), BitsOf(r.r2), BitsOf(r.r1), BitsOf(r.r0)) }

  function Xor(x: bool, y: bool): bool { x != y }

  function PlusNibble(a: Nibble, b: Nibble): Nibble {
    Nibble(Xor(a.b3, b.b3), Xor(a.b2, b.b2), Xor(a.b1, b.b1), Xor(a.b0, b.b0))
  }

  function Plus(r: Register, s: Register): Register {
    Register(PlusNibble(r.r3, s.r3), PlusNibble(r.r2, s.r2), PlusNibble(r.r1, s.r1), PlusNibble(r.r0, s.r0))
  }

  lemma PlusBits(a: Nibble, b: Nibble)
    ensures BitsOf(PlusNibble(a, b)) == Add(BitsOf(a), BitsOf(b))
  {}

  lemma AddByGroups(a: Poly, b: Poly, c: Poly, d: Poly, a': Poly, b': Poly, c': Poly, d': Poly)
    requires |a| == |b| == |c| == |d| == |a'| == |b'| == |c'| == |d'| == 4
    ensures Add(Word4(a, b, c, d), Word4(a', b', c', d')) == Word4(Add(a, a'), Add(b, b'), Add(c, c'), Add(d, d'))
  {}

  lemma PlusWord(r: Register, s: Register)
    ensures WordOf(Plus(r, s)) == Add(WordOf(r), WordOf(s))
  {
    hide Word4, Add;
    PlusBits(r.r3, s.r3);
    PlusBits(r.r2, s.r2);
    PlusBits(r.r1, s.r1);
    PlusBits(r.r0, s.r0);
    AddByGroups(BitsOf(r.r3), BitsOf(r.r2), BitsOf(r.r1), BitsOf(r.r0),
                BitsOf(s.r3), BitsOf(s.r2), BitsOf(s.r1), BitsOf(s.r0));
  }

  // These four bits are at this place of the word.
  predicate GroupAt(w: Word, k: nat, n: Nibble)
    requires k <= 12
  {
    w[k] == n.b3 && w[k + 1] == n.b2 && w[k + 2] == n.b1 && w[k + 3] == n.b0
  }

  lemma Groups(r: Register)
    ensures
      var w := WordOf(r);
      GroupAt(w, 0, r.r3) && GroupAt(w, 4, r.r2) && GroupAt(w, 8, r.r1) && GroupAt(w, 12, r.r0)
  {
    hide Word4, BitsOf;
    var a, b, c, d := BitsOf(r.r3), BitsOf(r.r2), BitsOf(r.r1), BitsOf(r.r0);
    InGroups(a, b, c, d, 0);
    InGroups(a, b, c, d, 1);
    InGroups(a, b, c, d, 2);
    InGroups(a, b, c, d, 3);
  }

  lemma InGroups(a: Poly, b: Poly, c: Poly, d: Poly, i: nat)
    requires |a| == |b| == |c| == |d| == 4 && i < 4
    ensures
      var w := Word4(a, b, c, d);
      w[i] == a[i] && w[4 + i] == b[i] && w[8 + i] == c[i] && w[12 + i] == d[i]
  {}

  lemma GroupsDetermine(u: Word, w: Word, r: Register)
    requires GroupAt(u, 0, r.r3) && GroupAt(u, 4, r.r2) && GroupAt(u, 8, r.r1) && GroupAt(u, 12, r.r0)
    requires GroupAt(w, 0, r.r3) && GroupAt(w, 4, r.r2) && GroupAt(w, 8, r.r1) && GroupAt(w, 12, r.r0)
    ensures u == w
  {
    forall i | 0 <= i < 16
      ensures u[i] == w[i]
    {
      if i < 4 {
        assert i == 0 || i == 1 || i == 2 || i == 3;
      } else if i < 8 {
        assert i == 4 || i == 5 || i == 6 || i == 7;
      } else if i < 12 {
        assert i == 8 || i == 9 || i == 10 || i == 11;
      } else {
        assert i == 12 || i == 13 || i == 14 || i == 15;
      }
    }
  }

  // Whether the feedback goes into this place.
  predicate Tap(i: int) { i == 3 || i == 10 || i == 15 }

  lemma ShiftedBit(w: Word, i: nat)
    requires i < 16
    ensures ShiftOnce(w)[i] == ((i < 15 && w[i + 1]) != (w[0] && Tap(i)))
  {}

  // One shift, four bits at a time.
  function Shifted(r: Register): Register {
    var t, a, b, c, d := r.r3.b3, r.r3, r.r2, r.r1, r.r0;
    Register(Nibble(a.b2, a.b1, a.b0, Xor(b.b3, t)), Nibble(b.b2, b.b1, b.b0, c.b3),
             Nibble(c.b2, c.b1, Xor(c.b0, t), d.b3), Nibble(d.b2, d.b1, d.b0, t))
  }

  const NOTHING := Nibble(false, false, false, false)

  lemma ShiftedGroup(w: Word, first: Nibble, k: nat, here: Nibble, next: Nibble, there: Nibble)
    requires k <= 12 && GroupAt(w, 0, first) && GroupAt(w, k, here)
    requires if k <= 8 then GroupAt(w, k + 4, next) else k == 12 && next == NOTHING
    requires there.b3 == (here.b2 != (first.b3 && Tap(k))) && there.b2 == (here.b1 != (first.b3 && Tap(k + 1)))
    requires there.b1 == (here.b0 != (first.b3 && Tap(k + 2))) && there.b0 == (next.b3 != (first.b3 && Tap(k + 3)))
    ensures GroupAt(ShiftOnce(w), k, there)
  {
    ShiftedBit(w, k);
    ShiftedBit(w, k + 1);
    ShiftedBit(w, k + 2);
    ShiftedBit(w, k + 3);
  }

  lemma ShiftedWord(r: Register)
    ensures WordOf(Shifted(r)) == ShiftOnce(WordOf(r))
  {
    hide WordOf, ShiftOnce, GroupAt;
    var w, s := WordOf(r), Shifted(r);
    Groups(r);
    Groups(s);
    ShiftedGroup(w, r.r3, 0, r.r3, r.r2, s.r3);
    ShiftedGroup(w, r.r3, 4, r.r2, r.r1, s.r2);
    ShiftedGroup(w, r.r3, 8, r.r1, r.r0, s.r1);
    ShiftedGroup(w, r.r3, 12, r.r0, NOTHING, s.r0);
    GroupsDetermine(WordOf(s), ShiftOnce(w), s);
  }

  // Four shifts at once: the top group comes back in at the taps.
  function Four(r: Register): Register {
    var h, c, d := r.r3, r.r1, r.r0;
    Register(PlusNibble(r.r2, h), Nibble(c.b3, c.b2, c.b1, Xor(c.b0, h.b3)),
             Nibble(Xor(d.b3, h.b2), Xor(d.b2, h.b1), Xor(d.b1, h.b0), d.b0), h)
  }

  // One shift, bit by bit.
  predicate IsGroup(p: Nibble, b3: bool, b2: bool, b1: bool, b0: bool) {
    p.b3 == b3 && p.b2 == b2 && p.b1 == b1 && p.b0 == b0
  }

  predicate ShiftedBits(r: Register, s: Register) {
    var t, a, b, c, d := r.r3.b3, r.r3, r.r2, r.r1, r.r0;
    && IsGroup(s.r3, a.b2, a.b1, a.b0, Xor(b.b3, t)) && IsGroup(s.r2, b.b2, b.b1, b.b0, c.b3)
    && IsGroup(s.r1, c.b2, c.b1, Xor(c.b0, t), d.b3) && IsGroup(s.r0, d.b2, d.b1, d.b0, t)
  }

  lemma ShiftsBits(r: Register)
    ensures ShiftedBits(r, Shifted(r))
  {
    hide Xor;
  }

  lemma FourShifts(r: Register)
    ensures Four(r) == Shifted(Shifted(Shifted(Shifted(r))))
  {
    hide Shifted, Xor;
    var s1 := Shifted(r);
    var s2 := Shifted(s1);
    var s3 := Shifted(s2);
    ShiftsBits(r);
    ShiftsBits(s1);
    ShiftsBits(s2);
    ShiftsBits(s3);
    var s, f := Shifted(s3), Four(r);
    assert f.r3 == s.r3;
    assert f.r2 == s.r2;
    assert f.r1 == s.r1;
    assert f.r0 == s.r0;
  }

  lemma FourWord(r: Register, n: nat)
    ensures ShiftTimes(WordOf(r), n + 4) == ShiftTimes(WordOf(Four(r)), n)
  {
    hide WordOf, ShiftOnce, Shifted, Four;
    FourShifts(r);
    var s := Shifted(r);
    ShiftedWord(r);
    ShiftedWord(s);
    ShiftedWord(Shifted(s));
    ShiftedWord(Shifted(Shifted(s)));
    assert ShiftTimes(WordOf(r), n + 4) == ShiftTimes(WordOf(s), n + 3);
    assert ShiftTimes(WordOf(s), n + 3) == ShiftTimes(WordOf(Shifted(s)), n + 2);
    assert ShiftTimes(WordOf(Shifted(s)), n + 2) == ShiftTimes(WordOf(Shifted(Shifted(s))), n + 1);
    assert ShiftTimes(WordOf(Shifted(Shifted(s))), n + 1) == ShiftTimes(WordOf(Four(r)), n);
  }

  // A zero before every bit.
  function Spread(a: Nibble, b: Nibble): Register {
    Register(Nibble(false, a.b3, false, a.b2), Nibble(false, a.b1, false, a.b0),
             Nibble(false, b.b3, false, b.b2), Nibble(false, b.b1, false, b.b0))
  }

  // The square of a register.
  function Square(r: Register): Register {
    var a, b, v, w := r.r3, r.r2, r.r1, r.r0;
    var f, g := a.b3 != a.b1, a.b2 != a.b0;
    var c, d := b.b3 != f, b.b2 != g;
    var x, y := b.b1 != c, b.b0 != d;
    Register(Nibble(a.b1, (a.b3 != x) != v.b3, a.b0, (a.b2 != y) != v.b2), Nibble(c, f != v.b1, d, (g != a.b3) != v.b0),
             Nibble(x, (c != a.b2) != w.b3, y, d != w.b2), Nibble(a.b3, x != w.b1, a.b2, y != w.b0))
  }

  lemma FirstTwoFours(a: Nibble, b: Nibble)
    ensures
      var f, g := a.b3 != a.b1, a.b2 != a.b0;
      Four(Four(Spread(a, b))) == Register(
        Nibble(false, b.b3 != f, false, b.b2 != g), Nibble(a.b3, b.b1, a.b2, b.b0),
        Nibble(f, a.b3, g, a.b2), Nibble(false, f, false, g))
  {
    var f, g := a.b3 != a.b1, a.b2 != a.b0;
    assert Four(Spread(a, b)) == Register(
      Nibble(false, f, false, g), Nibble(false, b.b3, false, b.b2),
      Nibble(a.b3, b.b1, a.b2, b.b0), Nibble(false, a.b3, false, a.b2));
  }

  lemma ThirdFour(a: Nibble, b: Nibble, f: bool, g: bool, c: bool, d: bool)
    ensures
      Four(Register(Nibble(false, c, false, d), Nibble(a.b3, b.b1, a.b2, b.b0),
                    Nibble(f, a.b3, g, a.b2), Nibble(false, f, false, g))) ==
      Register(Nibble(a.b3, b.b1 != c, a.b2, b.b0 != d), Nibble(f, a.b3, g, a.b2),
               Nibble(c, f, d, g), Nibble(false, c, false, d))
  {}

  lemma FourthFour(a: Nibble, x: bool, y: bool, f: bool, g: bool, c: bool, d: bool)
    ensures
      Four(Register(Nibble(a.b3, x, a.b2, y), Nibble(f, a.b3, g, a.b2),
                    Nibble(c, f, d, g), Nibble(false, c, false, d))) ==
      Register(Nibble(f != a.b3, a.b3 != x, g != a.b2, a.b2 != y), Nibble(c, f, d, g != a.b3),
               Nibble(x, c != a.b2, y, d), Nibble(a.b3, x, a.b2, y))
  {}

  lemma SquareByFours(r: Register)
    ensures Square(r) == Plus(Four(Four(Four(Four(Spread(r.r3, r.r2))))), Spread(r.r1, r.r0))
  {
    var a, b := r.r3, r.r2;
    var f, g := a.b3 != a.b1, a.b2 != a.b0;
    var c, d := b.b3 != f, b.b2 != g;
    var x, y := b.b1 != c, b.b0 != d;
    hide Four;
    FirstTwoFours(a, b);
    ThirdFour(a, b, f, g, c, d);
    FourthFour(a, x, y, f, g, c, d);
    assert (f != a.b3) == a.b1 && (g != a.b2) == a.b0;
  }

  lemma ShiftsLast(w: Word, n: nat)
    ensures ShiftTimes(w, n + 2) == ShiftOnce(ShiftOnce(ShiftTimes(w, n)))
  {
    hide ShiftOnce;
    ShiftsCompose(w, n, 2);
    assert ShiftTimes(ShiftTimes(w, n), 2) == ShiftTimes(ShiftOnce(ShiftTimes(w, n)), 1);
  }

  lemma AddAssociates(a: Word, b: Word, c: Word)
    ensures Add(Add(a, b), c) == Add(a, Add(b, c))
  {}

  lemma {:induction false} SquaredConcat(p: Poly, q: Poly, v: Word)
    ensures Squared(p + q, v) == Add(ShiftTimes(Squared(p, v), 2 * |q|), Squared(q, v))
    decreases |q|
  {
    hide ShiftOnce, Add;
    if q == [] {
      assert p + q == p;
      AddZero(Squared(p, v));
    } else {
      var n := |q| - 1;
      var a, b, c := ShiftTimes(Squared(p, v), 2 * n), Squared(q[..n], v), if q[n] then v else Zero(16);
      assert (p + q)[..|p + q| - 1] == p + q[..n] && (p + q)[|p + q| - 1] == q[n];
      SquaredConcat(p, q[..n], v);
      ShiftAdds(a, b);
      ShiftAdds(ShiftOnce(a), ShiftOnce(b));
      AddAssociates(ShiftOnce(ShiftOnce(a)), ShiftOnce(ShiftOnce(b)), c);
      ShiftsLast(Squared(p, v), 2 * n);
    }
  }

  function Spaced(p: Poly): (s: Poly)
    ensures |s| == 2 * |p| && forall i :: 0 <= i < |s| ==> s[i] == (i % 2 == 1 && p[i / 2])
  {
    seq(2 * |p|, i requires 0 <= i < 2 * |p| => i % 2 == 1 && p[i / 2])
  }

  // Up to eight bits no feedback comes in.
  lemma {:induction false} SquaredSpaces(p: Poly)
    requires |p| <= 8
    ensures Squared(p, One()) == Zero(16 - 2 * |p|) + Spaced(p)
  {
    hide ShiftOnce, Add, Spaced;
    if p == [] {
      assert Zero(16) + Spaced(p) == Zero(16);
    } else {
      var n := |p| - 1;
      SquaredSpaces(p[..n]);
      PlainShifts(16 - 2 * n, Spaced(p[..n]), p[n]);
      SpacedSnoc(p);
    }
  }

  lemma PlainShifts(z: nat, s: Poly, last: bool)
    requires 2 <= z && z + |s| == 16
    ensures Add(ShiftOnce(ShiftOnce(Zero(z) + s)), if last then One() else Zero(16)) ==
      Zero(z - 2) + (s + [false, last])
  {
    hide ShiftOnce, Add;
    PlainShift(z, s, false);
    AddZero(ShiftOnce(Zero(z) + s));
    PlainShift(z - 1, s + [false], last);
    assert s + [false] + [last] == s + [false, last];
  }

  lemma SpacedSnoc(p: Poly)
    requires p != []
    ensures Spaced(p) == Spaced(p[..|p| - 1]) + [false, p[|p| - 1]]
  {}

  lemma SpreadWord(a: Nibble, b: Nibble)
    ensures Squared(BitsOf(a) + BitsOf(b), One()) == WordOf(Spread(a, b))
  {
    hide WordOf, BitsOf, Spaced, Squared, GroupAt, Spread;
    var p := BitsOf(a) + BitsOf(b);
    SquaredSpaces(p);
    assert Squared(p, One()) == Spaced(p);
    SpreadGroups(p, a, b);
    Groups(Spread(a, b));
    GroupsDetermine(Spaced(p), WordOf(Spread(a, b)), Spread(a, b));
  }

  lemma SpreadGroups(p: Poly, a: Nibble, b: Nibble)
    requires |p| == 8 && p[0] == a.b3 && p[1] == a.b2 && p[2] == a.b1 && p[3] == a.b0
    requires p[4] == b.b3 && p[5] == b.b2 && p[6] == b.b1 && p[7] == b.b0
    ensures
      var w, r := Spaced(p), Spread(a, b);
      GroupAt(w, 0, r.r3) && GroupAt(w, 4, r.r2) && GroupAt(w, 8, r.r1) && GroupAt(w, 12, r.r0)
  {
    hide Spaced, GroupAt;
    var w, r := Spaced(p), Spread(a, b);
    SpacedGroup(p, w, 0, a.b3, a.b2, r.r3);
    SpacedGroup(p, w, 4, a.b1, a.b0, r.r2);
    SpacedGroup(p, w, 8, b.b3, b.b2, r.r1);
    SpacedGroup(p, w, 12, b.b1, b.b0, r.r0);
  }

  lemma SpacedGroup(p: Poly, w: Word, k: nat, x: bool, y: bool, n: Nibble)
    requires |p| == 8 && w == Spaced(p) && k <= 12 && k % 4 == 0 && p[k / 2] == x && p[k / 2 + 1] == y
    requires !n.b3 && n.b2 == x && !n.b1 && n.b0 == y
    ensures GroupAt(w, k, n)
  {
    assert (k + 1) / 2 == k / 2 && (k + 3) / 2 == k / 2 + 1;
  }

  lemma SixteenShifts(r: Register, n: nat)
    requires n == 16
    ensures ShiftTimes(WordOf(r), n) == WordOf(Four(Four(Four(Four(r)))))
  {
    hide WordOf, Four, ShiftOnce;
    FourWord(r, n - 4);
    FourWord(Four(r), n - 8);
    FourWord(Four(Four(r)), n - 12);
    FourWord(Four(Four(Four(r))), n - 16);
  }

  lemma SquareWord(r: Register)
    ensures Squared(WordOf(r), One()) == WordOf(Square(r))
  {
    hide BitsOf, Squared, Four, Spread, Plus, Square;
    var hi, lo := BitsOf(r.r3) + BitsOf(r.r2), BitsOf(r.r1) + BitsOf(r.r0);
    assert WordOf(r) == hi + lo;
    SquaredConcat(hi, lo, One());
    SpreadWord(r.r3, r.r2);
    SpreadWord(r.r1, r.r0);
    SixteenShifts(Spread(r.r3, r.r2), 2 * |lo|);
    PlusWord(Four(Four(Four(Four(Spread(r.r3, r.r2))))), Spread(r.r1, r.r0));
    SquareByFours(r);
  }

  /* The period */

  // From the remainder of x^n to that of x^(2n), and of x^(2n + 1).
  lemma Double(n: nat, r: Register)
    requires Residue(n) == WordOf(r)
    ensures Residue(2 * n) == WordOf(Square(r))
    ensures Residue(2 * n + 1) == WordOf(Shifted(Square(r)))
  {
    hide WordOf, ShiftOnce, Square, Shifted, Squared;
    ResidueOfDouble(n);
    SquareWord(r);
    ShiftsCompose(One(), 2 * n, 1);
    ShiftedWord(Square(r));
    assert ShiftTimes(Residue(2 * n), 1) == ShiftTimes(ShiftOnce(Residue(2 * n)), 0);
  }

  lemma Step(n: nat, r: Register, odd: bool, q: Register) returns (k: nat)
    requires Residue(n) == WordOf(r) && q == if odd then Shifted(Square(r)) else Square(r)
    ensures k == 2 * n + (if odd then 1 else 0) && Residue(k) == WordOf(q)
  {
    hide WordOf, Residue, Square, Shifted;
    Double(n, r);
    k := 2 * n + if odd then 1 else 0;
  }

  lemma Start() returns (k: nat)
    ensures k == 1 && Residue(k) == WordOf(Hex(0, 0, 0, 2))
  {
    hide WordOf, ShiftOnce;
    k := 1;
    OneIsHex();
    ShiftedWord(Hex(0, 0, 0, 1));
    ShiftsCompose(One(), 0, k);
    assert ShiftTimes(One(), k) == ShiftTimes(ShiftOnce(One()), k - 1);
  }

  lemma OneIsHex()
    ensures WordOf(Hex(0, 0, 0, 1)) == One()
  {
    hide WordOf;
    var r := Hex(0, 0, 0, 1);
    Groups(r);
    GroupsDetermine(WordOf(r), One(), r);
  }

  // The powers that decide the period, by doubling.
  lemma PowerOf16() returns (k: nat)
    ensures k == 16 && Residue(k) == WordOf(Hex(1, 0, 2, 1))
  {
    hide WordOf, Residue;
    k := Start();
    k := Step(k, Hex(0, 0, 0, 2), false, Hex(0, 0, 0, 4));
    k := Step(k, Hex(0, 0, 0, 4), false, Hex(0, 0, 1, 0));
    k := Step(k, Hex(0, 0, 1, 0), false, Hex(0, 1, 0, 0));
    k := Step(k, Hex(0, 1, 0, 0), false, Hex(1, 0, 2, 1));
  }

  lemma GeneratorIsHex()
    ensures WordOf(Hex(1, 0, 2, 1)) == Generator() == FeedBit(Zero(16), true)
  {
    hide WordOf;
    var r := Hex(1, 0, 2, 1);
    Groups(r);
    GroupsDetermine(WordOf(r), Generator(), r);
    assert Add(ShiftLeft(Zero(16)), Generator()) == Generator();
  }

  lemma PowerOf32768() returns (k: nat)
    ensures k == 32768 && Residue(k) == WordOf(Hex(0, 0, 0, 2))
  {
    hide WordOf, Residue;
    k := Start();
    k := Step(k, Hex(0, 0, 0, 2), false, Hex(0, 0, 0, 4));
    k := Step(k, Hex(0, 0, 0, 4), false, Hex(0, 0, 1, 0));
    k := Step(k, Hex(0, 0, 1, 0), false, Hex(0, 1, 0, 0));
    k := Step(k, Hex(0, 1, 0, 0), false, Hex(1, 0, 2, 1));
    k := Step(k, Hex(1, 0, 2, 1), false, Hex(3, 7, 3, 0));
    k := Step(k, Hex(3, 7, 3, 0), false, Hex(0xB, 8, 6, 1));
    k := Step(k, Hex(0xB, 8, 6, 1), false, Hex(0xA, 0xE, 0xF, 0xC));
    k := Step(k, Hex(0xA, 0xE, 0xF, 0xC), false, Hex(8, 0xE, 2, 9));
    k := Step(k, Hex(8, 0xE, 2, 9), false, Hex(1, 3, 0xF, 0xC));
    k := Step(k, Hex(1, 3, 0xF, 0xC), false, Hex(3, 6, 0xC, 4));
    k := Step(k, Hex(3, 6, 0xC, 4), false, Hex(0xF, 0xD, 5, 0));
    k := Step(k, Hex(0xF, 0xD, 5, 0), false, Hex(0xA, 0xA, 9, 0xE));
    k := Step(k, Hex(0xA, 0xA, 9, 0xE), false, Hex(8, 8, 1, 0xC));
    k := Step(k, Hex(8, 8, 1, 0xC), false, Hex(4, 4, 5, 8));
    k := Step(k, Hex(4, 4, 5, 8), false, Hex(0, 0, 0, 2));
  }

  lemma PowerOf217() returns (k: nat)
    ensures k == 217 && Residue(k) == WordOf(Hex(4, 8, 0xE, 3))
  {
    hide WordOf, Residue;
    k := Start();
    k := Step(k, Hex(0, 0, 0, 2), true, Hex(0, 0, 0, 8));
    k := Step(k, Hex(0, 0, 0, 8), false, Hex(0, 0, 4, 0));
    k := Step(k, Hex(0, 0, 4, 0), true, Hex(2, 0, 0, 0));
    k := Step(k, Hex(2, 0, 0, 0), true, Hex(8, 9, 0xA, 9));
    k := Step(k, Hex(8, 9, 0xA, 9), false, Hex(1, 1, 6, 8));
    k := Step(k, Hex(1, 1, 6, 8), false, Hex(3, 7, 5, 0));
    k := Step(k, Hex(3, 7, 5, 0), true, Hex(4, 8, 0xE, 3));
  }

  lemma PowerOf1057() returns (k: nat)
    ensures k == 1057 && Residue(k) == WordOf(Hex(0xF, 2, 0xA, 0xF))
  {
    hide WordOf, Residue;
    k := Start();
    k := Step(k, Hex(0, 0, 0, 2), false, Hex(0, 0, 0, 4));
    k := Step(k, Hex(0, 0, 0, 4), false, Hex(0, 0, 1, 0));
    k := Step(k, Hex(0, 0, 1, 0), false, Hex(0, 1, 0, 0));
    k := Step(k, Hex(0, 1, 0, 0), false, Hex(1, 0, 2, 1));
    k := Step(k, Hex(1, 0, 2, 1), true, Hex(6, 0xE, 6, 0));
    k := Step(k, Hex(6, 0xE, 6, 0), false, Hex(0xC, 1, 0xC, 6));
    k := Step(k, Hex(0xC, 1, 0xC, 6), false, Hex(4, 0xE, 8, 0xA));
    k := Step(k, Hex(4, 0xE, 8, 0xA), false, Hex(5, 9, 4, 6));
    k := Step(k, Hex(5, 9, 4, 6), false, Hex(7, 8, 0xB, 3));
    k := Step(k, Hex(7, 8, 0xB, 3), true, Hex(0xF, 2, 0xA, 0xF));
  }

  lemma PowerOf4681() returns (k: nat)
    ensures k == 4681 && Residue(k) == WordOf(Hex(2, 0xC, 4, 2))
  {
    hide WordOf, Residue;
    k := Start();
    k := Step(k, Hex(0, 0, 0, 2), false, Hex(0, 0, 0, 4));
    k := Step(k, Hex(0, 0, 0, 4), false, Hex(0, 0, 1, 0));
    k := Step(k, Hex(0, 0, 1, 0), true, Hex(0, 2, 0, 0));
    k := Step(k, Hex(0, 2, 0, 0), false, Hex(4, 0, 8, 4));
    k := Step(k, Hex(4, 0, 8, 4), false, Hex(4, 3, 6, 3));
    k := Step(k, Hex(4, 3, 6, 3), true, Hex(8, 0xF, 0xA, 6));
    k := Step(k, Hex(8, 0xF, 0xA, 6), false, Hex(4, 3, 8, 8));
    k := Step(k, Hex(4, 3, 8, 8), false, Hex(1, 3, 9, 6));
    k := Step(k, Hex(1, 3, 9, 6), true, Hex(4, 5, 0, 0));
    k := Step(k, Hex(4, 5, 0, 0), false, Hex(0, 1, 6, 3));
    k := Step(k, Hex(0, 1, 6, 3), false, Hex(0, 4, 2, 4));
    k := Step(k, Hex(0, 4, 2, 4), true, Hex(2, 0xC, 4, 2));
  }

  const PERIOD: nat := 32767

  ghost predicate Returns(n: nat) { Residue(n) == One() }

  lemma PeriodReturns(n: nat)
    requires n == PERIOD
    ensures Returns(n)
  {
    hide WordOf, ShiftOnce, Shifted;
    var k := PowerOf32768();
    var one := Start();
    assert k == n + 1;
    ShiftsCompose(One(), n, 1);
    assert ShiftTimes(Residue(n), 1) == ShiftTimes(ShiftOnce(Residue(n)), 0);
    assert ShiftTimes(One(), one) == ShiftTimes(ShiftOnce(One()), 0);
    ShiftInjective(Residue(n), One());
  }

  lemma ReturnsAgain(a: nat, b: nat)
    requires Returns(a)
    ensures Returns(a + b) <==> Returns(b)
  {
    hide ShiftOnce;
    ShiftsCompose(One(), a, b);
  }

  lemma {:induction false} MultipleReturns(a: nat, k: nat)
    requires Returns(a)
    ensures Returns(a * k)
  {
    hide Returns;
    if k == 0 {
      ZeroReturns(a * k);
    } else {
      MultipleReturns(a, k - 1);
      ReturnsAgain(a, a * (k - 1));
      assert a * k == a + a * (k - 1);
    }
  }

  lemma ZeroReturns(n: nat)
    requires n == 0
    ensures Returns(n)
  {}

  lemma RestReturns(a: nat, n: nat)
    requires Returns(a) && a > 0
    ensures Returns(n) <==> Returns(n % a)
  {
    hide Returns;
    MultipleReturns(a, n / a);
    ReturnsAgain(a * (n / a), n % a);
    assert n == a * (n / a) + n % a;
  }

  // These three do not return.
  lemma PartsDoNotReturn(a: nat, b: nat, c: nat)
    requires a == 217 && b == 1057 && c == 4681
    ensures !Returns(a) && !Returns(b) && !Returns(c)
  {
    hide WordOf, Residue;
    var a' := PowerOf217();
    var b' := PowerOf1057();
    var c' := PowerOf4681();
    Groups(Hex(4, 8, 0xE, 3));
    Groups(Hex(0xF, 2, 0xA, 0xF));
    Groups(Hex(2, 0xC, 4, 2));
    assert !One()[0] && !One()[1] && !One()[2];
  }

  /* The factors of 32767 are 7, 31 and 151 */

  lemma SmallFactor(m: nat, d: nat, e: nat)
    requires (m == 7 || m == 31 || m == 151) && d * e == m && 2 <= d <= 12
    ensures d == m
  {
    assert d == 2 ==> 2 * e == m;
    assert d == 3 ==> 3 * e == m;
    assert d == 4 ==> 4 * e == m;
    assert d == 5 ==> 5 * e == m;
    assert d == 6 ==> 6 * e == m;
    assert d == 7 ==> 7 * e == m;
    assert d == 8 ==> 8 * e == m;
    assert d == 9 ==> 9 * e == m;
    assert d == 10 ==> 10 * e == m;
    assert d == 11 ==> 11 * e == m;
    assert d == 12 ==> 12 * e == m;
  }

  lemma Prime(m: nat, d: nat, e: nat)
    requires (m == 7 || m == 31 || m == 151) && d * e == m
    ensures d == 1 || d == m
  {
    if 2 <= d <= 12 {
      SmallFactor(m, d, e);
    } else if 2 <= e <= 12 {
      SmallFactor(m, e, d);
      OnlyOnce(m, d);
    } else {
      Large(d, e);
    }
  }

  lemma OnlyOnce(m: nat, d: nat)
    requires m > 0 && d * m == m
    ensures d == 1
  {
    assert d >= 2 ==> d * m >= 2 * m;
  }

  lemma Large(d: nat, e: nat)
    ensures d >= 13 && e >= 13 ==> d * e >= 169
    ensures d == 0 || e == 0 ==> d * e == 0
    ensures e == 1 ==> d * e == d
  {
    if d >= 13 && e >= 13 {
      assert d * e >= 13 * e;
    }
  }

  lemma {:induction false} Bezout(a: nat, b: nat) returns (g: nat, u: int, v: int, x: nat, y: nat)
    requires a > 0 || b > 0
    ensures g > 0 && u * a + v * b == g && a == g * x && b == g * y
    decreases b
  {
    if b == 0 {
      g, u, v, x, y := a, 1, 0, 1, 0;
    } else {
      var u', v', x', y';
      g, u', v', x', y' := Bezout(b, a % b);
      u, v, x, y := v', u' - v' * (a / b), x' * (a / b) + y', x';
      EuclidStep(a, b, a / b, a % b, g, u', v', x', y');
    }
  }

  lemma EuclidStep(a: nat, b: nat, q: nat, r: nat, g: nat, u: int, v: int, x: nat, y: nat)
    requires a == b * q + r && u * b + v * r == g && b == g * x && r == g * y
    ensures v * a + (u - v * q) * b == g && a == g * (x * q + y)
  {
    assert v * a == v * (b * q) + v * r;
    assert (u - v * q) * b == u * b - v * (b * q);
    StepDivides(a, b, q, r, g, x, y);
  }

  lemma StepDivides(a: nat, b: nat, q: nat, r: nat, g: nat, x: nat, y: nat)
    requires a == b * q + r && b == g * x && r == g * y
    ensures a == g * (x * q + y)
  {
    assert g * (x * q + y) == g * x * q + g * y;
  }

  // A prime that divides a product divides a factor.
  lemma Euclid(g: nat, q: nat, m: nat, n: nat)
    requires (m == 7 || m == 31 || m == 151) && g * q == m * n
    ensures (exists k: nat :: g == m * k) || (exists k: nat :: q == m * k)
  {
    var h, u, v, x, y := Bezout(m, g);
    Prime(m, h, x);
    if h == 1 {
      UnitCombination(g, q, m, n, u, v);
      Quotient(q, m, u * q + v * n);
    } else {
      assert g == m * y;
    }
  }

  lemma UnitCombination(g: nat, q: nat, m: nat, n: nat, u: int, v: int)
    requires u * m + v * g == 1 && g * q == m * n
    ensures q == m * (u * q + v * n)
  {
    assert (u * m + v * g) * q == m * (u * q) + v * (g * q);
    assert m * (u * q + v * n) == m * (u * q) + v * (m * n);
  }

  lemma Quotient(q: nat, m: nat, k: int)
    requires m > 0 && q == m * k
    ensures exists k: nat :: q == m * k
  {
    assert k < 0 ==> m * k < 0;
    var n: nat := k;
    assert q == m * n;
  }

  lemma {:induction false} CommonReturns(a: nat, b: nat) returns (g: nat, x: nat, y: nat)
    requires Returns(a) && Returns(b) && (a > 0 || b > 0)
    ensures g > 0 && Returns(g) && a == g * x && b == g * y
    decreases b
  {
    hide Returns;
    if b == 0 {
      g, x, y := a, 1, 0;
    } else {
      RestReturns(b, a);
      var x', y';
      g, x', y' := CommonReturns(b, a % b);
      x, y := x' * (a / b) + y', x';
      StepDivides(a, b, a / b, a % b, g, x', y');
    }
  }

  lemma Cancel(g: nat, m: nat, k: nat, n: nat)
    requires m > 0 && g * (m * k) == m * n
    ensures g * k == n
  {
    assert m * (g * k) == m * n;
    assert g * k < n ==> m * (g * k) < m * n;
    assert g * k > n ==> m * (g * k) > m * n;
  }

  // A proper factor of 32767 divides 7 * 31, 7 * 151 or 31 * 151.
  lemma ProperFactor(g: nat, q: nat) returns (n: nat, k: nat)
    requires g * q == PERIOD && q >= 2
    ensures (n == 217 || n == 1057 || n == 4681) && n == g * k
  {
    Euclid(g, q, 7, 4681);
    if i: nat :| q == 7 * i {
      Cancel(g, 7, i, 4681);
      n, k := 4681, i;
    } else {
      var a: nat :| g == 7 * a;
      assert q * (7 * a) == q * g;
      Cancel(q, 7, a, 4681);
      n, k := FactorOf4681(g, q, a);
    }
  }

  lemma FactorOf4681(g: nat, q: nat, a: nat) returns (n: nat, k: nat)
    requires g == 7 * a && q * a == 4681 && q >= 2
    ensures (n == 217 || n == 1057 || n == 4681) && n == g * k
  {
    Euclid(a, q, 31, 151);
    if i: nat :| q == 31 * i {
      Cancel(a, 31, i, 151);
      n, k := 1057, i;
      assert g * k == 7 * (a * i);
    } else {
      var c: nat :| a == 31 * c;
      assert q * (31 * c) == q * a;
      Cancel(q, 31, c, 151);
      Prime(151, c, q);
      if c == 151 {
        OnlyOnce(151, q);
      }
      n, k := 217, 1;
    }
  }

  // The register is back at 1 after the multiples of 32767 shifts, and after no others.
  lemma ReturnsIff(n: nat)
    ensures Returns(n) <==> n % PERIOD == 0
  {
    hide Returns;
    var p := PERIOD;
    PeriodReturns(p);
    RestReturns(p, n);
    if n % p == 0 {
      ZeroReturns(n % p);
    } else if Returns(n % p) {
      NoneBelow(n % p);
    }
  }

  lemma NoneBelow(r: nat)
    requires 0 < r < PERIOD
    ensures !Returns(r)
  {
    hide Returns;
    var p := PERIOD;
    PeriodReturns(p);
    if Returns(r) {
      var g, x, y := CommonReturns(r, p);
      Proper(g, x, y, r);
      var n, k := ProperFactor(g, y);
      MultipleReturns(g, k);
      PartsDoNotReturn(217, 1057, 4681);
    }
  }

  lemma Proper(g: nat, x: nat, y: nat, r: nat)
    requires r == g * x && 0 < r < PERIOD == g * y
    ensures y >= 2
  {
    assert y == 1 ==> g * y == g;
    assert x >= 1 ==> g * x >= g;
  }
}

/** Polynomial and spline calibration over the reals, and how a calibrator is put together. */
module Calibration {
  import opened Prelude
  import StableSort

  /* Polynomials */

  function Power(x: real, n: nat): real {
    if n == 0 then 1.0 else Power(x, n - 1) * x
  }

  // The sum of coefficients[i] * x^i.
  function Polynomial(coefficients: seq<real>, x: real): real {
    if coefficients == [] then 0.0
    else
      var n := |coefficients| - 1;
      Polynomial(coefficients[..n], x) + coefficients[n] * Power(x, n)
  }

  method CalibratePolynomial(coefficients: seq<real>, raw: real) returns (result: real)
    ensures result == Polynomial(coefficients, raw)
  {
    result := 0.0;
    var xPow := 1.0;
    for i := 0 to |coefficients|
      invariant xPow == Power(raw, i) && result == Polynomial(coefficients[..i], raw)
    {
      assert coefficients[..i + 1][..i] == coefficients[..i];
      result := result + coefficients[i] * xPow;
      xPow := xPow * raw;
    }
    assert coefficients[..|coefficients|] == coefficients;
  }

  // A `Term` with a readable coefficient and exponent.
  datatype Term = Term(coefficient: real, exponent: nat)

  function Resized(terms: seq<real>, length: nat): (r: seq<real>)
    ensures |r| == if length > |terms| then length else |terms|
  {
    if length > |terms| then terms + seq(length - |terms|, _ => 0.0) else terms
  }

  // Later terms replace earlier ones of the same exponent.
  function Assembled(terms: seq<Term>): seq<real> {
    if terms == [] then []
    else
      var term := terms[|terms| - 1];
      Resized(Assembled(terms[..|terms| - 1]), term.exponent + 1)[term.exponent := term.coefficient]
  }

  method AssembleTerms(terms: seq<Term>) returns (coefficients: seq<real>)
    ensures coefficients == Assembled(terms)
  {
    coefficients := [];
    for k := 0 to |terms|
      invariant coefficients == Assembled(terms[..k])
    {
      assert terms[..k + 1][..k] == terms[..k];
      var term := terms[k];
      if term.exponent >= |coefficients| {
        coefficients := coefficients + seq(term.exponent + 1 - |coefficients|, _ => 0.0);
      }
      coefficients := coefficients[term.exponent := term.coefficient];
    }
    assert terms[..|terms|] == terms;
  }

  // The sum of the terms as written.
  function TermSum(terms: seq<Term>, x: real): real {
    if terms == [] then 0.0
    else
      var term := terms[|terms| - 1];
      TermSum(terms[..|terms| - 1], x) + term.coefficient * Power(x, term.exponent)
  }

  ghost predicate DistinctExponents(terms: seq<Term>) {
    forall i, j :: 0 <= i < j < |terms| ==> terms[i].exponent != terms[j].exponent
  }

  lemma {:induction false} ZerosAddNothing(coefficients: seq<real>, n: nat, x: real)
    ensures Polynomial(coefficients + seq(n, _ => 0.0), x) == Polynomial(coefficients, x)
  {
    var longer := coefficients + seq(n, _ => 0.0);
    if n == 0 {
      assert longer == coefficients;
    } else {
      ZerosAddNothing(coefficients, n - 1, x);
      assert longer[..|longer| - 1] == coefficients + seq(n - 1, _ => 0.0);
    }
  }

  lemma {:induction false} CoefficientReplaced(coefficients: seq<real>, e: nat, c: real, x: real)
    requires e < |coefficients|
    ensures Polynomial(coefficients[e := c], x) == Polynomial(coefficients, x) + (c - coefficients[e]) * Power(x, e)
  {
    var n := |coefficients| - 1;
    if e < n {
      CoefficientReplaced(coefficients[..n], e, c, x);
      assert coefficients[e := c][..n] == coefficients[..n][e := c];
    } else {
      assert coefficients[e := c][..n] == coefficients[..n];
    }
  }

  // Exponents that no term has are left at zero.
  lemma {:induction false} MissingIsZero(terms: seq<Term>, e: nat)
    requires forall i :: 0 <= i < |terms| ==> terms[i].exponent != e
    ensures e < |Assembled(terms)| ==> Assembled(terms)[e] == 0.0
  {
    if terms != [] {
      MissingIsZero(terms[..|terms| - 1], e);
    }
  }

  lemma ResizedValue(coefficients: seq<real>, length: nat, x: real)
    ensures Polynomial(Resized(coefficients, length), x) == Polynomial(coefficients, x)
  {
    if length > |coefficients| {
      ZerosAddNothing(coefficients, length - |coefficients|, x);
    }
  }

  // A calibrator built from terms of different exponents, in any order, computes their sum.
  lemma {:induction false} AssembledSum(terms: seq<Term>, x: real)
    requires DistinctExponents(terms)
    ensures Polynomial(Assembled(terms), x) == TermSum(terms, x)
  {
    hide Power, Polynomial, Resized;
    if terms == [] {
      NoTerms(x);
    } else {
      var init, term := terms[..|terms| - 1], terms[|terms| - 1];
      AssembledSum(init, x);
      MissingIsZero(init, term.exponent);
      TermAdded(Assembled(init), term, x);
    }
  }

  lemma NoTerms(x: real)
    ensures Polynomial([], x) == 0.0
  {}

  lemma TermAdded(coefficients: seq<real>, term: Term, x: real)
    requires term.exponent < |coefficients| ==> coefficients[term.exponent] == 0.0
    ensures
      Polynomial(Resized(coefficients, term.exponent + 1)[term.exponent := term.coefficient], x) ==
      Polynomial(coefficients, x) + term.coefficient * Power(x, term.exponent)
  {
    hide Power, Polynomial;
    var before := Resized(coefficients, term.exponent + 1);
    ResizedValue(coefficients, term.exponent + 1, x);
    assert before[term.exponent] == 0.0;
    CoefficientReplaced(before, term.exponent, term.coefficient, x);
  }

  /* Repeated exponents */

  function Coefficient(coefficients: seq<real>, e: nat): real {
    if e < |coefficients| then coefficients[e] else 0.0
  }

  // By exponent, the sum of the coefficients that a later term replaces.
  function Lost(terms: seq<Term>): (lost: seq<real>)
    ensures |lost| == |Assembled(terms)|
  {
    if terms == [] then []
    else
      var init, e := terms[..|terms| - 1], terms[|terms| - 1].exponent;
      var lost := Resized(Lost(init), e + 1);
      lost[e := lost[e] + Coefficient(Assembled(init), e)]
  }

  // Whatever the terms, the calibrator computes their sum less what was replaced.
  lemma {:induction false} AssembledAndLost(terms: seq<Term>, x: real)
    ensures Polynomial(Assembled(terms), x) + Polynomial(Lost(terms), x) == TermSum(terms, x)
  {
    hide Power, Polynomial, Resized;
    if terms == [] {
      NoTerms(x);
    } else {
      var init, term := terms[..|terms| - 1], terms[|terms| - 1];
      AssembledAndLost(init, x);
      TermReplaces(Assembled(init), Lost(init), term, x);
    }
  }

  lemma TermReplaces(kept: seq<real>, lost: seq<real>, term: Term, x: real)
    ensures
      var e, c := term.exponent, term.coefficient;
      var kept', lost' := Resized(kept, e + 1), Resized(lost, e + 1);
      Polynomial(kept'[e := c], x) + Polynomial(lost'[e := lost'[e] + Coefficient(kept, e)], x) ==
      Polynomial(kept, x) + Polynomial(lost, x) + c * Power(x, e)
  {
    hide Power, Polynomial;
    var e, c := term.exponent, term.coefficient;
    var kept', lost' := Resized(kept, e + 1), Resized(lost, e + 1);
    ResizedValue(kept, e + 1, x);
    ResizedValue(lost, e + 1, x);
    assert kept'[e] == Coefficient(kept, e);
    CoefficientReplaced(kept', e, c, x);
    CoefficientReplaced(lost', e, lost'[e] + kept'[e], x);
    Cancels(c, kept'[e], Power(x, e));
  }

  lemma Cancels(c: real, replaced: real, p: real)
    ensures (c - replaced) * p + replaced * p == c * p
  {}

  // A polynomial that is zero everywhere has no coefficient but zero.
  ghost predicate Vanishes(coefficients: seq<real>) { forall x: real :: Polynomial(coefficients, x) == 0.0 }

  predicate AllZero(coefficients: seq<real>) { forall i :: 0 <= i < |coefficients| ==> coefficients[i] == 0.0 }

  lemma {:induction false} AllZeroVanishes(coefficients: seq<real>, x: real)
    requires AllZero(coefficients)
    ensures Polynomial(coefficients, x) == 0.0
  {
    if coefficients != [] { AllZeroVanishes(coefficients[..|coefficients| - 1], x); }
  }

  lemma {:induction false} PowerOfDouble(x: real, n: nat)
    ensures Power(2.0 * x, n) == Power(2.0, n) * Power(x, n)
  {
    if n > 0 {
      PowerOfDouble(x, n - 1);
      assert Power(2.0, n - 1) * Power(x, n - 1) * (2.0 * x) == (Power(2.0, n - 1) * 2.0) * (Power(x, n - 1) * x);
    }
  }

  lemma {:induction false} PowersOfTwoGrow(m: nat, n: nat)
    requires m < n
    ensures 0.0 < Power(2.0, m) < Power(2.0, n)
  {
    PowerPositive(n - 1);
    if m < n - 1 { PowersOfTwoGrow(m, n - 1); }
  }

  lemma {:induction false} PowerPositive(n: nat)
    ensures Power(2.0, n) > 0.0
  {
    if n > 0 { PowerPositive(n - 1); }
  }

  // p(2x) - 2^n p(x), coefficient by coefficient.
  function Doubled(coefficients: seq<real>, n: nat): (d: seq<real>)
    ensures |d| == |coefficients|
    ensures forall i :: 0 <= i < |d| ==> d[i] == DoubledCoefficient(coefficients[i], i, n)
  {
    seq(|coefficients|, i requires 0 <= i < |coefficients| => DoubledCoefficient(coefficients[i], i, n))
  }

  function DoubledCoefficient(c: real, i: nat, n: nat): real { c * (Power(2.0, i) - Power(2.0, n)) }

  lemma EmptyPolynomial(x: real)
    ensures Polynomial([], x) == 0.0
  {}

  lemma PolynomialSnoc(coefficients: seq<real>, x: real)
    requires coefficients != []
    ensures
      var k := |coefficients| - 1;
      Polynomial(coefficients, x) == Polynomial(coefficients[..k], x) + coefficients[k] * Power(x, k)
  {}

  lemma DoubledInit(coefficients: seq<real>, n: nat)
    requires coefficients != []
    ensures
      var k := |coefficients| - 1;
      && Doubled(coefficients, n)[..k] == Doubled(coefficients[..k], n)
      && Doubled(coefficients, n)[k] == DoubledCoefficient(coefficients[k], k, n)
  {
    hide DoubledCoefficient;
    var k := |coefficients| - 1;
    var front, init := Doubled(coefficients, n)[..k], Doubled(coefficients[..k], n);
    forall i | 0 <= i < k
      ensures front[i] == init[i]
    {
      assert coefficients[..k][i] == coefficients[i];
    }
  }

  lemma DoubledTerm(c: real, two: real, top: real, p: real, rest: real)
    ensures c * (two - top) * p == c * (two * p) - top * (c * p)
    ensures top * (rest + c * p) == top * rest + top * (c * p)
  {}

  lemma DoubledStep(c: real, two: real, top: real, p: real, q: real, doubled: real, twice: real, rest: real)
    requires doubled == twice - top * rest && q == two * p
    ensures doubled + c * (two - top) * p == (twice + c * q) - top * (rest + c * p)
  {
    DoubledTerm(c, two, top, p, rest);
  }

  lemma {:induction false} DoubledValue(coefficients: seq<real>, n: nat, x: real)
    ensures Polynomial(Doubled(coefficients, n), x) ==
      Polynomial(coefficients, 2.0 * x) - Power(2.0, n) * Polynomial(coefficients, x)
  {
    hide Power, Doubled, Polynomial;
    if coefficients == [] {
      EmptyPolynomial(x);
      EmptyPolynomial(2.0 * x);
      assert Doubled(coefficients, n) == [];
    } else {
      var k := |coefficients| - 1;
      var init, c := coefficients[..k], coefficients[k];
      DoubledValue(init, n, x);
      DoubledInit(coefficients, n);
      PowerOfDouble(x, k);
      PolynomialSnoc(Doubled(coefficients, n), x);
      PolynomialSnoc(coefficients, 2.0 * x);
      PolynomialSnoc(coefficients, x);
      DoubledStep(c, Power(2.0, k), Power(2.0, n), Power(x, k), Power(2.0 * x, k),
                  Polynomial(Doubled(init, n), x), Polynomial(init, 2.0 * x), Polynomial(init, x));
    }
  }

  lemma {:induction false} VanishingIsZero(coefficients: seq<real>)
    requires Vanishes(coefficients)
    ensures AllZero(coefficients)
    decreases |coefficients|
  {
    if coefficients != [] {
      var n := |coefficients| - 1;
      var init := coefficients[..n];
      var lower := Doubled(init, n);
      forall x: real
        ensures Polynomial(lower, x) == 0.0
      {
        LeadingCancels(coefficients, x);
      }
      VanishingIsZero(lower);
      forall i | 0 <= i < n
        ensures coefficients[i] == 0.0
      {
        PowersOfTwoGrow(i, n);
        ZeroFactor(coefficients[i], Power(2.0, i) - Power(2.0, n));
        assert lower[i] == 0.0;
      }
      AllZeroVanishes(init, 1.0);
      PowerOfOne(n);
      assert Polynomial(coefficients, 1.0) == 0.0;
    }
  }

  lemma LeadingCancels(coefficients: seq<real>, x: real)
    requires coefficients != [] && Vanishes(coefficients)
    ensures Polynomial(Doubled(coefficients[..|coefficients| - 1], |coefficients| - 1), x) == 0.0
  {
    hide Power;
    var n := |coefficients| - 1;
    var init, c := coefficients[..n], coefficients[n];
    DoubledValue(init, n, x);
    PowerOfDouble(x, n);
    assert Polynomial(coefficients, x) == 0.0 && Polynomial(coefficients, 2.0 * x) == 0.0;
    DoubledTerm(c, Power(2.0, n), Power(2.0, n), Power(x, n), Polynomial(init, x));
  }

  lemma ZeroFactor(a: real, b: real)
    ensures b != 0.0 && a * b == 0.0 ==> a == 0.0
  {}

  lemma {:induction false} PowerOfOne(n: nat)
    ensures Power(1.0, n) == 1.0
  {
    if n > 0 { PowerOfOne(n - 1); }
  }

  ghost predicate ComputesSum(terms: seq<Term>) {
    forall x: real :: Polynomial(Assembled(terms), x) == TermSum(terms, x)
  }

  // The calibrator computes the sum of its terms everywhere if and only if for every exponent the
  // replaced coefficients add up to zero.
  lemma ComputesSumIff(terms: seq<Term>)
    ensures ComputesSum(terms) <==> AllZero(Lost(terms))
  {
    hide Polynomial, TermSum, AllZero, Lost, Assembled;
    if AllZero(Lost(terms)) {
      forall x: real
        ensures Polynomial(Assembled(terms), x) == TermSum(terms, x)
      {
        AssembledAndLost(terms, x);
        AllZeroVanishes(Lost(terms), x);
      }
      assert ComputesSum(terms);
    }
    if ComputesSum(terms) {
      forall x: real
        ensures Polynomial(Lost(terms), x) == 0.0
      {
        AssembledAndLost(terms, x);
        assert Polynomial(Assembled(terms), x) == TermSum(terms, x);
      }
      VanishingIsZero(Lost(terms));
    }
  }

  // Of two terms with one exponent only the second counts.
  lemma RepeatedExponentLost(a: real, b: real, e: nat, x: real)
    ensures Polynomial(Assembled([Term(a, e), Term(b, e)]), x) == b * Power(x, e)
    ensures Lost([Term(a, e), Term(b, e)])[e] == a
  {
    hide Power, Polynomial;
    TwoAssembled(a, b, e);
    AssembledSum([Term(b, e)], x);
    assert [Term(b, e)][..0] == [];
    assert TermSum([Term(b, e)], x) == 0.0 + b * Power(x, e);
  }

  lemma TwoAssembled(a: real, b: real, e: nat)
    ensures Assembled([Term(a, e), Term(b, e)]) == Assembled([Term(b, e)])
    ensures Lost([Term(a, e), Term(b, e)])[e] == a
  {
    var one, two := [Term(a, e)], [Term(a, e), Term(b, e)];
    assert two[..1] == one && one[..0] == [] && [Term(b, e)][..0] == [];
    assert |Assembled(one)| == e + 1 && Assembled(one)[e] == a;
    assert Lost(one)[e] == 0.0;
  }

  /* Splines */

  datatype Point = Point(raw: real, calibrated: real)

  datatype CalibrationError = CalibrationFailed

  const MIN_GAP := 0.000000001

  function Slope(p: Point, q: Point): real
    requires p.raw != q.raw
  {
    (q.calibrated - p.calibrated) / (q.raw - p.raw)
  }

  // The line through two points, followed from one of them; flat if they are too close.
  function Line(anchor: Point, p: Point, q: Point, raw: real): real {
    if -MIN_GAP < q.raw - p.raw < MIN_GAP then anchor.calibrated
    else anchor.calibrated + Slope(p, q) * (raw - anchor.raw)
  }

  // The first segment that holds the value, from segment i on.
  function Scan(points: seq<Point>, raw: real, i: nat): Option<real>
    decreases |points| - i
  {
    if i + 1 >= |points| then None
    else if points[i].raw <= raw <= points[i + 1].raw then Some(Line(points[i], points[i], points[i + 1], raw))
    else Scan(points, raw, i + 1)
  }

  function Spline(points: seq<Point>, raw: real): Result<real, CalibrationError> {
    var n := |points|;
    if n == 0 then Err(CalibrationFailed)
    else if n == 1 then Ok(points[0].calibrated)
    else if raw <= points[0].raw then Ok(Line(points[0], points[0], points[1], raw))
    else if raw >= points[n - 1].raw then Ok(Line(points[n - 1], points[n - 2], points[n - 1], raw))
    else
      match Scan(points, raw, 0)
      case Some(calibrated) => Ok(calibrated)
      case None => Ok(points[0].calibrated)
  }

  method CalibrateSpline(points: seq<Point>, raw: real) returns (r: Result<real, CalibrationError>)
    ensures r == Spline(points, raw)
  {
    if |points| == 0 {
      return Err(CalibrationFailed);
    }
    if |points| == 1 {
      return Ok(points[0].calibrated);
    }
    var first, last := points[0], points[|points| - 1];
    if raw <= first.raw {
      return Ok(Line(first, first, points[1], raw));
    }
    if raw >= last.raw {
      return Ok(Line(last, points[|points| - 2], last, raw));
    }
    for i := 0 to |points| - 1
      invariant Scan(points, raw, 0) == Scan(points, raw, i)
    {
      var p1, p2 := points[i], points[i + 1];
      if raw >= p1.raw && raw <= p2.raw {
        return Ok(Line(p1, p1, p2, raw));
      }
    }
    return Ok(first.calibrated);
  }

  // The scan behind the end tests finds a segment, whatever the points: the last return is never reached.
  lemma {:induction false} ScanFinds(points: seq<Point>, raw: real, i: nat)
    requires i + 1 < |points| && points[i].raw < raw < points[|points| - 1].raw
    ensures Scan(points, raw, i).Some?
    decreases |points| - i
  {
    if raw > points[i + 1].raw {
      ScanFinds(points, raw, i + 1);
    }
  }

  // The value lies on the line through p and q, or is that of the anchor if they are closer than 1e-9.
  predicate OnLine(anchor: Point, p: Point, q: Point, raw: real, value: real) {
    var dx := q.raw - p.raw;
    if dx < 0.000000001 && dx > -0.000000001 then value == anchor.calibrated
    else (value - anchor.calibrated) * dx == (raw - anchor.raw) * (q.calibrated - p.calibrated)
  }

  lemma LineRuns(anchor: Point, p: Point, q: Point, raw: real)
    ensures OnLine(anchor, p, q, raw, Line(anchor, p, q, raw))
  {
    var dx, dy, d := q.raw - p.raw, q.calibrated - p.calibrated, raw - anchor.raw;
    if dx >= 0.000000001 || dx <= -0.000000001 {
      SlopeTimes(dy, dx, d);
    }
  }

  lemma SlopeTimes(dy: real, dx: real, d: real)
    requires dx != 0.0
    ensures dy / dx * d * dx == d * dy
  {
    assert dy / dx * dx == dy;
  }

  // The first segment from i on that holds the value.
  ghost predicate FirstHolding(points: seq<Point>, raw: real, i: nat) {
    && i + 1 < |points| && points[i].raw <= raw <= points[i + 1].raw
    && forall j :: 0 <= j < i ==> !(points[j].raw <= raw <= points[j + 1].raw)
  }

  lemma {:induction false} ScanIsFirst(points: seq<Point>, raw: real, i: nat) returns (k: nat)
    requires Scan(points, raw, i).Some? && forall j :: 0 <= j < i && j + 1 < |points| ==>
      !(points[j].raw <= raw <= points[j + 1].raw)
    ensures FirstHolding(points, raw, k) && OnLine(points[k], points[k], points[k + 1], raw, Scan(points, raw, i).value)
    decreases |points| - i
  {
    if points[i].raw <= raw <= points[i + 1].raw {
      k := i;
      LineRuns(points[i], points[i], points[i + 1], raw);
    } else {
      k := ScanIsFirst(points, raw, i + 1);
    }
  }

  // Whatever the points: none is an error, one is a constant, and of several the value decides which two
  // make the line: the first two up to the first, the last two from the last on, else the first two in
  // the list that it lies between.
  lemma SplineIs(points: seq<Point>, raw: real) returns (a: nat, i: nat)
    ensures |points| == 0 ==> Spline(points, raw) == Err(CalibrationFailed)
    ensures |points| == 1 ==> Spline(points, raw) == Ok(points[0].calibrated)
    ensures |points| > 1 ==>
      && Spline(points, raw).Ok? && i + 1 < |points| && a < |points|
      && OnLine(points[a], points[i], points[i + 1], raw, Spline(points, raw).value)
      && if raw <= points[0].raw then a == i == 0
         else if raw >= points[|points| - 1].raw then i == |points| - 2 && a == |points| - 1
         else a == i && FirstHolding(points, raw, i)
  {
    a, i := 0, 0;
    var n := |points|;
    hide Line, OnLine;
    if n > 1 {
      if raw <= points[0].raw {
        LineRuns(points[0], points[0], points[1], raw);
      } else if raw >= points[n - 1].raw {
        a, i := n - 1, n - 2;
        LineRuns(points[n - 1], points[n - 2], points[n - 1], raw);
      } else {
        ScanFinds(points, raw, 0);
        i := ScanIsFirst(points, raw, 0);
        a := i;
      }
    }
  }

  // Knots in order and far enough apart.
  ghost predicate Spaced(points: seq<Point>) {
    && |points| >= 2
    && forall i {:trigger points[i]} :: 0 <= i < |points| - 1 ==> points[i].raw + MIN_GAP <= points[i + 1].raw
  }

  lemma {:induction false} SpacedApart(points: seq<Point>, i: nat, j: nat)
    requires Spaced(points) && i < j < |points|
    ensures points[i].raw + MIN_GAP <= points[j].raw
    decreases j
  {
    if i < j - 1 {
      SpacedApart(points, i, j - 1);
      assert points[j - 1].raw + MIN_GAP <= points[j - 1 + 1].raw;
    } else {
      assert points[i].raw + MIN_GAP <= points[i + 1].raw;
    }
  }

  // Segment i, the outer ones reaching to infinity.
  predicate InSegment(points: seq<Point>, i: nat, raw: real)
    requires i + 1 < |points|
  {
    (i == 0 || points[i].raw <= raw) && (i + 2 == |points| || raw <= points[i + 1].raw)
  }

  // The line through the knots of segment i.
  function Segment(points: seq<Point>, i: nat, raw: real): real
    requires Spaced(points) && i + 1 < |points|
  {
    SpacedApart(points, i, i + 1);
    points[i].calibrated + Slope(points[i], points[i + 1]) * (raw - points[i].raw)
  }

  lemma LineIsSegment(points: seq<Point>, i: nat, raw: real)
    requires Spaced(points) && i + 1 < |points|
    ensures Line(points[i], points[i], points[i + 1], raw) == Segment(points, i, raw)
    ensures Line(points[i + 1], points[i], points[i + 1], raw) == Segment(points, i, raw)
  {
    SpacedApart(points, i, i + 1);
    LineEnds(points[i], points[i + 1], raw);
  }

  lemma LineEnds(p: Point, q: Point, raw: real)
    requires p.raw < q.raw
    ensures p.calibrated + Slope(p, q) * (q.raw - p.raw) == q.calibrated
    ensures q.calibrated + Slope(p, q) * (raw - q.raw) == p.calibrated + Slope(p, q) * (raw - p.raw)
  {
    var dx, dy := q.raw - p.raw, q.calibrated - p.calibrated;
    assert dy / dx * dx == dy;
    assert Slope(p, q) * (raw - p.raw) == Slope(p, q) * (raw - q.raw) + Slope(p, q) * dx;
  }

  lemma SegmentEnds(points: seq<Point>, i: nat)
    requires Spaced(points) && i + 1 < |points|
    ensures Segment(points, i, points[i].raw) == points[i].calibrated
    ensures Segment(points, i, points[i + 1].raw) == points[i + 1].calibrated
  {
    SpacedApart(points, i, i + 1);
    LineEnds(points[i], points[i + 1], points[i].raw);
  }

  lemma {:induction false} ScanIsSegment(points: seq<Point>, raw: real, from: nat, i: nat)
    requires Spaced(points) && from <= i && i + 1 < |points| && points[i].raw <= raw <= points[i + 1].raw
    ensures Scan(points, raw, from) == Some(Segment(points, i, raw))
    decreases i - from
  {
    hide Line, Segment;
    SpacedApart(points, i, i + 1);
    LineIsSegment(points, i, raw);
    if from < i {
      SpacedApart(points, from, from + 1);
      if from + 1 < i {
        SpacedApart(points, from + 1, i);
        ScanIsSegment(points, raw, from + 1, i);
      } else if points[i].raw == raw {
        LineIsSegment(points, from, raw);
        SegmentEnds(points, from);
        SegmentEnds(points, i);
      } else {
        ScanIsSegment(points, raw, from + 1, i);
      }
    }
  }

  // With spaced knots, calibration is the piecewise linear curve through them, extended on both sides.
  lemma SplineIsPiecewise(points: seq<Point>, raw: real, i: nat)
    requires Spaced(points) && i + 1 < |points| && InSegment(points, i, raw)
    ensures Spline(points, raw) == Ok(Segment(points, i, raw))
  {
    hide Line, Segment;
    var n := |points|;
    LineIsSegment(points, 0, raw);
    LineIsSegment(points, n - 2, raw);
    SpacedApart(points, i, i + 1);
    if raw <= points[0].raw {
      if i > 0 {
        SpacedApart(points, 0, i);
      }
    } else if raw >= points[n - 1].raw {
      if i + 2 < n {
        SpacedApart(points, i + 1, n - 1);
      }
    } else {
      ScanIsSegment(points, raw, 0, i);
    }
  }

  // Calibration hits every knot.
  lemma HitsKnots(points: seq<Point>, k: nat)
    requires Spaced(points) && k < |points|
    ensures Spline(points, points[k].raw) == Ok(points[k].calibrated)
  {
    hide Spline, Segment;
    var i := if k + 1 < |points| then k else k - 1;
    SpacedApart(points, i, i + 1);
    SplineIsPiecewise(points, points[k].raw, i);
    SegmentEnds(points, i);
  }

  // Between two neighbouring knots it stays between their values.
  lemma StaysBetween(points: seq<Point>, i: nat, raw: real)
    requires Spaced(points) && i + 1 < |points| && points[i].raw <= raw <= points[i + 1].raw
    ensures
      var a, b := points[i].calibrated, points[i + 1].calibrated;
      Spline(points, raw).Ok? && (a <= Spline(points, raw).value <= b || b <= Spline(points, raw).value <= a)
  {
    hide Spline, Segment;
    SplineIsPiecewise(points, raw, i);
    SegmentEnds(points, i);
    if points[i].calibrated <= points[i + 1].calibrated {
      SegmentMonotone(points, i, points[i].raw, raw, 1.0);
      SegmentMonotone(points, i, raw, points[i + 1].raw, 1.0);
    } else {
      SegmentMonotone(points, i, points[i].raw, raw, -1.0);
      SegmentMonotone(points, i, raw, points[i + 1].raw, -1.0);
    }
  }

  // A segment rises or falls with its knots, all along its line.
  lemma SegmentMonotone(points: seq<Point>, i: nat, x: real, y: real, sign: real)
    requires Spaced(points) && i + 1 < |points| && x <= y && (sign == 1.0 || sign == -1.0)
    requires sign * points[i].calibrated <= sign * points[i + 1].calibrated
    ensures sign * Segment(points, i, x) <= sign * Segment(points, i, y)
  {
    SpacedApart(points, i, i + 1);
    var p, q := points[i], points[i + 1];
    SlopeSign(q.calibrated - p.calibrated, q.raw - p.raw, sign);
    Climb(sign * Slope(p, q), x - p.raw, y - p.raw);
  }

  lemma SlopeSign(dy: real, dx: real, sign: real)
    requires dx > 0.0 && sign * dy >= 0.0 && (sign == 1.0 || sign == -1.0)
    ensures sign * (dy / dx) >= 0.0
  {
    if sign == 1.0 {
      assert dy / dx >= 0.0;
    } else {
      assert -dy / dx >= 0.0;
    }
  }

  lemma Climb(slope: real, u: real, v: real)
    requires slope >= 0.0 && u <= v
    ensures slope * u <= slope * v
  {}

  // The knot values do not fall (sign 1), or do not rise (sign -1).
  ghost predicate Monotone(points: seq<Point>, sign: real) {
    forall i, j :: 0 <= i <= j < |points| ==> sign * points[i].calibrated <= sign * points[j].calibrated
  }

  // Some segment holds every value.
  function SegmentOf(points: seq<Point>, raw: real, from: nat): (i: nat)
    requires from + 1 < |points| && (from == 0 || points[from].raw <= raw)
    ensures from <= i && i + 1 < |points| && InSegment(points, i, raw)
    decreases |points| - from
  {
    if from + 2 == |points| || raw <= points[from + 1].raw then from else SegmentOf(points, raw, from + 1)
  }

  // If the knot values are monotone, calibration is monotone the same way on the whole line.
  lemma SplineMonotone(points: seq<Point>, x: real, y: real, sign: real)
    requires Spaced(points) && (sign == 1.0 || sign == -1.0) && Monotone(points, sign) && x <= y
    ensures Spline(points, x).Ok? && Spline(points, y).Ok?
    ensures sign * Spline(points, x).value <= sign * Spline(points, y).value
  {
    hide Spline, Segment;
    var i, j := SegmentOf(points, x, 0), SegmentOf(points, y, 0);
    SplineIsPiecewise(points, x, i);
    SplineIsPiecewise(points, y, j);
    if i == j {
      SegmentMonotone(points, i, x, y, sign);
    } else if i < j {
      SegmentMonotone(points, i, x, points[i + 1].raw, sign);
      SegmentMonotone(points, j, points[j].raw, y, sign);
      SegmentEnds(points, i);
      SegmentEnds(points, j);
    } else {
      InOneSegment(points, x, y, i, j);
      SegmentEnds(points, j);
      SegmentEnds(points, i);
    }
  }

  // Values in order lie in segments in order, unless both are the knot between them.
  lemma InOneSegment(points: seq<Point>, x: real, y: real, i: nat, j: nat)
    requires Spaced(points) && j < i && i + 1 < |points| && x <= y
    requires InSegment(points, i, x) && InSegment(points, j, y)
    ensures i == j + 1 && x == y == points[i].raw
  {
    if j + 1 < i {
      SpacedApart(points, j + 1, i);
    }
  }

  // An inner knot closer than the least gap to the one before is passed over, unless its value is the
  // same.
  lemma InnerKnotHitIff(points: seq<Point>, k: nat)
    requires 0 < k && k + 1 < |points| && forall i, j :: 0 <= i < j < |points| ==> points[i].raw < points[j].raw
    ensures Spline(points, points[k].raw) == Ok(points[k].calibrated) <==>
      points[k].raw - points[k - 1].raw >= MIN_GAP || points[k - 1].calibrated == points[k].calibrated
  {
    hide Slope;
    var p, q, n := points[k - 1], points[k], |points|;
    assert points[0].raw < q.raw < points[n - 1].raw;
    ScanStopsBefore(points, k, 0);
    LineEnds(p, q, q.raw);
    assert Line(p, p, q, q.raw) == if q.raw - p.raw < MIN_GAP then p.calibrated else q.calibrated;
  }

  lemma CloseKnotMissed()
    ensures
      var points := [Point(0.0, 0.0), Point(MIN_GAP / 2.0, 10.0), Point(1.0, 20.0)];
      Spline(points, points[1].raw) == Ok(0.0)
  {}

  lemma {:induction false} ScanStopsBefore(points: seq<Point>, k: nat, from: nat)
    requires from < k && k < |points| && forall i, j :: 0 <= i < j < |points| ==> points[i].raw < points[j].raw
    ensures Scan(points, points[k].raw, from) == Some(Line(points[k - 1], points[k - 1], points[k], points[k].raw))
    decreases k - from
  {
    hide Line;
    if from + 1 < k {
      ScanStopsBefore(points, k, from + 1);
    }
  }

  /* Knots as read */

  // The knots of a calibrator are the points as read, sorted by raw value.
  function Knots(points: seq<Point>): seq<Point> { StableSort.Sort(points, RawOf) }

  function RawOf(p: Point): real { p.raw }

  // However the points are listed, if any two are far enough apart the knots are spaced, and the
  // calibrator passes through every point listed.
  lemma AnyOrderHitsPoints(points: seq<Point>, p: Point)
    requires |points| >= 2 && p in points
    requires forall i, j :: 0 <= i < j < |points| ==>
      points[i].raw + MIN_GAP <= points[j].raw || points[j].raw + MIN_GAP <= points[i].raw
    ensures Spaced(Knots(points)) && Spline(Knots(points), p.raw) == Ok(p.calibrated)
  {
    hide Spline, Spaced, Knots;
    KnotsRearrange(points);
    var knots := Knots(points);
    assert p in multiset(points);
    assert p in multiset(knots);
    KnotsSpaced(points, knots);
    var k :| 0 <= k < |knots| && knots[k] == p;
    HitsKnots(knots, k);
  }

  lemma KnotsRearrange(points: seq<Point>)
    ensures
      var knots := Knots(points);
      && multiset(knots) == multiset(points)
      && forall i, j :: 0 <= i <= j < |knots| ==> knots[i].raw <= knots[j].raw
  {
    StableSort.SortOrders(points, RawOf);
    var knots := Knots(points);
    forall i, j | 0 <= i <= j < |knots|
      ensures knots[i].raw <= knots[j].raw
    {
      assert RawOf(knots[i]) <= RawOf(knots[j]);
    }
  }

  lemma KnotsSpaced(points: seq<Point>, knots: seq<Point>)
    requires |points| >= 2 && multiset(knots) == multiset(points)
    requires forall i, j :: 0 <= i <= j < |knots| ==> knots[i].raw <= knots[j].raw
    requires forall i, j :: 0 <= i < j < |points| ==>
      points[i].raw + MIN_GAP <= points[j].raw || points[j].raw + MIN_GAP <= points[i].raw
    ensures Spaced(knots)
  {
    assert |knots| == |multiset(knots)| == |points|;
    forall i {:trigger knots[i]} | 0 <= i < |knots| - 1
      ensures knots[i].raw + MIN_GAP <= knots[i + 1].raw
    {
      TwoOfMultiset(knots, points, i, i + 1);
    }
  }

  // Two places of a rearrangement come from two places of the original.
  lemma TwoOfMultiset(knots: seq<Point>, points: seq<Point>, a: nat, b: nat)
    requires multiset(knots) == multiset(points) && a < b < |knots|
    ensures exists i, j ::
      0 <= i < |points| && 0 <= j < |points| && i != j && points[i] == knots[a] && points[j] == knots[b]
  {
    assert knots[a] in multiset(points) && knots[b] in multiset(points);
    var i :| 0 <= i < |points| && points[i] == knots[a];
    var j :| 0 <= j < |points| && points[j] == knots[b];
    if i == j {
      var rest := knots[..a] + knots[a + 1..];
      assert knots == knots[..a] + [knots[a]] + knots[a + 1..];
      assert rest[b - 1] == knots[b] && multiset(knots) == multiset(rest) + multiset{knots[a]};
      assert multiset(points)[points[i]] >= 2;
      SecondPlace(points, i);
    }
  }

  lemma SecondPlace(points: seq<Point>, i: nat)
    requires i < |points| && multiset(points)[points[i]] >= 2
    ensures exists j :: 0 <= j < |points| && j != i && points[j] == points[i]
  {
    var rest := points[..i] + points[i + 1..];
    assert points == points[..i] + [points[i]] + points[i + 1..];
    assert multiset(points) == multiset(rest) + multiset{points[i]};
    assert points[i] in multiset(rest);
    var k :| 0 <= k < |rest| && rest[k] == points[i];
    var j := if k < i then k else k + 1;
    assert points[j] == rest[k];
  }
}

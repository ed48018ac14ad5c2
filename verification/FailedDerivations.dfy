/** What a failed derivation does to the definitions that use it: it leaves a not-a-number, and the
    mark that it is invalid is not looked at. */
module FailedDerivations {
  import opened Prelude
  import opened DependencyGraph
  import opened FormulaRegistry
  import opened DerivedEvaluation

  /* The mark is not read */

  function Unmarked(params: seq<TelemetryParameter>): (r: seq<TelemetryParameter>)
    ensures |r| == |params| && forall i :: 0 <= i < |r| ==> r[i] == params[i].(validity := Valid)
  {
    seq(|params|, i requires 0 <= i < |params| => params[i].(validity := Valid))
  }

  lemma {:induction false} FirstUnmarked(params: seq<TelemetryParameter>, name: string)
    ensures
      var found, bare := FirstNamed(params, name), FirstNamed(Unmarked(params), name);
      if found.None? then bare.None? else bare == Some(found.value.(validity := Valid))
  {
    if params != [] {
      assert Unmarked(params)[1..] == Unmarked(params[1..]);
      FirstUnmarked(params[1..], name);
    }
  }

  lemma {:induction false} BindingsUnmarked(ev: Evaluator, d: Definition, params: seq<TelemetryParameter>, n: nat)
    requires n <= |d.inputs|
    ensures Bindings(ev, d, Unmarked(params), n) == Bindings(ev, d, params, n)
  {
    if n > 0 {
      BindingsUnmarked(ev, d, params, n - 1);
      FirstUnmarked(params, d.inputs[n - 1].parameterName);
    }
  }

  // An evaluation gives the same whatever its inputs are marked as.
  lemma ValidityUnread(ev: Evaluator, d: Definition, params: seq<TelemetryParameter>)
    ensures Evaluated(ev, d, Unmarked(params)) == Evaluated(ev, d, params)
  {
    BindingsUnmarked(ev, d, params, |d.inputs|);
  }

  /* What is read instead */

  predicate Failed(ev: Evaluator, order: seq<Definition>, params: seq<TelemetryParameter>, k: nat)
    requires k < |order|
  {
    EvaluatedAt(ev, order, params, k).Err?
  }

  // An appended parameter is marked invalid exactly if its own evaluation fails.
  lemma MarkedIffFailed(ev: Evaluator, order: seq<Definition>, params: seq<TelemetryParameter>, k: nat)
    requires k < |order|
    ensures Appended(ev, order, params)[k].validity == Invalid <==> Failed(ev, order, params, k)
    ensures Failed(ev, order, params, k) ==>
      Appended(ev, order, params)[k].engineeringValue == Some(ParameterValue(Some(FloatValue(NaN))))
  {
    hide Evaluated;
    DerivedAt(ev, order, params, k);
    EvaluatedIsValid(ev, order[k], DeriveAll(ev, order[..k], params));
  }

  lemma EvaluatedIsValid(ev: Evaluator, d: Definition, params: seq<TelemetryParameter>)
    ensures Evaluated(ev, d, params).Ok? ==> Evaluated(ev, d, params).value.validity == Valid
  {}

  // Input i of the k-th definition is the parameter derived by the j-th.
  predicate UsesAt(order: seq<Definition>, params: seq<TelemetryParameter>, k: nat, i: nat, j: nat)
    requires k < |order| && i < |order[k].inputs| && j < |order|
  {
    order[k].inputs[i].parameterName == order[j].name && FirstNamed(params, order[j].name).None?
  }

  // A definition that uses a failed one reads a not-a-number from it, and that is all it reads.
  lemma FailedInputIsNaN(
    ev: Evaluator, defs: Definitions, order: seq<Definition>, params: seq<TelemetryParameter>, k: nat, i: nat, j: nat)
    requires IsEvaluationOrder(defs, order) && k < |order| && i < |order[k].inputs| && j < |order|
    requires UsesAt(order, params, k, i, j) && Failed(ev, order, params, j)
    ensures j < k
    ensures InputValue(order[k], order[k].inputs[i], DeriveAll(ev, order[..k], params)) == Ok(EvalFloat(NaN))
  {
    hide EvaluatedAt, DeriveAll;
    var name := order[j].name;
    assert InputNames(order[k])[i] == name;
    var p := PositionBefore(defs, order, k, name);
    assert Names(order)[p] == Names(order)[j];
    assert p == j;
    LookupBefore(ev, defs, order, params, k, name);
    MarkedIffFailed(ev, order, params, j);
  }

  /* Does it spread? */

  ghost predicate Uses(order: seq<Definition>, params: seq<TelemetryParameter>, k: nat, j: nat)
    requires k < |order| && j < |order|
  {
    exists i :: 0 <= i < |order[k].inputs| && UsesAt(order, params, k, i, j)
  }

  // The k-th definition failed, or uses one of which this holds.
  ghost predicate Tainted(ev: Evaluator, order: seq<Definition>, params: seq<TelemetryParameter>, k: nat)
    requires k < |order|
  {
    Failed(ev, order, params, k) || exists j :: 0 <= j < k && Uses(order, params, k, j) && Tainted(ev, order, params, j)
  }

  ghost predicate TaintedFail(ev: Evaluator, order: seq<Definition>, params: seq<TelemetryParameter>) {
    forall k :: 0 <= k < |order| && Tainted(ev, order, params, k) ==> Failed(ev, order, params, k)
  }

  ghost predicate UsersFail(ev: Evaluator, order: seq<Definition>, params: seq<TelemetryParameter>) {
    forall k, j :: 0 <= j < k < |order| && Uses(order, params, k, j) && Failed(ev, order, params, j) ==>
      Failed(ev, order, params, k)
  }

  // Everything that a failed derivation reaches, over any number of uses, is marked invalid, if and
  // only if every single definition fails on the not-a-numbers it reads.
  lemma SpreadsIff(ev: Evaluator, order: seq<Definition>, params: seq<TelemetryParameter>)
    ensures TaintedFail(ev, order, params) <==> UsersFail(ev, order, params)
  {
    hide EvaluatedAt;
    if UsersFail(ev, order, params) {
      forall k | 0 <= k < |order| && Tainted(ev, order, params, k)
        ensures Failed(ev, order, params, k)
      {
        TaintReaches(ev, order, params, k);
      }
    } else {
      var k, j :| 0 <= j < k < |order| && Uses(order, params, k, j) && Failed(ev, order, params, j)
                  && !Failed(ev, order, params, k);
      assert Tainted(ev, order, params, j);
      assert Tainted(ev, order, params, k);
    }
  }

  lemma {:induction false} TaintReaches(ev: Evaluator, order: seq<Definition>, params: seq<TelemetryParameter>, k: nat)
    requires k < |order| && UsersFail(ev, order, params) && Tainted(ev, order, params, k)
    ensures Failed(ev, order, params, k)
  {
    hide EvaluatedAt, Uses;
    if !Failed(ev, order, params, k) {
      var j :| 0 <= j < k && Uses(order, params, k, j) && Tainted(ev, order, params, j);
      TaintReaches(ev, order, params, j);
    }
  }

  // It does when the expression language cannot bind a not-a-number.
  ghost predicate RefusesNaN(ev: Evaluator) {
    forall context, alias :: ev.bind(context, alias, EvalFloat(NaN)).None?
  }

  lemma RefusedNaNSpreads(
    ev: Evaluator, defs: Definitions, order: seq<Definition>, params: seq<TelemetryParameter>)
    requires RefusesNaN(ev) && IsEvaluationOrder(defs, order)
    ensures TaintedFail(ev, order, params)
  {
    forall k, j | 0 <= j < k < |order| && Uses(order, params, k, j) && Failed(ev, order, params, j)
      ensures Failed(ev, order, params, k)
    {
      var i :| 0 <= i < |order[k].inputs| && UsesAt(order, params, k, i, j);
      FailedInputIsNaN(ev, defs, order, params, k, i, j);
      RefusedInput(ev, order[k], DeriveAll(ev, order[..k], params), i);
    }
    SpreadsIff(ev, order, params);
  }

  lemma RefusedInput(ev: Evaluator, d: Definition, params: seq<TelemetryParameter>, i: nat)
    requires RefusesNaN(ev) && i < |d.inputs| && InputValue(d, d.inputs[i], params) == Ok(EvalFloat(NaN))
    ensures Evaluated(ev, d, params).Err?
  {
    if Bindings(ev, d, params, i).Ok? {
      assert Bindings(ev, d, params, i + 1).Err?;
      BindingsStayFailed(ev, d, params, i + 1);
    } else {
      BindingsStayFailed(ev, d, params, i);
    }
  }

  /* It need not */

  // A language in which an expression may have a value whatever is bound.
  const CONSTANT: Evaluator :=
    Evaluator((context, alias, value) => Some(context), (expression, context) => Some(EvalInt(1)))

  const FIRST := Definition("a", [InputMapping("x", "x")], "x", None)
  const SECOND := Definition("b", [InputMapping("a", "a")], "if(true, 1, a)", None)

  // The input of the first definition is missing, so that its parameter is marked invalid; the second
  // uses it and is marked valid.
  lemma ValidFromInvalid()
    ensures
      var appended := Appended(CONSTANT, [FIRST, SECOND], []);
      appended[0].validity == Invalid && appended[1].validity == Valid && Uses([FIRST, SECOND], [], 1, 0)
  {
    var order := [FIRST, SECOND];
    assert order[..0] == [] && order[..1] == [FIRST];
    assert UsesAt(order, [], 1, 0, 0);
    FirstFails();
    var failed := Derived(CONSTANT, FIRST, []);
    assert DeriveAll(CONSTANT, [], []) == [] && DeriveAll(CONSTANT, [FIRST], []) == [failed];
    SecondSucceeds([failed]);
    MarkedIffFailed(CONSTANT, order, [], 0);
    MarkedIffFailed(CONSTANT, order, [], 1);
  }

  lemma FirstFails()
    ensures Evaluated(CONSTANT, FIRST, []).Err?
  {
    var d := FIRST;
    assert InputValue(d, d.inputs[0], []).Err?;
    assert Bindings(CONSTANT, d, [], 0) == Ok(map[]);
    assert Bindings(CONSTANT, d, [], |d.inputs|).Err?;
  }

  // The constant expression succeeds on any list that has a number under the name of its input.
  lemma SecondSucceeds(params: seq<TelemetryParameter>)
    requires InputValue(SECOND, SECOND.inputs[0], params).Ok?
    ensures Evaluated(CONSTANT, SECOND, params).Ok?
  {
    var d := SECOND;
    assert Bindings(CONSTANT, d, params, 0) == Ok(map[]);
    assert Bindings(CONSTANT, d, params, |d.inputs|).Ok?;
  }
}

/** `ComputationEngine::evaluate` and the evaluation loop of `handle_delivery`. The expression
    language is uninterpreted: an `Evaluator` is any deterministic way to bind an alias and to
    evaluate an expression over the bindings. */
module DerivedEvaluation {
  import opened Prelude
  import opened DependencyGraph
  import opened FormulaRegistry

  // A double; only the not-a-number of failed derivations is told apart.
  datatype Float = Finite(value: real) | NaN

  datatype ProtoValue =
    | IntValue(i: int)
    | FloatValue(f: Float)
    | BoolValue(b: bool)
    | StringValue(s: string)
    | BytesValue(bytes: seq<byte>)

  datatype ParameterValue = ParameterValue(value: Option<ProtoValue>)

  datatype Validity = Valid | Invalid

  datatype TelemetryParameter = TelemetryParameter(
    name: string, rawValue: Option<ParameterValue>, engineeringValue: Option<ParameterValue>, validity: Validity)

  datatype EvalValue =
    | EvalInt(i: int)
    | EvalFloat(f: Float)
    | EvalBoolean(b: bool)
    | EvalString(s: string)
    | EvalOther  // tuples and the empty value, which have no protobuf counterpart

  type Context = map<string, EvalValue>

  datatype Evaluator = Evaluator(
    bind: (Context, string, EvalValue) -> Option<Context>,
    eval: (string, Context) -> Option<EvalValue>)

  datatype DomainError =
    | MissingInputParameter(input: string, definition: string)
    | TypeConversionError(subject: string)
    | EvaluationError(definition: string)

  function ToEvalValue(value: ParameterValue): Option<EvalValue> {
    match value.value
    case None => None
    case Some(IntValue(i)) => Some(EvalInt(i))
    case Some(FloatValue(f)) => Some(EvalFloat(f))
    case Some(BoolValue(b)) => Some(EvalBoolean(b))
    case Some(StringValue(s)) => Some(EvalString(s))
    case Some(BytesValue(_)) => None
  }

  function ToProtoValue(value: EvalValue): Option<ParameterValue> {
    match value
    case EvalInt(i) => Some(ParameterValue(Some(IntValue(i))))
    case EvalFloat(f) => Some(ParameterValue(Some(FloatValue(f))))
    case EvalBoolean(b) => Some(ParameterValue(Some(BoolValue(b))))
    case EvalString(s) => Some(ParameterValue(Some(StringValue(s))))
    case EvalOther => None
  }

  // The first parameter of that name.
  function FirstNamed(params: seq<TelemetryParameter>, name: string): Option<TelemetryParameter> {
    if params == [] then None
    else if params[0].name == name then Some(params[0])
    else FirstNamed(params[1..], name)
  }

  // What one input contributes: its engineering value, else its raw value.
  function InputValue(d: Definition, input: InputMapping, params: seq<TelemetryParameter>)
    : Result<EvalValue, DomainError>
  {
    match FirstNamed(params, input.parameterName)
    case None => Err(MissingInputParameter(input.parameterName, d.name))
    case Some(param) =>
      var value := if param.engineeringValue.Some? then param.engineeringValue else param.rawValue;
      if value.None? then Err(MissingInputParameter(input.parameterName, d.name))
      else
        var converted := ToEvalValue(value.value);
        if converted.None? then Err(TypeConversionError(input.parameterName)) else Ok(converted.value)
  }

  // The context after the first n inputs.
  function Bindings(ev: Evaluator, d: Definition, params: seq<TelemetryParameter>, n: nat): Result<Context, DomainError>
    requires n <= |d.inputs|
  {
    if n == 0 then Ok(map[])
    else
      var context := Bindings(ev, d, params, n - 1);
      if context.Err? then context else BindInput(ev, d, d.inputs[n - 1], params, context.value)
  }

  function BindInput(
    ev: Evaluator, d: Definition, input: InputMapping, params: seq<TelemetryParameter>, context: Context)
    : Result<Context, DomainError>
  {
    var value := InputValue(d, input, params);
    if value.Err? then Err(value.error)
    else
      var bound := ev.bind(context, input.alias, value.value);
      if bound.None? then Err(EvaluationError(d.name)) else Ok(bound.value)
  }

  function Evaluated(ev: Evaluator, d: Definition, params: seq<TelemetryParameter>)
    : Result<TelemetryParameter, DomainError>
  {
    var context := Bindings(ev, d, params, |d.inputs|);
    if context.Err? then Err(context.error) else EvaluatedIn(ev, d, context.value)
  }

  function EvaluatedIn(ev: Evaluator, d: Definition, context: Context): (r: Result<TelemetryParameter, DomainError>)
    ensures r.Ok? ==> r.value.name == d.name
  {
    var result := ev.eval(d.expression, context);
    if result.None? then Err(EvaluationError(d.name))
    else
      var value := ToProtoValue(result.value);
      if value.None? then Err(TypeConversionError(d.name))
      else Ok(TelemetryParameter(d.name, None, value, Valid))
  }

  method Evaluate(ev: Evaluator, d: Definition, params: seq<TelemetryParameter>)
    returns (r: Result<TelemetryParameter, DomainError>)
    ensures r == Evaluated(ev, d, params)
  {
    var context: Context := map[];
    for i := 0 to |d.inputs|
      invariant Bindings(ev, d, params, i) == Ok(context)
    {
      var bound := BindInput(ev, d, d.inputs[i], params, context);
      if bound.Err? {
        BindingsStayFailed(ev, d, params, i + 1);
        return Err(bound.error);
      }
      context := bound.value;
    }
    r := EvaluatedIn(ev, d, context);
  }

  lemma {:induction false} BindingsStayFailed(ev: Evaluator, d: Definition, params: seq<TelemetryParameter>, n: nat)
    requires n <= |d.inputs| && Bindings(ev, d, params, n).Err?
    ensures Bindings(ev, d, params, |d.inputs|) == Bindings(ev, d, params, n)
    decreases |d.inputs| - n
  {
    if n < |d.inputs| {
      BindingsStayFailed(ev, d, params, n + 1);
    }
  }

  // A definition only looks at the first parameter of each of its input names.
  lemma {:induction false} EvaluationFrame(
    ev: Evaluator, d: Definition, params: seq<TelemetryParameter>, params': seq<TelemetryParameter>, n: nat)
    requires n <= |d.inputs|
    requires forall i :: 0 <= i < n ==>
      FirstNamed(params, d.inputs[i].parameterName) == FirstNamed(params', d.inputs[i].parameterName)
    ensures Bindings(ev, d, params, n) == Bindings(ev, d, params', n)
  {
    if n > 0 {
      EvaluationFrame(ev, d, params, params', n - 1);
      assert FirstNamed(params, d.inputs[n - 1].parameterName) == FirstNamed(params', d.inputs[n - 1].parameterName);
    }
  }

  /* The loop of `handle_delivery` */

  // The parameter appended for a definition, whether or not its evaluation succeeds.
  function Derived(ev: Evaluator, d: Definition, params: seq<TelemetryParameter>): (p: TelemetryParameter)
    ensures p.name == d.name
  {
    match Evaluated(ev, d, params)
    case Ok(param) => param
    case Err(_) => TelemetryParameter(d.name, None, Some(ParameterValue(Some(FloatValue(NaN)))), Invalid)
  }

  function DeriveAll(ev: Evaluator, order: seq<Definition>, params: seq<TelemetryParameter>)
    : (all: seq<TelemetryParameter>)
    ensures |all| == |params| + |order|
    ensures params <= all
  {
    if order == [] then params
    else
      var before := DeriveAll(ev, order[..|order| - 1], params);
      before + [Derived(ev, order[|order| - 1], before)]
  }

  // What the k-th evaluation of the loop returns.
  function EvaluatedAt(ev: Evaluator, order: seq<Definition>, params: seq<TelemetryParameter>, k: nat)
    : Result<TelemetryParameter, DomainError>
    requires k < |order|
  {
    Evaluated(ev, order[k], DeriveAll(ev, order[..k], params))
  }

  function Successes(ev: Evaluator, order: seq<Definition>, params: seq<TelemetryParameter>): nat {
    if order == [] then 0
    else
      var init := order[..|order| - 1];
      Successes(ev, init, params) +
      if EvaluatedAt(ev, order, params, |init|).Ok? then 1 else 0
  }

  method DeriveParameters(ev: Evaluator, order: seq<Definition>, params: seq<TelemetryParameter>)
    returns (all: seq<TelemetryParameter>, successCount: nat, failCount: nat)
    ensures all == DeriveAll(ev, order, params)
    ensures successCount == Successes(ev, order, params) && failCount == |order| - successCount
  {
    all, successCount, failCount := params, 0, 0;
    for i := 0 to |order|
      invariant all == DeriveAll(ev, order[..i], params)
      invariant successCount == Successes(ev, order[..i], params) && failCount == i - successCount
    {
      assert order[..i + 1][..i] == order[..i];
      var evaluated := Evaluate(ev, order[i], all);
      match evaluated {
        case Ok(param) =>
          all := all + [param];
          successCount := successCount + 1;
        case Err(_) =>
          all := all + [TelemetryParameter(order[i].name, None, Some(ParameterValue(Some(FloatValue(NaN)))), Invalid)];
          failCount := failCount + 1;
      }
    }
    assert order[..|order|] == order;
  }

  /* Confluence */

  // Entry k of the appended part is the derivation of the k-th definition from what precedes it.
  lemma {:induction false} DerivedAt(ev: Evaluator, order: seq<Definition>, params: seq<TelemetryParameter>, k: nat)
    requires k < |order|
    ensures DeriveAll(ev, order[..k], params) <= DeriveAll(ev, order, params)
    ensures DeriveAll(ev, order, params)[|params| + k] == Derived(ev, order[k], DeriveAll(ev, order[..k], params))
  {
    var init := order[..|order| - 1];
    if k < |init| {
      DerivedAt(ev, init, params, k);
      assert init[..k] == order[..k];
    } else {
      assert init == order[..k];
    }
  }

  lemma {:induction false} FirstNamedConcat(
    params: seq<TelemetryParameter>, more: seq<TelemetryParameter>, name: string)
    ensures FirstNamed(params + more, name) ==
      if FirstNamed(params, name).Some? then FirstNamed(params, name) else FirstNamed(more, name)
  {
    if params == [] {
      assert params + more == more;
    } else {
      assert (params + more)[1..] == params[1..] + more;
      FirstNamedConcat(params[1..], more, name);
    }
  }

  lemma {:induction false} FirstNamedAt(params: seq<TelemetryParameter>, k: nat)
    requires k < |params| && forall i :: 0 <= i < k ==> params[i].name != params[k].name
    ensures FirstNamed(params, params[k].name) == Some(params[k])
  {
    if k > 0 {
      assert params[0].name != params[k].name;
      FirstNamedAt(params[1..], k - 1);
    }
  }

  lemma {:induction false} FirstNamedNone(params: seq<TelemetryParameter>, name: string)
    requires forall i :: 0 <= i < |params| ==> params[i].name != name
    ensures FirstNamed(params, name) == None
  {
    if params != [] {
      FirstNamedNone(params[1..], name);
    }
  }

  function Appended(ev: Evaluator, order: seq<Definition>, params: seq<TelemetryParameter>)
    : (tail: seq<TelemetryParameter>)
    ensures |tail| == |order|
  {
    DeriveAll(ev, order, params)[|params|..]
  }

  lemma AppendedNames(ev: Evaluator, order: seq<Definition>, params: seq<TelemetryParameter>)
    ensures forall k :: 0 <= k < |order| ==> Appended(ev, order, params)[k].name == order[k].name
  {
    forall k | 0 <= k < |order|
      ensures Appended(ev, order, params)[k].name == order[k].name
    {
      DerivedAt(ev, order, params, k);
    }
  }

  // What the k-th definition finds under a name: an original parameter, else the derived one, else nothing.
  lemma LookupBefore(
    ev: Evaluator, defs: Definitions, order: seq<Definition>, params: seq<TelemetryParameter>, k: nat, name: string)
    requires IsEvaluationOrder(defs, order) && k < |order|
    ensures
      var found := FirstNamed(DeriveAll(ev, order[..k], params), name);
      && (FirstNamed(params, name).Some? ==> found == FirstNamed(params, name))
      && (FirstNamed(params, name).None? && name !in defs ==> found == None)
      && (forall j :: FirstNamed(params, name).None? && 0 <= j < k && order[j].name == name ==>
            found == Some(Appended(ev, order, params)[j]))
  {
    var all, tail := DeriveAll(ev, order[..k], params), Appended(ev, order[..k], params);
    assert all == params + tail;
    FirstNamedConcat(params, tail, name);
    AppendedNames(ev, order[..k], params);
    if name !in defs {
      FirstNamedNone(tail, name);
    }
    forall j | FirstNamed(params, name).None? && 0 <= j < k && order[j].name == name
      ensures FirstNamed(tail, name) == Some(Appended(ev, order, params)[j])
    {
      forall i | 0 <= i < j
        ensures tail[i].name != name
      {
        assert Names(order)[i] != Names(order)[j];
      }
      FirstNamedAt(tail, j);
      DerivedAt(ev, order, params, k);
      assert tail[j] == DeriveAll(ev, order, params)[|params| + j];
    }
  }

  // A definition gets the same parameter, or fails alike, wherever two evaluation orders place it.
  lemma {:induction false} SameParameter(
    ev: Evaluator, defs: Definitions, order: seq<Definition>, order': seq<Definition>, params: seq<TelemetryParameter>,
    i: nat, j: nat)
    requires IsEvaluationOrder(defs, order) && IsEvaluationOrder(defs, order')
    requires i < |order| && j < |order'| && order[i].name == order'[j].name
    ensures Appended(ev, order, params)[i] == Appended(ev, order', params)[j]
    ensures EvaluatedAt(ev, order, params, i) == EvaluatedAt(ev, order', params, j)
    decreases i
  {
    var d := order[i];
    assert d == defs[d.name] == order'[j];
    var before, before' := DeriveAll(ev, order[..i], params), DeriveAll(ev, order'[..j], params);
    forall k | 0 <= k < |d.inputs|
      ensures FirstNamed(before, d.inputs[k].parameterName) == FirstNamed(before', d.inputs[k].parameterName)
    {
      var name := d.inputs[k].parameterName;
      LookupBefore(ev, defs, order, params, i, name);
      LookupBefore(ev, defs, order', params, j, name);
      if FirstNamed(params, name).None? && name in defs {
        assert InputNames(d)[k] == name;
        var p := PositionBefore(defs, order, i, name);
        var q := PositionBefore(defs, order', j, name);
        SameParameter(ev, defs, order, order', params, p, q);
      }
    }
    EvaluationFrame(ev, d, before, before', |d.inputs|);
    DerivedAt(ev, order, params, i);
    DerivedAt(ev, order', params, j);
  }

  lemma PositionBefore(defs: Definitions, order: seq<Definition>, i: nat, name: string) returns (p: nat)
    requires IsEvaluationOrder(defs, order) && i < |order| && DependsOn(defs, order[i].name, name)
    ensures p < i && order[p].name == name
  {
    assert DependsOn(defs, Names(order)[i], name);
    p :| p < i && Names(order)[..i][p] == name;
  }

  // Whatever order the sort returns, the envelope keeps its parameters and gains the same ones.
  lemma Confluence(
    ev: Evaluator, defs: Definitions, order: seq<Definition>, order': seq<Definition>, params: seq<TelemetryParameter>)
    requires IsEvaluationOrder(defs, order) && IsEvaluationOrder(defs, order')
    ensures DeriveAll(ev, order, params) == params + Appended(ev, order, params)
    ensures DeriveAll(ev, order', params) == params + Appended(ev, order', params)
    ensures multiset(Appended(ev, order, params)) == multiset(Appended(ev, order', params))
  {
    SameAppended(ev, defs, order, order', params);
    SameAppended(ev, defs, order', order, params);
    AppendedDistinct(ev, defs, order, params);
    AppendedDistinct(ev, defs, order', params);
    SameElementsSameMultiset(Appended(ev, order, params), Appended(ev, order', params));
  }

  // Exactly one parameter is appended per definition.
  lemma OnePerDefinition(ev: Evaluator, defs: Definitions, order: seq<Definition>, params: seq<TelemetryParameter>)
    requires IsEvaluationOrder(defs, order)
    ensures |Appended(ev, order, params)| == |defs|
    ensures forall n :: n in defs ==> exists k :: 0 <= k < |order| && Appended(ev, order, params)[k].name == n
  {
    AppendedNames(ev, order, params);
    forall n | n in defs
      ensures exists k :: 0 <= k < |order| && Appended(ev, order, params)[k].name == n
    {
      assert n in Names(order);
      var k :| 0 <= k < |order| && Names(order)[k] == n;
      assert Appended(ev, order, params)[k].name == n;
    }
    DistinctSize(Names(order));
    assert Elements(Names(order)) == defs.Keys;
  }

  // The names of the definitions whose evaluation succeeds.
  function Succeeding(ev: Evaluator, order: seq<Definition>, params: seq<TelemetryParameter>): set<string> {
    set k | 0 <= k < |order| && EvaluatedAt(ev, order, params, k).Ok? :: order[k].name
  }

  lemma {:induction false} SuccessesCounted(ev: Evaluator, order: seq<Definition>, params: seq<TelemetryParameter>)
    requires Distinct(Names(order))
    ensures |Succeeding(ev, order, params)| == Successes(ev, order, params)
  {
    hide Evaluated, DeriveAll;
    if order != [] {
      var n := |order| - 1;
      var init, last := order[..n], order[n];
      assert forall k :: 0 <= k < n ==> Names(init)[k] == Names(order)[k] && init[..k] == order[..k];
      SuccessesCounted(ev, init, params);
      forall k | 0 <= k < n
        ensures order[k].name != last.name
      {
        assert Names(order)[k] != Names(order)[n];
      }
      SucceedingSnoc(ev, order, params);
    }
  }

  lemma SucceedingSnoc(ev: Evaluator, order: seq<Definition>, params: seq<TelemetryParameter>)
    requires order != []
    ensures
      var n := |order| - 1;
      Succeeding(ev, order, params) ==
        Succeeding(ev, order[..n], params) + if EvaluatedAt(ev, order, params, n).Ok? then {order[n].name} else {}
  {
    hide Evaluated, DeriveAll;
    var n := |order| - 1;
    var init := order[..n];
    forall k | 0 <= k < n
      ensures EvaluatedAt(ev, init, params, k) == EvaluatedAt(ev, order, params, k)
    {
      assert init[..k] == order[..k];
    }
  }

  // In every order the same definitions succeed, so the counts of successes and failures agree.
  lemma SameCounts(
    ev: Evaluator, defs: Definitions, order: seq<Definition>, order': seq<Definition>, params: seq<TelemetryParameter>)
    requires IsEvaluationOrder(defs, order) && IsEvaluationOrder(defs, order')
    ensures Succeeding(ev, order, params) == Succeeding(ev, order', params)
    ensures Successes(ev, order, params) == Successes(ev, order', params) && |order| == |order'|
  {
    hide EvaluatedAt, Successes, Succeeding, Appended;
    SucceedsInBoth(ev, defs, order, order', params);
    SucceedsInBoth(ev, defs, order', order, params);
    SuccessesCounted(ev, order, params);
    SuccessesCounted(ev, order', params);
    OnePerDefinition(ev, defs, order, params);
    OnePerDefinition(ev, defs, order', params);
  }

  lemma SucceedsInBoth(
    ev: Evaluator, defs: Definitions, order: seq<Definition>, order': seq<Definition>, params: seq<TelemetryParameter>)
    requires IsEvaluationOrder(defs, order) && IsEvaluationOrder(defs, order')
    ensures Succeeding(ev, order, params) <= Succeeding(ev, order', params)
  {
    hide EvaluatedAt;
    forall n | n in Succeeding(ev, order, params)
      ensures n in Succeeding(ev, order', params)
    {
      var i :| 0 <= i < |order| && EvaluatedAt(ev, order, params, i).Ok? && order[i].name == n;
      assert order[i].name in Names(order');
      var j :| 0 <= j < |order'| && Names(order')[j] == n;
      SameParameter(ev, defs, order, order', params, i, j);
    }
  }

  lemma SameAppended(
    ev: Evaluator, defs: Definitions, order: seq<Definition>, order': seq<Definition>, params: seq<TelemetryParameter>)
    requires IsEvaluationOrder(defs, order) && IsEvaluationOrder(defs, order')
    ensures forall p :: p in Appended(ev, order, params) ==> p in Appended(ev, order', params)
  {
    var tail, tail' := Appended(ev, order, params), Appended(ev, order', params);
    forall p | p in tail
      ensures p in tail'
    {
      var i :| 0 <= i < |order| && tail[i] == p;
      assert order[i].name in Names(order');
      var j :| 0 <= j < |order'| && Names(order')[j] == order[i].name;
      SameParameter(ev, defs, order, order', params, i, j);
      assert tail'[j] == p;
    }
  }

  lemma AppendedDistinct(ev: Evaluator, defs: Definitions, order: seq<Definition>, params: seq<TelemetryParameter>)
    requires IsEvaluationOrder(defs, order)
    ensures Distinct(Appended(ev, order, params))
  {
    AppendedNames(ev, order, params);
    var tail := Appended(ev, order, params);
    forall i, j | 0 <= i < j < |tail|
      ensures tail[i] != tail[j]
    {
      assert Names(order)[i] != Names(order)[j];
    }
  }
}

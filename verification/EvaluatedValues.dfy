/** Which values a definition computes with: the engineering value of each input, else its raw value,
    kind and content unchanged, under the alias of the input. */
module EvaluatedValues {
  import opened Prelude
  import opened DependencyGraph
  import opened DerivedEvaluation

  /* Engineering before raw */

  lemma {:induction false} FirstReplaced(params: seq<TelemetryParameter>, i: nat, p: TelemetryParameter, name: string)
    requires i < |params| && p.name == params[i].name
    ensures
      var found, found' := FirstNamed(params, name), FirstNamed(params[i := p], name);
      found' == found || (found == Some(params[i]) && found' == Some(p))
  {
    if params[0].name != name && i > 0 {
      assert params[i := p][1..] == params[1..][i - 1 := p];
      FirstReplaced(params[1..], i - 1, p, name);
    } else {
      assert params[i := p][1..] == params[1..] || i > 0;
    }
  }

  // Replacing a parameter by one that every input reads alike changes no evaluation.
  lemma {:induction false} ReplacedAlike(
    ev: Evaluator, d: Definition, params: seq<TelemetryParameter>, i: nat, p: TelemetryParameter, n: nat)
    requires i < |params| && p.name == params[i].name && n <= |d.inputs|
    requires forall k :: 0 <= k < n ==> InputValue(d, d.inputs[k], [params[i]]) == InputValue(d, d.inputs[k], [p])
    ensures Bindings(ev, d, params[i := p], n) == Bindings(ev, d, params, n)
  {
    if n > 0 {
      var input := d.inputs[n - 1];
      ReplacedAlike(ev, d, params, i, p, n - 1);
      FirstReplaced(params, i, p, input.parameterName);
      if FirstNamed(params, input.parameterName) == Some(params[i]) {
        NamedSo(params, input.parameterName);
        assert InputValue(d, input, [params[i]]) == InputValue(d, input, params);
        assert FirstNamed(params[i := p], input.parameterName) in {Some(params[i]), Some(p)};
      }
    }
  }

  lemma {:induction false} NamedSo(params: seq<TelemetryParameter>, name: string)
    ensures FirstNamed(params, name).Some? ==> FirstNamed(params, name).value.name == name
  {
    if params != [] && params[0].name != name {
      NamedSo(params[1..], name);
    }
  }

  lemma AloneReads(d: Definition, input: InputMapping, p: TelemetryParameter, q: TelemetryParameter)
    requires p.name == q.name
    requires if p.engineeringValue.Some? then q.engineeringValue == p.engineeringValue
             else q.engineeringValue == p.rawValue && q.rawValue == p.rawValue
    ensures InputValue(d, input, [p]) == InputValue(d, input, [q])
  {
    assert FirstNamed([p], input.parameterName) == if p.name == input.parameterName then Some(p) else None;
    assert FirstNamed([q], input.parameterName) == if q.name == input.parameterName then Some(q) else None;
  }

  // Behind an engineering value the raw value is not looked at.
  lemma RawUnread(
    ev: Evaluator, d: Definition, params: seq<TelemetryParameter>, i: nat, raw: Option<ParameterValue>)
    requires i < |params| && params[i].engineeringValue.Some?
    ensures Evaluated(ev, d, params[i := params[i].(rawValue := raw)]) == Evaluated(ev, d, params)
  {
    hide Bindings;
    var p := params[i].(rawValue := raw);
    forall k | 0 <= k < |d.inputs|
      ensures InputValue(d, d.inputs[k], [params[i]]) == InputValue(d, d.inputs[k], [p])
    {
      AloneReads(d, d.inputs[k], params[i], p);
    }
    ReplacedAlike(ev, d, params, i, p, |d.inputs|);
  }

  // Without one it is as if the raw value were the engineering value.
  lemma RawDecides(ev: Evaluator, d: Definition, params: seq<TelemetryParameter>, i: nat)
    requires i < |params| && params[i].engineeringValue.None?
    ensures
      var calibrated := params[i := params[i].(engineeringValue := params[i].rawValue)];
      Evaluated(ev, d, calibrated) == Evaluated(ev, d, params)
  {
    hide Bindings;
    var p := params[i].(engineeringValue := params[i].rawValue);
    forall k | 0 <= k < |d.inputs|
      ensures InputValue(d, d.inputs[k], [params[i]]) == InputValue(d, d.inputs[k], [p])
    {
      AloneReads(d, d.inputs[k], params[i], p);
    }
    ReplacedAlike(ev, d, params, i, p, |d.inputs|);
  }

  /* What reaches the expression */

  // A value that an expression can work with: present, and no byte string.
  predicate Readable(value: Option<ParameterValue>) {
    value.Some? && value.value.value.Some? && !value.value.value.value.BytesValue?
  }

  // This input can be read from its first parameter.
  predicate InputReadable(params: seq<TelemetryParameter>, name: string) {
    match FirstNamed(params, name)
    case None => false
    case Some(p) => Readable(p.engineeringValue) || (p.engineeringValue.None? && Readable(p.rawValue))
  }

  // A language of aliases: binding is a map update, and an expression is the name of what it returns.
  const BY_ALIAS: Evaluator :=
    Evaluator(
      (context, alias, value) => Some(context[alias := value]),
      (expression, context) => if expression in context then Some(context[expression]) else None)

  predicate DistinctAliases(d: Definition) {
    forall i, j :: 0 <= i < j < |d.inputs| ==> d.inputs[i].alias != d.inputs[j].alias
  }

  lemma {:induction false} AliasesBound(d: Definition, params: seq<TelemetryParameter>, n: nat)
    requires n <= |d.inputs| && DistinctAliases(d)
    requires forall k :: 0 <= k < n ==> InputReadable(params, d.inputs[k].parameterName)
    ensures Bindings(BY_ALIAS, d, params, n).Ok?
    ensures
      var context := Bindings(BY_ALIAS, d, params, n).value;
      forall k :: 0 <= k < n ==>
        && InputValue(d, d.inputs[k], params).Ok? && d.inputs[k].alias in context
        && context[d.inputs[k].alias] == InputValue(d, d.inputs[k], params).value
  {
    if n > 0 {
      AliasesBound(d, params, n - 1);
      assert InputReadable(params, d.inputs[n - 1].parameterName);
    }
  }

  // A definition that only names one of its aliases yields what the first parameter of that input has:
  // its engineering value, else its raw value, kind and content unchanged.
  lemma AliasYieldsValue(d: Definition, params: seq<TelemetryParameter>, i: nat)
    requires i < |d.inputs| && DistinctAliases(d) && d.expression == d.inputs[i].alias
    requires forall k :: 0 <= k < |d.inputs| ==> InputReadable(params, d.inputs[k].parameterName)
    ensures InputReadable(params, d.inputs[i].parameterName)
    ensures
      var p := FirstNamed(params, d.inputs[i].parameterName).value;
      Evaluated(BY_ALIAS, d, params) == Ok(TelemetryParameter(
        d.name, None, if p.engineeringValue.Some? then p.engineeringValue else p.rawValue, Valid))
  {
    hide Bindings;
    AliasesBound(d, params, |d.inputs|);
    assert InputReadable(params, d.inputs[i].parameterName);
  }

  /* What fails */

  ghost predicate BindsAll(ev: Evaluator) {
    forall context, alias, value :: ev.bind(context, alias, value).Some?
  }

  lemma {:induction false} ReadableBound(ev: Evaluator, d: Definition, params: seq<TelemetryParameter>, n: nat)
    requires BindsAll(ev) && n <= |d.inputs|
    requires forall k :: 0 <= k < n ==> InputReadable(params, d.inputs[k].parameterName)
    ensures Bindings(ev, d, params, n).Ok?
  {
    if n > 0 {
      ReadableBound(ev, d, params, n - 1);
      assert InputReadable(params, d.inputs[n - 1].parameterName);
    }
  }

  // The first input that cannot be read is reported: missing if there is no such parameter or it has no
  // value at all, a failed conversion if its value is empty or a byte string.
  lemma FirstUnreadable(ev: Evaluator, d: Definition, params: seq<TelemetryParameter>, k: nat)
    requires BindsAll(ev) && k < |d.inputs| && !InputReadable(params, d.inputs[k].parameterName)
    requires forall j :: 0 <= j < k ==> InputReadable(params, d.inputs[j].parameterName)
    ensures
      var name := d.inputs[k].parameterName;
      var p := FirstNamed(params, name);
      Evaluated(ev, d, params) ==
        if p.None? || (p.value.engineeringValue.None? && p.value.rawValue.None?) then
          Err(MissingInputParameter(name, d.name))
        else Err(TypeConversionError(name))
  {
    ReadableBound(ev, d, params, k);
    BindingsStayFailed(ev, d, params, k + 1);
  }

  // The language is at fault otherwise: it cannot bind, evaluate, or give back a plain value.
  lemma LanguageFails(ev: Evaluator, d: Definition, params: seq<TelemetryParameter>)
    requires forall k :: 0 <= k < |d.inputs| ==> InputReadable(params, d.inputs[k].parameterName)
    ensures (forall context, alias, value :: ev.bind(context, alias, value).None?) && d.inputs != [] ==>
      Evaluated(ev, d, params) == Err(EvaluationError(d.name))
    ensures BindsAll(ev) && (forall context :: ev.eval(d.expression, context).None?) ==>
      Evaluated(ev, d, params) == Err(EvaluationError(d.name))
    ensures BindsAll(ev) && (forall context :: ev.eval(d.expression, context) == Some(EvalOther)) ==>
      Evaluated(ev, d, params) == Err(TypeConversionError(d.name))
  {
    if d.inputs != [] && (forall context, alias, value :: ev.bind(context, alias, value).None?) {
      assert InputReadable(params, d.inputs[0].parameterName);
      assert Bindings(ev, d, params, 0).Ok? && Bindings(ev, d, params, 1) == Err(EvaluationError(d.name));
      BindingsStayFailed(ev, d, params, 1);
    }
    if BindsAll(ev) {
      ReadableBound(ev, d, params, |d.inputs|);
    }
  }

  /* What is counted */

  function CountValid(params: seq<TelemetryParameter>): nat {
    if params == [] then 0
    else CountValid(params[..|params| - 1]) + if params[|params| - 1].validity.Valid? then 1 else 0
  }

  lemma NothingAppended(ev: Evaluator, params: seq<TelemetryParameter>)
    ensures Appended(ev, [], params) == [] && CountValid([]) == 0
  {}

  lemma AppendedSnoc(ev: Evaluator, order: seq<Definition>, params: seq<TelemetryParameter>)
    requires order != []
    ensures
      var init, last := order[..|order| - 1], order[|order| - 1];
      Appended(ev, order, params) == Appended(ev, init, params) + [Derived(ev, last, DeriveAll(ev, init, params))]
  {
    hide Derived;
  }

  lemma CountValidSnoc(params: seq<TelemetryParameter>, last: TelemetryParameter)
    ensures CountValid(params + [last]) == CountValid(params) + if last.validity.Valid? then 1 else 0
  {
    assert (params + [last])[..|params|] == params;
  }

  lemma ValidIffEvaluated(ev: Evaluator, d: Definition, params: seq<TelemetryParameter>)
    ensures Derived(ev, d, params).validity.Valid? <==> Evaluated(ev, d, params).Ok?
    ensures Evaluated(ev, d, params).Err? ==>
      Derived(ev, d, params) == TelemetryParameter(d.name, None, Some(ParameterValue(Some(FloatValue(NaN)))), Invalid)
  {}

  // The successes that the loop counts are the appended parameters marked valid; every other appended
  // parameter is a not-a-number marked invalid.
  lemma {:induction false} SuccessesAreValid(ev: Evaluator, order: seq<Definition>, params: seq<TelemetryParameter>)
    ensures Successes(ev, order, params) == CountValid(Appended(ev, order, params))
    ensures forall k :: 0 <= k < |order| && Appended(ev, order, params)[k].validity.Invalid? ==>
      Appended(ev, order, params)[k] ==
      TelemetryParameter(order[k].name, None, Some(ParameterValue(Some(FloatValue(NaN)))), Invalid)
  {
    hide Derived, Appended, Evaluated, DeriveAll, CountValid;
    if order == [] {
      NothingAppended(ev, params);
    } else {
      var init, last := order[..|order| - 1], order[|order| - 1];
      SuccessesAreValid(ev, init, params);
      var before := DeriveAll(ev, init, params);
      AppendedSnoc(ev, order, params);
      CountValidSnoc(Appended(ev, init, params), Derived(ev, last, before));
      ValidIffEvaluated(ev, last, before);
    }
  }
}

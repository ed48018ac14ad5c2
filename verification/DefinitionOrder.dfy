/** What the order of derived parameters means for the definitions themselves: the graph, told from the
    inputs that they list. */
module DefinitionOrder {
  import opened Prelude
  import opened DependencyGraph
  import opened FormulaRegistry

  // A definition that no later one of its name replaces.
  predicate InForce(params: seq<Definition>, d: Definition) {
    exists k :: 0 <= k < |params| && LastNamed(params, d, k)
  }

  predicate LastNamed(params: seq<Definition>, d: Definition, k: nat)
    requires k < |params|
  {
    params[k] == d && forall j :: k < j < |params| ==> params[j].name != d.name
  }

  predicate Lists(d: Definition, name: string) {
    exists k :: 0 <= k < |d.inputs| && d.inputs[k].parameterName == name
  }

  lemma InForceSnoc(params: seq<Definition>, last: Definition, d: Definition)
    ensures InForce(params + [last], d) <==> if last.name == d.name then last == d else InForce(params, d)
  {
    var n, all := |params|, params + [last];
    if last.name == d.name {
      assert all[n] == last;
      assert last == d ==> LastNamed(all, d, n);
    } else {
      forall k: nat | k < n
        ensures LastNamed(all, d, k) <==> LastNamed(params, d, k)
      {
        assert all[n] == last && forall j :: 0 <= j < n ==> all[j] == params[j];
      }
      assert !LastNamed(all, d, n);
    }
  }

  predicate Holds(defs: Definitions, d: Definition) { d.name in defs && defs[d.name] == d }

  lemma NoneInForce(d: Definition)
    ensures !InForce([], d) && !Holds(ByName([]), d)
  {}

  lemma HoldsSnoc(params: seq<Definition>, last: Definition, d: Definition)
    ensures Holds(ByName(params + [last]), d) <==> if last.name == d.name then last == d else Holds(ByName(params), d)
  {
    assert (params + [last])[..|params|] == params;
  }

  lemma {:induction false} InForceHolds(params: seq<Definition>, d: Definition)
    ensures InForce(params, d) <==> Holds(ByName(params), d)
  {
    hide InForce, Holds, ByName;
    if params == [] {
      NoneInForce(d);
    } else {
      var init, last := params[..|params| - 1], params[|params| - 1];
      assert params == init + [last];
      InForceHolds(init, d);
      InForceSnoc(init, last, d);
      HoldsSnoc(init, last, d);
    }
  }

  lemma InForceIff(params: seq<Definition>, d: Definition)
    ensures InForce(params, d) <==> d.name in ByName(params) && ByName(params)[d.name] == d
  {
    hide InForce, ByName;
    InForceHolds(params, d);
  }

  lemma ListsIff(params: seq<Definition>, d: Definition, e: Definition)
    requires InForce(params, d) && InForce(params, e)
    ensures DependsOn(ByName(params), d.name, e.name) <==> Lists(d, e.name)
  {
    hide ByName, InForce;
    InForceIff(params, d);
    InForceIff(params, e);
    if Lists(d, e.name) {
      var k :| 0 <= k < |d.inputs| && d.inputs[k].parameterName == e.name;
      assert InputNames(d)[k] == e.name;
    }
  }

  // Definitions in force, each of which lists the next.
  ghost predicate Chain(params: seq<Definition>, c: seq<Definition>) {
    && (forall i :: 0 <= i < |c| ==> InForce(params, c[i]))
    && (forall i :: 0 <= i < |c| - 1 ==> Lists(c[i], c[i + 1].name))
  }

  lemma ChainWalks(params: seq<Definition>, c: seq<Definition>)
    requires Chain(params, c)
    ensures IsWalk(ByName(params), Names(c)) && (Distinct(Names(c)) <==> Distinct(c))
  {
    hide ByName, InForce, Lists, DependsOn;
    forall i | 0 <= i < |c|
      ensures c[i].name in ByName(params) && ByName(params)[c[i].name] == c[i]
    {
      InForceIff(params, c[i]);
    }
    forall i | 0 <= i < |c| - 1
      ensures LinkedAt(ByName(params), Names(c), i)
    {
      ListsIff(params, c[i], c[i + 1]);
    }
    forall i, j | 0 <= i < j < |c|
      ensures Names(c)[i] == Names(c)[j] <==> c[i] == c[j]
    {}
  }

  lemma WalkChains(params: seq<Definition>, p: seq<string>) returns (c: seq<Definition>)
    requires IsWalk(ByName(params), p)
    ensures Chain(params, c) && Names(c) == p
  {
    hide ByName, InForce, Lists, DependsOn;
    var defs := ByName(params);
    c := seq(|p|, i requires 0 <= i < |p| => defs[p[i]]);
    forall i | 0 <= i < |c|
      ensures InForce(params, c[i]) && c[i].name == p[i]
    {
      InForceIff(params, c[i]);
    }
    forall i | 0 <= i < |c| - 1
      ensures Lists(c[i], c[i + 1].name)
    {
      assert LinkedAt(defs, p, i);
      ListsIff(params, c[i], c[i + 1]);
    }
  }

  // There is a cycle exactly if some chain meets a definition twice.
  lemma AcyclicIff(params: seq<Definition>)
    ensures Acyclic(ByName(params)) <==> forall c :: Chain(params, c) ==> Distinct(c)
  {
    hide ByName, Chain, IsWalk, Distinct;
    forall c | Chain(params, c)
      ensures IsWalk(ByName(params), Names(c)) && (Distinct(Names(c)) <==> Distinct(c))
    {
      ChainWalks(params, c);
    }
    if !Acyclic(ByName(params)) {
      var p :| IsWalk(ByName(params), p) && !Distinct(p);
      var c := WalkChains(params, p);
    }
  }

  // The names that are reported start the chains that do.
  lemma StuckIff(params: seq<Definition>, name: string)
    ensures name in Stuck(ByName(params)) <==>
      exists c: seq<Definition> :: Chain(params, c) && c != [] && c[0].name == name && !Distinct(c)
  {
    hide ByName, Chain, Distinct;
    if c: seq<Definition> :| Chain(params, c) && c != [] && c[0].name == name && !Distinct(c) {
      ChainWalks(params, c);
      assert Names(c)[0] == name;
    }
    if name in Stuck(ByName(params)) {
      var p :| IsWalk(ByName(params), p) && |p| > 0 && p[0] == name && !Distinct(p);
      var c := WalkChains(params, p);
      ChainWalks(params, c);
      assert Names(c)[0] == c[0].name;
    }
  }

  // An evaluation order holds the definitions in force, each once, and behind all those that it lists.
  lemma OrderIff(params: seq<Definition>, order: seq<Definition>)
    ensures IsEvaluationOrder(ByName(params), order) <==>
      && Distinct(order) && (forall d :: d in order <==> InForce(params, d))
      && forall i, j :: 0 <= i < |order| && 0 <= j < |order| && Lists(order[i], order[j].name) ==> j < i
  {
    hide ByName, InForce, Lists, DependsOn;
    var defs := ByName(params);
    forall d: Definition
      ensures InForce(params, d) <==> d.name in defs && defs[d.name] == d
    {
      InForceIff(params, d);
    }
    if IsEvaluationOrder(defs, order) {
      OrderedSo(params, order);
    }
    if && Distinct(order) && (forall d :: d in order <==> InForce(params, d))
       && forall i, j :: 0 <= i < |order| && 0 <= j < |order| && Lists(order[i], order[j].name) ==> j < i
    {
      SoOrdered(params, order);
    }
  }

  lemma OrderedSo(params: seq<Definition>, order: seq<Definition>)
    requires IsEvaluationOrder(ByName(params), order)
    ensures Distinct(order) && forall d :: d in order <==> InForce(params, d)
    ensures forall i, j :: 0 <= i < |order| && 0 <= j < |order| && Lists(order[i], order[j].name) ==> j < i
  {
    hide ByName, InForce, Lists, DependsOn;
    var defs, names := ByName(params), Names(order);
    forall i, j | 0 <= i < j < |order|
      ensures order[i] != order[j]
    {
      assert names[i] != names[j];
    }
    forall d
      ensures d in order <==> InForce(params, d)
    {
      InForceIff(params, d);
      if InForce(params, d) {
        assert d.name in names;
        var i :| 0 <= i < |names| && names[i] == d.name;
        assert order[i] == d;
      }
    }
    forall i, j | 0 <= i < |order| && 0 <= j < |order| && Lists(order[i], order[j].name)
      ensures j < i
    {
      ListsIff(params, order[i], order[j]);
      assert names[j] in names[..i];
      var k :| 0 <= k < i && names[..i][k] == names[j];
      assert names[k] == names[j];
    }
  }

  lemma SoOrdered(params: seq<Definition>, order: seq<Definition>)
    requires Distinct(order) && forall d :: d in order <==> InForce(params, d)
    requires forall i, j :: 0 <= i < |order| && 0 <= j < |order| && Lists(order[i], order[j].name) ==> j < i
    ensures IsEvaluationOrder(ByName(params), order)
  {
    hide ByName, InForce, Lists, DependsOn;
    var defs, names := ByName(params), Names(order);
    forall i | 0 <= i < |order|
      ensures order[i].name in defs && order[i] == defs[order[i].name]
    {
      assert order[i] in order;
      InForceIff(params, order[i]);
    }
    forall n | n in defs
      ensures n in names
    {
      InForceIff(params, defs[n]);
      var i :| 0 <= i < |order| && order[i] == defs[n];
      assert names[i] == n;
    }
    forall i, m | 0 <= i < |names| && DependsOn(defs, names[i], m)
      ensures m in names[..i]
    {
      DependsOnDefined(defs, names[i], m);
      var j :| 0 <= j < |names| && names[j] == m;
      assert order[i] in order && order[j] in order;
      ListsIff(params, order[i], order[j]);
      assert names[..i][j] == m;
    }
  }

  lemma DependsOnDefined(defs: Definitions, user: string, input: string)
    ensures DependsOn(defs, user, input) ==> user in defs && input in defs
  {}
}

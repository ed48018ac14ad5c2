/** Derived-parameter definitions and the graph of their dependencies: an edge for every input
    that names another definition, so that a definition may depend twice on the same one. */
module DependencyGraph {
  import opened Prelude

  datatype InputMapping = InputMapping(parameterName: string, alias: string)

  datatype Definition = Definition(
    name: string, inputs: seq<InputMapping>, expression: string, unitName: Option<string>)

  type Definitions = map<string, Definition>

  // Collecting into a map: a later definition replaces an earlier one of the same name.
  function ByName(params: seq<Definition>): (defs: Definitions)
    ensures WellNamed(defs)
    ensures forall n :: n in defs ==> defs[n] in params
    ensures forall d :: d in params ==> d.name in defs
  {
    if params == [] then map[]
    else
      var last := params[|params| - 1];
      ByName(params[..|params| - 1])[last.name := last]
  }

  predicate WellNamed(defs: Definitions) { forall n :: n in defs ==> defs[n].name == n }

  function InputNames(d: Definition): (names: seq<string>)
    ensures |names| == |d.inputs|
    ensures forall i :: 0 <= i < |names| ==> names[i] == d.inputs[i].parameterName
  {
    seq(|d.inputs|, i requires 0 <= i < |d.inputs| => d.inputs[i].parameterName)
  }

  predicate DependsOn(defs: Definitions, user: string, input: string) {
    user in defs && input in defs && input in InputNames(defs[user])
  }

  function Count<T(==)>(s: seq<T>, x: T): nat {
    if s == [] then 0 else Count(s[..|s| - 1], x) + if s[|s| - 1] == x then 1 else 0
  }

  predicate Distinct<T(==)>(s: seq<T>) { forall i, j :: 0 <= i < j < |s| ==> s[i] != s[j] }

  // How many inputs still wait for a definition outside `done`.
  function Pending(names: seq<string>, keys: set<string>, done: set<string>): nat {
    if names == [] then 0
    else
      var last := names[|names| - 1];
      Pending(names[..|names| - 1], keys, done) + if last in keys && last !in done then 1 else 0
  }

  lemma {:induction false} PendingZero(names: seq<string>, keys: set<string>, done: set<string>)
    ensures Pending(names, keys, done) == 0 <==> forall n :: n in names && n in keys ==> n in done
  {
    if names != [] {
      var init, last := names[..|names| - 1], names[|names| - 1];
      PendingZero(init, keys, done);
      assert names == init + [last];
    }
  }

  lemma {:induction false} PendingDone(names: seq<string>, keys: set<string>, done: set<string>, n: string)
    requires n in keys && n !in done
    ensures Pending(names, keys, done) == Pending(names, keys, done + {n}) + Count(names, n)
  {
    if names != [] { PendingDone(names[..|names| - 1], keys, done, n); }
  }

  /* Cycles */

  predicate IsWalk(defs: Definitions, p: seq<string>) {
    && (forall i :: 0 <= i < |p| ==> p[i] in defs)
    && (forall i :: 0 <= i < |p| - 1 ==> LinkedAt(defs, p, i))
  }

  predicate LinkedAt(defs: Definitions, p: seq<string>, i: nat)
    requires i < |p| - 1
  {
    DependsOn(defs, p[i], p[i + 1])
  }

  // Following dependencies from this definition can visit some definition twice.
  ghost predicate DependsOnCycle(defs: Definitions, n: string) {
    exists p :: IsWalk(defs, p) && |p| > 0 && p[0] == n && !Distinct(p)
  }

  ghost predicate Acyclic(defs: Definitions) {
    forall p :: IsWalk(defs, p) ==> Distinct(p)
  }

  // Every member has an input in the set.
  predicate SelfSupporting(defs: Definitions, s: set<string>) {
    s <= defs.Keys && forall n {:trigger HasInputIn(defs, n, s)} :: n in s ==> HasInputIn(defs, n, s)
  }

  predicate HasInputIn(defs: Definitions, n: string, s: set<string>) {
    exists m :: m in s && DependsOn(defs, n, m)
  }

  lemma {:induction false} LongWalk(defs: Definitions, s: set<string>, n: string, k: nat) returns (p: seq<string>)
    requires SelfSupporting(defs, s) && n in s
    ensures IsWalk(defs, p) && |p| == k + 1 && p[0] == n
    decreases k
  {
    if k == 0 {
      p := [n];
    } else {
      assert HasInputIn(defs, n, s);
      var m :| m in s && DependsOn(defs, n, m);
      var rest := LongWalk(defs, s, m, k - 1);
      p := [n] + rest;
      forall i | 0 <= i < |p| - 1
        ensures LinkedAt(defs, p, i)
      {
        if i > 0 { assert LinkedAt(defs, rest, i - 1); }
      }
    }
  }

  lemma {:induction false} DistinctFits<T>(p: seq<T>, s: set<T>)
    requires Distinct(p) && forall i :: 0 <= i < |p| ==> p[i] in s
    ensures |p| <= |s|
    decreases |p|
  {
    if p != [] {
      var init, last := p[..|p| - 1], p[|p| - 1];
      DistinctFits(init, s - {last});
    }
  }

  lemma SupportedDependsOnCycle(defs: Definitions, s: set<string>, n: string)
    requires SelfSupporting(defs, s) && n in s
    ensures DependsOnCycle(defs, n)
  {
    var p := LongWalk(defs, s, n, |defs.Keys|);
    if Distinct(p) {
      DistinctFits(p, defs.Keys);
    }
  }

  // The definitions met before the first return on a repeating walk support each other.
  lemma RepeatSupports(defs: Definitions, p: seq<string>) returns (s: set<string>)
    requires IsWalk(defs, p) && |p| > 0 && !Distinct(p)
    ensures SelfSupporting(defs, s) && p[0] in s
  {
    var i, j :| 0 <= i < j < |p| && p[i] == p[j];
    s := set k | 0 <= k < j :: p[k];
    forall n | n in s
      ensures HasInputIn(defs, n, s)
    {
      var k :| 0 <= k < j && p[k] == n;
      assert LinkedAt(defs, p, k);
      assert p[k + 1] in s by {
        if k + 1 == j { assert p[i] in s; }
      }
    }
  }

  // The definitions from which no evaluation can start: those that depend on a cycle.
  ghost function Stuck(defs: Definitions): set<string> {
    set n | n in defs && DependsOnCycle(defs, n)
  }

  lemma AcyclicIffNothingStuck(defs: Definitions)
    ensures Acyclic(defs) <==> Stuck(defs) == {}
  {
    if !Acyclic(defs) {
      var p :| IsWalk(defs, p) && !Distinct(p);
      assert p[0] in Stuck(defs);
    }
    if Stuck(defs) != {} {
      var n :| n in Stuck(defs);
      assert DependsOnCycle(defs, n);
    }
  }

  lemma StuckIsLargestSupporting(defs: Definitions)
    ensures SelfSupporting(defs, Stuck(defs))
    ensures forall s :: SelfSupporting(defs, s) ==> s <= Stuck(defs)
  {
    forall s | SelfSupporting(defs, s)
      ensures s <= Stuck(defs)
    {
      forall n | n in s
        ensures n in Stuck(defs)
      {
        SupportedDependsOnCycle(defs, s, n);
      }
    }
    forall n | n in Stuck(defs)
      ensures HasInputIn(defs, n, Stuck(defs))
    {
      var p :| IsWalk(defs, p) && |p| > 0 && p[0] == n && !Distinct(p);
      var s := RepeatSupports(defs, p);
      assert HasInputIn(defs, n, s);
    }
  }
}

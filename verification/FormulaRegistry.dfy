/** Kahn's algorithm over hash maps (`sort_topologically`) and the loading that ends in it. The
    iteration order of a hash map is arbitrary: every choice below is nondeterministic. */
module FormulaRegistry {
  import opened Prelude
  import opened DependencyGraph

  /* What an evaluation order is */

  function Names(order: seq<Definition>): (names: seq<string>)
    ensures |names| == |order| && forall i :: 0 <= i < |order| ==> names[i] == order[i].name
  {
    seq(|order|, i requires 0 <= i < |order| => order[i].name)
  }

  // Every input of a sorted name that is itself a definition comes before it.
  ghost predicate Sorted(defs: Definitions, names: seq<string>) {
    && (forall i :: 0 <= i < |names| ==> names[i] in defs)
    && (forall i, m :: 0 <= i < |names| && DependsOn(defs, names[i], m) ==> m in names[..i])
  }

  // A permutation of the definitions in which every input precedes its user.
  ghost predicate IsEvaluationOrder(defs: Definitions, order: seq<Definition>) {
    var names := Names(order);
    && Distinct(names)
    && (forall n :: n in defs ==> n in names)
    && (forall i :: 0 <= i < |order| ==> order[i].name in defs && order[i] == defs[order[i].name])
    && Sorted(defs, names)
  }

  /* The dependency graph */

  type Degrees = map<string, nat>
  type Adjacency = map<string, seq<string>>

  function Users(adjacency: Adjacency, n: string): seq<string> {
    if n in adjacency then adjacency[n] else []
  }

  // How often `adjacency[m]` lists n.
  function Edges(adjacency: Adjacency, m: string, n: string): nat { Count(Users(adjacency, m), n) }

  // How often the first inputs of n, those in `names`, name the definition m.
  function Uses(defs: Definitions, names: seq<string>, m: string): nat {
    if m in defs then Count(names, m) else 0
  }

  ghost predicate ListsUsers(defs: Definitions, adjacency: Adjacency, n: string)
    requires n in defs
  {
    forall m :: Edges(adjacency, m, n) == Uses(defs, InputNames(defs[n]), m)
  }

  ghost predicate NoEdgesTo(adjacency: Adjacency, n: string) {
    forall m :: Edges(adjacency, m, n) == 0
  }

  // The edges to `user` are those of the inputs `names`; all others are as before.
  ghost predicate EdgesAdded(
    defs: Definitions, before: Adjacency, adjacency: Adjacency, user: string, names: seq<string>)
  {
    forall m, n :: Edges(adjacency, m, n) == if n == user then Uses(defs, names, m) else Edges(before, m, n)
  }

  lemma EdgeStep(
    defs: Definitions, before: Adjacency, adjacency: Adjacency, user: string, names: seq<string>, input: string)
    requires EdgesAdded(defs, before, adjacency, user, names)
    ensures EdgesAdded(
              defs, before,
              if input in defs then adjacency[input := Users(adjacency, input) + [user]] else adjacency,
              user, names + [input])
  {
    var after := if input in defs then adjacency[input := Users(adjacency, input) + [user]] else adjacency;
    forall m, n
      ensures Edges(after, m, n) == if n == user then Uses(defs, names + [input], m) else Edges(before, m, n)
    {
      CountSnoc(names, input, m);
      CountSnoc(Users(adjacency, m), user, n);
      assert Edges(adjacency, m, n) == if n == user then Uses(defs, names, m) else Edges(before, m, n);
    }
  }

  lemma CountSnoc(s: seq<string>, last: string, x: string)
    ensures Count(s + [last], x) == Count(s, x) + if last == x then 1 else 0
  {
    assert (s + [last])[..|s|] == s;
  }

  lemma PendingSnoc(names: seq<string>, keys: set<string>, done: set<string>, n: string)
    ensures Pending(names + [n], keys, done) == Pending(names, keys, done) + if n in keys && n !in done then 1 else 0
  {
    assert (names + [n])[..|names|] == names;
  }

  ghost predicate DegreeCounted(defs: Definitions, degrees: Degrees, n: string)
    requires n in defs
  {
    n in degrees && degrees[n] == Pending(InputNames(defs[n]), defs.Keys, {})
  }

  method BuildGraph(defs: Definitions) returns (degrees: Degrees, adjacency: Adjacency)
    ensures degrees.Keys == defs.Keys
    ensures forall n :: n in defs ==> DegreeCounted(defs, degrees, n)
    ensures forall n :: n in defs ==> ListsUsers(defs, adjacency, n)
  {
    degrees := map n | n in defs :: 0;
    adjacency := map[];
    var todo := defs.Keys;
    while todo != {}
      invariant todo <= defs.Keys && degrees.Keys == defs.Keys
      invariant forall n :: n in defs.Keys - todo ==> DegreeCounted(defs, degrees, n)
      invariant forall n :: n in defs.Keys - todo ==> ListsUsers(defs, adjacency, n)
      invariant forall n :: n in todo ==> NoEdgesTo(adjacency, n)
      decreases |todo|
    {
      var name :| name in todo;
      ghost var before := adjacency;
      var count;
      count, adjacency := AddEdges(defs, name, adjacency);
      ghost var counted := degrees;
      degrees := degrees[name := count];
      forall n | n in defs.Keys - todo
        ensures DegreeCounted(defs, degrees, n)
      {
        assert DegreeCounted(defs, counted, n);
      }
      forall n | n in defs.Keys - todo
        ensures ListsUsers(defs, adjacency, n)
      {
        assert ListsUsers(defs, before, n);
      }
      forall n | n in todo - {name}
        ensures NoEdgesTo(adjacency, n)
      {
        assert NoEdgesTo(before, n);
      }
      todo := todo - {name};
    }
  }

  // The inner loop of the graph construction, over the inputs of one definition.
  method AddEdges(defs: Definitions, name: string, before: Adjacency) returns (count: nat, adjacency: Adjacency)
    requires name in defs && NoEdgesTo(before, name)
    ensures count == Pending(InputNames(defs[name]), defs.Keys, {})
    ensures EdgesAdded(defs, before, adjacency, name, InputNames(defs[name]))
  {
    count, adjacency := 0, before;
    ghost var names := InputNames(defs[name]);
    for i := 0 to |defs[name].inputs|
      invariant count == Pending(names[..i], defs.Keys, {})
      invariant EdgesAdded(defs, before, adjacency, name, names[..i])
    {
      var input := defs[name].inputs[i].parameterName;
      PendingSnoc(names[..i], defs.Keys, {}, input);
      EdgeStep(defs, before, adjacency, name, names[..i], input);
      assert names[..i + 1] == names[..i] + [input];
      if input in defs {
        count := count + 1;
        adjacency := adjacency[input := Users(adjacency, input) + [name]];
      }
    }
    assert names[..|names|] == names;
  }

  /* The sort */

  function Elements(s: seq<string>): set<string> { set x | x in s }

  ghost predicate Waits(defs: Definitions, degrees: Degrees, sorted: seq<string>, n: string)
    requires n in defs
  {
    n in degrees && degrees[n] == Pending(InputNames(defs[n]), defs.Keys, Elements(sorted))
  }

  ghost predicate QueuedWhenReady(degrees: Degrees, sorted: seq<string>, queue: seq<string>) {
    && Distinct(sorted + queue)
    && (forall n :: n in sorted + queue ==> n in degrees)
    && (forall n :: n in degrees ==> (n in sorted + queue <==> degrees[n] == 0))
  }

  // The initial queue, in whatever order the map yields it.
  method ReadyNames(degrees: Degrees) returns (queue: seq<string>)
    ensures QueuedWhenReady(degrees, [], queue)
  {
    queue := [];
    var todo := degrees.Keys;
    while todo != {}
      invariant todo <= degrees.Keys
      invariant Distinct(queue) && forall n :: n in queue <==> n in degrees.Keys - todo && degrees[n] == 0
      decreases |todo|
    {
      var name :| name in todo;
      todo := todo - {name};
      if degrees[name] == 0 {
        queue := queue + [name];
      }
    }
    assert [] + queue == queue;
  }

  // The inner loop of the sort: one input of every user is done.
  method ReleaseUsers(before: Degrees, users: seq<string>, ghost sorted: seq<string>, ready: seq<string>)
    returns (degrees: Degrees, queue: seq<string>)
    requires QueuedWhenReady(before, sorted, ready)
    requires forall n :: n in before ==> Count(users, n) <= before[n]
    ensures degrees.Keys == before.Keys
    ensures forall n :: n in before ==> degrees[n] == before[n] - Count(users, n)
    ensures QueuedWhenReady(degrees, sorted, queue)
  {
    degrees, queue := before, ready;
    for j := 0 to |users|
      invariant degrees.Keys == before.Keys
      invariant forall n :: n in before ==> degrees[n] + Count(users[..j], n) == before[n]
      invariant QueuedWhenReady(degrees, sorted, queue)
    {
      var user := users[j];
      CountPrefix(users, j + 1, user);
      forall n ensures Count(users[..j + 1], n) == Count(users[..j], n) + if user == n then 1 else 0 {
        assert users[..j + 1] == users[..j] + [user];
        CountSnoc(users[..j], user, n);
      }
      if user in degrees {
        degrees := degrees[user := degrees[user] - 1];
        if degrees[user] == 0 {
          assert sorted + (queue + [user]) == (sorted + queue) + [user];
          queue := queue + [user];
        }
      }
    }
    assert users[..|users|] == users;
  }

  lemma {:induction false} CountPrefix(s: seq<string>, k: nat, x: string)
    requires k <= |s|
    ensures Count(s[..k], x) <= Count(s, x)
    decreases |s|
  {
    if k < |s| {
      CountPrefix(s[..|s| - 1], k, x);
      assert s[..|s| - 1][..k] == s[..k];
    } else {
      assert s[..k] == s;
    }
  }

  lemma SortedSnoc(defs: Definitions, degrees: Degrees, sorted: seq<string>, queue: seq<string>)
    requires degrees.Keys == defs.Keys && queue != [] && Sorted(defs, sorted)
    requires QueuedWhenReady(degrees, sorted, queue)
    requires forall n :: n in defs ==> Waits(defs, degrees, sorted, n)
    ensures Sorted(defs, sorted + [queue[0]]) && queue[0] !in sorted && queue[0] in defs
  {
    var name, all := queue[0], sorted + [queue[0]];
    assert name == (sorted + queue)[|sorted|];
    assert Waits(defs, degrees, sorted, name);
    PendingZero(InputNames(defs[name]), defs.Keys, Elements(sorted));
    forall i, m | 0 <= i < |all| && DependsOn(defs, all[i], m)
      ensures m in all[..i]
    {
      assert all[..i] == sorted[..i];
      if i == |sorted| {
        assert m in Elements(sorted);
        assert sorted[..i] == sorted;
      }
    }
    forall i | 0 <= i < |sorted|
      ensures sorted[i] != name
    {
      assert sorted[i] == (sorted + queue)[i];
    }
  }

  // What finishing `name` takes off the degree of n is what its user list says.
  lemma StepDegree(
    defs: Definitions, degrees: Degrees, adjacency: Adjacency, sorted: seq<string>, name: string, n: string)
    requires name in defs && n in defs && name !in sorted
    requires ListsUsers(defs, adjacency, n) && Waits(defs, degrees, sorted, n)
    ensures degrees[n] ==
      Pending(InputNames(defs[n]), defs.Keys, Elements(sorted + [name])) + Count(Users(adjacency, name), n)
  {
    PendingDone(InputNames(defs[n]), defs.Keys, Elements(sorted), name);
    assert Elements(sorted + [name]) == Elements(sorted) + {name};
    assert Edges(adjacency, name, n) == Uses(defs, InputNames(defs[n]), name);
  }

  lemma UsersStillWait(defs: Definitions, degrees: Degrees, adjacency: Adjacency, sorted: seq<string>, name: string)
    requires degrees.Keys == defs.Keys && name in defs && name !in sorted
    requires forall n :: n in defs ==> ListsUsers(defs, adjacency, n)
    requires forall n :: n in defs ==> Waits(defs, degrees, sorted, n)
    ensures forall n :: n in degrees ==> Count(Users(adjacency, name), n) <= degrees[n]
  {
    forall n | n in degrees
      ensures Count(Users(adjacency, name), n) <= degrees[n]
    {
      StepDegree(defs, degrees, adjacency, sorted, name, n);
    }
  }

  // A sorted list contains no member of a set whose members all have an input in it.
  lemma {:induction false} SortedAvoidsSupporting(defs: Definitions, sorted: seq<string>, s: set<string>, i: nat)
    requires Sorted(defs, sorted) && SelfSupporting(defs, s) && i < |sorted|
    ensures sorted[i] !in s
    decreases i
  {
    if sorted[i] in s {
      assert HasInputIn(defs, sorted[i], s);
      var m :| m in s && DependsOn(defs, sorted[i], m);
      var j :| 0 <= j < i && sorted[..i][j] == m;
      SortedAvoidsSupporting(defs, sorted, s, j);
    }
  }

  lemma RemainderIsStuck(defs: Definitions, degrees: Degrees, sorted: seq<string>)
    requires degrees.Keys == defs.Keys && Sorted(defs, sorted)
    requires QueuedWhenReady(degrees, sorted, [])
    requires forall n :: n in defs ==> Waits(defs, degrees, sorted, n)
    ensures defs.Keys - Elements(sorted) == Stuck(defs)
  {
    var rest := defs.Keys - Elements(sorted);
    assert sorted + [] == sorted;
    forall n | n in rest
      ensures HasInputIn(defs, n, rest)
    {
      assert Waits(defs, degrees, sorted, n);
      PendingZero(InputNames(defs[n]), defs.Keys, Elements(sorted));
      var m :| m in InputNames(defs[n]) && m in defs.Keys && m !in Elements(sorted);
      assert DependsOn(defs, n, m);
    }
    assert SelfSupporting(defs, rest);
    StuckIsLargestSupporting(defs);
    forall n | n in Stuck(defs)
      ensures n in rest
    {
      if n in sorted {
        var i :| 0 <= i < |sorted| && sorted[i] == n;
        SortedAvoidsSupporting(defs, sorted, Stuck(defs), i);
      }
    }
  }

  lemma {:induction false} DistinctSize(s: seq<string>)
    requires Distinct(s)
    ensures |Elements(s)| == |s|
  {
    if s != [] {
      var init, last := s[..|s| - 1], s[|s| - 1];
      DistinctSize(init);
      assert Elements(s) == Elements(init) + {last};
    }
  }

  lemma SameSize(s: set<string>, t: set<string>)
    requires s <= t && |s| >= |t|
    ensures s == t
  {
    if s != t {
      var x :| x in t && x !in s;
      SubsetSize(s, t - {x});
    }
  }

  lemma {:induction false} SubsetSize(s: set<string>, t: set<string>)
    requires s <= t
    ensures |s| <= |t|
  {
    if s != {} {
      var x :| x in s;
      SubsetSize(s - {x}, t - {x});
    }
  }

  // The keys that were not sorted, in whatever order the map yields them.
  method NamesOutside(keys: set<string>, sorted: seq<string>) returns (names: seq<string>)
    ensures Distinct(names) && Elements(names) == keys - Elements(sorted)
  {
    names := [];
    var todo := keys;
    while todo != {}
      invariant todo <= keys
      invariant Distinct(names) && forall n :: n in names <==> n in keys - todo && n !in sorted
      decreases |todo|
    {
      var name :| name in todo;
      todo := todo - {name};
      if name !in sorted {
        names := names + [name];
      }
    }
  }

  // The definitions are moved out of the map in sorted order; each is still there when asked for.
  method CollectSorted(defs: Definitions, names: seq<string>) returns (order: seq<Definition>)
    requires WellNamed(defs) && Distinct(names) && Sorted(defs, names) && Elements(names) == defs.Keys
    ensures IsEvaluationOrder(defs, order)
  {
    order := [];
    var left := defs;
    for i := 0 to |names|
      invariant |order| == i
      invariant forall k :: 0 <= k < i ==> order[k] == defs[names[k]]
      invariant forall k :: i <= k < |names| ==> names[k] in left
      invariant forall n :: n in left ==> n in defs && left[n] == defs[n]
    {
      order := order + [left[names[i]]];
      left := left - {names[i]};
    }
    assert Names(order) == names;
  }

  ghost predicate KahnState(defs: Definitions, degrees: Degrees, sorted: seq<string>, queue: seq<string>) {
    && degrees.Keys == defs.Keys
    && Sorted(defs, sorted)
    && QueuedWhenReady(degrees, sorted, queue)
    && (forall n :: n in defs ==> Waits(defs, degrees, sorted, n))
  }

  lemma NextReady(defs: Definitions, degrees: Degrees, adjacency: Adjacency, sorted: seq<string>, queue: seq<string>)
    requires KahnState(defs, degrees, sorted, queue) && queue != []
    requires forall n :: n in defs ==> ListsUsers(defs, adjacency, n)
    ensures queue[0] in defs && queue[0] !in sorted && |sorted| < |defs|
    ensures Sorted(defs, sorted + [queue[0]])
    ensures QueuedWhenReady(degrees, sorted + [queue[0]], queue[1..])
    ensures forall n :: n in degrees ==> Count(Users(adjacency, queue[0]), n) <= degrees[n]
  {
    SortedSnoc(defs, degrees, sorted, queue);
    MoveToSorted(degrees, sorted, queue);
    UsersStillWait(defs, degrees, adjacency, sorted, queue[0]);
  }

  lemma MoveToSorted(degrees: Degrees, sorted: seq<string>, queue: seq<string>)
    requires QueuedWhenReady(degrees, sorted, queue) && queue != []
    ensures QueuedWhenReady(degrees, sorted + [queue[0]], queue[1..])
    ensures |sorted| < |degrees|
  {
    var all := sorted + queue;
    assert (sorted + [queue[0]]) + queue[1..] == all;
    DistinctFits(all, degrees.Keys);
  }

  lemma SortFinished(defs: Definitions, degrees: Degrees, sorted: seq<string>)
    requires KahnState(defs, degrees, sorted, [])
    ensures defs.Keys - Elements(sorted) == Stuck(defs)
    ensures Distinct(sorted)
    ensures |sorted| < |defs| <==> !Acyclic(defs)
    ensures Acyclic(defs) ==> Elements(sorted) == defs.Keys
  {
    hide Acyclic, Stuck, Waits;
    RemainderIsStuck(defs, degrees, sorted);
    AcyclicIffNothingStuck(defs);
    assert sorted + [] == sorted;
    DistinctSize(sorted);
    NothingLeft(Elements(sorted), defs.Keys);
  }

  lemma NothingLeft(done: set<string>, all: set<string>)
    requires done <= all
    ensures all - done == {} <==> |done| >= |all|
    ensures all - done == {} <==> done == all
    ensures |done| <= |all|
  {
    SubsetSize(done, all);
    if |done| >= |all| {
      SameSize(done, all);
    }
    if done != all {
      var x :| x in all && x !in done;
      assert x in all - done;
    }
  }

  lemma StillWait(
    defs: Definitions, before: Degrees, after: Degrees, adjacency: Adjacency, sorted: seq<string>, name: string)
    requires before.Keys == after.Keys == defs.Keys && name in defs && name !in sorted
    requires forall n :: n in defs ==> ListsUsers(defs, adjacency, n)
    requires forall n :: n in defs ==> Waits(defs, before, sorted, n)
    requires forall n :: n in before ==> after[n] == before[n] - Count(Users(adjacency, name), n)
    ensures forall n :: n in defs ==> Waits(defs, after, sorted + [name], n)
  {
    forall n | n in defs
      ensures Waits(defs, after, sorted + [name], n)
    {
      StepDegree(defs, before, adjacency, sorted, name, n);
    }
  }

  // `sort_topologically`: an order, or the names that could not be ordered.
  method SortTopologically(params: seq<Definition>) returns (r: Result<seq<Definition>, seq<string>>)
    ensures r.Ok? <==> Acyclic(ByName(params))
    ensures r.Ok? ==> IsEvaluationOrder(ByName(params), r.value)
    ensures r.Err? ==> Distinct(r.error) && Elements(r.error) == Stuck(ByName(params))
  {
    var defs := ByName(params);
    var degrees, adjacency := BuildGraph(defs);
    var queue := ReadyNames(degrees);
    var sorted: seq<string> := [];
    assert Elements(sorted) == {};
    while queue != []
      invariant KahnState(defs, degrees, sorted, queue)
      decreases |defs| - |sorted|
    {
      NextReady(defs, degrees, adjacency, sorted, queue);
      var name := queue[0];
      ghost var waiting, done := degrees, sorted;
      queue, sorted := queue[1..], sorted + [name];
      degrees, queue := ReleaseUsers(degrees, Users(adjacency, name), sorted, queue);
      StillWait(defs, waiting, degrees, adjacency, done, name);
    }
    SortFinished(defs, degrees, sorted);
    if |sorted| < |defs| {
      var cyclic := NamesOutside(defs.Keys, sorted);
      return Err(cyclic);
    }
    var order := CollectSorted(defs, sorted);
    return Ok(order);
  }

  /* Loading a mission's definitions, once parsed */

  datatype LoadError =
    | DuplicateParameter(name: string)
    | InvalidExpression(name: string)
    | CyclicDependency(names: seq<string>)

  // `load_db_from_file` after YAML parsing; `compiles` stands for the expression parser.
  method LoadDefinitions(raw: seq<Definition>, compiles: string -> bool) returns (r: Result<seq<Definition>, LoadError>)
    ensures r.Ok? <==>
      Distinct(Names(raw)) && (forall d :: d in raw ==> compiles(d.expression)) && Acyclic(ByName(raw))
    ensures r.Ok? ==> IsEvaluationOrder(ByName(raw), r.value) && multiset(r.value) == multiset(raw)
    ensures r.Err? && r.error.DuplicateParameter? ==> Count(Names(raw), r.error.name) > 1
    ensures r.Err? && r.error.InvalidExpression? ==>
      Distinct(Names(raw)) && exists d :: d in raw && d.name == r.error.name && !compiles(d.expression)
    ensures r.Err? && r.error.CyclicDependency? ==>
      Distinct(r.error.names) && Elements(r.error.names) == Stuck(ByName(raw))
  {
    var names: set<string> := {};
    for i := 0 to |raw|
      invariant names == Elements(Names(raw)[..i])
      invariant Distinct(Names(raw)[..i])
    {
      var prefix := Names(raw)[..i];
      assert Names(raw)[..i + 1] == prefix + [raw[i].name];
      if raw[i].name in names {
        RepeatedCount(Names(raw), i);
        return Err(DuplicateParameter(raw[i].name));
      }
      names := names + {raw[i].name};
    }
    assert Names(raw)[..|raw|] == Names(raw);
    for i := 0 to |raw|
      invariant forall k :: 0 <= k < i ==> compiles(raw[k].expression)
    {
      if !compiles(raw[i].expression) {
        return Err(InvalidExpression(raw[i].name));
      }
    }
    var sorted := SortTopologically(raw);
    if sorted.Err? {
      return Err(CyclicDependency(sorted.error));
    }
    OrderIsPermutation(raw, sorted.value);
    return Ok(sorted.value);
  }

  lemma RepeatedCount(names: seq<string>, i: nat)
    requires i < |names| && names[i] in names[..i]
    ensures Count(names, names[i]) > 1
    ensures !Distinct(names)
  {
    CountPositive(names[..i], names[i]);
    CountSnoc(names[..i], names[i], names[i]);
    assert names[..i + 1] == names[..i] + [names[i]];
    CountPrefix(names, i + 1, names[i]);
    var k :| 0 <= k < i && names[..i][k] == names[i];
    assert names[k] == names[i];
  }

  lemma {:induction false} CountPositive(s: seq<string>, x: string)
    requires x in s
    ensures Count(s, x) > 0
  {
    if s[|s| - 1] != x {
      CountPositive(s[..|s| - 1], x);
    }
  }

  lemma {:induction false} ByNameKeeps(params: seq<Definition>)
    requires Distinct(Names(params))
    ensures forall d :: d in params ==> ByName(params)[d.name] == d
  {
    if params != [] {
      var init, last := params[..|params| - 1], params[|params| - 1];
      assert forall i :: 0 <= i < |init| ==> Names(init)[i] == Names(params)[i];
      ByNameKeeps(init);
      forall d | d in params
        ensures ByName(params)[d.name] == d
      {
        var i :| 0 <= i < |params| && params[i] == d;
        if i < |init| {
          assert d in init;
          assert Names(params)[i] != Names(params)[|init|];
        }
      }
    }
  }

  lemma OrderIsPermutation(raw: seq<Definition>, order: seq<Definition>)
    requires Distinct(Names(raw)) && IsEvaluationOrder(ByName(raw), order)
    ensures multiset(order) == multiset(raw)
  {
    ByNameKeeps(raw);
    forall d
      ensures d in order <==> d in raw
    {
      if d in order {
        var i :| 0 <= i < |order| && order[i] == d;
      }
      if d in raw {
        assert d.name in Names(order);
        var i :| 0 <= i < |order| && Names(order)[i] == d.name;
      }
    }
    DistinctNamesDistinct(raw);
    DistinctNamesDistinct(order);
    SameElementsSameMultiset(order, raw);
  }

  lemma DistinctNamesDistinct(s: seq<Definition>)
    requires Distinct(Names(s))
    ensures Distinct(s)
  {
    forall i, j | 0 <= i < j < |s|
      ensures s[i] != s[j]
    {
      assert Names(s)[i] != Names(s)[j];
    }
  }

  lemma {:induction false} DistinctMultiset<T>(s: seq<T>, x: T)
    requires Distinct(s)
    ensures multiset(s)[x] == if x in s then 1 else 0
  {
    if s != [] {
      var init, last := s[..|s| - 1], s[|s| - 1];
      DistinctMultiset(init, x);
      assert s == init + [last];
    }
  }

  lemma SameElementsSameMultiset<T>(s: seq<T>, t: seq<T>)
    requires Distinct(s) && Distinct(t) && forall x :: x in s <==> x in t
    ensures multiset(s) == multiset(t)
  {
    forall x: T
      ensures multiset(s)[x] == multiset(t)[x]
    {
      DistinctMultiset(s, x);
      DistinctMultiset(t, x);
    }
  }
}

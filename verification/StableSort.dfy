/** A stable sort by a key, as `sort_by` of the standard library does it: the result is ordered, and
    the elements of any one key stay in their order. */
module StableSort {

  function Insert<T>(s: seq<T>, x: T, key: T -> real): (r: seq<T>)
    ensures |r| == |s| + 1
  {
    if s == [] then [x]
    else
      var last := s[|s| - 1];
      if key(last) <= key(x) then s + [x] else Insert(s[..|s| - 1], x, key) + [last]
  }

  function Sort<T>(s: seq<T>, key: T -> real): (r: seq<T>)
    ensures |r| == |s|
  {
    if s == [] then [] else Insert(Sort(s[..|s| - 1], key), s[|s| - 1], key)
  }

  ghost predicate Ordered<T>(s: seq<T>, key: T -> real) {
    forall i, j :: 0 <= i <= j < |s| ==> key(s[i]) <= key(s[j])
  }

  // The elements with this key, in their order.
  function Having<T>(s: seq<T>, key: T -> real, k: real): seq<T> {
    if s == [] then []
    else
      var init := Having(s[..|s| - 1], key, k);
      if key(s[|s| - 1]) == k then init + [s[|s| - 1]] else init
  }

  ghost predicate AtMost<T>(s: seq<T>, key: T -> real, bound: real) {
    forall i :: 0 <= i < |s| ==> key(s[i]) <= bound
  }

  lemma {:induction false} InsertAdds<T>(s: seq<T>, x: T, key: T -> real)
    ensures multiset(Insert(s, x, key)) == multiset(s) + multiset{x}
  {
    if s != [] {
      assert s == s[..|s| - 1] + [s[|s| - 1]];
      InsertAdds(s[..|s| - 1], x, key);
    }
  }

  lemma {:induction false} InsertOrders<T>(s: seq<T>, x: T, key: T -> real, bound: real)
    requires Ordered(s, key) && AtMost(s, key, bound) && key(x) <= bound
    ensures Ordered(Insert(s, x, key), key) && AtMost(Insert(s, x, key), key, bound)
  {
    if s != [] {
      var init, last := s[..|s| - 1], s[|s| - 1];
      if key(last) > key(x) {
        InsertOrders(init, x, key, key(last));
      }
    }
  }

  lemma {:induction false} SortOrders<T>(s: seq<T>, key: T -> real)
    ensures Ordered(Sort(s, key), key)
    ensures multiset(Sort(s, key)) == multiset(s)
  {
    if s != [] {
      var init, last := s[..|s| - 1], s[|s| - 1];
      assert s == init + [last];
      SortOrders(init, key);
      var sorted := Sort(init, key);
      InsertAdds(sorted, last, key);
      var greatest :=
        if sorted != [] && key(sorted[|sorted| - 1]) > key(last) then key(sorted[|sorted| - 1]) else key(last);
      InsertOrders(sorted, last, key, greatest);
    }
  }

  lemma HavingSnoc<T>(s: seq<T>, x: T, key: T -> real, k: real)
    ensures Having(s + [x], key, k) == if key(x) == k then Having(s, key, k) + [x] else Having(s, key, k)
  {
    assert (s + [x])[..|s|] == s;
  }

  lemma {:induction false} NoneHaving<T>(s: seq<T>, key: T -> real, k: real)
    requires forall i :: 0 <= i < |s| ==> key(s[i]) != k
    ensures Having(s, key, k) == []
  {
    if s != [] { NoneHaving(s[..|s| - 1], key, k); }
  }

  lemma {:induction false} InsertKeepsOrder<T>(s: seq<T>, x: T, key: T -> real, k: real)
    requires Ordered(s, key)
    ensures Having(Insert(s, x, key), key, k) == Having(s + [x], key, k)
  {
    HavingSnoc(s, x, key, k);
    if s != [] {
      var init, last := s[..|s| - 1], s[|s| - 1];
      if key(last) > key(x) {
        InsertKeepsOrder(init, x, key, k);
        HavingSnoc(init, x, key, k);
        HavingSnoc(Insert(init, x, key), last, key, k);
      }
    }
  }

  lemma {:induction false} SortIsStable<T>(s: seq<T>, key: T -> real, k: real)
    ensures Having(Sort(s, key), key, k) == Having(s, key, k)
  {
    if s != [] {
      var init, last := s[..|s| - 1], s[|s| - 1];
      SortIsStable(init, key, k);
      SortOrders(init, key);
      InsertKeepsOrder(Sort(init, key), last, key, k);
      HavingSnoc(Sort(init, key), last, key, k);
    }
  }

  lemma {:induction false} HavingIn<T>(s: seq<T>, key: T -> real, k: real)
    ensures forall x :: x in Having(s, key, k) <==> x in s && key(x) == k
  {
    if s != [] {
      var init, last := s[..|s| - 1], s[|s| - 1];
      HavingIn(init, key, k);
      assert s == init + [last];
    }
  }

  // An ordered sequence starts with all elements of its least key.
  lemma {:induction false} LeastFirst<T>(s: seq<T>, key: T -> real, i: nat)
    requires Ordered(s, key) && i < |s|
    ensures
      var least := Having(s, key, key(s[0]));
      && |least| <= |s| && least != []
      && (i < |least| ==> s[i] == least[i])
      && (i < |least| <==> key(s[i]) == key(s[0]))
    decreases |s|
  {
    var k := key(s[0]);
    var init, last := s[..|s| - 1], s[|s| - 1];
    if init == [] {
      assert s == [last];
    } else {
      LeastFirst(init, key, if i < |init| then i else 0);
      if key(last) == k {
        AllHaving(init, key, k);
      } else if i == |init| {
        LeastFirst(init, key, |init| - 1);
      }
    }
  }

  lemma {:induction false} AllHaving<T>(s: seq<T>, key: T -> real, k: real)
    requires forall i :: 0 <= i < |s| ==> key(s[i]) == k
    ensures Having(s, key, k) == s
  {
    if s != [] {
      AllHaving(s[..|s| - 1], key, k);
      assert s == s[..|s| - 1] + [s[|s| - 1]];
    }
  }

  lemma {:induction false} HavingConcat<T>(a: seq<T>, b: seq<T>, key: T -> real, k: real)
    ensures Having(a + b, key, k) == Having(a, key, k) + Having(b, key, k)
    decreases |b|
  {
    if b == [] {
      assert a + b == a;
    } else {
      assert (a + b)[..|a + b| - 1] == a + b[..|b| - 1];
      HavingConcat(a, b[..|b| - 1], key, k);
    }
  }
}

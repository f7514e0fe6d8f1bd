/**
 Grouping a list by a key in one pass, keys in the order they first appear: the opening loop of the
 alert folds and of the serial families.
 */
module Grouping {

  /** The keys of a list, each once, in the order they first appear. */
  function Order<T, K(==)>(xs: seq<T>, key: T -> K): seq<K> {
    if xs == [] then []
    else
      var before, k := Order(xs[..|xs| - 1], key), key(xs[|xs| - 1]);
      if k in before then before else before + [k]
  }

  /** The members of one key, in their order. */
  function Group<T, K(==)>(xs: seq<T>, key: T -> K, k: K): seq<T> {
    if xs == [] then []
    else
      var before, x := Group(xs[..|xs| - 1], key, k), xs[|xs| - 1];
      if key(x) == k then before + [x] else before
  }

  /** The members of several keys together. */
  function Gathered<T, K(==)>(xs: seq<T>, key: T -> K, ks: seq<K>): multiset<T> {
    if ks == [] then multiset{}
    else Gathered(xs, key, ks[..|ks| - 1]) + multiset(Group(xs, key, ks[|ks| - 1]))
  }

  predicate Distinct<K(==)>(ks: seq<K>) {
    forall i, j :: 0 <= i < j < |ks| ==> ks[i] != ks[j]
  }

  lemma OneMoreDistinct<K>(ks: seq<K>, k: K)
    requires Distinct(ks) && k !in ks
    ensures Distinct(ks + [k]) && forall x :: x in ks + [k] <==> x in ks || x == k
  {}

  lemma AnElement<T>(s: set<T>) returns (x: T)
    requires s != {}
    ensures x in s
  {
    x :| x in s;
  }

  lemma {:induction false} OrderHasEveryKey<T, K>(xs: seq<T>, key: T -> K)
    ensures Distinct(Order(xs, key))
    ensures forall k :: k in Order(xs, key) <==> exists x <- xs :: key(x) == k
  {
    if xs != [] {
      var init, last := xs[..|xs| - 1], xs[|xs| - 1];
      OrderHasEveryKey(init, key);
      assert forall x :: x in xs <==> x in init || x == last;
    }
  }

  lemma {:induction false} GroupHasItsMembers<T, K>(xs: seq<T>, key: T -> K, k: K)
    ensures forall x :: x in Group(xs, key, k) <==> x in xs && key(x) == k
  {
    if xs != [] {
      GroupHasItsMembers(xs[..|xs| - 1], key, k);
      assert forall x :: x in xs <==> x in xs[..|xs| - 1] || x == xs[|xs| - 1];
    }
  }

  lemma {:induction false} GroupEmptyIff<T, K>(xs: seq<T>, key: T -> K, k: K)
    ensures Group(xs, key, k) == [] <==> k !in Order(xs, key)
  {
    if xs != [] {
      GroupEmptyIff(xs[..|xs| - 1], key, k);
    }
  }

  /** Elements under keys of their own are groups of one, in the list's order. */
  lemma {:induction false} GroupsOfOne<T, K>(xs: seq<T>, key: T -> K)
    requires forall i, j :: 0 <= i < j < |xs| ==> key(xs[i]) != key(xs[j])
    ensures |Order(xs, key)| == |xs| && forall i :: 0 <= i < |xs| ==> Order(xs, key)[i] == key(xs[i])
    ensures forall i :: 0 <= i < |xs| ==> Group(xs, key, key(xs[i])) == [xs[i]]
  {
    if xs != [] {
      var n := |xs| - 1;
      GroupsOfOne(xs[..n], key);
      OrderHasEveryKey(xs[..n], key);
      GroupEmptyIff(xs[..n], key, key(xs[n]));
      forall i | 0 <= i < n ensures Group(xs, key, key(xs[i])) == [xs[i]] {
        assert Group(xs[..n], key, key(xs[..n][i])) == [xs[i]];
      }
    }
  }

  lemma GroupOneMore<T, K>(xs: seq<T>, x: T, key: T -> K, k: K)
    ensures Group(xs + [x], key, k) == if key(x) == k then Group(xs, key, k) + [x] else Group(xs, key, k)
  {
    assert (xs + [x])[..|xs|] == xs;
  }

  lemma GroupInOne<T, K>(x: T, key: T -> K, k: K)
    ensures Group([x], key, k) == if key(x) == k then [x] else []
  {
    assert [x][..0] == [] && Group([], key, k) == [];
  }

  lemma TwoGroupsOfOne<T, K>(a: T, b: T, key: T -> K)
    requires key(a) != key(b)
    ensures Order([a, b], key) == [key(a), key(b)]
    ensures Group([a, b], key, key(a)) == [a] && Group([a, b], key, key(b)) == [b]
  {
    var xs := [a, b];
    assert xs[0] == a && xs[1] == b;
    GroupsOfOne(xs, key);
  }

  lemma OneGroupOfTwo<T, K>(a: T, b: T, key: T -> K, k: K)
    requires key(a) == key(b)
    ensures Group([a, b], key, k) == if key(a) == k then [a, b] else []
  {
    GroupInOne(a, key, k);
    assert [a, b][..1] == [a];
  }

  lemma {:induction false} GroupConcat<T, K>(a: seq<T>, b: seq<T>, key: T -> K, k: K)
    ensures Group(a + b, key, k) == Group(a, key, k) + Group(b, key, k)
  {
    if b == [] {
      assert a + b == a;
    } else {
      assert (a + b)[..|a| + |b| - 1] == a + b[..|b| - 1];
      GroupConcat(a, b[..|b| - 1], key, k);
    }
  }

  lemma {:induction false} OneMore<T, K>(xs: seq<T>, x: T, key: T -> K, ks: seq<K>)
    requires Distinct(ks)
    ensures Gathered(xs + [x], key, ks) ==
              if key(x) in ks then Gathered(xs, key, ks) + multiset{x} else Gathered(xs, key, ks)
  {
    assert (xs + [x])[..|xs|] == xs;
    if ks != [] {
      var init, last := ks[..|ks| - 1], ks[|ks| - 1];
      OneMore(xs, x, key, init);
      assert key(x) in ks <==> key(x) in init || key(x) == last;
      assert last !in init;
    }
  }

  /** Conservation: over any distinct keys that cover the list, every element is gathered exactly as
      often as it occurs. */
  lemma {:induction false} NothingLost<T, K>(xs: seq<T>, key: T -> K, ks: seq<K>)
    requires Distinct(ks) && forall x <- xs :: key(x) in ks
    ensures Gathered(xs, key, ks) == multiset(xs)
  {
    if xs == [] {
      NothingGathered(key, ks);
    } else {
      var init, last := xs[..|xs| - 1], xs[|xs| - 1];
      assert xs == init + [last];
      NothingLost(init, key, ks);
      OneMore(init, last, key, ks);
    }
  }

  lemma {:induction false} NothingGathered<T, K>(key: T -> K, ks: seq<K>)
    ensures Gathered<T, K>([], key, ks) == multiset{}
  {
    if ks != [] { NothingGathered<T, K>(key, ks[..|ks| - 1]); }
  }

  lemma {:induction false} GatheredConcat<T, K>(xs: seq<T>, key: T -> K, a: seq<K>, b: seq<K>)
    ensures Gathered(xs, key, a + b) == Gathered(xs, key, a) + Gathered(xs, key, b)
  {
    if b == [] {
      assert a + b == a;
    } else {
      assert (a + b)[..|a| + |b| - 1] == a + b[..|b| - 1];
      GatheredConcat(xs, key, a, b[..|b| - 1]);
    }
  }

  lemma OneMoreGathered<T, K>(xs: seq<T>, key: T -> K, ks: seq<K>, k: K)
    ensures Gathered(xs, key, ks + [k]) == Gathered(xs, key, ks) + multiset(Group(xs, key, k))
  {
    assert (ks + [k])[..|ks|] == ks;
  }

  /** The pass itself: a map of groups, and the keys in order. */
  method GroupBy<T, K(==)>(xs: seq<T>, key: T -> K) returns (order: seq<K>, groups: map<K, seq<T>>)
    ensures order == Order(xs, key)
    ensures groups.Keys == set k | k in order
    ensures forall k <- groups :: groups[k] == Group(xs, key, k) && groups[k] != []
  {
    order, groups := [], map[];
    for i := 0 to |xs|
      invariant order == Order(xs[..i], key)
      invariant forall k :: k in groups <==> k in order
      invariant forall k :: if k in groups then groups[k] == Group(xs[..i], key, k) != []
                            else Group(xs[..i], key, k) == []
    {
      var x := xs[i];
      assert xs[..i + 1][..i] == xs[..i];
      var k := key(x);
      if k !in groups {
        order := order + [k];
        groups := groups[k := []];
      }
      groups := groups[k := groups[k] + [x]];
    }
    assert xs[..|xs|] == xs;
  }

  lemma TakeOneMore<T>(xs: seq<T>, n: nat)
    requires n < |xs|
    ensures xs[..n + 1] == xs[..n] + [xs[n]]
  {}

  /** The elements of a list that pass a test, in order. */
  function Keep<T>(xs: seq<T>, test: T -> bool): seq<T> {
    if xs == [] then []
    else
      var before, x := Keep(xs[..|xs| - 1], test), xs[|xs| - 1];
      if test(x) then before + [x] else before
  }

  lemma KeepOneMore<T>(xs: seq<T>, x: T, test: T -> bool)
    ensures Keep(xs + [x], test) == if test(x) then Keep(xs, test) + [x] else Keep(xs, test)
  {
    assert (xs + [x])[..|xs|] == xs;
  }

  lemma {:induction false} KeepMembers<T>(xs: seq<T>, test: T -> bool)
    ensures forall x :: x in Keep(xs, test) <==> x in xs && test(x)
    ensures Distinct(xs) ==> Distinct(Keep(xs, test))
    ensures |Keep(xs, test)| <= |xs|
  {
    if xs != [] {
      var init := xs[..|xs| - 1];
      KeepMembers(init, test);
      assert forall x :: x in xs <==> x in init || x == xs[|xs| - 1];
      var kept := Keep(init, test);
      assert forall i :: 0 <= i < |kept| ==> kept[i] in kept;
    }
  }

  lemma {:induction false} KeepAll<T>(xs: seq<T>, test: T -> bool)
    requires forall x <- xs :: test(x)
    ensures Keep(xs, test) == xs
  {
    if xs != [] {
      var n := |xs| - 1;
      KeepAll(xs[..n], test);
      assert xs[n] in xs && xs == xs[..n] + [xs[n]];
    }
  }

  lemma {:induction false} KeepConcat<T>(a: seq<T>, b: seq<T>, test: T -> bool)
    ensures Keep(a + b, test) == Keep(a, test) + Keep(b, test)
  {
    if b == [] {
      assert a + b == a;
    } else {
      assert (a + b)[..|a| + |b| - 1] == a + b[..|b| - 1];
      KeepConcat(a, b[..|b| - 1], test);
    }
  }

  lemma {:induction false} EachOnce<T>(s: seq<T>)
    requires Distinct(s)
    ensures forall x :: multiset(s)[x] == if x in s then 1 else 0
  {
    if s != [] {
      var init, last := s[..|s| - 1], s[|s| - 1];
      assert s == init + [last] && last !in init;
      EachOnce(init);
    }
  }

  lemma OneOrNone<T>(s: seq<T>, t: seq<T>)
    requires |s| <= 1 && |t| <= 1 && forall x :: x in s <==> x in t
    ensures s == t
  {
    if s != [] { assert s[0] in t; }
    if t != [] { assert t[0] in s; }
  }

  function Each<T, U>(xs: seq<T>, f: T -> U): seq<U> {
    seq(|xs|, i requires 0 <= i < |xs| => f(xs[i]))
  }

  lemma EachOfTwo<T, U>(a: T, b: T, f: T -> U)
    ensures Each([a, b], f) == [f(a), f(b)]
  {}

  lemma EachConcat<T, U>(a: seq<T>, b: seq<T>, f: T -> U)
    ensures Each(a + b, f) == Each(a, f) + Each(b, f)
  {}

  function Without<T>(xs: seq<T>, i: nat): seq<T>
    requires i < |xs|
  {
    xs[..i] + xs[i + 1..]
  }

  lemma SplitAround<T>(xs: seq<T>, i: nat)
    requires i < |xs|
    ensures xs == xs[..i] + ([xs[i]] + xs[i + 1..])
  {}

  lemma MiddleOut<T>(a: seq<T>, m: seq<T>, b: seq<T>)
    ensures multiset(a + (m + b)) == multiset(a + b) + multiset(m)
  {}

  lemma WithoutOne<T>(xs: seq<T>, i: nat)
    requires i < |xs|
    ensures multiset(Without(xs, i)) == multiset(xs) - multiset{xs[i]} && xs[i] in multiset(xs)
    ensures multiset(xs) == multiset(Without(xs, i)) + multiset{xs[i]}
  {
    SplitAround(xs, i);
    MiddleOut(xs[..i], [xs[i]], xs[i + 1..]);
  }

  /** The last of a list stands somewhere in a reordered one, and without it they still agree. */
  lemma LastOfOther<T>(a: seq<T>, b: seq<T>) returns (i: nat)
    requires a != [] && multiset(a) == multiset(b)
    ensures i < |b| && b[i] == a[|a| - 1]
    ensures multiset(a[..|a| - 1]) == multiset(Without(b, i))
  {
    var n := |a| - 1;
    WithoutOne(a, n);
    i :| 0 <= i < |b| && b[i] == a[n];
    WithoutOne(b, i);
    assert Without(a, n) == a[..n];
  }

  lemma SameMembers<T>(s: seq<T>, t: seq<T>)
    requires multiset(s) == multiset(t)
    ensures forall x :: x in s <==> x in t
  {
    forall x ensures x in s <==> x in t {
      assert x in s <==> x in multiset(s);
    }
  }

  lemma SameElements<T>(s: seq<T>, t: seq<T>)
    requires Distinct(s) && Distinct(t) && forall x :: x in s <==> x in t
    ensures multiset(s) == multiset(t)
  {
    EachOnce(s);
    EachOnce(t);
    assert multiset(s) <= multiset(t) && multiset(t) <= multiset(s);
  }
}

/**
 Ascending lists without repetition, as sort.Strings and a sorted query leave them.
 */
module SortedLists {

  predicate Ascending(xs: seq<nat>) {
    forall i, j :: 0 <= i < j < |xs| ==> xs[i] < xs[j]
  }

  /** However the elements were met, there is one sorted list of them. */
  lemma {:induction false} OneSortedList(a: seq<nat>, b: seq<nat>)
    requires Ascending(a) && Ascending(b) && forall r :: r in a <==> r in b
    ensures a == b
  {
    if a == [] {
      if b != [] { SameFirst(b, a); }
    } else {
      SameFirst(a, b);
      forall r ensures r in a[1..] <==> r in b[1..] {
        TailMembers(a, r);
        TailMembers(b, r);
      }
      OneSortedList(a[1..], b[1..]);
      assert a == [a[0]] + a[1..] && b == [b[0]] + b[1..];
    }
  }

  lemma SameFirst(a: seq<nat>, b: seq<nat>)
    requires Ascending(a) && Ascending(b) && a != [] && forall r :: r in a <==> r in b
    ensures b != [] && a[0] == b[0]
  {
    assert a[0] in b;
    assert b[0] in a;
    var i :| 0 <= i < |b| && b[i] == a[0];
    var j :| 0 <= j < |a| && a[j] == b[0];
  }

  lemma TailMembers(a: seq<nat>, r: nat)
    requires Ascending(a) && a != []
    ensures r in a[1..] <==> r in a && r != a[0]
  {
    assert a == [a[0]] + a[1..];
    assert forall i :: 0 <= i < |a[1..]| ==> a[1..][i] == a[i + 1];
  }

  function InsertInOrder(r: nat, xs: seq<nat>): (s: seq<nat>)
    requires Ascending(xs) && r !in xs
    ensures Ascending(s) && forall x :: x in s <==> x == r || x in xs
  {
    if xs == [] || r < xs[0] then [r] + xs
    else
      var rest := InsertInOrder(r, xs[1..]);
      InsertKeepsOrder(r, xs, rest);
      [xs[0]] + rest
  }

  lemma InsertKeepsOrder(r: nat, xs: seq<nat>, rest: seq<nat>)
    requires Ascending(xs) && xs != [] && r > xs[0] && Ascending(rest)
    requires forall x :: x in rest <==> x == r || x in xs[1..]
    ensures Ascending([xs[0]] + rest)
    ensures forall x :: x in [xs[0]] + rest <==> x == r || x in xs
  {
    assert xs == [xs[0]] + xs[1..];
    forall i | 0 <= i < |rest| ensures xs[0] < rest[i] {
      assert rest[i] in rest;
      TailMembers(xs, rest[i]);
    }
  }
}

/**
 The order problems are listed in, worst first and newest first among equals, with ties left as they
 came: what sort.SliceStable promises for the comparison of internal/dashboard/alert_problems.go.
 */
module StableSort {
  import opened Grouping

  /** What the comparison looks at. */
  datatype Place = Place(rank: nat, since: nat)

  predicate Ahead(a: Place, b: Place) {
    a.rank > b.rank || (a.rank == b.rank && a.since > b.since)
  }

  predicate Sorted<T>(s: seq<T>, place: T -> Place) {
    forall i, j :: 0 <= i < j < |s| ==> !Ahead(place(s[j]), place(s[i]))
  }

  function InPlace<T>(place: T -> Place, c: Place): T -> bool {
    (x: T) => place(x) == c
  }

  /** Equal elements come in the same order in both lists. */
  ghost predicate SameTies<T>(s: seq<T>, t: seq<T>, place: T -> Place) {
    forall c :: Keep(s, InPlace(place, c)) == Keep(t, InPlace(place, c))
  }

  function Insert<T>(x: T, s: seq<T>, place: T -> Place): seq<T> {
    if s == [] || !Ahead(place(x), place(s[|s| - 1])) then s + [x]
    else Insert(x, s[..|s| - 1], place) + [s[|s| - 1]]
  }

  function Sort<T>(s: seq<T>, place: T -> Place): seq<T> {
    if s == [] then [] else Insert(s[|s| - 1], Sort(s[..|s| - 1], place), place)
  }

  lemma {:induction false} InsertAdds<T>(x: T, s: seq<T>, place: T -> Place)
    ensures multiset(Insert(x, s, place)) == multiset(s) + multiset{x}
  {
    if s != [] && Ahead(place(x), place(s[|s| - 1])) {
      assert s == s[..|s| - 1] + [s[|s| - 1]];
      InsertAdds(x, s[..|s| - 1], place);
    }
  }

  lemma LastKeepsSorted<T>(s: seq<T>, x: T, place: T -> Place)
    requires Sorted(s, place) && forall y <- s :: !Ahead(place(x), place(y))
    ensures Sorted(s + [x], place)
  {}

  lemma NotAheadOfAny<T>(s: seq<T>, x: T, place: T -> Place)
    requires Sorted(s, place) && (s == [] || !Ahead(place(x), place(s[|s| - 1])))
    ensures forall y <- s :: !Ahead(place(x), place(y))
  {
    forall i | 0 <= i < |s| ensures !Ahead(place(x), place(s[i])) {
      assert i < |s| - 1 ==> !Ahead(place(s[|s| - 1]), place(s[i]));
    }
  }

  lemma InsertMember<T>(x: T, s: seq<T>, place: T -> Place, y: T)
    requires y in Insert(x, s, place)
    ensures y == x || y in s
  {
    InsertAdds(x, s, place);
    assert y in multiset(Insert(x, s, place));
  }

  lemma LastBehind<T>(s: seq<T>, y: T, place: T -> Place)
    requires Sorted(s, place) && s != [] && y in s[..|s| - 1]
    ensures !Ahead(place(s[|s| - 1]), place(y))
  {
    var i :| 0 <= i < |s| - 1 && s[i] == y;
  }

  lemma {:induction false} InsertKeepsSorted<T>(x: T, s: seq<T>, place: T -> Place)
    requires Sorted(s, place)
    ensures Sorted(Insert(x, s, place), place)
  {
    if s == [] || !Ahead(place(x), place(s[|s| - 1])) {
      NotAheadOfAny(s, x, place);
      LastKeepsSorted(s, x, place);
    } else {
      var init, last := s[..|s| - 1], s[|s| - 1];
      InsertKeepsSorted(x, init, place);
      forall y | y in Insert(x, init, place) ensures !Ahead(place(last), place(y)) {
        InsertMember(x, init, place, y);
        if y in init { LastBehind(s, y, place); }
      }
      LastKeepsSorted(Insert(x, init, place), last, place);
    }
  }

  lemma {:induction false} InsertKeepsTies<T>(x: T, s: seq<T>, place: T -> Place, c: Place)
    ensures Keep(Insert(x, s, place), InPlace(place, c)) ==
              if place(x) == c then Keep(s, InPlace(place, c)) + [x] else Keep(s, InPlace(place, c))
  {
    if s == [] || !Ahead(place(x), place(s[|s| - 1])) {
      assert (s + [x])[..|s|] == s;
    } else {
      var init, last := s[..|s| - 1], s[|s| - 1];
      InsertKeepsTies(x, init, place, c);
      var r := Insert(x, init, place);
      assert (r + [last])[..|r|] == r;
    }
  }

  /** The list is sorted, nothing is lost or added, and ties stay in the order they came. */
  lemma {:induction false} SortIsStable<T>(s: seq<T>, place: T -> Place)
    ensures Sorted(Sort(s, place), place) && multiset(Sort(s, place)) == multiset(s)
    ensures SameTies(Sort(s, place), s, place)
  {
    if s != [] {
      var init, last := s[..|s| - 1], s[|s| - 1];
      assert s == init + [last];
      SortIsStable(init, place);
      InsertAdds(last, Sort(init, place), place);
      InsertKeepsSorted(last, Sort(init, place), place);
      forall c ensures Keep(Sort(s, place), InPlace(place, c)) == Keep(s, InPlace(place, c)) {
        InsertKeepsTies(last, Sort(init, place), place, c);
      }
    }
  }

  /** Those promises leave one list: sorted lists with the same ties in the same order are equal. */
  lemma {:induction false} OneStableOrder<T>(s: seq<T>, t: seq<T>, place: T -> Place)
    requires Sorted(s, place) && Sorted(t, place) && SameTies(s, t, place)
    ensures s == t
  {
    if s == [] {
      if t != [] { LastIsLeast(t, s, place); }
    } else {
      LastIsLeast(s, t, place);
      LastIsLeast(t, s, place);
      SameLast(s, t, place);
      OneStableOrder(s[..|s| - 1], t[..|t| - 1], place);
      assert s == s[..|s| - 1] + [s[|s| - 1]] && t == t[..|t| - 1] + [t[|t| - 1]];
    }
  }

  lemma SameLast<T>(s: seq<T>, t: seq<T>, place: T -> Place)
    requires s != [] && t != [] && place(s[|s| - 1]) == place(t[|t| - 1]) && SameTies(s, t, place)
    ensures s[|s| - 1] == t[|t| - 1]
    ensures SameTies(s[..|s| - 1], t[..|t| - 1], place)
  {
    LastTie(s, place);
    LastTie(t, place);
    assert Keep(s, InPlace(place, place(s[|s| - 1]))) == Keep(t, InPlace(place, place(s[|s| - 1])));
    forall c ensures Keep(s[..|s| - 1], InPlace(place, c)) == Keep(t[..|t| - 1], InPlace(place, c)) {
      assert Keep(s, InPlace(place, c)) == Keep(t, InPlace(place, c));
      WithoutLast(s, place, c);
      WithoutLast(t, place, c);
    }
  }

  lemma LastTie<T>(s: seq<T>, place: T -> Place)
    requires s != []
    ensures var x := s[|s| - 1];
            var ties := Keep(s, InPlace(place, place(x)));
            ties != [] && ties[|ties| - 1] == x
  {}

  lemma WithoutLast<T>(s: seq<T>, place: T -> Place, c: Place)
    requires s != []
    ensures var ties := Keep(s, InPlace(place, c));
            Keep(s[..|s| - 1], InPlace(place, c)) ==
              if place(s[|s| - 1]) == c && ties != [] then ties[..|ties| - 1] else ties
  {}

  lemma LastIsLeast<T>(s: seq<T>, t: seq<T>, place: T -> Place)
    requires s != [] && Sorted(t, place) && SameTies(s, t, place)
    ensures t != [] && !Ahead(place(t[|t| - 1]), place(s[|s| - 1]))
  {
    var x := s[|s| - 1];
    var ties := Keep(t, InPlace(place, place(x)));
    LastTie(s, place);
    assert ties == Keep(s, InPlace(place, place(x)));
    assert x in ties;
    TieIsMember(t, InPlace(place, place(x)), x);
    var i :| 0 <= i < |t| && t[i] == x;
    assert i < |t| - 1 ==> !Ahead(place(t[|t| - 1]), place(t[i]));
  }

  lemma TieIsMember<T>(s: seq<T>, test: T -> bool, x: T)
    requires x in Keep(s, test)
    ensures x in s
  {
    KeepMembers(s, test);
  }

  /** Lists that first differ in two tied elements have their ties in different orders. */
  lemma FirstDifferenceShows<T>(init: seq<T>, x: T, s: seq<T>, y: T, t: seq<T>, place: T -> Place)
    requires x != y && place(x) == place(y)
    ensures Keep(init + [x] + s, InPlace(place, place(x))) != Keep(init + [y] + t, InPlace(place, place(x)))
  {
    var test := InPlace(place, place(x));
    NthTie(init, x, s, test);
    NthTie(init, y, t, test);
  }

  lemma NthTie<T>(init: seq<T>, x: T, s: seq<T>, test: T -> bool)
    requires test(x)
    ensures var at, kept := |Keep(init, test)|, Keep(init + [x] + s, test);
            at < |kept| && kept[at] == x
  {
    KeepConcat(init + [x], s, test);
    assert (init + [x])[..|init|] == init;
  }
}

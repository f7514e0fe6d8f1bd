/**
 What the folded list of problems says: nothing is lost or shown twice, an outage reads as if its devices'
 alerts had been folded once, and how far the walk over the map of restaurants can show.
 */
module ProblemMeaning {
  import opened Wrappers
  import opened Grouping
  import opened StableSort
  import AlertFold
  import opened ProblemFold

  // ── Nothing lost, nothing twice ────────────────────────────────────────────

  lemma {:induction false} PoolConcat<T>(a: seq<Problem>, b: seq<Problem>, part: Problem -> seq<T>)
    ensures Pool(a + b, part) == Pool(a, part) + Pool(b, part)
  {
    if b == [] {
      assert a + b == a;
    } else {
      assert (a + b)[..|a| + |b| - 1] == a + b[..|b| - 1];
      PoolConcat(a, b[..|b| - 1], part);
    }
  }

  lemma PoolMiddle<T>(l: seq<Problem>, p: Problem, r: seq<Problem>, part: Problem -> seq<T>)
    ensures Pool(l + ([p] + r), part) == Pool(l, part) + (part(p) + Pool(r, part))
  {
    PoolConcat(l, [p] + r, part);
    PoolConcat([p], r, part);
    PoolOne(p, part);
  }

  lemma PoolTakesOut<T>(b: seq<Problem>, i: nat, part: Problem -> seq<T>)
    requires i < |b|
    ensures multiset(Pool(b, part)) == multiset(Pool(Without(b, i), part)) + multiset(part(b[i]))
  {
    var l, p, r := b[..i], b[i], b[i + 1..];
    var x, y, z := Pool(l, part), part(p), Pool(r, part);
    assert Pool(b, part) == x + (y + z) by {
      PoolMiddle(l, p, r, part);
      SplitAround(b, i);
    }
    assert Pool(Without(b, i), part) == x + z by { PoolConcat(l, r, part); }
    MiddleOut(x, y, z);
  }

  lemma PoolOne<T>(p: Problem, part: Problem -> seq<T>)
    ensures Pool([p], part) == part(p)
  {
    assert [p][..0] == [] && Pool([], part) == [];
  }

  /** The pooled lists do not depend on the order of the problems. */
  lemma {:induction false} PoolIgnoresOrder<T>(a: seq<Problem>, b: seq<Problem>, part: Problem -> seq<T>)
    requires multiset(a) == multiset(b)
    ensures multiset(Pool(a, part)) == multiset(Pool(b, part))
  {
    if a == [] {
      assert |b| == |multiset(b)| == 0;
    } else {
      var i := LastOfOther(a, b);
      PoolIgnoresOrder(a[..|a| - 1], Without(b, i), part);
      PoolTakesOut(b, i, part);
    }
  }

  /** The device problems of the restaurants, one restaurant after another. */
  function Parts(devs: seq<Problem>, rests: seq<AlertFold.Restaurant>): seq<Problem> {
    if rests == [] then []
    else Parts(devs, rests[..|rests| - 1]) + OfflineTogether(devs, rests[|rests| - 1])
  }

  lemma {:induction false} OutagesPoolTheirParts(devs: seq<Problem>, rests: seq<AlertFold.Restaurant>)
    ensures Pool(Outages(devs, rests), ProblemMembers()) == Pool(Parts(devs, rests), ProblemMembers())
    ensures Pool(Outages(devs, rests), ProblemKeys()) == Pool(Parts(devs, rests), ProblemKeys())
  {
    if rests != [] {
      var n := |rests| - 1;
      var init, r := rests[..n], rests[n];
      OutagesPoolTheirParts(devs, init);
      assert Outages(devs, rests)[..n] == Outages(devs, init);
      PoolConcat(Parts(devs, init), OfflineTogether(devs, r), ProblemMembers());
      PoolConcat(Parts(devs, init), OfflineTogether(devs, r), ProblemKeys());
    }
  }

  function Somes(rests: seq<AlertFold.Restaurant>): seq<Option<AlertFold.Restaurant>> {
    seq(|rests|, i requires 0 <= i < |rests| => Some(rests[i]))
  }

  lemma {:induction false} SameGroup<T, K>(xs: seq<T>, f: T -> K, g: T -> K, k: K)
    requires forall x <- xs :: f(x) == k <==> g(x) == k
    ensures Group(xs, f, k) == Group(xs, g, k)
  {
    if xs != [] {
      assert forall x <- xs[..|xs| - 1] :: x in xs;
      assert xs[|xs| - 1] in xs;
      SameGroup(xs[..|xs| - 1], f, g, k);
    }
  }

  lemma OutageGroup(devs: seq<Problem>, r: AlertFold.Restaurant)
    requires |OfflineTogether(devs, r)| >= 2
    ensures Group(devs, OutageOf(devs), Some(r)) == OfflineTogether(devs, r)
  {
    SameGroup(devs, RestOf(), OutageOf(devs), Some(r));
  }

  lemma {:induction false} PartsAreGathered(devs: seq<Problem>, rests: seq<AlertFold.Restaurant>)
    requires forall r <- rests :: |OfflineTogether(devs, r)| >= 2
    ensures multiset(Parts(devs, rests)) == Gathered(devs, OutageOf(devs), Somes(rests))
  {
    if rests != [] {
      var init, r := rests[..|rests| - 1], rests[|rests| - 1];
      assert rests == init + [r];
      assert r in rests && forall x <- init :: x in rests;
      PartsAreGathered(devs, init);
      OneMorePart(devs, init, r);
    }
  }

  lemma OneMorePart(devs: seq<Problem>, rests: seq<AlertFold.Restaurant>, r: AlertFold.Restaurant)
    requires multiset(Parts(devs, rests)) == Gathered(devs, OutageOf(devs), Somes(rests))
    requires |OfflineTogether(devs, r)| >= 2
    ensures multiset(Parts(devs, rests + [r])) == Gathered(devs, OutageOf(devs), Somes(rests + [r]))
  {
    assert (rests + [r])[..|rests|] == rests;
    assert Somes(rests + [r]) == Somes(rests) + [Some(r)];
    OneMoreGathered(devs, OutageOf(devs), Somes(rests), Some(r));
    OutageGroup(devs, r);
  }

  /** The outages' parts and the rest are all the device problems. */
  lemma PartsAndRest(devs: seq<Problem>, rests: seq<AlertFold.Restaurant>)
    requires OutageWalk(devs, rests)
    ensures multiset(Parts(devs, rests) + Group(devs, OutageOf(devs), None)) == multiset(devs)
  {
    PartsAreGathered(devs, rests);
    OneMoreGathered(devs, OutageOf(devs), Somes(rests), None);
    forall d | d in devs ensures OutageOf(devs)(d) in Somes(rests) + [None] {
      EveryPlaceListed(devs, rests, d);
    }
    PlacesDistinct(rests);
    NothingLost(devs, OutageOf(devs), Somes(rests) + [None]);
  }

  lemma PlacesDistinct(rests: seq<AlertFold.Restaurant>)
    requires Distinct(rests)
    ensures Distinct(Somes(rests) + [None])
  {}

  lemma EveryPlaceListed(devs: seq<Problem>, rests: seq<AlertFold.Restaurant>, d: Problem)
    requires OutageWalk(devs, rests)
    ensures OutageOf(devs)(d) in Somes(rests) + [None]
  {
    var at := OutageOf(devs)(d);
    if at.Some? {
      assert at.value in rests;
      var i :| 0 <= i < |rests| && rests[i] == at.value;
      assert Somes(rests)[i] == at;
    }
  }

  lemma {:induction false} DevicesPool(active: seq<Alert>, ks: seq<Key>, now: Instant)
    requires forall k <- ks :: k in Order(active, KeyOf())
    ensures multiset(Pool(ProblemsFor(active, ks, now), ProblemMembers())) == Gathered(active, KeyOf(), ks)
    ensures Pool(ProblemsFor(active, ks, now), ProblemKeys()) == ks
  {
    if ks != [] {
      var init, k := ks[..|ks| - 1], ks[|ks| - 1];
      assert k in ks && (forall x <- init :: x in ks) && ks == init + [k];
      DevicesPool(active, init, now);
      PoolFor(active, init, k, now, ProblemMembers());
      PoolFor(active, init, k, now, ProblemKeys());
      OneMoreGathered(active, KeyOf(), init, k);
    }
  }

  lemma PoolFor<T>(active: seq<Alert>, ks: seq<Key>, k: Key, now: Instant, part: Problem -> seq<T>)
    requires k in Order(active, KeyOf()) && forall x <- ks :: x in Order(active, KeyOf())
    ensures Pool(ProblemsFor(active, ks + [k], now), part)
         == Pool(ProblemsFor(active, ks, now), part) + part(ProblemFor(active, k, now))
  {
    OneMoreProblem(active, ks, k, now);
    PoolOneMore(ProblemsFor(active, ks, now), ProblemFor(active, k, now), part);
  }

  lemma PoolOneMore<T>(ps: seq<Problem>, p: Problem, part: Problem -> seq<T>)
    ensures Pool(ps + [p], part) == Pool(ps, part) + part(p)
  {
    assert (ps + [p])[..|ps|] == ps;
  }

  lemma SortedPool<T>(devs: seq<Problem>, rests: seq<AlertFold.Restaurant>, part: Problem -> seq<T>)
    requires OutageWalk(devs, rests) && Pool(Outages(devs, rests), part) == Pool(Parts(devs, rests), part)
    ensures multiset(Pool(ListedFor(devs, rests), part)) == multiset(Pool(devs, part))
  {
    var singles := Group(devs, OutageOf(devs), None);
    SortIsStable(Unsorted(devs, rests), PlaceOf());
    PoolIgnoresOrder(ListedFor(devs, rests), Unsorted(devs, rests), part);
    PoolConcat(Outages(devs, rests), singles, part);
    PoolConcat(Parts(devs, rests), singles, part);
    PartsAndRest(devs, rests);
    PoolIgnoresOrder(Parts(devs, rests) + singles, devs, part);
  }

  /** Over the whole list every active alert is a member exactly once, and every device is in exactly one
      problem. */
  lemma EveryAlertOnce(active: seq<Alert>, now: Instant, rests: seq<AlertFold.Restaurant>)
    requires OutageWalk(DeviceProblems(active, now), rests)
    ensures multiset(Pool(Problems(active, now, rests), ProblemMembers())) == multiset(active)
    ensures multiset(Pool(Problems(active, now, rests), ProblemKeys())) == multiset(Order(active, KeyOf()))
    ensures Distinct(Order(active, KeyOf()))
  {
    var devs := DeviceProblems(active, now);
    OutagesPoolTheirParts(devs, rests);
    SortedPool(devs, rests, ProblemMembers());
    SortedPool(devs, rests, ProblemKeys());
    DevicesPool(active, Order(active, KeyOf()), now);
    OrderHasEveryKey(active, KeyOf());
    NothingLost(active, KeyOf(), Order(active, KeyOf()));
  }

  function TotalCount(symptoms: seq<Symptom>): int {
    if symptoms == [] then 0 else TotalCount(symptoms[..|symptoms| - 1]) + symptoms[|symptoms| - 1].count
  }

  lemma {:induction false} TotalCounted(before: seq<Symptom>, j: nat, a: Alert)
    requires j < |before|
    ensures TotalCount(Counted(before, j, a)) == TotalCount(before) + a.occurrences
  {
    var n := |before| - 1;
    if j < n {
      TotalCounted(before[..n], j, a);
      assert Counted(before, j, a)[..n] == Counted(before[..n], j, a);
    } else {
      assert Counted(before, j, a)[..n] == before[..n];
    }
  }

  /** A device's symptoms count every occurrence of every alert once, under distinct names. */
  lemma {:induction false} SymptomsCountEverything(ms: seq<Alert>)
    ensures TotalCount(SymptomsOf(ms)) == Occurrences(ms)
    ensures forall i, j :: 0 <= i < j < |SymptomsOf(ms)| ==> SymptomsOf(ms)[i].name != SymptomsOf(ms)[j].name
  {
    NamesDistinct(ms);
    if ms != [] {
      var init, a := ms[..|ms| - 1], ms[|ms| - 1];
      SymptomsCountEverything(init);
      CountLast(init, a);
      assert init + [a] == ms;
    }
  }

  lemma NamesDistinct(ms: seq<Alert>)
    ensures forall i, j :: 0 <= i < j < |SymptomsOf(ms)| ==> SymptomsOf(ms)[i].name != SymptomsOf(ms)[j].name
  {
    OrderHasEveryKey(ms, NameOf());
  }

  lemma CountLast(init: seq<Alert>, a: Alert)
    ensures TotalCount(SymptomsOf(init + [a])) == TotalCount(SymptomsOf(init)) + a.occurrences
  {
    var names, before := Order(init, NameOf()), SymptomsOf(init);
    var seen := map n | n in names :: PlaceIn(names, n);
    CountOne(init, a, seen);
    if a.symptom in seen {
      TotalCounted(before, seen[a.symptom], a);
    } else {
      assert (before + [Symptom(a.symptom, a.occurrences, a.severity)])[..|before|] == before;
    }
  }

  function PlaceIn(names: seq<string>, n: string): (i: nat)
    requires n in names
    ensures i < |names| && names[i] == n
  {
    if names[|names| - 1] == n then |names| - 1 else PlaceIn(names[..|names| - 1], n)
  }
}

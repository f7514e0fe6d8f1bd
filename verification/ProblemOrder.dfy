/**
 The order of the listed problems: worst first, then newest first. What is left to the walk over the map of
 restaurants, which Go does in any order.
 */
module ProblemOrder {
  import opened Wrappers
  import opened Grouping
  import opened StableSort
  import opened ProblemFold
  import AlertFold
  import opened OutageMeaning

  /** As bad: both critical, both only information, or both in between. */
  predicate AsBad(p: Problem, q: Problem) {
    && (p.severity == AlertFold.Critical <==> q.severity == AlertFold.Critical)
    && (p.severity == AlertFold.Info <==> q.severity == AlertFold.Info)
  }

  /** A problem is listed before none that is worse, and before none as bad that is newer. */
  predicate MayPrecede(p: Problem, q: Problem) {
    && (q.severity == AlertFold.Critical ==> p.severity == AlertFold.Critical)
    && (p.severity == AlertFold.Info ==> q.severity == AlertFold.Info)
    && (AsBad(p, q) ==> p.since >= q.since)
  }

  lemma InOrder(ps: seq<Problem>)
    requires Sorted(ps, PlaceOf())
    ensures forall i, j :: 0 <= i < j < |ps| ==> MayPrecede(ps[i], ps[j])
  {
    forall i, j | 0 <= i < j < |ps| ensures MayPrecede(ps[i], ps[j]) {
      assert !Ahead(PlaceOf()(ps[j]), PlaceOf()(ps[i]));
    }
  }

  /** Worst first, then newest, and nothing but the order of ties depends on the walk. */
  lemma WorstThenNewest(active: seq<Alert>, now: Instant, a: seq<Restaurant>, b: seq<Restaurant>)
    requires OutageWalk(DeviceProblems(active, now), a) && OutageWalk(DeviceProblems(active, now), b)
    ensures forall i, j :: 0 <= i < j < |Problems(active, now, a)| ==>
              MayPrecede(Problems(active, now, a)[i], Problems(active, now, a)[j])
    ensures multiset(Problems(active, now, a)) == multiset(Problems(active, now, b))
  {
    var devs := DeviceProblems(active, now);
    SortIsStable(Unsorted(devs, a), PlaceOf());
    SortIsStable(Unsorted(devs, b), PlaceOf());
    SameOutages(devs, a, b);
    InOrder(Problems(active, now, a));
  }

  lemma SameOutages(devs: seq<Problem>, a: seq<Restaurant>, b: seq<Restaurant>)
    requires OutageWalk(devs, a) && OutageWalk(devs, b)
    ensures multiset(Outages(devs, a)) == multiset(Outages(devs, b))
  {
    OutagesDistinct(devs, a);
    OutagesDistinct(devs, b);
    OutageMembers(devs, a, b);
    OutageMembers(devs, b, a);
    SameElements(Outages(devs, a), Outages(devs, b));
  }

  function OutageAt(devs: seq<Problem>, r: Restaurant): Problem {
    OutageProblem(r, OfflineTogether(devs, r))
  }

  /** The outages of two restaurants are as bad as each other and as new. */
  predicate Level(devs: seq<Problem>, r: Restaurant, q: Restaurant) {
    PlaceOf()(OutageAt(devs, r)) == PlaceOf()(OutageAt(devs, q))
  }

  predicate Tie(devs: seq<Problem>, rests: seq<Restaurant>) {
    exists i, j :: 0 <= i < j < |rests| && Level(devs, rests[i], rests[j])
  }

  lemma TieOf(devs: seq<Problem>, rests: seq<Restaurant>, r: Restaurant, q: Restaurant)
    requires r in rests && q in rests && r != q && Level(devs, r, q)
    ensures Tie(devs, rests)
  {
    var i :| 0 <= i < |rests| && rests[i] == r;
    var j :| 0 <= j < |rests| && rests[j] == q;
    LevelBothWays(devs, r, q);
    if i < j {
      assert Level(devs, rests[i], rests[j]);
    } else {
      assert Level(devs, rests[j], rests[i]);
    }
  }

  lemma LevelBothWays(devs: seq<Problem>, r: Restaurant, q: Restaurant)
    ensures Level(devs, r, q) == Level(devs, q, r)
  {}

  lemma OutagesDistinct(devs: seq<Problem>, rests: seq<Restaurant>)
    requires Distinct(rests)
    ensures Distinct(Outages(devs, rests))
  {
    var out := Outages(devs, rests);
    forall i, j | 0 <= i < j < |out| ensures out[i] != out[j] {
      assert out[i].restaurant == Some(rests[i]) && out[j].restaurant == Some(rests[j]);
    }
  }

  /** Without ties at most one outage stands at a place. */
  lemma AtMostOne(devs: seq<Problem>, rests: seq<Restaurant>, c: Place)
    requires Distinct(rests) && !Tie(devs, rests)
    ensures |Keep(Outages(devs, rests), InPlace(PlaceOf(), c))| <= 1
  {
    var out := Outages(devs, rests);
    var kept := Keep(out, InPlace(PlaceOf(), c));
    OutagesDistinct(devs, rests);
    KeepMembers(out, InPlace(PlaceOf(), c));
    if |kept| > 1 {
      var p, q := kept[0], kept[1];
      assert p in kept && q in kept && p != q;
      BothInPlace(devs, rests, c, p, q);
    }
  }

  lemma BothInPlace(devs: seq<Problem>, rests: seq<Restaurant>, c: Place, p: Problem, q: Problem)
    requires p in Outages(devs, rests) && q in Outages(devs, rests) && p != q
    requires PlaceOf()(p) == c == PlaceOf()(q)
    ensures Tie(devs, rests)
  {
    var r := WhoseOutage(devs, rests, p);
    var s := WhoseOutage(devs, rests, q);
    TieOf(devs, rests, r, s);
  }

  lemma WhoseOutage(devs: seq<Problem>, rests: seq<Restaurant>, p: Problem) returns (r: Restaurant)
    requires p in Outages(devs, rests)
    ensures r in rests && p == OutageAt(devs, r)
  {
    var i :| 0 <= i < |rests| && p == Outages(devs, rests)[i];
    r := rests[i];
  }

  lemma OutageMembers(devs: seq<Problem>, a: seq<Restaurant>, b: seq<Restaurant>)
    requires forall r :: r in a ==> r in b
    ensures forall p <- Outages(devs, a) :: p in Outages(devs, b)
  {
    forall i | 0 <= i < |a| ensures Outages(devs, a)[i] in Outages(devs, b) {
      assert a[i] in a;
      var j :| 0 <= j < |b| && b[j] == a[i];
      assert Outages(devs, b)[j] == Outages(devs, a)[i];
    }
  }

  lemma SameOutageTies(devs: seq<Problem>, a: seq<Restaurant>, b: seq<Restaurant>, c: Place)
    requires OutageWalk(devs, a) && OutageWalk(devs, b) && !Tie(devs, a) && !Tie(devs, b)
    ensures Keep(Unsorted(devs, a), InPlace(PlaceOf(), c)) == Keep(Unsorted(devs, b), InPlace(PlaceOf(), c))
  {
    var singles, test := Group(devs, OutageOf(devs), None), InPlace(PlaceOf(), c);
    AtMostOne(devs, a, c);
    AtMostOne(devs, b, c);
    OutageMembers(devs, a, b);
    OutageMembers(devs, b, a);
    KeepMembers(Outages(devs, a), test);
    KeepMembers(Outages(devs, b), test);
    OneOrNone(Keep(Outages(devs, a), test), Keep(Outages(devs, b), test));
    KeepConcat(Outages(devs, a), singles, test);
    KeepConcat(Outages(devs, b), singles, test);
  }

  /** Without ties between outages every walk gives the same list. */
  lemma NoTieOneOrder(active: seq<Alert>, now: Instant, a: seq<Restaurant>, b: seq<Restaurant>)
    requires OutageWalk(DeviceProblems(active, now), a) && OutageWalk(DeviceProblems(active, now), b)
    requires !Tie(DeviceProblems(active, now), a) && !Tie(DeviceProblems(active, now), b)
    ensures Problems(active, now, a) == Problems(active, now, b)
  {
    var devs := DeviceProblems(active, now);
    SortIsStable(Unsorted(devs, a), PlaceOf());
    SortIsStable(Unsorted(devs, b), PlaceOf());
    var x, y := Problems(active, now, a), Problems(active, now, b);
    forall c ensures Keep(x, InPlace(PlaceOf(), c)) == Keep(y, InPlace(PlaceOf(), c)) {
      SameOutageTies(devs, a, b, c);
      SortedTies(devs, a, c);
      SortedTies(devs, b, c);
    }
    OneStableOrder(x, y, PlaceOf());
  }

  function Swapped(a: seq<Restaurant>, i: nat, j: nat): seq<Restaurant>
    requires i < j < |a|
  {
    a[i := a[j]][j := a[i]]
  }

  lemma SwappedWalk(devs: seq<Problem>, a: seq<Restaurant>, i: nat, j: nat)
    requires OutageWalk(devs, a) && i < j < |a|
    ensures OutageWalk(devs, Swapped(a, i, j))
    ensures var b := Swapped(a, i, j); b[..i] == a[..i] && b[i] == a[j] != a[i]
  {
    var b := Swapped(a, i, j);
    forall r ensures r in b <==> r in a {
      if r in a {
        var k :| 0 <= k < |a| && a[k] == r;
        assert b[if k == i then j else if k == j then i else k] == r;
      }
    }
  }

  /** A tie shows: another walk lists the two the other way round. */
  lemma TieShows(devs: seq<Problem>, a: seq<Restaurant>) returns (b: seq<Restaurant>)
    requires OutageWalk(devs, a) && Tie(devs, a)
    ensures OutageWalk(devs, b) && ListedFor(devs, a) != ListedFor(devs, b)
  {
    var i, j := TiedPlaces(devs, a);
    b := Swapped(a, i, j);
    SwappedWalk(devs, a, i, j);
    DifferAt(devs, a, b, i);
  }

  lemma TiedPlaces(devs: seq<Problem>, rests: seq<Restaurant>) returns (i: nat, j: nat)
    requires Tie(devs, rests)
    ensures i < j < |rests| && Level(devs, rests[i], rests[j])
  {
    i, j :| 0 <= i < j < |rests| && Level(devs, rests[i], rests[j]);
  }

  /** Walks that first differ in two level outages list them the other way round. */
  lemma DifferAt(devs: seq<Problem>, a: seq<Restaurant>, b: seq<Restaurant>, i: nat)
    requires i < |a| && i < |b| && a[..i] == b[..i] && a[i] != b[i] && Level(devs, a[i], b[i])
    ensures ListedFor(devs, a) != ListedFor(devs, b)
  {
    var x, y := OutageAt(devs, a[i]), OutageAt(devs, b[i]);
    assert x.restaurant == Some(a[i]) && y.restaurant == Some(b[i]);
    SplitAt(devs, a, i);
    SplitAt(devs, b, i);
    FirstDifferenceShows(Outages(devs, a[..i]), x, After(devs, a, i), y, After(devs, b, i), PlaceOf());
    SortedTies(devs, a, PlaceOf()(x));
    SortedTies(devs, b, PlaceOf()(x));
  }

  function After(devs: seq<Problem>, rests: seq<Restaurant>, i: nat): seq<Problem>
    requires i < |rests|
  {
    Outages(devs, rests[i + 1..]) + Group(devs, OutageOf(devs), None)
  }

  lemma SplitAt(devs: seq<Problem>, rests: seq<Restaurant>, i: nat)
    requires i < |rests|
    ensures Unsorted(devs, rests) == Outages(devs, rests[..i]) + [OutageAt(devs, rests[i])] + After(devs, rests, i)
  {}

  lemma SortedTies(devs: seq<Problem>, rests: seq<Restaurant>, c: Place)
    ensures Keep(ListedFor(devs, rests), InPlace(PlaceOf(), c))
         == Keep(Unsorted(devs, rests), InPlace(PlaceOf(), c))
  {
    SortIsStable(Unsorted(devs, rests), PlaceOf());
  }

  /** The list is the same for every walk exactly when no two outages tie. */
  lemma WalkShowsIff(active: seq<Alert>, now: Instant, a: seq<Restaurant>)
    requires OutageWalk(DeviceProblems(active, now), a)
    ensures !Tie(DeviceProblems(active, now), a) <==>
              forall b :: OutageWalk(DeviceProblems(active, now), b) ==>
                            Problems(active, now, a) == Problems(active, now, b)
  {
    var devs := DeviceProblems(active, now);
    if Tie(devs, a) {
      var b := TieShows(devs, a);
    } else {
      forall b | OutageWalk(devs, b) ensures Problems(active, now, a) == Problems(active, now, b) {
        if Tie(devs, b) { TieInBoth(devs, b, a); }
        NoTieOneOrder(active, now, a, b);
      }
    }
  }

  lemma TieInBoth(devs: seq<Problem>, a: seq<Restaurant>, b: seq<Restaurant>)
    requires OutageWalk(devs, a) && OutageWalk(devs, b) && Tie(devs, a)
    ensures Tie(devs, b)
  {
    var i, j := TiedPlaces(devs, a);
    assert a[i] in a && a[j] in a;
    TieOf(devs, b, a[i], a[j]);
  }

  // ── It happens ─────────────────────────────────────────────────────────────

  function DownAt(device: AlertFold.Device, r: Restaurant): Alert {
    Alert(device, Some(device), "serial", AlertFold.Offline, AlertFold.Critical, 1, false, None, Some(r), "", false,
          "offline", 1)
  }

  function DownTogether(d: AlertFold.Device, r: Restaurant): seq<Alert> {
    [DownAt(d, r), DownAt(d + 1, r)]
  }

  /** Two restaurants each lose two devices at one moment: their outages tie, and the walk shows. */
  lemma TieHappens(now: Instant) returns (b: seq<Restaurant>)
    ensures var active := DownTogether(1, 1) + DownTogether(3, 2);
            && OutageWalk(DeviceProblems(active, now), [1, 2])
            && OutageWalk(DeviceProblems(active, now), b)
            && Problems(active, now, [1, 2]) != Problems(active, now, b)
  {
    var active := DownTogether(1, 1) + DownTogether(3, 2);
    SeparateDevices(active, now);
    EachConcat(DownTogether(1, 1), DownTogether(3, 2), LoneProblem(now));
    TwoOutages(Each(DownTogether(1, 1), LoneProblem(now)), Each(DownTogether(3, 2), LoneProblem(now)), now);
    b := TieShows(DeviceProblems(active, now), [1, 2]);
  }

  lemma TwoOutages(l: seq<Problem>, m: seq<Problem>, now: Instant)
    requires l == Each(DownTogether(1, 1), LoneProblem(now)) && m == Each(DownTogether(3, 2), LoneProblem(now))
    ensures OutageWalk(l + m, [1, 2]) && Tie(l + m, [1, 2])
  {
    forall x: Restaurant ensures OfflineTogether(l + m, x) == if x == 1 then l else if x == 2 then m else [] {
      GroupConcat(l, m, RestOf(), Some(x));
      DownTogetherAt(1, 1, x, now);
      DownTogetherAt(3, 2, x, now);
    }
    assert |l| == |m| == 2;
    PlaceOfTwo(1, 1, now);
    PlaceOfTwo(3, 2, now);
    assert Level(l + m, [1, 2][0], [1, 2][1]);
  }

  /** Two such devices are folded into their restaurant's outage and into no other. */
  lemma DownTogetherAt(d: AlertFold.Device, r: Restaurant, x: Restaurant, now: Instant)
    ensures var ps := Each(DownTogether(d, r), LoneProblem(now));
            Group(ps, RestOf(), Some(x)) == if x == r then ps else []
  {
    var a, b := DownAt(d, r), DownAt(d + 1, r);
    EachOfTwo(a, b, LoneProblem(now));
    DownAlone(a, r, now);
    DownAlone(b, r, now);
    OneGroupOfTwo(LoneProblem(now)(a), LoneProblem(now)(b), RestOf(), Some(x));
  }

  lemma PlaceOfTwo(d: AlertFold.Device, r: Restaurant, now: Instant)
    ensures PlaceOf()(OutageProblem(r, Each(DownTogether(d, r), LoneProblem(now)))) == Place(2, 1)
  {
    var a, b := DownAt(d, r), DownAt(d + 1, r);
    EachOfTwo(a, b, LoneProblem(now));
    OneDown(a, now);
    OneDown(b, now);
    WorstOfTwo(LoneProblem(now)(a), LoneProblem(now)(b));
  }

  lemma OneDown(a: Alert, now: Instant)
    requires a.severity == AlertFold.Critical && a.firedAt == 1
    ensures var p := LoneProblem(now)(a); p.severity == AlertFold.Critical && p.since == 1
  {
    var ms := [a];
    assert LoneProblem(now)(a) == DeviceProblem(KeyOf()(a), ms, now);
    assert ms[..0] == [] && AlertFold.Worst(AlertFold.Info, ms[..0], SeverityOf()) == AlertFold.Info;
    assert First(ms[..0], FiredAt()) == 0;
  }

  lemma WorstOfTwo(p: Problem, q: Problem)
    requires p.severity == AlertFold.Critical == q.severity && p.since == 1 == q.since
    ensures AlertFold.Worst(AlertFold.Info, [p, q], ProblemSeverity()) == AlertFold.Critical
    ensures First([p, q], ProblemSince()) == 1
  {
    assert [p, q][..1] == [p] && [p][..0] == [];
    assert First([], ProblemSince()) == 0;
    assert AlertFold.Worst(AlertFold.Info, [], ProblemSeverity()) == AlertFold.Info;
    assert First([p], ProblemSince()) == 1;
    assert AlertFold.Worst(AlertFold.Info, [p], ProblemSeverity()) == AlertFold.Critical;
  }
}

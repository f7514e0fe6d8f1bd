/**
 Which devices' problems are folded into a restaurant's outage, of internal/dashboard/alert_problems.go, and
 which alerts are one device's, on the alerts themselves.
 */
module OutageFolds {
  import opened Wrappers
  import opened Grouping
  import opened ProblemFold
  import opened OutageMeaning
  import AlertFold
  import StableSort

  // ── One device ─────────────────────────────────────────────────────────────

  /** Alerts of one device: its id says so, or without one its serial. */
  predicate OneDevice(a: Alert, b: Alert) {
    if a.device.Some? || b.device.Some? then a.device == b.device
    else if a.serial != "" || b.serial != "" then a.serial == b.serial
    else a.id == b.id
  }

  /** Two active alerts are members of one device problem exactly when they are one device's. */
  lemma OneProblemIff(active: seq<Alert>, now: Instant, a: Alert, b: Alert)
    requires a in active && b in active
    ensures (exists p <- DeviceProblems(active, now) :: a in p.members && b in p.members) <==> OneDevice(a, b)
  {
    var devs := DeviceProblems(active, now);
    assert KeyOf()(a) == KeyOf()(b) <==> OneDevice(a, b);
    if p :| p in devs && a in p.members && b in p.members {
      MembersShareKey(active, now, p, a);
      MembersShareKey(active, now, p, b);
    }
    if KeyOf()(a) == KeyOf()(b) {
      var p := ProblemHolding(active, now, a);
      GroupHasItsMembers(active, KeyOf(), KeyOf()(a));
    }
  }

  lemma MembersShareKey(active: seq<Alert>, now: Instant, p: Problem, a: Alert)
    requires p in DeviceProblems(active, now) && a in p.members
    ensures p.keys == [KeyOf()(a)]
  {
    var order := Order(active, KeyOf());
    var i :| 0 <= i < |order| && p == ProblemFor(active, order[i], now);
    GroupHasItsMembers(active, KeyOf(), order[i]);
  }

  lemma ProblemHolding(active: seq<Alert>, now: Instant, a: Alert) returns (p: Problem)
    requires a in active
    ensures p in DeviceProblems(active, now) && p.members == Group(active, KeyOf(), KeyOf()(a))
  {
    var order := Order(active, KeyOf());
    OrderHasEveryKey(active, KeyOf());
    assert KeyOf()(a) in order;
    var i :| 0 <= i < |order| && order[i] == KeyOf()(a);
    p := ProblemFor(active, order[i], now);
    assert DeviceProblems(active, now)[i] == p;
  }

  // ── One restaurant ─────────────────────────────────────────────────────────

  /** The device went offline at the restaurant, and not all of its alerts are muted. */
  predicate OfflineAt(p: Problem, r: Restaurant, now: Instant) {
    && p.cause == AlertFold.OfflineCause && p.restaurant == Some(r)
    && exists a <- p.members :: a.mutedUntil.None? || a.mutedUntil.value < now
  }

  /** Which device a problem is about. */
  lemma DeviceAt(active: seq<Alert>, now: Instant, p: Problem) returns (i: nat)
    requires p in DeviceProblems(active, now)
    ensures i < |Order(active, KeyOf())| && p.keys == [Order(active, KeyOf())[i]]
    ensures p == ProblemFor(active, Order(active, KeyOf())[i], now)
  {
    i :| 0 <= i < |Order(active, KeyOf())| && p == DeviceProblems(active, now)[i];
  }

  lemma KeysApart(active: seq<Alert>, now: Instant, p: Problem, q: Problem)
    requires p in DeviceProblems(active, now) && q in DeviceProblems(active, now)
    ensures |p.keys| == 1 == |q.keys| && (p.keys[0] == q.keys[0] <==> p == q)
  {
    var i := DeviceAt(active, now, p);
    var j := DeviceAt(active, now, q);
  }

  lemma TogetherIff(active: seq<Alert>, now: Instant, r: Restaurant, p: Problem)
    requires p in DeviceProblems(active, now)
    ensures p in OfflineTogether(DeviceProblems(active, now), r) <==> OfflineAt(p, r, now)
  {
    AllOfDevices(active, now);
    GroupHasItsMembers(DeviceProblems(active, now), RestOf(), Some(r));
    assert p.snoozed <==> forall a <- p.members :: Muted(a, now);
  }

  lemma TwoAreMany<T>(xs: seq<T>, x: T, y: T)
    requires x in xs && y in xs && x != y
    ensures |xs| >= 2
  {}

  lemma {:induction false} KeysPooled(ps: seq<Problem>, k: Key)
    ensures k in Pool(ps, ProblemKeys()) <==> exists p <- ps :: k in p.keys
  {
    if ps != [] {
      var init, p := ps[..|ps| - 1], ps[|ps| - 1];
      KeysPooled(init, k);
      assert forall x :: x in ps <==> x in init || x == p;
      assert Pool(ps, ProblemKeys()) == Pool(init, ProblemKeys()) + p.keys;
    }
  }

  /** A list of device problems holds the key of a device exactly when it lists the device. */
  lemma HoldsIff(active: seq<Alert>, now: Instant, ps: seq<Problem>, p: Problem)
    requires p in DeviceProblems(active, now) && forall q <- ps :: q in DeviceProblems(active, now)
    ensures |p.keys| == 1 && (p.keys[0] in Pool(ps, ProblemKeys()) <==> p in ps)
  {
    KeysApart(active, now, p, p);
    KeysPooled(ps, p.keys[0]);
    forall q | q in ps && p.keys[0] in q.keys ensures q == p {
      KeysApart(active, now, p, q);
    }
  }

  /** An outage holds the key of a device exactly when that device went offline at its restaurant. */
  lemma OutageHolds(active: seq<Alert>, now: Instant, r: Restaurant, p: Problem)
    requires p in DeviceProblems(active, now)
    ensures |p.keys| == 1
    ensures p.keys[0] in OutageProblem(r, OfflineTogether(DeviceProblems(active, now), r)).keys
       <==> OfflineAt(p, r, now)
  {
    GroupHasItsMembers(DeviceProblems(active, now), RestOf(), Some(r));
    HoldsIff(active, now, OfflineTogether(DeviceProblems(active, now), r), p);
    TogetherIff(active, now, r, p);
  }

  /** Two devices that went offline at one restaurant. */
  predicate OfflinePair(active: seq<Alert>, now: Instant, p: Problem, q: Problem, r: Restaurant) {
    && p in DeviceProblems(active, now) && q in DeviceProblems(active, now) && p.keys != q.keys
    && OfflineAt(p, r, now) && OfflineAt(q, r, now)
  }

  lemma PairIsOutage(active: seq<Alert>, now: Instant, p: Problem, q: Problem, r: Restaurant)
    requires OfflinePair(active, now, p, q, r)
    ensures |OfflineTogether(DeviceProblems(active, now), r)| >= 2
    ensures OutageOf(DeviceProblems(active, now))(p) == Some(r)
    ensures forall k <- p.keys + q.keys ::
              k in OutageProblem(r, OfflineTogether(DeviceProblems(active, now), r)).keys
  {
    TogetherIff(active, now, r, p);
    TogetherIff(active, now, r, q);
    TwoAreMany(OfflineTogether(DeviceProblems(active, now), r), p, q);
    GroupHasItsMembers(DeviceProblems(active, now), RestOf(), Some(r));
    OutageHolds(active, now, r, p);
    OutageHolds(active, now, r, q);
    assert p.keys + q.keys == [p.keys[0], q.keys[0]];
  }

  /** Such devices must be folded: whatever is listed under the key of one is that restaurant's outage and
      holds the other too. */
  lemma MustBeFolded(active: seq<Alert>, now: Instant, rests: seq<Restaurant>, p: Problem, q: Problem, r: Restaurant,
                     o: Problem)
    requires OutageWalk(DeviceProblems(active, now), rests) && OfflinePair(active, now, p, q, r)
    requires o in Problems(active, now, rests) && exists k <- p.keys :: k in o.keys
    ensures o.outage && o.restaurant == Some(r) && forall k <- p.keys + q.keys :: k in o.keys
  {
    PairIsOutage(active, now, p, q, r);
    InUnsorted(DeviceProblems(active, now), rests, o);
    if o in Outages(DeviceProblems(active, now), rests) {
      HeldByOwn(active, now, rests, p, r, o);
    } else {
      NotLeftAlone(active, now, p, o);
    }
  }

  lemma NotLeftAlone(active: seq<Alert>, now: Instant, p: Problem, o: Problem)
    requires p in DeviceProblems(active, now) && OutageOf(DeviceProblems(active, now))(p).Some?
    requires o in Group(DeviceProblems(active, now), OutageOf(DeviceProblems(active, now)), None)
    ensures forall k <- p.keys :: k !in o.keys
  {
    GroupHasItsMembers(DeviceProblems(active, now), OutageOf(DeviceProblems(active, now)), None);
    KeysApart(active, now, p, o);
  }

  lemma HeldByOwn(active: seq<Alert>, now: Instant, rests: seq<Restaurant>, p: Problem, r: Restaurant, o: Problem)
    requires p in DeviceProblems(active, now) && OfflineAt(p, r, now)
    requires o in Outages(DeviceProblems(active, now), rests) && exists k <- p.keys :: k in o.keys
    ensures o == OutageProblem(r, OfflineTogether(DeviceProblems(active, now), r))
  {
    var devs := DeviceProblems(active, now);
    var i :| 0 <= i < |rests| && o == Outages(devs, rests)[i];
    OutageHolds(active, now, rests[i], p);
  }

  /** And that outage is listed. */
  lemma OutageIsListed(active: seq<Alert>, now: Instant, rests: seq<Restaurant>, p: Problem, q: Problem, r: Restaurant)
    requires OutageWalk(DeviceProblems(active, now), rests) && OfflinePair(active, now, p, q, r)
    ensures exists o <- Problems(active, now, rests) ::
              o.outage && o.restaurant == Some(r) && forall k <- p.keys + q.keys :: k in o.keys
  {
    PairIsOutage(active, now, p, q, r);
    ListsOutage(DeviceProblems(active, now), rests, r);
  }

  lemma ListsOutage(devs: seq<Problem>, rests: seq<Restaurant>, r: Restaurant)
    requires OutageWalk(devs, rests) && |OfflineTogether(devs, r)| >= 2
    ensures OutageProblem(r, OfflineTogether(devs, r)) in ListedFor(devs, rests)
  {
    var i :| 0 <= i < |rests| && rests[i] == r;
    assert Outages(devs, rests)[i] in Unsorted(devs, rests);
    StableSort.SortIsStable(Unsorted(devs, rests), PlaceOf());
    assert Outages(devs, rests)[i] in multiset(Unsorted(devs, rests));
  }

  /** A device is in a listed outage exactly when another went offline at its restaurant with it. */
  lemma FoldedIff(active: seq<Alert>, now: Instant, rests: seq<Restaurant>, p: Problem)
    requires OutageWalk(DeviceProblems(active, now), rests) && p in DeviceProblems(active, now)
    ensures (exists o <- Problems(active, now, rests) :: o.outage && exists k <- p.keys :: k in o.keys)
       <==> exists r, q :: OfflinePair(active, now, p, q, r)
  {
    KeysApart(active, now, p, p);
    if o :| o in Problems(active, now, rests) && o.outage && exists k <- p.keys :: k in o.keys {
      FoldedWithAnother(active, now, rests, p, o);
    }
    if r, q :| OfflinePair(active, now, p, q, r) {
      OutageIsListed(active, now, rests, p, q, r);
      var o :| o in Problems(active, now, rests) && o.outage && forall k <- p.keys + q.keys :: k in o.keys;
      assert p.keys[0] in p.keys + q.keys;
    }
  }

  lemma FoldedWithAnother(active: seq<Alert>, now: Instant, rests: seq<Restaurant>, p: Problem, o: Problem)
    requires OutageWalk(DeviceProblems(active, now), rests) && p in DeviceProblems(active, now)
    requires o in Problems(active, now, rests) && o.outage && exists k <- p.keys :: k in o.keys
    ensures exists r, q :: OfflinePair(active, now, p, q, r)
  {
    EachProblem(active, now, rests, o);
    OutageHolds(active, now, o.restaurant.value, p);
    var q := AnotherOffline(active, now, o.restaurant.value, p);
    assert OfflinePair(active, now, p, q, o.restaurant.value);
  }

  lemma AnotherOffline(active: seq<Alert>, now: Instant, r: Restaurant, p: Problem) returns (q: Problem)
    requires p in DeviceProblems(active, now) && |OfflineTogether(DeviceProblems(active, now), r)| >= 2
    ensures q in DeviceProblems(active, now) && q.keys != p.keys && OfflineAt(q, r, now)
  {
    var devs := DeviceProblems(active, now);
    var ps := OfflineTogether(devs, r);
    DevicesDistinct(active, now);
    GroupDistinct(devs, RestOf(), Some(r));
    q := if ps[0] == p then ps[1] else ps[0];
    assert q in ps && q != p;
    GroupHasItsMembers(devs, RestOf(), Some(r));
    TogetherIff(active, now, r, q);
    KeysApart(active, now, p, q);
  }

  lemma DevicesDistinct(active: seq<Alert>, now: Instant)
    ensures Distinct(DeviceProblems(active, now))
  {
    var order, devs := Order(active, KeyOf()), DeviceProblems(active, now);
    OrderHasEveryKey(active, KeyOf());
    forall i, j | 0 <= i < j < |devs| ensures devs[i] != devs[j] {
      assert devs[i].keys == [order[i]] && devs[j].keys == [order[j]];
    }
  }

  lemma {:induction false} GroupDistinct<T, K>(xs: seq<T>, key: T -> K, k: K)
    requires Distinct(xs)
    ensures Distinct(Group(xs, key, k))
  {
    if xs != [] {
      var init, last := xs[..|xs| - 1], xs[|xs| - 1];
      GroupDistinct(init, key, k);
      GroupHasItsMembers(init, key, k);
      if key(last) == k { OneMoreDistinct(Group(init, key, k), last); }
    }
  }
}

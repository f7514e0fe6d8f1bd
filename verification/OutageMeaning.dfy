/**
 A restaurant's outage reads as if all its devices' alerts had been folded at once, but for one mark.
 */
module OutageMeaning {
  import opened Wrappers
  import opened Grouping
  import opened StableSort
  import opened ProblemFold
  import AlertFold

  // ── Each summary, over two lists ───────────────────────────────────────────

  lemma {:induction false} WorstFrom<T>(start: Severity, xs: seq<T>, severity: T -> Severity)
    ensures var w := AlertFold.Worst(AlertFold.Info, xs, severity);
            AlertFold.Worst(start, xs, severity) == if AlertFold.Rank(w) > AlertFold.Rank(start) then w else start
  {
    if xs != [] { WorstFrom(start, xs[..|xs| - 1], severity); }
  }

  lemma {:induction false} WorstConcat<T>(a: seq<T>, b: seq<T>, severity: T -> Severity)
    ensures AlertFold.Worst(AlertFold.Info, a + b, severity) ==
              AlertFold.Worst(AlertFold.Worst(AlertFold.Info, a, severity), b, severity)
  {
    if b == [] {
      assert a + b == a;
    } else {
      assert (a + b)[..|a| + |b| - 1] == a + b[..|b| - 1];
      WorstConcat(a, b[..|b| - 1], severity);
    }
  }

  lemma {:induction false} FirstConcat<T>(a: seq<T>, b: seq<T>, at: T -> nat)
    requires b != [] && forall x <- a + b :: at(x) > 0
    ensures var f, g := First(a, at), First(b, at);
            g > 0 && First(a + b, at) == if f == 0 || g < f then g else f
  {
    var init := b[..|b| - 1];
    assert (a + b)[..|a| + |b| - 1] == a + init;
    assert forall x <- a + init :: x in a + b;
    assert b[|b| - 1] in a + b;
    if init == [] {
      assert a + init == a;
    } else {
      FirstConcat(a, init, at);
    }
  }

  lemma {:induction false} TextConcat<T>(a: seq<T>, b: seq<T>, text: T -> string)
    ensures FirstText(a + b, text) == if FirstText(a, text) != "" then FirstText(a, text) else FirstText(b, text)
  {
    if b == [] {
      assert a + b == a;
    } else {
      assert (a + b)[..|a| + |b| - 1] == a + b[..|b| - 1];
      TextConcat(a, b[..|b| - 1], text);
    }
  }

  // ── Folding the folds ──────────────────────────────────────────────────────

  /** A device problem, made of the alerts it lists. */
  predicate OfDevice(p: Problem, now: Instant) {
    |p.keys| == 1 && p.members != [] && p == DeviceProblem(p.keys[0], p.members, now)
  }

  function MembersOf(ps: seq<Problem>): seq<Alert> {
    Pool(ps, ProblemMembers())
  }

  lemma {:induction false} SeverityOfAll(ps: seq<Problem>, now: Instant)
    requires forall p <- ps :: OfDevice(p, now)
    ensures AlertFold.Worst(AlertFold.Info, ps, ProblemSeverity()) ==
              AlertFold.Worst(AlertFold.Info, MembersOf(ps), SeverityOf())
  {
    if ps != [] {
      var init, p := ps[..|ps| - 1], ps[|ps| - 1];
      assert p in ps && forall x <- init :: x in ps;
      SeverityOfAll(init, now);
      WorstConcat(MembersOf(init), p.members, SeverityOf());
      WorstFrom(AlertFold.Worst(AlertFold.Info, MembersOf(init), SeverityOf()), p.members, SeverityOf());
    }
  }

  lemma {:induction false} SinceOfAll(ps: seq<Problem>, now: Instant)
    requires forall p <- ps :: OfDevice(p, now)
    ensures First(ps, ProblemSince()) == First(MembersOf(ps), FiredAt())
  {
    if ps != [] {
      var init, p := ps[..|ps| - 1], ps[|ps| - 1];
      assert p in ps && forall x <- init :: x in ps;
      SinceOfAll(init, now);
      assert forall a: Alert :: FiredAt()(a) > 0;
      FirstConcat(MembersOf(init), p.members, FiredAt());
    }
  }

  lemma {:induction false} NoteOfAll(ps: seq<Problem>, now: Instant)
    requires forall p <- ps :: OfDevice(p, now)
    ensures FirstText(ps, ProblemNote()) == FirstText(MembersOf(ps), NoteOf())
  {
    if ps != [] {
      var init, p := ps[..|ps| - 1], ps[|ps| - 1];
      assert p in ps && forall x <- init :: x in ps;
      NoteOfAll(init, now);
      TextConcat(MembersOf(init), p.members, NoteOf());
    }
  }

  lemma {:induction false} PoolMembers(ps: seq<Problem>)
    ensures forall a :: a in MembersOf(ps) <==> exists p <- ps :: a in p.members
  {
    if ps != [] {
      var init, p := ps[..|ps| - 1], ps[|ps| - 1];
      PoolMembers(init);
      assert MembersOf(ps) == MembersOf(init) + p.members;
      forall a ensures a in MembersOf(ps) <==> exists q <- ps :: a in q.members {
        assert p in ps && forall x <- ps :: x in init || x == p;
        assert forall x <- init :: x in ps;
        assert a in MembersOf(ps) <==> a in MembersOf(init) || a in p.members;
      }
    }
  }

  /** Only "critical" ranks highest. */
  lemma CriticalIff(ms: seq<Alert>)
    ensures AlertFold.Worst(AlertFold.Info, ms, SeverityOf()) == AlertFold.Critical <==>
              exists a <- ms :: a.severity == AlertFold.Critical
  {
    AlertFold.WorstIsMaximum(AlertFold.Info, ms, SeverityOf());
    assert forall a: Alert :: SeverityOf()(a) == a.severity;
    forall a | a in ms && a.severity == AlertFold.Critical
      ensures AlertFold.Worst(AlertFold.Info, ms, SeverityOf()) == AlertFold.Critical
    {
      assert AlertFold.Rank(SeverityOf()(a)) == 2;
    }
  }

  lemma LateOfAll(ps: seq<Problem>, now: Instant)
    requires forall p <- ps :: OfDevice(p, now)
    requires AlertFold.Worst(AlertFold.Info, MembersOf(ps), SeverityOf()) != AlertFold.Critical
    ensures (exists p <- ps :: p.afterHours) <==> exists a <- MembersOf(ps) :: a.afterHours
  {
    PoolMembers(ps);
    CriticalIff(MembersOf(ps));
    forall p | p in ps ensures p.afterHours <==> exists a <- p.members :: a.afterHours {
      CriticalIff(p.members);
    }
  }

  /** The outage is what one fold over all its devices' alerts would give: the worst severity (the first
      that bad), the earliest time, the first note, acknowledged only when every alert is, held back
      overnight only when nothing is critical and something is. */
  lemma OutageReadsAsOneFold(r: Restaurant, ps: seq<Problem>, now: Instant)
    requires forall p <- ps :: OfDevice(p, now)
    ensures var o, ms := OutageProblem(r, ps), MembersOf(ps);
            && o.members == ms
            && o.severity == AlertFold.Worst(AlertFold.Info, ms, SeverityOf())
            && o.since == First(ms, FiredAt())
            && o.note == FirstText(ms, NoteOf())
            && (o.acked <==> forall a <- ms :: a.acknowledged)
            && (o.afterHours <==> o.severity != AlertFold.Critical && exists a <- ms :: a.afterHours)
  {
    SeverityOfAll(ps, now);
    SinceOfAll(ps, now);
    NoteOfAll(ps, now);
    PoolMembers(ps);
    if AlertFold.Worst(AlertFold.Info, MembersOf(ps), SeverityOf()) != AlertFold.Critical {
      LateOfAll(ps, now);
    }
  }

  predicate Untouched(p: Problem) {
    forall a <- p.members :: !a.acknowledged
  }

  /** The marks of a device problem, in terms of its alerts. */
  predicate Marked(p: Problem) {
    && p.members != []
    && (p.acked <==> forall a <- p.members :: a.acknowledged)
    && (p.newSymptom <==> Mixed(p.members))
  }

  lemma WhoseAlert(ps: seq<Problem>, a: Alert) returns (p: Problem)
    requires a in MembersOf(ps)
    ensures p in ps && a in p.members
  {
    PoolMembers(ps);
    p :| p in ps && a in p.members;
  }

  lemma FirstAlert(ps: seq<Problem>, p: Problem) returns (a: Alert)
    requires p in ps && p.members != []
    ensures a in MembersOf(ps) && a in p.members
  {
    PoolMembers(ps);
    a := p.members[0];
  }

  lemma WithoutMixtures(ps: seq<Problem>)
    requires forall p <- ps :: Marked(p) && !p.newSymptom
    ensures Mixed(MembersOf(ps)) <==> (exists p <- ps :: p.acked) && (exists p <- ps :: Untouched(p))
  {
    if Mixed(MembersOf(ps)) {
      var a :| a in MembersOf(ps) && a.acknowledged;
      var p := WhoseAlert(ps, a);
      assert p.acked;
      var b :| b in MembersOf(ps) && !b.acknowledged;
      var q := WhoseAlert(ps, b);
      assert Untouched(q);
    } else if (exists p <- ps :: p.acked) && (exists p <- ps :: Untouched(p)) {
      var p :| p in ps && p.acked;
      var q :| q in ps && Untouched(q);
      var a := FirstAlert(ps, p);
      var b := FirstAlert(ps, q);
    }
  }

  /** The one mark that differs: an outage with both acknowledged and open alerts fails to be marked as
      having something new exactly when no single device mixes them, one is wholly acknowledged and another
      wholly open: a device that dropped after the others were acknowledged does not count. */
  lemma NewSymptomMissedIff(r: Restaurant, ps: seq<Problem>, now: Instant)
    requires forall p <- ps :: OfDevice(p, now)
    ensures Mixed(MembersOf(ps)) && !OutageProblem(r, ps).newSymptom <==>
              && (forall p <- ps :: !p.newSymptom)
              && (exists p <- ps :: p.acked)
              && (exists p <- ps :: Untouched(p))
  {
    assert OutageProblem(r, ps).newSymptom <==> exists p <- ps :: p.newSymptom;
    if forall p <- ps :: !p.newSymptom {
      assert forall p <- ps :: OfDevice(p, now) ==> Marked(p);
      WithoutMixtures(ps);
    }
  }

  // ── The list ───────────────────────────────────────────────────────────────

  lemma AllOfDevices(active: seq<Alert>, now: Instant)
    ensures forall p <- DeviceProblems(active, now) :: OfDevice(p, now) && !p.outage
  {
    var order := Order(active, KeyOf());
    forall i | 0 <= i < |order| ensures OfDevice(ProblemFor(active, order[i], now), now) {
      GroupEmptyIff(active, KeyOf(), order[i]);
    }
  }

  /** A restaurant's outage: its devices that are offline and not snoozed, at least two. */
  predicate IsOutage(devs: seq<Problem>, now: Instant, p: Problem) {
    && p.restaurant.Some?
    && var ps := OfflineTogether(devs, p.restaurant.value);
    && |ps| >= 2
    && p == OutageProblem(p.restaurant.value, ps)
    && forall d <- ps :: OfDevice(d, now) && d.cause == AlertFold.OfflineCause && !d.snoozed
                         && d.restaurant == p.restaurant
  }

  lemma OutageIsOutage(devs: seq<Problem>, now: Instant, r: Restaurant)
    requires |OfflineTogether(devs, r)| >= 2 && forall d <- devs :: OfDevice(d, now)
    ensures IsOutage(devs, now, OutageProblem(r, OfflineTogether(devs, r)))
  {
    GroupHasItsMembers(devs, RestOf(), Some(r));
  }

  /** Each listed problem is either the outage of a restaurant, or one device's that is in no outage. */
  lemma EachProblem(active: seq<Alert>, now: Instant, rests: seq<Restaurant>, p: Problem)
    requires OutageWalk(DeviceProblems(active, now), rests) && p in Problems(active, now, rests)
    ensures if p.outage then IsOutage(DeviceProblems(active, now), now, p)
            else OfDevice(p, now) && OutageOf(DeviceProblems(active, now))(p) == None
  {
    var devs := DeviceProblems(active, now);
    AllOfDevices(active, now);
    InUnsorted(devs, rests, p);
    if p in Outages(devs, rests) {
      ListedOutage(devs, now, rests, p);
    } else {
      GroupHasItsMembers(devs, OutageOf(devs), None);
    }
  }

  lemma ListedOutage(devs: seq<Problem>, now: Instant, rests: seq<Restaurant>, p: Problem)
    requires OutageWalk(devs, rests) && p in Outages(devs, rests) && forall d <- devs :: OfDevice(d, now)
    ensures p.outage && IsOutage(devs, now, p)
  {
    var i :| 0 <= i < |rests| && p == OutageProblem(rests[i], OfflineTogether(devs, rests[i]));
    assert rests[i] in rests;
    OutageIsOutage(devs, now, rests[i]);
  }

  lemma InUnsorted(devs: seq<Problem>, rests: seq<Restaurant>, p: Problem)
    requires p in ListedFor(devs, rests)
    ensures p in Outages(devs, rests) || p in Group(devs, OutageOf(devs), None)
  {
    SortIsStable(Unsorted(devs, rests), PlaceOf());
    assert p in multiset(Unsorted(devs, rests));
  }

  // ── It happens ─────────────────────────────────────────────────────────────

  /** An alert that its device went offline, at a restaurant, not muted. */
  predicate Down(a: Alert, r: Restaurant) {
    a.device.Some? && a.kind == AlertFold.Offline && a.mutedUntil.None? && a.restaurant == Some(r)
  }

  /** The problem of a device with one alert. */
  function LoneProblem(now: Instant): Alert -> Problem {
    (a: Alert) => DeviceProblem(KeyOf()(a), [a], now)
  }

  lemma OfflineAlone()
    ensures AlertFold.CauseOf({AlertFold.Offline}) == AlertFold.OfflineCause
  {
    assert {AlertFold.Offline} * AlertFold.LOST_TYPES == {} && {AlertFold.Offline} * AlertFold.WIFI_TYPES == {};
    assert AlertFold.Offline in {AlertFold.Offline} * AlertFold.OFFLINE_TYPES;
  }

  lemma DownAlone(a: Alert, r: Restaurant, now: Instant)
    requires Down(a, r)
    ensures var p := LoneProblem(now)(a);
            RestOf()(p) == Some(r) && p.members == [a] && (p.acked <==> a.acknowledged) && !p.newSymptom
  {
    OfflineAlone();
    var ms := [a];
    var p := LoneProblem(now)(a);
    assert p == DeviceProblem(KeyOf()(a), ms, now);
    assert a in ms && !Muted(a, now);
    assert (set x | x in ms :: x.kind) == {a.kind};
  }

  lemma ProblemOfOne(active: seq<Alert>, k: Key, a: Alert, now: Instant)
    requires k in Order(active, KeyOf()) && Group(active, KeyOf(), k) == [a] && KeyOf()(a) == k
    ensures ProblemFor(active, k, now) == LoneProblem(now)(a)
  {}

  /** Alerts of different devices are a problem each. */
  lemma SeparateDevices(active: seq<Alert>, now: Instant)
    requires forall i, j :: 0 <= i < j < |active| ==> KeyOf()(active[i]) != KeyOf()(active[j])
    ensures DeviceProblems(active, now) == Each(active, LoneProblem(now))
  {
    GroupsOfOne(active, KeyOf());
    var ks := Order(active, KeyOf());
    forall i | 0 <= i < |active| ensures ProblemFor(active, ks[i], now) == LoneProblem(now)(active[i]) {
      ProblemOfOne(active, ks[i], active[i], now);
    }
  }

  /** Two device problems of one restaurant are its outage and nothing else. */
  lemma OneOutageOfTwo(p: Problem, q: Problem, r: Restaurant)
    requires RestOf()(p) == Some(r) == RestOf()(q)
    ensures OutageWalk([p, q], [r]) && ListedFor([p, q], [r]) == [OutageProblem(r, [p, q])]
  {
    var devs := [p, q];
    forall x: Restaurant ensures OfflineTogether(devs, x) == if x == r then devs else [] {
      OneGroupOfTwo(p, q, RestOf(), Some(x));
    }
    OneGroupOfTwo(p, q, OutageOf(devs), None);
    assert Unsorted(devs, [r]) == [OutageProblem(r, devs)];
    SortOne(OutageProblem(r, devs), PlaceOf());
  }

  lemma SortOne<T>(x: T, place: T -> Place)
    ensures Sort([x], place) == [x]
  {
    assert [x][..0] == [] && Sort([], place) == [];
  }

  /** One device's alert is acknowledged, then another device of the restaurant drops: the page lists one
      outage of both, acknowledged and open, and does not mark it. */
  lemma NewSymptomMissed(a: Alert, b: Alert, r: Restaurant, now: Instant)
    requires Down(a, r) && Down(b, r) && a.device != b.device && a.acknowledged && !b.acknowledged
    ensures OutageWalk(DeviceProblems([a, b], now), [r])
    ensures var listed := Problems([a, b], now, [r]);
            |listed| == 1 && listed[0].outage && Mixed(listed[0].members) && !listed[0].newSymptom
  {
    var p, q := LoneProblem(now)(a), LoneProblem(now)(b);
    SeparateDevices([a, b], now);
    EachOfTwo(a, b, LoneProblem(now));
    DownAlone(a, r, now);
    DownAlone(b, r, now);
    OneOutageOfTwo(p, q, r);
    MissedOfTwo(p, q, r, a, b);
  }

  lemma MissedOfTwo(p: Problem, q: Problem, r: Restaurant, a: Alert, b: Alert)
    requires p.members == [a] && q.members == [b] && a.acknowledged && !b.acknowledged && !p.newSymptom && !q.newSymptom
    ensures Mixed(OutageProblem(r, [p, q]).members) && !OutageProblem(r, [p, q]).newSymptom
  {
    var ps := [p, q];
    PoolMembers(ps);
    assert p in ps && q in ps && a in p.members && b in q.members;
    assert a in MembersOf(ps) && b in MembersOf(ps);
  }
}

/**
 The problems the Alerts page lists, of internal/dashboard/alert_problems.go: one per device, devices of
 one restaurant that are offline together as one, worst first.
 */
module ProblemFold {
  import opened Wrappers
  import opened Grouping
  import opened StableSort
  import AlertFold

  type Severity = AlertFold.Severity
  type Restaurant = AlertFold.Restaurant

  /** What alerts are gathered under: the device, else the serial, else the alert alone. */
  datatype Key = ByDevice(device: AlertFold.Device) | BySerial(serial: string) | ByAlert(alert: AlertFold.Id)

  type Instant = t: int | 0 < t witness 1

  datatype Alert = Alert(
    id: AlertFold.Id, device: Option<AlertFold.Device>, serial: string, kind: AlertFold.AlertType, severity: Severity,
    firedAt: Instant, acknowledged: bool, mutedUntil: Option<Instant>, restaurant: Option<Restaurant>,
    note: string, afterHours: bool, symptom: string, occurrences: int)

  datatype Symptom = Symptom(name: string, count: int, severity: Severity)

  datatype Problem = Problem(
    keys: seq<Key>, members: seq<Alert>, outage: bool, serial: string, restaurant: Option<Restaurant>,
    severity: Severity, cause: AlertFold.Cause, since: nat, acked: bool, newSymptom: bool, snoozed: bool,
    afterHours: bool, note: string, symptoms: seq<Symptom>)

  function KeyOf(): Alert -> Key {
    (a: Alert) =>
      if a.device.Some? then ByDevice(a.device.value)
      else if a.serial != "" then BySerial(a.serial)
      else ByAlert(a.id)
  }

  function NameOf(): Alert -> string { (a: Alert) => a.symptom }
  function SeverityOf(): Alert -> Severity { (a: Alert) => a.severity }
  function FiredAt(): Alert -> nat { (a: Alert) => a.firedAt }
  function NoteOf(): Alert -> string { (a: Alert) => a.note }

  function ProblemSeverity(): Problem -> Severity { (p: Problem) => p.severity }
  function ProblemSince(): Problem -> nat { (p: Problem) => p.since }
  function ProblemNote(): Problem -> string { (p: Problem) => p.note }
  function ProblemMembers(): Problem -> seq<Alert> { (p: Problem) => p.members }
  function ProblemKeys(): Problem -> seq<Key> { (p: Problem) => p.keys }

  // ── One device ─────────────────────────────────────────────────────────────

  /** The earliest time; 0, the zero time, before there is one. */
  function First<T>(xs: seq<T>, at: T -> nat): nat {
    if xs == [] then 0
    else
      var before, t := First(xs[..|xs| - 1], at), at(xs[|xs| - 1]);
      if before == 0 || t < before then t else before
  }

  /** The first text that is not empty. */
  function FirstText<T>(xs: seq<T>, text: T -> string): string {
    if xs == [] then ""
    else
      var before := FirstText(xs[..|xs| - 1], text);
      if before != "" then before else text(xs[|xs| - 1])
  }

  function Occurrences(ms: seq<Alert>): int {
    if ms == [] then 0 else Occurrences(ms[..|ms| - 1]) + ms[|ms| - 1].occurrences
  }

  function SymptomOf(ms: seq<Alert>, name: string): Symptom {
    var same := Group(ms, NameOf(), name);
    Symptom(name, Occurrences(same), if same == [] then AlertFold.Info else same[0].severity)
  }

  function SymptomsFor(ms: seq<Alert>, names: seq<string>): seq<Symptom> {
    seq(|names|, i requires 0 <= i < |names| => SymptomOf(ms, names[i]))
  }

  function SymptomsOf(ms: seq<Alert>): seq<Symptom> {
    SymptomsFor(ms, Order(ms, NameOf()))
  }

  predicate Mixed(ms: seq<Alert>) {
    (exists a <- ms :: a.acknowledged) && exists a <- ms :: !a.acknowledged
  }

  predicate Muted(a: Alert, now: Instant) {
    a.mutedUntil.Some? && a.mutedUntil.value >= now
  }

  function DeviceProblem(k: Key, ms: seq<Alert>, now: Instant): Problem
    requires ms != []
  {
    var severity := AlertFold.Worst(AlertFold.Info, ms, SeverityOf());
    Problem(
      [k], ms, false, ms[0].serial, ms[0].restaurant, severity,
      AlertFold.CauseOf(set a | a in ms :: a.kind),
      First(ms, FiredAt()),
      forall a <- ms :: a.acknowledged,
      Mixed(ms),
      forall a <- ms :: Muted(a, now),
      severity != AlertFold.Critical && exists a <- ms :: a.afterHours,
      FirstText(ms, NoteOf()),
      SymptomsOf(ms))
  }

  function ProblemFor(active: seq<Alert>, k: Key, now: Instant): Problem
    requires k in Order(active, KeyOf())
  {
    GroupEmptyIff(active, KeyOf(), k);
    DeviceProblem(k, Group(active, KeyOf(), k), now)
  }

  /** The device problems of the first keys. */
  function ProblemsFor(active: seq<Alert>, ks: seq<Key>, now: Instant): seq<Problem>
    requires forall k <- ks :: k in Order(active, KeyOf())
  {
    seq(|ks|, i requires 0 <= i < |ks| => ProblemFor(active, ks[i], now))
  }

  function DeviceProblems(active: seq<Alert>, now: Instant): seq<Problem> {
    ProblemsFor(active, Order(active, KeyOf()), now)
  }

  // ── One restaurant ─────────────────────────────────────────────────────────

  /** The lists of some problems, one after another. */
  function Pool<T>(ps: seq<Problem>, part: Problem -> seq<T>): seq<T> {
    if ps == [] then [] else Pool(ps[..|ps| - 1], part) + part(ps[|ps| - 1])
  }

  function DeviceSymptoms(ps: seq<Problem>): seq<Symptom> {
    seq(|ps|, i requires 0 <= i < |ps| => Symptom(ps[i].serial, 1, ps[i].severity))
  }

  function OutageProblem(r: Restaurant, ps: seq<Problem>): Problem {
    var severity := AlertFold.Worst(AlertFold.Info, ps, ProblemSeverity());
    Problem(
      Pool(ps, ProblemKeys()), Pool(ps, ProblemMembers()), true, "", Some(r), severity, AlertFold.OfflineCause,
      First(ps, ProblemSince()),
      forall p <- ps :: p.acked,
      exists p <- ps :: p.newSymptom,
      false,
      severity != AlertFold.Critical && exists p <- ps :: p.afterHours,
      FirstText(ps, ProblemNote()),
      DeviceSymptoms(ps))
  }

  /** The restaurant a device problem may be folded into. */
  function RestOf(): Problem -> Option<Restaurant> {
    (p: Problem) => if p.cause == AlertFold.OfflineCause && !p.snoozed then p.restaurant else None
  }

  function OfflineTogether(devs: seq<Problem>, r: Restaurant): seq<Problem> {
    Group(devs, RestOf(), Some(r))
  }

  /** The restaurant it is folded into: one with at least two such devices. */
  function OutageOf(devs: seq<Problem>): Problem -> Option<Restaurant> {
    (p: Problem) => if RestOf()(p).Some? && |OfflineTogether(devs, RestOf()(p).value)| >= 2 then RestOf()(p) else None
  }

  /** rests are the restaurants with an outage, in the order a map walk met them. */
  ghost predicate OutageWalk(devs: seq<Problem>, rests: seq<Restaurant>) {
    Distinct(rests) && forall r :: r in rests <==> |OfflineTogether(devs, r)| >= 2
  }

  function Outages(devs: seq<Problem>, rests: seq<Restaurant>): seq<Problem> {
    seq(|rests|, i requires 0 <= i < |rests| => OutageProblem(rests[i], OfflineTogether(devs, rests[i])))
  }

  function PlaceOf(): Problem -> Place {
    (p: Problem) => Place(AlertFold.Rank(p.severity), p.since)
  }

  function Unsorted(devs: seq<Problem>, rests: seq<Restaurant>): seq<Problem> {
    Outages(devs, rests) + Group(devs, OutageOf(devs), None)
  }

  function ListedFor(devs: seq<Problem>, rests: seq<Restaurant>): seq<Problem> {
    Sort(Unsorted(devs, rests), PlaceOf())
  }

  function Problems(active: seq<Alert>, now: Instant, rests: seq<Restaurant>): seq<Problem> {
    ListedFor(DeviceProblems(active, now), rests)
  }

  // ── The loops ──────────────────────────────────────────────────────────────

  ghost predicate GroupsOf(active: seq<Alert>, groups: map<Key, seq<Alert>>) {
    && (forall k :: k in groups <==> k in Order(active, KeyOf()))
    && forall k <- groups :: groups[k] == Group(active, KeyOf(), k) != []
  }

  /** The list is the one that some walk over the map of restaurants gives. */
  method BuildProblems(active: seq<Alert>, now: Instant) returns (out: seq<Problem>)
    ensures exists rests :: OutageWalk(DeviceProblems(active, now), rests) && out == Problems(active, now, rests)
  {
    var order, groups := GroupBy(active, KeyOf());
    var devs := BuildDevices(active, now, order, groups);
    var byRest := ByRestaurant(devs);
    var outages, folded, rests := FoldOutages(devs, byRest);
    var singles := Unfolded(devs, folded);
    out := Sort(outages + singles, PlaceOf());
    assert OutageWalk(DeviceProblems(active, now), rests) && out == Problems(active, now, rests);
  }

  method BuildDevices(ghost active: seq<Alert>, now: Instant, order: seq<Key>, groups: map<Key, seq<Alert>>)
    returns (devs: seq<Problem>)
    requires order == Order(active, KeyOf()) && GroupsOf(active, groups)
    ensures devs == DeviceProblems(active, now)
  {
    devs := [];
    for i := 0 to |order|
      invariant devs == ProblemsFor(active, order[..i], now)
    {
      assert order[i] in order;
      var p := BuildDevice(order[i], groups[order[i]], now);
      OneMoreProblem(active, order[..i], order[i], now);
      TakeOneMore(order, i);
      devs := devs + [p];
    }
    assert order[..|order|] == order;
  }

  lemma OneMoreProblem(active: seq<Alert>, ks: seq<Key>, k: Key, now: Instant)
    requires k in Order(active, KeyOf()) && forall x <- ks :: x in Order(active, KeyOf())
    ensures ProblemsFor(active, ks + [k], now) == ProblemsFor(active, ks, now) + [ProblemFor(active, k, now)]
  {}

  method Unfolded(devs: seq<Problem>, folded: set<nat>) returns (out: seq<Problem>)
    requires forall i: nat :: i < |devs| ==> (i in folded <==> OutageOf(devs)(devs[i]).Some?)
    ensures out == Group(devs, OutageOf(devs), None)
  {
    out := [];
    for i := 0 to |devs|
      invariant out == Group(devs[..i], OutageOf(devs), None)
    {
      assert devs[..i + 1][..i] == devs[..i];
      if i !in folded {
        out := out + [devs[i]];
      }
    }
    assert devs[..|devs|] == devs;
  }

  method BuildDevice(k: Key, ms: seq<Alert>, now: Instant) returns (p: Problem)
    requires ms != []
    ensures p == DeviceProblem(k, ms, now)
  {
    var t := TallyAlerts(ms, now);
    TallyMeaning(ms, now);
    var symptoms := CountSymptoms(ms);
    p := Problem(
      [k], ms, false, ms[0].serial, ms[0].restaurant, t.severity, AlertFold.CauseOf(set a | a in ms :: a.kind), t.since,
      t.someAcked && !t.someOpen, t.someAcked && t.someOpen, t.snoozed, t.severity != AlertFold.Critical && t.late,
      t.note, symptoms);
  }

  method TallyAlerts(ms: seq<Alert>, now: Instant) returns (t: Tally)
    ensures t == TallyOf(ms, now)
  {
    var severity, note := AlertFold.Info, "";
    var since: nat := 0;
    var someAcked, someOpen, snoozed, late := false, false, true, false;
    for i := 0 to |ms|
      invariant Tally(severity, since, note, someAcked, someOpen, snoozed, late) == TallyOf(ms[..i], now)
    {
      var a := ms[i];
      assert ms[..i + 1][..i] == ms[..i];
      if AlertFold.Rank(a.severity) > AlertFold.Rank(severity) {
        severity := a.severity;
      }
      if since == 0 || a.firedAt < since {
        since := a.firedAt;
      }
      if a.acknowledged {
        someAcked := true;
      } else {
        someOpen := true;
      }
      if !Muted(a, now) {
        snoozed := false;
      }
      if note == "" && a.note != "" {
        note := a.note;
      }
      if a.afterHours {
        late := true;
      }
    }
    assert ms[..|ms|] == ms;
    t := Tally(severity, since, note, someAcked, someOpen, snoozed, late);
  }

  /** The variables of the loop over a device's alerts. */
  datatype Tally = Tally(
    severity: Severity, since: nat, note: string, someAcked: bool, someOpen: bool, snoozed: bool, late: bool)

  function TallyOf(ms: seq<Alert>, now: Instant): Tally {
    if ms == [] then Tally(AlertFold.Info, 0, "", false, false, true, false)
    else
      var t, a := TallyOf(ms[..|ms| - 1], now), ms[|ms| - 1];
      Tally(
        if AlertFold.Rank(a.severity) > AlertFold.Rank(t.severity) then a.severity else t.severity,
        if t.since == 0 || a.firedAt < t.since then a.firedAt else t.since,
        if t.note == "" then a.note else t.note,
        t.someAcked || a.acknowledged, t.someOpen || !a.acknowledged, t.snoozed && Muted(a, now),
        t.late || a.afterHours)
  }

  lemma {:induction false} TallyMeaning(ms: seq<Alert>, now: Instant)
    ensures var t := TallyOf(ms, now);
            && t.severity == AlertFold.Worst(AlertFold.Info, ms, SeverityOf())
            && t.since == First(ms, FiredAt()) && t.note == FirstText(ms, NoteOf())
            && (t.someAcked <==> exists a <- ms :: a.acknowledged)
            && (t.someOpen <==> exists a <- ms :: !a.acknowledged)
            && (t.snoozed <==> forall a <- ms :: Muted(a, now))
            && (t.late <==> exists a <- ms :: a.afterHours)
    ensures var t := TallyOf(ms, now);
            ms != [] ==> ((t.someAcked && !t.someOpen) <==> forall a <- ms :: a.acknowledged)
  {
    if ms != [] {
      var init, a := ms[..|ms| - 1], ms[|ms| - 1];
      TallyMeaning(init, now);
      assert forall x :: x in ms <==> x in init || x == a;
    }
  }

  /** seen is where each name's symptom stands in the list. */
  method CountSymptoms(ms: seq<Alert>) returns (symptoms: seq<Symptom>)
    ensures symptoms == SymptomsOf(ms)
  {
    symptoms := [];
    var seen: map<string, nat> := map[];
    for i := 0 to |ms|
      invariant symptoms == SymptomsOf(ms[..i])
      invariant Places(Order(ms[..i], NameOf()), seen)
    {
      var a := ms[i];
      CountOne(ms[..i], a, seen);
      assert ms[..i + 1] == ms[..i] + [a];
      if a.symptom in seen {
        var j := seen[a.symptom];
        symptoms := symptoms[j := symptoms[j].(count := symptoms[j].count + a.occurrences)];
      } else {
        seen := seen[a.symptom := |symptoms|];
        symptoms := symptoms + [Symptom(a.symptom, a.occurrences, a.severity)];
      }
    }
    assert ms[..|ms|] == ms;
  }

  ghost predicate Places(names: seq<string>, seen: map<string, nat>) {
    && (forall n :: n in seen <==> n in names)
    && forall n <- seen :: seen[n] < |names| && names[seen[n]] == n
  }

  /** What one more alert does to the symptoms. */
  lemma CountOne(ms: seq<Alert>, a: Alert, seen: map<string, nat>)
    requires Places(Order(ms, NameOf()), seen)
    ensures a.symptom in seen ==> Order(ms + [a], NameOf()) == Order(ms, NameOf())
    ensures a.symptom in seen ==> SymptomsOf(ms + [a]) == Counted(SymptomsOf(ms), seen[a.symptom], a)
    ensures a.symptom !in seen ==> Order(ms + [a], NameOf()) == Order(ms, NameOf()) + [a.symptom]
    ensures a.symptom !in seen ==>
              SymptomsOf(ms + [a]) == SymptomsOf(ms) + [Symptom(a.symptom, a.occurrences, a.severity)]
  {
    var names := Order(ms, NameOf());
    OneMoreName(ms, a);
    if a.symptom in seen {
      SymptomCounted(ms, a, names, seen[a.symptom]);
    } else {
      OtherSymptoms(ms, a, names);
      OneSymptom(ms, a);
      assert SymptomsFor(ms + [a], names + [a.symptom])
          == SymptomsFor(ms + [a], names) + [SymptomOf(ms + [a], a.symptom)];
    }
  }

  function Counted(symptoms: seq<Symptom>, j: nat, a: Alert): seq<Symptom>
    requires j < |symptoms|
  {
    symptoms[j := symptoms[j].(count := symptoms[j].count + a.occurrences)]
  }

  lemma OtherSymptoms(ms: seq<Alert>, a: Alert, names: seq<string>)
    requires a.symptom !in names
    ensures SymptomsFor(ms + [a], names) == SymptomsFor(ms, names)
  {
    forall i | 0 <= i < |names| ensures SymptomOf(ms + [a], names[i]) == SymptomOf(ms, names[i]) {
      OtherSymptom(ms, a, names[i]);
    }
  }

  lemma SymptomCounted(ms: seq<Alert>, a: Alert, names: seq<string>, j: nat)
    requires Distinct(names) && j < |names| && names[j] == a.symptom && a.symptom in Order(ms, NameOf())
    ensures SymptomsFor(ms + [a], names) == Counted(SymptomsFor(ms, names), j, a)
  {
    forall i | 0 <= i < |names| && i != j ensures SymptomOf(ms + [a], names[i]) == SymptomOf(ms, names[i]) {
      OtherSymptom(ms, a, names[i]);
    }
    OneSymptom(ms, a);
  }

  lemma OneMoreName(ms: seq<Alert>, a: Alert)
    ensures var names := Order(ms, NameOf());
            Distinct(names) && Order(ms + [a], NameOf()) == if a.symptom in names then names else names + [a.symptom]
  {
    assert (ms + [a])[..|ms|] == ms;
    OrderHasEveryKey(ms, NameOf());
  }

  lemma OtherSymptom(ms: seq<Alert>, a: Alert, n: string)
    requires n != a.symptom
    ensures SymptomOf(ms + [a], n) == SymptomOf(ms, n)
  {
    GroupOneMore(ms, a, NameOf(), n);
  }

  lemma OneSymptom(ms: seq<Alert>, a: Alert)
    ensures var n, was := a.symptom, SymptomOf(ms, a.symptom);
            SymptomOf(ms + [a], n) ==
              if n in Order(ms, NameOf()) then was.(count := was.count + a.occurrences)
              else Symptom(n, a.occurrences, a.severity)
  {
    GroupOneMore(ms, a, NameOf(), a.symptom);
    GroupEmptyIff(ms, NameOf(), a.symptom);
    OneMoreOccurrence(Group(ms, NameOf(), a.symptom), a);
  }

  lemma OneMoreOccurrence(ms: seq<Alert>, a: Alert)
    ensures Occurrences(ms + [a]) == Occurrences(ms) + a.occurrences
  {
    assert (ms + [a])[..|ms|] == ms;
  }

  // the map of restaurants holds positions in the list of device problems

  predicate Within(idx: seq<nat>, n: nat) {
    forall k :: 0 <= k < |idx| ==> idx[k] < n
  }

  function At(devs: seq<Problem>, idx: seq<nat>): seq<Problem>
    requires Within(idx, |devs|)
  {
    seq(|idx|, i requires 0 <= i < |idx| => devs[idx[i]])
  }

  /** Where, among the first n device problems, those of the restaurant stand. */
  function Positions(devs: seq<Problem>, n: nat, r: Restaurant): seq<nat>
    requires n <= |devs|
  {
    if n == 0 then []
    else
      var before := Positions(devs, n - 1, r);
      if RestOf()(devs[n - 1]) == Some(r) then before + [n - 1] else before
  }

  lemma {:induction false} PositionsMeaning(devs: seq<Problem>, n: nat, r: Restaurant)
    requires n <= |devs|
    ensures Within(Positions(devs, n, r), n)
    ensures forall i: nat :: i in Positions(devs, n, r) <==> i < n && RestOf()(devs[i]) == Some(r)
    ensures At(devs, Positions(devs, n, r)) == Group(devs[..n], RestOf(), Some(r))
  {
    if n > 0 {
      PositionsMeaning(devs, n - 1, r);
      assert devs[..n][..n - 1] == devs[..n - 1];
    }
  }

  ghost predicate Lists(devs: seq<Problem>, n: nat, byRest: map<Restaurant, seq<nat>>)
    requires n <= |devs|
  {
    forall r :: if r in byRest then byRest[r] == Positions(devs, n, r) else Positions(devs, n, r) == []
  }

  method ByRestaurant(devs: seq<Problem>) returns (byRest: map<Restaurant, seq<nat>>)
    ensures Lists(devs, |devs|, byRest)
  {
    byRest := map[];
    for i := 0 to |devs|
      invariant Lists(devs, i, byRest)
    {
      var r := RestOf()(devs[i]);
      if r.Some? {
        byRest := byRest[r.value := (if r.value in byRest then byRest[r.value] else []) + [i]];
      }
    }
  }

  /** The walk meets the restaurants in any order. */
  method FoldOutages(devs: seq<Problem>, byRest: map<Restaurant, seq<nat>>)
    returns (out: seq<Problem>, folded: set<nat>, ghost rests: seq<Restaurant>)
    requires Lists(devs, |devs|, byRest)
    ensures OutageWalk(devs, rests) && out == Outages(devs, rests)
    ensures forall i: nat :: i < |devs| ==> (i in folded <==> OutageOf(devs)(devs[i]).Some?)
  {
    out, folded, rests := [], {}, [];
    var left := byRest.Keys;
    while left != {}
      invariant left <= byRest.Keys && Distinct(rests) && out == Outages(devs, rests)
      invariant forall r :: r in rests <==> r in byRest.Keys - left && |byRest[r]| >= 2
      invariant FoldedUpTo(devs, rests, folded)
      decreases |left|
    {
      var r :| r in left;
      left := left - {r};
      var idx := byRest[r];
      if |idx| < 2 {
        continue;
      }
      TogetherAt(devs, r);
      var p := FoldOutage(devs, r, idx);
      OneMoreOutage(devs, rests, r, folded);
      folded := folded + set i | i in idx;
      rests, out := rests + [r], out + [p];
    }
    forall r ensures r in rests <==> |OfflineTogether(devs, r)| >= 2 {
      TogetherAt(devs, r);
    }
    forall i: nat | i < |devs| ensures i in folded <==> OutageOf(devs)(devs[i]).Some? {
      FoldedIffOutage(devs, rests, folded, i);
    }
  }

  lemma TogetherAt(devs: seq<Problem>, r: Restaurant)
    ensures var idx := Positions(devs, |devs|, r);
            Within(idx, |devs|) && At(devs, idx) == OfflineTogether(devs, r)
  {
    PositionsMeaning(devs, |devs|, r);
    assert devs[..|devs|] == devs;
  }

  ghost predicate FoldedUpTo(devs: seq<Problem>, rests: seq<Restaurant>, folded: set<nat>) {
    forall i: nat :: i in folded <==> exists r <- rests :: i in Positions(devs, |devs|, r)
  }

  lemma OneMoreOutage(devs: seq<Problem>, rests: seq<Restaurant>, r: Restaurant, folded: set<nat>)
    requires FoldedUpTo(devs, rests, folded) && Distinct(rests) && r !in rests
    ensures Outages(devs, rests + [r]) == Outages(devs, rests) + [OutageProblem(r, OfflineTogether(devs, r))]
    ensures FoldedUpTo(devs, rests + [r], folded + set i | i in Positions(devs, |devs|, r))
    ensures Distinct(rests + [r]) && forall x :: x in rests + [r] <==> x in rests || x == r
  {}

  lemma FoldedIffOutage(devs: seq<Problem>, rests: seq<Restaurant>, folded: set<nat>, i: nat)
    requires FoldedUpTo(devs, rests, folded) && OutageWalk(devs, rests) && i < |devs|
    ensures i in folded <==> OutageOf(devs)(devs[i]).Some?
  {
    forall r: Restaurant ensures i in Positions(devs, |devs|, r) <==> RestOf()(devs[i]) == Some(r) {
      PositionsMeaning(devs, |devs|, r);
    }
  }

  /** One restaurant's problem, from the positions of its devices'. */
  method FoldOutage(devs: seq<Problem>, r: Restaurant, idx: seq<nat>) returns (p: Problem)
    requires idx != [] && Within(idx, |devs|)
    ensures p == OutageProblem(r, At(devs, idx))
  {
    var t, keys, members, symptoms := WalkOutage(devs, idx);
    OutageTallyMeaning(At(devs, idx));
    p := Problem(
      keys, members, true, "", Some(r), t.severity, AlertFold.OfflineCause, t.first, t.acked, t.newSymptom, false,
      t.severity != AlertFold.Critical && t.late, t.note, symptoms);
  }

  method WalkOutage(devs: seq<Problem>, idx: seq<nat>)
    returns (t: OutageTally, keys: seq<Key>, members: seq<Alert>, symptoms: seq<Symptom>)
    requires Within(idx, |devs|)
    ensures t == OutageTallyOf(At(devs, idx)) && Gathers(At(devs, idx), keys, members, symptoms)
  {
    var severity, first, note, acked, newSymptom, late := AlertFold.Info, 0, "", true, false, false;
    keys, members, symptoms := [], [], [];
    ghost var ps := At(devs, idx);
    for n := 0 to |idx|
      invariant OutageTally(severity, first, note, acked, newSymptom, late) == OutageTallyOf(ps[..n])
      invariant Gathers(ps[..n], keys, members, symptoms)
    {
      var d := devs[idx[n]];
      assert d == ps[n];
      TakeOneMore(ps, n);
      OneMoreDevice(ps[..n], d);
      OneMoreList(ps[..n], d, keys, members, symptoms);
      keys, members := keys + d.keys, members + d.members;
      if AlertFold.Rank(d.severity) > AlertFold.Rank(severity) {
        severity := d.severity;
      }
      if first == 0 || d.since < first {
        first := d.since;
      }
      acked := acked && d.acked;
      newSymptom := newSymptom || d.newSymptom;
      late := late || d.afterHours;
      if note == "" {
        note := d.note;
      }
      symptoms := symptoms + [Symptom(d.serial, 1, d.severity)];
    }
    assert ps[..|idx|] == ps;
    t := OutageTally(severity, first, note, acked, newSymptom, late);
  }

  /** The variables of the loop over a restaurant's devices. */
  datatype OutageTally = OutageTally(
    severity: Severity, first: nat, note: string, acked: bool, newSymptom: bool, late: bool)
  {
    function With(d: Problem): OutageTally {
      OutageTally(
        if AlertFold.Rank(d.severity) > AlertFold.Rank(severity) then d.severity else severity,
        if first == 0 || d.since < first then d.since else first,
        if note == "" then d.note else note,
        acked && d.acked, newSymptom || d.newSymptom, late || d.afterHours)
    }
  }

  function OutageTallyOf(ps: seq<Problem>): OutageTally {
    if ps == [] then OutageTally(AlertFold.Info, 0, "", true, false, false)
    else OutageTallyOf(ps[..|ps| - 1]).With(ps[|ps| - 1])
  }

  lemma OneMoreDevice(ps: seq<Problem>, d: Problem)
    ensures OutageTallyOf(ps + [d]) == OutageTallyOf(ps).With(d)
  {
    assert (ps + [d])[..|ps|] == ps;
  }

  lemma {:induction false} OutageTallyMeaning(ps: seq<Problem>)
    ensures var t := OutageTallyOf(ps);
            && t.severity == AlertFold.Worst(AlertFold.Info, ps, ProblemSeverity())
            && t.first == First(ps, ProblemSince()) && t.note == FirstText(ps, ProblemNote())
            && (t.acked <==> forall p <- ps :: p.acked)
            && (t.newSymptom <==> exists p <- ps :: p.newSymptom)
            && (t.late <==> exists p <- ps :: p.afterHours)
  {
    if ps != [] {
      var init, d := ps[..|ps| - 1], ps[|ps| - 1];
      OutageTallyMeaning(init);
      assert forall x :: x in ps <==> x in init || x == d;
    }
  }

  ghost predicate Gathers(ps: seq<Problem>, keys: seq<Key>, members: seq<Alert>, symptoms: seq<Symptom>) {
    keys == Pool(ps, ProblemKeys()) && members == Pool(ps, ProblemMembers()) && symptoms == DeviceSymptoms(ps)
  }

  lemma OneMoreList(ps: seq<Problem>, p: Problem, keys: seq<Key>, members: seq<Alert>, symptoms: seq<Symptom>)
    requires Gathers(ps, keys, members, symptoms)
    ensures Gathers(ps + [p], keys + p.keys, members + p.members, symptoms + [Symptom(p.serial, 1, p.severity)])
  {
    assert (ps + [p])[..|ps|] == ps;
  }
}

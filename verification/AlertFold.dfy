/**
 Alert notifications folded into messages, of internal/alerts/problems.go: one message per device, and
 one per restaurant whose devices went offline together.
 */
module AlertFold {
  import opened Wrappers
  import opened Grouping
  import opened SortedLists

  type Id = nat
  type Device = nat

  /** Restaurants are numbered in the order their names sort. */
  type Restaurant = nat

  datatype Severity = Info | Warning | Critical | OtherSeverity(name: string)

  /** SeverityRank of internal/db/alerts.go: what is neither "info" nor "critical" is in between. */
  function Rank(s: Severity): nat {
    match s
    case Info => 0
    case Critical => 2
    case _ => 1
  }

  datatype AlertType =
    | LostDeviceSeen | LostDeviceHeard | SelfLocked | LeftVenue | Offline | OfflinePeak | OfflineLong
    | WifiWeak | WifiUnstable | ChargerFlapping | WlcDead | SlowChargeNight | BatteryLow | WlcContinuous
    | Overheating | DeviceCrash | StorageLow | StorageWarning | StorageFilling | MemoryLow | MemoryPressure
    | ControlStale | NoCommandChannel | RoleUnlocked | RoleAppStuck | KioskExited | ComplianceFailed
    | IdentityConflict | HardwareSerialChanged | KeyRecovered | KeyNotRegistered | NewDevice
    | OtherType(name: string)

  datatype Cause =
    | LostCause | WifiCause | OfflineCause | ChargingCause | SlowChargeCause | BatteryCause | HeatCause
    | CrashCause | StorageCause | MemoryCause | TransportCause | KioskCause | AppCause | ComplianceCause
    | IdentityCause | NewCause | OtherCause

  const OFFLINE_TYPES: set<AlertType> := {Offline, OfflinePeak, OfflineLong}
  const WIFI_TYPES: set<AlertType> := {WifiWeak, WifiUnstable}
  const IDENTITY_TYPES: set<AlertType> := {IdentityConflict, HardwareSerialChanged, KeyRecovered, KeyNotRegistered}
  const LOST_TYPES: set<AlertType> := {LostDeviceSeen, LostDeviceHeard, SelfLocked, LeftVenue}

  /** The fault behind a set of alert types, in the order an operator should look. */
  function CauseOf(has: set<AlertType>): Cause {
    if has * LOST_TYPES != {} then LostCause
    else if has * OFFLINE_TYPES != {} && has * WIFI_TYPES != {} then WifiCause
    else if has * OFFLINE_TYPES != {} then OfflineCause
    else if ChargerFlapping in has || WlcDead in has || (SlowChargeNight in has && BatteryLow in has) then ChargingCause
    else if SlowChargeNight in has then SlowChargeCause
    else if BatteryLow in has then BatteryCause
    else if WlcContinuous in has then ChargingCause
    else if Overheating in has then HeatCause
    else if DeviceCrash in has then CrashCause
    else if StorageLow in has || StorageWarning in has || StorageFilling in has then StorageCause
    else if MemoryLow in has || MemoryPressure in has then MemoryCause
    else if has * WIFI_TYPES != {} then WifiCause
    else if ControlStale in has || NoCommandChannel in has then TransportCause
    else if RoleUnlocked in has then KioskCause
    else if RoleAppStuck in has then AppCause
    else if KioskExited in has then KioskCause
    else if ComplianceFailed in has then ComplianceCause
    else if has * IDENTITY_TYPES != {} then IdentityCause
    else if NewDevice in has then NewCause
    else OtherCause
  }

  /** A device that stopped reporting hides everything but its being lost and its Wi-Fi. */
  lemma OfflineExplainsTheRest(has: set<AlertType>, stale: set<AlertType>)
    requires CauseOf(has) == OfflineCause && stale !! LOST_TYPES && stale !! WIFI_TYPES
    ensures CauseOf(has + stale) == OfflineCause
  {
    assert (has + stale) * LOST_TYPES == has * LOST_TYPES && (has + stale) * WIFI_TYPES == has * WIFI_TYPES;
    assert has * OFFLINE_TYPES <= (has + stale) * OFFLINE_TYPES;
  }

  datatype Notification = Notification(alert: Id, device: Device, kind: AlertType, severity: Severity, escalated: bool)

  /** A message and the alerts in it, in the order their ids are listed. */
  datatype Message = Message(
    severity: Severity, devices: seq<Device>, members: seq<Notification>, outage: Option<Restaurant>,
    cause: Cause, escalated: bool)

  function DeviceOf(): Notification -> Device {
    (n: Notification) => n.device
  }

  function TypesOf(ns: seq<Notification>): set<AlertType> {
    set n | n in ns :: n.kind
  }

  function SeverityOf(): Notification -> Severity {
    (n: Notification) => n.severity
  }

  /** The severity a fold ends with, from the one it starts with. */
  function Worst<T>(start: Severity, xs: seq<T>, severity: T -> Severity): Severity {
    if xs == [] then start
    else
      var before, s := Worst(start, xs[..|xs| - 1], severity), severity(xs[|xs| - 1]);
      if Rank(s) > Rank(before) then s else before
  }

  /** It is the worst of the start and the members. */
  lemma {:induction false} WorstIsMaximum<T>(start: Severity, xs: seq<T>, severity: T -> Severity)
    ensures var w := Worst(start, xs, severity);
            Rank(start) <= Rank(w) && forall x <- xs :: Rank(severity(x)) <= Rank(w)
    ensures var w := Worst(start, xs, severity);
            w == start || exists x <- xs :: severity(x) == w
  {
    if xs != [] {
      WorstIsMaximum(start, xs[..|xs| - 1], severity);
      assert forall x <- xs :: x in xs[..|xs| - 1] || x == xs[|xs| - 1];
      assert xs[|xs| - 1] in xs;
    }
  }

  // ── The fold as a function ─────────────────────────────────────────────────

  type Places = map<Device, Restaurant>

  /** The device went offline and is known to be at the restaurant. */
  predicate OfflineIn(ns: seq<Notification>, info: Places, r: Restaurant, d: Device) {
    d in info && info[d] == r && CauseOf(TypesOf(Group(ns, DeviceOf(), d))) == OfflineCause
  }

  function WentOffline(ns: seq<Notification>, info: Places, r: Restaurant): Device -> bool {
    (d: Device) => OfflineIn(ns, info, r, d)
  }

  function OfflineAt(ns: seq<Notification>, info: Places, r: Restaurant): seq<Device> {
    Keep(Order(ns, DeviceOf()), WentOffline(ns, info, r))
  }

  /** The device is part of its restaurant's outage. */
  predicate Folded(ns: seq<Notification>, info: Places, d: Device) {
    d in info && OfflineIn(ns, info, info[d], d) && |OfflineAt(ns, info, info[d])| >= 2
  }

  function MembersOf(ns: seq<Notification>, ds: seq<Device>): seq<Notification> {
    if ds == [] then []
    else MembersOf(ns, ds[..|ds| - 1]) + Group(ns, DeviceOf(), ds[|ds| - 1])
  }

  function OutageMessage(ns: seq<Notification>, info: Places, r: Restaurant): Message {
    var ds := OfflineAt(ns, info, r);
    var members := MembersOf(ns, ds);
    Message(Worst(Warning, members, SeverityOf()), ds, members, Some(r), OfflineCause, false)
  }

  function DeviceMessage(ns: seq<Notification>, d: Device): Message {
    var members := Group(ns, DeviceOf(), d);
    Message(
      Worst(Info, members, SeverityOf()), [d], members, None, CauseOf(TypesOf(members)),
      exists n <- members :: n.escalated)
  }

  function OutageMessages(ns: seq<Notification>, info: Places, rests: seq<Restaurant>): seq<Message> {
    seq(|rests|, i requires 0 <= i < |rests| => OutageMessage(ns, info, rests[i]))
  }

  function Alone(ns: seq<Notification>, info: Places): Device -> bool {
    (d: Device) => !Folded(ns, info, d)
  }

  function Singles(ns: seq<Notification>, info: Places): seq<Device> {
    Keep(Order(ns, DeviceOf()), Alone(ns, info))
  }

  function DeviceMessages(ns: seq<Notification>, ds: seq<Device>): seq<Message> {
    seq(|ds|, i requires 0 <= i < |ds| => DeviceMessage(ns, ds[i]))
  }

  /** The messages for given outages. */
  function Messages(ns: seq<Notification>, info: Places, rests: seq<Restaurant>): seq<Message> {
    OutageMessages(ns, info, rests) + DeviceMessages(ns, Singles(ns, info))
  }

  /** rests are the restaurants with an outage, sorted by name. */
  ghost predicate Outages(ns: seq<Notification>, info: Places, rests: seq<Restaurant>) {
    Ascending(rests) && forall r :: r in rests <==> |OfflineAt(ns, info, r)| >= 2
  }

  // ── The loops ──────────────────────────────────────────────────────────────

  /** The messages are the one list that the notifications determine, over which no alert is lost or
      repeated and no device is named twice. */
  method BuildProblemMessages(ns: seq<Notification>, info: Places) returns (out: seq<Message>)
    ensures exists rests :: Outages(ns, info, rests)
    ensures forall rests :: Outages(ns, info, rests) ==> out == Messages(ns, info, rests)
    ensures AllMembers(out) == multiset(ns) && Distinct(AllDevices(out))
  {
    var order, byDev := GroupBy(ns, DeviceOf());
    var offlineAt := FindOffline(ns, info, order, byDev);
    var names := SortOutages(ns, info, offlineAt);
    var outages, folded := FoldOutages(ns, info, names, offlineAt, byDev);
    forall d | d in order ensures d in folded <==> Folded(ns, info, d) {
      FoldedIffListed(ns, info, names, d);
    }
    var singles := FoldDevices(ns, info, order, folded, byDev);
    out := outages + singles;
    NoAlertLostOrRepeated(ns, info, names);
    EachDeviceOnce(ns, info, names);
    forall rests | Outages(ns, info, rests) ensures out == Messages(ns, info, rests) {
      MapOrderDoesNotShow(ns, info, names, rests);
    }
  }

  ghost predicate GroupsOf(ns: seq<Notification>, byDev: map<Device, seq<Notification>>) {
    && byDev.Keys == (set d | d in Order(ns, DeviceOf()))
    && forall d <- byDev :: byDev[d] == Group(ns, DeviceOf(), d)
  }

  ghost predicate ListsOffline(ns: seq<Notification>, info: Places, offlineAt: map<Restaurant, seq<Device>>) {
    forall r :: if r in offlineAt then offlineAt[r] == OfflineAt(ns, info, r) else OfflineAt(ns, info, r) == []
  }

  /** The restaurants are met in any order and listed by name. */
  method SortOutages(ghost ns: seq<Notification>, ghost info: Places, offlineAt: map<Restaurant, seq<Device>>)
    returns (names: seq<Restaurant>)
    requires ListsOffline(ns, info, offlineAt)
    ensures Outages(ns, info, names) && forall r <- names :: r in offlineAt
  {
    names := [];
    var left := offlineAt.Keys;
    while left != {}
      invariant left <= offlineAt.Keys && Ascending(names)
      invariant forall r :: r in names <==> r in offlineAt.Keys - left && |offlineAt[r]| >= 2
      decreases |left|
    {
      var r :| r in left;
      left := left - {r};
      if |offlineAt[r]| >= 2 {
        names := InsertInOrder(r, names);
      }
    }
    forall r ensures r in names <==> |OfflineAt(ns, info, r)| >= 2 {}
  }

  method FoldOutages(ghost ns: seq<Notification>, ghost info: Places, names: seq<Restaurant>,
                     offlineAt: map<Restaurant, seq<Device>>, byDev: map<Device, seq<Notification>>)
    returns (out: seq<Message>, folded: set<Device>)
    requires GroupsOf(ns, byDev) && ListsOffline(ns, info, offlineAt) && forall r <- names :: r in offlineAt
    ensures out == OutageMessages(ns, info, names)
    ensures InSome(ns, info, names, folded)
  {
    out, folded := [], {};
    for k := 0 to |names|
      invariant out == OutageMessages(ns, info, names[..k])
      invariant InSome(ns, info, names[..k], folded)
    {
      assert names[k] in names && offlineAt[names[k]] == OfflineAt(ns, info, names[k]);
      var ids := offlineAt[names[k]];
      OfflineAtMembers(ns, info, names[k]);
      var m := FoldOutage(ns, ids, byDev);
      OneMoreOutage(ns, info, names[..k], names[k], folded);
      TakeOneMore(names, k);
      folded := folded + set d | d in ids;
      out := out + [m.(outage := Some(names[k]))];
    }
    assert names[..|names|] == names;
  }

  ghost predicate InSome(ns: seq<Notification>, info: Places, names: seq<Restaurant>, folded: set<Device>) {
    forall d :: d in folded <==> exists r <- names :: d in OfflineAt(ns, info, r)
  }

  lemma OneMoreOutage(ns: seq<Notification>, info: Places, names: seq<Restaurant>, r: Restaurant, folded: set<Device>)
    requires InSome(ns, info, names, folded)
    ensures OutageMessages(ns, info, names + [r]) == OutageMessages(ns, info, names) + [OutageMessage(ns, info, r)]
    ensures InSome(ns, info, names + [r], folded + set d | d in OfflineAt(ns, info, r))
  {
    assert forall x :: x in names + [r] <==> x in names || x == r;
  }

  method FoldDevices(ghost ns: seq<Notification>, ghost info: Places, order: seq<Device>, folded: set<Device>,
                     byDev: map<Device, seq<Notification>>)
    returns (out: seq<Message>)
    requires GroupsOf(ns, byDev) && order == Order(ns, DeviceOf())
    requires forall d <- order :: d in folded <==> Folded(ns, info, d)
    ensures out == DeviceMessages(ns, Singles(ns, info))
  {
    out := [];
    for k := 0 to |order|
      invariant out == DeviceMessages(ns, Keep(order[..k], Alone(ns, info)))
    {
      TakeOneMore(order, k);
      OneMoreAlone(ns, info, order[..k], order[k]);
      assert order[k] in order;
      if order[k] in folded {
        continue;
      }
      var m := FoldDevice(ns, order[k], byDev[order[k]]);
      out := out + [m];
    }
    assert order[..|order|] == order;
  }

  lemma OneMoreAlone(ns: seq<Notification>, info: Places, ds: seq<Device>, d: Device)
    ensures var before := DeviceMessages(ns, Keep(ds, Alone(ns, info)));
            DeviceMessages(ns, Keep(ds + [d], Alone(ns, info))) ==
              if Folded(ns, info, d) then before else before + [DeviceMessage(ns, d)]
  {
    KeepOneMore(ds, d, Alone(ns, info));
  }

  ghost predicate ListsUpTo(ns: seq<Notification>, info: Places, ds: seq<Device>,
                            offlineAt: map<Restaurant, seq<Device>>)
  {
    forall r :: var sofar := Keep(ds, WentOffline(ns, info, r));
                if r in offlineAt then offlineAt[r] == sofar else sofar == []
  }

  /** The first pass over the devices. */
  method FindOffline(ns: seq<Notification>, info: Places, order: seq<Device>, byDev: map<Device, seq<Notification>>)
    returns (offlineAt: map<Restaurant, seq<Device>>)
    requires order == Order(ns, DeviceOf()) && GroupsOf(ns, byDev)
    ensures ListsOffline(ns, info, offlineAt)
  {
    offlineAt := map[];
    for i := 0 to |order|
      invariant ListsUpTo(ns, info, order[..i], offlineAt)
    {
      var d := order[i];
      TakeOneMore(order, i);
      NextOffline(ns, info, order[..i], offlineAt, d);
      if d !in info {
        continue;
      }
      var r := info[d];
      if CauseOf(TypesOf(byDev[d])) == OfflineCause {
        offlineAt := offlineAt[r := (if r in offlineAt then offlineAt[r] else []) + [d]];
      }
    }
    assert order[..|order|] == order;
  }

  lemma NextOffline(ns: seq<Notification>, info: Places, ds: seq<Device>, offlineAt: map<Restaurant, seq<Device>>,
                    d: Device)
    requires ListsUpTo(ns, info, ds, offlineAt)
    ensures if d in info && OfflineIn(ns, info, info[d], d) then
              var r := info[d];
              ListsUpTo(ns, info, ds + [d], offlineAt[r := (if r in offlineAt then offlineAt[r] else []) + [d]])
            else ListsUpTo(ns, info, ds + [d], offlineAt)
  {
    forall r ensures Keep(ds + [d], WentOffline(ns, info, r)) ==
                       if OfflineIn(ns, info, r, d) then Keep(ds, WentOffline(ns, info, r)) + [d]
                       else Keep(ds, WentOffline(ns, info, r))
    {
      KeepOneMore(ds, d, WentOffline(ns, info, r));
    }
  }

  /** One restaurant's message: its devices' alerts, and the worst of "warning" and theirs. */
  method FoldOutage(ghost ns: seq<Notification>, ids: seq<Device>, byDev: map<Device, seq<Notification>>)
    returns (m: Message)
    requires forall d <- ids :: d in byDev && byDev[d] == Group(ns, DeviceOf(), d)
    ensures var members := MembersOf(ns, ids);
            m == Message(Worst(Warning, members, SeverityOf()), ids, members, None, OfflineCause, false)
  {
    var severity, members := Warning, [];
    for i := 0 to |ids|
      invariant members == MembersOf(ns, ids[..i]) && severity == Worst(Warning, members, SeverityOf())
    {
      assert ids[..i + 1][..i] == ids[..i];
      var group := byDev[ids[i]];
      ghost var before := members;
      for j := 0 to |group|
        invariant members == before + group[..j] && severity == Worst(Warning, members, SeverityOf())
      {
        assert (members + [group[j]])[..|members|] == members;
        members := members + [group[j]];
        if Rank(group[j].severity) > Rank(severity) {
          severity := group[j].severity;
        }
      }
      assert group[..|group|] == group;
    }
    assert ids[..|ids|] == ids;
    m := Message(severity, ids, members, None, OfflineCause, false);
  }

  method FoldDevice(ghost ns: seq<Notification>, d: Device, group: seq<Notification>) returns (m: Message)
    requires group == Group(ns, DeviceOf(), d)
    ensures m == DeviceMessage(ns, d)
  {
    var severity, escalated := Info, false;
    for j := 0 to |group|
      invariant severity == Worst(Info, group[..j], SeverityOf()) && escalated == exists n <- group[..j] :: n.escalated
    {
      assert group[..j + 1][..j] == group[..j];
      assert forall n :: n in group[..j + 1] <==> n in group[..j] || n == group[j];
      if Rank(group[j].severity) > Rank(severity) {
        severity := group[j].severity;
      }
      escalated := escalated || group[j].escalated;
    }
    assert group[..|group|] == group;
    m := Message(severity, [d], group, None, CauseOf(TypesOf(group)), escalated);
  }

  // ── What the fold keeps ────────────────────────────────────────────────────

  lemma OfflineAtMembers(ns: seq<Notification>, info: Places, r: Restaurant)
    ensures Distinct(OfflineAt(ns, info, r))
    ensures forall d :: d in OfflineAt(ns, info, r) <==> d in Order(ns, DeviceOf()) && OfflineIn(ns, info, r, d)
  {
    OrderHasEveryKey(ns, DeviceOf());
    KeepMembers(Order(ns, DeviceOf()), WentOffline(ns, info, r));
  }

  lemma FoldedIffListed(ns: seq<Notification>, info: Places, rests: seq<Restaurant>, d: Device)
    requires Outages(ns, info, rests) && d in Order(ns, DeviceOf())
    ensures Folded(ns, info, d) <==> exists r <- rests :: d in OfflineAt(ns, info, r)
  {
    forall r ensures d in OfflineAt(ns, info, r) <==> OfflineIn(ns, info, r, d) {
      OfflineAtMembers(ns, info, r);
    }
  }

  function AllDevices(out: seq<Message>): seq<Device> {
    if out == [] then [] else AllDevices(out[..|out| - 1]) + out[|out| - 1].devices
  }

  function AllMembers(out: seq<Message>): multiset<Notification> {
    if out == [] then multiset{} else AllMembers(out[..|out| - 1]) + multiset(out[|out| - 1].members)
  }

  lemma {:induction false} MembersAreGathered(ns: seq<Notification>, ds: seq<Device>)
    ensures multiset(MembersOf(ns, ds)) == Gathered(ns, DeviceOf(), ds)
  {
    if ds != [] { MembersAreGathered(ns, ds[..|ds| - 1]); }
  }

  /** Every message holds exactly its devices' alerts. */
  ghost predicate HoldsItsDevices(ns: seq<Notification>, out: seq<Message>) {
    forall m <- out :: multiset(m.members) == Gathered(ns, DeviceOf(), m.devices)
  }

  lemma {:induction false} AllAreGathered(ns: seq<Notification>, out: seq<Message>)
    requires HoldsItsDevices(ns, out)
    ensures AllMembers(out) == Gathered(ns, DeviceOf(), AllDevices(out))
  {
    if out != [] {
      var init, m := out[..|out| - 1], out[|out| - 1];
      assert m in out && forall x <- init :: x in out;
      AllAreGathered(ns, init);
      GatheredConcat(ns, DeviceOf(), AllDevices(init), m.devices);
    }
  }

  lemma {:induction false} OutageDevices(ns: seq<Notification>, info: Places, rests: seq<Restaurant>)
    requires Ascending(rests)
    ensures var ds := AllDevices(OutageMessages(ns, info, rests));
            Distinct(ds) && forall d :: d in ds <==> exists r <- rests :: d in OfflineAt(ns, info, r)
  {
    if rests != [] {
      var init, r := rests[..|rests| - 1], rests[|rests| - 1];
      OutageDevices(ns, info, init);
      OneMoreDevices(ns, info, init, r);
      assert rests == init + [r];
      assert forall x :: x in rests <==> x in init || x == r;
      OfflineAtMembers(ns, info, r);
      forall d | d in AllDevices(OutageMessages(ns, info, init)) ensures d !in OfflineAt(ns, info, r) {
        var x :| x in init && d in OfflineAt(ns, info, x);
        OfflineElsewhere(ns, info, x, r, d);
      }
      DistinctConcat(AllDevices(OutageMessages(ns, info, init)), OfflineAt(ns, info, r));
    }
  }

  lemma OneMoreDevices(ns: seq<Notification>, info: Places, rests: seq<Restaurant>, r: Restaurant)
    ensures AllDevices(OutageMessages(ns, info, rests + [r]))
         == AllDevices(OutageMessages(ns, info, rests)) + OfflineAt(ns, info, r)
  {
    var out := OutageMessages(ns, info, rests + [r]);
    assert out[..|rests|] == OutageMessages(ns, info, rests);
  }

  lemma OfflineElsewhere(ns: seq<Notification>, info: Places, x: Restaurant, r: Restaurant, d: Device)
    requires x != r && d in OfflineAt(ns, info, x)
    ensures d !in OfflineAt(ns, info, r)
  {
    OfflineAtMembers(ns, info, x);
    OfflineAtMembers(ns, info, r);
  }

  lemma DistinctConcat(a: seq<Device>, b: seq<Device>)
    requires Distinct(a) && Distinct(b) && forall d <- a :: d !in b
    ensures Distinct(a + b)
  {
    forall i, j | 0 <= i < j < |a + b| ensures (a + b)[i] != (a + b)[j] {
      assert i < |a| ==> a[i] in a;
      assert j >= |a| ==> b[j - |a|] in b;
    }
  }

  lemma {:induction false} SingleDevices(ns: seq<Notification>, ds: seq<Device>)
    ensures AllDevices(DeviceMessages(ns, ds)) == ds
  {
    if ds != [] {
      var n := |ds| - 1;
      SingleDevices(ns, ds[..n]);
      assert DeviceMessages(ns, ds)[..n] == DeviceMessages(ns, ds[..n]);
    }
  }

  lemma {:induction false} AllDevicesConcat(a: seq<Message>, b: seq<Message>)
    ensures AllDevices(a + b) == AllDevices(a) + AllDevices(b)
  {
    if b == [] {
      assert a + b == a;
    } else {
      assert (a + b)[..|a| + |b| - 1] == a + b[..|b| - 1];
      AllDevicesConcat(a, b[..|b| - 1]);
    }
  }

  /** Each device that has an alert is in exactly one message. */
  lemma EachDeviceOnce(ns: seq<Notification>, info: Places, rests: seq<Restaurant>)
    requires Outages(ns, info, rests)
    ensures var ds := AllDevices(Messages(ns, info, rests));
            Distinct(ds) && forall d :: d in ds <==> exists n <- ns :: n.device == d
  {
    var order := Order(ns, DeviceOf());
    OrderHasEveryKey(ns, DeviceOf());
    OutageDevices(ns, info, rests);
    KeepMembers(order, Alone(ns, info));
    SingleDevices(ns, Singles(ns, info));
    AllDevicesConcat(OutageMessages(ns, info, rests), DeviceMessages(ns, Singles(ns, info)));
    var a := AllDevices(OutageMessages(ns, info, rests));
    forall d ensures d in a <==> d in order && Folded(ns, info, d) {
      if d in order {
        FoldedIffListed(ns, info, rests, d);
      } else {
        forall r ensures d !in OfflineAt(ns, info, r) { OfflineAtMembers(ns, info, r); }
      }
    }
    DistinctConcat(a, Singles(ns, info));
    forall d ensures d in order <==> exists n <- ns :: n.device == d {
      assert forall n: Notification :: DeviceOf()(n) == n.device;
      assert d in order <==> exists n <- ns :: DeviceOf()(n) == d;
    }
  }

  /** Conservation: over all messages every alert is listed exactly as often as it was notified. */
  lemma NoAlertLostOrRepeated(ns: seq<Notification>, info: Places, rests: seq<Restaurant>)
    requires Outages(ns, info, rests)
    ensures AllMembers(Messages(ns, info, rests)) == multiset(ns)
  {
    var out := Messages(ns, info, rests);
    EachDeviceOnce(ns, info, rests);
    forall m | m in out ensures multiset(m.members) == Gathered(ns, DeviceOf(), m.devices) {
      MembersAreGathered(ns, m.devices);
      if m.devices != [] { MembersOfOne(ns, m.devices[0]); }
    }
    AllAreGathered(ns, out);
    NothingLost(ns, DeviceOf(), AllDevices(out));
  }

  lemma MembersOfOne(ns: seq<Notification>, d: Device)
    ensures MembersOf(ns, [d]) == Group(ns, DeviceOf(), d)
  {
    assert [d][..0] == [] && MembersOf(ns, []) == [];
  }

  /** A message's severity is the worst of its start ("warning" for an outage, "info" for a device) and
      its alerts; an outage names at least two devices, all of that restaurant and all offline. */
  lemma MessageMeaning(ns: seq<Notification>, info: Places, rests: seq<Restaurant>, m: Message)
    requires Outages(ns, info, rests) && m in Messages(ns, info, rests)
    ensures var start := if m.outage.Some? then Warning else Info;
            && Rank(start) <= Rank(m.severity) && (forall n <- m.members :: Rank(n.severity) <= Rank(m.severity))
            && (m.severity == start || exists n <- m.members :: n.severity == m.severity)
    ensures m.outage.Some? ==> |m.devices| >= 2 && forall d <- m.devices :: OfflineIn(ns, info, m.outage.value, d)
    ensures m.outage.None? ==> |m.devices| == 1
  {
    WorstIsMaximum(if m.outage.Some? then Warning else Info, m.members, SeverityOf());
    assert forall n: Notification :: SeverityOf()(n) == n.severity;
    if m.outage.Some? { OfflineAtMembers(ns, info, m.outage.value); }
  }

  /** Two runs over the same notifications give the same messages in the same order, whatever order
      the maps were walked in. */
  lemma MapOrderDoesNotShow(ns: seq<Notification>, info: Places, a: seq<Restaurant>, b: seq<Restaurant>)
    requires Outages(ns, info, a) && Outages(ns, info, b)
    ensures Messages(ns, info, a) == Messages(ns, info, b)
  {
    OneSortedList(a, b);
  }
}

/**
 What a set of alerts is taken to mean, of internal/alerts/problems.go: which type names the fault, and
 which devices' messages are folded into their restaurant's.
 */
module AlertMeaning {
  import opened Wrappers
  import opened Grouping
  import opened AlertFold

  // ── Causes ─────────────────────────────────────────────────────────────────

  /** Which types an operator should look at first. */
  function Turn(t: AlertType): nat {
    match t
    case LostDeviceSeen | LostDeviceHeard | SelfLocked | LeftVenue => 0
    case Offline | OfflinePeak | OfflineLong => 1
    case ChargerFlapping | WlcDead => 2
    case SlowChargeNight => 3
    case BatteryLow => 4
    case WlcContinuous => 5
    case Overheating => 6
    case DeviceCrash => 7
    case StorageLow | StorageWarning | StorageFilling => 8
    case MemoryLow | MemoryPressure => 9
    case WifiWeak | WifiUnstable => 10
    case ControlStale | NoCommandChannel => 11
    case RoleUnlocked => 12
    case RoleAppStuck => 13
    case KioskExited => 14
    case ComplianceFailed => 15
    case IdentityConflict | HardwareSerialChanged | KeyRecovered | KeyNotRegistered => 16
    case NewDevice => 17
    case OtherType(_) => 18
  }

  /** The fault a type names when nothing else is known. */
  function Alone(t: AlertType): Cause {
    match t
    case LostDeviceSeen | LostDeviceHeard | SelfLocked | LeftVenue => LostCause
    case Offline | OfflinePeak | OfflineLong => OfflineCause
    case ChargerFlapping | WlcDead | WlcContinuous => ChargingCause
    case SlowChargeNight => SlowChargeCause
    case BatteryLow => BatteryCause
    case Overheating => HeatCause
    case DeviceCrash => CrashCause
    case StorageLow | StorageWarning | StorageFilling => StorageCause
    case MemoryLow | MemoryPressure => MemoryCause
    case WifiWeak | WifiUnstable => WifiCause
    case ControlStale | NoCommandChannel => TransportCause
    case RoleUnlocked | KioskExited => KioskCause
    case RoleAppStuck => AppCause
    case ComplianceFailed => ComplianceCause
    case IdentityConflict | HardwareSerialChanged | KeyRecovered | KeyNotRegistered => IdentityCause
    case NewDevice => NewCause
    case OtherType(_) => OtherCause
  }

  /** No open alert's turn comes before this one's. */
  predicate First(has: set<AlertType>, t: AlertType) {
    t in has && forall u <- has :: Turn(t) <= Turn(u)
  }

  /** The cause of a set of alerts is what the type whose turn comes first means alone, but for two pairs:
      weak Wi-Fi explains being offline, and slow charging with a low battery is the charger. */
  lemma FirstTurnNamesCause(has: set<AlertType>, t: AlertType)
    requires First(has, t)
    ensures CauseOf(has) ==
              if Turn(t) == 1 && (WifiWeak in has || WifiUnstable in has) then WifiCause
              else if t == SlowChargeNight && BatteryLow in has then ChargingCause
              else Alone(t)
  {
    if Turn(t) <= 1 {
      LostOrOffline(has, t);
    } else if Turn(t) <= 6 {
      PowerAndHeat(has, t);
    } else if Turn(t) <= 11 {
      SoftwareAndLink(has, t);
    } else if Turn(t) <= 15 {
      KioskAndCompliance(has, t);
    } else if Turn(t) == 16 {
      Identity(has, t);
    } else {
      NewOrOther(has, t);
    }
  }

  lemma Earlier(has: set<AlertType>, t: AlertType, group: set<AlertType>)
    requires First(has, t) && forall u <- group :: Turn(u) < Turn(t)
    ensures has * group == {}
  {
    forall u | u in group ensures u !in has {}
  }

  lemma LostOrOffline(has: set<AlertType>, t: AlertType)
    requires First(has, t) && Turn(t) <= 1
    ensures CauseOf(has) ==
              if Turn(t) == 0 then LostCause
              else if WifiWeak in has || WifiUnstable in has then WifiCause else OfflineCause
  {
    if Turn(t) == 0 {
      assert t in has * LOST_TYPES;
    } else {
      Earlier(has, t, LOST_TYPES);
      assert t in has * OFFLINE_TYPES;
      WifiIff(has);
    }
  }

  lemma WifiIff(has: set<AlertType>)
    ensures has * WIFI_TYPES != {} <==> WifiWeak in has || WifiUnstable in has
  {
    if WifiWeak in has { assert WifiWeak in has * WIFI_TYPES; }
    if WifiUnstable in has { assert WifiUnstable in has * WIFI_TYPES; }
  }

  lemma PowerAndHeat(has: set<AlertType>, t: AlertType)
    requires First(has, t) && 2 <= Turn(t) <= 6
    ensures CauseOf(has) == if t == SlowChargeNight && BatteryLow in has then ChargingCause else Alone(t)
  {
    Earlier(has, t, LOST_TYPES);
    Earlier(has, t, OFFLINE_TYPES);
  }

  /** Nothing about power or heat is open. */
  lemma PowerIsFine(has: set<AlertType>, t: AlertType)
    requires First(has, t) && Turn(t) >= 7
    ensures forall u :: u in {ChargerFlapping, WlcDead, SlowChargeNight, BatteryLow, WlcContinuous, Overheating} ==>
              u !in has
  {
  }

  /** Nor about software. */
  lemma SoftwareIsFine(has: set<AlertType>, t: AlertType)
    requires First(has, t) && Turn(t) >= 12
    ensures forall u :: u in {DeviceCrash, StorageLow, StorageWarning, StorageFilling, MemoryLow, MemoryPressure} ==>
              u !in has
  {
  }

  lemma SoftwareAndLink(has: set<AlertType>, t: AlertType)
    requires First(has, t) && 7 <= Turn(t) <= 11
    ensures CauseOf(has) == Alone(t)
  {
    PowerIsFine(has, t);
    Earlier(has, t, LOST_TYPES);
    Earlier(has, t, OFFLINE_TYPES);
    WifiIff(has);
  }

  lemma KioskAndCompliance(has: set<AlertType>, t: AlertType)
    requires First(has, t) && 12 <= Turn(t) <= 15
    ensures CauseOf(has) == Alone(t)
  {
    PowerIsFine(has, t);
    SoftwareIsFine(has, t);
    Earlier(has, t, LOST_TYPES);
    Earlier(has, t, OFFLINE_TYPES);
    Earlier(has, t, WIFI_TYPES);
  }

  lemma Identity(has: set<AlertType>, t: AlertType)
    requires First(has, t) && Turn(t) == 16
    ensures CauseOf(has) == IdentityCause
  {
    PowerIsFine(has, t);
    SoftwareIsFine(has, t);
    Earlier(has, t, LOST_TYPES);
    Earlier(has, t, OFFLINE_TYPES);
    Earlier(has, t, WIFI_TYPES);
    assert t in has * IDENTITY_TYPES;
  }

  lemma NewOrOther(has: set<AlertType>, t: AlertType)
    requires First(has, t) && Turn(t) >= 17
    ensures CauseOf(has) == if t == NewDevice then NewCause else OtherCause
  {
    PowerIsFine(has, t);
    SoftwareIsFine(has, t);
    Earlier(has, t, LOST_TYPES);
    Earlier(has, t, OFFLINE_TYPES);
    Earlier(has, t, WIFI_TYPES);
    Earlier(has, t, IDENTITY_TYPES);
  }

  lemma NothingKnown()
    ensures CauseOf({}) == OtherCause
  {
  }

  /** A message is critical exactly when one of its alerts is, and only information exactly when it is a
      device's and all of them are. */
  lemma SeverityShows(ns: seq<Notification>, info: Places, rests: seq<Restaurant>, m: Message)
    requires Outages(ns, info, rests) && m in Messages(ns, info, rests)
    ensures m.severity == Critical <==> exists n <- m.members :: n.severity == Critical
    ensures m.severity == Info <==> m.outage.None? && forall n <- m.members :: n.severity == Info
  {
    MessageMeaning(ns, info, rests, m);
    assert forall n <- m.members :: Rank(n.severity) <= Rank(m.severity);
  }

  // ── Restaurants ────────────────────────────────────────────────────────────

  /** The device has an alert, its alerts mean it went offline, and it is known to be at the restaurant. */
  ghost predicate OfflineHere(ns: seq<Notification>, info: Places, r: Restaurant, d: Device) {
    && (exists n <- ns :: n.device == d) && d in info && info[d] == r
    && CauseOf(set n | n in ns && n.device == d :: n.kind) == OfflineCause
  }

  lemma OfflineHereIff(ns: seq<Notification>, info: Places, r: Restaurant, d: Device)
    ensures d in OfflineAt(ns, info, r) <==> OfflineHere(ns, info, r, d)
  {
    OfflineAtMembers(ns, info, r);
    OrderHasEveryKey(ns, DeviceOf());
    GroupHasItsMembers(ns, DeviceOf(), d);
    assert TypesOf(Group(ns, DeviceOf(), d)) == set n | n in ns && n.device == d :: n.kind;
    assert (exists n <- ns :: n.device == d) <==> exists n <- ns :: DeviceOf()(n) == d;
  }

  /** A restaurant has a message exactly when two of its devices went offline, and the message names exactly
      those of its devices that did. */
  lemma OutageMessageIff(ns: seq<Notification>, info: Places, rests: seq<Restaurant>, r: Restaurant)
    requires Outages(ns, info, rests)
    ensures (exists m <- Messages(ns, info, rests) :: m.outage == Some(r))
       <==> exists d, e :: d != e && OfflineHere(ns, info, r, d) && OfflineHere(ns, info, r, e)
    ensures forall m <- Messages(ns, info, rests) :: m.outage == Some(r) ==>
              forall d :: d in m.devices <==> OfflineHere(ns, info, r, d)
  {
    forall d ensures d in OfflineAt(ns, info, r) <==> OfflineHere(ns, info, r, d) {
      OfflineHereIff(ns, info, r, d);
    }
    OfflineAtMembers(ns, info, r);
    MessageOf(ns, info, rests, r);
    TwoDistinctIff(OfflineAt(ns, info, r));
  }

  lemma MessageOf(ns: seq<Notification>, info: Places, rests: seq<Restaurant>, r: Restaurant)
    ensures forall m <- Messages(ns, info, rests) :: m.outage == Some(r) ==> m.devices == OfflineAt(ns, info, r)
    ensures (exists m <- Messages(ns, info, rests) :: m.outage == Some(r)) <==> r in rests
  {
    var out := OutageMessages(ns, info, rests);
    if r in rests {
      var i :| 0 <= i < |rests| && rests[i] == r;
      assert out[i] in Messages(ns, info, rests);
    }
  }

  lemma TwoDistinctIff<T(!new)>(xs: seq<T>)
    requires Distinct(xs)
    ensures |xs| >= 2 <==> exists x, y :: x != y && x in xs && y in xs
  {
    if |xs| >= 2 { assert xs[0] in xs && xs[1] in xs && xs[0] != xs[1]; }
  }
}

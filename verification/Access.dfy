/**
 The access evaluator of internal/dashboard/access.go, for one request at one instant: the decision on
 one device, the shortcuts that lists take instead of it, and the narrowing of bulk targets. Level
 ranks, expiry and device states are those of internal/db.
 */
module Access {
  import opened Wrappers
  import opened Grouping
  import opened SortedLists
  import opened Targets

  datatype Role =
    | Admin | FleetAdmin | FleetManager | Engineer | Operator | Field | Support | Viewer
    | Owner | Staff | UnknownRole

  datatype Action =
    | View | Screenshot | InstallApk | Uninstall | Reboot | Query | Logcat | Kiosk | LostMode | Wifi
    | Notes | Queue | Remote | Shell | Ota | Alerts | Groups | Deploy | UnknownAction

  const ALL_ACTIONS: set<Action> := {
    View, Screenshot, InstallApk, Uninstall, Reboot, Query, Logcat, Kiosk, LostMode, Wifi,
    Notes, Queue, Remote, Shell, Ota, Alerts, Groups, Deploy}

  const LEVEL_NONE := 0
  const LEVEL_VIEW := 1
  const LEVEL_OPERATE := 2
  const LEVEL_MANAGE := 3

  predicate Sensitive(a: Action) {
    a in {Remote, Shell, Ota}
  }

  predicate DevOnly(a: Action) {
    a in {Shell, Ota}
  }

  predicate IsCustomer(r: Role) {
    r == Owner || r == Staff
  }

  /** What a role can ever do. The super admin is above it and never asks. */
  function RoleCeiling(r: Role): set<Action> {
    match r
    case Viewer => {View}
    case Support => {View, Screenshot, Reboot, Kiosk, LostMode, Notes, Alerts}
    case Owner => {View, Screenshot, Reboot, Kiosk, LostMode, Alerts}
    case Staff => {View, Reboot, LostMode, Alerts}
    case Admin => {}
    case UnknownRole => {}
    case FleetAdmin => set a | a in ALL_ACTIONS && (!DevOnly(a) || a == Ota)
    case _ => set a | a in ALL_ACTIONS && !DevOnly(a)
  }

  predicate SensitiveByDefault(r: Role, a: Action) {
    || (a == Ota && r == FleetAdmin)
    || (a == Remote && r in {FleetAdmin, FleetManager, Operator, Engineer, Field})
  }

  function NeedLevel(a: Action): nat {
    match a
    case View | Screenshot | Query | Logcat => LEVEL_VIEW
    case Reboot | Kiosk | LostMode | InstallApk | Uninstall | Notes | Queue | Alerts => LEVEL_OPERATE
    case _ => LEVEL_MANAGE
  }

  // ── Devices and grants ─────────────────────────────────────────────────────

  datatype DeviceState = Lab | ToPlace | SettingUp | InService

  datatype Scope = Scope(venue: Option<Id>, groups: seq<Id>, handedOver: bool, queued: bool, enrolledBy: string)
  {
    function State(): DeviceState {
      if venue.None? && queued then ToPlace
      else if venue.None? then Lab
      else if handedOver then InService
      else SettingUp
    }
  }

  /** A device enrolled after the scopes were loaded: no venue, Lab. */
  const NO_SCOPE := Scope(None, [], false, false, "")

  datatype Reach =
    | Everywhere
    | InState(state: DeviceState)
    | InGroup(group: Id)
    | AtVenue(venue: Id)
    | OnVisits
    | OwnEnrolled
    | Nowhere

  /** A level on a reach until an instant. A stored level name that is unknown has rank 0. */
  datatype Grant = Grant(reach: Reach, rank: nat, until: Option<int>)

  predicate Expired(g: Grant, now: int) {
    g.until.Some? && g.until.value <= now
  }

  /** A customer's rule: its effect, the actions it names (star: "*"), and the place it is about. */
  datatype RulePlace = RuleVenue(venue: Id) | RuleDevice(device: Device) | RuleElsewhere

  datatype Rule = Rule(deny: bool, actions: set<Action>, star: bool, place: RulePlace)

  datatype Access = Access(
    role: Role, username: string, levels: seq<Grant>, rules: seq<Rule>,
    scopes: map<Device, Scope>, visits: set<Id>, now: int)
  {
    predicate Unrestricted() {
      role == Admin
    }

    function ScopeOf(dev: Device): Scope {
      if dev in scopes then scopes[dev] else NO_SCOPE
    }

    predicate Covers(g: Grant, sc: Scope) {
      match g.reach
      case Everywhere => true
      case InState(state) => state == sc.State()
      case InGroup(group) => group in sc.groups
      case AtVenue(venue) => sc.venue == Some(venue)
      case OnVisits => sc.venue.Some? && sc.venue.value in visits
      case OwnEnrolled => sc.enrolledBy != "" && sc.enrolledBy == username && !sc.handedOver
      case Nowhere => false
    }

    /** The grant counts for the device now. */
    predicate Applies(g: Grant, dev: Device) {
      !Expired(g, now) && Covers(g, ScopeOf(dev))
    }

    predicate SeesEverywhere() {
      exists g <- levels :: g.reach == Everywhere && !Expired(g, now) && g.rank >= LEVEL_VIEW
    }
  }

  // ── The level on a device ──────────────────────────────────────────────────

  function BestOf(a: Access, gs: seq<Grant>, dev: Device): nat {
    if gs == [] then LEVEL_NONE
    else
      var best, g := BestOf(a, gs[..|gs| - 1], dev), gs[|gs| - 1];
      if a.Applies(g, dev) && g.rank > best then g.rank else best
  }

  function LevelOn(a: Access, dev: Device): nat {
    if a.Unrestricted() then LEVEL_MANAGE else BestOf(a, a.levels, dev)
  }

  /** The loop over the grants, with the grant that gave the level: the first of the highest rank. */
  method DeviceLevel(a: Access, dev: Device) returns (best: nat, from: Option<nat>)
    ensures best == LevelOn(a, dev)
    ensures from.Some? ==> from.value < |a.levels| && a.Applies(a.levels[from.value], dev)
    ensures from.Some? ==> a.levels[from.value].rank == best
    ensures from.Some? ==> forall i :: 0 <= i < from.value && a.Applies(a.levels[i], dev) ==> a.levels[i].rank < best
    ensures from.None? ==> a.Unrestricted() || best == LEVEL_NONE
  {
    if a.Unrestricted() {
      return LEVEL_MANAGE, None;
    }
    best, from := LEVEL_NONE, None;
    for i := 0 to |a.levels|
      invariant best == BestOf(a, a.levels[..i], dev)
      invariant from.None? ==> best == LEVEL_NONE
      invariant from.Some? ==> from.value < i && a.Applies(a.levels[from.value], dev)
      invariant from.Some? ==> a.levels[from.value].rank == best > 0
      invariant from.Some? ==> forall k :: 0 <= k < from.value && a.Applies(a.levels[k], dev) ==>
                                 a.levels[k].rank < best
      invariant forall k :: 0 <= k < i && a.Applies(a.levels[k], dev) ==> a.levels[k].rank <= best
    {
      var g := a.levels[i];
      assert a.levels[..i + 1][..i] == a.levels[..i];
      if Expired(g, a.now) || g.rank <= best || !a.Covers(g, a.ScopeOf(dev)) {
        continue;
      }
      best, from := g.rank, Some(i);
    }
    assert a.levels[..|a.levels|] == a.levels;
  }

  /** The level is the maximum over the unexpired grants that cover the device. */
  lemma {:induction false} BestIsMaximum(a: Access, gs: seq<Grant>, dev: Device)
    ensures forall g <- gs :: a.Applies(g, dev) ==> g.rank <= BestOf(a, gs, dev)
    ensures BestOf(a, gs, dev) == LEVEL_NONE || exists g <- gs :: a.Applies(g, dev) && g.rank == BestOf(a, gs, dev)
  {
    if gs != [] {
      BestIsMaximum(a, gs[..|gs| - 1], dev);
      assert forall g <- gs :: g == gs[|gs| - 1] || g in gs[..|gs| - 1];
    }
  }

  /** More grants, in any order, never lower the level; in particular the order does not matter, and
      neither does a grant twice. */
  lemma MoreGrantsNeverLower(a: Access, fewer: seq<Grant>, more: seq<Grant>, dev: Device)
    requires forall g <- fewer :: g in more
    ensures BestOf(a, fewer, dev) <= BestOf(a, more, dev)
    ensures (forall g <- more :: g in fewer) ==> BestOf(a, fewer, dev) == BestOf(a, more, dev)
  {
    BestIsMaximum(a, fewer, dev);
    BestIsMaximum(a, more, dev);
  }

  /** As time passes a level only falls. */
  lemma ExpiryNeverRaises(a: Access, later: int, dev: Device)
    requires a.now <= later
    ensures LevelOn(a.(now := later), dev) <= LevelOn(a, dev)
  {
    var b := a.(now := later);
    BestIsMaximum(a, a.levels, dev);
    BestIsMaximum(b, a.levels, dev);
    assert forall g :: b.Applies(g, dev) ==> a.Applies(g, dev);
  }

  // ── The decision ───────────────────────────────────────────────────────────

  /** The state rule, for the roles that get this far: fleet-level questions, and customers. */
  predicate StateAllows(a: Access, action: Action, dev: Option<Device>) {
    if dev.None? then
      a.role != Field && (a.role != Engineer || action == Alerts)
    else
      var st := a.ScopeOf(dev.value).State();
      match a.role
      case Engineer => st == Lab || action in {View, Screenshot, Query}
      case FleetManager => st != Lab
      case Operator | Support | Viewer | Staff => st == InService
      case Owner => !(st == Lab || st == ToPlace || (st == SettingUp && action != View))
      case Field => st == SettingUp
      case _ => true
  }

  predicate RuleCovers(a: Access, r: Rule, dev: Device) {
    && (View in r.actions || r.star)
    && match r.place
       case RuleVenue(venue) => dev in a.scopes && a.scopes[dev].venue == Some(venue)
       case RuleDevice(device) => device == dev
       case RuleElsewhere => false
  }

  /** The venue wall: some rule shows them the device and none denies it. */
  predicate DecideCustomer(a: Access, dev: Option<Device>) {
    && dev.Some?
    && (exists r <- a.rules :: !r.deny && RuleCovers(a, r, dev.value))
    && (forall r <- a.rules :: r.deny ==> !RuleCovers(a, r, dev.value))
  }

  predicate Decide(a: Access, action: Action, dev: Option<Device>) {
    if a.role == Admin then true
    else if action == UnknownAction then false
    else if action !in RoleCeiling(a.role) then false
    else if dev.Some? && !IsCustomer(a.role) then LevelOn(a, dev.value) >= NeedLevel(action)
    else if !StateAllows(a, action, dev) then false
    else if IsCustomer(a.role) then DecideCustomer(a, dev)
    else !Sensitive(action) || SensitiveByDefault(a.role, action)
  }

  predicate CanDevice(a: Access, action: Action, dev: Device) {
    Decide(a, action, Some(dev))
  }

  /** For everyone but customers and the super admin, the decision on a device is the role's ceiling and the
      level. */
  lemma StaffDecision(a: Access, action: Action, dev: Device)
    requires !a.Unrestricted() && !IsCustomer(a.role)
    ensures CanDevice(a, action, dev) <==> action in RoleCeiling(a.role) && LevelOn(a, dev) >= NeedLevel(action)
  {
  }

  /** Whoever may do something on a device may see it: no action outruns visibility, for any role. */
  lemma ActingNeedsSeeing(a: Access, action: Action, dev: Device)
    requires CanDevice(a, action, dev)
    ensures CanDevice(a, View, dev)
  {
    if a.role != Admin {
      ViewComesFirst(a.role, action);
      if IsCustomer(a.role) { StateShows(a, action, dev); }
    }
  }

  lemma ViewComesFirst(r: Role, action: Action)
    requires action in RoleCeiling(r)
    ensures View in RoleCeiling(r) && NeedLevel(View) <= NeedLevel(action)
  {}

  lemma StateShows(a: Access, action: Action, dev: Device)
    requires IsCustomer(a.role) && StateAllows(a, action, Some(dev))
    ensures StateAllows(a, View, Some(dev))
  {}

  /** A device-level decision is monotone in the grants. */
  lemma MoreGrantsNeverRevoke(a: Access, more: seq<Grant>, action: Action, dev: Device)
    requires forall g <- a.levels :: g in more
    requires CanDevice(a, action, dev)
    ensures CanDevice(a.(levels := more), action, dev)
  {
    var b := a.(levels := more);
    MoreGrantsNeverLower(a, a.levels, more, dev);
    SameBest(a, b, more, dev);
  }

  lemma {:induction false} SameBest(a: Access, b: Access, gs: seq<Grant>, dev: Device)
    requires a.now == b.now && a.scopes == b.scopes && a.visits == b.visits && a.username == b.username
    ensures BestOf(a, gs, dev) == BestOf(b, gs, dev)
  {
    if gs != [] { SameBest(a, b, gs[..|gs| - 1], dev); }
  }

  // ── What lists show ────────────────────────────────────────────────────────

  predicate HidesDevices(a: Access) {
    if a.Unrestricted() then false
    else if IsCustomer(a.role) then true
    else !a.SeesEverywhere()
  }

  predicate Visible(a: Access, dev: Device) {
    !HidesDevices(a) || CanDevice(a, View, dev)
  }

  lemma EverywhereCovers(a: Access, dev: Device)
    requires a.SeesEverywhere()
    ensures LevelOn(a, dev) >= LEVEL_VIEW
  {
    BestIsMaximum(a, a.levels, dev);
    var g :| g in a.levels && g.reach == Everywhere && !Expired(g, a.now) && g.rank >= LEVEL_VIEW;
    assert a.Applies(g, dev);
  }

  /** The shortcut that skips the check for whoever sees everywhere is the full decision on every
      device, except for one family: a role without "view" in its ceiling that holds a grant everywhere
      is listed the whole fleet, of which it may see nothing. */
  lemma VisibleIsDecisionIff(a: Access)
    ensures (forall dev :: Visible(a, dev) == CanDevice(a, View, dev))
       <==> (a.Unrestricted() || View in RoleCeiling(a.role) || !a.SeesEverywhere())
  {
    forall dev ensures Visible(a, dev) == CanDevice(a, View, dev)
                  <==> (a.Unrestricted() || View in RoleCeiling(a.role) || !a.SeesEverywhere())
    {
      if a.SeesEverywhere() { EverywhereCovers(a, dev); }
    }
    assert Visible(a, 0) == CanDevice(a, View, 0)
      <==> (a.Unrestricted() || View in RoleCeiling(a.role) || !a.SeesEverywhere());
  }

  /** It happens: a stored role the code does not know, with a grant everywhere. */
  lemma ListedButNotAllowed(dev: Device)
    ensures var a := Access(UnknownRole, "user", [Grant(Everywhere, LEVEL_VIEW, None)], [], map[], {}, 0);
            Visible(a, dev) && !CanDevice(a, View, dev)
  {
    var a := Access(UnknownRole, "user", [Grant(Everywhere, LEVEL_VIEW, None)], [], map[], {}, 0);
    assert a.levels[0] in a.levels;
    assert a.SeesEverywhere();
  }

  /** Only an unknown role lacks "view". */
  lemma KnownRolesMayView(r: Role)
    ensures View in RoleCeiling(r) || r == Admin <==> r != UnknownRole
  {
  }

  /** The list filter: none at all, or exactly the loaded devices the user may see, in order. */
  method VisibleIDs(a: Access) returns (ids: Option<seq<Device>>)
    ensures ids.None? <==> !HidesDevices(a)
    ensures ids.None? <==>
              || a.role == Admin
              || (a.role !in {Owner, Staff} && exists g <- a.levels ::
                    g.reach == Everywhere && (g.until.None? || g.until.value > a.now) && g.rank >= LEVEL_VIEW)
    ensures ids.Some? ==> Ascending(ids.value)
    ensures ids.Some? ==> forall dev :: dev in ids.value <==> dev in a.scopes && CanDevice(a, View, dev)
  {
    if !HidesDevices(a) {
      return None;
    }
    var kept: seq<Device> := [];
    var left := a.scopes.Keys;
    while left != {}
      invariant left <= a.scopes.Keys && Ascending(kept)
      invariant forall dev :: dev in kept <==> dev in a.scopes && dev !in left && CanDevice(a, View, dev)
      decreases |left|
    {
      var id :| id in left;
      left := left - {id};
      if CanDevice(a, View, id) {
        kept := InsertInOrder(id, kept);
      }
    }
    return Some(kept);
  }

  // ── Bulk targets ───────────────────────────────────────────────────────────

  function Allowed(a: Access, action: Action): Device -> bool {
    (d: Device) => CanDevice(a, action, d)
  }

  function HighEnough(a: Access, action: Action): Device -> bool {
    (d: Device) => LevelOn(a, d) >= NeedLevel(action)
  }

  function SenderOf(a: Access, action: Action): Sender {
    Sender(a.Unrestricted(), a.role == Engineer, !HidesDevices(a), Allowed(a, action), HighEnough(a, action))
  }

  /** The policy applied to one send, for any user and action. fleet and members are what the store
      answers, None when it fails. */
  method EnforceCommandTargets(a: Access, action: Action, target: Target, ids: seq<Id>,
                               fleet: Option<seq<Device>>, members: Option<seq<Device>>)
    returns (r: Result<Sent, Refusal>)
    ensures a.Unrestricted() ==> r == Ok(Sent(ids, target))
    ensures !a.Unrestricted() ==>
              NeverWidens(SenderOf(a, action), target, ids, Resolved(target, ids, fleet, members), r)
  {
    r := Enforce(SenderOf(a, action), target, ids, fleet, members);
  }

  /** Nothing is sent to a device the decision refuses: every device a send reaches now, listed or a
      member of a group left as a group, passes it. */
  lemma EveryTargetPasses(a: Access, action: Action, target: Target, ids: seq<Id>, devs: seq<Device>, sent: Sent,
                          d: Device)
    requires !a.Unrestricted() && NeverWidens(SenderOf(a, action), target, ids, Some(devs), Ok(sent))
    requires if sent.target == GroupTargets then d in devs else d in sent.ids
    ensures d in devs && CanDevice(a, action, d)
  {
    KeepMembers(devs, Allowed(a, action));
    assert Allowed(a, action)(d);
  }

  /** An engineer whose level suffices everywhere is past the levels: what is left to refuse is the
      action itself, so a bulk send goes to every device or to none. */
  lemma EngineerAllOrNothing(a: Access, action: Action, target: Target, ids: seq<Id>, devs: seq<Device>,
                             r: Result<Sent, Refusal>)
    requires a.role == Engineer && NeverWidens(SenderOf(a, action), target, ids, Some(devs), r)
    ensures r.Ok? ==> r.value.ids == devs
    ensures r.Ok? && devs != [] ==> forall d <- devs :: LevelOn(a, d) >= NeedLevel(action) && CanDevice(a, action, d)
  {
    if r.Ok? {
      assert forall d <- devs :: HighEnough(a, action)(d);
      forall d | d in devs ensures Allowed(a, action)(d) == (action in RoleCeiling(Engineer)) {
        EngineerPastLevels(a, action, d);
      }
      if action in RoleCeiling(Engineer) {
        KeptAll(devs, Allowed(a, action));
        assert forall d <- devs :: Allowed(a, action)(d);
      } else {
        KeptNone(devs, Allowed(a, action));
      }
    }
  }

  lemma EngineerPastLevels(a: Access, action: Action, d: Device)
    requires a.role == Engineer && HighEnough(a, action)(d)
    ensures LevelOn(a, d) >= NeedLevel(action) && CanDevice(a, action, d) == (action in RoleCeiling(Engineer))
  {}

  /** A group left as a group is sent by someone whom no device, now or later, is hidden from. */
  lemma GroupOnlyForWholeFleet(a: Access, action: Action, target: Target, ids: seq<Id>, devs: seq<Device>, sent: Sent,
                               later: Device)
    ensures !a.Unrestricted() && NeverWidens(SenderOf(a, action), target, ids, Some(devs), Ok(sent))
            && sent.target == GroupTargets ==>
              sent.ids == ids && target == GroupTargets && LevelOn(a, later) >= LEVEL_VIEW
  {
    if a.SeesEverywhere() { EverywhereCovers(a, later); }
  }
}

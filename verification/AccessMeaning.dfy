/**
 What the decision of internal/dashboard/access.go comes to, on the stored fields themselves: where a grant
 reaches, what a level opens, what each role adds to the one below, and the customers' wall.
 */
module AccessMeaning {
  import opened Wrappers
  import opened Targets
  import opened Access

  // ── Grants ─────────────────────────────────────────────────────────────────

  /** Where each kind of grant gives its level, for someone who holds no other, until it ends; a device the
      scopes do not list is at no venue, in no group and enrolled by nobody. */
  lemma OneGrantReaches(a: Access, g: Grant, dev: Device)
    requires a.role != Admin && a.levels == [g]
    ensures var sc := if dev in a.scopes then a.scopes[dev] else Scope(None, [], false, false, "");
            var reached :=
              match g.reach
              case Everywhere => true
              case InGroup(group) => group in sc.groups
              case AtVenue(venue) => sc.venue == Some(venue)
              case OnVisits => sc.venue.Some? && sc.venue.value in a.visits
              case OwnEnrolled => sc.enrolledBy == a.username && a.username != "" && !sc.handedOver
              case InState(Lab) => sc.venue.None? && !sc.queued
              case InState(ToPlace) => sc.venue.None? && sc.queued
              case InState(SettingUp) => sc.venue.Some? && !sc.handedOver
              case InState(InService) => sc.venue.Some? && sc.handedOver
              case Nowhere => false;
            LevelOn(a, dev) == if reached && (g.until.None? || a.now < g.until.value) then g.rank else LEVEL_NONE
  {
    assert [g][..0] == [] && BestOf(a, [], dev) == LEVEL_NONE;
  }

  /** With several grants the level is the best that any one of them would give. */
  lemma LevelIsBestSingle(a: Access, dev: Device)
    requires a.role != Admin
    ensures forall g <- a.levels :: LevelOn(a.(levels := [g]), dev) <= LevelOn(a, dev)
    ensures LevelOn(a, dev) == LEVEL_NONE
            || exists g <- a.levels :: LevelOn(a.(levels := [g]), dev) == LevelOn(a, dev)
  {
    BestIsMaximum(a, a.levels, dev);
    forall g | g in a.levels
      ensures LevelOn(a.(levels := [g]), dev) == if a.Applies(g, dev) then g.rank else LEVEL_NONE
    {
      OneGrantReaches(a.(levels := [g]), g, dev);
    }
  }

  // ── Roles and levels ───────────────────────────────────────────────────────

  /** Each role holds what the one below it holds and these actions more. Only the admin pushes firmware,
      nobody but the super admin has the shell, and an unknown role holds nothing. */
  lemma RolesNest()
    ensures RoleCeiling(UnknownRole) == {} && RoleCeiling(Viewer) == {View}
    ensures RoleCeiling(Staff) == RoleCeiling(Viewer) + {Reboot, LostMode, Alerts}
    ensures RoleCeiling(Owner) == RoleCeiling(Staff) + {Screenshot, Kiosk}
    ensures RoleCeiling(Support) == RoleCeiling(Owner) + {Notes}
    ensures forall r :: r in {Operator, Engineer, Field, FleetManager} ==> RoleCeiling(r) == RoleCeiling(Support) + TEAM
    ensures RoleCeiling(FleetAdmin) == RoleCeiling(FleetManager) + {Ota}
  {
    forall r | r in {Operator, Engineer, Field, FleetManager} ensures RoleCeiling(r) == RoleCeiling(Support) + TEAM {
      TeamCeiling(r);
    }
  }

  /** What the team's own roles hold beyond support. */
  const TEAM: set<Action> := {InstallApk, Uninstall, Query, Logcat, Wifi, Queue, Remote, Groups, Deploy}

  lemma TeamCeiling(r: Role)
    requires r in {Operator, Engineer, Field, FleetManager}
    ensures RoleCeiling(r) == RoleCeiling(Support) + TEAM
  {
  }

  const LOOKS: set<Action> := {View, Screenshot, Query, Logcat}
  const EVERYDAY: set<Action> := {Reboot, Kiosk, LostMode, InstallApk, Uninstall, Notes, Queue, Alerts}

  lemma NeedsIff(action: Action, level: nat)
    requires action in ALL_ACTIONS
    ensures NeedLevel(action) <= level <==>
              level >= 3 || (level >= 1 && action in LOOKS) || (level == 2 && action in EVERYDAY)
  {
  }

  /** On a device a level opens these actions to a team member, as far as the role goes, and nothing else
      counts: not the device's state, not any rule. */
  lemma LevelsOpen(a: Access, action: Action, dev: Device)
    requires a.role !in {Admin, Owner, Staff}
    ensures var level := LevelOn(a, dev);
            CanDevice(a, action, dev) <==>
              && action in RoleCeiling(a.role)
              && (level >= 3 || (level >= 1 && action in LOOKS) || (level == 2 && action in EVERYDAY))
  {
    StaffDecision(a, action, dev);
    CeilingIsKnown(a.role);
    if action in RoleCeiling(a.role) { NeedsIff(action, LevelOn(a, dev)); }
  }

  lemma CeilingIsKnown(r: Role)
    ensures RoleCeiling(r) <= ALL_ACTIONS
  {
  }

  // ── Customers ──────────────────────────────────────────────────────────────

  /** The rule speaks of seeing this device, or of seeing everything at this venue. */
  predicate Names(r: Rule, dev: Device, venue: Id) {
    (View in r.actions || r.star) && (r.place == RuleDevice(dev) || r.place == RuleVenue(venue))
  }

  /** A customer acts on a device exactly when it is at a venue, in service (an owner may already look while it
      is being set up), one of their rules shows it to them and none hides it, and the role may. */
  lemma CustomerDecisionIff(a: Access, action: Action, dev: Device)
    requires a.role in {Owner, Staff}
    ensures CanDevice(a, action, dev) <==>
              && action in RoleCeiling(a.role)
              && dev in a.scopes && a.scopes[dev].venue.Some?
              && (a.scopes[dev].handedOver || (a.role == Owner && action == View))
              && (exists r <- a.rules :: !r.deny && Names(r, dev, a.scopes[dev].venue.value))
              && (forall r <- a.rules :: Names(r, dev, a.scopes[dev].venue.value) ==> !r.deny)
  {
    CeilingIsKnown(a.role);
    if dev in a.scopes && a.scopes[dev].venue.Some? {
      forall r | r in a.rules ensures RuleCovers(a, r, dev) <==> Names(r, dev, a.scopes[dev].venue.value) {}
    }
  }

  /** Without a device: customers and Field may do nothing, an engineer only answer alerts, and remote control
      and firmware are for those who hold them without a rule. */
  lemma FleetDecisionIff(a: Access, action: Action)
    ensures Decide(a, action, None) <==>
              || a.role == Admin
              || (&& action in RoleCeiling(a.role)
                  && a.role !in {Owner, Staff, Field}
                  && (a.role == Engineer ==> action == Alerts)
                  && (action == Remote ==> a.role in {FleetAdmin, FleetManager, Operator})
                  && (action == Ota ==> a.role == FleetAdmin))
  {
    CeilingIsKnown(a.role);
  }
}

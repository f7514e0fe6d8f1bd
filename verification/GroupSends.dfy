/**
 What a send left as a group may reach: internal/dashboard/access.go decides over the group's members now,
 and the members are read again at delivery.
 */
module GroupSends {
  import opened Wrappers
  import opened Targets
  import opened Access

  /** Some grant that has not ended reaches every device of the state, at least at the level. */
  predicate StateGranted(levels: seq<Grant>, now: int, state: DeviceState, need: nat) {
    exists g <- levels :: !Expired(g, now) && (g.reach == Everywhere || g.reach == InState(state)) && g.rank >= need
  }

  /** A group is read again at delivery, so a send left as a group may reach devices that were not members.
      Exactly when the decision would let every such device, in whatever scope, through: when the role may
      do the action at all and in every device state a grant of the state or of everywhere suffices. */
  lemma GroupStaysAllowedIff(a: Access, action: Action)
    requires !a.Unrestricted() && !IsCustomer(a.role)
    ensures (forall scopes: map<Device, Scope>, later: Device :: CanDevice(a.(scopes := scopes), action, later))
       <==> action in RoleCeiling(a.role)
            && (forall state: DeviceState :: StateGranted(a.levels, a.now, state, NeedLevel(action)))
  {
    var need := NeedLevel(action);
    if action in RoleCeiling(a.role) && forall state: DeviceState :: StateGranted(a.levels, a.now, state, need) {
      forall scopes: map<Device, Scope>, later: Device ensures CanDevice(a.(scopes := scopes), action, later) {
        var b := a.(scopes := scopes);
        assert StateGranted(b.levels, b.now, b.ScopeOf(later).State(), NeedLevel(action));
        GrantedReaches(b, action, later);
      }
    } else if action in RoleCeiling(a.role) {
      var state: DeviceState :| !StateGranted(a.levels, a.now, state, NeedLevel(action));
      var scope := PlainScope(a, state);
      NotGrantedRefuses(a.(scopes := map[0 := scope]), action, 0, state);
      assert !CanDevice(a.(scopes := map[0 := scope]), action, 0);
    } else {
      assert !CanDevice(a.(scopes := map[]), action, 0);
    }
  }

  lemma GrantedReaches(a: Access, action: Action, dev: Device)
    requires !a.Unrestricted() && !IsCustomer(a.role) && action in RoleCeiling(a.role)
    requires StateGranted(a.levels, a.now, a.ScopeOf(dev).State(), NeedLevel(action))
    ensures CanDevice(a, action, dev)
  {
    var g :| g in a.levels && !Expired(g, a.now) && g.rank >= NeedLevel(action)
             && (g.reach == Everywhere || g.reach == InState(a.ScopeOf(dev).State()));
    assert a.Applies(g, dev);
    LevelAtLeast(a, g, dev);
    StaffDecision(a, action, dev);
  }

  lemma LevelAtLeast(a: Access, g: Grant, dev: Device)
    requires !a.Unrestricted() && g in a.levels && a.Applies(g, dev)
    ensures LevelOn(a, dev) >= g.rank
  {
    BestIsMaximum(a, a.levels, dev);
  }

  /** A device of the state that nothing but its state speaks for. */
  predicate OnlyItsState(a: Access, scope: Scope, state: DeviceState) {
    && scope.State() == state && scope.groups == [] && scope.enrolledBy == ""
    && (scope.venue.Some? ==>
          scope.venue.value !in a.visits && forall g <- a.levels :: g.reach != AtVenue(scope.venue.value))
  }

  lemma NotGrantedRefuses(a: Access, action: Action, dev: Device, state: DeviceState)
    requires !a.Unrestricted() && !IsCustomer(a.role)
    requires !StateGranted(a.levels, a.now, state, NeedLevel(action)) && OnlyItsState(a, a.ScopeOf(dev), state)
    ensures !CanDevice(a, action, dev)
  {
    StaffDecision(a, action, dev);
    BestIsMaximum(a, a.levels, dev);
    forall g | g in a.levels && a.Applies(g, dev) ensures g.rank < NeedLevel(action) {
      assert g.reach == Everywhere || g.reach == InState(state);
    }
  }

  lemma PlainScope(a: Access, state: DeviceState) returns (scope: Scope)
    ensures OnlyItsState(a, scope, state)
  {
    var venue := FreshVenue(a.levels, a.visits);
    scope := match state
      case Lab => Scope(None, [], false, false, "")
      case ToPlace => Scope(None, [], false, true, "")
      case SettingUp => Scope(Some(venue), [], false, false, "")
      case InService => Scope(Some(venue), [], true, false, "");
  }

  lemma {:induction false} FreshVenue(gs: seq<Grant>, visits: set<Id>) returns (venue: Id)
    ensures venue !in visits && forall g <- gs :: g.reach != AtVenue(venue)
  {
    if gs == [] {
      venue := Above(visits);
    } else {
      var last := gs[|gs| - 1].reach;
      venue := FreshVenue(gs[..|gs| - 1], if last.AtVenue? then visits + {last.venue} else visits);
    }
  }

  lemma Above(ids: set<Id>) returns (above: Id)
    ensures forall id <- ids :: id < above
    decreases |ids|
  {
    if ids == {} {
      above := 0;
    } else {
      var id: Id :| id in ids;
      var rest := Above(ids - {id});
      above := if id < rest then rest else id + 1;
      forall x | x in ids ensures x < above {
        assert x == id || x in ids - {id};
      }
    }
  }

  /** An operator who sees everything and manages what is in service. */
  const OPERATOR := Access(
    Operator, "op", [Grant(Everywhere, LEVEL_VIEW, None), Grant(InState(InService), LEVEL_MANAGE, None)], [],
    map[1 := Scope(Some(7), [3], true, false, ""), 2 := Scope(None, [3], false, false, "")], {}, 0)

  lemma OperatorLevels()
    ensures LevelOn(OPERATOR, 1) >= LEVEL_MANAGE && LevelOn(OPERATOR, 2) <= LEVEL_VIEW && OPERATOR.SeesEverywhere()
  {
    var gs := OPERATOR.levels;
    assert gs[0] in gs && gs[1] in gs;
    LevelAtLeast(OPERATOR, gs[1], 1);
    BestIsMaximum(OPERATOR, gs, 2);
    assert forall g <- gs :: OPERATOR.Applies(g, 2) ==> g == gs[0];
  }

  lemma OperatorDecisions()
    ensures CanDevice(OPERATOR, Reboot, 1) && !CanDevice(OPERATOR, Reboot, 2)
  {
    OperatorLevels();
    StaffDecision(OPERATOR, Reboot, 1);
    StaffDecision(OPERATOR, Reboot, 2);
  }

  /** It happens: the operator's reboot of a group of one device is left as a group send, and a lab device
      that joins the group before delivery is one the decision refuses. */
  lemma LaterMemberRefused()
    ensures NeverWidens(SenderOf(OPERATOR, Reboot), GroupTargets, [3], Some([1]), Ok(Sent([3], GroupTargets)))
    ensures CanDevice(OPERATOR, Reboot, 1) && !CanDevice(OPERATOR, Reboot, 2)
  {
    OperatorLevels();
    OperatorDecisions();
    assert Allowed(OPERATOR, Reboot)(1);
    KeptAll([1], Allowed(OPERATOR, Reboot));
  }
}

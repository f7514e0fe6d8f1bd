/**
 The narrowing of a bulk command's targets, of internal/dashboard/access.go. What the sender may do is
 given as tests on a device, so that nothing here depends on how those are decided.
 */
module Targets {
  import opened Wrappers
  import opened Grouping

  type Device = nat
  type Id = nat

  datatype Target = Devices | GroupTargets | All | OtherTarget

  datatype Refusal = Internal | Forbidden

  datatype Sent = Sent(ids: seq<Id>, target: Target)

  /** allowed: the decision on the action; highEnough: the sender's level reaches the action's. */
  datatype Sender = Sender(
    unrestricted: bool, engineer: bool, wholeFleet: bool, allowed: Device -> bool, highEnough: Device -> bool)

  /** test is the user's decision on the action; for the unrestricted it is always yes. */
  method FilterDevices(unrestricted: bool, test: Device -> bool, ids: seq<Device>)
    returns (kept: seq<Device>, dropped: nat)
    requires unrestricted ==> forall d :: test(d)
    ensures kept == Keep(ids, test) && dropped == |ids| - |kept|
    ensures dropped == 0 <==> forall id <- ids :: test(id)
    ensures dropped == 0 ==> kept == ids
  {
    KeptAll(ids, test);
    if unrestricted {
      return ids, 0;
    }
    kept := [];
    for i := 0 to |ids|
      invariant kept == Keep(ids[..i], test)
    {
      assert ids[..i + 1][..i] == ids[..i];
      if test(ids[i]) {
        kept := kept + [ids[i]];
      }
    }
    assert ids[..|ids|] == ids;
    dropped := |ids| - |kept|;
  }

  lemma {:induction false} KeptAll(ids: seq<Device>, test: Device -> bool)
    ensures |Keep(ids, test)| <= |ids|
    ensures |Keep(ids, test)| == |ids| <==> forall id <- ids :: test(id)
    ensures (forall id <- ids :: test(id)) ==> Keep(ids, test) == ids
  {
    if ids != [] {
      var init, last := ids[..|ids| - 1], ids[|ids| - 1];
      KeptAll(init, test);
      LastOrBefore(ids);
      if forall id <- ids :: test(id) { assert ids == init + [last]; }
    }
  }

  lemma LastOrBefore(ids: seq<Device>)
    requires ids != []
    ensures forall id :: id in ids <==> id == ids[|ids| - 1] || id in ids[..|ids| - 1]
  {}

  /** The places of a list that pass. */
  function Places(ids: seq<Device>, test: Device -> bool): seq<nat> {
    if ids == [] then []
    else
      var n := |ids| - 1;
      var before := Places(ids[..n], test);
      if test(ids[n]) then before + [n] else before
  }

  lemma {:induction false} PlacesInOrder(ids: seq<Device>, test: Device -> bool)
    ensures var at := Places(ids, test);
            && (forall i :: 0 <= i < |at| ==> at[i] < |ids|)
            && (forall i, j :: 0 <= i < j < |at| ==> at[i] < at[j])
            && forall k :: k in at <==> 0 <= k < |ids| && test(ids[k])
  {
    if ids != [] {
      var n := |ids| - 1;
      PlacesInOrder(ids[..n], test);
      var at, before := Places(ids, test), Places(ids[..n], test);
      assert at == if test(ids[n]) then before + [n] else before;
      assert forall k :: k in at <==> k in before || (test(ids[n]) && k == n);
    }
  }

  /** What is kept stands in the request's order, at exactly the places that pass. */
  lemma {:induction false} KeptIsSublist(ids: seq<Device>, test: Device -> bool)
    ensures var at, kept := Places(ids, test), Keep(ids, test);
            && |kept| == |at|
            && (forall i :: 0 <= i < |at| ==> at[i] < |ids| && kept[i] == ids[at[i]])
            && (forall i, j :: 0 <= i < j < |at| ==> at[i] < at[j])
            && forall k :: k in at <==> 0 <= k < |ids| && test(ids[k])
  {
    PlacesInOrder(ids, test);
    if ids != [] {
      var init := ids[..|ids| - 1];
      KeptIsSublist(init, test);
    }
  }

  lemma {:induction false} KeptNone(ids: seq<Device>, test: Device -> bool)
    requires forall id <- ids :: !test(id)
    ensures Keep(ids, test) == []
  {
    if ids != [] {
      LastOrBefore(ids);
      KeptNone(ids[..|ids| - 1], test);
    }
  }

  /** How many devices of a list fail a test. */
  function Failing(ids: seq<Device>, test: Device -> bool): nat {
    if ids == [] then 0
    else Failing(ids[..|ids| - 1], test) + if test(ids[|ids| - 1]) then 0 else 1
  }

  lemma {:induction false} NoneFailing(ids: seq<Device>, test: Device -> bool)
    ensures Failing(ids, test) == 0 <==> forall id <- ids :: test(id)
  {
    if ids != [] {
      var n := |ids| - 1;
      NoneFailing(ids[..n], test);
      assert forall id <- ids :: id == ids[n] || id in ids[..n];
    }
  }

  /** How many devices an engineer's level is too low for; 0 for every other role. */
  method EngineerVenueCount(s: Sender, ids: seq<Device>) returns (n: nat)
    ensures n == if s.engineer then Failing(ids, s.highEnough) else 0
    ensures n == 0 <==> !s.engineer || forall id <- ids :: s.highEnough(id)
  {
    NoneFailing(ids, s.highEnough);
    if !s.engineer {
      return 0;
    }
    n := 0;
    for i := 0 to |ids|
      invariant n == Failing(ids[..i], s.highEnough)
    {
      assert ids[..i + 1][..i] == ids[..i];
      if !s.highEnough(ids[i]) {
        n := n + 1;
      }
    }
    assert ids[..|ids|] == ids;
  }

  /** The devices a request names now: the fleet, the groups' members, or its own list. */
  function Resolved(target: Target, ids: seq<Id>, fleet: Option<seq<Device>>, members: Option<seq<Device>>)
    : Option<seq<Device>>
  {
    match target
    case All => fleet
    case GroupTargets => members
    case _ => Some(ids)
  }

  /** What a restricted sender's request may become. */
  ghost predicate NeverWidens(s: Sender, target: Target, ids: seq<Id>, resolved: Option<seq<Device>>,
                              r: Result<Sent, Refusal>)
  {
    match resolved
    case None => r == Err(Internal)
    case Some(devs) =>
      var kept := Keep(devs, s.allowed);
      // refused: an engineer reaches too low anywhere, or nothing asked for is allowed
      && (r.Err? <==> (s.engineer && exists d <- devs :: !s.highEnough(d)) || (kept == [] && devs != []))
      && (r.Err? ==> r.error == Forbidden)
      // a group stays a group only for someone who sees the whole fleet, is no engineer, and may act on
      // every member
      && (r.Ok? ==> (r.value.target == GroupTargets <==>
                       target == GroupTargets && (forall d <- devs :: s.allowed(d)) && s.wholeFleet && !s.engineer))
      && (r.Ok? && r.value.target == GroupTargets ==> r.value.ids == ids)
      // anything else is the list of what is allowed, in the request's order
      && (r.Ok? && r.value.target != GroupTargets ==>
            r.value.ids == kept && r.value.target == if target in {All, GroupTargets} then Devices else target)
  }

  method Enforce(s: Sender, target: Target, ids: seq<Id>, fleet: Option<seq<Device>>, members: Option<seq<Device>>)
    returns (r: Result<Sent, Refusal>)
    ensures s.unrestricted ==> r == Ok(Sent(ids, target))
    ensures !s.unrestricted ==> NeverWidens(s, target, ids, Resolved(target, ids, fleet, members), r)
  {
    if s.unrestricted {
      return Ok(Sent(ids, target));
    }
    var devs, kind := ids, target;
    if target == All {
      if fleet.None? {
        return Err(Internal);
      }
      devs, kind := fleet.value, Devices;
    }
    if kind == GroupTargets {
      if members.None? {
        return Err(Internal);
      }
      var low := EngineerVenueCount(s, members.value);
      if low > 0 {
        return Err(Forbidden);
      }
      var kept, dropped := FilterDevices(s.unrestricted, s.allowed, members.value);
      if dropped == 0 && s.wholeFleet && !s.engineer {
        return Ok(Sent(ids, target));
      }
      if dropped == 0 {
        return Ok(Sent(kept, Devices));
      }
      if |kept| == 0 {
        return Err(Forbidden);
      }
      return Ok(Sent(kept, Devices));
    }
    var low := EngineerVenueCount(s, devs);
    if low > 0 {
      return Err(Forbidden);
    }
    var kept, dropped := FilterDevices(s.unrestricted, s.allowed, devs);
    if |kept| == 0 && |devs| > 0 {
      return Err(Forbidden);
    }
    return Ok(Sent(kept, kind));
  }
}

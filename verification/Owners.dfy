/**
 Which server copy holds a device's socket: ownership changes of internal/cluster/cluster.go batched per
 write, the write itself of internal/db/cluster.go, and the minute resync.
 */
module Owners {
  import opened Wrappers

  type Device = nat
  type Instance = nat

  // ── Ownership ──────────────────────────────────────────────────────────────

  datatype OwnChange = OwnChange(id: Device, connected: bool)

  /** The last change of each device since the previous write. */
  function Pending(chs: seq<OwnChange>): map<Device, bool> {
    if chs == [] then map[]
    else var c := chs[|chs| - 1]; Pending(chs[..|chs| - 1])[c.id := c.connected]
  }

  /** The stored owners after one write: gained devices become this copy's, then lost ones are cleared
      where the row is still this copy's. */
  function SetOwners(owners: map<Device, Instance>, me: Instance, owned: set<Device>, lost: set<Device>)
    : map<Device, Instance>
  {
    var gained := map d | d in owners.Keys + owned :: if d in owned then me else owners[d];
    map d | d in gained && !(d in lost && gained[d] == me) :: gained[d]
  }

  /** One change written by itself. */
  function SetOne(owners: map<Device, Instance>, me: Instance, c: OwnChange): map<Device, Instance> {
    if c.connected then SetOwners(owners, me, {c.id}, {}) else SetOwners(owners, me, {}, {c.id})
  }

  function SetEach(owners: map<Device, Instance>, me: Instance, chs: seq<OwnChange>): map<Device, Instance> {
    if chs == [] then owners else SetOne(SetEach(owners, me, chs[..|chs| - 1]), me, chs[|chs| - 1])
  }

  function Gained(pending: map<Device, bool>): set<Device> {
    set d | d in pending && pending[d]
  }

  function Dropped(pending: map<Device, bool>): set<Device> {
    set d | d in pending && !pending[d]
  }

  /** The sockets this copy holds, the changes it has yet to write, and the stored owners. */
  datatype OwnerState = OwnerState(local: set<Device>, pending: map<Device, bool>, owners: map<Device, Instance>)

  /** heard: the change found room in the queue. ok: the write succeeded. Elsewhere is another copy's row. */
  datatype OwnerStep =
    | Connect(d: Device, heard: bool)
    | Disconnect(d: Device, heard: bool)
    | FlushOwners(ok: bool)
    | Resync(ok: bool)
    | Elsewhere(d: Device, other: Instance)

  /** A flush empties the pending changes before its write can fail; a resync only ever gains. */
  function DoOwner(s: OwnerState, me: Instance, step: OwnerStep): OwnerState {
    match step
    case Connect(d, heard) => OwnerState(s.local + {d}, if heard then s.pending[d := true] else s.pending, s.owners)
    case Disconnect(d, heard) => OwnerState(s.local - {d}, if heard then s.pending[d := false] else s.pending, s.owners)
    case FlushOwners(ok) =>
      OwnerState(s.local, map[],
                 if ok then SetOwners(s.owners, me, Gained(s.pending), Dropped(s.pending)) else s.owners)
    case Resync(ok) => s.(owners := if ok then SetOwners(s.owners, me, s.local, {}) else s.owners)
    case Elsewhere(d, other) => s.(owners := s.owners[d := other])
  }

  class OwnerWriter {
    const me: Instance
    var pending: map<Device, bool>

    constructor (me: Instance)
      ensures this.me == me && pending == map[]
    {
      this.me, pending := me, map[];
    }

    method Changed(c: OwnChange)
      modifies this
      ensures pending == old(pending)[c.id := c.connected]
      ensures forall s: OwnerState :: s.pending == old(pending) ==>
                DoOwner(s, me, if c.connected then Connect(c.id, true) else Disconnect(c.id, true)).pending == pending
    {
      pending := pending[c.id := c.connected];
    }

    /** The flush splits the pending changes, in whatever order the map is walked. */
    method Flush() returns (owned: set<Device>, lost: set<Device>)
      modifies this
      ensures pending == map[]
      ensures owned == Gained(old(pending)) && lost == Dropped(old(pending))
      ensures owned !! lost && owned + lost == old(pending).Keys
      ensures forall s: OwnerState :: s.pending == old(pending) ==>
                DoOwner(s, me, FlushOwners(true)) == OwnerState(s.local, pending, SetOwners(s.owners, me, owned, lost))
    {
      owned, lost := {}, {};
      var left := pending.Keys;
      while left != {}
        invariant pending == old(pending) && left <= pending.Keys
        invariant forall d :: d in owned <==> d in pending && d !in left && pending[d]
        invariant forall d :: d in lost <==> d in pending && d !in left && !pending[d]
        decreases |left|
      {
        var d :| d in left;
        if pending[d] {
          owned := owned + {d};
        } else {
          lost := lost + {d};
        }
        left := left - {d};
      }
      pending := map[];
    }
  }

  /** The changes heard since the last write, taken from the queue one at a time, leave the last of each
      device to be written. */
  method HearAll(w: OwnerWriter, chs: seq<OwnChange>)
    requires w.pending == map[]
    modifies w
    ensures w.pending == Pending(chs)
  {
    for i := 0 to |chs|
      invariant w.pending == Pending(chs[..i])
    {
      assert chs[..i + 1][..i] == chs[..i];
      w.Changed(chs[i]);
    }
    assert chs[..|chs|] == chs;
  }

  function Owned(chs: seq<OwnChange>): set<Device> {
    Gained(Pending(chs))
  }

  function Lost(chs: seq<OwnChange>): set<Device> {
    Dropped(Pending(chs))
  }

  /** What the batched write leaves and what one write per change would leave agree on a device, unless
      the device came and went between two writes while another copy's row stood. */
  ghost predicate CameAndWent(owners: map<Device, Instance>, me: Instance, chs: seq<OwnChange>, d: Device) {
    && d in owners && owners[d] != me
    && d in Lost(chs)
    && exists c <- chs :: c == OwnChange(d, true)
  }

  /** The batch equals the changes applied in order exactly when no device did that: the batch keeps the
      other copy's row, which the single writes would have taken over and then cleared. */
  lemma {:induction false} BatchIsInOrderIff(owners: map<Device, Instance>, me: Instance, chs: seq<OwnChange>)
    ensures (SetOwners(owners, me, Owned(chs), Lost(chs)) == SetEach(owners, me, chs))
       <==> (forall d :: !CameAndWent(owners, me, chs, d))
  {
    var batch, each := SetOwners(owners, me, Owned(chs), Lost(chs)), SetEach(owners, me, chs);
    forall d ensures Row(batch, d) == Row(each, d) <==> !CameAndWent(owners, me, chs, d) {
      InOrder(owners, me, chs, d);
    }
    if forall d :: !CameAndWent(owners, me, chs, d) {
      forall d ensures Row(batch, d) == Row(each, d) {}
      SameRows(batch, each);
    } else {
      var d :| CameAndWent(owners, me, chs, d);
      assert Row(batch, d) != Row(each, d);
    }
  }

  function Row(owners: map<Device, Instance>, d: Device): Option<Instance> {
    if d in owners then Some(owners[d]) else None
  }

  lemma SameRows(a: map<Device, Instance>, b: map<Device, Instance>)
    requires forall d :: Row(a, d) == Row(b, d)
    ensures a == b
  {
    forall d ensures d in a <==> d in b {
      assert Row(a, d) == Row(b, d);
    }
    forall d | d in a ensures a[d] == b[d] {
      assert Row(a, d) == Row(b, d);
    }
  }

  /** One device's row under writes in order. */
  lemma {:induction false} InOrder(owners: map<Device, Instance>, me: Instance, chs: seq<OwnChange>, d: Device)
    ensures Row(SetEach(owners, me, chs), d) ==
              if d in Owned(chs) then Some(me)
              else if d in Lost(chs) && (Row(owners, d) == Some(me) || exists c <- chs :: c == OwnChange(d, true)) then
                None
              else Row(owners, d)
  {
    if chs != [] {
      var n := |chs| - 1;
      InOrder(owners, me, chs[..n], d);
      assert forall c :: c in chs <==> c in chs[..n] || c == chs[n];
      ChangedOnlyListed(chs[..n], d);
    }
  }

  lemma {:induction false} ChangedOnlyListed(chs: seq<OwnChange>, d: Device)
    ensures d in Pending(chs) <==> OwnChange(d, true) in chs || OwnChange(d, false) in chs
    ensures d in Owned(chs) ==> OwnChange(d, true) in chs
  {
    if chs != [] {
      var n := |chs| - 1;
      ChangedOnlyListed(chs[..n], d);
      assert forall c :: c in chs <==> c in chs[..n] || c == chs[n];
    }
  }

  // ── The owner writer over time ─────────────────────────────────────────────

  function DoOwners(s: OwnerState, me: Instance, steps: seq<OwnerStep>): OwnerState {
    if steps == [] then s else DoOwner(DoOwners(s, me, steps[..|steps| - 1]), me, steps[|steps| - 1])
  }

  function OwnerRun(me: Instance, steps: seq<OwnerStep>): OwnerState {
    DoOwners(OwnerState({}, map[], map[]), me, steps)
  }

  /** This copy's rows are exactly its sockets. */
  ghost predicate RowsRight(owners: map<Device, Instance>, me: Instance, local: set<Device>) {
    forall d :: Row(owners, d) == Some(me) <==> d in local
  }

  /** The minute resync puts this copy's rows right exactly when every one of them already stands for a
      socket it holds: it restores lost connects, and never takes back a lost disconnect. */
  lemma ResyncHealsIff(owners: map<Device, Instance>, me: Instance, local: set<Device>)
    ensures RowsRight(SetOwners(owners, me, local, {}), me, local)
       <==> (forall d :: Row(owners, d) == Some(me) ==> d in local)
  {
    var after := SetOwners(owners, me, local, {});
    forall d ensures Row(after, d) == if d in local then Some(me) else Row(owners, d) {}
    if !(forall d :: Row(owners, d) == Some(me) ==> d in local) {
      var d :| Row(owners, d) == Some(me) && d !in local;
      assert Row(after, d) == Some(me);
    }
  }

  /** Every change was heard and every write landed; another copy's rows are its own. */
  predicate Heard(step: OwnerStep, me: Instance) {
    match step
    case Connect(_, heard) => heard
    case Disconnect(_, heard) => heard
    case FlushOwners(ok) => ok
    case Resync(_) => true
    case Elsewhere(_, other) => other != me
  }

  /** A pending change is the socket's present state, and without one only a held device is this copy's row. */
  ghost predicate Unclaimed(s: OwnerState, me: Instance) {
    && (forall d <- s.pending :: s.pending[d] == (d in s.local))
    && forall d :: d !in s.pending && d !in s.local ==> Row(s.owners, d) != Some(me)
  }

  /** Whatever the other copies write and when: a device this copy neither holds nor has yet to write about
      is never its row. */
  lemma {:induction false} NeverClaimsOthers(me: Instance, steps: seq<OwnerStep>)
    requires forall step <- steps :: Heard(step, me)
    ensures Unclaimed(OwnerRun(me, steps), me)
  {
    if steps != [] {
      var n := |steps| - 1;
      assert steps[n] in steps && forall step <- steps[..n] :: step in steps;
      NeverClaimsOthers(me, steps[..n]);
      StepKeepsUnclaimed(OwnerRun(me, steps[..n]), me, steps[n]);
    }
  }

  lemma StepKeepsUnclaimed(s: OwnerState, me: Instance, step: OwnerStep)
    requires Unclaimed(s, me) && Heard(step, me)
    ensures Unclaimed(DoOwner(s, me, step), me)
  {
  }

  /** Another copy only ever takes a device that has no socket here at that point of the run. */
  ghost predicate OthersTakeFree(me: Instance, steps: seq<OwnerStep>) {
    forall k :: 0 <= k < |steps| && steps[k].Elsewhere? ==> steps[k].d !in OwnerRun(me, steps[..k]).local
  }

  /** A pending change is the socket's present state; without one the row is right. */
  ghost predicate Settled(s: OwnerState, me: Instance) {
    forall d :: if d in s.pending then s.pending[d] == (d in s.local)
                else Row(s.owners, d) == Some(me) <==> d in s.local
  }

  /** While every change is heard, every write lands and other copies take only devices without a socket
      here, this copy's rows are exactly its sockets after each flush. */
  lemma {:induction false} UndisturbedIsRight(me: Instance, steps: seq<OwnerStep>)
    requires (forall step <- steps :: Heard(step, me)) && OthersTakeFree(me, steps)
    ensures Settled(OwnerRun(me, steps), me)
    ensures var s := OwnerRun(me, steps); s.pending == map[] ==> RowsRight(s.owners, me, s.local)
  {
    if steps != [] {
      var n := |steps| - 1;
      var init := steps[..n];
      assert steps[n] in steps && forall step <- init :: step in steps;
      assert forall k :: 0 <= k < n ==> init[k] == steps[k] && init[..k] == steps[..k];
      UndisturbedIsRight(me, init);
      StepSettles(OwnerRun(me, init), me, steps[n]);
    }
  }

  lemma StepSettles(s: OwnerState, me: Instance, step: OwnerStep)
    requires Settled(s, me) && Heard(step, me) && (step.Elsewhere? ==> step.d !in s.local)
    ensures Settled(DoOwner(s, me, step), me)
  {
  }

  lemma ThenOwner(me: Instance, steps: seq<OwnerStep>, step: OwnerStep)
    ensures OwnerRun(me, steps + [step]) == DoOwner(OwnerRun(me, steps), me, step)
  {
    assert (steps + [step])[..|steps|] == steps;
  }

  /** The device is this copy's row although its socket is gone and nothing is left to write. */
  ghost predicate Stale(s: OwnerState, me: Instance, d: Device) {
    Row(s.owners, d) == Some(me) && d !in s.local && d !in s.pending
  }

  /** Such a row stands through every resync and flush, until the device connects or disconnects here anew
      or another copy takes it. */
  lemma {:induction false} StaleRowStays(s: OwnerState, me: Instance, d: Device, steps: seq<OwnerStep>)
    requires Stale(s, me, d)
    requires forall step <- steps :: (step.FlushOwners? || step.Resync? || step.d != d)
    ensures Stale(DoOwners(s, me, steps), me, d)
  {
    if steps != [] {
      var n := |steps| - 1;
      assert steps[n] in steps && forall step <- steps[..n] :: step in steps;
      StaleRowStays(s, me, d, steps[..n]);
    }
  }

  lemma HeldRun(me: Instance, d: Device)
    ensures OwnerRun(me, [Connect(d, true), FlushOwners(true)]) == OwnerState({d}, map[], map[d := me])
  {
    ThenOwner(me, [], Connect(d, true));
    assert [] + [Connect(d, true)] == [Connect(d, true)];
    var s := OwnerRun(me, [Connect(d, true)]);
    assert s == OwnerState({d}, map[d := true], map[]);
    ThenOwner(me, [Connect(d, true)], FlushOwners(true));
    assert [Connect(d, true)] + [FlushOwners(true)] == [Connect(d, true), FlushOwners(true)];
    assert Gained(s.pending) == {d} && Dropped(s.pending) == {};
    assert SetOwners(map[], me, {d}, {}) == map[d := me];
  }

  /** Two ways to lose a disconnect: it found no room in the queue, or its flush failed. */
  lemma LostDisconnectRuns(me: Instance, d: Device)
    ensures Stale(OwnerRun(me, [Connect(d, true), FlushOwners(true), Disconnect(d, false)]), me, d)
    ensures Stale(OwnerRun(me, [Connect(d, true), FlushOwners(true), Disconnect(d, true), FlushOwners(false)]), me, d)
  {
    var held := [Connect(d, true), FlushOwners(true)];
    HeldRun(me, d);
    ThenOwner(me, held, Disconnect(d, false));
    assert held + [Disconnect(d, false)] == [Connect(d, true), FlushOwners(true), Disconnect(d, false)];
    var told := held + [Disconnect(d, true)];
    ThenOwner(me, held, Disconnect(d, true));
    ThenOwner(me, told, FlushOwners(false));
    assert told + [FlushOwners(false)]
        == [Connect(d, true), FlushOwners(true), Disconnect(d, true), FlushOwners(false)];
  }

  /** Such a row, and then any number of resyncs: the source's claim that the minute resync puts a dropped
      or failed change right does not hold for it. */
  lemma StaleRowSurvivesResync(me: Instance, d: Device, resyncs: seq<OwnerStep>)
    requires forall step <- resyncs :: step == Resync(true) || step == FlushOwners(true)
    ensures var s := DoOwners(OwnerRun(me, [Connect(d, true), FlushOwners(true), Disconnect(d, false)]), me, resyncs);
            Stale(s, me, d) && !RowsRight(s.owners, me, s.local)
  {
    LostDisconnectRuns(me, d);
    StaleRowStays(OwnerRun(me, [Connect(d, true), FlushOwners(true), Disconnect(d, false)]), me, d, resyncs);
  }

  /** A device that came and went between two writes over another copy's row: the batch leaves the row, the
      single writes clear it. */
  lemma CameAndWentTable(me: Instance, other: Instance, d: Device)
    requires me != other
    ensures var chs := [OwnChange(d, true), OwnChange(d, false)];
            && CameAndWent(map[d := other], me, chs, d)
            && Row(SetOwners(map[d := other], me, Owned(chs), Lost(chs)), d) == Some(other)
            && Row(SetEach(map[d := other], me, chs), d) == None
  {
    var chs := [OwnChange(d, true), OwnChange(d, false)];
    assert chs[..1] == [OwnChange(d, true)] && [OwnChange(d, true)][..0] == [];
    assert chs[0] in chs;
    InOrder(map[d := other], me, chs, d);
  }
}

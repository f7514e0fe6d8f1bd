/**
 The adb tunnel manager of internal/adbtunnel/manager.go. One step is one region under a mutex, one
 operation on a channel, or one call guarded by a once; any sequence of steps is an interleaving of
 Open, Close, the reaper, the accepted connections and the devices' legs.
 */
module AdbTunnel {
  import opened Wrappers

  type Device = nat
  type SessionId = nat
  type StreamId = nat
  type OpenId = nat

  /** How far the once-guarded Close of a session has come. Claimed: its channel and listener are closed.
      Finishing: the streams it saw listed are being finished. Closed: it is out of both maps. */
  datatype Phase = Live | Claimed | Finishing(todo: set<StreamId>) | Closed

  datatype Session = Session(device: Device, port: int, phase: Phase)

  /** Where serve is: waiting for the device's leg, piping, past either, finished, or out of the list. */
  datatype Pc = Waiting | Piping | Ending | Finished | Gone

  /** offered: a leg lies in the one-place channel. legs: legs serve has taken from it. finishes: times
      the stream's done channel was closed. */
  datatype Stream = Stream(session: SessionId, pc: Pc, offered: bool, legs: nat, finishes: nat)

  /** An Open that found an old session and let go of the mutex to close it. */
  datatype Pending = Pending(device: Device, prior: SessionId)

  datatype State = State(
    all: map<SessionId, Session>, sessions: set<SessionId>, byDevice: map<Device, SessionId>,
    streams: map<StreamId, Stream>, pending: map<OpenId, Pending>)

  const INIT := State(map[], {}, map[], map[], map[])

  datatype Step =
    | OpenFresh(device: Device, id: SessionId, port: int)
    | OpenFound(open: OpenId, device: Device)
    | OpenRegister(open: OpenId, id: SessionId, port: int)
    | OpenNoPort(open: OpenId)
    | Claim(id: SessionId)
    | Snapshot(id: SessionId)
    | FinishListed(id: SessionId, st: StreamId)
    | RemoveSession(id: SessionId)
    | Serve(st: StreamId, id: SessionId)
    | Attach(st: StreamId)
    | TakeLeg(st: StreamId)
    | GiveUp(st: StreamId)
    | ReaderEnds(st: StreamId)
    | PipeEnds(st: StreamId)
    | FinishOwn(st: StreamId)
    | Unlist(st: StreamId)

  predicate IsLive(s: State, id: SessionId) {
    id in s.all && s.all[id].phase == Live
  }

  /** The operating system binds a port only while no open listener has it. */
  predicate PortFree(s: State, port: int) {
    forall id <- s.all :: s.all[id].phase == Live ==> s.all[id].port != port
  }

  function Listed(s: State, id: SessionId): set<StreamId> {
    set st | st in s.streams && s.streams[st].session == id && s.streams[st].pc != Gone
  }

  predicate Enabled(s: State, step: Step) {
    match step
    case OpenFresh(d, id, port) => d !in s.byDevice && id !in s.all && PortFree(s, port)
    case OpenFound(o, d) => o !in s.pending && d in s.byDevice
    case OpenRegister(o, id, port) =>
      o in s.pending && id !in s.all && PortFree(s, port)
      && s.pending[o].prior in s.all && s.all[s.pending[o].prior].phase == Closed
    case OpenNoPort(o) => o in s.pending
    case Claim(id) => IsLive(s, id)
    case Snapshot(id) => id in s.all && s.all[id].phase == Claimed
    case FinishListed(id, st) =>
      id in s.all && s.all[id].phase.Finishing? && st in s.all[id].phase.todo && st in s.streams
    case RemoveSession(id) => id in s.all && s.all[id].phase == Finishing({})
    case Serve(st, id) => st !in s.streams && id in s.all
    case Attach(st) => st in s.streams && !s.streams[st].offered
    case TakeLeg(st) => st in s.streams && s.streams[st].pc == Waiting && s.streams[st].offered
    case GiveUp(st) => st in s.streams && s.streams[st].pc == Waiting
    case ReaderEnds(st) => st in s.streams && s.streams[st].legs > 0
    case PipeEnds(st) => st in s.streams && s.streams[st].pc == Piping
    case FinishOwn(st) => st in s.streams && s.streams[st].pc == Ending
    case Unlist(st) => st in s.streams && s.streams[st].pc == Finished
  }

  /** The once around closing a stream's done channel. */
  function FinishOnce(st: Stream): Stream {
    if st.finishes == 0 then st.(finishes := 1) else st
  }

  function Register(s: State, d: Device, id: SessionId, port: int): State {
    s.(all := s.all[id := Session(d, port, Live)], sessions := s.sessions + {id}, byDevice := s.byDevice[d := id])
  }

  function SetPhase(s: State, id: SessionId, phase: Phase): State
    requires id in s.all
  {
    s.(all := s.all[id := s.all[id].(phase := phase)])
  }

  function SetStream(s: State, st: StreamId, v: Stream): State {
    s.(streams := s.streams[st := v])
  }

  function Do(s: State, step: Step): State {
    if !Enabled(s, step) then s
    else match step
      case OpenFresh(d, id, port) => Register(s, d, id, port)
      case OpenFound(o, d) => s.(pending := s.pending[o := Pending(d, s.byDevice[d])])
      case OpenRegister(o, id, port) => Register(s.(pending := s.pending - {o}), s.pending[o].device, id, port)
      case OpenNoPort(o) => s.(pending := s.pending - {o})
      case Claim(id) => SetPhase(s, id, Claimed)
      case Snapshot(id) => SetPhase(s, id, Finishing(Listed(s, id)))
      case FinishListed(id, st) =>
        SetStream(SetPhase(s, id, Finishing(s.all[id].phase.todo - {st})), st, FinishOnce(s.streams[st]))
      case RemoveSession(id) =>
        var d := s.all[id].device;
        SetPhase(s, id, Closed).(
          sessions := s.sessions - {id},
          byDevice := if d in s.byDevice && s.byDevice[d] == id then s.byDevice - {d} else s.byDevice)
      case Serve(st, id) => SetStream(s, st, Stream(id, Waiting, false, 0, 0))
      case Attach(st) => SetStream(s, st, s.streams[st].(offered := true))
      case TakeLeg(st) =>
        var v := s.streams[st];
        SetStream(s, st, v.(offered := false, legs := v.legs + 1, pc := Piping))
      case GiveUp(st) => SetStream(s, st, s.streams[st].(pc := Ending))
      case ReaderEnds(st) => SetStream(s, st, FinishOnce(s.streams[st]))
      case PipeEnds(st) => SetStream(s, st, s.streams[st].(pc := Ending))
      case FinishOwn(st) => SetStream(s, st, FinishOnce(s.streams[st]).(pc := Finished))
      case Unlist(st) => SetStream(s, st, s.streams[st].(pc := Gone))
  }

  function Run(steps: seq<Step>): State {
    if steps == [] then INIT else Do(Run(steps[..|steps| - 1]), steps[|steps| - 1])
  }

  // ── What every interleaving keeps ──────────────────────────────────────────

  /** The map of sessions holds exactly those that are not fully closed. */
  ghost predicate SessionsOpen(s: State) {
    forall id :: id in s.sessions <==> id in s.all && s.all[id].phase != Closed
  }

  /** An entry by device is one of them, filed under its own device. */
  ghost predicate FiledUnderOwn(s: State) {
    forall d <- s.byDevice :: Files(s, d, s.byDevice[d])
  }

  predicate Files(s: State, d: Device, id: SessionId) {
    id in s.sessions && id in s.all && s.all[id].device == d
  }

  ghost predicate MapsAgree(s: State) {
    SessionsOpen(s) && FiledUnderOwn(s)
  }

  /** Two open listeners never share a port. */
  ghost predicate PortsDistinct(s: State) {
    forall a, b :: IsLive(s, a) && IsLive(s, b) && a != b ==> s.all[a].port != s.all[b].port
  }

  /** A stream closes its done channel at most once and takes at most one leg, and exactly once when
      serve has left. */
  predicate StreamSound(v: Stream) {
    && v.finishes <= 1 && v.legs <= 1
    && (v.pc == Waiting ==> v.legs == 0)
    && (v.pc in {Finished, Gone} ==> v.finishes == 1)
  }

  ghost predicate StreamsSound(s: State) {
    forall st <- s.streams :: s.streams[st].session in s.all && StreamSound(s.streams[st])
  }

  /** What a closing session still has to finish are streams. */
  ghost predicate ListedGetFinished(s: State) {
    forall id <- s.all :: s.all[id].phase.Finishing? ==> s.all[id].phase.todo <= s.streams.Keys
  }

  ghost predicate PendingSound(s: State) {
    forall o <- s.pending :: s.pending[o].prior in s.all && s.all[s.pending[o].prior].device == s.pending[o].device
  }

  ghost predicate Inv(s: State) {
    MapsAgree(s) && PortsDistinct(s) && StreamsSound(s) && ListedGetFinished(s) && PendingSound(s)
  }

  lemma StepKeepsMaps(s: State, step: Step)
    requires MapsAgree(s)
    ensures MapsAgree(Do(s, step))
  {
    StepKeepsOpen(s, step);
    StepKeepsFiled(s, step);
  }

  lemma StepKeepsOpen(s: State, step: Step)
    requires SessionsOpen(s)
    ensures SessionsOpen(Do(s, step))
  {
  }

  lemma StepKeepsFiled(s: State, step: Step)
    requires FiledUnderOwn(s)
    ensures FiledUnderOwn(Do(s, step))
  {
  }

  lemma StepKeepsPending(s: State, step: Step)
    requires MapsAgree(s) && PendingSound(s)
    ensures PendingSound(Do(s, step))
  {
  }

  lemma StepKeepsPorts(s: State, step: Step)
    requires PortsDistinct(s)
    ensures PortsDistinct(Do(s, step))
  {
    var t := Do(s, step);
    forall a, b | IsLive(t, a) && IsLive(t, b) && a != b ensures t.all[a].port != t.all[b].port {
      assert a in s.all ==> IsLive(s, a);
      assert b in s.all ==> IsLive(s, b);
    }
  }

  lemma StepKeepsStreams(s: State, step: Step)
    requires StreamsSound(s)
    ensures StreamsSound(Do(s, step))
  {
    forall st | st in Do(s, step).streams
      ensures Do(s, step).streams[st].session in Do(s, step).all && StreamSound(Do(s, step).streams[st])
    {
      StepKeepsStream(s, step, st);
    }
  }

  lemma StepKeepsStream(s: State, step: Step, st: StreamId)
    requires st in Do(s, step).streams
    requires st in s.streams ==> s.streams[st].session in s.all && StreamSound(s.streams[st])
    ensures Do(s, step).streams[st].session in Do(s, step).all && StreamSound(Do(s, step).streams[st])
  {
  }

  lemma StepKeepsListed(s: State, step: Step)
    requires ListedGetFinished(s)
    ensures ListedGetFinished(Do(s, step))
  {
    assert s.streams.Keys <= Do(s, step).streams.Keys;
  }

  lemma {:induction false} EveryRunKeeps(steps: seq<Step>)
    ensures Inv(Run(steps))
  {
    if steps != [] {
      var n := |steps| - 1;
      EveryRunKeeps(steps[..n]);
      StepKeepsMaps(Run(steps[..n]), steps[n]);
      StepKeepsPending(Run(steps[..n]), steps[n]);
      StepKeepsPorts(Run(steps[..n]), steps[n]);
      StepKeepsStreams(Run(steps[..n]), steps[n]);
      StepKeepsListed(Run(steps[..n]), steps[n]);
    }
  }

  /** A fully closed session is in neither map, and stays closed. */
  lemma ClosedIsGone(steps: seq<Step>, step: Step, id: SessionId)
    requires id in Run(steps).all && Run(steps).all[id].phase == Closed
    ensures id !in Run(steps).sessions && forall d <- Run(steps).byDevice :: Run(steps).byDevice[d] != id
    ensures id in Run(steps + [step]).all && Run(steps + [step]).all[id].phase == Closed
  {
    EveryRunKeeps(steps);
    assert (steps + [step])[..|steps|] == steps;
    ClosedStays(Run(steps), step, id);
  }

  lemma ClosedStays(s: State, step: Step, id: SessionId)
    requires id in s.all && s.all[id].phase == Closed
    ensures id in Do(s, step).all && Do(s, step).all[id].phase == Closed
  {
  }

  /** A stream is finished at most once and pipes at most one leg, and once serve has left it is finished. */
  lemma StreamOnce(steps: seq<Step>, st: StreamId)
    requires st in Run(steps).streams
    ensures var v := Run(steps).streams[st];
            v.finishes <= 1 && v.legs <= 1 && (v.pc == Gone ==> v.finishes == 1)
  {
    EveryRunKeeps(steps);
  }

  /** What closes a stream's done channel: the session's Close, the end of the device's leg, or serve leaving. */
  predicate Finishes(s: State, step: Step, st: StreamId) {
    && Enabled(s, step)
    && match step
       case FinishListed(_, x) => x == st
       case ReaderEnds(x) => x == st
       case FinishOwn(x) => x == st
       case _ => false
  }

  predicate IsDone(s: State, st: StreamId) {
    st in s.streams && s.streams[st].finishes == 1
  }

  ghost predicate FinishedIn(steps: seq<Step>, st: StreamId) {
    exists k :: 0 <= k < |steps| && Finishes(Run(steps[..k]), steps[k], st)
  }

  /** Over every run: a stream's channel is closed if and only if one of the three has happened, whichever came
      first and however often they come. */
  lemma {:induction false} DoneIff(steps: seq<Step>, st: StreamId)
    ensures IsDone(Run(steps), st) <==> FinishedIn(steps, st)
  {
    if steps != [] {
      var n := |steps| - 1;
      DoneIff(steps[..n], st);
      FinishedLast(steps, st);
      EveryRunKeeps(steps[..n]);
      FinishesNow(Run(steps[..n]), steps[n], st);
    }
  }

  lemma FinishedLast(steps: seq<Step>, st: StreamId)
    requires steps != []
    ensures var n := |steps| - 1;
            FinishedIn(steps, st) <==> FinishedIn(steps[..n], st) || Finishes(Run(steps[..n]), steps[n], st)
  {
    var n := |steps| - 1;
    assert forall k :: 0 <= k <= n ==> steps[..n][..k] == steps[..k];
    if FinishedIn(steps[..n], st) {
      var k :| 0 <= k < n && Finishes(Run(steps[..n][..k]), steps[..n][k], st);
      assert Finishes(Run(steps[..k]), steps[k], st);
    }
  }

  lemma FinishesNow(s: State, step: Step, st: StreamId)
    requires st in s.streams ==> StreamSound(s.streams[st])
    ensures IsDone(Do(s, step), st) <==> IsDone(s, st) || Finishes(s, step, st)
  {
  }

  /** No leg has come to the stream. */
  predicate Legless(s: State, st: StreamId) {
    st in s.streams ==> !s.streams[st].offered && s.streams[st].legs == 0 && s.streams[st].pc != Piping
  }

  /** Nothing is piped that the device did not bring: without an offered leg a stream takes none. */
  lemma {:induction false} NoLegUnoffered(steps: seq<Step>, st: StreamId)
    requires Attach(st) !in steps
    ensures Legless(Run(steps), st)
  {
    if steps != [] {
      var n := |steps| - 1;
      NoLegUnoffered(steps[..n], st);
      LeglessStays(Run(steps[..n]), steps[n], st);
    }
  }

  lemma LeglessStays(s: State, step: Step, st: StreamId)
    requires Legless(s, st) && step != Attach(st)
    ensures Legless(Do(s, step), st)
  {
  }

  /** The state k steps after s. */
  function At(s: State, steps: seq<Step>, k: nat): State
    requires k <= |steps|
  {
    if k == 0 then s else Do(At(s, steps, k - 1), steps[k - 1])
  }

  lemma {:induction false} AtTail(s: State, step: Step, rest: seq<Step>, k: nat)
    requires k <= |rest|
    ensures At(s, [step] + rest, k + 1) == At(Do(s, step), rest, k)
  {
    if k == 0 {
      assert At(s, [step] + rest, 0) == s;
    } else {
      AtTail(s, step, rest, k - 1);
      assert ([step] + rest)[k] == rest[k - 1];
    }
  }

  function PcRank(pc: Pc): nat {
    match pc case Waiting => 3 case Piping => 3 case Ending => 2 case Finished => 1 case Gone => 0
  }

  /** Nothing is stuck: from wherever a stream is, some run lets serve leave with its channel closed once. */
  lemma {:induction false} StreamCanEnd(s: State, st: StreamId) returns (steps: seq<Step>)
    requires st in s.streams && StreamSound(s.streams[st])
    ensures var t := At(s, steps, |steps|);
            st in t.streams && t.streams[st].pc == Gone && t.streams[st].finishes == 1
    decreases PcRank(s.streams[st].pc)
  {
    var pc := s.streams[st].pc;
    if pc == Gone {
      steps := [];
    } else {
      var step := match pc case Waiting => GiveUp(st) case Piping => PipeEnds(st) case Ending => FinishOwn(st)
                           case _ => Unlist(st);
      var rest := StreamCanEnd(Do(s, step), st);
      AtTail(s, step, rest, |rest|);
      steps := [step] + rest;
    }
  }

  function PhaseRank(phase: Phase): nat {
    match phase case Live => 3 case Claimed => 2 case Finishing(_) => 1 case Closed => 0
  }

  /** And from wherever a session is, some run closes it for good. */
  lemma {:induction false} SessionCanClose(s: State, id: SessionId) returns (steps: seq<Step>)
    requires ListedGetFinished(s) && id in s.all
    ensures var t := At(s, steps, |steps|);
            id in t.all && t.all[id].phase == Closed
    decreases PhaseRank(s.all[id].phase), if s.all[id].phase.Finishing? then |s.all[id].phase.todo| else 0
  {
    var phase := s.all[id].phase;
    if phase == Closed {
      steps := [];
    } else {
      var step := NextOfClose(s, id);
      StepKeepsListed(s, step);
      var rest := SessionCanClose(Do(s, step), id);
      AtTail(s, step, rest, |rest|);
      steps := [step] + rest;
    }
  }

  /** What the Close of a session does next. */
  lemma NextOfClose(s: State, id: SessionId) returns (step: Step)
    requires ListedGetFinished(s) && id in s.all && s.all[id].phase != Closed
    ensures var was, t := s.all[id].phase, Do(s, step);
            && id in t.all
            && (PhaseRank(t.all[id].phase) < PhaseRank(was)
                || (was.Finishing? && t.all[id].phase.Finishing? && |t.all[id].phase.todo| < |was.todo|))
  {
    match s.all[id].phase
    case Live => step := Claim(id);
    case Claimed => step := Snapshot(id);
    case Finishing(todo) =>
      if todo == {} {
        step := RemoveSession(id);
      } else {
        var x :| x in todo;
        step := FinishListed(id, x);
        assert todo - {x} < todo;
      }
  }

  /** A stream of a session: it is finished before its session has left the maps. */
  ghost predicate SeenThrough(s: State, id: SessionId, st: StreamId) {
    && id in s.all && st in s.streams && s.streams[st].session == id
    && match s.all[id].phase
       case Live => true
       case Claimed => true
       case Finishing(todo) => st in todo || s.streams[st].finishes > 0
       case Closed => s.streams[st].finishes > 0
  }

  lemma StepSeesThrough(s: State, step: Step, id: SessionId, st: StreamId)
    requires SeenThrough(s, id, st) && StreamSound(s.streams[st])
    ensures SeenThrough(Do(s, step), id, st)
  {
  }

  /** Whatever happens in between, the streams a session has when its Close begins, and those registered up
      to the snapshot, are all finished by the time it has left the maps. */
  lemma {:induction false} CloseFinishesWhatItSaw(s: State, id: SessionId, steps: seq<Step>, k: nat, st: StreamId)
    requires StreamsSound(s) && id in s.all && s.all[id].phase in {Live, Claimed}
    requires st in s.streams && s.streams[st].session == id && k <= |steps|
    ensures StreamsSound(At(s, steps, k)) && SeenThrough(At(s, steps, k), id, st)
    ensures At(s, steps, k).all[id].phase == Closed ==> At(s, steps, k).streams[st].finishes > 0
  {
    if k > 0 {
      CloseFinishesWhatItSaw(s, id, steps, k - 1, st);
      StepKeepsStreams(At(s, steps, k - 1), steps[k - 1]);
      StepSeesThrough(At(s, steps, k - 1), steps[k - 1], id, st);
    }
  }

  // ── The regions under the mutexes, as they are written ─────────────────────

  class Manager {
    var all: map<SessionId, Session>
    var sessions: set<SessionId>
    var byDevice: map<Device, SessionId>
    var streams: map<StreamId, Stream>
    var pending: map<OpenId, Pending>

    ghost function Model(): State
      reads this
    {
      State(all, sessions, byDevice, streams, pending)
    }

    constructor ()
      ensures Model() == INIT
    {
      all, sessions, byDevice, streams, pending := map[], {}, map[], map[], map[];
    }

    /** The first region of Open: either the whole of it, or the discovery of an old session. port is
        what the scan found, None when every port is taken. */
    method OpenFirst(o: OpenId, d: Device, id: SessionId, port: Option<int>)
      returns (prior: Option<SessionId>, ok: bool)
      requires o !in pending && id !in all && (port.Some? ==> PortFree(Model(), port.value))
      modifies this
      ensures prior == if d in old(byDevice) then Some(old(byDevice)[d]) else None
      ensures ok <==> prior.Some? || port.Some?
      ensures prior.Some? ==> Model() == Do(old(Model()), OpenFound(o, d))
      ensures prior.None? && port.Some? ==> Model() == Do(old(Model()), OpenFresh(d, id, port.value))
      ensures !ok ==> Model() == old(Model())
    {
      if d in byDevice {
        prior, ok := Some(byDevice[d]), true;
        pending := pending[o := Pending(d, byDevice[d])];
        return;
      }
      if port.None? {
        return None, false;
      }
      prior, ok := None, true;
      all := all[id := Session(d, port.value, Live)];
      sessions := sessions + {id};
      byDevice := byDevice[d := id];
    }

    /** The second region of Open, after the old session's Close: it registers over whatever the device's
        entry has become. */
    method OpenSecond(o: OpenId, id: SessionId, port: Option<int>) returns (ok: bool)
      requires o in pending && id !in all && (port.Some? ==> PortFree(Model(), port.value))
      requires pending[o].prior in all && all[pending[o].prior].phase == Closed
      modifies this
      ensures ok <==> port.Some?
      ensures Model() == Do(old(Model()), if ok then OpenRegister(o, id, port.value) else OpenNoPort(o))
    {
      var d := pending[o].device;
      pending := pending - {o};
      if port.None? {
        return false;
      }
      all := all[id := Session(d, port.value, Live)];
      sessions := sessions + {id};
      byDevice := byDevice[d := id];
      ok := true;
    }

    /** The last region of Close. */
    method Remove(id: SessionId)
      requires id in all && all[id].phase == Finishing({})
      modifies this
      ensures Model() == Do(old(Model()), RemoveSession(id))
    {
      var d := all[id].device;
      sessions := sessions - {id};
      if d in byDevice && byDevice[d] == id {
        byDevice := byDevice - {d};
      }
      all := all[id := all[id].(phase := Closed)];
    }

    /** The device's leg is handed over unless one already lies in the channel. */
    method AttachDevice(session: SessionId, st: StreamId, d: Device) returns (ok: bool)
      requires Inv(Model())
      modifies this
      ensures ok <==> session in old(sessions) && old(all)[session].device == d && st in Listed(old(Model()), session)
                      && !old(streams)[st].offered
      ensures Model() == if ok then Do(old(Model()), Attach(st)) else old(Model())
    {
      if session !in sessions || all[session].device != d {
        return false;
      }
      if st !in streams || streams[st].session != session || streams[st].pc == Gone {
        return false;
      }
      if streams[st].offered {
        return false;
      }
      streams := streams[st := streams[st].(offered := true)];
      return true;
    }
  }

  // ── Finding a port ─────────────────────────────────────────────────────────

  /** The port tried in turn i of the scan. */
  function Candidate(lo: int, hi: int, start: nat, i: nat): int
    requires lo <= hi
  {
    lo + (start + i) % (hi - lo + 1)
  }

  /** The scan starts anywhere in the range and wraps around: it finds a free port exactly when there
      is one. */
  method Listen(lo: int, hi: int, start: nat, free: set<int>) returns (port: Option<int>)
    requires lo <= hi && start < hi - lo + 1
    ensures port.Some? ==> lo <= port.value <= hi && port.value in free
    ensures port.None? <==> forall p :: lo <= p <= hi ==> p !in free
  {
    var n := hi - lo + 1;
    for i := 0 to n
      invariant forall j :: 0 <= j < i ==> Candidate(lo, hi, start, j) !in free
    {
      var candidate := Candidate(lo, hi, start, i);
      if candidate in free {
        return Some(candidate);
      }
    }
    forall p | lo <= p <= hi ensures p !in free {
      var j := TurnOf(lo, hi, start, p);
    }
    return None;
  }

  lemma TurnOf(lo: int, hi: int, start: nat, p: int) returns (j: nat)
    requires lo <= p <= hi && start < hi - lo + 1
    ensures j < hi - lo + 1 && Candidate(lo, hi, start, j) == p
  {
    var n, x := hi - lo + 1, p - lo;
    j := if x >= start then x - start else x - start + n;
    assert start + j == x || start + j == x + n;
    ModOf(x, n);
  }

  lemma ModOf(x: nat, n: nat)
    requires x < n
    ensures x % n == x && (x + n) % n == x
  {
    var q := (x + n) / n;
    assert x + n == q * n + (x + n) % n;
    if q <= 0 {
      Times(q, 0, n);
    } else if q >= 2 {
      Times(2, q, n);
    }
  }

  lemma Times(a: int, b: int, n: nat)
    requires a <= b
    ensures a * n <= b * n
  {}
}

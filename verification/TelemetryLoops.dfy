/**
 The per-device telemetry loops of internal/api/handlers.go: a new connection replaces the loop of the
 previous one, and every loop removes its own map entry, and only its own, on the way out. One step is
 one region under the mutex, or one move of a loop's goroutine; any sequence of steps is an interleaving.
 */
module TelemetryLoops {

  type Device = nat
  type LoopId = nat

  /** Where a loop's goroutine is: about to set its timer, in its wait, woken and about to push, on its
      way out, past its own cancel, or ended. */
  datatype Pc = Arming | Waiting | Pushing | Leaving | Released | Ended

  /** late: the pushes made after the loop was cancelled. stalls: how often it went into its wait already
      cancelled and was held up there, past the whole interval, before the wait looked at either channel. */
  datatype Loop = Loop(device: Device, cancelled: bool, pc: Pc, failed: bool, late: nat, stalls: nat)

  /** Every loop ever started, the map under the mutex, and which loop each device started last. */
  datatype State = State(loops: map<LoopId, Loop>, table: map<Device, LoopId>, newest: map<Device, LoopId>)

  const INIT := State(map[], map[], map[])

  datatype Step =
    | Start(device: Device, id: LoopId)
    | Arm(id: LoopId)
    | Stall(id: LoopId)
    | Fire(id: LoopId)
    | SeeDone(id: LoopId)
    | Push(id: LoopId, ok: bool)
    | Release(id: LoopId)
    | Remove(id: LoopId)

  function Cancel(loops: map<LoopId, Loop>, id: LoopId): map<LoopId, Loop> {
    if id in loops then loops[id := loops[id].(cancelled := true)] else loops
  }

  /** A wait entered with the context already done ends at once, unless the timer is ready too by the time it
      looks (Stall); one that is cancelled while its timer fires may go either way. */
  predicate Enabled(s: State, step: Step) {
    match step
    case Start(_, id) => id !in s.loops
    case Arm(id) => id in s.loops && s.loops[id].pc == Arming
    case Stall(id) => id in s.loops && s.loops[id].pc == Arming && s.loops[id].cancelled
    case Fire(id) => id in s.loops && s.loops[id].pc == Waiting
    case SeeDone(id) => id in s.loops && s.loops[id].pc == Waiting && s.loops[id].cancelled
    case Push(id, _) => id in s.loops && s.loops[id].pc == Pushing
    case Release(id) => id in s.loops && s.loops[id].pc == Leaving
    case Remove(id) => id in s.loops && s.loops[id].pc == Released
  }

  function Do(s: State, step: Step): State {
    if !Enabled(s, step) then s
    else match step
      case Start(d, id) =>
        var loops := if d in s.table then Cancel(s.loops, s.table[d]) else s.loops;
        State(loops[id := Loop(d, false, Arming, false, 0, 0)], s.table[d := id], s.newest[d := id])
      case Arm(id) =>
        s.(loops := s.loops[id := s.loops[id].(pc := if s.loops[id].cancelled then Leaving else Waiting)])
      case Stall(id) =>
        s.(loops := s.loops[id := s.loops[id].(pc := Pushing, stalls := s.loops[id].stalls + 1)])
      case Fire(id) => s.(loops := s.loops[id := s.loops[id].(pc := Pushing)])
      case SeeDone(id) => s.(loops := s.loops[id := s.loops[id].(pc := Leaving)])
      case Push(id, ok) =>
        var l := s.loops[id];
        s.(loops := s.loops[id := l.(pc := if ok then Arming else Leaving, failed := l.failed || !ok,
                                     late := l.late + if l.cancelled then 1 else 0)])
      case Release(id) => s.(loops := s.loops[id := s.loops[id].(cancelled := true, pc := Released)])
      case Remove(id) =>
        var d := s.loops[id].device;
        State(s.loops[id := s.loops[id].(pc := Ended)],
              if d in s.table && s.table[d] == id then s.table - {d} else s.table,
              s.newest)
  }

  function Run(steps: seq<Step>): State {
    if steps == [] then INIT else Do(Run(steps[..|steps| - 1]), steps[|steps| - 1])
  }

  // ── What every interleaving keeps ──────────────────────────────────────────

  /** An entry names a loop of that device that has not ended. */
  ghost predicate TableNamesRunning(s: State) {
    forall d <- s.table :: s.table[d] in s.loops && s.loops[s.table[d]].device == d && s.loops[s.table[d]].pc != Ended
  }

  /** A loop that is not cancelled is the one in the map. */
  ghost predicate UncancelledIsInTable(s: State) {
    forall id <- s.loops :: !s.loops[id].cancelled ==>
      s.loops[id].device in s.table && s.table[s.loops[id].device] == id
  }

  /** A device's newest loop is live unless one of its own pushes failed. */
  ghost predicate NewestLives(s: State) {
    forall id <- s.loops :: var l := s.loops[id];
      && l.device in s.newest
      && (s.newest[l.device] == id && !l.failed ==> !l.cancelled && l.pc in {Arming, Waiting, Pushing})
  }

  ghost predicate LateAtMostOnce(s: State) {
    forall id <- s.loops :: var l := s.loops[id];
      && l.late <= 1 + l.stalls
      && (l.pc == Waiting || !l.cancelled ==> l.late == 0)
      && (l.pc == Pushing ==> l.late <= l.stalls)
      && (l.pc in {Released, Ended} ==> l.cancelled)
  }

  ghost predicate Inv(s: State) {
    TableNamesRunning(s) && UncancelledIsInTable(s) && NewestLives(s) && LateAtMostOnce(s)
  }

  lemma StepKeepsTable(s: State, step: Step)
    requires TableNamesRunning(s)
    ensures TableNamesRunning(Do(s, step))
  {
  }

  lemma StepKeepsUncancelled(s: State, step: Step)
    requires Inv(s)
    ensures UncancelledIsInTable(Do(s, step))
  {
  }

  lemma StepKeepsNewest(s: State, step: Step)
    requires Inv(s)
    ensures NewestLives(Do(s, step))
  {
  }

  lemma StepKeepsLate(s: State, step: Step)
    requires Inv(s)
    ensures LateAtMostOnce(Do(s, step))
  {
  }

  lemma {:induction false} EveryRunKeeps(steps: seq<Step>)
    ensures Inv(Run(steps))
  {
    if steps != [] {
      var n := |steps| - 1;
      EveryRunKeeps(steps[..n]);
      StepKeepsTable(Run(steps[..n]), steps[n]);
      StepKeepsUncancelled(Run(steps[..n]), steps[n]);
      StepKeepsNewest(Run(steps[..n]), steps[n]);
      StepKeepsLate(Run(steps[..n]), steps[n]);
    }
  }

  predicate LiveOn(s: State, id: LoopId) {
    id in s.loops && !s.loops[id].cancelled
  }

  /** After any interleaving a device has at most one loop that is not cancelled, and the map names it. */
  lemma OneLiveLoopPerDevice(steps: seq<Step>, a: LoopId, b: LoopId)
    ensures var s := Run(steps);
            LiveOn(s, a) ==> s.loops[a].device in s.table && s.table[s.loops[a].device] == a
    ensures var s := Run(steps);
            LiveOn(s, a) && LiveOn(s, b) && s.loops[a].device == s.loops[b].device ==> a == b
  {
    EveryRunKeeps(steps);
  }

  /** A loop pushes at most once after it has been cancelled, and once more for each time it is held up
      between setting its timer and waiting on it for longer than the timer runs. */
  lemma AtMostOneLatePush(steps: seq<Step>, id: LoopId)
    ensures var s := Run(steps);
            id in s.loops ==> s.loops[id].late <= 1 + s.loops[id].stalls
  {
    EveryRunKeeps(steps);
  }

  /** A loop that is never held up so pushes at most once after it has been cancelled. */
  lemma NotHeldUpPushesOnce(steps: seq<Step>, id: LoopId)
    requires forall step <- steps :: step != Stall(id)
    ensures var s := Run(steps);
            id in s.loops ==> s.loops[id].late <= 1
  {
    AtMostOneLatePush(steps, id);
    NoStalls(steps, id);
  }

  lemma {:induction false} NoStalls(steps: seq<Step>, id: LoopId)
    requires forall step <- steps :: step != Stall(id)
    ensures var s := Run(steps);
            id in s.loops ==> s.loops[id].stalls == 0
  {
    if steps != [] {
      var n := |steps| - 1;
      assert steps[n] in steps && forall step <- steps[..n] :: step in steps;
      NoStalls(steps[..n], id);
    }
  }

  /** The bound is reached: a loop held up n times, and one push more. */
  lemma {:induction false} HeldUpRun(n: nat) returns (steps: seq<Step>)
    ensures var s := Run(steps);
            && 0 in s.loops && s.loops[0] == Loop(0, true, Arming, false, n + 1, n)
  {
    if n == 0 {
      steps := LatePushRun();
    } else {
      var before := HeldUpRun(n - 1);
      Then(before, Stall(0));
      Then(before + [Stall(0)], Push(0, true));
      steps := before + [Stall(0)] + [Push(0, true)];
    }
  }

  /** On its way out or gone. */
  predicate OnWayOut(s: State, id: LoopId) {
    id in s.loops && s.loops[id].pc in {Leaving, Released, Ended}
  }

  /** A loop on its way out never comes back to push. */
  lemma {:induction false} OutStaysOut(steps: seq<Step>, more: seq<Step>, id: LoopId)
    requires OnWayOut(Run(steps), id)
    ensures OnWayOut(Run(steps + more), id) && Run(steps + more).loops[id].late == Run(steps).loops[id].late
  {
    if more == [] {
      assert steps + more == steps;
    } else {
      var n := |more| - 1;
      OutStaysOut(steps, more[..n], id);
      OutStep(Run(steps + more[..n]), more[n], id);
      Then(steps + more[..n], more[n]);
      assert steps + more == steps + more[..n] + [more[n]];
    }
  }

  lemma OutStep(s: State, step: Step, id: LoopId)
    requires OnWayOut(s, id)
    ensures OnWayOut(Do(s, step), id) && Do(s, step).loops[id].late == s.loops[id].late
  {
  }

  /** A superseded loop that learns of it in its wait stops at once: it pushes nothing, then or ever. */
  lemma SeenDonePushesNothing(steps: seq<Step>, more: seq<Step>, id: LoopId)
    requires Enabled(Run(steps), SeeDone(id))
    ensures var s := Run(steps + [SeeDone(id)] + more);
            OnWayOut(s, id) && s.loops[id].late == 0
  {
    EveryRunKeeps(steps);
    Then(steps, SeeDone(id));
    OutStaysOut(steps + [SeeDone(id)], more, id);
  }

  /** But if its timer is ready as well by the time the wait looks, the wait may take that: one late push. */
  lemma TimerMayWin(steps: seq<Step>, id: LoopId, ok: bool)
    requires Enabled(Run(steps), SeeDone(id))
    ensures var s := Run(steps + [Fire(id)] + [Push(id, ok)]);
            id in s.loops && s.loops[id].late == 1
  {
    EveryRunKeeps(steps);
    Then(steps, Fire(id));
    Then(steps + [Fire(id)], Push(id, ok));
  }

  /** A failed push is a loop's last. */
  lemma FailedPushIsLast(steps: seq<Step>, more: seq<Step>, id: LoopId)
    requires Enabled(Run(steps), Push(id, false))
    ensures var was, s := Run(steps).loops[id], Run(steps + [Push(id, false)] + more);
            OnWayOut(s, id) && s.loops[id].late == was.late + if was.cancelled then 1 else 0
  {
    Then(steps, Push(id, false));
    OutStaysOut(steps + [Push(id, false)], more, id);
  }

  /** Cancelled, and not about to push. */
  predicate Quiet(s: State, id: LoopId) {
    id in s.loops && s.loops[id].cancelled && s.loops[id].pc != Pushing
  }

  lemma QuietStep(s: State, step: Step, id: LoopId)
    requires Quiet(s, id) && step != Stall(id) && (s.loops[id].pc == Waiting ==> step != Fire(id))
    ensures Quiet(Do(s, step), id) && Do(s, step).loops[id].late == s.loops[id].late
    ensures s.loops[id].pc != Waiting ==> Do(s, step).loops[id].pc != Waiting
  {
  }

  /** After it was cancelled a loop that is not about to push only pushes if its timer wakes it: by firing in
      a wait it was already in, or in a wait it entered late and was held up in. */
  lemma {:induction false} UnwokenPushesNothing(steps: seq<Step>, more: seq<Step>, id: LoopId)
    requires Quiet(Run(steps), id)
    requires forall step <- more :: step != Stall(id) && (Run(steps).loops[id].pc == Waiting ==> step != Fire(id))
    ensures var was, s := Run(steps).loops[id], Run(steps + more);
            Quiet(s, id) && s.loops[id].late == was.late && (was.pc != Waiting ==> s.loops[id].pc != Waiting)
  {
    if more == [] {
      assert steps + more == steps;
    } else {
      var n := |more| - 1;
      assert more[n] in more && forall step <- more[..n] :: step in more;
      UnwokenPushesNothing(steps, more[..n], id);
      QuietStep(Run(steps + more[..n]), more[n], id);
      Then(steps + more[..n], more[n]);
      assert steps + more == steps + more[..n] + [more[n]];
    }
  }

  lemma Then(steps: seq<Step>, step: Step)
    ensures Run(steps + [step]) == Do(Run(steps), step)
  {
    assert (steps + [step])[..|steps|] == steps;
  }

  /** A loop is superseded between waking and pushing. */
  lemma LatePushRun() returns (steps: seq<Step>)
    ensures var s := Run(steps);
            && 0 in s.loops && s.loops[0] == Loop(0, true, Arming, false, 1, 0)
  {
    var fired := [] + [Start(0, 0)] + [Arm(0)] + [Fire(0)];
    FiredRun();
    Then(fired, Start(0, 1));
    Then(fired + [Start(0, 1)], Push(0, true));
    steps := fired + [Start(0, 1)] + [Push(0, true)];
  }

  /** A loop that is about to push. */
  const FIRED := State(map[0 := Loop(0, false, Pushing, false, 0, 0)], map[0 := 0], map[0 := 0])

  lemma FiredRun()
    ensures Run([] + [Start(0, 0)] + [Arm(0)] + [Fire(0)]) == FIRED
  {
    Then([], Start(0, 0));
    Then([] + [Start(0, 0)], Arm(0));
    Then([] + [Start(0, 0)] + [Arm(0)], Fire(0));
    assert Do(INIT, Start(0, 0)) == State(map[0 := Loop(0, false, Arming, false, 0, 0)], map[0 := 0], map[0 := 0]);
  }

  /** The loop of the latest connection keeps running, and keeps its entry, until one of its own pushes
      fails: nothing an earlier loop does on its way out takes it away. */
  lemma LatestConnectionServed(steps: seq<Step>, d: Device)
    ensures var s := Run(steps);
            d in s.newest ==> s.newest[d] in s.loops && (s.loops[s.newest[d]].failed || Serves(s, s.newest[d], d))
  {
    EveryRunKeeps(steps);
    NewestStarted(steps, d);
  }

  /** The loop is the device's entry and has not been told to stop. */
  predicate Serves(s: State, id: LoopId, d: Device) {
    d in s.table && s.table[d] == id && id in s.loops && s.loops[id].pc in {Arming, Waiting, Pushing}
  }

  lemma {:induction false} NewestStarted(steps: seq<Step>, d: Device)
    ensures var s := Run(steps);
            d in s.newest ==> s.newest[d] in s.loops && s.loops[s.newest[d]].device == d
  {
    if steps != [] { NewestStarted(steps[..|steps| - 1], d); }
  }

  /** A device's entry changes only when the device connects anew or its own loop leaves. */
  lemma OnlyOwnExitRemoves(steps: seq<Step>, step: Step, d: Device)
    ensures var s, t := Run(steps), Run(steps + [step]);
            d in s.table ==>
              (d in t.table && t.table[d] == s.table[d])
              || (step.Start? && step.device == d) || step == Remove(s.table[d])
  {
    EveryRunKeeps(steps);
    assert (steps + [step])[..|steps|] == steps;
  }

  /** Once every loop has ended the map is empty: no entry outlives its loop. */
  lemma NothingLeaks(steps: seq<Step>)
    ensures var s := Run(steps);
            (forall id <- s.loops :: s.loops[id].pc == Ended) ==> s.table == map[]
  {
    EveryRunKeeps(steps);
    var s := Run(steps);
    assert forall d <- s.table :: s.table[d] in s.loops;
  }

  // ── The regions under the mutex, as they are written ───────────────────────

  class Handler {
    var telemetryLoops: map<Device, LoopId>
    var loops: map<LoopId, Loop>
    ghost var newest: map<Device, LoopId>

    ghost function Model(): State
      reads this
    {
      State(loops, telemetryLoops, newest)
    }

    constructor ()
      ensures Model() == INIT
    {
      telemetryLoops, loops, newest := map[], map[], map[];
    }

    method StartTelemetryRequestLoop(d: Device, id: LoopId)
      requires id !in loops
      modifies this
      ensures Model() == Do(old(Model()), Start(d, id))
    {
      var loop := Loop(d, false, Arming, false, 0, 0);
      if d in telemetryLoops {
        loops := Cancel(loops, telemetryLoops[d]);
      }
      telemetryLoops := telemetryLoops[d := id];
      loops := loops[id := loop];
      newest := newest[d := id];
    }

    /** The deferred exit: cancel, then drop the entry if it is still this loop's. */
    method Exit(id: LoopId)
      requires id in loops && loops[id].pc == Leaving
      modifies this
      ensures Model() == Do(Do(old(Model()), Release(id)), Remove(id))
    {
      loops := loops[id := loops[id].(cancelled := true, pc := Released)];
      var d := loops[id].device;
      if d in telemetryLoops && telemetryLoops[d] == id {
        telemetryLoops := telemetryLoops - {d};
      }
      loops := loops[id := loops[id].(pc := Ended)];
    }
  }
}

/**
 Where the tunnel manager of internal/adbtunnel/manager.go keeps less than it says: legs that come late,
 streams that a Close does not see, and two Opens of one device. Each with its exact condition and a run.
 */
module AdbTunnelGaps {
  import opened AdbTunnel

  // ── Legs that come late ────────────────────────────────────────────────────

  /** A run of a manager is what its steps make of the empty one. */
  lemma {:induction false} RunIsAt(steps: seq<Step>, k: nat)
    requires k <= |steps|
    ensures Run(steps[..k]) == At(INIT, steps, k)
  {
    if k > 0 {
      RunIsAt(steps, k - 1);
      assert steps[..k][..k - 1] == steps[..k - 1];
    }
  }

  /** Some later step takes a further leg of the stream to its pipe. */
  predicate PipesAnother(s: State, steps: seq<Step>, st: StreamId) {
    var t := At(s, steps, |steps|);
    st in s.streams && st in t.streams && t.streams[st].legs > s.streams[st].legs
  }

  /** Once serve is past its wait no leg is ever piped again, whatever happens. */
  lemma {:induction false} LegNeverPiped(s: State, steps: seq<Step>, k: nat, st: StreamId)
    requires k <= |steps| && st in s.streams && s.streams[st].pc != Waiting
    ensures var t := At(s, steps, k);
            st in t.streams && t.streams[st].pc != Waiting && t.streams[st].legs == s.streams[st].legs
  {
    if k > 0 {
      LegNeverPiped(s, steps, k - 1, st);
      StaysPast(At(s, steps, k - 1), steps[k - 1], st);
    }
  }

  lemma StaysPast(s: State, step: Step, st: StreamId)
    requires st in s.streams && s.streams[st].pc != Waiting
    ensures var t := Do(s, step);
            st in t.streams && t.streams[st].pc != Waiting && t.streams[st].legs == s.streams[st].legs
  {
  }

  /** A leg that is accepted can still be piped exactly when serve is waiting for one. */
  lemma AcceptedLegCanBePipedIff(s: State, st: StreamId)
    requires Enabled(s, Attach(st))
    ensures (exists steps :: PipesAnother(Do(s, Attach(st)), steps, st)) <==> s.streams[st].pc == Waiting
  {
    var t := Do(s, Attach(st));
    if s.streams[st].pc == Waiting {
      AtTail(t, TakeLeg(st), [], 0);
      assert [TakeLeg(st)] + [] == [TakeLeg(st)];
      assert PipesAnother(t, [TakeLeg(st)], st);
    } else {
      forall steps ensures !PipesAnother(t, steps, st) {
        LegNeverPiped(t, steps, |steps|, st);
      }
    }
  }

  lemma Then(steps: seq<Step>, step: Step)
    ensures Run(steps + [step]) == Do(Run(steps), step)
  {
    assert (steps + [step])[..|steps|] == steps;
  }

  /** A manager with one session, as its first Open leaves it. */
  const OPENED := State(map[0 := Session(0, 5555, Live)], {0}, map[0 := 0], map[], map[])

  lemma OpenedRun()
    ensures Run([OpenFresh(0, 0, 5555)]) == OPENED
  {
    Then([], OpenFresh(0, 0, 5555));
    assert [] + [OpenFresh(0, 0, 5555)] == [OpenFresh(0, 0, 5555)];
  }

  /** A stream is registered and its first leg piped. */
  function ServedFrom(s: State, id: SessionId, st: StreamId): State {
    Do(Do(Do(s, Serve(st, id)), Attach(st)), TakeLeg(st))
  }

  lemma ServedPipes(s: State, id: SessionId, st: StreamId)
    requires id in s.all && st !in s.streams
    ensures ServedFrom(s, id, st) == SetStream(s, st, Stream(id, Piping, false, 1, 0))
  {
  }

  /** It happens: a stream's second leg is accepted after serve took the first, and no run from there
      pipes it. */
  lemma LateLegRun() returns (steps: seq<Step>)
    ensures var s := Run(steps);
            && Enabled(s, Attach(0)) && s.streams[0].legs == 1
            && Do(s, Attach(0)).streams[0].offered
            && forall more :: !PipesAnother(Do(s, Attach(0)), more, 0)
  {
    OpenedRun();
    ServedPipes(OPENED, 0, 0);
    steps := [OpenFresh(0, 0, 5555)] + [Serve(0, 0)] + [Attach(0)] + [TakeLeg(0)];
    Then([OpenFresh(0, 0, 5555)], Serve(0, 0));
    Then([OpenFresh(0, 0, 5555)] + [Serve(0, 0)], Attach(0));
    Then([OpenFresh(0, 0, 5555)] + [Serve(0, 0)] + [Attach(0)], TakeLeg(0));
    AcceptedLegCanBePipedIff(Run(steps), 0);
  }

  // ── Streams that a Close does not see ──────────────────────────────────────

  /** A stream stays its session's, and stays finished. */
  lemma {:induction false} StreamStays(s: State, steps: seq<Step>, k: nat, st: StreamId)
    requires k <= |steps| && st in s.streams
    ensures var t := At(s, steps, k);
            && st in t.streams && t.streams[st].session == s.streams[st].session
            && t.streams[st].finishes >= s.streams[st].finishes
  {
    if k > 0 {
      StreamStays(s, steps, k - 1, st);
      StreamStaysNow(At(s, steps, k - 1), steps[k - 1], st);
    }
  }

  lemma StreamStaysNow(s: State, step: Step, st: StreamId)
    requires st in s.streams
    ensures var t := Do(s, step);
            && st in t.streams && t.streams[st].session == s.streams[st].session
            && t.streams[st].finishes >= s.streams[st].finishes
  {
  }

  /** A Close that starts with the snapshot leaves the maps while the stream is piping, not finished. */
  predicate LeftOpen(s: State, id: SessionId, steps: seq<Step>, st: StreamId) {
    steps != [] && steps[0] == Snapshot(id) && PipesOn(At(s, steps, |steps|), id, st)
  }

  predicate PipesOn(t: State, id: SessionId, st: StreamId) {
    && id in t.all && t.all[id].phase == Closed
    && st in t.streams && t.streams[st].session == id && t.streams[st].finishes == 0 && t.streams[st].pc == Piping
  }

  /** The steps that finish everything a closing session has on its list, and nothing else. */
  lemma FinishAll(s: State, id: SessionId, st: StreamId) returns (steps: seq<Step>)
    requires id in s.all && s.all[id].phase.Finishing? && s.all[id].phase.todo <= s.streams.Keys
    requires st in s.streams && st !in s.all[id].phase.todo
    ensures var t := At(s, steps, |steps|);
            && id in t.all && t.all[id].phase == Finishing({})
            && st in t.streams && t.streams[st] == s.streams[st]
    decreases |s.all[id].phase.todo|
  {
    if s.all[id].phase.todo == {} {
      steps := [];
    } else {
      var x :| x in s.all[id].phase.todo;
      var t := Do(s, FinishListed(id, x));
      assert t.all[id].phase.todo == s.all[id].phase.todo - {x};
      var rest := FinishAll(t, id, st);
      steps := [FinishListed(id, x)] + rest;
      AtTail(s, FinishListed(id, x), rest, |rest|);
    }
  }

  /** Close's promise to end every stream fails for exactly the streams registered after its snapshot:
      each of those may be piping when the session is gone, and no other. */
  lemma CloseMissesIff(s: State, id: SessionId, st: StreamId)
    requires Inv(s) && id in s.all && s.all[id].phase == Claimed
    ensures (exists steps :: LeftOpen(s, id, steps, st)) <==> st !in s.streams
  {
    if st in s.streams {
      forall steps ensures !LeftOpen(s, id, steps, st) {
        if steps != [] && steps[0] == Snapshot(id) {
          StreamStays(s, steps, |steps|, st);
          if s.streams[st].session == id {
            CloseFinishesWhatItSaw(s, id, steps, |steps|, st);
          }
        }
      }
    } else {
      var steps := LeaveOpen(s, id, st);
    }
  }

  lemma LeaveOpen(s: State, id: SessionId, st: StreamId) returns (steps: seq<Step>)
    requires id in s.all && s.all[id].phase == Claimed && st !in s.streams
    ensures LeftOpen(s, id, steps, st)
  {
    var a := Do(s, Snapshot(id));
    ServedAfter(s, id, st);
    var rest := FinishAndRemove(ServedFrom(a, id, st), id, st);
    var served := ServeThen(id, st, rest);
    ServedThen(a, id, st, rest);
    AtTail(s, Snapshot(id), served, |served|);
    steps := [Snapshot(id)] + served;
  }

  /** A stream that is served after the snapshot pipes, and is not on the list. */
  lemma ServedAfter(s: State, id: SessionId, st: StreamId)
    requires id in s.all && s.all[id].phase == Claimed && st !in s.streams
    ensures var b := ServedFrom(Do(s, Snapshot(id)), id, st);
            && id in b.all && b.all[id].phase == Finishing(Listed(s, id)) && Listed(s, id) <= b.streams.Keys
            && st !in Listed(s, id) && st in b.streams && b.streams[st] == Stream(id, Piping, false, 1, 0)
  {
    SnapshotLists(s, id);
    ServedPipes(Do(s, Snapshot(id)), id, st);
  }

  /** The rest of a Close that does not have the piping stream on its list. */
  lemma FinishAndRemove(s: State, id: SessionId, st: StreamId) returns (steps: seq<Step>)
    requires id in s.all && s.all[id].phase.Finishing? && s.all[id].phase.todo <= s.streams.Keys
    requires st in s.streams && st !in s.all[id].phase.todo && s.streams[st] == Stream(id, Piping, false, 1, 0)
    ensures PipesOn(At(s, steps, |steps|), id, st)
  {
    var finish := FinishAll(s, id, st);
    AtAppend(s, finish, RemoveSession(id));
    RemovedLeavesOpen(At(s, finish, |finish|), id, st);
    steps := finish + [RemoveSession(id)];
  }

  function ServeThen(id: SessionId, st: StreamId, rest: seq<Step>): seq<Step> {
    [Serve(st, id)] + ([Attach(st)] + ([TakeLeg(st)] + rest))
  }

  lemma ServedThen(s: State, id: SessionId, st: StreamId, rest: seq<Step>)
    ensures var steps := ServeThen(id, st, rest);
            At(s, steps, |steps|) == At(ServedFrom(s, id, st), rest, |rest|)
  {
    AtTail(Do(Do(s, Serve(st, id)), Attach(st)), TakeLeg(st), rest, |rest|);
    AtTail(Do(s, Serve(st, id)), Attach(st), [TakeLeg(st)] + rest, |rest| + 1);
    AtTail(s, Serve(st, id), [Attach(st)] + ([TakeLeg(st)] + rest), |rest| + 2);
  }

  lemma SnapshotLists(s: State, id: SessionId)
    requires id in s.all && s.all[id].phase == Claimed
    ensures var t := Do(s, Snapshot(id));
            && id in t.all && t.all[id].phase == Finishing(Listed(s, id)) && t.streams == s.streams
            && Listed(s, id) <= t.streams.Keys
  {
  }

  lemma RemovedLeavesOpen(s: State, id: SessionId, st: StreamId)
    requires id in s.all && s.all[id].phase == Finishing({}) && st in s.streams
    ensures var t := Do(s, RemoveSession(id));
            id in t.all && t.all[id].phase == Closed && t.streams == s.streams
  {
  }

  lemma AtAppend(s: State, steps: seq<Step>, last: Step)
    ensures At(s, steps + [last], |steps| + 1) == Do(At(s, steps, |steps|), last)
  {
    AtPrefix(s, steps, steps + [last], |steps|);
  }

  lemma {:induction false} AtPrefix(s: State, steps: seq<Step>, more: seq<Step>, k: nat)
    requires k <= |steps| && steps <= more
    ensures At(s, steps, k) == At(s, more, k)
  {
    if k > 0 { AtPrefix(s, steps, more, k - 1); }
  }

  /** It happens: a connection accepted just before the Close is served after its snapshot, pipes a leg,
      and goes on after the session is gone. */
  lemma MissedStreamRun() returns (steps: seq<Step>)
    ensures var s := Run(steps);
            && 0 in s.all && s.all[0].phase == Closed
            && 0 in s.streams && s.streams[0].session == 0 && s.streams[0].pc == Piping && s.streams[0].finishes == 0
  {
    OpenedRun();
    var a := [OpenFresh(0, 0, 5555)] + [Claim(0)] + [Snapshot(0)];
    Then([OpenFresh(0, 0, 5555)], Claim(0));
    Then([OpenFresh(0, 0, 5555)] + [Claim(0)], Snapshot(0));
    var closing := SetPhase(OPENED, 0, Finishing({}));
    assert Listed(SetPhase(OPENED, 0, Claimed), 0) == {};
    assert Run(a) == closing;
    Then(a, Serve(0, 0));
    Then(a + [Serve(0, 0)], Attach(0));
    Then(a + [Serve(0, 0)] + [Attach(0)], TakeLeg(0));
    ServedPipes(closing, 0, 0);
    steps := a + [Serve(0, 0)] + [Attach(0)] + [TakeLeg(0)] + [RemoveSession(0)];
    Then(a + [Serve(0, 0)] + [Attach(0)] + [TakeLeg(0)], RemoveSession(0));
    RemovedLeavesOpen(ServedFrom(closing, 0, 0), 0, 0);
  }

  // ── One live session per device ────────────────────────────────────────────

  /** Every live session is the one its device's entry names: at most one per device. */
  ghost predicate OneLive(s: State) {
    forall id :: IsLive(s, id) ==> s.all[id].device in s.byDevice && s.byDevice[s.all[id].device] == id
  }

  /** Only the second half of Open can break it, and it does exactly when a live session of the device
      is registered at that moment: the entry is overwritten without being looked at again. */
  lemma RegisterKeepsOneLiveIff(s: State, o: OpenId, id: SessionId, port: int)
    requires Inv(s) && OneLive(s) && Enabled(s, OpenRegister(o, id, port))
    ensures var d := s.pending[o].device;
            OneLive(Do(s, OpenRegister(o, id, port))) <==> !(d in s.byDevice && IsLive(s, s.byDevice[d]))
  {
    var d, t := s.pending[o].device, Do(s, OpenRegister(o, id, port));
    if d in s.byDevice && IsLive(s, s.byDevice[d]) {
      assert IsLive(t, s.byDevice[d]) && t.byDevice[d] == id != s.byDevice[d];
    }
  }

  lemma OtherStepsKeepOneLive(s: State, step: Step)
    requires MapsAgree(s) && OneLive(s) && !step.OpenRegister?
    ensures OneLive(Do(s, step))
  {
    var t := Do(s, step);
    forall id | IsLive(t, id)
      ensures t.all[id].device in t.byDevice && t.byDevice[t.all[id].device] == id
    {
      assert id in s.all ==> IsLive(s, id);
    }
  }

  /** Two Opens that both find the old session leave two live sessions, one of them in no device entry. */
  lemma TwoOpensTwoLive(s: State, d: Device, a: SessionId, b: SessionId, p: int, q: int)
    requires Inv(s) && d in s.byDevice && IsLive(s, s.byDevice[d]) && s.pending == map[]
    requires Listed(s, s.byDevice[d]) == {} && a !in s.all && b !in s.all && a != b && p != q
    requires PortFree(s, p) && PortFree(s, q)
    ensures var x := s.byDevice[d];
            var t := At(s, [OpenFound(0, d), OpenFound(1, d), Claim(x), Snapshot(x), RemoveSession(x),
                            OpenRegister(0, a, p), OpenRegister(1, b, q)], 7);
            IsLive(t, a) && IsLive(t, b) && t.all[a].device == t.all[b].device && !OneLive(t)
  {
    var x := s.byDevice[d];
    var steps := [OpenFound(0, d), OpenFound(1, d), Claim(x), Snapshot(x), RemoveSession(x),
                  OpenRegister(0, a, p), OpenRegister(1, b, q)];
    assert At(s, steps, 1) == Do(s, steps[0]);
    assert At(s, steps, 2) == Do(At(s, steps, 1), steps[1]);
    assert At(s, steps, 3) == Do(At(s, steps, 2), steps[2]);
    assert At(s, steps, 4) == Do(At(s, steps, 3), steps[3]);
    assert At(s, steps, 5) == Do(At(s, steps, 4), steps[4]);
    assert At(s, steps, 6) == Do(At(s, steps, 5), steps[5]);
    BothFind(s, d);
    CloseEmpty(At(s, steps, 2), x);
    BothRegister(At(s, steps, 5), d, x, a, b, p, q);
  }

  /** It happens to a manager whose one device was opened once. */
  lemma TwoOpensRun() returns (steps: seq<Step>)
    ensures var s := Run(steps);
            IsLive(s, 1) && IsLive(s, 2) && s.all[1].device == s.all[2].device && !OneLive(s)
  {
    var first := OpenFresh(0, 0, 5555);
    var rest := [OpenFound(0, 0), OpenFound(1, 0), Claim(0), Snapshot(0), RemoveSession(0),
                 OpenRegister(0, 1, 5556), OpenRegister(1, 2, 5557)];
    OpenedRun();
    EveryRunKeeps([first]);
    TwoOpensTwoLive(OPENED, 0, 1, 2, 5556, 5557);
    steps := [first] + rest;
    RunIsAt(steps, 8);
    AtTail(INIT, first, rest, 7);
    RunIsAt([first], 1);
    assert steps[..8] == steps && [first][..1] == [first];
    assert At(INIT, [first], 1) == Do(INIT, first);
  }

  lemma BothFind(s: State, d: Device)
    requires d in s.byDevice && s.pending == map[]
    ensures Do(Do(s, OpenFound(0, d)), OpenFound(1, d))
         == s.(pending := map[0 := Pending(d, s.byDevice[d]), 1 := Pending(d, s.byDevice[d])])
  {
  }

  lemma CloseEmpty(s: State, x: SessionId)
    requires IsLive(s, x) && Listed(s, x) == {}
    ensures var t := Do(Do(Do(s, Claim(x)), Snapshot(x)), RemoveSession(x));
            t.all == s.all[x := s.all[x].(phase := Closed)] && t.pending == s.pending
  {
    var c := Do(s, Claim(x));
    assert Listed(c, x) == Listed(s, x);
    assert Do(c, Snapshot(x)).all[x].phase == Finishing({});
  }

  lemma BothRegister(s: State, d: Device, x: SessionId, a: SessionId, b: SessionId, p: int, q: int)
    requires s.pending == map[0 := Pending(d, x), 1 := Pending(d, x)]
    requires x in s.all && s.all[x].phase == Closed && a !in s.all && b !in s.all && a != b && p != q
    requires PortFree(s, p) && PortFree(s, q)
    ensures var t := Do(Do(s, OpenRegister(0, a, p)), OpenRegister(1, b, q));
            IsLive(t, a) && IsLive(t, b) && t.all[a].device == t.all[b].device && !OneLive(t)
  {
    var m := Do(s, OpenRegister(0, a, p));
    assert m.all == s.all[a := Session(d, p, Live)] && PortFree(m, q);
    var t := Do(m, OpenRegister(1, b, q));
    assert t.byDevice[d] == b && IsLive(t, a);
  }

  /** A run in which an Open starts only when no other Open of the device is between its two halves. */
  ghost predicate OpensTakeTurns(steps: seq<Step>) {
    forall k :: 0 <= k < |steps| ==>
      (steps[k].OpenFresh? || steps[k].OpenFound?) && Enabled(Run(steps[..k]), steps[k]) ==>
        forall o <- Run(steps[..k]).pending :: Run(steps[..k]).pending[o].device != steps[k].device
  }

  /** While an Open is between its halves, only the session it is closing may still be live, and no
      other Open of the device is. */
  ghost predicate PendingAlone(s: State) {
    && (forall o <- s.pending, id :: IsLive(s, id) && s.all[id].device == s.pending[o].device ==>
                                       id == s.pending[o].prior)
    && (forall o <- s.pending, p <- s.pending :: s.pending[o].device == s.pending[p].device ==> o == p)
  }

  /** When Opens of one device take turns, at most one session per device is ever live. */
  lemma {:induction false} TurnsKeepOneLive(steps: seq<Step>)
    requires OpensTakeTurns(steps)
    ensures OneLive(Run(steps)) && PendingAlone(Run(steps))
  {
    if steps != [] {
      var n := |steps| - 1;
      var init := steps[..n];
      forall k | 0 <= k < n ensures init[..k] == steps[..k] {}
      TurnsKeepOneLive(init);
      EveryRunKeeps(init);
      TurnStep(Run(init), steps[n]);
    }
  }

  lemma TurnStep(s: State, step: Step)
    requires Inv(s) && OneLive(s) && PendingAlone(s)
    requires (step.OpenFresh? || step.OpenFound?) && Enabled(s, step) ==>
               forall o <- s.pending :: s.pending[o].device != step.device
    ensures OneLive(Do(s, step)) && PendingAlone(Do(s, step))
  {
    if step.OpenRegister? && Enabled(s, step) {
      RegisterKeepsOneLiveIff(s, step.open, step.id, step.port);
    } else if !step.OpenRegister? {
      OtherStepsKeepOneLive(s, step);
    }
    PendingStaysAlone(s, step);
  }

  lemma PendingStaysAlone(s: State, step: Step)
    requires MapsAgree(s) && OneLive(s) && PendingAlone(s)
    requires (step.OpenFresh? || step.OpenFound?) && Enabled(s, step) ==>
               forall o <- s.pending :: s.pending[o].device != step.device
    ensures PendingAlone(Do(s, step))
  {
    var t := Do(s, step);
    forall o, id | o in t.pending && IsLive(t, id) && t.all[id].device == t.pending[o].device
      ensures id == t.pending[o].prior
    {
      assert id in s.all ==> IsLive(s, id);
      if step.OpenRegister? && Enabled(s, step) && id == step.id {
        assert false;
      }
    }
  }
}

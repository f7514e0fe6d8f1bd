/**
 The links between server copies of internal/cluster/cluster.go: events gathered and sent in chunks,
 and the set of remote devices, replaced whole and never mutated.
 */
module Cluster {
  import opened Wrappers

  type Device = nat

  datatype Kind = PresenceOn | PresenceOff | Other

  /** An event; device is None when its id does not parse as one. */
  datatype Ev = Ev(kind: Kind, device: Option<Device>)

  const EVENTS_PER_NOTIFY := 90

  // ── Sending ────────────────────────────────────────────────────────────────

  function Flatten(batches: seq<seq<Ev>>): seq<Ev> {
    if batches == [] then [] else Flatten(batches[..|batches| - 1]) + batches[|batches| - 1]
  }

  lemma {:induction false} FlattenConcat(a: seq<seq<Ev>>, b: seq<seq<Ev>>)
    ensures Flatten(a + b) == Flatten(a) + Flatten(b)
  {
    if b == [] {
      assert a + b == a;
    } else {
      var n := |b| - 1;
      assert (a + b)[..|a| + n] == a + b[..n];
      FlattenConcat(a, b[..n]);
    }
  }

  /** Chunks of at most 90, none empty, every one but the last full. */
  ghost predicate WellChunked(notes: seq<seq<Ev>>) {
    && (forall c <- notes :: 1 <= |c| <= EVENTS_PER_NOTIFY)
    && forall i :: 0 <= i < |notes| - 1 ==> |notes[i]| == EVENTS_PER_NOTIFY
  }

  lemma {:induction false} LengthOfChunks(notes: seq<seq<Ev>>)
    requires WellChunked(notes)
    ensures notes != [] ==> EVENTS_PER_NOTIFY * (|notes| - 1) < |Flatten(notes)| <= EVENTS_PER_NOTIFY * |notes|
  {
    if |notes| > 1 {
      var init := notes[..|notes| - 1];
      LengthOfChunks(init);
      FullChunks(init);
    } else if |notes| == 1 {
      assert notes[..0] == [] && Flatten(notes) == notes[0] && notes[0] in notes;
    }
  }

  lemma {:induction false} FullChunks(notes: seq<seq<Ev>>)
    requires forall i :: 0 <= i < |notes| ==> |notes[i]| == EVENTS_PER_NOTIFY
    ensures |Flatten(notes)| == EVENTS_PER_NOTIFY * |notes|
  {
    if notes != [] { FullChunks(notes[..|notes| - 1]); }
  }

  /** One gathered batch goes out in order, in as few notifications as can hold it. */
  method SendBatch(events: seq<Ev>) returns (notes: seq<seq<Ev>>)
    requires events != []
    ensures Flatten(notes) == events && WellChunked(notes)
    ensures EVENTS_PER_NOTIFY * (|notes| - 1) < |events| <= EVENTS_PER_NOTIFY * |notes|
  {
    var batch := events;
    notes := [];
    while |batch| > 0
      invariant Sent(notes, batch, events)
      decreases |batch|
    {
      var n := if |batch| < EVENTS_PER_NOTIFY then |batch| else EVENTS_PER_NOTIFY;
      AddChunk(notes, batch, n, events);
      notes := notes + [batch[..n]];
      batch := batch[n..];
    }
    AllSent(notes, batch, events);
    LengthOfChunks(notes);
  }

  /** What is out and what is left are the events, and only the last notification may be short. */
  ghost predicate Sent(notes: seq<seq<Ev>>, left: seq<Ev>, events: seq<Ev>) {
    && Flatten(notes) + left == events
    && WellChunked(notes)
    && (left != [] && notes != [] ==> |notes[|notes| - 1]| == EVENTS_PER_NOTIFY)
  }

  lemma AddChunk(notes: seq<seq<Ev>>, left: seq<Ev>, n: nat, events: seq<Ev>)
    requires Sent(notes, left, events) && left != []
    requires n == if |left| < EVENTS_PER_NOTIFY then |left| else EVENTS_PER_NOTIFY
    ensures Sent(notes + [left[..n]], left[n..], events)
  {
    var more := notes + [left[..n]];
    assert more[..|notes|] == notes;
    assert left == left[..n] + left[n..];
    assert Flatten(more) + left[n..] == Flatten(notes) + (left[..n] + left[n..]);
  }

  lemma AllSent(notes: seq<seq<Ev>>, left: seq<Ev>, events: seq<Ev>)
    requires Sent(notes, left, events) && left == [] && events != []
    ensures notes != [] && Flatten(notes) == events
  {
    assert Flatten(notes) + [] == Flatten(notes);
  }

  /** However the queue falls into batches, its events go out first in, first out, 1 to 90 at a time. */
  method SendEvents(gathered: seq<seq<Ev>>) returns (notes: seq<seq<Ev>>)
    requires forall i :: 0 <= i < |gathered| ==> gathered[i] != []
    ensures Flatten(notes) == Flatten(gathered)
    ensures forall c <- notes :: 1 <= |c| <= EVENTS_PER_NOTIFY
  {
    notes := [];
    for i := 0 to |gathered|
      invariant Flatten(notes) == Flatten(gathered[..i])
      invariant forall c <- notes :: 1 <= |c| <= EVENTS_PER_NOTIFY
    {
      var sent := SendBatch(gathered[i]);
      FlattenConcat(notes, sent);
      assert gathered[..i + 1][..i] == gathered[..i];
      notes := notes + sent;
    }
    assert gathered[..|gathered|] == gathered;
  }

  // ── Receiving ──────────────────────────────────────────────────────────────

  /** The remote set after one presence event; other events leave it alone. */
  function Noted(remote: set<Device>, e: Ev): set<Device> {
    if e.device.None? then remote
    else match e.kind
      case PresenceOn => remote + {e.device.value}
      case PresenceOff => remote - {e.device.value}
      case Other => remote
  }

  function NotedAll(remote: set<Device>, evs: seq<Ev>): set<Device> {
    if evs == [] then remote else Noted(NotedAll(remote, evs[..|evs| - 1]), evs[|evs| - 1])
  }

  lemma {:induction false} NotedConcat(remote: set<Device>, a: seq<Ev>, b: seq<Ev>)
    ensures NotedAll(remote, a + b) == NotedAll(NotedAll(remote, a), b)
  {
    if b == [] {
      assert a + b == a;
    } else {
      var n := |b| - 1;
      assert (a + b)[..|a| + n] == a + b[..n];
      NotedConcat(remote, a, b[..n]);
    }
  }

  /** A device is remote after some events exactly when its last presence event says so, or when it has
      none and was remote before. */
  lemma {:induction false} LastPresenceDecides(remote: set<Device>, evs: seq<Ev>, d: Device, k: int)
    requires -1 <= k < |evs|
    requires k >= 0 ==> evs[k].device == Some(d) && evs[k].kind != Other
    requires forall i :: k < i < |evs| ==> evs[i].device != Some(d) || evs[i].kind == Other
    ensures d in NotedAll(remote, evs) <==> if k < 0 then d in remote else evs[k].kind == PresenceOn
  {
    if k < |evs| - 1 {
      LastPresenceDecides(remote, evs[..|evs| - 1], d, k);
    }
  }

  /** A published map. Other goroutines hold the reference and read it without a lock. */
  class RemoteMap {
    var ids: set<Device>

    constructor (ids: set<Device>)
      ensures this.ids == ids
    {
      this.ids := ids;
    }
  }

  class Member {
    var remote: RemoteMap
    /** What has been handed to this copy's hub. */
    var delivered: seq<Ev>

    constructor ()
      ensures fresh(remote) && remote.ids == {} && delivered == []
    {
      remote := new RemoteMap({});
      delivered := [];
    }

    /** The second half of refresh: what its query found is published, or nothing when it failed. */
    method Refresh(found: Option<set<Device>>)
      modifies `remote
      ensures remote.ids == if found.Some? then found.value else old(remote.ids)
      ensures remote == old(remote) || fresh(remote)
    {
      if found.Some? {
        remote := new RemoteMap(found.value);
      }
    }

    /** The frame is the point: the published map is not in it, so every map ever published keeps the
        ids it was published with. */
    method NoteRemote(d: Device, online: bool)
      modifies `remote
      ensures remote.ids == if online then old(remote.ids) + {d} else old(remote.ids) - {d}
      ensures remote == old(remote) || fresh(remote)
      ensures unchanged(old(remote))
    {
      var cur := remote;
      if (d in cur.ids) == online {
        return;
      }
      var next := new RemoteMap({});
      var left := cur.ids;
      while left != {}
        invariant left <= cur.ids && fresh(next) && next.ids == cur.ids - left
        invariant remote == cur && cur.ids == old(remote.ids)
        decreases |left|
      {
        var k :| k in left;
        next.ids := next.ids + {k};
        left := left - {k};
      }
      if online {
        next.ids := next.ids + {d};
      } else {
        next.ids := next.ids - {d};
      }
      remote := next;
    }

    method Deliver(e: Ev)
      modifies this
      ensures remote.ids == Noted(old(remote.ids), e) && delivered == old(delivered) + [e]
      ensures remote == old(remote) || fresh(remote)
      ensures unchanged(old(remote))
    {
      if e.device.Some? && (e.kind == PresenceOn || e.kind == PresenceOff) {
        NoteRemote(e.device.value, e.kind == PresenceOn);
      }
      delivered := delivered + [e];
    }

    /** One received notification. */
    method HandleEvs(evs: seq<Ev>)
      modifies this
      ensures remote.ids == NotedAll(old(remote.ids), evs) && delivered == old(delivered) + evs
      ensures remote == old(remote) || fresh(remote)
      ensures unchanged(old(remote))
    {
      for i := 0 to |evs|
        invariant remote.ids == NotedAll(old(remote.ids), evs[..i]) && delivered == old(delivered) + evs[..i]
        invariant remote == old(remote) || fresh(remote)
        invariant unchanged(old(remote))
      {
        assert evs[..i + 1][..i] == evs[..i];
        Deliver(evs[i]);
      }
      assert evs[..|evs|] == evs;
    }

    /** Handling the chunks one after the other is applying every event singly, in order. */
    method HandleAll(notes: seq<seq<Ev>>)
      modifies this
      ensures remote.ids == NotedAll(old(remote.ids), Flatten(notes))
      ensures delivered == old(delivered) + Flatten(notes)
      ensures unchanged(old(remote))
    {
      for i := 0 to |notes|
        invariant remote.ids == NotedAll(old(remote.ids), Flatten(notes[..i]))
        invariant delivered == old(delivered) + Flatten(notes[..i])
        invariant remote == old(remote) || fresh(remote)
        invariant unchanged(old(remote))
      {
        assert notes[..i + 1][..i] == notes[..i];
        NotedConcat(old(remote.ids), Flatten(notes[..i]), notes[i]);
        HandleEvs(notes[i]);
      }
      assert notes[..|notes|] == notes;
    }
  }

  /** From one copy's queue to another copy's set: any batching and chunking gives the set that applying
      the queued events one at a time gives, and the hub sees them once each, in order. */
  method SendAndReceive(gathered: seq<seq<Ev>>, to: Member)
    requires forall i :: 0 <= i < |gathered| ==> gathered[i] != []
    modifies to
    ensures to.remote.ids == NotedAll(old(to.remote.ids), Flatten(gathered))
    ensures to.delivered == old(to.delivered) + Flatten(gathered)
  {
    var notes := SendEvents(gathered);
    to.HandleAll(notes);
  }

  // ── A refresh and the events that pass it ──────────────────────────────────

  /** evs[k] is the device's last presence event. */
  predicate LastPresence(evs: seq<Ev>, d: Device, k: int) {
    && 0 <= k < |evs| && evs[k].device == Some(d) && evs[k].kind != Other
    && forall i :: k < i < |evs| ==> evs[i].device != Some(d) || evs[i].kind == Other
  }

  /** The table says of every device what its last presence event says. */
  ghost predicate TableKnows(found: set<Device>, evs: seq<Ev>) {
    forall d, k :: LastPresence(evs, d, k) ==> (d in found <==> evs[k].kind == PresenceOn)
  }

  lemma {:induction false} LastPresenceAt(evs: seq<Ev>, d: Device) returns (k: int)
    ensures -1 <= k < |evs| && (k >= 0 ==> LastPresence(evs, d, k))
    ensures forall i :: k < i < |evs| ==> evs[i].device != Some(d) || evs[i].kind == Other
  {
    k := |evs| - 1;
    while k >= 0 && (evs[k].device != Some(d) || evs[k].kind == Other)
      invariant -1 <= k < |evs|
      invariant forall i :: k < i < |evs| ==> evs[i].device != Some(d) || evs[i].kind == Other
    {
      k := k - 1;
    }
  }

  /** Events applied to what the table said change nothing exactly when the table already knew them. */
  lemma KnownIff(found: set<Device>, evs: seq<Ev>)
    ensures NotedAll(found, evs) == found <==> TableKnows(found, evs)
  {
    forall d, k | LastPresence(evs, d, k) ensures d in NotedAll(found, evs) <==> evs[k].kind == PresenceOn {
      LastPresenceDecides(found, evs, d, k);
    }
    if TableKnows(found, evs) {
      forall d ensures d in NotedAll(found, evs) <==> d in found {
        var k := LastPresenceAt(evs, d);
        if |evs| > 0 { LastPresenceDecides(found, evs, d, k); }
      }
    }
  }

  /** A refresh whose query was answered before some notifications arrived, and which publishes after them.
      What they noted is gone; the published set is what they make of the table's answer, so that nothing is
      lost until the next refresh, exactly when the answer already knew them. */
  method RefreshAround(to: Member, found: Option<set<Device>>, notes: seq<seq<Ev>>)
    modifies to
    ensures to.delivered == old(to.delivered) + Flatten(notes)
    ensures to.remote.ids == if found.Some? then found.value else NotedAll(old(to.remote.ids), Flatten(notes))
    ensures found.Some? ==>
              (to.remote.ids == NotedAll(found.value, Flatten(notes)) <==> TableKnows(found.value, Flatten(notes)))
  {
    to.HandleAll(notes);
    to.Refresh(found);
    if found.Some? { KnownIff(found.value, Flatten(notes)); }
  }

  /** It happens: a device comes online on another copy between the query and its publication. */
  method PresenceLost(d: Device) returns (to: Member)
    ensures to.delivered == [Ev(PresenceOn, Some(d))] && d !in to.remote.ids
  {
    to := new Member();
    var notes := [[Ev(PresenceOn, Some(d))]];
    assert notes[..0] == [] && Flatten(notes) == [Ev(PresenceOn, Some(d))];
    RefreshAround(to, Some({}), notes);
  }
}

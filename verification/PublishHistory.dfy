/**
 Agent APK slots of internal/config/config.go: what a publish stores, how it is read back through
 the two layouts ("dpc" in fields of its own, the rest in a map), and the capped history.
 */
module PublishHistory {
  import opened Wrappers

  datatype Build = Build(
    sha: string, sha256Hex: string, name: string, size: int, at: int,
    pkg: string, version: string, versionCode: int, changelog: string)

  const HISTORY_CAP := 12

  const NOTHING := Build("", "", "", 0, 0, "", "", 0, "")

  /** "" and "dpc" are the same slot. */
  function Key(slot: string): string {
    if slot == "" then "dpc" else slot
  }

  // ── The trail of one slot ──────────────────────────────────────────────────

  function Without(h: seq<Build>, sha: string): seq<Build> {
    if h == [] then []
    else if h[0].sha == sha then Without(h[1..], sha)
    else [h[0]] + Without(h[1..], sha)
  }

  function Take(h: seq<Build>, n: nat): seq<Build> {
    if |h| > n then h[..n] else h
  }

  /** The whole trail of a log of publishes (oldest first): newest first, one entry per SHA. */
  function Trail(log: seq<Build>): seq<Build> {
    if log == [] then []
    else var b := log[|log| - 1]; [b] + Without(Trail(log[..|log| - 1]), b.sha)
  }

  predicate Distinct(h: seq<Build>) {
    forall i, j :: 0 <= i < j < |h| ==> h[i].sha != h[j].sha
  }

  lemma {:induction false} WithoutKeeps(h: seq<Build>, sha: string)
    ensures forall b :: b in Without(h, sha) <==> b in h && b.sha != sha
  {
    if h != [] {
      WithoutKeeps(h[1..], sha);
      assert forall b :: b in h <==> b == h[0] || b in h[1..];
    }
  }

  lemma {:induction false} WithoutAbsent(h: seq<Build>, sha: string)
    requires forall b :: b in h ==> b.sha != sha
    ensures Without(h, sha) == h
  {
    if h != [] { WithoutAbsent(h[1..], sha); }
  }

  lemma {:induction false} WithoutConcat(g: seq<Build>, h: seq<Build>, sha: string)
    ensures Without(g + h, sha) == Without(g, sha) + Without(h, sha)
  {
    if g == [] {
      assert g + h == h;
    } else {
      assert (g + h)[1..] == g[1..] + h;
      WithoutConcat(g[1..], h, sha);
    }
  }

  /** Cutting before dropping a SHA leaves at least the first n - 1 of what dropping first would. */
  lemma {:induction false} CutThenDrop(h: seq<Build>, n: nat, sha: string)
    requires Distinct(h) && n > 0
    ensures Take(Without(Take(h, n), sha), n - 1) == Take(Without(h, sha), n - 1)
  {
    if |h| > n {
      var head, tail := h[..n], h[n..];
      assert h == head + tail;
      WithoutConcat(head, tail, sha);
      DropsAtMostOne(head, sha);
    }
  }

  lemma {:induction false} DropsAtMostOne(h: seq<Build>, sha: string)
    requires Distinct(h)
    ensures |Without(h, sha)| >= |h| - 1
  {
    if h != [] {
      if h[0].sha == sha {
        assert forall b :: b in h[1..] ==> b.sha != sha;
        WithoutAbsent(h[1..], sha);
      } else {
        DropsAtMostOne(h[1..], sha);
      }
    }
  }

  /** One publish onto the capped history is one publish onto the whole trail, then capped. */
  lemma PublishCapped(full: seq<Build>, b: Build)
    requires Distinct(full)
    ensures Take([b] + Without(Take(full, HISTORY_CAP), b.sha), HISTORY_CAP)
         == Take([b] + Without(full, b.sha), HISTORY_CAP)
  {
    CutThenDrop(full, HISTORY_CAP, b.sha);
    TakeCons(b, Without(Take(full, HISTORY_CAP), b.sha));
    TakeCons(b, Without(full, b.sha));
  }

  lemma TakeCons(b: Build, h: seq<Build>)
    ensures Take([b] + h, HISTORY_CAP) == [b] + Take(h, HISTORY_CAP - 1)
  {
  }

  /** Where a SHA was last published. */
  function LastAt(log: seq<Build>, sha: string): (k: int)
    ensures -1 <= k < |log|
    ensures k >= 0 ==> log[k].sha == sha
    ensures forall i :: k < i < |log| ==> log[i].sha != sha
  {
    if log == [] then -1
    else if log[|log| - 1].sha == sha then |log| - 1
    else LastAt(log[..|log| - 1], sha)
  }

  /** Entries stand in the order of their last publish, latest first. */
  predicate LatestFirst(log: seq<Build>, h: seq<Build>) {
    forall i, j :: 0 <= i < j < |h| ==> LastAt(log, h[i].sha) > LastAt(log, h[j].sha)
  }

  /** What the trail is, without its recursion: each SHA's latest publish, latest first. */
  lemma TrailMeaning(log: seq<Build>)
    ensures forall b :: b in Trail(log) <==> b in log && b == log[LastAt(log, b.sha)]
    ensures LatestFirst(log, Trail(log))
    ensures Distinct(Trail(log))
  {
    TrailEntries(log);
    TrailOrder(log);
  }

  lemma {:induction false} TrailEntries(log: seq<Build>)
    ensures forall b :: b in Trail(log) <==> b in log && b == log[LastAt(log, b.sha)]
  {
    if log != [] {
      var n := |log| - 1;
      var last, init := log[n], log[..n];
      TrailEntries(init);
      WithoutKeeps(Trail(init), last.sha);
      forall b ensures b in Trail(log) <==> b in log && b == log[LastAt(log, b.sha)] {
        assert b in log <==> b == last || b in init;
        if b.sha != last.sha && b in log {
          assert LastAt(log, b.sha) == LastAt(init, b.sha) >= 0;
        }
      }
    }
  }

  lemma {:induction false} TrailOrder(log: seq<Build>)
    ensures LatestFirst(log, Trail(log))
  {
    if log != [] {
      var n := |log| - 1;
      var last, init := log[n], log[..n];
      var w := Without(Trail(init), last.sha);
      TrailOrder(init);
      WithoutOrder(init, Trail(init), last.sha);
      WithoutKeeps(Trail(init), last.sha);
      forall i | 0 <= i < |w| ensures LastAt(log, w[i].sha) == LastAt(init, w[i].sha) < n {
        assert w[i] in w;
      }
      assert LastAt(log, last.sha) == n;
    }
  }

  lemma {:induction false} WithoutOrder(log: seq<Build>, h: seq<Build>, sha: string)
    requires LatestFirst(log, h)
    ensures LatestFirst(log, Without(h, sha))
  {
    if h != [] {
      WithoutOrder(log, h[1..], sha);
      if h[0].sha != sha {
        var w := Without(h[1..], sha);
        WithoutKeeps(h[1..], sha);
        forall j | 0 <= j < |w| ensures LastAt(log, h[0].sha) > LastAt(log, w[j].sha) {
          assert w[j] in h[1..];
        }
      }
    }
  }

  // ── The stored configuration ───────────────────────────────────────────────

  /** The three places a publish is written to. The hosted build has no changelog of its own. */
  datatype State = State(hosted: Build, slots: map<string, Build>, history: map<string, seq<Build>>)

  const EMPTY := State(NOTHING, map[], map[])

  function History(st: State, slot: string): seq<Build> {
    if Key(slot) in st.history then st.history[Key(slot)] else []
  }

  function Read(st: State, slot: string): Option<Build> {
    if Key(slot) == "dpc" then
      if st.hosted.sha == "" then None
      else
        var h := History(st, "dpc");
        Some(st.hosted.(changelog := if |h| > 0 && h[0].sha == st.hosted.sha then h[0].changelog else ""))
    else if slot in st.slots && st.slots[slot].sha != "" then Some(st.slots[slot])
    else None
  }

  function Set(st: State, slot: string, b: Build): State {
    var hosted := if Key(slot) == "dpc" then b.(changelog := "") else st.hosted;
    var slots := if Key(slot) == "dpc" then st.slots
                 else if b.sha == "" then st.slots - {slot}
                 else st.slots[slot := b];
    var history := if b.sha == "" then st.history
                   else st.history[Key(slot) := Take([b] + Without(History(st, slot), b.sha), HISTORY_CAP)];
    State(hosted, slots, history)
  }

  /** The rebuilt history of a slot: the new build, then every entry with another SHA, cut. */
  method PushHistory(was: seq<Build>, b: Build) returns (hist: seq<Build>)
    ensures hist == Take([b] + Without(was, b.sha), HISTORY_CAP)
  {
    hist := [b];
    for i := 0 to |was|
      invariant hist == [b] + Without(was[..i], b.sha)
    {
      assert was[..i + 1] == was[..i] + [was[i]];
      WithoutConcat(was[..i], [was[i]], b.sha);
      if was[i].sha != b.sha {
        hist := hist + [was[i]];
      }
    }
    assert was[..|was|] == was;
    if |hist| > HISTORY_CAP {
      hist := hist[..HISTORY_CAP];
    }
  }

  class Config {
    var hostedSHA: string
    var hostedSHA256Hex: string
    var hostedName: string
    var hostedSize: int
    var hostedAt: int
    var hostedPackage: string
    var hostedVersion: string
    var hostedVersionCode: int
    var slotMap: map<string, Build>
    var historyMap: map<string, seq<Build>>

    ghost function Model(): State
      reads this
    {
      State(Build(hostedSHA, hostedSHA256Hex, hostedName, hostedSize, hostedAt,
                  hostedPackage, hostedVersion, hostedVersionCode, ""),
            slotMap, historyMap)
    }

    constructor ()
      ensures Model() == EMPTY
    {
      hostedSHA, hostedSHA256Hex, hostedName, hostedSize, hostedAt := "", "", "", 0, 0;
      hostedPackage, hostedVersion, hostedVersionCode := "", "", 0;
      slotMap, historyMap := map[], map[];
    }

    method AgentAPKSlot(slot: string) returns (r: Option<Build>)
      ensures r == Read(Model(), slot)
    {
      if slot == "" || slot == "dpc" {
        if hostedSHA == "" {
          return None;
        }
        var b := Build(hostedSHA, hostedSHA256Hex, hostedName, hostedSize, hostedAt,
                       hostedPackage, hostedVersion, hostedVersionCode, "");
        if "dpc" in historyMap && |historyMap["dpc"]| > 0 && historyMap["dpc"][0].sha == b.sha {
          b := b.(changelog := historyMap["dpc"][0].changelog);
        }
        return Some(b);
      }
      if slot in slotMap && slotMap[slot].sha != "" {
        return Some(slotMap[slot]);
      }
      return None;
    }

    method SetAgentAPKSlot(slot: string, b: Build)
      modifies this
      ensures Model() == Set(old(Model()), slot, b)
    {
      if slot == "" || slot == "dpc" {
        hostedSHA, hostedSHA256Hex := b.sha, b.sha256Hex;
        hostedName, hostedSize := b.name, b.size;
        hostedPackage, hostedVersion := b.pkg, b.version;
        hostedVersionCode := b.versionCode;
        hostedAt := b.at;
      } else if b.sha == "" {
        slotMap := slotMap - {slot};
      } else {
        slotMap := slotMap[slot := b];
      }
      if b.sha != "" {
        var key := if slot == "" then "dpc" else slot;
        var was := if key in historyMap then historyMap[key] else [];
        var hist := PushHistory(was, b);
        historyMap := historyMap[key := hist];
      }
    }

    method AgentAPKHistory(slot: string) returns (h: seq<Build>)
      ensures h == History(Model(), slot)
    {
      var key := if slot == "" then "dpc" else slot;
      h := if key in historyMap then historyMap[key] else [];
    }
  }

  // ── Every run of publishes and clears ──────────────────────────────────────

  datatype Op = Op(slot: string, build: Build)

  function Run(ops: seq<Op>): State {
    if ops == [] then EMPTY
    else var op := ops[|ops| - 1]; Set(Run(ops[..|ops| - 1]), op.slot, op.build)
  }

  /** The non-empty publishes to one slot, oldest first. */
  function Log(ops: seq<Op>, slot: string): seq<Build> {
    if ops == [] then []
    else
      var op := ops[|ops| - 1];
      Log(ops[..|ops| - 1], slot) + if Key(op.slot) == Key(slot) && op.build.sha != "" then [op.build] else []
  }

  /** The build a slot was last given; a build without SHA, or none at all, hosts nothing. */
  function LastGiven(ops: seq<Op>, slot: string): Option<Build> {
    if ops == [] then None
    else
      var op := ops[|ops| - 1];
      if Key(op.slot) != Key(slot) then LastGiven(ops[..|ops| - 1], slot)
      else if op.build.sha == "" then None
      else Some(op.build)
  }

  /** Truncating at every publish gives the first 12 entries of the trail that never truncates. */
  lemma {:induction false} CappedHistoryIsHeadOfTrail(ops: seq<Op>, slot: string)
    ensures History(Run(ops), slot) == Take(Trail(Log(ops, slot)), HISTORY_CAP)
  {
    if ops != [] {
      var n := |ops| - 1;
      var op, init := ops[n], ops[..n];
      CappedHistoryIsHeadOfTrail(init, slot);
      if Key(op.slot) == Key(slot) && op.build.sha != "" {
        var b, log := op.build, Log(init, slot);
        assert Log(ops, slot) == log + [b];
        assert (log + [b])[..|log|] == log;
        var full := Trail(log);
        TrailMeaning(log);
        PublishCapped(full, b);
      } else {
        assert Log(ops, slot) == Log(init, slot);
      }
    }
  }

  /** In every reachable configuration a history has no SHA twice and at most 12 entries. */
  lemma HistoryBounded(ops: seq<Op>, slot: string)
    ensures Distinct(History(Run(ops), slot)) && |History(Run(ops), slot)| <= 12
  {
    CappedHistoryIsHeadOfTrail(ops, slot);
    TrailMeaning(Log(ops, slot));
  }

  /** "" and "dpc" are one slot, and a publish to a slot leaves every other as it was. */
  lemma SlotsApart(st: State, slot: string, b: Build, other: string)
    ensures Read(st, "") == Read(st, "dpc") && History(st, "") == History(st, "dpc")
    ensures Set(st, "", b) == Set(st, "dpc", b)
    ensures other != slot && !(other in {"", "dpc"} && slot in {"", "dpc"}) ==>
              Read(Set(st, slot, b), other) == Read(st, other) && History(Set(st, slot, b), other) == History(st, other)
  {
  }

  /** After any run, reading a slot gives back field for field what that slot was last given, through
      either layout, whatever was published to the others in between. */
  lemma {:induction false} ReadsBackLast(ops: seq<Op>, slot: string)
    ensures Read(Run(ops), slot) == LastGiven(ops, slot)
  {
    if ops != [] {
      var n := |ops| - 1;
      var op, init := ops[n], ops[..n];
      ReadsBackLast(init, slot);
      var st := Run(init);
      if Key(op.slot) != Key(slot) {
        assert History(Set(st, op.slot, op.build), slot) == History(st, slot);
      } else if op.build.sha != "" {
        assert History(Set(st, op.slot, op.build), slot)[0] == op.build;
      }
    }
  }
}

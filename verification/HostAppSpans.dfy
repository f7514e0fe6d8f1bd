/**
 Replay of a device's screen transitions into spans, of internal/api/testdata_hostapp.go. Instants
 are nanoseconds, so a span [from, to) holds to - from of them.
 */
module HostAppSpans {
  import opened Wrappers

  datatype Event = Event(at: int, key: string, to: string)

  /** The last value reported for each of the two keys; "" when none is kept. */
  datatype Readings = Readings(fg: string, scr: string)

  datatype Shown = Shown(state: string, why: string)

  datatype Span = Span(from: int, to: int, shown: Shown, seconds: int)

  datatype Totals = Totals(onScreen: int, offScreen: int, unknown: int, onScreenPct: Option<int>)

  datatype Now = Now(shown: Shown, since: Option<int>)

  const SECOND := 1_000_000_000

  const DEVICE_OFFLINE := Shown("unknown", "device_offline")

  function ScreenState(r: Readings): Shown {
    if r.fg == "" then Shown("unknown", "no_report")
    else if r.scr == "false" then Shown("off_screen", "screen_off")
    else if r.fg != "true" then Shown("off_screen", "app_not_in_foreground")
    else Shown("on_screen", "app_in_foreground")
  }

  function Apply(r: Readings, e: Event): Readings {
    if e.key == "host_app_fg" then r.(fg := e.to)
    else if e.key == "screen_on" then r.(scr := e.to)
    else r
  }

  // ── What the state is at an instant ────────────────────────────────────────

  datatype Window = Window(from: int, to: int, offlineFrom: Option<int>)
  {
    predicate Holds(e: Event) {
      from <= e.at < to
    }

    /** From here on the device is offline (the end of the window when it is not). */
    function Cut(): int {
      if offlineFrom.Some? && offlineFrom.value < to then
        if offlineFrom.value < from then from else offlineFrom.value
      else to
    }
  }

  /** The readings after the events of the window up to and including instant t, in list order. */
  function ReadingsAt(w: Window, initial: Readings, evs: seq<Event>, t: int): Readings {
    if evs == [] then initial
    else
      var e := evs[|evs| - 1];
      var before := ReadingsAt(w, initial, evs[..|evs| - 1], t);
      if w.Holds(e) && e.at <= t then Apply(before, e) else before
  }

  /** The replay the spans must agree with. */
  function StateAt(w: Window, initial: Readings, evs: seq<Event>, t: int): Shown {
    if t >= w.Cut() then DEVICE_OFFLINE else ScreenState(ReadingsAt(w, initial, evs, t))
  }

  predicate TimeOrdered(evs: seq<Event>) {
    forall i, j :: 0 <= i < j < |evs| ==> evs[i].at <= evs[j].at
  }

  /** Where a key was last set at or before t; -1 when it still has its initial value. */
  ghost predicate LastSet(w: Window, evs: seq<Event>, key: string, t: int, k: int) {
    && -1 <= k < |evs|
    && (k >= 0 ==> evs[k].key == key && w.Holds(evs[k]) && evs[k].at <= t)
    && forall i :: k < i < |evs| && evs[i].key == key && w.Holds(evs[i]) ==> evs[i].at > t
  }

  /** The replay in words: each reading is the one most recently set at or before the instant. */
  lemma {:induction false} ReadingsMeaning(w: Window, initial: Readings, evs: seq<Event>, t: int, f: int, s: int)
    requires LastSet(w, evs, "host_app_fg", t, f) && LastSet(w, evs, "screen_on", t, s)
    ensures ReadingsAt(w, initial, evs, t).fg == if f < 0 then initial.fg else evs[f].to
    ensures ReadingsAt(w, initial, evs, t).scr == if s < 0 then initial.scr else evs[s].to
  {
    if evs != [] {
      var n := |evs| - 1;
      var e, init := evs[n], evs[..n];
      var f', s' := f, s;
      if f == n { f' := LastIndex(w, init, "host_app_fg", t); }
      if s == n { s' := LastIndex(w, init, "screen_on", t); }
      ReadingsMeaning(w, initial, init, t, f', s');
    }
  }

  lemma {:induction false} LastIndex(w: Window, evs: seq<Event>, key: string, t: int) returns (k: int)
    ensures LastSet(w, evs, key, t, k)
  {
    k := |evs| - 1;
    while k >= 0 && !(evs[k].key == key && w.Holds(evs[k]) && evs[k].at <= t)
      invariant -1 <= k < |evs|
      invariant forall i :: k < i < |evs| && evs[i].key == key && w.Holds(evs[i]) ==> evs[i].at > t
    {
      k := k - 1;
    }
  }

  /** Events after t do not count. */
  lemma {:induction false} LaterEventsIgnored(w: Window, initial: Readings, evs: seq<Event>, i: nat, t: int)
    requires i <= |evs|
    requires forall j :: i <= j < |evs| && w.Holds(evs[j]) ==> evs[j].at > t
    ensures ReadingsAt(w, initial, evs, t) == ReadingsAt(w, initial, evs[..i], t)
  {
    if i == |evs| {
      assert evs[..i] == evs;
    } else {
      var init := evs[..|evs| - 1];
      LaterEventsIgnored(w, initial, init, i, t);
      assert init[..i] == evs[..i];
    }
  }

  lemma {:induction false} AllCounted(w: Window, initial: Readings, evs: seq<Event>, t: int, u: int)
    requires forall j :: 0 <= j < |evs| && w.Holds(evs[j]) ==> evs[j].at <= t && evs[j].at <= u
    ensures ReadingsAt(w, initial, evs, t) == ReadingsAt(w, initial, evs, u)
  {
    if evs != [] { AllCounted(w, initial, evs[..|evs| - 1], t, u); }
  }

  // ── What the spans must be ─────────────────────────────────────────────────

  /** Non-empty spans, end to end, from exactly one instant to exactly the other. */
  predicate Tiles(spans: seq<Span>, from: int, to: int) {
    if spans == [] then from == to
    else
      && spans[0].from == from && spans[|spans| - 1].to == to
      && (forall i :: 0 <= i < |spans| ==> spans[i].from < spans[i].to)
      && (forall i :: 0 < i < |spans| ==> spans[i - 1].to == spans[i].from)
  }

  predicate NeighboursDiffer(spans: seq<Span>) {
    forall i :: 0 < i < |spans| ==> spans[i - 1].shown != spans[i].shown
  }

  /** Every instant of every span is in the state the span shows. */
  ghost predicate Agrees(spans: seq<Span>, state: int -> Shown) {
    forall i, t :: 0 <= i < |spans| && spans[i].from <= t < spans[i].to ==> spans[i].shown == state(t)
  }

  function Push(spans: seq<Span>, a: int, b: int, shown: Shown): seq<Span> {
    var n := |spans|;
    if b <= a then spans
    else if n > 0 && spans[n - 1].shown == shown && spans[n - 1].to == a then spans[n - 1 := spans[n - 1].(to := b)]
    else spans + [Span(a, b, shown, 0)]
  }

  predicate SameBounds(a: seq<Span>, b: seq<Span>) {
    |a| == |b| && forall i :: 0 <= i < |a| ==> a[i] == b[i].(seconds := a[i].seconds)
  }

  lemma PushTiles(spans: seq<Span>, from: int, a: int, b: int, shown: Shown)
    requires Tiles(spans, from, a) && NeighboursDiffer(spans) && a <= b
    ensures Tiles(Push(spans, a, b, shown), from, b) && NeighboursDiffer(Push(spans, a, b, shown))
  {
  }

  lemma PushAgrees(spans: seq<Span>, from: int, a: int, b: int, shown: Shown, state: int -> Shown)
    requires Tiles(spans, from, a) && Agrees(spans, state) && a <= b
    requires forall t :: a <= t < b ==> state(t) == shown
    ensures Agrees(Push(spans, a, b, shown), state)
  {
  }

  predicate SecondsRight(spans: seq<Span>) {
    forall i :: 0 <= i < |spans| ==> spans[i].seconds == WholeSeconds(spans[i])
  }

  function WholeSeconds(s: Span): int {
    (s.to - s.from) / SECOND
  }

  predicate KnownStates(spans: seq<Span>) {
    forall s :: s in spans ==> s.shown.state in {"on_screen", "off_screen", "unknown"}
  }

  /** Seconds of the spans in one state. */
  function SecondsIn(spans: seq<Span>, state: string): int {
    if spans == [] then 0
    else
      var s := spans[|spans| - 1];
      SecondsIn(spans[..|spans| - 1], state) + if s.shown.state == state then s.seconds else 0
  }

  function AllSeconds(spans: seq<Span>): int {
    if spans == [] then 0 else AllSeconds(spans[..|spans| - 1]) + spans[|spans| - 1].seconds
  }

  lemma {:induction false} StatesShareTheSeconds(spans: seq<Span>)
    requires KnownStates(spans)
    ensures SecondsIn(spans, "on_screen") + SecondsIn(spans, "off_screen") + SecondsIn(spans, "unknown")
         == AllSeconds(spans)
  {
    if spans != [] { StatesShareTheSeconds(spans[..|spans| - 1]); }
  }

  /** Rounding each of n spans down loses less than n seconds in all. */
  lemma {:induction false} RoundingLoss(spans: seq<Span>, from: int, to: int)
    requires Tiles(spans, from, to) && SecondsRight(spans)
    ensures SECOND * AllSeconds(spans) <= to - from
    ensures to - from <= SECOND * AllSeconds(spans) + |spans| * (SECOND - 1)
  {
    if spans != [] {
      var n := |spans| - 1;
      var init := spans[..n];
      var upto := spans[n].from;
      assert n > 0 ==> init[n - 1].to == upto;
      RoundingLoss(init, from, upto);
    }
  }

  method HostAppSpans(initial: Readings, evs: seq<Event>, from: int, to: int, offlineFrom: Option<int>)
    returns (spans: seq<Span>, tot: Totals)
    ensures from >= to ==> spans == []
    ensures from < to ==> Tiles(spans, from, to)
    ensures NeighboursDiffer(spans) && SecondsRight(spans)
    ensures TimeOrdered(evs) ==> Agrees(spans, Replayed(Window(from, to, offlineFrom), initial, evs))
    ensures tot.onScreen == SecondsIn(spans, "on_screen") && tot.offScreen == SecondsIn(spans, "off_screen")
    ensures tot.unknown == SecondsIn(spans, "unknown")
    ensures from < to ==> (to - from) / SECOND - (|spans| - 1)
                          <= tot.onScreen + tot.offScreen + tot.unknown <= (to - from) / SECOND
    ensures tot.onScreenPct.Some? <==> tot.onScreen + tot.offScreen > 0
    ensures tot.onScreenPct.Some? ==> tot.onScreenPct.value == tot.onScreen * 100 / (tot.onScreen + tot.offScreen)
    ensures tot.onScreenPct.Some? ==> 0 <= tot.onScreenPct.value <= 100
  {
    var tiled := Replay(initial, evs, from, to, offlineFrom);
    spans, tot := Total(tiled);
    if from < to {
      TimedTiles(tiled, spans, from, to);
      if TimeOrdered(evs) {
        TimedAgrees(tiled, spans, Replayed(Window(from, to, offlineFrom), initial, evs));
      }
      StatesShareTheSeconds(spans);
      RoundingLoss(spans, from, to);
    }
  }

  /** Writing the seconds into the spans changes nothing else about them. */
  lemma TimedTiles(tiled: seq<Span>, spans: seq<Span>, from: int, to: int)
    requires SameBounds(spans, tiled) && Tiles(tiled, from, to) && NeighboursDiffer(tiled) && KnownStates(tiled)
    ensures Tiles(spans, from, to) && NeighboursDiffer(spans) && KnownStates(spans)
  {
    forall i | 0 <= i < |spans| ensures spans[i].shown.state in {"on_screen", "off_screen", "unknown"} {
      assert tiled[i] in tiled;
    }
  }

  lemma TimedAgrees(tiled: seq<Span>, spans: seq<Span>, state: int -> Shown)
    requires SameBounds(spans, tiled) && Agrees(tiled, state)
    ensures Agrees(spans, state)
  {}

  /** The closing loop: seconds per span and per state. */
  method Total(tiled: seq<Span>) returns (spans: seq<Span>, tot: Totals)
    requires forall s :: s in tiled ==> s.from <= s.to
    ensures SameBounds(spans, tiled) && SecondsRight(spans)
    ensures tot.onScreen == SecondsIn(spans, "on_screen") && tot.offScreen == SecondsIn(spans, "off_screen")
    ensures KnownStates(tiled) ==> tot.unknown == SecondsIn(spans, "unknown")
    ensures tot.onScreenPct.Some? <==> tot.onScreen + tot.offScreen > 0
    ensures tot.onScreenPct.Some? ==> tot.onScreenPct.value == tot.onScreen * 100 / (tot.onScreen + tot.offScreen)
    ensures tot.onScreenPct.Some? ==> 0 <= tot.onScreenPct.value <= 100
  {
    var on, off, unknown;
    spans, on, off, unknown := CountSeconds(tiled);
    var pct := None;
    if on + off > 0 {
      pct := Some(on * 100 / (on + off));
      Percent(on, off);
    }
    tot := Totals(on, off, unknown, pct);
  }

  method CountSeconds(tiled: seq<Span>) returns (spans: seq<Span>, on: int, off: int, unknown: int)
    requires forall s :: s in tiled ==> s.from <= s.to
    ensures SameBounds(spans, tiled) && SecondsRight(spans)
    ensures on == SecondsIn(spans, "on_screen") && off == SecondsIn(spans, "off_screen") && on >= 0 && off >= 0
    ensures KnownStates(tiled) ==> unknown == SecondsIn(spans, "unknown")
  {
    spans := tiled;
    on, off, unknown := 0, 0, 0;
    for i := 0 to |spans|
      invariant SameBounds(spans, tiled) && SecondsRight(spans[..i])
      invariant on == SecondsIn(spans[..i], "on_screen") && on >= 0
      invariant off == SecondsIn(spans[..i], "off_screen") && off >= 0
      invariant KnownStates(tiled) ==> unknown == SecondsIn(spans[..i], "unknown")
    {
      assert tiled[i] in tiled;
      OneMoreTimed(spans, tiled, i);
      var s := WholeSeconds(spans[i]);
      OneMoreSpan(spans[..i], spans[i].(seconds := s));
      spans := spans[i := spans[i].(seconds := s)];
      match spans[i].shown.state {
        case "on_screen" => on := on + s;
        case "off_screen" => off := off + s;
        case _ => unknown := unknown + s;
      }
    }
    assert spans[..|spans|] == spans;
  }

  lemma OneMoreTimed(spans: seq<Span>, tiled: seq<Span>, i: nat)
    requires SameBounds(spans, tiled) && i < |spans| && SecondsRight(spans[..i])
    ensures var s := spans[i].(seconds := WholeSeconds(spans[i]));
            var more := spans[i := s];
            SameBounds(more, tiled) && more[..i + 1] == spans[..i] + [s] && SecondsRight(more[..i + 1])
  {}

  lemma OneMoreSpan(head: seq<Span>, s: Span)
    ensures forall state :: SecondsIn(head + [s], state) ==
                              SecondsIn(head, state) + if s.shown.state == state then s.seconds else 0
  {
    assert (head + [s])[..|head|] == head;
  }

  lemma Percent(on: nat, off: nat)
    requires on + off > 0
    ensures 0 <= on * 100 / (on + off) <= 100
  {
    assert on * 100 <= 100 * (on + off);
  }

  ghost function Replayed(w: Window, initial: Readings, evs: seq<Event>): int -> Shown {
    t => StateAt(w, initial, evs, t)
  }

  /** What holds of the spans when the replay has come to instant at. */
  ghost predicate Sofar(w: Window, initial: Readings, evs: seq<Event>, spans: seq<Span>, at: int) {
    && Tiles(spans, w.from, at) && NeighboursDiffer(spans) && KnownStates(spans)
    && (TimeOrdered(evs) ==> Agrees(spans, Replayed(w, initial, evs)))
  }

  lemma PushSofar(w: Window, initial: Readings, evs: seq<Event>, spans: seq<Span>, a: int, b: int, shown: Shown)
    requires Sofar(w, initial, evs, spans, a) && a <= b
    requires shown.state in {"on_screen", "off_screen", "unknown"}
    requires TimeOrdered(evs) ==> forall t :: a <= t < b ==> StateAt(w, initial, evs, t) == shown
    ensures Sofar(w, initial, evs, Push(spans, a, b, shown), b)
  {
    PushTiles(spans, w.from, a, b, shown);
    if TimeOrdered(evs) { PushAgrees(spans, w.from, a, b, shown, Replayed(w, initial, evs)); }
    forall s | s in Push(spans, a, b, shown) ensures s in spans || s.shown == shown {
    }
  }

  /** Where the replay stands after the first i events. */
  ghost predicate Reached(w: Window, initial: Readings, evs: seq<Event>, i: nat, at: int, cur: Readings)
    requires i <= |evs|
  {
    && w.from <= at <= w.Cut()
    && cur == ReadingsAt(w, initial, evs[..i], w.to)
    && (forall j :: 0 <= j < i && w.Holds(evs[j]) ==> evs[j].at <= at || at == w.Cut())
    && (TimeOrdered(evs) && at > w.from ==> i > 0 && at <= evs[i - 1].at)
  }

  lemma Advance(w: Window, initial: Readings, evs: seq<Event>, i: nat, at: int, cur: Readings, spans: seq<Span>, t: int)
    requires w.from < w.to && i < |evs| && Reached(w, initial, evs, i, at, cur) && Sofar(w, initial, evs, spans, at)
    requires w.Holds(evs[i]) && t == if evs[i].at > w.Cut() then w.Cut() else evs[i].at
    ensures var at' := if t > at then t else at;
            && Sofar(w, initial, evs, Push(spans, at, t, ScreenState(cur)), at')
            && Reached(w, initial, evs, i + 1, at', Apply(cur, evs[i]))
  {
    assert evs[..i + 1][..i] == evs[..i];
    if t > at {
      if TimeOrdered(evs) { Between(w, initial, evs, i, at, t); }
      PushSofar(w, initial, evs, spans, at, t, ScreenState(cur));
    }
  }

  lemma Skip(w: Window, initial: Readings, evs: seq<Event>, i: nat, at: int, cur: Readings)
    requires i < |evs| && Reached(w, initial, evs, i, at, cur) && !w.Holds(evs[i])
    ensures Reached(w, initial, evs, i + 1, at, cur)
  {
    assert evs[..i + 1][..i] == evs[..i];
  }

  /** The event loop and the two closing pushes. */
  method Replay(initial: Readings, evs: seq<Event>, from: int, to: int, offlineFrom: Option<int>)
    returns (spans: seq<Span>)
    ensures from >= to ==> spans == []
    ensures from < to ==> Sofar(Window(from, to, offlineFrom), initial, evs, spans, to)
  {
    ghost var w := Window(from, to, offlineFrom);
    var cur := initial;
    spans := [];
    var end := to;
    if offlineFrom.Some? && offlineFrom.value < to {
      end := offlineFrom.value;
      if end < from {
        end := from;
      }
    }
    var at := from;
    for i := 0 to |evs|
      invariant from >= to ==> spans == [] && at == from
      invariant from < to ==> Sofar(w, initial, evs, spans, at) && Reached(w, initial, evs, i, at, cur)
    {
      var e := evs[i];
      if e.at < from || !(e.at < to) {
        if from < to { Skip(w, initial, evs, i, at, cur); }
      } else {
        var t := e.at;
        if t > end {
          t := end;
        }
        Advance(w, initial, evs, i, at, cur, spans, t);
        spans := Push(spans, at, t, ScreenState(cur));
        if t > at {
          at := t;
        }
        cur := Apply(cur, e);
      }
    }
    assert evs[..|evs|] == evs;
    if from < to {
      if TimeOrdered(evs) { Between(w, initial, evs, |evs|, at, end); }
      PushSofar(w, initial, evs, spans, at, end, ScreenState(cur));
    }
    spans := Push(spans, at, end, ScreenState(cur));
    if from < to { PushSofar(w, initial, evs, spans, end, to, DEVICE_OFFLINE); }
    spans := Push(spans, end, to, DEVICE_OFFLINE);
  }

  /** Between two transitions of an ordered list the readings stand still. */
  lemma Between(w: Window, initial: Readings, evs: seq<Event>, i: nat, at: int, end: int)
    requires TimeOrdered(evs) && i <= |evs| && w.from < w.to && end <= w.Cut()
    requires forall j :: 0 <= j < i && w.Holds(evs[j]) ==> evs[j].at <= at || at == w.Cut()
    requires i < |evs| ==> end <= evs[i].at
    ensures forall t :: at <= t < end ==>
              StateAt(w, initial, evs, t) == ScreenState(ReadingsAt(w, initial, evs[..i], w.to))
  {
    forall t | at <= t < end
      ensures StateAt(w, initial, evs, t) == ScreenState(ReadingsAt(w, initial, evs[..i], w.to))
    {
      LaterEventsIgnored(w, initial, evs, i, t);
      AllCounted(w, initial, evs[..i], t, w.to);
    }
  }

  /** What a span shows at any of its instants: the device is offline from offlineFrom on; before that the
      last value of each key decides, or the initial one, and a dark screen decides before the app. */
  lemma ShownMeaning(initial: Readings, evs: seq<Event>, from: int, to: int, offlineFrom: Option<int>,
                     spans: seq<Span>, i: nat, t: int, f: int, s: int)
    requires Agrees(spans, Replayed(Window(from, to, offlineFrom), initial, evs))
    requires i < |spans| && spans[i].from <= t < spans[i].to && from <= t < to
    requires LastSet(Window(from, to, offlineFrom), evs, "host_app_fg", t, f)
    requires LastSet(Window(from, to, offlineFrom), evs, "screen_on", t, s)
    ensures var shown, offline := spans[i].shown, offlineFrom.Some? && offlineFrom.value <= t;
            var fg, scr := if f < 0 then initial.fg else evs[f].to, if s < 0 then initial.scr else evs[s].to;
            && (shown == Shown("unknown", "device_offline") <==> offline)
            && (shown == Shown("unknown", "no_report") <==> !offline && fg == "")
            && (shown == Shown("off_screen", "screen_off") <==> !offline && fg != "" && scr == "false")
            && (shown == Shown("off_screen", "app_not_in_foreground") <==>
                  !offline && fg != "" && fg != "true" && scr != "false")
            && (shown == Shown("on_screen", "app_in_foreground") <==> !offline && fg == "true" && scr != "false")
  {
    ReadingsMeaning(Window(from, to, offlineFrom), initial, evs, t, f, s);
    assert spans[i].shown == Replayed(Window(from, to, offlineFrom), initial, evs)(t);
    FiveDiffer();
  }

  /** The five answers are different texts. */
  lemma FiveDiffer()
    ensures "unknown" != "off_screen" && "unknown" != "on_screen" && "off_screen" != "on_screen"
    ensures "device_offline" != "no_report" && "screen_off" != "app_not_in_foreground"
  {
    assert "unknown"[0] == 'u' && "off_screen"[1] == 'f' && "on_screen"[1] == 'n';
    assert "device_offline"[0] == 'd' && "no_report"[0] == 'n' && "screen_off"[0] == 's';
  }

  // ── There is only one such answer ──────────────────────────────────────────

  ghost predicate Replays(spans: seq<Span>, from: int, to: int, state: int -> Shown) {
    Tiles(spans, from, to) && NeighboursDiffer(spans) && Agrees(spans, state) && SecondsRight(spans)
  }

  /** Tilings with different neighbours that agree with one state at every instant are the same spans:
      the output is determined by the replay alone. */
  lemma {:induction false} OnlyOneTiling(a: seq<Span>, b: seq<Span>, from: int, to: int, state: int -> Shown)
    requires Replays(a, from, to, state) && Replays(b, from, to, state)
    ensures a == b
    decreases |a|
  {
    if a == [] {
      if b != [] { Extent(b, from, to); }
    } else if b == [] {
      Extent(a, from, to);
    } else {
      SameHead(a, b, from, to, state);
      Tail(a, from, to, state);
      Tail(b, from, to, state);
      OnlyOneTiling(a[1..], b[1..], a[0].to, to, state);
      HeadAndTail(a, b);
    }
  }

  lemma HeadAndTail(a: seq<Span>, b: seq<Span>)
    requires a != [] && b != [] && a[0] == b[0] && a[1..] == b[1..]
    ensures a == b
  {
    assert a == [a[0]] + a[1..] && b == [b[0]] + b[1..];
  }

  lemma Tail(a: seq<Span>, from: int, to: int, state: int -> Shown)
    requires a != [] && Replays(a, from, to, state)
    ensures Replays(a[1..], a[0].to, to, state)
  {
  }

  lemma SameHead(a: seq<Span>, b: seq<Span>, from: int, to: int, state: int -> Shown)
    requires a != [] && Replays(a, from, to, state)
    requires b != [] && Replays(b, from, to, state)
    ensures a[0] == b[0]
  {
    FirstEnd(a, b, from, to, state);
    FirstEnd(b, a, from, to, state);
    assert a[0].shown == state(from) == b[0].shown;
  }

  lemma {:induction false} Extent(a: seq<Span>, from: int, to: int)
    requires Tiles(a, from, to) && a != []
    ensures from < to && (|a| > 1 ==> a[0].to < to) && a[0].to <= to
  {
    if |a| > 1 {
      assert Tiles(a[1..], a[0].to, to);
      Extent(a[1..], a[0].to, to);
    }
  }

  /** Were the first span of a to end sooner, its second would show the same state. */
  lemma FirstEnd(a: seq<Span>, b: seq<Span>, from: int, to: int, state: int -> Shown)
    requires a != [] && Replays(a, from, to, state)
    requires b != [] && Replays(b, from, to, state)
    ensures a[0].to >= b[0].to
  {
    Extent(b, from, to);
    assert a[0].shown == state(from) == b[0].shown;
    if |a| > 1 { assert a[1].shown == state(a[0].to); }
  }

  // ── The state now ──────────────────────────────────────────────────────────

  function LastSpanNow(spans: seq<Span>): Now {
    if spans == [] then Now(Shown("unknown", "no_report"), None)
    else var s := spans[|spans| - 1]; Now(s.shown, Some(s.from))
  }

  /** "Now" is the state at the window's last instant, since the instant it last changed. */
  lemma NowIsLastState(spans: seq<Span>, from: int, to: int, state: int -> Shown)
    requires from < to && Tiles(spans, from, to) && NeighboursDiffer(spans) && Agrees(spans, state)
    ensures var now := LastSpanNow(spans);
            && now.since.Some? && from <= now.since.value < to
            && (forall t :: now.since.value <= t < to ==> state(t) == now.shown)
            && (now.since.value == from || state(now.since.value - 1) != now.shown)
  {
    var n := |spans| - 1;
    var init := spans[..n];
    if n > 0 {
      assert Tiles(init, from, spans[n].from);
      Extent(init, from, spans[n].from);
      assert spans[n - 1].shown == state(spans[n].from - 1);
    }
  }
}

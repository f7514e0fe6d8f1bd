/**
 The pruned time lists behind three counters: refused key claims (internal/api/device_key.go), socket
 moves between addresses and automatic key resets (internal/api/device_identity.go). Each call reads
 the clock once, under the lock, and the clock never runs backwards.
 */
module SlidingWindow {

  type Key = string

  const MINUTE := 60_000_000_000
  const KEY_CLAIM_MISS_WINDOW := 15 * MINUTE
  const SOCKET_FLIP_WINDOW := 10 * MINUTE
  const LOST_KEY_WINDOW := 24 * 60 * MINUTE

  /** One recorded event. */
  datatype Entry = Entry(key: Key, at: int)

  /** The times still inside the window, in their order. */
  function Fresh(times: seq<int>, now: int, window: int): seq<int> {
    if times == [] then []
    else
      var t := times[|times| - 1];
      var before := Fresh(times[..|times| - 1], now, window);
      if now - t < window then before + [t] else before
  }

  lemma FreshPlus(times: seq<int>, t: int, now: int, window: int)
    ensures Fresh(times + [t], now, window) ==
              if now - t < window then Fresh(times, now, window) + [t] else Fresh(times, now, window)
  {
    assert (times + [t])[..|times|] == times;
  }

  /** The times of one key in the whole log. */
  function TimesOf(log: seq<Entry>, key: Key): seq<int> {
    if log == [] then []
    else
      var before := TimesOf(log[..|log| - 1], key);
      if log[|log| - 1].key == key then before + [log[|log| - 1].at] else before
  }

  /** How many events of a key in the whole log lie inside the window. */
  function CountInWindow(log: seq<Entry>, key: Key, now: int, window: int): nat {
    if log == [] then 0
    else
      var e := log[|log| - 1];
      CountInWindow(log[..|log| - 1], key, now, window) + if e.key == key && now - e.at < window then 1 else 0
  }

  lemma {:induction false} CountIsFresh(log: seq<Entry>, key: Key, now: int, window: int)
    ensures |Fresh(TimesOf(log, key), now, window)| == CountInWindow(log, key, now, window)
  {
    if log != [] {
      var n := |log| - 1;
      CountIsFresh(log[..n], key, now, window);
      FreshPlus(TimesOf(log[..n], key), log[n].at, now, window);
    }
  }

  /** What has left the window never comes back: pruning earlier does not change a later answer. */
  lemma {:induction false} PruningKeepsLater(times: seq<int>, now: int, later: int, window: int)
    requires now <= later
    ensures Fresh(Fresh(times, now, window), later, window) == Fresh(times, later, window)
  {
    if times != [] {
      var init, t := times[..|times| - 1], times[|times| - 1];
      PruningKeepsLater(init, now, later, window);
      FreshPlus(Fresh(init, now, window), t, later, window);
    }
  }

  class TimeLists {
    const window: int
    var m: map<Key, seq<int>>
    /** Everything ever recorded, and the latest clock reading. */
    ghost var log: seq<Entry>
    ghost var clock: int

    function Stored(key: Key): seq<int>
      reads this
    {
      if key in m then m[key] else []
    }

    /** From now on every count taken from the stored list is the count over the whole log. */
    ghost predicate Valid()
      reads this
    {
      forall key, now {:trigger Fresh(TimesOf(log, key), now, window)} :: now >= clock ==>
        Fresh(Stored(key), now, window) == Fresh(TimesOf(log, key), now, window)
    }

    constructor (window: int)
      ensures Valid() && this.window == window && log == []
    {
      this.window, m, log, clock := window, map[], [], 0;
    }

    /** Prune, append, store. The answer counts this event too. */
    method Note(key: Key, now: int) returns (n: nat)
      requires Valid() && now >= clock && window > 0
      modifies this
      ensures Valid() && log == old(log) + [Entry(key, now)] && clock == now
      ensures n == CountInWindow(log, key, now, window)
    {
      var times := Stored(key);
      var kept := [];
      for i := 0 to |times|
        modifies {}
        invariant kept == Fresh(times[..i], now, window)
      {
        assert times[..i + 1][..i] == times[..i];
        if now - times[i] < window {
          kept := kept + [times[i]];
        }
      }
      assert times[..|times|] == times;
      ghost var before := log;
      kept := kept + [now];
      m := m[key := kept];
      log, clock := log + [Entry(key, now)], now;
      assert log[..|before|] == before;
      assert kept[..|kept| - 1] == Fresh(times, now, window);
      forall k, later | later >= now
        ensures Fresh(Stored(k), later, window) == Fresh(TimesOf(log, k), later, window)
      {
        NoteKeeps(before, key, k, times, now, later, window);
      }
      CountIsFresh(log, key, now, window);
      PruningKeepsLater(times, now, now, window);
      return |kept|;
    }
  }

  lemma NoteKeeps(log: seq<Entry>, key: Key, k: Key, times: seq<int>, now: int, later: int, window: int)
    requires now <= later
    ensures TimesOf(log + [Entry(key, now)], k) == if k == key then TimesOf(log, k) + [now] else TimesOf(log, k)
    ensures Fresh(times, later, window) == Fresh(TimesOf(log, key), later, window) ==>
              Fresh(Fresh(times, now, window) + [now], later, window) == Fresh(TimesOf(log, key) + [now], later, window)
  {
    assert (log + [Entry(key, now)])[..|log|] == log;
    PruningKeepsLater(times, now, later, window);
    FreshPlus(Fresh(times, now, window), now, later, window);
    FreshPlus(TimesOf(log, key), now, later, window);
  }

  // ── The three counters ─────────────────────────────────────────────────────

  /** Refused key claims: the answer is how many refusals of the serial lie in the last quarter hour,
      over its whole history. */
  method NoteKeyClaimMiss(misses: TimeLists, serial: Key, now: int) returns (n: nat)
    requires misses.Valid() && misses.window == KEY_CLAIM_MISS_WINDOW && now >= misses.clock
    modifies misses
    ensures misses.Valid() && misses.log == old(misses.log) + [Entry(serial, now)] && misses.clock == now
    ensures n == CountInWindow(misses.log, serial, now, KEY_CLAIM_MISS_WINDOW)
  {
    n := misses.Note(serial, now);
  }

  /** Automatic key resets: the answer counts the earlier ones only. */
  method RecoverLostKey(calls: TimeLists, serial: Key, now: int) returns (n: nat)
    requires calls.Valid() && calls.window == LOST_KEY_WINDOW && now >= calls.clock
    modifies calls
    ensures calls.Valid() && calls.log == old(calls.log) + [Entry(serial, now)] && calls.clock == now
    ensures n == CountInWindow(old(calls.log), serial, now, LOST_KEY_WINDOW)
  {
    var total := calls.Note(serial, now);
    assert calls.log[..|old(calls.log)|] == old(calls.log);
    n := total - 1;
  }

  /** A device's socket addresses: a move counts when the old socket was still open. */
  class SocketPeers {
    var ip: map<Key, string>
    const flips: TimeLists

    constructor ()
      ensures ip == map[] && fresh(flips) && flips.Valid() && flips.log == [] && flips.window == SOCKET_FLIP_WINDOW
    {
      ip := map[];
      flips := new TimeLists(SOCKET_FLIP_WINDOW);
    }

    predicate Moves(device: Key, address: string, connected: bool)
      reads this
    {
      device in ip && ip[device] != "" && ip[device] != address && connected
    }

    /** The number of moves of the device in the last ten minutes, this one included; 0 when this
        socket is no move. The address is remembered either way. */
    method NoteSocketPeer(device: Key, address: string, connected: bool, now: int) returns (n: nat)
      requires flips.Valid() && flips.window == SOCKET_FLIP_WINDOW && now >= flips.clock
      modifies this, flips
      ensures flips.Valid() && ip == old(ip)[device := address]
      ensures flips.log == old(flips.log) + if old(Moves(device, address, connected)) then [Entry(device, now)] else []
      ensures n == if old(Moves(device, address, connected)) then
                     CountInWindow(flips.log, device, now, SOCKET_FLIP_WINDOW)
                   else 0
      ensures n > 0 <==> old(Moves(device, address, connected))
    {
      var prev := if device in ip then ip[device] else "";
      ip := ip[device := address];
      n := 0;
      if prev != "" && prev != address && connected {
        n := flips.Note(device, now);
        assert flips.log[|flips.log| - 1] == Entry(device, now);
      }
    }
  }
}

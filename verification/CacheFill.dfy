/**
 The resumable download of internal/apkstore/apkstore.go: an object is appended to a part file over
 up to 200 requests that may fail anywhere, and renamed into place when the part file is long enough.
 */
module CacheFill {
  import opened Wrappers

  const ATTEMPTS := 200

  /** What the network and the disk did in one attempt: the request failed, the part file could not be
      opened, or a body delivered some head of what was asked, cleanly or not. */
  datatype Transfer =
    | GetFailed(gaveUp: bool)
    | OpenFailed
    | Body(count: nat, broken: bool, gaveUp: bool)

  datatype Fill = Published(file: seq<byte>) | Stopped(part: Option<seq<byte>>)

  function Bytes(part: Option<seq<byte>>): seq<byte> {
    if part.Some? then part.value else []
  }

  /** The part file after a body: the object from the part file's length on, as far as it came. */
  function Appended(obj: seq<byte>, part: Option<seq<byte>>, count: nat): seq<byte>
    requires |Bytes(part)| <= |obj|
  {
    var off := |Bytes(part)|;
    Bytes(part) + if off + count <= |obj| then obj[off..off + count] else obj[off..]
  }

  /** The attempts from a given one on. */
  function Attempts(obj: seq<byte>, net: nat -> Transfer, attempt: nat, part: Option<seq<byte>>): Fill
    requires attempt <= ATTEMPTS
    decreases ATTEMPTS - attempt
  {
    if attempt == ATTEMPTS then Stopped(part)
    else if |Bytes(part)| >= |obj| then Published(Bytes(part))
    else match net(attempt)
      case GetFailed(gaveUp) => if gaveUp then Stopped(part) else Attempts(obj, net, attempt + 1, part)
      case OpenFailed => Stopped(part)
      case Body(count, broken, gaveUp) =>
        var next := Some(Appended(obj, part, count));
        if broken && gaveUp then Stopped(next) else Attempts(obj, net, attempt + 1, next)
  }

  // ── What every run of attempts keeps ───────────────────────────────────────

  /** A part file of which only the end is new, and new bytes are the object's at the same offsets. */
  ghost predicate Grown(obj: seq<byte>, before: seq<byte>, after: seq<byte>) {
    && before <= after
    && (|after| <= |before| || |after| <= |obj|)
    && forall j :: |before| <= j < |after| ==> after[j] == obj[j]
  }

  lemma GrownAgain(obj: seq<byte>, a: seq<byte>, b: seq<byte>, c: seq<byte>)
    requires Grown(obj, a, b) && Grown(obj, b, c)
    ensures Grown(obj, a, c)
  {
  }

  function FileOf(r: Fill): seq<byte> {
    if r.Published? then r.file else Bytes(r.part)
  }

  /** From any part file, whatever the network does: the part file only grows, by the object's bytes at
      their own offsets, and only a file at least as long as the object is published. */
  lemma {:induction false} OnlyGrows(obj: seq<byte>, net: nat -> Transfer, attempt: nat, part: Option<seq<byte>>)
    requires attempt <= ATTEMPTS
    ensures var r := Attempts(obj, net, attempt, part);
            Grown(obj, Bytes(part), FileOf(r)) && (r.Published? ==> |r.file| >= |obj|)
    decreases ATTEMPTS - attempt
  {
    if attempt < ATTEMPTS && |Bytes(part)| < |obj| {
      match net(attempt)
      case GetFailed(gaveUp) => if !gaveUp { OnlyGrows(obj, net, attempt + 1, part); }
      case OpenFailed =>
      case Body(count, broken, gaveUp) =>
        var next := Appended(obj, part, count);
        assert Grown(obj, Bytes(part), next);
        if !(broken && gaveUp) {
          OnlyGrows(obj, net, attempt + 1, Some(next));
          GrownAgain(obj, Bytes(part), next, FileOf(Attempts(obj, net, attempt + 1, Some(next))));
        }
    }
  }

  /** A part file that is a head of the object stays one, and is published only as the whole object. */
  lemma PrefixStaysPrefix(obj: seq<byte>, net: nat -> Transfer, part: Option<seq<byte>>)
    requires Bytes(part) <= obj
    ensures var r := Attempts(obj, net, 0, part);
            if r.Published? then r.file == obj else Bytes(part) <= Bytes(r.part) <= obj
  {
    OnlyGrows(obj, net, 0, part);
    var after := FileOf(Attempts(obj, net, 0, part));
    assert |after| <= |obj|;
    assert forall j :: 0 <= j < |after| ==> after[j] == obj[j];
  }

  /** Exactly when a published file is the object: when the part file found at the start was a head of it.
      A part file left over from other bytes under the same key is built upon unseen. */
  lemma PublishedIsObjectIff(obj: seq<byte>, net: nat -> Transfer, part: Option<seq<byte>>)
    requires Attempts(obj, net, 0, part).Published?
    ensures Attempts(obj, net, 0, part).file == obj <==> Bytes(part) <= obj
  {
    OnlyGrows(obj, net, 0, part);
    if Bytes(part) <= obj { PrefixStaysPrefix(obj, net, part); }
  }

  /** A stale part file of the right length is published as it stands. */
  lemma StalePartPublished(obj: seq<byte>, stale: seq<byte>, net: nat -> Transfer)
    requires |stale| == |obj|
    ensures Attempts(obj, net, 0, Some(stale)) == Published(stale)
  {
  }

  // ── When it gets there ─────────────────────────────────────────────────────

  /** Bytes the network offers in attempts from..upto. */
  function Offered(net: nat -> Transfer, from: nat, upto: nat): nat
    decreases upto - from
  {
    if from >= upto then 0
    else (if net(from).Body? then net(from).count else 0) + Offered(net, from + 1, upto)
  }

  /** The attempt ends the whole call: the caller gives up, or the disk does not open the file. */
  predicate Aborts(t: Transfer) {
    match t
    case GetFailed(gaveUp) => gaveUp
    case OpenFailed => true
    case Body(_, broken, gaveUp) => broken && gaveUp
  }

  ghost predicate NoneAborts(net: nat -> Transfer, from: nat, upto: nat) {
    forall i :: from <= i < upto ==> !Aborts(net(i))
  }

  /** By attempt n, which is one of the 200, nothing has aborted and what was found with what came is enough. */
  ghost predicate EnoughBy(size: nat, net: nat -> Transfer, from: nat, found: nat, n: nat) {
    from <= n < ATTEMPTS && NoneAborts(net, from, n) && found + Offered(net, from, n) >= size
  }

  /** A call publishes exactly when some attempt finds enough. */
  lemma {:induction false} PublishesIff(obj: seq<byte>, net: nat -> Transfer, attempt: nat, part: Option<seq<byte>>)
    requires attempt <= ATTEMPTS
    ensures Attempts(obj, net, attempt, part).Published? <==>
              exists n: nat :: EnoughBy(|obj|, net, attempt, |Bytes(part)|, n)
    decreases ATTEMPTS - attempt
  {
    if attempt < ATTEMPTS && |Bytes(part)| >= |obj| {
      assert EnoughBy(|obj|, net, attempt, |Bytes(part)|, attempt);
    } else if attempt < ATTEMPTS && !Aborts(net(attempt)) {
      var later, next := attempt + 1, After(obj, part, net(attempt));
      PublishesIff(obj, net, later, next);
      if n: nat :| EnoughBy(|obj|, net, later, |Bytes(next)|, n) {
        EnoughLater(obj, net, attempt, part, n);
      } else {
        forall n: nat ensures !EnoughBy(|obj|, net, attempt, |Bytes(part)|, n) {
          EnoughLater(obj, net, attempt, part, n);
        }
      }
    } else if attempt < ATTEMPTS {
      forall n: nat ensures !EnoughBy(|obj|, net, attempt, |Bytes(part)|, n) {
        assert n > attempt ==> !NoneAborts(net, attempt, n);
      }
    }
  }

  /** What an attempt that does not abort leaves in the part file. */
  function After(obj: seq<byte>, part: Option<seq<byte>>, t: Transfer): Option<seq<byte>>
    requires |Bytes(part)| <= |obj|
  {
    if t.Body? then Some(Appended(obj, part, t.count)) else part
  }

  lemma EnoughLater(obj: seq<byte>, net: nat -> Transfer, attempt: nat, part: Option<seq<byte>>, n: nat)
    requires attempt < ATTEMPTS && |Bytes(part)| < |obj| && !Aborts(net(attempt))
    ensures EnoughBy(|obj|, net, attempt, |Bytes(part)|, n)
       <==> EnoughBy(|obj|, net, attempt + 1, |Bytes(After(obj, part, net(attempt)))|, n)
  {
  }

  lemma {:induction false} OfferedGrows(net: nat -> Transfer, from: nat, n: nat, m: nat)
    requires n <= m
    ensures Offered(net, from, n) <= Offered(net, from, m)
    decreases m - from
  {
    if from < n { OfferedGrows(net, from + 1, n, m); }
  }

  /** A call that nothing aborts publishes exactly when what it found and what its first 199 attempts were
      offered reach the object's length; bytes of the 200th are left for the next call. */
  lemma UnabortedPublishesIff(obj: seq<byte>, net: nat -> Transfer, part: Option<seq<byte>>)
    requires NoneAborts(net, 0, ATTEMPTS)
    ensures Attempts(obj, net, 0, part).Published? <==> |Bytes(part)| + Offered(net, 0, ATTEMPTS - 1) >= |obj|
  {
    PublishesIff(obj, net, 0, part);
    if n: nat :| EnoughBy(|obj|, net, 0, |Bytes(part)|, n) {
      OfferedGrows(net, 0, n, ATTEMPTS - 1);
    } else {
      assert !EnoughBy(|obj|, net, 0, |Bytes(part)|, ATTEMPTS - 1);
    }
  }

  /** A call that stops short leaves everything that came, the last attempt's bytes included. */
  lemma {:induction false} StopsWithAll(obj: seq<byte>, net: nat -> Transfer, attempt: nat, part: Option<seq<byte>>,
                                        n: nat)
    requires attempt <= n < ATTEMPTS && NoneAborts(net, attempt, n) && (Aborts(net(n)) || n == ATTEMPTS - 1)
    requires |Bytes(part)| + Offered(net, attempt, n) < |obj|
    ensures var r, came := Attempts(obj, net, attempt, part), |Bytes(part)| + Offered(net, attempt, n + 1);
            r.Stopped? && |Bytes(r.part)| == if came < |obj| then came else |obj|
    decreases n - attempt
  {
    assert Offered(net, n + 1, n + 1) == 0;
    if attempt < n {
      StopsWithAll(obj, net, attempt + 1, After(obj, part, net(attempt)), n);
    }
  }

  lemma Outcome(obj: seq<byte>, net: nat -> Transfer, part: Option<seq<byte>>)
    ensures var r := Attempts(obj, net, 0, part);
            && (r.Published? <==> exists n: nat :: EnoughBy(|obj|, net, 0, |Bytes(part)|, n))
            && (r.Published? ==> |r.file| >= |obj| && (r.file == obj <==> Bytes(part) <= obj))
            && (Bytes(part) <= obj ==> Bytes(part) <= FileOf(r) <= obj)
    ensures NoneAborts(net, 0, ATTEMPTS) ==>
              (Attempts(obj, net, 0, part).Published? <==>
                |Bytes(part)| + Offered(net, 0, ATTEMPTS - 1) >= |obj|)
  {
    OnlyGrows(obj, net, 0, part);
    PublishesIff(obj, net, 0, part);
    if NoneAborts(net, 0, ATTEMPTS) { UnabortedPublishesIff(obj, net, part); }
    if Bytes(part) <= obj { PrefixStaysPrefix(obj, net, part); }
    if Attempts(obj, net, 0, part).Published? { PublishedIsObjectIff(obj, net, part); }
  }

  // ── The call ───────────────────────────────────────────────────────────────

  class Store {
    const content: seq<byte>
    var final: Option<seq<byte>>
    var part: Option<seq<byte>>
    var filling: bool

    constructor (obj: seq<byte>)
      ensures content == obj && final == None && part == None && !filling
    {
      content, final, part, filling := obj, None, None, false;
    }

    predicate Cached()
      reads this
    {
      final.Some? && |final.value| > 0
    }

    /** The object is not empty and some attempt finds enough of it. */
    ghost predicate CanPublish(net: nat -> Transfer)
      reads this
    {
      |content| > 0 && exists n: nat :: EnoughBy(|content|, net, 0, |Bytes(part)|, n)
    }

    /** One call, for any network. ok is the source's nil error. */
    method EnsureCached(headOk: bool, net: nat -> Transfer, renameOk: bool) returns (ok: bool)
      modifies this
      ensures filling == old(filling)
      ensures ok && !old(Cached()) && !old(filling) ==> Cached()
      ensures !old(Cached()) && !old(filling) ==> (ok <==> headOk && renameOk && old(CanPublish(net)))
      ensures !old(Cached()) && !old(filling) && NoneAborts(net, 0, ATTEMPTS) ==>
                (ok <==> headOk && renameOk && |content| > 0
                         && old(|Bytes(part)|) + Offered(net, 0, ATTEMPTS - 1) >= |content|)
      ensures final != old(final) ==> ok && !old(Cached()) && final.Some? && |final.value| >= |content| > 0
      ensures old(Bytes(part)) <= content ==>
                if final != old(final) then final == Some(content) && part == None
                else old(Bytes(part)) <= Bytes(part) <= content
      ensures final != old(final) ==> (final == Some(content) <==> old(Bytes(part)) <= content)
      ensures old(Cached()) || old(filling) ==> ok && part == old(part) && final == old(final)
    {
      if final.Some? && |final.value| > 0 {
        return true;
      }
      if filling {
        return true;
      }
      filling := true;
      ok := Download(headOk, net, renameOk);
      filling := false;
    }

    method Download(headOk: bool, net: nat -> Transfer, renameOk: bool) returns (ok: bool)
      modifies `final, `part
      ensures ok <==> headOk && renameOk && old(CanPublish(net))
      ensures NoneAborts(net, 0, ATTEMPTS) ==>
                (ok <==> headOk && renameOk && |content| > 0
                         && old(|Bytes(part)|) + Offered(net, 0, ATTEMPTS - 1) >= |content|)
      ensures ok ==> Cached()
      ensures !ok ==> final == old(final)
      ensures ok ==> |content| > 0 && part == None && final.Some?
                     && Attempts(content, net, 0, old(part)) == Published(final.value)
                     && |final.value| >= |content|
      ensures !headOk || |content| == 0 ==> part == old(part)
      ensures headOk && |content| > 0 && !ok ==>
                Attempts(content, net, 0, old(part)) in {Stopped(part), Published(Bytes(part))}
      ensures ok ==> (final == Some(content) <==> old(Bytes(part)) <= content)
      ensures old(Bytes(part)) <= content && !ok ==> old(Bytes(part)) <= Bytes(part) <= content
    {
      if !headOk {
        return false;
      }
      var total := |content|;
      if total <= 0 {
        return false;
      }
      ghost var found := part;
      Outcome(content, net, found);
      var attempt := 0;
      while attempt < ATTEMPTS
        invariant attempt <= ATTEMPTS && final == old(final)
        invariant Attempts(content, net, attempt, part) == Attempts(content, net, 0, found)
      {
        var off := 0;
        if part.Some? {
          off := |part.value|;
        }
        if off >= total {
          if !renameOk {
            return false;
          }
          final, part := part, None;
          return true;
        }
        match net(attempt) {
          case GetFailed(gaveUp) =>
            if gaveUp {
              return false;
            }
          case OpenFailed =>
            return false;
          case Body(count, broken, gaveUp) =>
            part := Some(Appended(content, part, count));
            if broken && gaveUp {
              return false;
            }
        }
        attempt := attempt + 1;
      }
      return false;
    }
  }
}

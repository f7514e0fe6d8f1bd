/**
 Random access to an S3 object through a cache of 8 MiB blocks, of internal/apkstore/apkstore.go.
 The network is a choice: a request may fail, or its body may stop after any number of bytes.
 */
module BlockCache {
  import opened Wrappers

  const S3_BLOCK := 8_388_608
  const CACHE_MAX := 17

  datatype ReadError = NoError | EOF | Failed

  function Min(a: int, b: int): int {
    if a < b then a else b
  }

  /** The part of the object that block idx holds. */
  function BlockOf(obj: seq<byte>, idx: nat): (b: seq<byte>)
    requires idx * S3_BLOCK < |obj|
    ensures |b| == Min(S3_BLOCK, |obj| - idx * S3_BLOCK)
    ensures forall i :: 0 <= i < |b| ==> b[i] == obj[idx * S3_BLOCK + i]
  {
    obj[idx * S3_BLOCK..Min((idx + 1) * S3_BLOCK, |obj|)]
  }

  /** A buffer of the range's length holding the bytes that arrived; the rest stays zero. */
  function Padded(body: seq<byte>, len: nat): (b: seq<byte>)
    requires |body| <= len
    ensures |b| == len
  {
    body + seq(len - |body|, _ => 0)
  }

  /** The object, and what the transfers are taken to show of it: the object itself when none is cut short. */
  datatype View = View(obj: seq<byte>, image: seq<byte>)
  {
    predicate Sized() {
      |image| == |obj|
    }
  }

  /** A byte read at a position is the object's own or a zero nobody sent, and the image's if every transfer
      agreed with it. */
  predicate ByteReads(v: View, pos: nat, b: byte, agrees: bool)
    requires v.Sized() && pos < |v.obj|
  {
    (b == v.obj[pos] || b == 0) && (agrees ==> b == v.image[pos])
  }

  /** What was read from off on. */
  predicate ReadsAs(v: View, off: nat, got: seq<byte>, agrees: bool)
    requires v.Sized()
  {
    off + |got| <= |v.obj| && forall i :: 0 <= i < |got| ==> ByteReads(v, off + i, got[i], agrees)
  }

  /** What a cached block may hold. */
  predicate BlockReads(v: View, idx: nat, b: seq<byte>, agrees: bool)
    requires v.Sized()
  {
    && idx * S3_BLOCK < |v.obj| && |b| == Min(S3_BLOCK, |v.obj| - idx * S3_BLOCK)
    && ReadsAs(v, idx * S3_BLOCK, b, agrees)
  }

  /** What the code makes of a body of k bytes for block idx: the block, zeros after the k-th byte. */
  function Fetched(obj: seq<byte>, idx: nat, k: nat): seq<byte>
    requires idx * S3_BLOCK < |obj| && k <= |BlockOf(obj, idx)|
  {
    Padded(BlockOf(obj, idx)[..k], |BlockOf(obj, idx)|)
  }

  /** A body of k bytes, which is accepted for any k above 0, is right for every block of the same length
      exactly when it is all of it. */
  lemma ShortBodyIsRightIff(k: nat, len: nat)
    requires 0 < k <= len
    ensures (forall range: seq<byte> :: |range| == len ==> Padded(range[..k], len) == range) <==> k == len
  {
    if k < len {
      var ones: seq<byte> := seq(len, _ => 1);
      assert Padded(ones[..k], len)[k] == 0 != ones[k];
    } else {
      forall range: seq<byte> | |range| == len ensures Padded(range[..k], len) == range {
        assert range[..k] == range;
      }
    }
  }

  /** What becomes of a request for a block; a request that delivers nothing counts as failed. */
  function FromRequest(obj: seq<byte>, idx: nat, delivered: Option<nat>): Option<seq<byte>>
    requires idx * S3_BLOCK < |obj|
  {
    if delivered.None? || delivered.value == 0 then None
    else Some(Fetched(obj, idx, Min(delivered.value, |BlockOf(obj, idx)|)))
  }

  /** What a request is answered with may be cached. */
  lemma RequestReads(v: View, idx: nat, delivered: Option<nat>)
    requires v.Sized() && idx * S3_BLOCK < |v.obj|
    ensures var b := FromRequest(v.obj, idx, delivered);
            b.Some? ==> BlockReads(v, idx, b.value, b.value == BlockOf(v.image, idx))
  {
  }

  /** How many bytes of its range a request delivers; None when it fails. */
  type Network = nat -> Option<nat>

  /** Whatever block a request is made for, it fails or shows the image's. */
  ghost predicate Shows(net: Network, v: View)
    requires v.Sized()
  {
    forall i: nat, idx: nat :: idx * S3_BLOCK < |v.obj| ==>
      FromRequest(v.obj, idx, net(i)) == None || FromRequest(v.obj, idx, net(i)) == Some(BlockOf(v.image, idx))
  }

  lemma WholeBody(obj: seq<byte>, idx: nat, k: nat)
    requires idx * S3_BLOCK < |obj| && k >= S3_BLOCK
    ensures FromRequest(obj, idx, Some(k)) == Some(BlockOf(obj, idx))
  {
    var b := BlockOf(obj, idx);
    assert Min(k, |b|) == |b| && b[..|b|] == b && Padded(b, |b|) == b;
  }

  /** A network shows every object as it is exactly when no request it serves delivers less than a whole
      block's length: it fails, delivers nothing, or as much as any block may ask. */
  lemma ShowsEveryObjectIff(net: Network)
    ensures (forall obj: seq<byte> :: Shows(net, View(obj, obj)))
       <==> (forall i: nat :: net(i).None? || net(i).value == 0 || net(i).value >= S3_BLOCK)
  {
    if i: nat :| net(i).Some? && 0 < net(i).value < S3_BLOCK {
      HidesOnes(net, i);
    } else {
      forall obj: seq<byte> ensures Shows(net, View(obj, obj)) {
        forall i: nat, idx: nat | idx * S3_BLOCK < |obj| && net(i).Some? && net(i).value >= S3_BLOCK
          ensures FromRequest(obj, idx, net(i)) == Some(BlockOf(obj, idx))
        {
          WholeBody(obj, idx, net(i).value);
        }
      }
    }
  }

  /** A request that delivers part of a block does not show a block of ones. */
  lemma HidesOnes(net: Network, i: nat)
    requires net(i).Some? && 0 < net(i).value < S3_BLOCK
    ensures exists obj: seq<byte> :: !Shows(net, View(obj, obj))
  {
    var obj: seq<byte> := seq(S3_BLOCK, _ => 1);
    var k := net(i).value;
    assert BlockOf(obj, 0) == obj;
    assert Fetched(obj, 0, k)[k] == 0 != obj[k];
    assert FromRequest(obj, 0, net(i)) != Some(BlockOf(obj, 0));
    assert !Shows(net, View(obj, obj));
  }

  /** Part of a cached block reads as the object's bytes there. */
  lemma BlockPart(v: View, idx: nat, blk: seq<byte>, start: nat, count: nat, agrees: bool)
    requires v.Sized() && BlockReads(v, idx, blk, agrees) && start + count <= |blk|
    ensures ReadsAs(v, idx * S3_BLOCK + start, blk[start..start + count], agrees)
  {
    var off, part := idx * S3_BLOCK, blk[start..start + count];
    forall i | 0 <= i < count ensures ByteReads(v, off + start + i, part[i], agrees) {
      assert part[i] == blk[start + i] && ByteReads(v, off + (start + i), blk[start + i], agrees);
    }
  }

  /** Bytes read so far, continued with the bytes from where they end: one turn of the copy loop. */
  lemma NextPart(v: View, off: nat, head: seq<byte>, was: bool, part: seq<byte>, agrees: bool)
    requires v.Sized() && ReadsAs(v, off, head, was) && (agrees ==> was) && ReadsAs(v, off + |head|, part, agrees)
    ensures ReadsAs(v, off, head + part, agrees)
  {
    var all := head + part;
    forall i | 0 <= i < |all| ensures ByteReads(v, off + i, all[i], agrees) {
      if i >= |head| {
        assert ByteReads(v, off + |head| + (i - |head|), part[i - |head|], agrees);
      }
    }
  }

  lemma LessAgreed(v: View, off: nat, got: seq<byte>, was: bool, agrees: bool)
    requires v.Sized() && ReadsAs(v, off, got, was) && (agrees ==> was)
    ensures ReadsAs(v, off, got, agrees)
  {
  }

  class S3ReaderAt {
    const content: seq<byte>
    const size: int
    /** What becomes of each request, in the order they are made. */
    const net: Network
    var requests: nat
    var cache: map<nat, seq<byte>>
    /** What the transfers are taken to show, and whether every one so far has. */
    ghost const image: seq<byte>
    ghost var agrees: bool
    /** Whether the network shows that image whatever is asked of it; then every transfer does. */
    ghost const steady: bool

    ghost function Seen(): View {
      View(content, image)
    }

    ghost predicate Valid()
      reads this
    {
      && size == |content| == |image|
      && (steady ==> agrees && Shows(net, Seen()))
      && |cache| <= CACHE_MAX
      && forall idx <- cache :: BlockReads(Seen(), idx, cache[idx], agrees)
    }

    constructor (obj: seq<byte>, net: Network, ghost image: seq<byte>)
      requires |image| == |obj|
      ensures Valid() && content == obj && this.net == net && this.image == image
      ensures requests == 0 && agrees && cache == map[] && steady == Shows(net, View(obj, image))
    {
      content, size, this.net, this.image, steady := obj, |obj|, net, image, Shows(net, View(obj, image));
      requests, cache, agrees := 0, map[], true;
    }

    /** A ranged GET: fails, or delivers some head of the range. */
    method GetRange(begin: nat, end: nat) returns (body: Option<seq<byte>>)
      requires begin <= end < |content|
      modifies `requests
      ensures requests == old(requests) + 1
      ensures body == if net(old(requests)).None? then None
                      else Some(content[begin..end + 1][..Min(net(old(requests)).value, end + 1 - begin)])
    {
      var k := net(requests);
      requests := requests + 1;
      if k.None? {
        return None;
      }
      var range := content[begin..end + 1];
      return Some(range[..Min(k.value, |range|)]);
    }

    /** First region under the lock. */
    method Lookup(idx: nat) returns (b: Option<seq<byte>>)
      ensures b == if idx in cache then Some(cache[idx]) else None
    {
      b := if idx in cache then Some(cache[idx]) else None;
    }

    /** Second region under the lock. It relies on nothing seen in the first, so other readers may
        have filled or emptied the cache in between. */
    method Insert(idx: nat, buf: seq<byte>)
      requires Valid() && BlockReads(Seen(), idx, buf, agrees)
      modifies `cache
      ensures Valid() && idx in cache && cache[idx] == buf
      ensures forall i <- cache :: i == idx || (i in old(cache) && cache[i] == old(cache)[i])
    {
      if |cache| > 16 {
        cache := map[];
      }
      cache := cache[idx := buf];
    }

    /** The latest request failed or delivered nothing. */
    predicate LastRefused()
      reads this`requests
    {
      requests > 0 && (net(requests - 1).None? || net(requests - 1).value == 0)
    }

    /** A block is the cached one, or what the next request delivers of it, padded, unless that is
        nothing; what is returned is what the cache then holds. */
    method Block(idx: nat) returns (b: Option<seq<byte>>)
      requires Valid() && idx * S3_BLOCK < size
      modifies this
      ensures Valid() && (agrees ==> old(agrees))
      ensures b.Some? ==> BlockReads(Seen(), idx, b.value, agrees) && idx in cache && cache[idx] == b.value
      ensures b.None? ==> LastRefused()
      ensures idx in old(cache) ==> b == Some(old(cache)[idx]) && requests == old(requests)
      ensures idx !in old(cache) ==> requests == old(requests) + 1 && b == FromRequest(content, idx, net(old(requests)))
    {
      b := Lookup(idx);
      if b.Some? {
        return;
      }
      b := Fetch(idx);
      if b.None? {
        return;
      }
      RequestReads(Seen(), idx, net(old(requests)));
      agrees := agrees && b.value == BlockOf(image, idx);
      Insert(idx, b.value);
    }

    /** The request for a block: the range from its start to its end or the object's. */
    method Fetch(idx: nat) returns (b: Option<seq<byte>>)
      requires size == |content| && idx * S3_BLOCK < size
      modifies `requests
      ensures requests == old(requests) + 1 && b == FromRequest(content, idx, net(old(requests)))
    {
      var begin := idx * S3_BLOCK;
      var end := begin + S3_BLOCK - 1;
      if end > size - 1 {
        end := size - 1;
      }
      var body := GetRange(begin, end);
      if body.None? || body.value == [] {
        return None;
      }
      assert content[begin..end + 1] == BlockOf(content, idx);
      return Some(Padded(body.value, end - begin + 1));
    }

    /** Reads like the flat object: as many bytes as there are, EOF exactly when that is fewer than
        asked, whatever earlier reads left in the cache. Each byte is the object's own or zero, and the
        image's as long as every transfer agreed with it: the object's, when none was cut short. */
    method ReadAt(p: array<byte>, off: nat) returns (n: nat, err: ReadError)
      requires Valid()
      modifies this, p
      ensures Valid() && (agrees ==> old(agrees))
      ensures n <= p.Length && (off + n <= size || n == 0)
      ensures err != Failed ==> n == if off < size then Min(p.Length, size - off) else 0
      ensures err != Failed ==> (err == EOF <==> n < p.Length)
      ensures err == Failed ==> n < p.Length && off + n < size && LastRefused()
      ensures off < size ==> ReadsAs(Seen(), off, p[..n], agrees)
      ensures forall j :: n <= j < p.Length ==> p[j] == old(p[j])
    {
      n := 0;
      if p.Length == 0 {
        return 0, NoError;
      }
      if off >= size {
        return 0, EOF;
      }
      ghost var got: seq<byte> := [];
      while n < p.Length
        invariant Valid() && (agrees ==> old(agrees))
        invariant n <= p.Length && off + n <= size && p[..n] == got && ReadsAs(Seen(), off, got, agrees)
        invariant forall j :: n <= j < p.Length ==> p[j] == old(p[j])
        decreases p.Length - n
      {
        var pos := off + n;
        if pos >= size {
          return n, EOF;
        }
        ghost var was := agrees;
        var part, e := ReadPart(pos, p.Length - n);
        if e != NoError {
          LessAgreed(Seen(), off, got, was, agrees);
          return n, e;
        }
        NextPart(Seen(), off, got, was, part, agrees);
        Copy(p, n, part);
        got, n := got + part, n + |part|;
      }
      err := NoError;
    }

    /** What one block gives of the bytes from a position on, at most so many. */
    method ReadPart(pos: nat, want: nat) returns (part: seq<byte>, err: ReadError)
      requires Valid() && pos < size && want > 0
      modifies this
      ensures Valid() && (agrees ==> old(agrees))
      ensures err == NoError || (err == Failed && LastRefused())
      ensures err == NoError ==> 0 < |part| <= want && ReadsAs(Seen(), pos, part, agrees)
    {
      var idx, start := Locate(pos);
      var blk := Block(idx);
      if blk.None? {
        return [], Failed;
      }
      if start >= |blk.value| {
        return [], EOF;
      }
      var count := Min(want, |blk.value| - start);
      BlockPart(Seen(), idx, blk.value, start, count, agrees);
      part, err := blk.value[start..start + count], NoError;
    }
  }

  /** The block a position lies in, and where in it. */
  method Locate(pos: nat) returns (idx: nat, start: nat)
    ensures idx * S3_BLOCK + start == pos && start < S3_BLOCK
  {
    idx := pos / S3_BLOCK;
    start := pos - (pos / S3_BLOCK) * S3_BLOCK;
  }

  /** One byte at a time shows two ones as a one and a zero. */
  lemma OneByteShows()
    ensures Shows(_ => Some(1), View([1, 1], [1, 0]))
  {
    var obj: seq<byte>, image: seq<byte> := [1, 1], [1, 0];
    forall idx: nat | idx * S3_BLOCK < |obj| ensures FromRequest(obj, idx, Some(1)) == Some(BlockOf(image, idx)) {
      assert idx == 0;
      assert BlockOf(obj, 0) == obj && BlockOf(image, 0) == image;
      assert obj[..1] == [1] && Padded([1], 2) == image;
    }
  }

  /** A read that succeeds with a byte that is not the object's: two bytes, of which one arrives. */
  method ShortRead() returns (r: S3ReaderAt, p: array<byte>, n: nat, err: ReadError)
    ensures r.content == [1, 1] && n == 2 && err == NoError && p[..] == [1, 0]
  {
    var obj: seq<byte>, image: seq<byte> := [1, 1], [1, 0];
    var net: Network := _ => Some(1);
    OneByteShows();
    r := new S3ReaderAt(obj, net, image);
    p := new byte[2];
    n, err := r.ReadAt(p, 0);
    assert p[..2] == p[..] && image[0..0 + 2] == image;
  }

  method Copy(p: array<byte>, at: nat, src: seq<byte>)
    requires at + |src| <= p.Length
    modifies p
    ensures p[..at + |src|] == old(p[..at]) + src
    ensures forall j :: at + |src| <= j < p.Length ==> p[j] == old(p[j])
  {
    forall j | 0 <= j < |src| {
      p[at + j] := src[j];
    }
    assert p[..at] == old(p[..at]) && p[at..at + |src|] == src;
  }
}

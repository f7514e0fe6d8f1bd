/**
 The signing certificate of an APK, of internal/apkstore/signer.go: the ZIP end record leads to the
 central directory, the APK Signing Block stands before it, and its v3 (else v2) value nests
 length-prefixed fields down to the first signer's first certificate.
 */
module Signer {
  import opened Wrappers
  import opened BlockCache

  const TWO_TO_THE_32 := 0x1_0000_0000
  const TWO_TO_THE_63 := 0x8000_0000_0000_0000
  const TWO_TO_THE_64 := 0x1_0000_0000_0000_0000
  const MAX_BLOCK := 16_777_216
  const SIG_V2_ID := 0x7109871a
  const SIG_V3_ID := 0xf05368c0
  const END_RECORD: seq<byte> := [0x50, 0x4b, 0x05, 0x06]
  const MAGIC: seq<byte> := [65, 80, 75, 32, 83, 105, 103, 32, 66, 108, 111, 99, 107, 32, 52, 50]

  datatype SignError =
    | NotAZip | NoSigningBlock | BadBlockSize | BadPair | ShortField | BadFieldLength | EndOfFile | ReadFailed

  // ── Little-endian integers ─────────────────────────────────────────────────

  function Pow256(k: nat): nat {
    if k == 0 then 1 else 256 * Pow256(k - 1)
  }

  function Le(b: seq<byte>): nat {
    if b == [] then 0 else b[0] + 256 * Le(b[1..])
  }

  function EncLe(n: nat, k: nat): (b: seq<byte>)
    ensures |b| == k
  {
    if k == 0 then [] else [n % 256] + EncLe(n / 256, k - 1)
  }

  lemma {:induction false} LeInverse(n: nat, k: nat)
    requires n < Pow256(k)
    ensures Le(EncLe(n, k)) == n
  {
    if k > 0 { LeInverse(n / 256, k - 1); }
  }

  lemma {:induction false} LeBound(b: seq<byte>)
    ensures Le(b) < Pow256(|b|)
  {
    if b != [] { LeBound(b[1..]); }
  }

  lemma PowValues()
    ensures Pow256(4) == TWO_TO_THE_32 && Pow256(8) == TWO_TO_THE_64
  {
    assert Pow256(2) == 65536;
    assert Pow256(4) == 256 * (256 * Pow256(2));
    assert Pow256(6) == 256 * (256 * Pow256(4));
    assert Pow256(8) == 256 * (256 * Pow256(6));
  }

  // ── The parser ─────────────────────────────────────────────────────────────

  /** A uint64 read as an int64. */
  function AsInt64(u: nat): int {
    if u >= TWO_TO_THE_63 then u - TWO_TO_THE_64 else u
  }

  /** One length-prefixed field. The end of the slice is a uint32 sum, which could wrap. */
  function Lp(b: seq<byte>): (r: Result<seq<byte>, SignError>)
    requires |b| < TWO_TO_THE_32
    ensures r.Ok? ==> |r.value| <= |b| - 4 && r.value == b[4..4 + |r.value|] && |r.value| == Le(b[..4])
    ensures r.Err? <==> |b| < 4 || Le(b[..4]) > |b| - 4
  {
    if |b| < 4 then Err(ShortField)
    else
      var n := Le(b[..4]);
      if n > |b| - 4 then Err(BadFieldLength)
      else Ok(b[4..(4 + n) % TWO_TO_THE_32])
  }

  function FirstCertificate(v: seq<byte>): Result<seq<byte>, SignError>
    requires |v| < TWO_TO_THE_32
  {
    var signers := Lp(v);
    if signers.Err? then signers else
    var signer := Lp(signers.value);
    if signer.Err? then signer else
    var signed := Lp(signer.value);
    if signed.Err? then signed else
    var digests := Lp(signed.value);
    if digests.Err? then digests else
    var certs := Lp(signed.value[4 + |digests.value|..]);
    if certs.Err? then certs else
    Lp(certs.value)
  }

  /** The ID-value pairs of a block from p on, later values of an ID replacing earlier ones. */
  function Values(p: seq<byte>, sofar: map<nat, seq<byte>>): Result<map<nat, seq<byte>>, SignError>
    decreases |p|
  {
    if |p| < 12 then Ok(sofar)
    else
      var n := Le(p[..8]);
      if n < 4 || n > |p| - 8 then Err(BadPair)
      else Values(p[8 + n..], sofar[Le(p[8..12]) := p[12..8 + n]])
  }

  function CertOf(values: map<nat, seq<byte>>): Result<seq<byte>, SignError>
    requires forall id <- values :: |values[id]| < TWO_TO_THE_32
  {
    if SIG_V3_ID in values then FirstCertificate(values[SIG_V3_ID])
    else if SIG_V2_ID in values then FirstCertificate(values[SIG_V2_ID])
    else Err(NoSigningBlock)
  }

  predicate At(buf: seq<byte>, sep: seq<byte>, i: int) {
    0 <= i <= |buf| - |sep| && buf[i..i + |sep|] == sep
  }

  /** The last place a separator occurs, or -1. */
  function LastIndex(buf: seq<byte>, sep: seq<byte>): (i: int)
    ensures -1 <= i <= |buf|
    ensures i >= 0 ==> At(buf, sep, i)
    ensures forall j :: j > i && j >= 0 ==> !At(buf, sep, j)
  {
    LastIndexFrom(buf, sep, |buf| - |sep|)
  }

  function LastIndexFrom(buf: seq<byte>, sep: seq<byte>, from: int): (i: int)
    requires from <= |buf| - |sep|
    ensures -1 <= i && (i <= from || i == -1)
    ensures i >= 0 ==> At(buf, sep, i)
    ensures forall j :: i < j <= from && j >= 0 ==> !At(buf, sep, j)
    decreases from + 1
  {
    if from < 0 then -1
    else if At(buf, sep, from) then from
    else LastIndexFrom(buf, sep, from - 1)
  }

  /** How much of the end of a file is searched for the end record. */
  function SearchLength(size: nat): nat {
    Min(65535 + 22, size)
  }

  function CentralDir(buf: seq<byte>): (r: Result<nat, SignError>)
    ensures r.Ok? || r.error == NotAZip
  {
    var i := LastIndex(buf, END_RECORD);
    if i < 0 || |buf| - i < 22 then Err(NotAZip) else Ok(Le(buf[i + 16..i + 20]))
  }

  /** Where the pairs start and how long they are, from the last 24 bytes before the central directory. */
  function BlockSpan(tail: seq<byte>, cd: nat): (r: Result<(nat, nat), SignError>)
    requires |tail| == 24 && cd >= 32
    ensures r.Ok? ==> r.value.0 + r.value.1 == cd - 24 && r.value.1 <= MAX_BLOCK
    ensures r.Err? ==> r.error in {NoSigningBlock, BadBlockSize}
  {
    if tail[8..] != MAGIC then Err(NoSigningBlock)
    else
      var blockSize := AsInt64(Le(tail[..8]));
      var start := cd - blockSize - 8;
      if blockSize < 24 || blockSize > MAX_BLOCK || start < 0 then Err(BadBlockSize)
      else Ok((start + 8, blockSize - 24))
  }

  /** The pairs of the signing block that ends where the central directory starts. */
  function BlockBody(file: seq<byte>, cd: nat): (r: Result<seq<byte>, SignError>)
    ensures r.Ok? ==> |r.value| <= MAX_BLOCK
  {
    if cd < 32 then Err(NoSigningBlock)
    else if cd > |file| then Err(EndOfFile)
    else
      var span := BlockSpan(file[cd - 24..cd], cd);
      if span.Err? then Err(span.error) else Ok(file[span.value.0..span.value.0 + span.value.1])
  }

  function CertIn(block: seq<byte>): Result<seq<byte>, SignError>
    requires |block| <= MAX_BLOCK
  {
    var values := Values(block, map[]);
    if values.Err? then Err(values.error)
    else
      ValuesFit(block, map[]);
      CertOf(values.value)
  }

  function FirstCert(file: seq<byte>): Result<seq<byte>, SignError> {
    var cd := CentralDir(file[|file| - SearchLength(|file|)..]);
    if cd.Err? then Err(cd.error)
    else
      var block := BlockBody(file, cd.value);
      if block.Err? then Err(block.error) else CertIn(block.value)
  }

  lemma {:induction false} ValuesFit(p: seq<byte>, sofar: map<nat, seq<byte>>)
    requires |p| <= MAX_BLOCK && forall id <- sofar :: |sofar[id]| <= MAX_BLOCK
    ensures Values(p, sofar).Ok? ==> forall id <- Values(p, sofar).value :: |Values(p, sofar).value[id]| <= MAX_BLOCK
    decreases |p|
  {
    if |p| >= 12 {
      var n := Le(p[..8]);
      if 4 <= n <= |p| - 8 { ValuesFit(p[8 + n..], sofar[Le(p[8..12]) := p[12..8 + n]]); }
    }
  }

  lemma {:induction false} OnlyBadPairs(p: seq<byte>, sofar: map<nat, seq<byte>>)
    ensures Values(p, sofar).Ok? || Values(p, sofar).error == BadPair
    decreases |p|
  {
    if |p| >= 12 {
      var n := Le(p[..8]);
      if 4 <= n <= |p| - 8 { OnlyBadPairs(p[8 + n..], sofar[Le(p[8..12]) := p[12..8 + n]]); }
    }
  }

  // ── Reading through the block cache ────────────────────────────────────────

  method ReadBytes(r: S3ReaderAt, off: nat, len: nat) returns (b: seq<byte>, err: ReadError)
    requires r.Valid()
    modifies r
    ensures r.Valid() && (r.agrees ==> old(r.agrees))
    ensures err != Failed ==> (err == EOF <==> |b| < len)
    ensures err == NoError && r.agrees && len > 0 ==> off + len <= r.size && b == r.image[off..off + len]
    ensures err == EOF ==> off + len > r.size
    ensures err == NoError ==> |b| == len
    ensures err == Failed ==> r.LastRefused()
  {
    var p := new byte[len];
    var n, e := r.ReadAt(p, off);
    b, err := p[..n], e;
  }

  method CentralDirOffset(r: S3ReaderAt) returns (res: Result<nat, SignError>)
    requires r.Valid()
    modifies r
    ensures r.Valid() && (r.agrees ==> old(r.agrees))
    ensures r.agrees && res != Err(ReadFailed) ==>
              res == CentralDir(r.image[r.size - SearchLength(r.size)..])
    ensures res.Ok? || res.error in {NotAZip, ReadFailed}
    ensures res == Err(ReadFailed) ==> r.LastRefused()
  {
    var n := 65535 + 22;
    if n > r.size {
      n := r.size;
    }
    var buf, err := ReadBytes(r, r.size - n, n);
    if err == Failed {
      return Err(ReadFailed);
    }
    assert r.agrees ==> buf == r.image[r.size - n..];
    return CentralDir(buf);
  }

  /** The loop over the pairs of a block. */
  method ReadPairs(block: seq<byte>) returns (res: Result<map<nat, seq<byte>>, SignError>)
    ensures res == Values(block, map[])
  {
    var values: map<nat, seq<byte>> := map[];
    var p := block;
    while |p| >= 12
      invariant Values(p, values) == Values(block, map[])
      decreases |p|
    {
      var n := Le(p[..8]);
      if n < 4 || n > |p| - 8 {
        return Err(BadPair);
      }
      var id := Le(p[8..12]);
      values := values[id := p[12..8 + n]];
      p := p[8 + n..];
    }
    return Ok(values);
  }

  lemma BodyAt(file: seq<byte>, cd: nat)
    requires 32 <= cd <= |file|
    ensures var span := BlockSpan(file[cd - 24..cd], cd);
            BlockBody(file, cd) ==
              if span.Err? then Err(span.error) else Ok(file[span.value.0..span.value.0 + span.value.1])
  {
  }

  /** The 24 bytes before the central directory. */
  method ReadTail(r: S3ReaderAt, cdOffset: nat) returns (tail: Result<seq<byte>, SignError>)
    requires r.Valid() && cdOffset >= 32
    modifies r
    ensures r.Valid() && (r.agrees ==> old(r.agrees))
    ensures tail.Ok? ==> |tail.value| == 24
    ensures tail.Ok? && r.agrees ==> cdOffset <= r.size && tail.value == r.image[cdOffset - 24..cdOffset]
    ensures tail.Err? ==>
              if tail.error == ReadFailed then r.LastRefused() else tail.error == EndOfFile && cdOffset > r.size
  {
    var b, err := ReadBytes(r, cdOffset - 24, 24);
    if err != NoError {
      return Err(if err == EOF then EndOfFile else ReadFailed);
    }
    return Ok(b);
  }

  method ReadBlock(r: S3ReaderAt, cdOffset: nat) returns (res: Result<seq<byte>, SignError>)
    requires r.Valid()
    modifies r
    ensures r.Valid() && (r.agrees ==> old(r.agrees))
    ensures res.Ok? ==> |res.value| <= MAX_BLOCK
    ensures r.agrees ==> res == Err(ReadFailed) || res == BlockBody(r.image, cdOffset)
    ensures res == Err(ReadFailed) ==> r.LastRefused()
  {
    if cdOffset < 32 {
      return Err(NoSigningBlock);
    }
    var tail := ReadTail(r, cdOffset);
    if tail.Err? {
      return Err(tail.error);
    }
    if r.agrees { BodyAt(r.image, cdOffset); }
    ghost var was := r.agrees;
    var span := BlockSpan(tail.value, cdOffset);
    if span.Err? {
      return Err(span.error);
    }
    var block, e := ReadBytes(r, span.value.0, span.value.1);
    if e != NoError {
      return Err(if e == EOF then EndOfFile else ReadFailed);
    }
    if r.agrees {
      assert was && block == r.image[span.value.0..span.value.0 + span.value.1];
    }
    return Ok(block);
  }

  /** For any file, and any state of the block cache: unless the network fails, the answer is the parser's
      answer on what the transfers showed, which is the file's own bytes when none was cut short. */
  method FirstCertFromReaderAt(r: S3ReaderAt) returns (res: Result<seq<byte>, SignError>)
    requires r.Valid()
    modifies r
    ensures r.Valid() && (r.agrees ==> old(r.agrees))
    ensures r.agrees ==> res == Err(ReadFailed) || res == FirstCert(r.image)
    ensures res == Err(ReadFailed) ==> r.LastRefused()
  {
    var cd := CentralDirOffset(r);
    if cd.Err? {
      return Err(cd.error);
    }
    var block := ReadBlock(r, cd.value);
    if block.Err? {
      return block;
    }
    res := CertOfBlock(block.value);
    if r.agrees {
      CertOfFile(r.image, cd.value, block.value);
    }
  }

  /** The pairs of the block, and the certificate of the scheme preferred. */
  method CertOfBlock(block: seq<byte>) returns (res: Result<seq<byte>, SignError>)
    requires |block| <= MAX_BLOCK
    ensures res == CertIn(block) && res != Err(ReadFailed)
  {
    var values := ReadPairs(block);
    OnlyBadPairs(block, map[]);
    if values.Err? {
      return Err(values.error);
    }
    ValuesFit(block, map[]);
    res := CertOf(values.value);
  }

  lemma CertOfFile(file: seq<byte>, cd: nat, block: seq<byte>)
    requires CentralDir(file[|file| - SearchLength(|file|)..]) == Ok(cd) && BlockBody(file, cd) == Ok(block)
    ensures FirstCert(file) == CertIn(block)
  {
  }

  // ── The writer ─────────────────────────────────────────────────────────────

  function Field(b: seq<byte>): (f: seq<byte>)
    ensures |f| == 4 + |b|
  {
    EncLe(|b|, 4) + b
  }

  function Fields(bs: seq<seq<byte>>): seq<byte> {
    if bs == [] then [] else Field(bs[0]) + Fields(bs[1..])
  }

  /** A signer: the digests, certificates and further attributes it signs, then what follows. */
  datatype SignerInfo = SignerInfo(digests: seq<byte>, certs: seq<seq<byte>>, attributes: seq<byte>, rest: seq<byte>)

  function SignedData(s: SignerInfo): seq<byte> {
    Field(s.digests) + (Field(Fields(s.certs)) + s.attributes)
  }

  function SignerBytes(s: SignerInfo): seq<byte> {
    Field(SignedData(s)) + s.rest
  }

  function SignersFrom(ss: seq<SignerInfo>): seq<byte> {
    if ss == [] then [] else Field(SignerBytes(ss[0])) + SignersFrom(ss[1..])
  }

  /** The value of a v2 or v3 block. */
  function SignersValue(ss: seq<SignerInfo>): seq<byte> {
    Field(SignersFrom(ss))
  }

  datatype Pair = Pair(id: nat, value: seq<byte>)

  function PairBytes(p: Pair): (b: seq<byte>)
    ensures |b| == 12 + |p.value|
  {
    EncLe(4 + |p.value|, 8) + (EncLe(p.id, 4) + p.value)
  }

  function PairsBytes(ps: seq<Pair>): seq<byte> {
    if ps == [] then [] else PairBytes(ps[0]) + PairsBytes(ps[1..])
  }

  function SigningBlock(ps: seq<Pair>): (b: seq<byte>)
    ensures |b| == |PairsBytes(ps)| + 32
  {
    var size := EncLe(|PairsBytes(ps)| + 24, 8);
    size + PairsBytes(ps) + (size + MAGIC)
  }

  /** The end record: signature, twelve bytes of counts and size, directory offset, comment. */
  function EndRecord(counts: seq<byte>, cdOffset: nat, comment: seq<byte>): (b: seq<byte>)
    requires |counts| == 12
    ensures |b| == 22 + |comment|
  {
    END_RECORD + counts + EncLe(cdOffset, 4) + (EncLe(|comment|, 2) + comment)
  }

  datatype Apk = Apk(entries: seq<byte>, pairs: seq<Pair>, directory: seq<byte>, counts: seq<byte>, comment: seq<byte>)
  {
    function DirectoryOffset(): nat {
      |entries| + |SigningBlock(pairs)|
    }

    function Head(): seq<byte> {
      entries + SigningBlock(pairs)
    }

    function EncodeFile(): seq<byte>
      requires |counts| == 12
    {
      Head() + directory + EndRecord(counts, DirectoryOffset(), comment)
    }

    /** What a writer must keep to: the sizes fit their fields, and no later bytes look like the end
        record's signature. */
    ghost predicate WellFormed() {
      && |counts| == 12
      && |comment| <= 65535
      && DirectoryOffset() < TWO_TO_THE_32
      && |PairsBytes(pairs)| + 24 <= MAX_BLOCK
      && (forall p <- pairs :: p.id < TWO_TO_THE_32)
      && forall j :: j > DirectoryOffset() + |directory| ==> !At(EncodeFile(), END_RECORD, j)
    }
  }

  // ── Parsing undoes writing ─────────────────────────────────────────────────

  lemma LpField(b: seq<byte>, rest: seq<byte>)
    requires 4 + |b| + |rest| < TWO_TO_THE_32
    ensures Lp(Field(b) + rest) == Ok(b)
  {
    PowValues();
    LeInverse(|b|, 4);
    var f := Field(b) + rest;
    assert f[..4] == EncLe(|b|, 4);
    assert f[4..4 + |b|] == b;
  }

  /** Down the nesting of a written value: the first signer's first certificate. */
  lemma FirstCertificateOfWritten(ss: seq<SignerInfo>)
    requires |ss| > 0 && |ss[0].certs| > 0 && |SignersValue(ss)| < TWO_TO_THE_32
    ensures FirstCertificate(SignersValue(ss)) == Ok(ss[0].certs[0])
  {
    var s := ss[0];
    var signed, certs := SignedData(s), Fields(s.certs);
    assert SignersValue(ss) == Field(SignersFrom(ss)) + [];
    LpField(SignersFrom(ss), []);
    LpField(SignerBytes(s), SignersFrom(ss[1..]));
    LpField(signed, s.rest);
    LpField(s.digests, Field(certs) + s.attributes);
    assert signed[4 + |s.digests|..] == Field(certs) + s.attributes;
    LpField(certs, s.attributes);
    LpField(s.certs[0], Fields(s.certs[1..]));
  }

  /** The values a list of pairs leaves behind. */
  function Listed(ps: seq<Pair>, sofar: map<nat, seq<byte>>): map<nat, seq<byte>> {
    if ps == [] then sofar else Listed(ps[1..], sofar[ps[0].id := ps[0].value])
  }

  lemma PairParts(pair: Pair, rest: seq<byte>)
    requires pair.id < TWO_TO_THE_32 && |pair.value| <= MAX_BLOCK
    ensures var b, n := PairBytes(pair) + rest, 4 + |pair.value|;
            && Le(b[..8]) == n && Le(b[8..12]) == pair.id
            && b[12..8 + n] == pair.value && b[8 + n..] == rest
  {
    var b, n := PairBytes(pair) + rest, 4 + |pair.value|;
    PowValues();
    LeInverse(n, 8);
    LeInverse(pair.id, 4);
    assert b[..8] == EncLe(n, 8);
    assert b[8..12] == EncLe(pair.id, 4);
  }

  lemma {:induction false} ValuesOfWritten(ps: seq<Pair>, sofar: map<nat, seq<byte>>)
    requires |PairsBytes(ps)| <= MAX_BLOCK && forall p <- ps :: p.id < TWO_TO_THE_32
    ensures Values(PairsBytes(ps), sofar) == Ok(Listed(ps, sofar))
  {
    if ps != [] {
      PairParts(ps[0], PairsBytes(ps[1..]));
      ValuesOfWritten(ps[1..], sofar[ps[0].id := ps[0].value]);
    }
  }

  lemma {:induction false} ListedLast(ps: seq<Pair>, sofar: map<nat, seq<byte>>, k: nat)
    requires k < |ps| && forall j :: k < j < |ps| ==> ps[j].id != ps[k].id
    ensures ps[k].id in Listed(ps, sofar) && Listed(ps, sofar)[ps[k].id] == ps[k].value
  {
    if k > 0 {
      ListedLast(ps[1..], sofar[ps[0].id := ps[0].value], k - 1);
    } else {
      ListedKeeps(ps[1..], sofar[ps[0].id := ps[0].value], ps[0].id);
    }
  }

  lemma {:induction false} ListedKeeps(ps: seq<Pair>, sofar: map<nat, seq<byte>>, id: nat)
    requires forall p <- ps :: p.id != id
    ensures id in Listed(ps, sofar) <==> id in sofar
    ensures id in sofar ==> Listed(ps, sofar)[id] == sofar[id]
  {
    if ps != [] { ListedKeeps(ps[1..], sofar[ps[0].id := ps[0].value], id); }
  }

  lemma AtInSuffix(buf: seq<byte>, skipped: nat, sep: seq<byte>, i: nat)
    requires skipped <= |buf|
    ensures At(buf[skipped..], sep, i) <==> At(buf, sep, i + skipped)
  {
    if i + skipped + |sep| <= |buf| {
      assert buf[skipped..][i..i + |sep|] == buf[i + skipped..i + skipped + |sep|];
    }
  }

  lemma EndRecordParts(counts: seq<byte>, cdOffset: nat, comment: seq<byte>)
    requires |counts| == 12 && cdOffset < TWO_TO_THE_32
    ensures EndRecord(counts, cdOffset, comment)[..4] == END_RECORD
    ensures Le(EndRecord(counts, cdOffset, comment)[16..20]) == cdOffset
  {
    PowValues();
    LeInverse(cdOffset, 4);
    assert EndRecord(counts, cdOffset, comment)[16..20] == EncLe(cdOffset, 4);
  }

  /** Where the end record of a written file stands, and that nothing later looks like one. */
  lemma LastRecord(apk: Apk)
    requires apk.WellFormed()
    ensures var file, at := apk.EncodeFile(), apk.DirectoryOffset() + |apk.directory|;
            && file[at..] == EndRecord(apk.counts, apk.DirectoryOffset(), apk.comment)
            && At(file, END_RECORD, at) && (forall j :: j > at ==> !At(file, END_RECORD, j))
            && |file| - at == 22 + |apk.comment|
  {
    var file, at := apk.EncodeFile(), apk.DirectoryOffset() + |apk.directory|;
    EndRecordParts(apk.counts, apk.DirectoryOffset(), apk.comment);
    assert file[at..] == EndRecord(apk.counts, apk.DirectoryOffset(), apk.comment);
    assert file[at..at + 4] == file[at..][..4];
  }

  /** The last place in a suffix is the last place in the file, when the suffix holds it. */
  lemma LastInSuffix(file: seq<byte>, skipped: nat, sep: seq<byte>, at: nat)
    requires skipped <= at && skipped <= |file| && At(file, sep, at) && forall j :: j > at ==> !At(file, sep, j)
    ensures LastIndex(file[skipped..], sep) == at - skipped
  {
    AtInSuffix(file, skipped, sep, at - skipped);
    var i := LastIndex(file[skipped..], sep);
    if i >= 0 { AtInSuffix(file, skipped, sep, i); }
  }

  /** The end record of a written file is the one found. */
  lemma DirectoryFound(apk: Apk)
    requires apk.WellFormed()
    ensures var file := apk.EncodeFile();
            CentralDir(file[|file| - SearchLength(|file|)..]) == Ok(apk.DirectoryOffset())
  {
    var file, at := apk.EncodeFile(), apk.DirectoryOffset() + |apk.directory|;
    var skipped := |file| - SearchLength(|file|);
    LastRecord(apk);
    LastInSuffix(file, skipped, END_RECORD, at);
    EndRecordParts(apk.counts, apk.DirectoryOffset(), apk.comment);
    SameBytes(file, skipped, at, 16, 20);
    RecordRead(file[skipped..], at - skipped);
  }

  lemma RecordRead(buf: seq<byte>, i: int)
    requires i == LastIndex(buf, END_RECORD) >= 0 && |buf| - i >= 22
    ensures CentralDir(buf) == Ok(Le(buf[i + 16..i + 20]))
  {}

  lemma SameBytes(file: seq<byte>, skipped: nat, at: nat, a: nat, b: nat)
    requires skipped <= at && a <= b && at + b <= |file|
    ensures file[skipped..][at - skipped + a..at - skipped + b] == file[at..][a..b]
  {}

  /** The block written before the directory is the one read, without its sizes and magic. */
  lemma BlockFound(apk: Apk)
    requires apk.WellFormed()
    ensures BlockBody(apk.EncodeFile(), apk.DirectoryOffset()) == Ok(PairsBytes(apk.pairs))
  {
    var file, cd := apk.EncodeFile(), apk.DirectoryOffset();
    var block, body := SigningBlock(apk.pairs), PairsBytes(apk.pairs);
    var size := EncLe(|body| + 24, 8);
    PowValues();
    LeInverse(|body| + 24, 8);
    var from := |apk.entries|;
    assert file[from..cd] == block;
    assert file[cd - 24..cd] == block[|body| + 8..] == size + MAGIC;
    assert (size + MAGIC)[..8] == size && (size + MAGIC)[8..] == MAGIC;
    assert file[from + 8..from + 8 + |body|] == block[8..8 + |body|] == body;
  }

  /** Parsing a written file reaches the values that were written. */
  lemma ValuesFound(apk: Apk)
    requires apk.WellFormed()
    ensures var values := Listed(apk.pairs, map[]);
            && (forall id <- values :: |values[id]| < TWO_TO_THE_32)
            && FirstCert(apk.EncodeFile()) == CertOf(values)
  {
    DirectoryFound(apk);
    BlockFound(apk);
    ValuesOfWritten(apk.pairs, map[]);
    ValuesFit(PairsBytes(apk.pairs), map[]);
  }

  /** The last value written under an ID is a signer list whose first certificate is cert. */
  ghost predicate Signs(ps: seq<Pair>, id: nat, ss: seq<SignerInfo>, cert: seq<byte>) {
    exists k :: 0 <= k < |ps| && ps[k] == Pair(id, SignersValue(ss))
                && (forall j :: k < j < |ps| ==> ps[j].id != id)
                && |ss| > 0 && |ss[0].certs| > 0 && ss[0].certs[0] == cert
  }

  /** A file signed with v3 gives its v3 certificate, whatever its v2 value holds. */
  lemma V3Preferred(apk: Apk, ss: seq<SignerInfo>, cert: seq<byte>)
    requires apk.WellFormed() && Signs(apk.pairs, SIG_V3_ID, ss, cert)
    ensures FirstCert(apk.EncodeFile()) == Ok(cert)
  {
    ValuesFound(apk);
    WrittenCert(apk, SIG_V3_ID, ss, cert);
  }

  /** A file without a v3 value gives its v2 certificate. */
  lemma V2WithoutV3(apk: Apk, ss: seq<SignerInfo>, cert: seq<byte>)
    requires apk.WellFormed() && Signs(apk.pairs, SIG_V2_ID, ss, cert)
    requires forall p <- apk.pairs :: p.id != SIG_V3_ID
    ensures FirstCert(apk.EncodeFile()) == Ok(cert)
  {
    ValuesFound(apk);
    ListedKeeps(apk.pairs, map[], SIG_V3_ID);
    WrittenCert(apk, SIG_V2_ID, ss, cert);
  }

  /** A file with neither is reported as unsigned. */
  lemma NeitherScheme(apk: Apk)
    requires apk.WellFormed() && forall p <- apk.pairs :: p.id != SIG_V3_ID && p.id != SIG_V2_ID
    ensures FirstCert(apk.EncodeFile()) == Err(NoSigningBlock)
  {
    ValuesFound(apk);
    ListedKeeps(apk.pairs, map[], SIG_V3_ID);
    ListedKeeps(apk.pairs, map[], SIG_V2_ID);
  }

  lemma WrittenCert(apk: Apk, id: nat, ss: seq<SignerInfo>, cert: seq<byte>)
    requires apk.WellFormed() && Signs(apk.pairs, id, ss, cert)
    ensures id in Listed(apk.pairs, map[])
    ensures var v := Listed(apk.pairs, map[])[id]; |v| < TWO_TO_THE_32 && FirstCertificate(v) == Ok(cert)
  {
    var k :| 0 <= k < |apk.pairs| && apk.pairs[k] == Pair(id, SignersValue(ss))
             && forall j :: k < j < |apk.pairs| ==> apk.pairs[j].id != id;
    ListedLast(apk.pairs, map[], k);
    ValuesFound(apk);
    FirstCertificateOfWritten(ss);
  }
}

/**
 What the signing-block parser of internal/apkstore/signer.go answers for any bytes, written file or not.
 */
module SignerAnswers {
  import opened Wrappers
  import opened BlockCache
  import opened Signer

  // ── The end record ─────────────────────────────────────────────────────────

  predicate SignatureAt(buf: seq<byte>, i: int) {
    0 <= i <= |buf| - 4 && buf[i..i + 4] == [0x50, 0x4b, 0x05, 0x06]
  }

  /** The signature of the end record stands there, with room for the record, and nowhere later. */
  ghost predicate LastRecordAt(buf: seq<byte>, i: int) {
    SignatureAt(buf, i) && |buf| - i >= 22 && forall j :: j > i ==> !SignatureAt(buf, j)
  }

  /** The offset is read from the last record, and a file whose last signature has no room for one, or that
      has none, is refused. */
  lemma DirectoryIff(buf: seq<byte>)
    ensures forall i :: LastRecordAt(buf, i) ==> CentralDir(buf) == Ok(Le(buf[i + 16..i + 20]))
    ensures (forall i :: !LastRecordAt(buf, i)) <==> CentralDir(buf) == Err(NotAZip)
  {
    assert forall j :: SignatureAt(buf, j) <==> At(buf, END_RECORD, j);
    var k := LastIndex(buf, END_RECORD);
    forall i | LastRecordAt(buf, i) ensures i == k {
      assert SignatureAt(buf, i) && !(k > i);
    }
    if k >= 0 && |buf| - k >= 22 {
      assert LastRecordAt(buf, k);
    }
  }

  // ── The block ──────────────────────────────────────────────────────────────

  lemma Within(file: seq<byte>, from: nat, to: nat, a: nat, b: nat)
    requires from <= to <= |file| && a <= b <= to - from
    ensures file[from..to][a..b] == file[from + a..from + b]
  {
    var inner, whole := file[from..to][a..b], file[from + a..from + b];
    forall i | 0 <= i < b - a ensures inner[i] == whole[i] {
      assert file[from..to][a + i] == file[from + (a + i)];
    }
    assert |inner| == |whole|;
  }

  lemma SizeField(b: seq<byte>)
    requires |b| == 8
    ensures Le(b) < TWO_TO_THE_64
  {
    PowValues();
    LeBound(b);
  }

  /** The block is refused in this order: no room for one, past the end of the file, no magic before the
      directory, a size that is too small, too big or more than there is. Else its pairs are read. A size with
      the top bit set, which the code takes for negative, is too big either way. */
  lemma BlockIs(file: seq<byte>, cd: nat)
    ensures BlockBody(file, cd) ==
              if cd < 32 then Err(NoSigningBlock)
              else if cd > |file| then Err(EndOfFile)
              else if file[cd - 16..cd] != MAGIC then Err(NoSigningBlock)
              else
                var size := Le(file[cd - 24..cd - 16]);
                if size < 24 || size > MAX_BLOCK || size + 8 > cd then Err(BadBlockSize)
                else Ok(file[cd - size..cd - 24])
  {
    if 32 <= cd <= |file| {
      var tail := file[cd - 24..cd];
      Within(file, cd - 24, cd, 0, 8);
      Within(file, cd - 24, cd, 8, 24);
      assert tail[8..] == tail[8..24];
      SizeField(tail[..8]);
      SpanOf(tail, cd);
    }
  }

  lemma SpanOf(tail: seq<byte>, cd: nat)
    requires |tail| == 24 && cd >= 32 && Le(tail[..8]) < TWO_TO_THE_64
    ensures var size := Le(tail[..8]);
            BlockSpan(tail, cd) ==
              if tail[8..] != MAGIC then Err(NoSigningBlock)
              else if size < 24 || size > MAX_BLOCK || size + 8 > cd then Err(BadBlockSize)
              else Ok((cd - size, size - 24))
  {
  }

  /** A file without the magic before its directory is unsigned, whatever else it holds. */
  lemma NoMagicUnsigned(file: seq<byte>, i: int)
    requires var tail := file[|file| - SearchLength(|file|)..];
             && LastRecordAt(tail, i)
             && var cd := Le(tail[i + 16..i + 20]);
                cd < 32 || (cd <= |file| && file[cd - 16..cd] != MAGIC)
    ensures FirstCert(file) == Err(NoSigningBlock)
  {
    var tail := file[|file| - SearchLength(|file|)..];
    DirectoryIff(tail);
    BlockIs(file, Le(tail[i + 16..i + 20]));
  }

  // ── The nesting ────────────────────────────────────────────────────────────

  lemma {:induction false} EncodeInverse(b: seq<byte>)
    ensures EncLe(Le(b), |b|) == b
  {
    if b != [] {
      EncodeInverse(b[1..]);
      assert Le(b) % 256 == b[0] && Le(b) / 256 == Le(b[1..]);
    }
  }

  /** A field is read exactly when the bytes start with it. */
  lemma FieldIff(b: seq<byte>, f: seq<byte>)
    requires |b| < TWO_TO_THE_32
    ensures Lp(b) == Ok(f) <==> Field(f) <= b
  {
    if Lp(b) == Ok(f) {
      FieldRead(b, f);
    }
    if Field(f) <= b {
      LpField(f, b[4 + |f|..]);
      assert b == Field(f) + b[4 + |f|..];
    }
  }

  lemma FieldRead(b: seq<byte>, f: seq<byte>)
    requires |b| < TWO_TO_THE_32 && Lp(b) == Ok(f)
    ensures Field(f) <= b
  {
    EncodeInverse(b[..4]);
    assert Field(f) == b[..4] + b[4..4 + |f|] == b[..4 + |f|];
  }

  /** Each of these is the first field of the one before; the certificates come after the digests. */
  predicate Nests(v: seq<byte>, signers: seq<byte>, signer: seq<byte>, signed: seq<byte>, digests: seq<byte>,
                  certs: seq<byte>, cert: seq<byte>)
  {
    && Field(signers) <= v && Field(signer) <= signers && Field(signed) <= signer && Field(digests) <= signed
    && Field(certs) <= signed[4 + |digests|..] && Field(cert) <= certs
  }

  /** A certificate is found exactly in the bytes that nest so, whoever wrote them. */
  lemma CertificateIff(v: seq<byte>, cert: seq<byte>)
    requires |v| < TWO_TO_THE_32
    ensures FirstCertificate(v) == Ok(cert) <==>
              exists signers, signer, signed, digests, certs :: Nests(v, signers, signer, signed, digests, certs, cert)
  {
    if FirstCertificate(v) == Ok(cert) {
      WalkDown(v, cert);
    }
    if signers, signer, signed, digests, certs :| Nests(v, signers, signer, signed, digests, certs, cert) {
      FieldIff(v, signers);
      FieldIff(signers, signer);
      FieldIff(signer, signed);
      FieldIff(signed, digests);
      FieldIff(signed[4 + |digests|..], certs);
      FieldIff(certs, cert);
    }
  }

  lemma WalkDown(v: seq<byte>, cert: seq<byte>)
    requires |v| < TWO_TO_THE_32 && FirstCertificate(v) == Ok(cert)
    ensures exists signers, signer, signed, digests, certs :: Nests(v, signers, signer, signed, digests, certs, cert)
  {
    var signers := Lp(v).value;
    FieldIff(v, signers);
    var signer := Lp(signers).value;
    FieldIff(signers, signer);
    var signed := Lp(signer).value;
    FieldIff(signer, signed);
    var digests := Lp(signed).value;
    FieldIff(signed, digests);
    var certs := Lp(signed[4 + |digests|..]).value;
    FieldIff(signed[4 + |digests|..], certs);
    FieldIff(certs, cert);
    assert Nests(v, signers, signer, signed, digests, certs, cert);
  }
}

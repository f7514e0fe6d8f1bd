/**
 The allow-list matcher of internal/config/config.go: a loop that remembers only the last
 '*' it met, and falls back to it on a mismatch. Characters stand for bytes.
 */
module Glob {

  /** The language of a pattern: '*' stands for any run, everything else for itself. */
  ghost predicate Matches(pat: string, s: string)
    decreases |pat|
  {
    if pat == "" then s == ""
    else if pat[0] == '*' then exists k :: 0 <= k <= |s| && Matches(pat[1..], s[k..])
    else s != "" && s[0] == pat[0] && Matches(pat[1..], s[1..])
  }

  predicate AllStars(pat: string) {
    forall i :: 0 <= i < |pat| ==> pat[i] == '*'
  }

  /** What the loop returns when it continues from indices p and si with the saved star (-1: none)
      taken at position ss of the text. */
  predicate Run(pat: string, s: string, p: nat, si: nat, star: int, ss: nat)
    requires p <= |pat| && ss <= si <= |s| && -1 <= star < p
    decreases if star < 0 then |s| + 1 else |s| - ss, |pat| - p
  {
    if si == |s| then AllStars(pat[p..])
    else if p < |pat| && pat[p] == s[si] then Run(pat, s, p + 1, si + 1, star, ss)
    else if p < |pat| && pat[p] == '*' then Run(pat, s, p + 1, si, p, si)
    else if star != -1 then Run(pat, s, star + 1, ss + 1, star, ss + 1)
    else false
  }

  predicate GlobMatch(pat: string, s: string) {
    Run(pat, s, 0, 0, -1, 0)
  }

  method GlobMatchLoop(pattern: string, s: string) returns (matched: bool)
    ensures matched == GlobMatch(pattern, s)
    ensures matched ==> Matches(pattern, s)
    ensures StarOnlyLast(s) ==> matched == Matches(pattern, s)
  {
    var p, si := 0, 0;
    var star, ss := -1, 0;
    while si < |s|
      invariant p <= |pattern| && ss <= si <= |s| && -1 <= star < p
      invariant Run(pattern, s, p, si, star, ss) == GlobMatch(pattern, s)
      decreases if star < 0 then |s| + 1 else |s| - ss, |pattern| - p, |s| - si
    {
      if p < |pattern| && pattern[p] == s[si] {
        p, si := p + 1, si + 1;
      } else if p < |pattern| && pattern[p] == '*' {
        star, ss, p := p, si, p + 1;
      } else if star != -1 {
        p, ss := star + 1, ss + 1;
        si := ss;
      } else {
        Exact(pattern, s);
        return false;
      }
    }
    ghost var p0 := p;
    while p < |pattern| && pattern[p] == '*'
      invariant p0 <= p <= |pattern|
      invariant forall i :: p0 <= i < p ==> pattern[i] == '*'
    {
      p := p + 1;
    }
    assert p < |pattern| ==> pattern[p0..][p - p0] != '*';
    Exact(pattern, s);
    return p == |pattern|;
  }

  // ── Soundness: every text ──────────────────────────────────────────────────

  lemma {:induction false} StarsMatchEmpty(pat: string)
    ensures Matches(pat, "") <==> AllStars(pat)
  {
    if pat == "" {
    } else {
      StarsMatchEmpty(pat[1..]);
      if pat[0] == '*' {
        assert AllStars(pat) <==> AllStars(pat[1..]) by {
          if AllStars(pat[1..]) {
            forall i | 0 <= i < |pat| ensures pat[i] == '*' { assert i > 0 ==> pat[i] == pat[1..][i - 1]; }
          }
        }
        assert ""[0..] == "";
        assert Matches(pat[1..], "") ==> Matches(pat[1..], ""[0..]);
      }
    }
  }

  /** A '*' at the head may take k characters. */
  lemma StarTakes(pat: string, s: string, k: nat)
    requires pat != "" && pat[0] == '*' && k <= |s|
    ensures Matches(pat[1..], s[k..]) ==> Matches(pat, s)
    ensures Matches(pat, s[k..]) ==> Matches(pat, s)
  {
    if Matches(pat, s[k..]) {
      var j :| 0 <= j <= |s[k..]| && Matches(pat[1..], s[k..][j..]);
      assert s[k..][j..] == s[k + j..];
      assert Matches(pat[1..], s[k + j..]);
    }
  }

  /** If the loop answers yes from some point, the rest matches there, or from the saved star. */
  lemma {:induction false} Sound(pat: string, s: string, p: nat, si: nat, star: int, ss: nat)
    requires p <= |pat| && ss <= si <= |s| && -1 <= star < p
    requires star >= 0 ==> pat[star] == '*'
    ensures Run(pat, s, p, si, star, ss) ==>
              Matches(pat[p..], s[si..]) || (star >= 0 && Matches(pat[star..], s[ss..]))
    decreases if star < 0 then |s| + 1 else |s| - ss, |pat| - p
  {
    if si == |s| {
      StarsMatchEmpty(pat[p..]);
      assert s[si..] == "";
    } else if p < |pat| && pat[p] == s[si] {
      Sound(pat, s, p + 1, si + 1, star, ss);
      assert pat[p..][1..] == pat[p + 1..] && s[si..][1..] == s[si + 1..];
      if pat[p] == '*' { StarTakes(pat[p..], s[si..], 1); }
    } else if p < |pat| && pat[p] == '*' {
      Sound(pat, s, p + 1, si, p, si);
      assert pat[p..][1..] == pat[p + 1..] && s[si..][0..] == s[si..];
      StarTakes(pat[p..], s[si..], 0);
    } else if star != -1 {
      Sound(pat, s, star + 1, ss + 1, star, ss + 1);
      assert pat[star..][1..] == pat[star + 1..] && s[ss..][1..] == s[ss + 1..];
      StarTakes(pat[star..], s[ss..], 1);
    }
  }

  // ── Completeness: the last star subsumes the earlier ones ──────────────────

  /** No '*' in the text before its last character. */
  predicate StarOnlyLast(s: string) {
    forall i :: 0 <= i < |s| - 1 ==> s[i] != '*'
  }

  predicate NoStar(s: string) {
    forall i :: 0 <= i < |s| ==> s[i] != '*'
  }

  /** A star-free head of a pattern is consumed character by character. */
  lemma {:induction false} LiteralHead(lit: string, pat: string, t: string)
    requires NoStar(lit) && Matches(lit + pat, t)
    ensures |lit| <= |t| && t[..|lit|] == lit && Matches(pat, t[|lit|..])
  {
    if lit == "" {
      assert lit + pat == pat && t[0..] == t;
    } else {
      assert (lit + pat)[0] == lit[0] != '*';
      assert (lit + pat)[1..] == lit[1..] + pat;
      LiteralHead(lit[1..], pat, t[1..]);
      assert t[1..][|lit| - 1..] == t[|lit|..];
      assert t[..|lit|] == [t[0]] + t[1..][..|lit| - 1];
    }
  }

  /** A pattern that matches a text made of one '*' has no literal. */
  lemma {:induction false} MatchesOneStar(pat: string, t: string)
    requires Matches(pat, t) && |t| <= 1 && (t == "" || t[0] == '*')
    ensures AllStars(pat)
  {
    if pat != "" {
      assert pat[0] == '*';
      var k :| 0 <= k <= |t| && Matches(pat[1..], t[k..]);
      MatchesOneStar(pat[1..], t[k..]);
      forall i | 0 <= i < |pat| ensures pat[i] == '*' { assert i > 0 ==> pat[i] == pat[1..][i - 1]; }
    }
  }

  /** What the saved star still promises: the pattern after it matches strictly further on. */
  ghost predicate Later(pat: string, s: string, star: int, ss: nat)
    requires -1 <= star < |pat|
  {
    star >= 0 && exists j :: ss < j <= |s| && Matches(pat[star + 1..], s[j..])
  }

  /** A star met while an earlier one is saved loses nothing: whatever the earlier one could still
      reach, the new one reaches too. */
  lemma NewStarSubsumes(pat: string, s: string, p: nat, si: nat, star: int, ss: nat)
    requires -1 <= star < p < |pat| && ss <= si <= |s| && pat[p] == '*'
    requires star >= 0 ==> pat[star + 1..p] == s[ss..si] && NoStar(s[ss..si])
    requires Matches(pat[p..], s[si..]) || Later(pat, s, star, ss)
    ensures Matches(pat[p + 1..], s[si..]) || Later(pat, s, p, si)
  {
    var from := si;
    if !Matches(pat[p..], s[si..]) {
      var j :| ss < j <= |s| && Matches(pat[star + 1..], s[j..]);
      var lit := pat[star + 1..p];
      assert pat[star + 1..] == lit + pat[p..];
      LiteralHead(lit, pat[p..], s[j..]);
      assert s[j..][|lit|..] == s[j + |lit|..];
      from := j + |lit|;
    }
    assert Matches(pat[p..], s[from..]) && si <= from;
    assert pat[p..][1..] == pat[p + 1..];
    var k :| 0 <= k <= |s[from..]| && Matches(pat[p..][1..], s[from..][k..]);
    assert s[from..][k..] == s[from + k..];
  }

  lemma {:induction false} Complete(pat: string, s: string, p: nat, si: nat, star: int, ss: nat)
    requires p <= |pat| && ss <= si <= |s| && -1 <= star < p
    requires StarOnlyLast(s)
    requires star >= 0 ==> pat[star] == '*' && pat[star + 1..p] == s[ss..si] && NoStar(s[ss..si])
    requires Matches(pat[p..], s[si..]) || Later(pat, s, star, ss)
    ensures Run(pat, s, p, si, star, ss)
    decreases if star < 0 then |s| + 1 else |s| - ss, |pat| - p
  {
    if si == |s| || (p < |pat| && pat[p] == s[si] == '*') {
      AtTheEnd(pat, s, p, si, star, ss);
    } else if p < |pat| && pat[p] == s[si] {
      LiteralStep(pat, s, p, si, star, ss);
      Complete(pat, s, p + 1, si + 1, star, ss);
    } else if p < |pat| && pat[p] == '*' {
      NewStarSubsumes(pat, s, p, si, star, ss);
      Complete(pat, s, p + 1, si, p, si);
    } else {
      Retry(pat, s, p, si, star, ss);
      Complete(pat, s, star + 1, ss + 1, star, ss + 1);
    }
  }

  lemma LiteralStep(pat: string, s: string, p: nat, si: nat, star: int, ss: nat)
    requires p < |pat| && ss <= si < |s| && -1 <= star < p && pat[p] == s[si] != '*'
    requires star >= 0 ==> pat[star + 1..p] == s[ss..si] && NoStar(s[ss..si])
    ensures Matches(pat[p..], s[si..]) ==> Matches(pat[p + 1..], s[si + 1..])
    ensures star >= 0 ==> pat[star + 1..p + 1] == s[ss..si + 1] && NoStar(s[ss..si + 1])
  {
    assert pat[p..][1..] == pat[p + 1..] && s[si..][1..] == s[si + 1..];
    if star >= 0 {
      assert pat[star + 1..p + 1] == pat[star + 1..p] + [pat[p]];
      assert s[ss..si + 1] == s[ss..si] + [s[si]];
    }
  }

  /** On a mismatch only the saved star can help, from one character further on. */
  lemma Retry(pat: string, s: string, p: nat, si: nat, star: int, ss: nat)
    requires p <= |pat| && ss <= si < |s| && -1 <= star < p
    requires p < |pat| ==> pat[p] != s[si] && pat[p] != '*'
    requires Matches(pat[p..], s[si..]) || Later(pat, s, star, ss)
    ensures star >= 0 && (Matches(pat[star + 1..], s[ss + 1..]) || Later(pat, s, star, ss + 1))
  {
    assert !Matches(pat[p..], s[si..]);
    var j :| ss < j <= |s| && Matches(pat[star + 1..], s[j..]);
    assert j == ss + 1 || Later(pat, s, star, ss + 1);
  }

  /** The two points where the text is used up: already, or by a literal '*' in last place. */
  lemma AtTheEnd(pat: string, s: string, p: nat, si: nat, star: int, ss: nat)
    requires p <= |pat| && ss <= si <= |s| && -1 <= star < p
    requires StarOnlyLast(s)
    requires star >= 0 ==> pat[star + 1..p] == s[ss..si] && NoStar(s[ss..si])
    requires Matches(pat[p..], s[si..]) || Later(pat, s, star, ss)
    requires si == |s| || (p < |pat| && pat[p] == s[si] == '*')
    ensures Run(pat, s, p, si, star, ss)
  {
    if !Matches(pat[p..], s[si..]) {
      var j :| ss < j <= |s| && Matches(pat[star + 1..], s[j..]);
      var lit := pat[star + 1..p];
      assert pat[star + 1..] == lit + pat[p..];
      LiteralHead(lit, pat[p..], s[j..]);
      assert s[j..][|lit|..] == "";
      MatchesOneStar(pat[p..], "");
    } else {
      MatchesOneStar(pat[p..], s[si..]);
    }
    assert AllStars(pat[p..]);
    if si < |s| {
      var rest := pat[p + 1..];
      forall i | 0 <= i < |rest| ensures rest[i] == '*' { assert rest[i] == pat[p..][i + 1]; }
      assert Run(pat, s, p + 1, si + 1, star, ss) == AllStars(pat[p + 1..]);
    }
  }

  lemma Exact(pat: string, s: string)
    ensures GlobMatch(pat, s) ==> Matches(pat, s)
    ensures StarOnlyLast(s) ==> GlobMatch(pat, s) == Matches(pat, s)
  {
    assert pat[0..] == pat && s[0..] == s;
    Sound(pat, s, 0, 0, -1, 0);
    if StarOnlyLast(s) && Matches(pat, s) { Complete(pat, s, 0, 0, -1, 0); }
  }

  // ── Where it is not complete ───────────────────────────────────────────────

  /** A pattern equal to a proper head of the text runs literally to its end and is refused. */
  lemma {:induction false} ProperHeadRefused(s: string, n: nat, i: nat)
    requires i <= n < |s|
    ensures !Run(s[..n], s, i, i, -1, 0)
    decreases n - i
  {
    if i < n { ProperHeadRefused(s, n, i + 1); }
  }

  lemma {:induction false} HeadWithStarMatches(s: string, k: nat)
    requires k < |s| && NoStar(s[..k])
    ensures Matches(s[..k] + "*", s)
  {
    if k == 0 {
      assert s[..0] + "*" == "*" && "*"[1..] == "";
      assert Matches("*"[1..], s[|s|..]);
    } else {
      assert (s[..k] + "*")[1..] == s[1..][..k - 1] + "*";
      assert s[..k][0] == s[0] != '*';
      var lit := s[1..][..k - 1];
      forall i | 0 <= i < |lit| ensures lit[i] != '*' { assert lit[i] == s[..k][i + 1]; }
      HeadWithStarMatches(s[1..], k - 1);
    }
  }

  /** A '*' before the last character: the head of the text up to that '*' is a pattern that
      matches the text and is refused, since the loop takes that '*' for a literal. */
  lemma Incomplete(s: string) returns (pat: string)
    requires !StarOnlyLast(s)
    ensures Matches(pat, s) && !GlobMatch(pat, s)
  {
    var k := FirstStar(s);
    pat := s[..k + 1];
    assert pat == s[..k] + "*";
    HeadWithStarMatches(s, k);
    ProperHeadRefused(s, k + 1, 0);
  }

  lemma {:induction false} FirstStar(s: string) returns (k: nat)
    requires !StarOnlyLast(s)
    ensures k < |s| - 1 && s[k] == '*' && NoStar(s[..k])
  {
    if s[0] == '*' {
      k := 0;
    } else {
      var i :| 0 <= i < |s| - 1 && s[i] == '*';
      assert s[1..][i - 1] == '*';
      var k' := FirstStar(s[1..]);
      k := k' + 1;
      forall i | 0 <= i < k ensures s[..k][i] != '*' { assert i > 0 ==> s[..k][i] == s[1..][..k'][i - 1]; }
    }
  }

  /** The exact reach of the matcher: it decides every pattern's language on a text if and only if
      the text has no '*' before its last character. */
  lemma ExactIffStarOnlyLast(s: string)
    ensures (forall pat :: GlobMatch(pat, s) == Matches(pat, s)) <==> StarOnlyLast(s)
  {
    if StarOnlyLast(s) {
      forall pat ensures GlobMatch(pat, s) == Matches(pat, s) { Exact(pat, s); }
    } else {
      var pat := Incomplete(s);
      assert GlobMatch(pat, s) != Matches(pat, s);
    }
  }

  /** One refused match, written out: "*a" against "*xa". */
  lemma StarInTextRefused()
    ensures Matches("*a", "*xa") && !GlobMatch("*a", "*xa")
  {
    var pat, s := "*a", "*xa";
    assert pat[1..] == "a" && s[2..] == "a" && "a"[1..] == "";
    assert Matches(pat[1..], s[2..]);
    assert !Run(pat, s, 1, 1, -1, 0);
  }

  // ── The allow list ─────────────────────────────────────────────────────────

  predicate IsSpace(c: char) {
    c == ' ' || '\t' <= c <= '\r'
  }

  function TrimLeft(s: string): string {
    if s != "" && IsSpace(s[0]) then TrimLeft(s[1..]) else s
  }

  function TrimSpace(s: string): string {
    TrimRight(TrimLeft(s))
  }

  function TrimRight(s: string): string {
    if s != "" && IsSpace(s[|s| - 1]) then TrimRight(s[..|s| - 1]) else s
  }

  /** The blanks are the space and the five controls from tab to carriage return. */
  lemma BlanksAre(c: char)
    ensures IsSpace(c) <==> c as int in {9, 10, 11, 12, 13, 32}
  {
  }

  /** What is left of a text lies between its first and its last character that is not blank. */
  lemma {:induction false} TrimMeaning(s: string) returns (i: nat, j: nat)
    ensures i <= j <= |s| && TrimSpace(s) == s[i..j]
    ensures forall k :: 0 <= k < i || j <= k < |s| ==> IsSpace(s[k])
    ensures i < j ==> !IsSpace(s[i]) && !IsSpace(s[j - 1])
  {
    i := FirstKept(s);
    j := LastKept(TrimLeft(s));
    forall k | i + j <= k < |s| ensures IsSpace(s[k]) {
      assert s[k] == TrimLeft(s)[k - i];
    }
    j := i + j;
  }

  lemma {:induction false} FirstKept(s: string) returns (i: nat)
    ensures i <= |s| && TrimLeft(s) == s[i..] && (i < |s| ==> !IsSpace(s[i]))
    ensures forall k :: 0 <= k < i ==> IsSpace(s[k])
  {
    if s != "" && IsSpace(s[0]) {
      var rest := FirstKept(s[1..]);
      i := rest + 1;
      forall k | 0 <= k < i ensures IsSpace(s[k]) {
        if k > 0 { assert s[k] == s[1..][k - 1]; }
      }
    } else {
      i := 0;
    }
  }

  lemma {:induction false} LastKept(s: string) returns (j: nat)
    ensures j <= |s| && TrimRight(s) == s[..j] && (j > 0 ==> !IsSpace(s[j - 1]))
    ensures forall k :: j <= k < |s| ==> IsSpace(s[k])
  {
    if s != "" && IsSpace(s[|s| - 1]) {
      j := LastKept(s[..|s| - 1]);
      forall k | j <= k < |s| ensures IsSpace(s[k]) {
        if k < |s| - 1 { assert s[k] == s[..|s| - 1][k]; }
      }
    } else {
      j := |s|;
    }
  }

  /** An entry lets a package through when it is not blank and the package is in its language. */
  ghost predicate Admits(entry: string, pkg: string) {
    TrimSpace(entry) != "" && Matches(TrimSpace(entry), pkg)
  }

  /** What an entry lets through as the matcher decides it. */
  predicate LetsThrough(entry: string, pkg: string) {
    TrimSpace(entry) != "" && GlobMatch(TrimSpace(entry), pkg)
  }

  class Config {
    var kioskAllowlist: seq<string>

    constructor (allowlist: seq<string>)
      ensures kioskAllowlist == allowlist
    {
      kioskAllowlist := allowlist;
    }

    /** An empty list admits everything, a list of blank entries nothing, any other list exactly what the
        matcher lets through; for a package name with no early '*' that is the union of the entries'
        languages. */
    method KioskAppAllowed(pkg: string) returns (allowed: bool)
      ensures allowed <==> kioskAllowlist == [] || exists e :: e in kioskAllowlist && LetsThrough(e, pkg)
      ensures allowed ==> kioskAllowlist == [] || exists e :: e in kioskAllowlist && Admits(e, pkg)
      ensures StarOnlyLast(pkg) ==>
                (allowed <==> kioskAllowlist == [] || exists e :: e in kioskAllowlist && Admits(e, pkg))
    {
      if |kioskAllowlist| == 0 {
        return true;
      }
      for i := 0 to |kioskAllowlist|
        invariant forall e :: e in kioskAllowlist[..i] ==> !LetsThrough(e, pkg)
      {
        assert forall e :: e in kioskAllowlist[..i + 1] <==> e in kioskAllowlist[..i] || e == kioskAllowlist[i];
        Exact(TrimSpace(kioskAllowlist[i]), pkg);
        var pat := TrimSpace(kioskAllowlist[i]);
        if pat != "" {
          var matched := GlobMatchLoop(pat, pkg);
          if matched {
            assert LetsThrough(kioskAllowlist[i], pkg) && Admits(kioskAllowlist[i], pkg);
            return true;
          }
        }
      }
      assert kioskAllowlist[..|kioskAllowlist|] == kioskAllowlist;
      forall e | e in kioskAllowlist && StarOnlyLast(pkg) ensures !Admits(e, pkg) {
        Exact(TrimSpace(e), pkg);
      }
      return false;
    }
  }
}

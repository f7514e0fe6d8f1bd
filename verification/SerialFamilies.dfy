/**
 Hardware families learned from the serials of enrolled devices, of internal/dashboard/app_classify.go.
 */
module SerialFamilies {
  import opened Wrappers
  import opened Grouping
  import Glob

  datatype Sample = Sample(serial: string, manufacturer: string, model: string, deviceClass: string)

  datatype Family = Family(title: string, prefix: string, length: int, deviceClass: string, count: nat)

  predicate Fabricated(s: string) {
    "android-" <= s || "msm-" <= s || "unknown-" <= s
  }

  predicate Usable(f: Sample) {
    !Fabricated(f.serial) && Glob.TrimSpace(f.model) != ""
  }

  function Lower(s: string): string {
    seq(|s|, i requires 0 <= i < |s| => if 'A' <= s[i] <= 'Z' then ((s[i] as int) + 32) as char else s[i])
  }

  /** Manufacturer and model, as they name a group. */
  function GroupKey(): Sample -> string {
    (f: Sample) => Lower(Glob.TrimSpace(f.manufacturer)) + "|" + Lower(Glob.TrimSpace(f.model))
  }

  function Title(f: Sample): string {
    Glob.TrimSpace(Glob.TrimSpace(f.manufacturer) + " " + Glob.TrimSpace(f.model))
  }

  function LengthOf(): Sample -> int { (f: Sample) => |f.serial| }
  function ClassOf(): Sample -> string { (f: Sample) => f.deviceClass }
  function UsableOf(): Sample -> bool { (f: Sample) => Usable(f) }

  // ── Common prefixes ────────────────────────────────────────────────────────

  function CommonPrefix(a: string, b: string): string {
    if a == "" || b == "" || a[0] != b[0] then "" else [a[0]] + CommonPrefix(a[1..], b[1..])
  }

  lemma {:induction false} CommonPrefixIsLongest(a: string, b: string, p: string)
    ensures CommonPrefix(a, b) <= a && CommonPrefix(a, b) <= b
    ensures p <= a && p <= b ==> p <= CommonPrefix(a, b)
  {
    if a != "" && b != "" && a[0] == b[0] {
      CommonPrefixIsLongest(a[1..], b[1..], if p == "" then "" else p[1..]);
      if p <= a && p <= b && p != "" {
        assert p[1..] <= a[1..] && p[1..] <= b[1..] && p == [p[0]] + p[1..];
      }
    }
  }

  lemma LongestIsCommonPrefix(a: string, b: string, n: nat)
    requires n <= |a| && n <= |b| && a[..n] == b[..n] && (n == |a| || n == |b| || a[n] != b[n])
    ensures CommonPrefix(a, b) == a[..n]
  {
    CommonPrefixIsLongest(a, b, a[..n]);
    var p := CommonPrefix(a, b);
    if n < |p| {
      assert false;
    }
  }

  method CommonPrefixLoop(a: string, b: string) returns (p: string)
    ensures p == CommonPrefix(a, b)
  {
    var n := 0;
    while n < |a| && n < |b| && a[n] == b[n]
      invariant n <= |a| && n <= |b| && a[..n] == b[..n]
    {
      n := n + 1;
    }
    LongestIsCommonPrefix(a, b, n);
    p := a[..n];
  }

  /** The prefix folded over some samples. */
  function Folded(ms: seq<Sample>): string
    requires ms != []
  {
    if |ms| == 1 then ms[0].serial else CommonPrefix(Folded(ms[..|ms| - 1]), ms[|ms| - 1].serial)
  }

  /** The fold is the longest prefix the serials have in common. */
  lemma {:induction false} FoldedIsLongest(ms: seq<Sample>, q: string)
    requires ms != []
    ensures forall m <- ms :: Folded(ms) <= m.serial
    ensures q <= Folded(ms) <==> forall m <- ms :: q <= m.serial
  {
    if |ms| > 1 {
      var init, last := ms[..|ms| - 1], ms[|ms| - 1];
      FoldedIsLongest(init, q);
      CommonPrefixIsLongest(Folded(init), last.serial, q);
      assert forall m :: m in ms <==> m in init || m == last;
      assert Folded(ms) <= Folded(init) && Folded(ms) <= last.serial;
    }
  }

  // ── What a group teaches ───────────────────────────────────────────────────

  function OfLength(ms: seq<Sample>, l: int): seq<Sample> {
    Group(ms, LengthOf(), l)
  }

  function OfClass(ms: seq<Sample>, c: string): seq<Sample> {
    Group(ms, ClassOf(), c)
  }

  /** The most common serial length, the longer of equals. */
  ghost predicate Modal(ms: seq<Sample>, l: int) {
    OfLength(ms, l) != [] &&
    forall k: int :: |OfLength(ms, k)| < |OfLength(ms, l)| || (|OfLength(ms, k)| == |OfLength(ms, l)| && k <= l)
  }

  /** The order of Go strings. */
  predicate Less(a: string, b: string) {
    b != "" && (a == "" || a[0] < b[0] || (a[0] == b[0] && Less(a[1..], b[1..])))
  }

  lemma {:induction false} LessIsTotal(a: string, b: string)
    ensures a == b || Less(a, b) || Less(b, a)
    ensures !(Less(a, b) && Less(b, a)) && !Less(a, a)
  {
    if a != "" {
      LessIsTotal(a[1..], a[1..]);
      if b != "" {
        LessIsTotal(a[1..], b[1..]);
        assert a == [a[0]] + a[1..] && b == [b[0]] + b[1..];
      }
    }
  }

  lemma {:induction false} LessTrans(a: string, b: string, c: string)
    requires Less(a, b) && Less(b, c)
    ensures Less(a, c)
  {
    if a != "" && a[0] == b[0] == c[0] { LessTrans(a[1..], b[1..], c[1..]); }
  }

  /** The first character that differs decides, and a text comes before its continuations. */
  lemma {:induction false} LessMeaning(a: string, b: string, n: nat)
    requires n <= |a| && n <= |b| && a[..n] == b[..n]
    ensures n == |a| && n < |b| ==> Less(a, b)
    ensures n < |a| && n < |b| && a[n] < b[n] ==> Less(a, b) && !Less(b, a)
  {
    if n > 0 {
      assert a[0] == a[..n][0] == b[..n][0] == b[0];
      assert a[1..][..n - 1] == a[..n][1..] == b[..n][1..] == b[1..][..n - 1];
      LessMeaning(a[1..], b[1..], n - 1);
    }
  }

  /** c is ahead of d, or they are one: more members, or as many and an earlier name. */
  predicate AtLeastAsCommon(ms: seq<Sample>, c: string, d: string) {
    |OfClass(ms, d)| < |OfClass(ms, c)| || (|OfClass(ms, d)| == |OfClass(ms, c)| && !Less(d, c))
  }

  /** The most common class, the first by name of equals; none when no member has one. */
  ghost predicate Commonest(ms: seq<Sample>, c: string) {
    if c == "" then forall m <- ms :: m.deviceClass == ""
    else OfClass(ms, c) != [] && forall d :: d != "" ==> AtLeastAsCommon(ms, c, d)
  }

  /** The prefix that same-length serials give, if they give one. */
  function Scheme(same: seq<Sample>): Option<string>
    requires same != []
  {
    if |same| == 1 then
      var s := same[0].serial;
      var n := if |s| / 2 > 4 then |s| / 2 else 4;
      if n > |s| then None else Some(s[..n])
    else if |Folded(same)| < 4 then None
    else Some(Folded(same))
  }

  /** What may be learned from a group: nothing, or this family. */
  ghost predicate Teaches(ms: seq<Sample>, f: Option<Family>) {
    exists l: int :: Modal(ms, l) && TeachesAt(ms, l, f)
  }

  ghost predicate TeachesAt(ms: seq<Sample>, l: int, f: Option<Family>)
    requires OfLength(ms, l) != []
  {
    match f
    case None => Scheme(OfLength(ms, l)).None?
    case Some(g) =>
      && ms != []
      && Scheme(OfLength(ms, l)) == Some(g.prefix)
      && g.length == l
      && g.count == |OfLength(ms, l)|
      && Commonest(ms, g.deviceClass)
      && g.title == Title(ms[0])
  }

  // ── The loops ──────────────────────────────────────────────────────────────

  method CountBy<K(==, !new)>(ms: seq<Sample>, key: Sample -> K) returns (counts: map<K, nat>)
    ensures Counts(ms, key, counts)
  {
    counts := map[];
    for i := 0 to |ms|
      invariant Counts(ms[..i], key, counts)
    {
      var k := key(ms[i]);
      assert ms[..i + 1][..i] == ms[..i];
      counts := counts[k := (if k in counts then counts[k] else 0) + 1];
    }
    assert ms[..|ms|] == ms;
  }

  ghost predicate Counts<K(!new)>(ms: seq<Sample>, key: Sample -> K, counts: map<K, nat>) {
    forall k :: if k in counts then counts[k] == |Group(ms, key, k)| > 0 else Group(ms, key, k) == []
  }

  method ModalLength(ms: seq<Sample>) returns (bestLen: int)
    requires ms != []
    ensures Modal(ms, bestLen)
  {
    var lens := CountBy(ms, LengthOf());
    HasALength(ms);
    assert |ms[0].serial| in lens;
    bestLen := WalkLengths(lens);
    var most := |OfLength(ms, bestLen)|;
    forall k: int ensures |OfLength(ms, k)| < most || (|OfLength(ms, k)| == most && k <= bestLen) {
      assert k in lens || OfLength(ms, k) == [];
    }
  }

  /** The walk meets the lengths in any order. */
  method WalkLengths(lens: map<int, nat>) returns (bestLen: int)
    requires lens.Keys != {} && forall l <- lens :: lens[l] > 0
    ensures bestLen in lens && forall k <- lens :: lens[k] < lens[bestLen] || (lens[k] == lens[bestLen] && k <= bestLen)
  {
    var left := lens.Keys;
    bestLen := 0;
    var bestN := 0;
    while left != {}
      invariant left <= lens.Keys
      invariant bestN > 0 || left == lens.Keys
      invariant bestN > 0 ==> bestLen in lens && lens[bestLen] == bestN
      invariant forall k <- lens :: k in left || lens[k] < bestN || (lens[k] == bestN && k <= bestLen)
      decreases |left|
    {
      ghost var some := AnElement(left);
      var l :| l in left;
      left := left - {l};
      if lens[l] > bestN || (lens[l] == bestN && l > bestLen) {
        bestLen, bestN := l, lens[l];
      }
    }
  }

  lemma HasALength(ms: seq<Sample>)
    requires ms != []
    ensures OfLength(ms, |ms[0].serial|) != []
  {
    GroupHasItsMembers(ms, LengthOf(), |ms[0].serial|);
    assert ms[0] in ms && LengthOf()(ms[0]) == |ms[0].serial|;
    assert ms[0] in OfLength(ms, |ms[0].serial|);
  }

  method MostCommonClass(ms: seq<Sample>) returns (cls: string)
    ensures Commonest(ms, cls)
  {
    var classes := CountBy(ms, ClassOf());
    var left := classes.Keys - {""};
    cls := "";
    var clsN := 0;
    while left != {}
      invariant left <= classes.Keys - {""}
      invariant clsN > 0 || (left == classes.Keys - {""} && cls == "")
      invariant clsN > 0 ==> cls in classes.Keys - {""} - left && classes[cls] == clsN
      invariant forall d <- classes.Keys - {""} - left :: classes[d] < clsN || (classes[d] == clsN && !Less(d, cls))
      decreases |left|
    {
      var c :| c in left;
      left := left - {c};
      if classes[c] > clsN || (classes[c] == clsN && Less(c, cls)) {
        forall d ensures !Less(c, c) && (Less(d, c) && Less(c, cls) ==> Less(d, cls)) {
          LessIsTotal(c, c);
          if Less(d, c) && Less(c, cls) { LessTrans(d, c, cls); }
        }
        cls, clsN := c, classes[c];
      }
    }
    if cls == "" {
      forall m | m in ms ensures m.deviceClass == "" {
        GroupHasItsMembers(ms, ClassOf(), m.deviceClass);
        assert m in OfClass(ms, m.deviceClass);
        assert m.deviceClass in classes;
      }
    } else {
      forall d | d != "" ensures AtLeastAsCommon(ms, cls, d) {
        assert d in classes || OfClass(ms, d) == [];
      }
    }
  }

  method Learn(ms: seq<Sample>) returns (f: Option<Family>)
    requires ms != []
    ensures Teaches(ms, f)
  {
    var bestLen := ModalLength(ms);
    var same := [];
    for i := 0 to |ms|
      invariant same == OfLength(ms[..i], bestLen)
    {
      assert ms[..i + 1][..i] == ms[..i];
      if |ms[i].serial| == bestLen {
        same := same + [ms[i]];
      }
    }
    assert ms[..|ms|] == ms;
    var prefix := same[0].serial;
    assert same[..1] == [same[0]];
    for i := 1 to |same|
      invariant prefix == Folded(same[..i])
    {
      assert same[..i + 1][..i] == same[..i];
      prefix := CommonPrefixLoop(prefix, same[i].serial);
    }
    assert same[..|same|] == same;
    if |same| == 1 {
      var s := same[0].serial;
      var n := if |s| / 2 > 4 then |s| / 2 else 4;
      if n > |s| {
        assert TeachesAt(ms, bestLen, None);
        return None;
      }
      prefix := s[..n];
    }
    if |prefix| < 4 {
      assert TeachesAt(ms, bestLen, None);
      return None;
    }
    var cls := MostCommonClass(ms);
    f := Some(Family(Title(ms[0]), prefix, bestLen, cls, |same|));
    assert TeachesAt(ms, bestLen, f);
  }

  function Usables(samples: seq<Sample>): seq<Sample> {
    Keep(samples, UsableOf())
  }

  /** What each walked group taught. */
  ghost predicate Lessons(usable: seq<Sample>, walk: seq<string>, taught: seq<Option<Family>>) {
    && Distinct(walk) && |taught| == |walk|
    && forall i :: 0 <= i < |walk| ==> Teaches(Group(usable, GroupKey(), walk[i]), taught[i])
  }

  /** What all groups taught, in the order they were walked. */
  ghost predicate Taught(samples: seq<Sample>, walk: seq<string>, taught: seq<Option<Family>>) {
    && Lessons(Usables(samples), walk, taught)
    && forall k :: k in walk <==> k in Order(Usables(samples), GroupKey())
  }

  function Learned(taught: seq<Option<Family>>): seq<Family> {
    if taught == [] then []
    else
      var before, f := Learned(taught[..|taught| - 1]), taught[|taught| - 1];
      if f.Some? then before + [f.value] else before
  }

  /** The families are what the groups taught, in some order of the groups. */
  method BuildFamilies(samples: seq<Sample>) returns (out: seq<Family>)
    ensures exists walk, taught :: Taught(samples, walk, taught) && out == Learned(taught)
  {
    var usable := [];
    for i := 0 to |samples|
      invariant usable == Usables(samples[..i])
    {
      assert samples[..i + 1][..i] == samples[..i];
      if Fabricated(samples[i].serial) || Glob.TrimSpace(samples[i].model) == "" {
        continue;
      }
      usable := usable + [samples[i]];
    }
    assert samples[..|samples|] == samples;
    var order, groups := GroupBy(usable, GroupKey());
    var fs, walk, taught := LearnAll(usable, groups);
    out := fs;
    assert forall k :: k in groups.Keys <==> k in order;
    assert Taught(samples, walk, taught);
  }

  /** The walk meets the groups in any order. */
  method LearnAll(ghost usable: seq<Sample>, groups: map<string, seq<Sample>>)
    returns (out: seq<Family>, ghost walk: seq<string>, ghost taught: seq<Option<Family>>)
    requires forall k <- groups :: groups[k] == Group(usable, GroupKey(), k) && groups[k] != []
    ensures Lessons(usable, walk, taught) && out == Learned(taught)
    ensures forall k :: k in walk <==> k in groups.Keys
  {
    out, walk, taught := [], [], [];
    var left := groups.Keys;
    while left != {}
      invariant left <= groups.Keys && forall k :: k in walk <==> k in groups.Keys - left
      invariant Lessons(usable, walk, taught) && out == Learned(taught)
      decreases |left|
    {
      var k :| k in left;
      left := left - {k};
      var f := Learn(groups[k]);
      OneMoreLesson(usable, walk, taught, k, f);
      walk, taught := walk + [k], taught + [f];
      if f.Some? {
        out := out + [f.value];
      }
    }
  }

  lemma OneMoreLesson(usable: seq<Sample>, walk: seq<string>, taught: seq<Option<Family>>, k: string, f: Option<Family>)
    requires Lessons(usable, walk, taught) && k !in walk && Teaches(Group(usable, GroupKey(), k), f)
    ensures Lessons(usable, walk + [k], taught + [f]) && forall x :: x in walk + [k] <==> x in walk || x == k
    ensures Learned(taught + [f]) == if f.Some? then Learned(taught) + [f.value] else Learned(taught)
  {
    OneMoreDistinct(walk, k);
    assert (taught + [f])[..|taught|] == taught;
  }

  predicate Fits(serial: string, f: Family) {
    |serial| == f.length && f.prefix <= serial
  }

  /** fs[i] fits, no family that fits has a longer prefix, and none before it one as long. */
  ghost predicate FirstBest(serial: string, fs: seq<Family>, i: nat)
    requires i < |fs|
  {
    && Fits(serial, fs[i])
    && (forall f <- fs :: Fits(serial, f) ==> |f.prefix| <= |fs[i].prefix|)
    && forall j: nat :: j < i && Fits(serial, fs[j]) ==> |fs[j].prefix| < |fs[i].prefix|
  }

  ghost predicate BestFit(serial: string, fs: seq<Family>, best: Option<Family>) {
    if best.None? then forall f <- fs :: !Fits(serial, f)
    else exists i: nat :: i < |fs| && fs[i] == best.value && FirstBest(serial, fs, i)
  }

  method MatchFamily(serial: string, fs: seq<Family>) returns (best: Option<Family>)
    ensures BestFit(serial, fs, best)
  {
    best := None;
    ghost var at := 0;
    for i := 0 to |fs|
      invariant best.None? ==> forall f <- fs[..i] :: !Fits(serial, f)
      invariant best.Some? ==> 0 <= at < i && fs[at] == best.value && FirstBest(serial, fs[..i], at)
    {
      var f := fs[i];
      assert forall g :: g in fs[..i + 1] <==> g in fs[..i] || g == f;
      assert forall j :: 0 <= j < i ==> fs[j] in fs[..i];
      if |serial| == f.length && f.prefix <= serial && (best.None? || |f.prefix| > |best.value.prefix|) {
        best := Some(f);
        at := i;
      }
    }
    assert fs[..|fs|] == fs;
  }

  // ── What the loops come to ─────────────────────────────────────────────────

  lemma {:induction false} LearnedIffTaught(taught: seq<Option<Family>>)
    ensures forall f :: f in Learned(taught) <==> Some(f) in taught
  {
    if taught != [] {
      var init, last := taught[..|taught| - 1], taught[|taught| - 1];
      LearnedIffTaught(init);
      assert forall x :: x in taught <==> x in init || x == last;
    }
  }

  /** A group has one most common length. */
  lemma OneModalLength(ms: seq<Sample>, k: int, l: int)
    requires Modal(ms, k) && Modal(ms, l)
    ensures k == l
  {}

  /** A family's prefix fits every member of its group's most common length, and of two or more such members
      it is the longest that does; of one it is the first half, at least four characters. */
  lemma PrefixMeaning(ms: seq<Sample>, f: Family, q: string)
    requires Teaches(ms, Some(f))
    ensures Modal(ms, f.length) && f.count == |OfLength(ms, f.length)| > 0 && |f.prefix| >= 4
    ensures forall m <- ms :: |m.serial| == f.length ==> Fits(m.serial, f)
    ensures f.count >= 2 ==> (q <= f.prefix <==> forall m <- OfLength(ms, f.length) :: q <= m.serial)
    ensures f.count == 1 ==> |f.prefix| == if f.length / 2 > 4 then f.length / 2 else 4
  {
    var l :| Modal(ms, l) && TeachesAt(ms, l, Some(f));
    var same := OfLength(ms, l);
    GroupHasItsMembers(ms, LengthOf(), l);
    FoldedIsLongest(same, q);
    forall m | m in ms && |m.serial| == f.length ensures Fits(m.serial, f) {
      assert LengthOf()(m) == l;
      assert m in same;
      if |same| == 1 { assert m == same[0]; }
    }
    assert same[0] in same;
  }

  lemma {:induction false} GroupCounts<K>(xs: seq<Sample>, key: Sample -> K, k: K, x: Sample)
    ensures multiset(Group(xs, key, k))[x] == if key(x) == k then multiset(xs)[x] else 0
  {
    if xs != [] {
      GroupCounts(xs[..|xs| - 1], key, k, x);
      assert xs == xs[..|xs| - 1] + [xs[|xs| - 1]];
    }
  }

  /** A reordered list has reordered groups. */
  lemma GroupIgnoresOrder<K>(xs: seq<Sample>, ys: seq<Sample>, key: Sample -> K, k: K)
    requires multiset(xs) == multiset(ys)
    ensures multiset(Group(xs, key, k)) == multiset(Group(ys, key, k))
    ensures |Group(xs, key, k)| == |Group(ys, key, k)|
  {
    var a, b := Group(xs, key, k), Group(ys, key, k);
    forall x: Sample ensures multiset(a)[x] == multiset(b)[x] {
      GroupCounts(xs, key, k, x);
      GroupCounts(ys, key, k, x);
    }
    assert multiset(a) == multiset(b);
    assert |a| == |multiset(a)| && |b| == |multiset(b)|;
  }

  lemma SameCounts(ms: seq<Sample>, ns: seq<Sample>)
    requires multiset(ms) == multiset(ns)
    ensures forall l :: |OfLength(ms, l)| == |OfLength(ns, l)|
    ensures forall c :: |OfClass(ms, c)| == |OfClass(ns, c)|
  {
    forall l ensures |OfLength(ms, l)| == |OfLength(ns, l)| { GroupIgnoresOrder(ms, ns, LengthOf(), l); }
    forall c ensures |OfClass(ms, c)| == |OfClass(ns, c)| { GroupIgnoresOrder(ms, ns, ClassOf(), c); }
  }

  lemma SameScheme(a: seq<Sample>, b: seq<Sample>)
    requires a != [] && multiset(a) == multiset(b) && |a| == |b|
    ensures Scheme(a) == Scheme(b)
  {
    assert forall x :: x in a <==> x in multiset(b);
    FoldedIsLongest(a, Folded(b));
    FoldedIsLongest(b, Folded(a));
    assert Folded(a) == Folded(b);
    if |a| == 1 { assert a[0] in b; }
  }

  lemma OneCommonest(ms: seq<Sample>, ns: seq<Sample>, c: string, d: string)
    requires multiset(ms) == multiset(ns) && Commonest(ms, c) && Commonest(ns, d)
    ensures c == d
  {
    SameCounts(ms, ns);
    LessIsTotal(c, d);
    HasMember(ms, c);
    HasMember(ns, d);
    assert forall x :: x in ms <==> x in multiset(ns);
    if c != "" && d != "" {
      assert AtLeastAsCommon(ms, c, d) && AtLeastAsCommon(ns, d, c);
    }
  }

  lemma HasMember(ms: seq<Sample>, c: string)
    ensures OfClass(ms, c) != [] ==> exists m <- ms :: m.deviceClass == c
  {
    GroupHasItsMembers(ms, ClassOf(), c);
    if OfClass(ms, c) != [] { assert OfClass(ms, c)[0] in OfClass(ms, c); }
  }

  /** What is learned does not depend on the order of the samples or of any map, except that the title is
      spelled as in the first sample. */
  lemma OrderDoesNotShow(ms: seq<Sample>, ns: seq<Sample>, f: Option<Family>, g: Option<Family>)
    requires ms != [] && multiset(ms) == multiset(ns) && Teaches(ms, f) && Teaches(ns, g)
    ensures f.Some? <==> g.Some?
    ensures f.Some? ==> f.value == g.value.(title := Title(ms[0])) && g.value.title == Title(ns[0])
  {
    var k :| Modal(ms, k) && TeachesAt(ms, k, f);
    var l :| Modal(ns, l) && TeachesAt(ns, l, g);
    SameCounts(ms, ns);
    assert Modal(ns, k);
    OneModalLength(ns, k, l);
    GroupIgnoresOrder(ms, ns, LengthOf(), k);
    SameScheme(OfLength(ms, k), OfLength(ns, k));
    if f.Some? && g.Some? { OneCommonest(ms, ns, f.value.deviceClass, g.value.deviceClass); }
  }

  /** Nothing is learned exactly when the serials of the most common length share fewer than four
      characters, or the only one has fewer than four. */
  lemma NothingTaughtIff(ms: seq<Sample>, f: Option<Family>)
    requires ms != [] && Teaches(ms, f)
    ensures f.None? <==> exists l, m :: Modal(ms, l) && m in OfLength(ms, l) &&
                           (if |OfLength(ms, l)| == 1 then l < 4 else |Folded(OfLength(ms, l))| < 4)
  {
    var l :| Modal(ms, l) && TeachesAt(ms, l, f);
    GroupHasItsMembers(ms, LengthOf(), l);
    assert OfLength(ms, l)[0] in OfLength(ms, l);
    forall k | Modal(ms, k) ensures k == l { OneModalLength(ms, k, l); }
  }

  /** A usable sample whose serial has its group's most common length is recognised, by a prefix at least as
      long as its own family's, when its group taught one. */
  lemma MembersAreRecognised(samples: seq<Sample>, walk: seq<string>, taught: seq<Option<Family>>, m: Sample, i: nat,
                             best: Option<Family>)
    requires Taught(samples, walk, taught)
    requires m in samples && Usable(m) && i < |walk| && walk[i] == GroupKey()(m)
    requires taught[i].Some? && |m.serial| == taught[i].value.length
    requires BestFit(m.serial, Learned(taught), best)
    ensures best.Some? && Fits(m.serial, best.value) && |best.value.prefix| >= |taught[i].value.prefix|
  {
    var own, ms := taught[i].value, Group(Usables(samples), GroupKey(), walk[i]);
    KeepMembers(samples, UsableOf());
    assert UsableOf()(m);
    GroupHasItsMembers(Usables(samples), GroupKey(), walk[i]);
    assert m in ms;
    PrefixMeaning(ms, own, "");
    LearnedIffTaught(taught);
    assert own in Learned(taught);
  }
}

/**
 What order shows in the families learned from serials, of internal/dashboard/app_classify.go: the order of
 the samples in nothing but a title's spelling, the walk over Go's maps in which of two equally good
 families a serial is given to.
 */
module FamilyOrder {
  import opened Wrappers
  import opened Grouping
  import opened SerialFamilies
  import Glob

  // ── Reordered samples ──────────────────────────────────────────────────────

  lemma {:induction false} KeepCounts(xs: seq<Sample>, test: Sample -> bool, x: Sample)
    ensures multiset(Keep(xs, test))[x] == if test(x) then multiset(xs)[x] else 0
  {
    if xs != [] {
      KeepCounts(xs[..|xs| - 1], test, x);
      assert xs == xs[..|xs| - 1] + [xs[|xs| - 1]];
    }
  }

  lemma ReorderedGroups(samples: seq<Sample>, others: seq<Sample>, k: string)
    requires multiset(samples) == multiset(others)
    ensures var ms, ns := Group(Usables(samples), GroupKey(), k), Group(Usables(others), GroupKey(), k);
            multiset(ms) == multiset(ns) && (ms == [] <==> ns == [])
    ensures k in Order(Usables(samples), GroupKey()) <==> k in Order(Usables(others), GroupKey())
  {
    forall x: Sample ensures multiset(Usables(samples))[x] == multiset(Usables(others))[x] {
      KeepCounts(samples, UsableOf(), x);
      KeepCounts(others, UsableOf(), x);
    }
    assert multiset(Usables(samples)) == multiset(Usables(others));
    GroupIgnoresOrder(Usables(samples), Usables(others), GroupKey(), k);
    GroupEmptyIff(Usables(samples), GroupKey(), k);
    GroupEmptyIff(Usables(others), GroupKey(), k);
  }

  /** A lesson without the spelling of its title. */
  function Plain(f: Option<Family>): Option<Family> {
    if f.Some? then Some(f.value.(title := "")) else None
  }

  /** A group teaches the same, title aside, whatever the order of all the samples and the walk. */
  lemma SameLesson(samples: seq<Sample>, walk: seq<string>, taught: seq<Option<Family>>, i: nat,
                   others: seq<Sample>, otherWalk: seq<string>, otherTaught: seq<Option<Family>>, j: nat)
    requires multiset(samples) == multiset(others)
    requires Taught(samples, walk, taught) && Taught(others, otherWalk, otherTaught)
    requires i < |walk| && j < |otherWalk| && walk[i] == otherWalk[j]
    ensures Plain(taught[i]) == Plain(otherTaught[j])
    ensures samples == others ==> taught[i] == otherTaught[j]
  {
    var k := walk[i];
    assert k in walk;
    ReorderedGroups(samples, others, k);
    GroupEmptyIff(Usables(samples), GroupKey(), k);
    var ms, ns := Group(Usables(samples), GroupKey(), k), Group(Usables(others), GroupKey(), k);
    OrderDoesNotShow(ms, ns, taught[i], otherTaught[j]);
  }

  function Plains(taught: seq<Option<Family>>): seq<Option<Family>> {
    seq(|taught|, i requires 0 <= i < |taught| => Plain(taught[i]))
  }

  /** Two lists of values under the same distinct keys are one list reordered. */
  lemma {:induction false} SameUnderKeys(a: seq<string>, x: seq<Option<Family>>, b: seq<string>, y: seq<Option<Family>>)
    requires |a| == |x| && |b| == |y| && Distinct(a) && Distinct(b) && forall k :: k in a <==> k in b
    requires forall i, j :: 0 <= i < |a| && 0 <= j < |b| && a[i] == b[j] ==> x[i] == y[j]
    ensures multiset(x) == multiset(y)
  {
    assert |b| > 0 ==> b[0] in a;
    if a == [] {
      assert |b| == 0;
    } else {
      var n := |a| - 1;
      assert a[n] in b;
      var j :| 0 <= j < |b| && b[j] == a[n];
      KeysWithout(a, b, j);
      ValuesWithout(a, x, b, y, j);
      SameUnderKeys(a[..n], x[..n], Without(b, j), Without(y, j));
      WithoutOne(x, n);
      WithoutOne(y, j);
      assert Without(x, n) == x[..n];
    }
  }

  lemma ValuesWithout(a: seq<string>, x: seq<Option<Family>>, b: seq<string>, y: seq<Option<Family>>, j: nat)
    requires |a| == |x| && |b| == |y| && a != [] && j < |b|
    requires forall i, m :: 0 <= i < |a| && 0 <= m < |b| && a[i] == b[m] ==> x[i] == y[m]
    ensures var n, c, z := |a| - 1, Without(b, j), Without(y, j);
            |c| == |z| && forall i, m :: 0 <= i < n && 0 <= m < |c| && a[..n][i] == c[m] ==> x[..n][i] == z[m]
  {
    var c, z := Without(b, j), Without(y, j);
    forall m | 0 <= m < |c| ensures c[m] == b[if m < j then m else m + 1] && z[m] == y[if m < j then m else m + 1] {}
  }

  lemma KeysWithout(a: seq<string>, b: seq<string>, j: nat)
    requires Distinct(a) && Distinct(b) && forall k :: k in a <==> k in b
    requires a != [] && j < |b| && b[j] == a[|a| - 1]
    ensures Distinct(a[..|a| - 1]) && Distinct(Without(b, j))
    ensures forall k :: k in a[..|a| - 1] <==> k in Without(b, j)
  {
    var n, c := |a| - 1, Without(b, j);
    forall m | 0 <= m < |c| ensures c[m] == b[if m < j then m else m + 1] && c[m] in a && c[m] != a[n] {
      assert b[if m < j then m else m + 1] in b;
    }
    assert a == a[..n] + [a[n]];
    forall k | k in a[..n] ensures k in c {
      assert k in a && k in b;
      var i :| 0 <= i < n && a[i] == k;
      assert k != a[n];
      var m :| 0 <= m < |b| && b[m] == k;
      assert c[if m < j then m else m - 1] == k;
    }
  }

  lemma {:induction false} LearnedCounts(taught: seq<Option<Family>>, f: Family)
    ensures multiset(Learned(taught))[f] == multiset(taught)[Some(f)]
  {
    if taught != [] {
      var init, last := taught[..|taught| - 1], taught[|taught| - 1];
      LearnedCounts(init, f);
      assert taught == init + [last];
    }
  }

  lemma SameLearned(a: seq<Option<Family>>, b: seq<Option<Family>>)
    requires multiset(a) == multiset(b)
    ensures multiset(Learned(a)) == multiset(Learned(b))
  {
    forall f: Family ensures multiset(Learned(a))[f] == multiset(Learned(b))[f] {
      LearnedCounts(a, f);
      LearnedCounts(b, f);
    }
  }

  /** Whatever the order of the samples and of the walks over the maps, the same families are learned, each
      as often, title aside. */
  lemma SameFamilies(samples: seq<Sample>, walk: seq<string>, taught: seq<Option<Family>>,
                     others: seq<Sample>, otherWalk: seq<string>, otherTaught: seq<Option<Family>>)
    requires multiset(samples) == multiset(others)
    requires Taught(samples, walk, taught) && Taught(others, otherWalk, otherTaught)
    ensures multiset(Learned(Plains(taught))) == multiset(Learned(Plains(otherTaught)))
    ensures samples == others ==> multiset(Learned(taught)) == multiset(Learned(otherTaught))
  {
    forall k ensures k in walk <==> k in otherWalk {
      ReorderedGroups(samples, others, k);
    }
    forall i, j | 0 <= i < |walk| && 0 <= j < |otherWalk| && walk[i] == otherWalk[j]
      ensures Plains(taught)[i] == Plains(otherTaught)[j] && (samples == others ==> taught[i] == otherTaught[j])
    {
      SameLesson(samples, walk, taught, i, others, otherWalk, otherTaught, j);
    }
    SameUnderKeys(walk, Plains(taught), otherWalk, Plains(otherTaught));
    SameLearned(Plains(taught), Plains(otherTaught));
    if samples == others {
      SameUnderKeys(walk, taught, otherWalk, otherTaught);
      SameLearned(taught, otherTaught);
    }
  }

  // ── The walk in what is recognised ─────────────────────────────────────────

  /** Two families fit the serial, with the longest prefix that does. */
  predicate Clash(fs: seq<Family>, serial: string) {
    exists f <- fs, g <- fs :: f != g && Fits(serial, f) && Fits(serial, g) && |f.prefix| == |g.prefix|
                               && forall h <- fs :: Fits(serial, h) ==> |h.prefix| <= |f.prefix|
  }

  /** Some walk over the groups gives the serial this answer. */
  ghost predicate Answers(samples: seq<Sample>, serial: string, best: Option<Family>) {
    exists walk, taught :: Taught(samples, walk, taught) && BestFit(serial, Learned(taught), best)
  }

  lemma {:induction false} LearnedConcat(a: seq<Option<Family>>, b: seq<Option<Family>>)
    ensures Learned(a + b) == Learned(a) + Learned(b)
  {
    if b == [] {
      assert a + b == a;
    } else {
      assert (a + b)[..|a| + |b| - 1] == a + b[..|b| - 1];
      LearnedConcat(a, b[..|b| - 1]);
    }
  }

  /** A family that fits with the longest prefix is the answer of a walk that meets it first. */
  lemma FirstInSomeWalk(samples: seq<Sample>, walk: seq<string>, taught: seq<Option<Family>>, serial: string, f: Family)
    requires Taught(samples, walk, taught) && f in Learned(taught) && Fits(serial, f)
    requires forall h <- Learned(taught) :: Fits(serial, h) ==> |h.prefix| <= |f.prefix|
    ensures Answers(samples, serial, Some(f))
  {
    LearnedIffTaught(taught);
    var i :| 0 <= i < |taught| && taught[i] == Some(f);
    var first, lessons := Fronted(walk, i), Fronted(taught, i);
    FrontedWalk(samples, walk, taught, i);
    FrontedLessons(taught, i, f);
    forall h | h in Learned(lessons) && Fits(serial, h) ensures |h.prefix| <= |f.prefix| {
      assert h in Learned(taught);
    }
    assert FirstBest(serial, Learned(lessons), 0);
    assert BestFit(serial, Learned(lessons), Some(f));
  }

  lemma FrontedLessons(taught: seq<Option<Family>>, i: nat, f: Family)
    requires i < |taught| && taught[i] == Some(f)
    ensures var fs := Learned(Fronted(taught, i));
            fs != [] && fs[0] == f && forall h <- fs :: h in Learned(taught)
  {
    LearnedConcat([taught[i]], Without(taught, i));
    assert [taught[i]][..0] == [] && Learned([taught[i]]) == [f];
    LearnedIffTaught(taught);
    LearnedIffTaught(Fronted(taught, i));
  }

  /** A list with its i-th element moved to the front. */
  function Fronted<T>(xs: seq<T>, i: nat): (ys: seq<T>)
    requires i < |xs|
    ensures |ys| == |xs| && forall m :: 0 <= m < |ys| ==> ys[m] == xs[From(m, i)]
  {
    [xs[i]] + Without(xs, i)
  }

  lemma FrontedMembers<T>(xs: seq<T>, i: nat)
    requires i < |xs|
    ensures forall x :: x in Fronted(xs, i) <==> x in xs
    ensures Distinct(xs) ==> Distinct(Fronted(xs, i))
  {
    var ys := Fronted(xs, i);
    forall m | 0 <= m < |xs| ensures xs[m] in ys {
      assert ys[if m == i then 0 else if m < i then m + 1 else m] == xs[m];
    }
  }

  lemma FrontedWalk(samples: seq<Sample>, walk: seq<string>, taught: seq<Option<Family>>, i: nat)
    requires Taught(samples, walk, taught) && i < |walk|
    ensures Taught(samples, Fronted(walk, i), Fronted(taught, i))
  {
    FrontedMembers(walk, i);
  }

  /** Where the m-th of a list came from, when its i-th was moved to the front. */
  function From(m: nat, i: nat): nat {
    if m == 0 then i else if m <= i then m - 1 else m
  }

  lemma AnswersFit(samples: seq<Sample>, walk: seq<string>, taught: seq<Option<Family>>, serial: string,
                   best: Option<Family>)
    requires Taught(samples, walk, taught) && Answers(samples, serial, best)
    ensures best.None? ==> forall f <- Learned(taught) :: !Fits(serial, f)
    ensures best.Some? ==> best.value in Learned(taught) && Fits(serial, best.value)
    ensures best.Some? ==> forall h <- Learned(taught) :: Fits(serial, h) ==> |h.prefix| <= |best.value.prefix|
  {
    var w, t :| Taught(samples, w, t) && BestFit(serial, Learned(t), best);
    SameFamilies(samples, walk, taught, samples, w, t);
    SameMembers(Learned(taught), Learned(t));
  }

  lemma BothAnswer(samples: seq<Sample>, walk: seq<string>, taught: seq<Option<Family>>, serial: string)
    requires Taught(samples, walk, taught) && Clash(Learned(taught), serial)
    ensures exists a, b :: Answers(samples, serial, a) && Answers(samples, serial, b) && a != b
  {
    var fs := Learned(taught);
    var f, g :| f in fs && g in fs && f != g && Fits(serial, f) && Fits(serial, g) && |f.prefix| == |g.prefix|
                && forall h <- fs :: Fits(serial, h) ==> |h.prefix| <= |f.prefix|;
    FirstInSomeWalk(samples, walk, taught, serial, f);
    FirstInSomeWalk(samples, walk, taught, serial, g);
    assert Some(f) != Some(g);
  }

  /** Go's map order shows in which family a serial is given to exactly when two families fit it equally
      well: same length, same prefix. */
  lemma WalkShowsIff(samples: seq<Sample>, walk: seq<string>, taught: seq<Option<Family>>, serial: string)
    requires Taught(samples, walk, taught)
    ensures (forall a, b :: Answers(samples, serial, a) && Answers(samples, serial, b) ==> a == b)
       <==> !Clash(Learned(taught), serial)
  {
    var fs := Learned(taught);
    if Clash(fs, serial) {
      BothAnswer(samples, walk, taught, serial);
    } else {
      forall a, b | Answers(samples, serial, a) && Answers(samples, serial, b) ensures a == b {
        AnswersFit(samples, walk, taught, serial, a);
        AnswersFit(samples, walk, taught, serial, b);
      }
    }
  }

  // ── It happens ─────────────────────────────────────────────────────────────

  const KITCHEN := Sample("ABCDE1", "m", "x", "kitchen")
  const COUNTER := Sample("ABCDF2", "m", "y", "counter")

  const KITCHENS := Family("m x", "ABCD", 6, "kitchen", 1)
  const COUNTERS := Family("m y", "ABCD", 6, "counter", 1)

  lemma TwoLearned()
    ensures Learned([Some(KITCHENS), Some(COUNTERS)]) == [KITCHENS, COUNTERS]
    ensures Clash([KITCHENS, COUNTERS], "ABCDG3")
  {
    LearnedConcat([Some(KITCHENS)], [Some(COUNTERS)]);
    LearnedOne(KITCHENS);
    LearnedOne(COUNTERS);
    assert [Some(KITCHENS)] + [Some(COUNTERS)] == [Some(KITCHENS), Some(COUNTERS)];
    assert KITCHENS in [KITCHENS, COUNTERS] && COUNTERS in [KITCHENS, COUNTERS];
    assert "ABCDG3"[..4] == "ABCD";
  }

  lemma LearnedOne(f: Family)
    ensures Learned([Some(f)]) == [f]
  {
    assert [Some(f)][..0] == [];
  }

  lemma TwoGroups()
    ensures Usables([KITCHEN, COUNTER]) == [KITCHEN, COUNTER]
    ensures Order([KITCHEN, COUNTER], GroupKey()) == ["m|x", "m|y"]
    ensures Group([KITCHEN, COUNTER], GroupKey(), "m|x") == [KITCHEN]
    ensures Group([KITCHEN, COUNTER], GroupKey(), "m|y") == [COUNTER]
  {
    Names(KITCHEN, "x");
    Names(COUNTER, "y");
    assert KITCHEN.serial[0] == 'A' && COUNTER.serial[0] == 'A';
    assert ("m|" + "x")[2] == 'x' && ("m|" + "y")[2] == 'y';
    assert "m|" + "x" == "m|x" && "m|" + "y" == "m|y";
    KeepAll([KITCHEN, COUNTER], UsableOf());
    TwoGroupsOfOne(KITCHEN, COUNTER, GroupKey());
  }

  lemma TwoTaught()
    ensures Taught([KITCHEN, COUNTER], ["m|x", "m|y"], [Some(KITCHENS), Some(COUNTERS)])
  {
    TwoGroups();
    KitchenTeaches();
    CounterTeaches();
    assert "m|x"[2] != "m|y"[2];
  }

  lemma KitchenTeaches()
    ensures Teaches([KITCHEN], Some(KITCHENS))
  {
    Names(KITCHEN, "x");
    assert "m " + "x" == "m x" && KITCHEN.serial[..4] == "ABCD";
    OneDeviceTeaches(KITCHEN, "m x", "ABCD");
  }

  lemma CounterTeaches()
    ensures Teaches([COUNTER], Some(COUNTERS))
  {
    Names(COUNTER, "y");
    assert "m " + "y" == "m y" && COUNTER.serial[..4] == "ABCD";
    OneDeviceTeaches(COUNTER, "m y", "ABCD");
  }

  /** Two devices of different models whose serials share their first half: a third such serial is a kitchen
      or a counter as the walk falls. */
  lemma TwoModelsOneScheme()
    ensures Answers([KITCHEN, COUNTER], "ABCDG3", Some(KITCHENS))
    ensures Answers([KITCHEN, COUNTER], "ABCDG3", Some(COUNTERS))
  {
    var samples, walk, taught := [KITCHEN, COUNTER], ["m|x", "m|y"], [Some(KITCHENS), Some(COUNTERS)];
    TwoTaught();
    TwoLearned();
    FirstInSomeWalk(samples, walk, taught, "ABCDG3", KITCHENS);
    FirstInSomeWalk(samples, walk, taught, "ABCDG3", COUNTERS);
  }

  lemma Names(m: Sample, model: string)
    requires m.manufacturer == "m" && m.model == model && (model == "x" || model == "y")
    ensures GroupKey()(m) == "m|" + model && Title(m) == "m " + model && Glob.TrimSpace(m.model) != ""
  {
    assert Glob.TrimSpace("m") == "m" && Glob.TrimSpace(model) == model;
    assert "m" + " " + model == ['m', ' ', model[0]];
    assert Glob.TrimSpace("m" + " " + model) == "m " + model;
    assert Lower("m") == "m" && Lower(model) == model;
  }

  lemma OneDeviceTeaches(m: Sample, title: string, prefix: string)
    requires |m.serial| == 6 && m.serial[..4] == prefix && Title(m) == title && m.deviceClass != ""
    ensures Teaches([m], Some(Family(title, prefix, 6, m.deviceClass, 1)))
  {
    forall l: int ensures OfLength([m], l) == if l == 6 then [m] else [] {
      GroupInOne(m, LengthOf(), l);
    }
    assert Modal([m], 6);
    OneClass(m);
    assert TeachesAt([m], 6, Some(Family(title, prefix, 6, m.deviceClass, 1)));
  }

  lemma OneClass(m: Sample)
    requires m.deviceClass != ""
    ensures Commonest([m], m.deviceClass)
  {
    GroupInOne(m, ClassOf(), m.deviceClass);
    forall d: string | d != "" ensures AtLeastAsCommon([m], m.deviceClass, d) {
      GroupInOne(m, ClassOf(), d);
      LessIsTotal(d, d);
    }
  }
}

/**
 Which samples count towards which hardware family, of internal/dashboard/app_classify.go, on the texts
 themselves.
 */
module SampleGroups {
  import opened Grouping
  import opened SerialFamilies
  import Glob

  // ── Samples that count ─────────────────────────────────────────────────────

  /** A serial the agent made up. */
  ghost predicate MadeUp(serial: string) {
    exists rest :: serial == "android-" + rest || serial == "msm-" + rest || serial == "unknown-" + rest
  }

  predicate Blank(s: string) {
    forall c <- s :: c as int in {9, 10, 11, 12, 13, 32}
  }

  /** A sample counts exactly when its serial is not made up and its model is not blank; one that does not
      changes nothing wherever it stands. */
  lemma CountsIff(before: seq<Sample>, f: Sample, after: seq<Sample>)
    ensures Usables(before + [f] + after) ==
              Usables(before) + (if MadeUp(f.serial) || Blank(f.model) then [] else [f]) + Usables(after)
  {
    KeepConcat(before + [f], after, UsableOf());
    KeepOneMore(before, f, UsableOf());
    MadeUpIff(f.serial);
    BlankIff(f.model);
  }

  lemma MadeUpIff(serial: string)
    ensures Fabricated(serial) <==> MadeUp(serial)
  {
    if "android-" <= serial { assert serial == "android-" + serial[8..]; }
    if "msm-" <= serial { assert serial == "msm-" + serial[4..]; }
    if "unknown-" <= serial { assert serial == "unknown-" + serial[8..]; }
  }

  lemma BlankIff(s: string)
    ensures Glob.TrimSpace(s) == "" <==> Blank(s)
  {
    var i, j := Glob.TrimMeaning(s);
    forall c | c in s ensures Glob.IsSpace(c) <==> c as int in {9, 10, 11, 12, 13, 32} {
      Glob.BlanksAre(c);
    }
    if i < j { assert s[i] in s; }
  }

  // ── Groups ─────────────────────────────────────────────────────────────────

  /** One letter in its two cases, or the same character. */
  predicate SameLetter(c: char, d: char) {
    || c == d
    || ('A' <= c <= 'Z' && d as int == c as int + 32)
    || ('A' <= d <= 'Z' && c as int == d as int + 32)
  }

  predicate SameButCase(a: string, b: string) {
    |a| == |b| && forall i :: 0 <= i < |a| ==> SameLetter(a[i], b[i])
  }

  lemma LowerIff(a: string, b: string)
    ensures Lower(a) == Lower(b) <==> SameButCase(a, b)
  {
    if Lower(a) == Lower(b) {
      assert |Lower(a)| == |a| && |Lower(b)| == |b|;
      forall i | 0 <= i < |a| ensures SameLetter(a[i], b[i]) {
        assert Lower(a)[i] == Lower(b)[i];
      }
    }
  }

  function Maker(f: Sample): string { Glob.TrimSpace(f.manufacturer) }
  function Model(f: Sample): string { Glob.TrimSpace(f.model) }

  predicate SameMakerAndModel(f: Sample, g: Sample) {
    SameButCase(Maker(f), Maker(g)) && SameButCase(Model(f), Model(g))
  }

  /** Two samples are one group exactly when maker, bar and model read the same, blanks around them and case
      aside. Then they are of one maker and model exactly when the makers' names are as long as each other,
      and so whenever neither name holds a bar. */
  lemma SameGroupIff(f: Sample, g: Sample)
    ensures GroupKey()(f) == GroupKey()(g) <==> SameButCase(Maker(f) + "|" + Model(f), Maker(g) + "|" + Model(g))
    ensures SameMakerAndModel(f, g) <==> GroupKey()(f) == GroupKey()(g) && |Maker(f)| == |Maker(g)|
    ensures '|' !in Maker(f) && '|' !in Maker(g) ==>
              (SameMakerAndModel(f, g) <==> GroupKey()(f) == GroupKey()(g))
  {
    LowerJoins(Maker(f), Model(f));
    LowerJoins(Maker(g), Model(g));
    LowerIff(Maker(f) + "|" + Model(f), Maker(g) + "|" + Model(g));
    LowerIff(Maker(f), Maker(g));
    LowerIff(Model(f), Model(g));
    if GroupKey()(f) == GroupKey()(g) {
      SameParts(Lower(Maker(f)), Lower(Model(f)), Lower(Maker(g)), Lower(Model(g)));
      LowerBar(Maker(f));
      LowerBar(Maker(g));
    }
  }

  lemma LowerJoins(a: string, b: string)
    ensures Lower(a + "|" + b) == Lower(a) + "|" + Lower(b)
  {
  }

  lemma LowerBar(a: string)
    ensures '|' in Lower(a) <==> '|' in a
  {
    if '|' in Lower(a) {
      var i :| 0 <= i < |a| && Lower(a)[i] == '|';
      assert a[i] == '|';
    }
    if '|' in a {
      var i :| 0 <= i < |a| && a[i] == '|';
      assert Lower(a)[i] == '|';
    }
  }

  lemma SameParts(a: string, x: string, b: string, y: string)
    requires a + "|" + x == b + "|" + y
    ensures |a| == |b| <==> a == b && x == y
    ensures '|' !in a && '|' !in b ==> |a| == |b|
  {
    if |a| == |b| {
      assert a == (a + "|" + x)[..|a|] == (b + "|" + y)[..|b|] == b;
      assert x == (a + "|" + x)[|a| + 1..] == (b + "|" + y)[|b| + 1..] == y;
    } else if |a| < |b| {
      LongerHoldsBar(a, x, b, y);
    } else {
      LongerHoldsBar(b, y, a, x);
    }
  }

  lemma LongerHoldsBar(a: string, x: string, b: string, y: string)
    requires a + "|" + x == b + "|" + y && |a| < |b|
    ensures '|' in b
  {
    assert (a + "|" + x)[|a|] == '|' && (b + "|" + y)[|a|] == b[|a|];
  }

  /** With bars two makers can run together. */
  lemma MakersRunTogether()
    ensures var f, g := Sample("1", "a|b", "c", ""), Sample("2", "a", "b|c", "");
            GroupKey()(f) == GroupKey()(g) && Maker(f) != Maker(g)
  {
    AsItStands("a|b");
    AsItStands("a");
    AsItStands("b|c");
    AsItStands("c");
    assert Lower("a|b") == "a|b" && Lower("a") == "a" && Lower("b|c") == "b|c" && Lower("c") == "c";
    assert "a|b" + "|" + "c" == "a|b|c" == "a" + "|" + "b|c";
    assert |"a|b"| == 3 && |"a"| == 1;
  }

  lemma AsItStands(s: string)
    requires s != "" && !Glob.IsSpace(s[0]) && !Glob.IsSpace(s[|s| - 1])
    ensures Glob.TrimSpace(s) == s
  {
  }

  /** A family's title is its first sample's maker and model with one blank between; without a maker it is
      the model alone. */
  lemma TitleMeaning(f: Sample)
    requires Model(f) != ""
    ensures Title(f) == if Maker(f) == "" then Model(f) else Maker(f) + " " + Model(f)
  {
    var i, j := Glob.TrimMeaning(f.manufacturer);
    var k, l := Glob.TrimMeaning(f.model);
    if Maker(f) == "" {
      assert "" + " " + Model(f) == " " + Model(f) && (" " + Model(f))[1..] == Model(f);
      AsItStands(Model(f));
    } else {
      AsItStands(Maker(f) + " " + Model(f));
    }
  }
}

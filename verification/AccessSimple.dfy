/**
 The two-question access editor of internal/dashboard/access_simple.go: the form is turned into a stored
 policy, and a stored policy is read back into the two answers.
 */
module AccessSimple {
  import opened Wrappers
  import opened Grouping
  import opened StableSort
  import A = Access
  import Glob

  type Id = nat

  /** What a rule names: an action, or "*". */
  datatype Name = Star | Do(action: A.Action)

  datatype Place = Restaurant(id: Id) | Group(id: Id) | OneDevice(id: Id)

  datatype Profile = Profile(id: Id, actions: seq<Name>, builtin: bool)

  /** scope None is every device. */
  datatype Rule = Rule(
    allow: bool, scope: Option<Place>, actions: seq<Name>, note: string, expires: Option<int>, profile: Option<Id>)

  datatype Policy = Policy(baseDeny: bool, rules: seq<Rule>)

  // ── Actions ────────────────────────────────────────────────────────────────

  function RoleExtras(r: A.Role): seq<Name> {
    match r
    case FleetAdmin => [Do(A.Remote), Do(A.Ota)]
    case FleetManager => [Do(A.Remote)]
    case _ => []
  }

  function RoleActions(r: A.Role): seq<Name> {
    [Star] + RoleExtras(r)
  }

  /** The same names, each as often. */
  predicate SameActions(a: seq<Name>, b: seq<Name>) {
    multiset(a) == multiset(b)
  }

  function NamesIn(a: seq<Name>): set<Name> {
    set n | n in a
  }

  lemma SameActionsSameSet(a: seq<Name>, b: seq<Name>)
    requires SameActions(a, b)
    ensures NamesIn(a) == NamesIn(b)
  {
    forall n ensures n in a <==> n in b {
      assert n in multiset(a) <==> n in multiset(b);
    }
  }

  /** Where a name stands among all names. Which order it is does not matter, only that it is one. */
  function Rank(n: Name): nat {
    if n == Star then 0
    else
      match n.action
      case Alerts => 1
      case Deploy => 2
      case Groups => 3
      case InstallApk => 4
      case Kiosk => 5
      case Logcat => 6
      case LostMode => 7
      case Notes => 8
      case Ota => 9
      case Query => 10
      case Queue => 11
      case Reboot => 12
      case Remote => 13
      case Screenshot => 14
      case Shell => 15
      case Uninstall => 16
      case View => 17
      case Wifi => 18
      case UnknownAction => 19
  }

  function PlaceOf(): Name -> StableSort.Place {
    (n: Name) => StableSort.Place.Place(Rank(n), 0)
  }

  lemma RankIsOneToOne(a: Name, b: Name)
    requires Rank(a) == Rank(b)
    ensures a == b
  {
  }

  /** The ties of a list at a place are copies of one name. */
  lemma {:induction false} TiesAreCopies(a: seq<Name>, n: Name)
    ensures var ties := Keep(a, InPlace(PlaceOf(), PlaceOf()(n)));
            |ties| == multiset(a)[n] && forall i :: 0 <= i < |ties| ==> ties[i] == n
  {
    if a != [] {
      var init, last := a[..|a| - 1], a[|a| - 1];
      assert a == init + [last];
      TiesAreCopies(init, n);
      if Rank(last) == Rank(n) { RankIsOneToOne(last, n); }
    }
  }

  /** Lists of the same names, each as often, sort to one list. */
  lemma SameActionsSortSame(a: seq<Name>, b: seq<Name>)
    requires SameActions(a, b)
    ensures Sort(a, PlaceOf()) == Sort(b, PlaceOf())
  {
    SortIsStable(a, PlaceOf());
    SortIsStable(b, PlaceOf());
    var x, y := Sort(a, PlaceOf()), Sort(b, PlaceOf());
    forall c ensures Keep(x, InPlace(PlaceOf(), c)) == Keep(y, InPlace(PlaceOf(), c)) {
      if n: Name :| PlaceOf()(n) == c {
        TiesAreCopies(x, n);
        TiesAreCopies(y, n);
        assert multiset(x)[n] == multiset(y)[n];
      } else {
        NoneInPlace(x, c);
        NoneInPlace(y, c);
      }
    }
    OneStableOrder(x, y, PlaceOf());
  }

  lemma {:induction false} NoneInPlace(a: seq<Name>, c: StableSort.Place)
    requires forall n: Name :: PlaceOf()(n) != c
    ensures Keep(a, InPlace(PlaceOf(), c)) == []
  {
    if a != [] { NoneInPlace(a[..|a| - 1], c); }
  }

  lemma SortedLength(a: seq<Name>)
    ensures |Sort(a, PlaceOf())| == |a|
  {
    SortIsStable(a, PlaceOf());
    assert |Sort(a, PlaceOf())| == |multiset(Sort(a, PlaceOf()))| == |multiset(a)|;
  }

  lemma SortedEqualIff(a: seq<Name>, b: seq<Name>)
    ensures Sort(a, PlaceOf()) == Sort(b, PlaceOf()) <==> SameActions(a, b)
    ensures |Sort(a, PlaceOf())| == |a| && (SameActions(a, b) ==> |a| == |b|)
  {
    SortIsStable(a, PlaceOf());
    SortIsStable(b, PlaceOf());
    assert |Sort(a, PlaceOf())| == |multiset(a)| && |a| == |multiset(a)| && |b| == |multiset(b)|;
    if SameActions(a, b) { SameActionsSortSame(a, b); }
  }

  /** Copies of both lists are sorted and compared place by place. */
  method CompareActions(a: seq<Name>, b: seq<Name>) returns (same: bool)
    ensures same == SameActions(a, b)
  {
    SortedEqualIff(a, b);
    SortedLength(b);
    if |a| != |b| {
      return false;
    }
    same := SameByPlace(Sort(a, PlaceOf()), Sort(b, PlaceOf()));
  }

  method SameByPlace(x: seq<Name>, y: seq<Name>) returns (same: bool)
    requires |x| == |y|
    ensures same == (x == y)
  {
    for i := 0 to |x|
      invariant forall j :: 0 <= j < i ==> x[j] == y[j]
    {
      if x[i] != y[i] {
        return false;
      }
    }
    same := true;
  }

  /** Every action of the profile is within the role's ceiling; the super admin has none. */
  predicate ProfileFits(p: Profile, r: A.Role) {
    r == A.Admin || forall n <- p.actions :: n.Do? && n.action in A.RoleCeiling(r)
  }

  // ── The form ───────────────────────────────────────────────────────────────

  datatype DoChoice = RoleChoice | ProfileChoice(id: Option<Id>) | CustomChoice

  /** expires is Err when the field is no valid instant; places are texts, each of which may parse. */
  datatype Form = Form(
    choice: DoChoice, actions: seq<A.Action>, expires: Result<Option<int>, ()>, note: string,
    every: bool, places: seq<string>)

  datatype Refused = NoRoleForCustomers | UnknownProfile | TooMuchForRole | ProfileGone | BadExpiry

  function CutNote(note: string): string {
    var trimmed := Glob.TrimSpace(note);
    if |trimmed| > 200 then trimmed[..200] else trimmed
  }

  /** "view", then each listed action once. */
  function CustomActions(listed: seq<A.Action>): seq<Name> {
    if listed == [] then [Do(A.View)]
    else
      var sofar, a := CustomActions(listed[..|listed| - 1]), listed[|listed| - 1];
      if a != A.UnknownAction && Do(a) !in sofar then sofar + [Do(a)] else sofar
  }

  /** The walk over the profiles: the last one with the ID counts, and each must fit. */
  function Picked(profiles: seq<Profile>, id: Id, r: A.Role): Result<Option<seq<Name>>, Refused> {
    if profiles == [] then Ok(None)
    else
      var sofar, p := Picked(profiles[..|profiles| - 1], id, r), profiles[|profiles| - 1];
      if sofar.Err? || p.id != id then sofar
      else if !ProfileFits(p, r) then Err(TooMuchForRole)
      else Ok(Some(p.actions))
  }

  /** The actions and the profile a form names. */
  function Chosen(f: Form, r: A.Role, profiles: seq<Profile>): Result<(seq<Name>, Option<Id>), Refused> {
    match f.choice
    case RoleChoice => if A.IsCustomer(r) then Err(NoRoleForCustomers) else Ok((RoleActions(r), None))
    case ProfileChoice(None) => Err(UnknownProfile)
    case ProfileChoice(Some(id)) =>
      (match Picked(profiles, id, r)
       case Err(e) => Err(e)
       case Ok(None) => Err(ProfileGone)
       case Ok(Some(actions)) => Ok((actions, Some(id))))
    case CustomChoice => Ok((CustomActions(f.actions), None))
  }

  /** The places a form names: each text once, those that parse. */
  function PlacesOf(texts: seq<string>, parse: string -> Option<Place>): seq<Place> {
    if texts == [] then []
    else
      var init, t := texts[..|texts| - 1], texts[|texts| - 1];
      PlacesOf(init, parse) + if t !in init && parse(t).Some? then [parse(t).value] else []
  }

  function RulesAt(places: seq<Place>, rule: Rule): seq<Rule> {
    seq(|places|, i requires 0 <= i < |places| => rule.(scope := Some(places[i])))
  }

  function ParseSimple(f: Form, r: A.Role, profiles: seq<Profile>, parse: string -> Option<Place>)
    : Result<Policy, Refused>
  {
    match Chosen(f, r, profiles)
    case Err(e) => Err(e)
    case Ok((actions, profile)) =>
      if f.expires.Err? then Err(BadExpiry)
      else
        var rule := Rule(true, None, actions, CutNote(f.note), f.expires.value, profile);
        if f.every && f.choice == RoleChoice && f.expires.value == None && !A.IsCustomer(r) then Ok(Policy(false, []))
        else if f.every then Ok(Policy(true, [rule]))
        else Ok(Policy(true, RulesAt(PlacesOf(f.places, parse), rule)))
  }

  /** The two loops of the form, as they are written. */
  method ReadPlaces(texts: seq<string>, parse: string -> Option<Place>, rule: Rule) returns (rules: seq<Rule>)
    ensures rules == RulesAt(PlacesOf(texts, parse), rule)
  {
    rules := [];
    var seen: set<string> := {};
    ghost var places: seq<Place> := [];
    for i := 0 to |texts|
      invariant places == PlacesOf(texts[..i], parse) && rules == RulesAt(places, rule)
      invariant forall t :: t in seen ==> t in texts[..i]
      invariant forall t <- texts[..i] :: parse(t).Some? ==> t in seen
    {
      var t := texts[i];
      assert texts[..i + 1][..i] == texts[..i];
      if t in seen || parse(t).None? {
        continue;
      }
      seen := seen + {t};
      places := places + [parse(t).value];
      rules := rules + [rule.(scope := Some(parse(t).value))];
    }
    assert texts[..|texts|] == texts;
  }

  // ── Reading back ───────────────────────────────────────────────────────────

  datatype Do = ByProfile(id: Id) | ByRole | ByCustom

  datatype Simple =
    | NotSimple
    | Simple(every: bool, places: seq<Place>, answer: Do, actions: seq<Name>, expires: Option<int>, note: string)

  const MINUTE := 60_000_000_000

  predicate ExpireTogether(a: Option<int>, b: Option<int>) {
    a.Some? == b.Some? && (a.Some? ==> -MINUTE <= a.value - b.value <= MINUTE)
  }

  /** Rules that only repeat what the role already has. */
  predicate Redundant(rule: Rule, r: A.Role) {
    rule.allow && forall n <- rule.actions ::
      n in RoleActions(r) || !(n == Star || (n.Do? && A.Sensitive(n.action)))
  }

  /** The rules say one thing: all allow, the same actions until the same time, and a rule for every
      device stands alone. */
  predicate OneAnswer(rules: seq<Rule>)
    requires rules != []
  {
    forall g <- rules :: Agrees(g, rules[0], |rules|)
  }

  predicate Agrees(g: Rule, first: Rule, n: nat) {
    && g.allow && SameActions(g.actions, first.actions) && ExpireTogether(g.expires, first.expires)
    && (g.scope.None? ==> n == 1)
  }

  function ScopedPlaces(rules: seq<Rule>): seq<Place> {
    if rules == [] then []
    else
      ScopedPlaces(rules[..|rules| - 1])
      + if rules[|rules| - 1].scope.Some? then [rules[|rules| - 1].scope.value] else []
  }

  /** The profile every rule was made from, if one was. */
  function SharedProfile(rules: seq<Rule>): Option<Id>
    requires rules != []
  {
    if forall g <- rules :: g.profile == rules[0].profile then rules[0].profile else None
  }

  /** The first profile that passes a test. */
  function FirstProfile(profiles: seq<Profile>, test: Profile -> bool): (r: Option<Profile>)
    ensures r.Some? ==> r.value in profiles && test(r.value)
    ensures r.None? ==> forall p <- profiles :: !test(p)
  {
    if profiles == [] then None
    else if test(profiles[0]) then Some(profiles[0])
    else FirstProfile(profiles[1..], test)
  }

  /** How the answer names the actions: the shared profile, any profile with the same actions, the
      role, or a list. */
  function NameActions(r: A.Role, actions: seq<Name>, profile: Option<Id>, profiles: seq<Profile>): Do {
    var exact := FirstProfile(profiles, (p: Profile) => profile == Some(p.id) && SameActions(p.actions, actions));
    if exact.Some? then ByProfile(exact.value.id)
    else
      var same := FirstProfile(profiles, (p: Profile) => SameActions(p.actions, actions));
      if same.Some? then ByProfile(same.value.id)
      else if !A.IsCustomer(r) && SameActions(actions, RoleActions(r)) then ByRole
      else ByCustom
  }

  function LookOnly(profiles: seq<Profile>): Do {
    var p := FirstProfile(profiles, (p: Profile) => p.builtin && SameActions(p.actions, [Do(A.View)]));
    if p.Some? then ByProfile(p.value.id) else ByCustom
  }

  function DeriveSimple(r: A.Role, pol: Policy, profiles: seq<Profile>): Simple {
    if !pol.baseDeny && !A.IsCustomer(r) then
      if forall g <- pol.rules :: Redundant(g, r) then Simple(true, [], ByRole, [], None, "") else NotSimple
    else if pol.rules == [] then
      var look := LookOnly(profiles);
      Simple(false, [], look, if look == ByCustom then [Do(A.View)] else [], None, "")
    else if !OneAnswer(pol.rules) then NotSimple
    else
      var first := pol.rules[0];
      var answer := NameActions(r, first.actions, SharedProfile(pol.rules), profiles);
      Simple(exists g <- pol.rules :: g.scope.None?, ScopedPlaces(pol.rules), answer,
             if answer == ByCustom then first.actions else [], first.expires, first.note)
  }

  /** What the first rules of a list say together, when they say one thing. */
  predicate SaySoFar(said: seq<Rule>, first: Rule, n: nat, every: bool, places: seq<Place>, profile: Option<Id>) {
    && (forall g <- said :: Agrees(g, first, n))
    && (every <==> exists g <- said :: g.scope.None?)
    && places == ScopedPlaces(said)
    && profile == if forall g <- said :: g.profile == first.profile then first.profile else None
  }

  lemma OneMoreSays(said: seq<Rule>, g: Rule, first: Rule, n: nat, every: bool, places: seq<Place>, profile: Option<Id>)
    requires SaySoFar(said, first, n, every, places, profile) && Agrees(g, first, n)
    ensures SaySoFar(said + [g], first, n, every || g.scope.None?,
                     places + if g.scope.Some? then [g.scope.value] else [],
                     if g.profile == first.profile then profile else None)
  {
    assert (said + [g])[..|said|] == said;
    assert forall h :: h in said + [g] <==> h in said || h == g;
  }

  /** The loop over the rules, as it is written. */
  method ReadRules(rules: seq<Rule>) returns (ok: bool, every: bool, places: seq<Place>, profile: Option<Id>)
    requires rules != []
    ensures ok == OneAnswer(rules)
    ensures ok ==> every == (exists g <- rules :: g.scope.None?) && places == ScopedPlaces(rules)
    ensures ok ==> profile == SharedProfile(rules)
  {
    var first := rules[0];
    every, places, profile := false, [], first.profile;
    for i := 0 to |rules|
      invariant SaySoFar(rules[..i], first, |rules|, every, places, profile)
    {
      var g := rules[i];
      TakeOneMore(rules, i);
      var same := CompareActions(g.actions, first.actions);
      if !g.allow || !same || !ExpireTogether(g.expires, first.expires) {
        assert g in rules && !Agrees(g, first, |rules|);
        return false, false, [], None;
      }
      if Agrees(g, first, |rules|) { OneMoreSays(rules[..i], g, first, |rules|, every, places, profile); }
      if g.profile.Some? != profile.Some? || (g.profile.Some? && g.profile != profile) {
        profile := None;
      }
      if g.scope.None? {
        if |rules| > 1 {
          assert g in rules && !Agrees(g, first, |rules|);
          return false, false, [], None;
        }
        every := true;
        continue;
      }
      places := places + [g.scope.value];
    }
    assert rules[..|rules|] == rules;
    ok := true;
  }

  // ── Reading back what was stored ───────────────────────────────────────────

  /** The actions an answer stands for. */
  ghost predicate Denotes(s: Simple, r: A.Role, profiles: seq<Profile>, actions: set<Name>)
    requires s.Simple?
  {
    match s.answer
    case ByRole => actions == NamesIn(RoleActions(r))
    case ByCustom => actions == NamesIn(s.actions)
    case ByProfile(id) => exists p <- profiles :: p.id == id && NamesIn(p.actions) == actions
  }

  lemma NamedActionsDenoted(r: A.Role, rules: seq<Rule>, profiles: seq<Profile>)
    requires rules != [] && OneAnswer(rules)
    ensures var s := DeriveSimple(r, Policy(true, rules), profiles);
            s.Simple? && Denotes(s, r, profiles, NamesIn(rules[0].actions))
  {
    var actions := rules[0].actions;
    var s := DeriveSimple(r, Policy(true, rules), profiles);
    match s.answer
    case ByProfile(id) =>
      var p :| p in profiles && p.id == id && SameActions(p.actions, actions);
      SameActionsSameSet(p.actions, actions);
    case ByRole => SameActionsSameSet(actions, RoleActions(r));
    case ByCustom =>
  }

  lemma {:induction false} PlacesOfRules(places: seq<Place>, rule: Rule)
    ensures ScopedPlaces(RulesAt(places, rule)) == places
  {
    if places != [] {
      var n := |places| - 1;
      PlacesOfRules(places[..n], rule);
      assert RulesAt(places, rule)[..n] == RulesAt(places[..n], rule);
    }
  }

  /** Every form that is accepted is read back: the same "every device" answer and the same places, and,
      when any rule was stored, the same expiry, note and actions, under whatever name. */
  lemma ReadsBackWhatWasStored(f: Form, r: A.Role, profiles: seq<Profile>, parse: string -> Option<Place>)
    requires ParseSimple(f, r, profiles, parse).Ok?
    ensures var pol := ParseSimple(f, r, profiles, parse).value;
            var s := DeriveSimple(r, pol, profiles);
            && s.Simple?
            && s.every == f.every
            && (!f.every ==> s.places == PlacesOf(f.places, parse))
            && (f.every ==> s.places == [])
            && (pol.rules != [] ==>
                  s.expires == f.expires.value && s.note == CutNote(f.note)
                  && Denotes(s, r, profiles, NamesIn(Chosen(f, r, profiles).value.0)))
            && (!pol.baseDeny ==> Denotes(s, r, profiles, NamesIn(Chosen(f, r, profiles).value.0)))
  {
    var pol := ParseSimple(f, r, profiles, parse).value;
    if pol.baseDeny && pol.rules != [] {
      StoredRules(f, r, profiles, parse);
      RulesReadBack(r, pol.rules, profiles);
    }
  }

  lemma RulesReadBack(r: A.Role, rules: seq<Rule>, profiles: seq<Profile>)
    requires rules != [] && OneAnswer(rules)
    ensures var s := DeriveSimple(r, Policy(true, rules), profiles);
            && s.Simple? && Denotes(s, r, profiles, NamesIn(rules[0].actions))
            && s.every == (exists g <- rules :: g.scope.None?) && s.places == ScopedPlaces(rules)
            && s.expires == rules[0].expires && s.note == rules[0].note
  {
    NamedActionsDenoted(r, rules, profiles);
  }

  /** The rules a form stores give one answer, at its places. */
  lemma StoredRules(f: Form, r: A.Role, profiles: seq<Profile>, parse: string -> Option<Place>)
    requires ParseSimple(f, r, profiles, parse).Ok? && ParseSimple(f, r, profiles, parse).value.baseDeny
    requires ParseSimple(f, r, profiles, parse).value.rules != []
    ensures var rules := ParseSimple(f, r, profiles, parse).value.rules;
            && OneAnswer(rules)
            && ScopedPlaces(rules) == (if f.every then [] else PlacesOf(f.places, parse))
            && (f.every <==> exists g <- rules :: g.scope.None?)
            && rules[0].actions == Chosen(f, r, profiles).value.0
            && rules[0].expires == f.expires.value && rules[0].note == CutNote(f.note)
  {
    var rules := ParseSimple(f, r, profiles, parse).value.rules;
    var (actions, profile) := Chosen(f, r, profiles).value;
    var rule := Rule(true, None, actions, CutNote(f.note), f.expires.value, profile);
    if f.every {
      assert rules == [rule] && rules[..0] == [] && rule in rules;
    } else {
      PlacesOfRules(PlacesOf(f.places, parse), rule);
      assert forall g <- rules :: g.scope.Some? && g.(scope := None) == rule;
    }
  }

  /** The profiles are rows of a table, one per ID. */
  predicate DistinctIds(profiles: seq<Profile>) {
    forall i, j :: 0 <= i < j < |profiles| ==> profiles[i].id != profiles[j].id
  }

  /** A form stores no rule when it asks for the role's plain default, or names no place that parses. */
  predicate StoresNothing(f: Form, r: A.Role, parse: string -> Option<Place>) {
    if f.every then f.choice == RoleChoice && f.expires == Ok(None) && !A.IsCustomer(r)
    else PlacesOf(f.places, parse) == []
  }

  lemma NothingReadsAsLookOnly(r: A.Role, profiles: seq<Profile>, actions: set<Name>)
    requires DistinctIds(profiles)
    ensures Denotes(DeriveSimple(r, Policy(true, []), profiles), r, profiles, actions) <==> actions == {Do(A.View)}
  {
    var s := DeriveSimple(r, Policy(true, []), profiles);
    assert NamesIn([Do(A.View)]) == {Do(A.View)};
    if s.answer.ByProfile? {
      var p :| p in profiles && p.id == s.answer.id && SameActions(p.actions, [Do(A.View)]);
      SameActionsSameSet(p.actions, [Do(A.View)]);
      forall q | q in profiles && q.id == p.id ensures q == p {
        var i :| 0 <= i < |profiles| && profiles[i] == p;
        var j :| 0 <= j < |profiles| && profiles[j] == q;
      }
    }
  }

  /** Exactly when the answers about actions and expiry are kept: when the form says every device, or names
      a place that parses, or asked for no more than looking and set no end. A form that names no place
      that parses stores nothing, and reads back as "look only" for good. */
  lemma AnswerKeptIff(f: Form, r: A.Role, profiles: seq<Profile>, parse: string -> Option<Place>)
    requires ParseSimple(f, r, profiles, parse).Ok? && DistinctIds(profiles)
    ensures var s := DeriveSimple(r, ParseSimple(f, r, profiles, parse).value, profiles);
            var chosen := NamesIn(Chosen(f, r, profiles).value.0);
            && s.Simple?
            && (s.expires == f.expires.value && Denotes(s, r, profiles, chosen) <==>
                f.every || PlacesOf(f.places, parse) != [] || (f.expires.value == None && chosen == {Do(A.View)}))
  {
    ReadsBackWhatWasStored(f, r, profiles, parse);
    if !f.every && PlacesOf(f.places, parse) == [] {
      NothingReadsAsLookOnly(r, profiles, NamesIn(Chosen(f, r, profiles).value.0));
    }
  }

  /** It happens: a form that asks for restarts nowhere reads back as one that asks for looking. */
  lemma AnswerLost(parse: string -> Option<Place>)
    ensures var f := Form(CustomChoice, [A.Reboot], Ok(None), "", false, []);
            && ParseSimple(f, A.Staff, [], parse).Ok?
            && var s := DeriveSimple(A.Staff, ParseSimple(f, A.Staff, [], parse).value, []);
               s.Simple? && !Denotes(s, A.Staff, [], NamesIn(Chosen(f, A.Staff, []).value.0))
  {
    var f := Form(CustomChoice, [A.Reboot], Ok(None), "", false, []);
    CustomActionsShape(f.actions);
    assert A.Reboot in f.actions;
    AnswerKeptIff(f, A.Staff, [], parse);
    assert Do(A.Reboot) in NamesIn(Chosen(f, A.Staff, []).value.0);
  }

  /** The note is kept exactly when some rule was stored to hold it, or there was none: it is also lost on
      the plain default. */
  lemma NoteKeptIff(f: Form, r: A.Role, profiles: seq<Profile>, parse: string -> Option<Place>)
    requires ParseSimple(f, r, profiles, parse).Ok?
    ensures var s := DeriveSimple(r, ParseSimple(f, r, profiles, parse).value, profiles);
            s.Simple? && (s.note == CutNote(f.note) <==> !StoresNothing(f, r, parse) || CutNote(f.note) == "")
  {
    ReadsBackWhatWasStored(f, r, profiles, parse);
  }

  /** A custom list always lets them see the device, names each action once and never "*". */
  lemma {:induction false} CustomActionsShape(listed: seq<A.Action>)
    ensures var c := CustomActions(listed);
            && Do(A.View) in c && Star !in c
            && (forall i, j :: 0 <= i < j < |c| ==> c[i] != c[j])
            && (forall a :: Do(a) in c <==> a == A.View || (a in listed && a != A.UnknownAction))
  {
    if listed != [] {
      var n := |listed| - 1;
      CustomActionsShape(listed[..n]);
      assert forall a :: a in listed <==> a in listed[..n] || a == listed[n];
    }
  }
}

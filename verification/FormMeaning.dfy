/**
 When the two-question editor of internal/dashboard/access_simple.go refuses a form, and when a stored policy
 is beyond it, on the forms, profiles and rules themselves.
 */
module FormMeaning {
  import opened Wrappers
  import opened AccessSimple
  import A = Access
  import Glob

  // ── Forms that are refused ─────────────────────────────────────────────────

  /** The profile names "any action", or an action the role can never have. */
  predicate TooMuch(p: Profile, r: A.Role) {
    r != A.Admin && exists n <- p.actions :: n == Star || n.action !in A.RoleCeiling(r)
  }

  lemma {:induction false} PickedMeaning(profiles: seq<Profile>, id: Id, r: A.Role)
    ensures var picked := Picked(profiles, id, r);
            && (picked.Err? <==> exists p <- profiles :: p.id == id && TooMuch(p, r))
            && (picked.Err? ==> picked.error == TooMuchForRole)
            && (picked.Ok? ==> (picked.value.None? <==> forall p <- profiles :: p.id != id))
            && (picked.Ok? && picked.value.Some? ==>
                  exists p <- profiles :: p.id == id && picked.value.value == p.actions)
  {
    if profiles != [] {
      var init, last := profiles[..|profiles| - 1], profiles[|profiles| - 1];
      PickedMeaning(init, id, r);
      assert forall p :: p in profiles <==> p in init || p == last;
      assert ProfileFits(last, r) <==> !TooMuch(last, r);
    }
  }

  predicate AsksForProfile(f: Form, id: Id) {
    f.choice == ProfileChoice(Some(id))
  }

  /** Each refusal, exactly: a customer asked for a role, a profile that reads as none, one that no longer
      exists or holds more than the role may, and only then a field that is no time. */
  lemma FormRefusedIff(f: Form, r: A.Role, profiles: seq<Profile>, parse: string -> Option<Place>)
    ensures var answer := ParseSimple(f, r, profiles, parse);
            var role, none := f.choice == RoleChoice && r in {A.Owner, A.Staff}, f.choice == ProfileChoice(None);
            var much := exists p <- profiles :: AsksForProfile(f, p.id) && TooMuch(p, r);
            var gone := f.choice.ProfileChoice? && f.choice.id.Some?
                        && forall p <- profiles :: !AsksForProfile(f, p.id);
            && (answer == Err(NoRoleForCustomers) <==> role)
            && (answer == Err(UnknownProfile) <==> none)
            && (answer == Err(TooMuchForRole) <==> much)
            && (answer == Err(ProfileGone) <==> gone)
            && (answer == Err(BadExpiry) <==> !role && !none && !much && !gone && f.expires.Err?)
            && (answer.Ok? <==> !role && !none && !much && !gone && f.expires.Ok?)
  {
    match f.choice
    case ProfileChoice(Some(id)) => PickedMeaning(profiles, id, r);
    case _ =>
  }

  /** A note is kept from its first to its last character that is not blank, up to the 200th. */
  lemma NoteIsCut(note: string)
    ensures CutNote(note) <= Glob.TrimSpace(note)
    ensures |CutNote(note)| == if |Glob.TrimSpace(note)| < 200 then |Glob.TrimSpace(note)| else 200
  {
  }

  // ── Policies beyond the questions ──────────────────────────────────────────

  /** The rule only repeats what the role has from the start: it allows, and of the sensitive actions it names
      none but remote control to the admin or a fleet manager, and firmware to the admin. */
  predicate RepeatsRole(g: Rule, r: A.Role) {
    && g.allow
    && (Do(A.Remote) in g.actions ==> r in {A.FleetAdmin, A.FleetManager})
    && (Do(A.Ota) in g.actions ==> r == A.FleetAdmin)
    && Do(A.Shell) !in g.actions
  }

  /** The rule says what the first does: it allows the same names, each as often, until the same time to the
      minute, and stands alone if it is for every device. */
  predicate SaysAsFirst(g: Rule, first: Rule, alone: bool) {
    && g.allow && multiset(g.actions) == multiset(first.actions)
    && (g.expires.None? <==> first.expires.None?)
    && (g.expires.Some? ==> -60_000_000_000 <= g.expires.value - first.expires.value <= 60_000_000_000)
    && (g.scope.Some? || alone)
  }

  /** The questions can express a policy exactly when, from everything, each rule only repeats the role, or,
      from nothing, all rules say one thing. */
  lemma SimpleIff(r: A.Role, pol: Policy, profiles: seq<Profile>)
    ensures DeriveSimple(r, pol, profiles).Simple? <==>
              if !pol.baseDeny && r !in {A.Owner, A.Staff} then forall g <- pol.rules :: RepeatsRole(g, r)
              else forall g <- pol.rules :: SaysAsFirst(g, pol.rules[0], |pol.rules| == 1)
  {
    if !pol.baseDeny && r !in {A.Owner, A.Staff} {
      forall g | g in pol.rules ensures Redundant(g, r) <==> RepeatsRole(g, r) {
        RedundantIff(g, r);
      }
    } else if pol.rules != [] {
      forall g | g in pol.rules
        ensures Agrees(g, pol.rules[0], |pol.rules|) <==> SaysAsFirst(g, pol.rules[0], |pol.rules| == 1)
      {
      }
    }
  }

  lemma RedundantIff(g: Rule, r: A.Role)
    ensures Redundant(g, r) <==> RepeatsRole(g, r)
  {
    ExtrasNamed(r);
    forall n | n in g.actions && n.Do? && A.Sensitive(n.action) ensures n.action in {A.Remote, A.Shell, A.Ota} {}
  }

  lemma ExtrasNamed(r: A.Role)
    ensures forall n :: n in RoleActions(r) <==>
              || n == Star
              || (n == Do(A.Remote) && r in {A.FleetAdmin, A.FleetManager})
              || (n == Do(A.Ota) && r == A.FleetAdmin)
  {
  }

  /** A rule made from "everything my role can" names the sensitive actions the role holds without a rule, as
      intended, for all but three roles: an operator, an engineer and Field hold remote control and do not
      get it named. */
  lemma ExtrasAreDefaultsIff(r: A.Role)
    ensures (forall a: A.Action :: Do(a) in RoleExtras(r) <==> A.SensitiveByDefault(r, a))
       <==> r !in {A.Operator, A.Engineer, A.Field}
  {
    assert A.SensitiveByDefault(r, A.Remote) <==> r in {A.FleetAdmin, A.FleetManager, A.Operator, A.Engineer, A.Field};
    if r in {A.Operator, A.Engineer, A.Field} { assert Do(A.Remote) !in RoleExtras(r); }
  }

  // ── What an answer is called ───────────────────────────────────────────────

  /** A policy without rules is shown as the first built-in profile that only looks, else as a list. */
  lemma LookOnlyMeaning(profiles: seq<Profile>)
    ensures var looks := LookOnly(profiles);
            && (looks == ByCustom <==> forall p <- profiles :: !(p.builtin && p.actions == [Do(A.View)]))
            && (looks.ByProfile? ==> exists p <- profiles :: p.id == looks.id && p.builtin && p.actions == [Do(A.View)])
            && looks != ByRole
  {
    forall p: Profile ensures SameActions(p.actions, [Do(A.View)]) <==> p.actions == [Do(A.View)] {
      OnlyName(p.actions, Do(A.View));
    }
  }

  lemma OnlyName(names: seq<Name>, n: Name)
    ensures multiset(names) == multiset([n]) <==> names == [n]
  {
    if multiset(names) == multiset([n]) {
      assert |names| == |multiset(names)| == 1;
      assert names[0] in multiset(names);
    }
  }

  /** A profile of this name, if it is a profile's, holds the stored actions. */
  predicate HoldsThem(profiles: seq<Profile>, id: Id, actions: seq<Name>) {
    exists p <- profiles :: p.id == id && SameActions(p.actions, actions)
  }

  /** The stored actions are shown as the profile the rules were made from when it still holds those actions,
      else as some profile that does, else as the role, else as a list. */
  lemma NameMeaning(r: A.Role, actions: seq<Name>, made: Option<Id>, profiles: seq<Profile>)
    ensures var name := NameActions(r, actions, made, profiles);
            && (name.ByProfile? ==> HoldsThem(profiles, name.id, actions))
            && (made.Some? && HoldsThem(profiles, made.value, actions) ==> name == ByProfile(made.value))
            && (name == ByRole ==> r !in {A.Owner, A.Staff} && SameActions(actions, RoleActions(r)))
            && (name == ByCustom ==> r in {A.Owner, A.Staff} || !SameActions(actions, RoleActions(r)))
            && (!name.ByProfile? ==> forall p <- profiles :: !SameActions(p.actions, actions))
  {
    var exact := FirstProfile(profiles, (p: Profile) => made == Some(p.id) && SameActions(p.actions, actions));
    if exact.None? {
      assert made.Some? ==> !HoldsThem(profiles, made.value, actions);
      var same := FirstProfile(profiles, (p: Profile) => SameActions(p.actions, actions));
    }
  }
}

/**
 * Which role an identity provider grants, and what a sign-in writes
 * (apps/cms/src/entra/roles.ts, resolveOidcRole in apps/cms/src/oidc/provision.ts).
 */
module Roles {
  import opened Common

  /** The intranet's roles, and any other role a row may hold. */
  datatype Role = Admin | Editor | DepartmentHead | TeamLead | Member | Guest | Other(name: string)

  /** A role's place in the privilege order; the smallest is the highest privilege. */
  function Rank(role: Role): nat {
    match role
    case Admin => 0
    case Editor => 1
    case DepartmentHead => 2
    case TeamLead => 3
    case Member => 4
    case Guest => 5
    case Other(_) => 6
  }

  const APP_ROLE_TABLE: map<string, Role> := map[
    "Intranet.Admin" := Admin, "Intranet.Editor" := Editor, "Intranet.DepartmentHead" := DepartmentHead,
    "Intranet.TeamLead" := TeamLead, "Intranet.Member" := Member, "Intranet.Guest" := Guest]

  datatype DefaultRole = DenyByDefault | GrantByDefault(role: Role)
  datatype Via = AppRole(claim: string) | Group(groupId: string) | Default
  datatype Resolution = Granted(role: Role, via: seq<Via>) | Deny | Unknown
  datatype Answer<T> = Answered(data: T) | Failed

  /** A group rule; its id is stored in lower case. */
  datatype GroupRule = GroupRule(groupId: string, role: Role)

  datatype EntraInput = EntraInput(
    claimRoles: seq<string>,
    userType: Answer<string>,
    groups: Option<Answer<seq<string>>>,
    groupRules: seq<GroupRule>,
    defaultRole: DefaultRole)

  datatype Match = Match(role: Role, via: Via)

  function Lower(s: string): (l: string)
    ensures |l| == |s|
  {
    seq(|s|, i requires 0 <= i < |s| => if 'A' <= s[i] <= 'Z' then (s[i] as int + 32) as char else s[i])
  }

  // ---------------------------------------------------------------------
  // The matches.

  predicate GrantedByClaim(claim: string, m: Match) {
    claim in APP_ROLE_TABLE && m == Match(APP_ROLE_TABLE[claim], AppRole(claim))
  }

  predicate ClaimGrants(claims: seq<string>, m: Match) {
    exists i :: 0 <= i < |claims| && GrantedByClaim(claims[i], m)
  }

  predicate MemberOf(groups: seq<string>, groupId: string) {
    exists i :: 0 <= i < |groups| && Lower(groups[i]) == groupId
  }

  predicate GrantedByRule(groups: seq<string>, rule: GroupRule, m: Match) {
    MemberOf(groups, rule.groupId) && m == Match(rule.role, Group(rule.groupId))
  }

  predicate GroupGrants(groups: seq<string>, rules: seq<GroupRule>, m: Match) {
    exists j :: 0 <= j < |rules| && GrantedByRule(groups, rules[j], m)
  }

  predicate GroupsAnswered(input: EntraInput) {
    input.groups.Some? && input.groups.value.Answered?
  }

  /** What the inputs grant, as a set: their order and repetitions do not matter. */
  predicate Grants(input: EntraInput, m: Match) {
    ClaimGrants(input.claimRoles, m) ||
      (GroupsAnswered(input) && GroupGrants(input.groups.value.data, input.groupRules, m))
  }

  /** The answer the rules prescribe, as a condition on what the inputs grant. */
  ghost predicate Prescribed(input: EntraInput, resolution: Resolution) {
    if input.groupRules != [] && !GroupsAnswered(input) then resolution == Unknown
    else if exists m :: Grants(input, m) then resolution.Granted? && Best(input, resolution)
    else if input.userType.Failed? then resolution == Unknown
    else if input.userType.data == "Guest" || input.defaultRole.DenyByDefault? then resolution == Deny
    else resolution == Granted(input.defaultRole.role, [Default])
  }

  /** The highest privilege granted, and each source of it once. */
  ghost predicate Best(input: EntraInput, resolution: Resolution)
    requires resolution.Granted?
  {
    && (exists m :: Grants(input, m) && m.role == resolution.role)
    && (forall m :: Grants(input, m) ==> Rank(resolution.role) <= Rank(m.role))
    && (forall v :: v in resolution.via <==> Grants(input, Match(resolution.role, v)))
    && NoRepeats(resolution.via)
  }

  ghost predicate NoRepeats(via: seq<Via>) {
    forall i, j :: 0 <= i < j < |via| ==> via[i] != via[j]
  }

  /** `matches` lists exactly the matches of the predicate. */
  ghost predicate Lists(matches: seq<Match>, input: EntraInput) {
    forall m :: m in matches <==> Grants(input, m)
  }

  method CollectMatches(input: EntraInput) returns (matches: seq<Match>)
    ensures Lists(matches, input)
  {
    matches := [];
    for i := 0 to |input.claimRoles|
      invariant forall m :: m in matches <==> ClaimGrants(input.claimRoles[..i], m)
    {
      var claim := input.claimRoles[i];
      assert input.claimRoles[..i + 1] == input.claimRoles[..i] + [claim];
      ClaimStep(input.claimRoles, i);
      if claim in APP_ROLE_TABLE {
        matches := matches + [Match(APP_ROLE_TABLE[claim], AppRole(claim))];
      }
    }
    assert input.claimRoles[..|input.claimRoles|] == input.claimRoles;
    if GroupsAnswered(input) {
      ghost var claimed := matches;
      for j := 0 to |input.groupRules|
        invariant forall m :: m in matches <==>
          m in claimed || GroupGrants(input.groups.value.data, input.groupRules[..j], m)
      {
        var rule := input.groupRules[j];
        GroupStep(input.groups.value.data, input.groupRules, j);
        if MemberOf(input.groups.value.data, rule.groupId) {
          matches := matches + [Match(rule.role, Group(rule.groupId))];
        }
      }
      assert input.groupRules[..|input.groupRules|] == input.groupRules;
    }
  }

  lemma ClaimStep(claims: seq<string>, i: nat)
    requires i < |claims|
    ensures forall m :: ClaimGrants(claims[..i + 1], m) <==>
      (ClaimGrants(claims[..i], m) || GrantedByClaim(claims[i], m))
  {
    hide GrantedByClaim;
    var some, more := claims[..i], claims[..i + 1];
    assert more[i] == claims[i];
    assert forall k :: 0 <= k < i ==> more[k] == some[k];
    forall m
      ensures ClaimGrants(more, m) <==> (ClaimGrants(some, m) || GrantedByClaim(claims[i], m))
    {
      if ClaimGrants(some, m) {
        var k :| 0 <= k < |some| && GrantedByClaim(some[k], m);
        assert GrantedByClaim(more[k], m);
      }
    }
  }

  lemma GroupStep(groups: seq<string>, rules: seq<GroupRule>, j: nat)
    requires j < |rules|
    ensures forall m :: GroupGrants(groups, rules[..j + 1], m) <==>
      (GroupGrants(groups, rules[..j], m) || GrantedByRule(groups, rules[j], m))
  {
    hide GrantedByRule;
    var some, more := rules[..j], rules[..j + 1];
    assert more[j] == rules[j];
    assert forall k :: 0 <= k < j ==> more[k] == some[k];
    forall m
      ensures GroupGrants(groups, more, m) <==> (GroupGrants(groups, some, m) || GrantedByRule(groups, rules[j], m))
    {
      if GroupGrants(groups, some, m) {
        var k :| 0 <= k < |some| && GrantedByRule(groups, some[k], m);
        assert GrantedByRule(groups, more[k], m);
      }
    }
  }

  // ---------------------------------------------------------------------
  // The highest match.

  /** `reduce` over the matches: the first of the highest privilege. */
  method Highest(matches: seq<Match>) returns (best: Role)
    requires matches != []
    ensures exists i :: 0 <= i < |matches| && matches[i].role == best
    ensures forall i :: 0 <= i < |matches| ==> Rank(best) <= Rank(matches[i].role)
  {
    best := matches[0].role;
    for i := 1 to |matches|
      invariant exists k :: 0 <= k < |matches| && matches[k].role == best
      invariant forall k :: 0 <= k < i ==> Rank(best) <= Rank(matches[k].role)
    {
      if Rank(matches[i].role) < Rank(best) { best := matches[i].role; }
    }
  }

  /** The sources that grant a role, each once. */
  method SourcesOf(matches: seq<Match>, role: Role) returns (via: seq<Via>)
    ensures forall v :: v in via <==> Match(role, v) in matches
    ensures NoRepeats(via)
  {
    via := [];
    for i := 0 to |matches|
      invariant forall v :: v in via <==> Match(role, v) in matches[..i]
      invariant NoRepeats(via)
    {
      if matches[i].role == role && matches[i].via !in via {
        via := via + [matches[i].via];
      }
    }
  }

  method ResolveEntraRole(input: EntraInput) returns (resolution: Resolution)
    ensures Prescribed(input, resolution)
  {
    hide ClaimGrants, GroupGrants, Grants;
    var matches := CollectMatches(input);
    if |input.groupRules| > 0 && !GroupsAnswered(input) { return Unknown; }
    if |matches| > 0 {
      assert matches[0] in matches;
      var best := Highest(matches);
      var via := SourcesOf(matches, best);
      return Granted(best, via);
    }
    if input.userType.Answered? && input.userType.data == "Guest" { return Deny; }
    if input.userType.Failed? { return Unknown; }
    if input.defaultRole.DenyByDefault? { return Deny; }
    return Granted(input.defaultRole.role, [Default]);
  }

  method ResolveOidcRole(roles: seq<string>, defaultRole: DefaultRole) returns (resolution: Resolution)
    ensures Prescribed(EntraInput(roles, Answered("Member"), None, [], defaultRole), resolution)
  {
    hide ClaimGrants, GroupGrants, Grants;
    var matches := CollectMatches(EntraInput(roles, Answered("Member"), None, [], defaultRole));
    if |matches| > 0 {
      assert matches[0] in matches;
      var best := Highest(matches);
      var via := SourcesOf(matches, best);
      return Granted(best, via);
    }
    if defaultRole.DenyByDefault? { return Deny; }
    return Granted(defaultRole.role, [Default]);
  }

  /** Every role an answer can name is one of the intranet's. */
  predicate KnownRules(input: EntraInput) {
    && (forall j :: 0 <= j < |input.groupRules| ==> !input.groupRules[j].role.Other?)
    && (input.defaultRole.GrantByDefault? ==> !input.defaultRole.role.Other?)
  }

  /** The same claims, groups and rules, in whatever order and however often. */
  ghost predicate SameInputs(a: EntraInput, b: EntraInput) {
    && a.userType == b.userType && a.defaultRole == b.defaultRole
    && (GroupsAnswered(a) <==> GroupsAnswered(b))
    && (forall claim :: claim in a.claimRoles <==> claim in b.claimRoles)
    && (forall rule :: rule in a.groupRules <==> rule in b.groupRules)
    && (GroupsAnswered(a) && GroupsAnswered(b) ==>
      forall group :: group in a.groups.value.data <==> group in b.groups.value.data)
  }

  lemma SameInputsGrantTheSame(a: EntraInput, b: EntraInput, m: Match)
    requires SameInputs(a, b) && Grants(a, m)
    ensures Grants(b, m)
  {
    if ClaimGrants(a.claimRoles, m) {
      var i :| 0 <= i < |a.claimRoles| && GrantedByClaim(a.claimRoles[i], m);
      assert a.claimRoles[i] in a.claimRoles;
      var k :| 0 <= k < |b.claimRoles| && b.claimRoles[k] == a.claimRoles[i];
      assert GrantedByClaim(b.claimRoles[k], m);
    } else {
      var mine, other := a.groups.value.data, b.groups.value.data;
      var j :| 0 <= j < |a.groupRules| && GrantedByRule(mine, a.groupRules[j], m);
      assert a.groupRules[j] in a.groupRules;
      var k :| 0 <= k < |b.groupRules| && b.groupRules[k] == a.groupRules[j];
      var i :| 0 <= i < |mine| && Lower(mine[i]) == a.groupRules[j].groupId;
      assert mine[i] in mine;
      var l :| 0 <= l < |other| && other[l] == mine[i];
      assert GrantedByRule(other, b.groupRules[k], m);
    }
  }

  /** The order of claims, groups and rules, and repeats among them, do not change the answer. */
  lemma ResolutionIgnoresOrder(a: EntraInput, first: Resolution, b: EntraInput, second: Resolution)
    requires KnownRules(a) && SameInputs(a, b)
    requires Prescribed(a, first) && Prescribed(b, second)
    ensures if first.Granted?
      then second.Granted? && first.role == second.role && (forall v :: v in first.via <==> v in second.via)
      else first == second
  {
    forall m
      ensures Grants(a, m) <==> Grants(b, m)
    {
      if Grants(a, m) { SameInputsGrantTheSame(a, b, m); }
      if Grants(b, m) { SameInputsGrantTheSame(b, a, m); }
    }
    assert a.groupRules == [] <==> b.groupRules == [] by {
      if a.groupRules != [] { assert a.groupRules[0] in b.groupRules; }
      if b.groupRules != [] { assert b.groupRules[0] in a.groupRules; }
    }
    if first.Granted? && exists m :: Grants(a, m) {
      SameHighest(a, first, b, second);
    }
  }

  lemma SameHighest(a: EntraInput, first: Resolution, b: EntraInput, second: Resolution)
    requires KnownRules(a) && first.Granted? && second.Granted?
    requires forall m :: Grants(a, m) <==> Grants(b, m)
    requires Best(a, first) && Best(b, second)
    ensures first.role == second.role && (forall v :: v in first.via <==> v in second.via)
  {
    var m :| Grants(a, m) && m.role == first.role;
    var n :| Grants(b, n) && n.role == second.role;
    GrantsAreKnown(a, m);
    GrantsAreKnown(a, n);
    hide Grants;
    assert Rank(first.role) == Rank(second.role);
    forall v
      ensures v in first.via <==> v in second.via
    {
      assert Grants(a, Match(first.role, v)) <==> Grants(b, Match(first.role, v));
    }
  }

  lemma GrantsAreKnown(input: EntraInput, m: Match)
    requires KnownRules(input) && Grants(input, m)
    ensures !m.role.Other?
  {}

  /** More claims, groups or rules never lower a granted role. */
  lemma MoreAssignmentsNeverLower(a: EntraInput, first: Resolution, b: EntraInput, second: Resolution)
    requires Prescribed(a, first) && Prescribed(b, second) && first.Granted? && second.Granted?
    requires exists m :: Grants(a, m)
    requires forall m :: Grants(a, m) ==> Grants(b, m)
    ensures Rank(second.role) <= Rank(first.role)
  {
    hide Grants;
    var m :| Grants(a, m) && m.role == first.role;
  }

  /** The roles by privilege, the highest first. */
  const PRIVILEGES: seq<Role> := [Admin, Editor, DepartmentHead, TeamLead, Member, Guest]

  function ClaimOf(role: Role): string {
    match role
    case Admin => "Intranet.Admin"
    case Editor => "Intranet.Editor"
    case DepartmentHead => "Intranet.DepartmentHead"
    case TeamLead => "Intranet.TeamLead"
    case Member => "Intranet.Member"
    case Guest => "Intranet.Guest"
    case Other(_) => ""
  }

  /** A claim names the role, or a rule gives it to a group one is in. */
  ghost predicate IsGiven(input: EntraInput, role: Role) {
    (ClaimOf(role) in input.claimRoles && !role.Other?) ||
    exists rule :: rule in input.groupRules && rule.role == role && IsInGroup(input, rule.groupId)
  }

  ghost predicate IsInGroup(input: EntraInput, groupId: string) {
    GroupsAnswered(input) && exists group :: group in input.groups.value.data && Lower(group) == groupId
  }

  lemma GivenMeans(input: EntraInput, role: Role)
    ensures IsGiven(input, role) <==> exists m :: Grants(input, m) && m.role == role
  {
    if IsGiven(input, role) {
      GivenIsGranted(input, role);
    }
    if m :| Grants(input, m) && m.role == role {
      GrantedIsGiven(input, m);
    }
  }

  lemma GivenIsGranted(input: EntraInput, role: Role)
    requires IsGiven(input, role)
    ensures exists m :: Grants(input, m) && m.role == role
  {
    if ClaimOf(role) in input.claimRoles && !role.Other? {
      var i :| 0 <= i < |input.claimRoles| && input.claimRoles[i] == ClaimOf(role);
      var m := Match(role, AppRole(ClaimOf(role)));
      assert GrantedByClaim(input.claimRoles[i], m);
      assert Grants(input, m);
    } else {
      var rule :| rule in input.groupRules && rule.role == role && IsInGroup(input, rule.groupId);
      var group :| group in input.groups.value.data && Lower(group) == rule.groupId;
      var j :| 0 <= j < |input.groupRules| && input.groupRules[j] == rule;
      var i :| 0 <= i < |input.groups.value.data| && input.groups.value.data[i] == group;
      var m := Match(role, Group(rule.groupId));
      assert Lower(input.groups.value.data[i]) == rule.groupId;
      assert GrantedByRule(input.groups.value.data, input.groupRules[j], m);
      assert Grants(input, m);
    }
  }

  lemma GrantedIsGiven(input: EntraInput, m: Match)
    requires Grants(input, m)
    ensures IsGiven(input, m.role)
  {
    if ClaimGrants(input.claimRoles, m) {
      var i :| 0 <= i < |input.claimRoles| && GrantedByClaim(input.claimRoles[i], m);
      assert input.claimRoles[i] == ClaimOf(m.role);
    } else {
      var j :| 0 <= j < |input.groupRules| && GrantedByRule(input.groups.value.data, input.groupRules[j], m);
      var i :| 0 <= i < |input.groups.value.data| &&
        Lower(input.groups.value.data[i]) == input.groupRules[j].groupId;
      assert input.groupRules[j] in input.groupRules && input.groups.value.data[i] in input.groups.value.data;
      assert IsInGroup(input, input.groupRules[j].groupId);
    }
  }

  /** Of the roles somebody is given the answer grants the first in the order of the privileges. */
  lemma HighestPrivilegeWins(input: EntraInput, resolution: Resolution, k: nat)
    requires KnownRules(input) && Prescribed(input, resolution) && (input.groupRules == [] || GroupsAnswered(input))
    requires k < |PRIVILEGES| && IsGiven(input, PRIVILEGES[k])
    requires forall j :: 0 <= j < k ==> !IsGiven(input, PRIVILEGES[j])
    ensures resolution.Granted? && resolution.role == PRIVILEGES[k]
  {
    hide Grants, IsGiven;
    GivenMeans(input, PRIVILEGES[k]);
    var granted :| Grants(input, granted) && granted.role == PRIVILEGES[k];
    assert resolution.Granted? && Best(input, resolution);
    var best :| Grants(input, best) && best.role == resolution.role;
    GrantsAreKnown(input, best);
    GivenMeans(input, resolution.role);
    assert resolution.role in PRIVILEGES;
    var i :| 0 <= i < |PRIVILEGES| && PRIVILEGES[i] == resolution.role;
    assert Rank(PRIVILEGES[i]) == i && Rank(PRIVILEGES[k]) == k;
  }

  /** Texts are alike in lower case when their letters differ in case at most. */
  lemma LowerIgnoresCase(a: string, b: string)
    ensures Lower(a) == Lower(b) <==> |a| == |b| && forall i :: 0 <= i < |a| ==> SameLetter(a[i], b[i])
  {
    if Lower(a) == Lower(b) {
      forall i | 0 <= i < |a|
        ensures SameLetter(a[i], b[i])
      {
        assert Lower(a)[i] == Lower(b)[i];
      }
    }
  }

  predicate SameLetter(a: char, b: char) {
    a == b || ('A' <= a <= 'Z' && b as int == a as int + 32) || ('A' <= b <= 'Z' && a as int == b as int + 32)
  }

  // ---------------------------------------------------------------------
  // What a sign-in writes.

  datatype Provider = Entra | Oidc
  datatype Source = Manual | From(provider: Provider)
  datatype Mode = On | DryRun

  /** The role fields of a stored user. */
  datatype RoleState = RoleState(role: Option<Role>, source: Option<Source>, applied: Option<Role>)

  datatype Refusal = NotAssigned | Unavailable

  datatype Decision =
    | Reject(refusal: Refusal)
    | Create(role: Role)
    | ToManual
    | Assign(role: Role)
    | Note(role: Role)
    | Keep

  /** Dry-run creates nobody above member. */
  function CapForDryRun(role: Role): Role {
    if Rank(role) < Rank(Member) then Member else role
  }

  /** OIDC's role is the admission gate; Entra leaves a role of the intranet alone. */
  function DecideRoleWrite(user: Option<RoleState>, resolution: Resolution, mode: Mode, provider: Provider): Decision {
    match user
    case None => (
      match resolution
      case Unknown => Reject(Unavailable)
      case Deny => Reject(NotAssigned)
      case Granted(role, _) => Create(if mode == On then role else CapForDryRun(role)))
    case Some(state) =>
      if provider == Oidc && resolution == Deny then Reject(NotAssigned)
      else if state.source != Some(From(provider)) then Keep
      else if state.applied.Some? && state.applied != state.role then (if mode == DryRun then Keep else ToManual)
      else
        match resolution
        case Unknown => Keep
        case Deny => Reject(NotAssigned)
        case Granted(role, _) =>
          if mode == DryRun then Keep
          else if state.role != Some(role) then Assign(role)
          else if state.applied != Some(role) then Note(role)
          else Keep
  }

  /** The role fields after an existing user's decision is written. */
  function Write(state: RoleState, decision: Decision): RoleState {
    match decision
    case ToManual => state.(source := Some(Manual), applied := None)
    case Assign(role) => state.(role := Some(role), applied := Some(role))
    case Note(role) => state.(applied := Some(role))
    case _ => state
  }

  /** An admin's role change on an owned row that no sign-in has seen yet. */
  predicate Overridden(state: RoleState) {
    state.applied.Some? && state.applied != state.role
  }

  predicate Owned(state: RoleState, provider: Provider) {
    state.source == Some(From(provider))
  }

  /**
   * A sign-in changes an existing user's role only in mode on, on a row it owns,
   * to the role it was told, unless an admin changed it.
   */
  lemma RoleChangesExactlyWhen(state: RoleState, resolution: Resolution, mode: Mode, provider: Provider)
    ensures var after := Write(state, DecideRoleWrite(Some(state), resolution, mode, provider));
      && (after.role != state.role <==>
        && mode == On && Owned(state, provider) && !Overridden(state)
        && resolution.Granted? && state.role != Some(resolution.role))
      && (after.role != state.role ==> after.role == Some(resolution.role) && after.applied == after.role)
  {}

  /** A row leaves the provider's hands exactly when it is owned and an admin's change stands. */
  lemma TurnsManualExactlyWhen(state: RoleState, resolution: Resolution, mode: Mode, provider: Provider)
    ensures DecideRoleWrite(Some(state), resolution, mode, provider) == ToManual <==>
      mode == On && Owned(state, provider) && Overridden(state) && !(provider == Oidc && resolution == Deny)
  {}

  /** One sign-in settles the row: the next one with the same answer writes nothing. */
  lemma SignInSettles(state: RoleState, resolution: Resolution, mode: Mode, provider: Provider)
    ensures var first := DecideRoleWrite(Some(state), resolution, mode, provider);
      var again := DecideRoleWrite(Some(Write(state, first)), resolution, mode, provider);
      && Write(Write(state, first), again) == Write(state, first)
      && (first.Reject? <==> again.Reject?)
      && (mode == On && Owned(state, provider) && !Overridden(state) && resolution.Granted? ==>
        Write(state, first) == RoleState(Some(resolution.role), state.source, Some(resolution.role)))
  {}

  /** The role a newcomer gets: the one granted, which in dry-run is never above member. */
  function NewcomersRole(role: Role, mode: Mode): Role {
    if mode == DryRun && (role.Admin? || role.Editor? || role.DepartmentHead? || role.TeamLead?) then Member else role
  }

  /** A newcomer is created exactly when a role is granted; a deny and an unknown answer turn him away. */
  lemma NewcomersAreCreatedExactlyWhen(resolution: Resolution, mode: Mode, provider: Provider)
    ensures DecideRoleWrite(None, resolution, mode, provider) ==
      match resolution
      case Granted(role, _) => Create(NewcomersRole(role, mode))
      case Deny => Reject(NotAssigned)
      case Unknown => Reject(Unavailable)
  {}

  /** A stored user is turned away: denied by OIDC, or by Entra on a row it owns and no admin changed. */
  predicate TurnedAway(state: RoleState, resolution: Resolution, provider: Provider) {
    resolution == Deny && (provider == Oidc || (state.source == Some(From(Entra)) && !Overridden(state)))
  }

  /**
   * The role fields after a sign-in that is let in: with the sync on, an owned
   * row goes to the intranet when an admin changed its role, and otherwise
   * gets a granted role; every other row stays as it is.
   */
  function StateAfter(state: RoleState, resolution: Resolution, mode: Mode, provider: Provider): RoleState {
    if mode == DryRun || state.source != Some(From(provider)) then state
    else if Overridden(state) then RoleState(state.role, Some(Manual), None)
    else if resolution.Granted? then RoleState(Some(resolution.role), state.source, Some(resolution.role))
    else state
  }

  /** What a sign-in does to a stored user: who is turned away, and the fields it leaves of the others. */
  lemma StoredUsersAre(state: RoleState, resolution: Resolution, mode: Mode, provider: Provider)
    ensures var decision := DecideRoleWrite(Some(state), resolution, mode, provider);
      && !decision.Create? && (decision.Reject? ==> decision == Reject(NotAssigned))
      && (decision.Reject? <==> TurnedAway(state, resolution, provider))
      && (!decision.Reject? ==> Write(state, decision) == StateAfter(state, resolution, mode, provider))
      && (decision.Assign? <==> !decision.Reject? && StateAfter(state, resolution, mode, provider).role != state.role)
  {}

  /** Dry-run and an unknown answer never touch a stored user; dry-run creates nobody above member. */
  lemma DryRunAndUnknownWriteNothing(state: RoleState, resolution: Resolution, mode: Mode, provider: Provider)
    requires mode == DryRun || resolution == Unknown
    ensures Write(state, DecideRoleWrite(Some(state), resolution, mode, provider)).role == state.role
    ensures mode == DryRun ==> Write(state, DecideRoleWrite(Some(state), resolution, mode, provider)) == state
    ensures mode == DryRun && DecideRoleWrite(None, resolution, mode, provider).Create? ==>
      Rank(DecideRoleWrite(None, resolution, mode, provider).role) >= Rank(Member)
    ensures resolution == Unknown ==> DecideRoleWrite(None, resolution, mode, provider) == Reject(Unavailable)
  {}
}

/**
 * The (role, action) pairs the permission sync converges to
 * (computeDesiredGrants in apps/cms/src/bootstrap/permission-matrix.ts):
 * matrix grants and user reads, less the revocations, plus custom grants.
 */
module DesiredGrants {
  import opened Common
  import opened Permissions

  datatype UidActions = UidActions(uid: string, actions: seq<string>)
  datatype RoleGrants = RoleGrants(role: string, uids: seq<UidActions>)

  /** A custom action's roles; none stands for every role of the matrix. */
  datatype CustomGrant = CustomGrant(action: string, roles: Option<seq<string>>)
  datatype RoleActions = RoleActions(role: string, actions: seq<string>)

  datatype Constants = Constants(
    matrix: seq<RoleGrants>, userReadActions: seq<string>, custom: seq<CustomGrant>, revoked: seq<RoleActions>)

  datatype Source = Matrix | UserRead | Custom
  datatype Grant = Grant(pair: Pair, sources: seq<Source>)

  const USER_UID: string := "plugin::users-permissions.user"

  /** One pair for each action, under a prefix. */
  function PairsFor(role: string, prefix: string, actions: seq<string>): seq<Pair> {
    seq(|actions|, i requires 0 <= i < |actions| => Pair(role, prefix + actions[i]))
  }

  function UidPairs(role: string, uids: seq<UidActions>): seq<Pair> {
    if uids == [] then []
    else
      var last := uids[|uids| - 1];
      UidPairs(role, uids[..|uids| - 1]) + PairsFor(role, last.uid + ".", last.actions)
  }

  function MatrixPairs(matrix: seq<RoleGrants>): seq<Pair> {
    if matrix == [] then []
    else
      var last := matrix[|matrix| - 1];
      MatrixPairs(matrix[..|matrix| - 1]) + UidPairs(last.role, last.uids)
  }

  function UserReadPairs(matrix: seq<RoleGrants>, actions: seq<string>): seq<Pair> {
    if matrix == [] then []
    else
      UserReadPairs(matrix[..|matrix| - 1], actions) + PairsFor(matrix[|matrix| - 1].role, USER_UID + ".", actions)
  }

  function ActionPairs(roles: seq<string>, action: string): seq<Pair> {
    seq(|roles|, i requires 0 <= i < |roles| => Pair(roles[i], action))
  }

  function AllRoles(matrix: seq<RoleGrants>): seq<string> {
    seq(|matrix|, i requires 0 <= i < |matrix| => matrix[i].role)
  }

  function CustomPairs(custom: seq<CustomGrant>, allRoles: seq<string>): seq<Pair> {
    if custom == [] then []
    else
      var last := custom[|custom| - 1];
      CustomPairs(custom[..|custom| - 1], allRoles) +
      ActionPairs(if last.roles.Some? then last.roles.value else allRoles, last.action)
  }

  /** `computeRevocations`: every listed pair. */
  function Revocations(revoked: seq<RoleActions>): seq<Pair> {
    if revoked == [] then []
    else
      var last := revoked[|revoked| - 1];
      Revocations(revoked[..|revoked| - 1]) + PairsFor(last.role, "", last.actions)
  }

  ghost predicate Clean(pairs: seq<Pair>) {
    forall i :: 0 <= i < |pairs| ==> NoSpace(pairs[i].action)
  }

  predicate CleanList(actions: seq<string>) {
    forall i :: 0 <= i < |actions| ==> NoSpace(actions[i])
  }

  /** No uid and no action has a space. */
  ghost predicate CleanConstants(c: Constants) {
    && (forall i, j :: 0 <= i < |c.matrix| && 0 <= j < |c.matrix[i].uids| ==>
      NoSpace(c.matrix[i].uids[j].uid) && CleanList(c.matrix[i].uids[j].actions))
    && CleanList(c.userReadActions)
    && (forall i :: 0 <= i < |c.custom| ==> NoSpace(c.custom[i].action))
    && (forall i :: 0 <= i < |c.revoked| ==> CleanList(c.revoked[i].actions))
  }

  lemma PairsAreClean(role: string, prefix: string, actions: seq<string>)
    requires NoSpace(prefix) && CleanList(actions)
    ensures Clean(PairsFor(role, prefix, actions))
  {}

  lemma {:induction false} RevocationsAreClean(revoked: seq<RoleActions>)
    requires forall i :: 0 <= i < |revoked| ==> CleanList(revoked[i].actions)
    ensures Clean(Revocations(revoked))
  {
    if revoked != [] {
      RevocationsAreClean(revoked[..|revoked| - 1]);
      PairsAreClean(revoked[|revoked| - 1].role, "", revoked[|revoked| - 1].actions);
    }
  }

  type Grants = map<string, Grant>

  /** The map holds, under its key, each pair with a source, and its sources once each. */
  ghost predicate Represents(grants: Grants, facts: set<(Pair, Source)>) {
    && (forall fact :: fact in facts ==> NoSpace(fact.0.action) && KeyOf(fact.0) in grants)
    && (forall key :: key in grants ==> Entry(key, grants[key], facts))
  }

  ghost predicate Entry(key: string, grant: Grant, facts: set<(Pair, Source)>) {
    && NoSpace(grant.pair.action) && KeyOf(grant.pair) == key && grant.sources != []
    && (forall source :: source in grant.sources <==> (grant.pair, source) in facts)
    && (forall i, j :: 0 <= i < j < |grant.sources| ==> grant.sources[i] != grant.sources[j])
  }

  /** One pair from one source. */
  method Add(grants: Grants, p: Pair, source: Source, ghost facts: set<(Pair, Source)>) returns (after: Grants)
    requires Represents(grants, facts) && NoSpace(p.action)
    ensures Represents(after, facts + {(p, source)})
  {
    hide NoSpace, KeyOf;
    var key := KeyOf(p);
    var grant := if key in grants then grants[key] else Grant(p, []);
    SameEntry(grants, facts, p);
    if source !in grant.sources {
      grant := grant.(sources := grant.sources + [source]);
    }
    after := grants[key := grant];
    forall other | other in after
      ensures Entry(other, after[other], facts + {(p, source)})
    {
      if other != key { assert Entry(other, grants[other], facts); }
    }
  }

  /** The entry under a pair's key is that pair's. */
  lemma SameEntry(grants: Grants, facts: set<(Pair, Source)>, p: Pair)
    requires Represents(grants, facts) && NoSpace(p.action)
    ensures KeyOf(p) in grants ==> grants[KeyOf(p)].pair == p
    ensures forall source :: (p, source) in facts ==> KeyOf(p) in grants && source in grants[KeyOf(p)].sources
    ensures KeyOf(p) in grants <==> exists source :: (p, source) in facts
  {
    hide NoSpace, KeyOf;
    if KeyOf(p) in grants {
      assert Entry(KeyOf(p), grants[KeyOf(p)], facts);
      KeyIsInjective(p, grants[KeyOf(p)].pair);
      assert grants[KeyOf(p)].sources[0] in grants[KeyOf(p)].sources;
    }
  }

  function FactsOf(pairs: seq<Pair>, source: Source): set<(Pair, Source)> {
    set i | 0 <= i < |pairs| :: (pairs[i], source)
  }

  method AddAll(grants: Grants, pairs: seq<Pair>, source: Source, ghost facts: set<(Pair, Source)>)
    returns (after: Grants)
    requires Represents(grants, facts) && Clean(pairs)
    ensures Represents(after, facts + FactsOf(pairs, source))
  {
    hide Represents, NoSpace;
    after := grants;
    assert facts + FactsOf(pairs[..0], source) == facts;
    for i := 0 to |pairs|
      invariant Represents(after, facts + FactsOf(pairs[..i], source))
    {
      ghost var before := facts + FactsOf(pairs[..i], source);
      after := Add(after, pairs[i], source, before);
      FactsStep(pairs, i, source);
      assert before + {(pairs[i], source)} == facts + FactsOf(pairs[..i + 1], source);
    }
    assert pairs[..|pairs|] == pairs;
  }

  lemma FactsStep(pairs: seq<Pair>, i: nat, source: Source)
    requires i < |pairs|
    ensures FactsOf(pairs[..i + 1], source) == FactsOf(pairs[..i], source) + {(pairs[i], source)}
  {
    assert pairs[..i + 1] == pairs[..i] + [pairs[i]];
    FactsJoin(pairs[..i], [pairs[i]], source);
    assert FactsOf([pairs[i]], source) == {(pairs[i], source)};
  }

  lemma FactsJoin(a: seq<Pair>, b: seq<Pair>, source: Source)
    ensures FactsOf(a + b, source) == FactsOf(a, source) + FactsOf(b, source)
  {
    forall fact
      ensures fact in FactsOf(a + b, source) <==> fact in FactsOf(a, source) || fact in FactsOf(b, source)
    {
      if fact in FactsOf(a, source) {
        var i :| 0 <= i < |a| && fact == (a[i], source);
        assert (a + b)[i] == a[i];
      }
      if fact in FactsOf(b, source) {
        var i :| 0 <= i < |b| && fact == (b[i], source);
        assert (a + b)[|a| + i] == b[i];
      }
    }
  }

  /** The facts about the pairs of a list are gone. */
  function Without(facts: set<(Pair, Source)>, pairs: seq<Pair>): set<(Pair, Source)> {
    set fact | fact in facts && fact.0 !in pairs
  }

  method DeleteAll(grants: Grants, pairs: seq<Pair>, ghost facts: set<(Pair, Source)>) returns (after: Grants)
    requires Represents(grants, facts) && Clean(pairs)
    ensures Represents(after, Without(facts, pairs))
  {
    hide NoSpace, KeyOf;
    after := grants;
    assert Without(facts, pairs[..0]) == facts;
    for i := 0 to |pairs|
      invariant Represents(after, Without(facts, pairs[..i]))
    {
      DeleteStep(after, facts, pairs, i);
      after := after - {KeyOf(pairs[i])};
    }
    assert pairs[..|pairs|] == pairs;
  }

  lemma DeleteStep(grants: Grants, facts: set<(Pair, Source)>, pairs: seq<Pair>, i: nat)
    requires i < |pairs| && Clean(pairs) && Represents(grants, Without(facts, pairs[..i]))
    ensures Represents(grants - {KeyOf(pairs[i])}, Without(facts, pairs[..i + 1]))
  {
    hide NoSpace, KeyOf;
    var before, after := Without(facts, pairs[..i]), Without(facts, pairs[..i + 1]);
    assert pairs[..i + 1] == pairs[..i] + [pairs[i]];
    SameEntry(grants, before, pairs[i]);
    forall fact
      ensures fact in after <==> fact in before && fact.0 != pairs[i]
    {}
    forall fact | fact in after
      ensures NoSpace(fact.0.action) && KeyOf(fact.0) in grants && KeyOf(fact.0) != KeyOf(pairs[i])
    {
      if KeyOf(fact.0) == KeyOf(pairs[i]) { KeyIsInjective(fact.0, pairs[i]); }
    }
    forall key | key in grants && key != KeyOf(pairs[i])
      ensures Entry(key, grants[key], after)
    {
      assert Entry(key, grants[key], before);
    }
  }

  /** The matrix names a uid's action for the role. */
  ghost predicate InMatrix(matrix: seq<RoleGrants>, p: Pair) {
    exists i :: 0 <= i < |matrix| && matrix[i].role == p.role && InUids(matrix[i].uids, p.action)
  }

  ghost predicate InUids(uids: seq<UidActions>, action: string) {
    exists j :: 0 <= j < |uids| && IsOneOf(uids[j].uid + ".", uids[j].actions, action)
  }

  ghost predicate IsOneOf(prefix: string, actions: seq<string>, action: string) {
    exists k :: 0 <= k < |actions| && action == prefix + actions[k]
  }

  ghost predicate IsRole(matrix: seq<RoleGrants>, role: string) {
    exists i :: 0 <= i < |matrix| && matrix[i].role == role
  }

  /** A custom grant gives the action to the role: one it lists, or any of the matrix when it lists none. */
  ghost predicate InCustom(c: Constants, p: Pair) {
    exists i :: 0 <= i < |c.custom| && c.custom[i].action == p.action &&
      if c.custom[i].roles.Some? then p.role in c.custom[i].roles.value else IsRole(c.matrix, p.role)
  }

  predicate Revokes(r: RoleActions, p: Pair) {
    r.role == p.role && p.action in r.actions
  }

  ghost predicate IsRevoked(revoked: seq<RoleActions>, p: Pair) {
    exists i :: 0 <= i < |revoked| && Revokes(revoked[i], p)
  }

  /** Whether the code wants a pair from a source. */
  ghost predicate Wants(c: Constants, p: Pair, source: Source) {
    match source
    case Custom => InCustom(c, p)
    case Matrix => InMatrix(c.matrix, p) && !IsRevoked(c.revoked, p)
    case UserRead =>
      IsRole(c.matrix, p.role) && IsOneOf("plugin::users-permissions.user" + ".", c.userReadActions, p.action) &&
      !IsRevoked(c.revoked, p)
  }

  lemma PairsMean(role: string, prefix: string, actions: seq<string>, p: Pair)
    ensures p in PairsFor(role, prefix, actions) <==> p.role == role && IsOneOf(prefix, actions, p.action)
  {
    if p.role == role && IsOneOf(prefix, actions, p.action) {
      var k :| 0 <= k < |actions| && p.action == prefix + actions[k];
      assert PairsFor(role, prefix, actions)[k] == p;
    }
  }

  lemma {:induction false} UidPairsMean(role: string, uids: seq<UidActions>, p: Pair)
    ensures p in UidPairs(role, uids) <==> p.role == role && InUids(uids, p.action)
  {
    hide IsOneOf;
    if uids != [] {
      var last := |uids| - 1;
      UidPairsMean(role, uids[..last], p);
      PairsMean(role, uids[last].uid + ".", uids[last].actions, p);
      if InUids(uids[..last], p.action) {
        var j :| 0 <= j < last && IsOneOf(uids[..last][j].uid + ".", uids[..last][j].actions, p.action);
        assert uids[j] == uids[..last][j];
      }
      if InUids(uids, p.action) {
        var j :| 0 <= j < |uids| && IsOneOf(uids[j].uid + ".", uids[j].actions, p.action);
        assert j < last ==> uids[j] == uids[..last][j];
      }
    }
  }

  lemma {:induction false} MatrixPairsMean(matrix: seq<RoleGrants>, p: Pair)
    ensures p in MatrixPairs(matrix) <==> InMatrix(matrix, p)
  {
    hide InUids, UidPairs;
    if matrix != [] {
      var last := |matrix| - 1;
      MatrixPairsMean(matrix[..last], p);
      UidPairsMean(matrix[last].role, matrix[last].uids, p);
      assert forall i :: 0 <= i < last ==> matrix[..last][i] == matrix[i];
      if InMatrix(matrix[..last], p) {
        var i :| 0 <= i < last && matrix[..last][i].role == p.role && InUids(matrix[..last][i].uids, p.action);
        assert matrix[i].role == p.role && InUids(matrix[i].uids, p.action);
      }
      if InMatrix(matrix, p) {
        var i :| 0 <= i < |matrix| && matrix[i].role == p.role && InUids(matrix[i].uids, p.action);
        assert i < last ==> matrix[..last][i].role == p.role && InUids(matrix[..last][i].uids, p.action);
      }
    }
  }

  lemma {:induction false} UserReadPairsMean(matrix: seq<RoleGrants>, actions: seq<string>, p: Pair)
    ensures p in UserReadPairs(matrix, actions) <==>
      IsRole(matrix, p.role) && IsOneOf(USER_UID + ".", actions, p.action)
  {
    hide IsOneOf, PairsFor;
    if matrix != [] {
      var last := |matrix| - 1;
      UserReadPairsMean(matrix[..last], actions, p);
      PairsMean(matrix[last].role, USER_UID + ".", actions, p);
      RolesSplit(matrix, p.role);
    }
  }

  lemma RolesSplit(matrix: seq<RoleGrants>, role: string)
    requires matrix != []
    ensures IsRole(matrix, role) <==> IsRole(matrix[..|matrix| - 1], role) || matrix[|matrix| - 1].role == role
  {
    var last := |matrix| - 1;
    assert forall i :: 0 <= i < last ==> matrix[..last][i] == matrix[i];
    if IsRole(matrix[..last], role) {
      var i :| 0 <= i < last && matrix[..last][i].role == role;
      assert matrix[i].role == role;
    }
    if IsRole(matrix, role) {
      var i :| 0 <= i < |matrix| && matrix[i].role == role;
      assert i < last ==> matrix[..last][i].role == role;
    }
  }

  lemma ActionPairsMean(roles: seq<string>, action: string, p: Pair)
    ensures p in ActionPairs(roles, action) <==> p.action == action && p.role in roles
  {
    if p.action == action && p.role in roles {
      var i :| 0 <= i < |roles| && roles[i] == p.role;
      assert ActionPairs(roles, action)[i] == p;
    }
  }

  lemma AllRolesMean(matrix: seq<RoleGrants>, role: string)
    ensures role in AllRoles(matrix) <==> IsRole(matrix, role)
  {
    if IsRole(matrix, role) {
      var i :| 0 <= i < |matrix| && matrix[i].role == role;
      assert AllRoles(matrix)[i] == role;
    }
  }

  ghost predicate GivesTo(grant: CustomGrant, allRoles: seq<string>, p: Pair) {
    grant.action == p.action && p.role in if grant.roles.Some? then grant.roles.value else allRoles
  }

  lemma {:induction false} CustomPairsMean(custom: seq<CustomGrant>, allRoles: seq<string>, p: Pair)
    ensures p in CustomPairs(custom, allRoles) <==> exists i :: 0 <= i < |custom| && GivesTo(custom[i], allRoles, p)
  {
    hide ActionPairs;
    if custom != [] {
      var last := |custom| - 1;
      CustomPairsMean(custom[..last], allRoles, p);
      ActionPairsMean(if custom[last].roles.Some? then custom[last].roles.value else allRoles, custom[last].action, p);
      assert forall i :: 0 <= i < last ==> custom[..last][i] == custom[i];
    }
  }

  lemma {:induction false} RevocationsMean(revoked: seq<RoleActions>, p: Pair)
    ensures p in Revocations(revoked) <==> IsRevoked(revoked, p)
  {
    hide PairsFor, Revokes;
    if revoked != [] {
      var last := |revoked| - 1;
      RevocationsMean(revoked[..last], p);
      RevokedByOne(revoked[last], p);
      assert forall i :: 0 <= i < last ==> revoked[..last][i] == revoked[i];
    }
  }

  lemma RevokedByOne(r: RoleActions, p: Pair)
    ensures p in PairsFor(r.role, "", r.actions) <==> Revokes(r, p)
  {
    PairsMean(r.role, "", r.actions, p);
    assert forall k :: 0 <= k < |r.actions| ==> "" + r.actions[k] == r.actions[k];
  }

  /** The lists the grants are made of hold exactly the wanted pairs. */
  lemma ListsMean(c: Constants, p: Pair, source: Source)
    ensures Wants(c, p, source) <==>
      match source
      case Custom => p in CustomPairs(c.custom, AllRoles(c.matrix))
      case Matrix => p in MatrixPairs(c.matrix) && p !in Revocations(c.revoked)
      case UserRead => p in UserReadPairs(c.matrix, c.userReadActions) && p !in Revocations(c.revoked)
  {
    hide IsOneOf, InMatrix, IsRevoked, MatrixPairs, UserReadPairs, CustomPairs, Revocations, AllRoles;
    MatrixPairsMean(c.matrix, p);
    UserReadPairsMean(c.matrix, c.userReadActions, p);
    RevocationsMean(c.revoked, p);
    AllRolesMean(c.matrix, p.role);
    CustomPairsMean(c.custom, AllRoles(c.matrix), p);
    if InCustom(c, p) {
      var i :| 0 <= i < |c.custom| && c.custom[i].action == p.action &&
        if c.custom[i].roles.Some? then p.role in c.custom[i].roles.value else IsRole(c.matrix, p.role);
      assert GivesTo(c.custom[i], AllRoles(c.matrix), p);
    }
  }

  /** The matrix and user-read pairs of the first roles, as facts. */
  function BaseFacts(matrix: seq<RoleGrants>, userReads: seq<string>): set<(Pair, Source)> {
    FactsOf(MatrixPairs(matrix), Matrix) + FactsOf(UserReadPairs(matrix, userReads), UserRead)
  }

  method AddRole(grants: Grants, matrix: seq<RoleGrants>, i: nat, userReads: seq<string>) returns (after: Grants)
    requires i < |matrix| && Represents(grants, BaseFacts(matrix[..i], userReads))
    requires forall j :: 0 <= j < |matrix[i].uids| ==>
      NoSpace(matrix[i].uids[j].uid) && CleanList(matrix[i].uids[j].actions)
    requires CleanList(userReads)
    ensures Represents(after, BaseFacts(matrix[..i + 1], userReads))
  {
    hide Represents, NoSpace, FactsOf;
    var role, uids := matrix[i].role, matrix[i].uids;
    ghost var before := BaseFacts(matrix[..i], userReads);
    after := grants;
    assert before + FactsOf(UidPairs(role, uids[..0]), Matrix) == before by { NoFacts(Matrix); }
    for j := 0 to |uids|
      invariant Represents(after, before + FactsOf(UidPairs(role, uids[..j]), Matrix))
    {
      ghost var facts := before + FactsOf(UidPairs(role, uids[..j]), Matrix);
      var pairs := PairsFor(role, uids[j].uid + ".", uids[j].actions);
      DotIsClean(uids[j].uid);
      PairsAreClean(role, uids[j].uid + ".", uids[j].actions);
      after := AddAll(after, pairs, Matrix, facts);
      assert uids[..j + 1][..j] == uids[..j];
      FactsJoin(UidPairs(role, uids[..j]), pairs, Matrix);
      assert facts + FactsOf(pairs, Matrix) == before + FactsOf(UidPairs(role, uids[..j + 1]), Matrix);
    }
    assert uids[..|uids|] == uids;
    ghost var facts := before + FactsOf(UidPairs(role, uids), Matrix);
    var pairs := PairsFor(role, USER_UID + ".", userReads);
    UserUidIsClean();
    PairsAreClean(role, USER_UID + ".", userReads);
    after := AddAll(after, pairs, UserRead, facts);
    assert matrix[..i + 1][..i] == matrix[..i];
    FactsJoin(MatrixPairs(matrix[..i]), UidPairs(role, uids), Matrix);
    FactsJoin(UserReadPairs(matrix[..i], userReads), pairs, UserRead);
    assert facts + FactsOf(pairs, UserRead) == BaseFacts(matrix[..i + 1], userReads);
  }

  lemma NoFacts(source: Source)
    ensures FactsOf([], source) == {}
  {}

  lemma DotIsClean(uid: string)
    requires NoSpace(uid)
    ensures NoSpace(uid + ".")
  {}

  lemma UserUidIsClean()
    ensures NoSpace(USER_UID + ".")
  {}

  /**
   * The desired pairs: custom grants, and matrix or user-read grants that
   * are not revoked; each once, with exactly its sources.
   */
  method ComputeDesiredGrants(c: Constants) returns (grants: Grants)
    requires CleanConstants(c)
    ensures forall p: Pair :: NoSpace(p.action) ==> (KeyOf(p) in grants <==> exists source :: Wants(c, p, source))
    ensures forall key :: key in grants ==>
      KeyOf(grants[key].pair) == key && forall source :: source in grants[key].sources <==>
        Wants(c, grants[key].pair, source)
  {
    hide Represents, NoSpace, FactsOf, KeyOf;
    grants := map[];
    NothingYet(c.userReadActions);
    assert c.matrix[..0] == [];
    for i := 0 to |c.matrix|
      invariant Represents(grants, BaseFacts(c.matrix[..i], c.userReadActions))
    {
      grants := AddRole(grants, c.matrix, i, c.userReadActions);
    }
    assert c.matrix[..|c.matrix|] == c.matrix;
    var revocations := Revocations(c.revoked);
    RevocationsAreClean(c.revoked);
    ghost var kept := Without(BaseFacts(c.matrix, c.userReadActions), revocations);
    grants := DeleteAll(grants, revocations, BaseFacts(c.matrix, c.userReadActions));
    var allRoles := AllRoles(c.matrix);
    assert kept + FactsOf(CustomPairs(c.custom[..0], allRoles), Custom) == kept by { NoFacts(Custom); }
    for i := 0 to |c.custom|
      invariant Represents(grants, kept + FactsOf(CustomPairs(c.custom[..i], allRoles), Custom))
    {
      var grant := c.custom[i];
      var pairs := ActionPairs(if grant.roles.Some? then grant.roles.value else allRoles, grant.action);
      ghost var facts := kept + FactsOf(CustomPairs(c.custom[..i], allRoles), Custom);
      grants := AddAll(grants, pairs, Custom, facts);
      assert c.custom[..i + 1][..i] == c.custom[..i];
      FactsJoin(CustomPairs(c.custom[..i], allRoles), pairs, Custom);
      assert facts + FactsOf(pairs, Custom) == kept + FactsOf(CustomPairs(c.custom[..i + 1], allRoles), Custom);
    }
    assert c.custom[..|c.custom|] == c.custom;
    GrantsAreWanted(c, grants);
  }

  lemma NothingYet(userReads: seq<string>)
    ensures BaseFacts([], userReads) == {} && Represents(map[], {})
  {}

  lemma GrantsAreWanted(c: Constants, grants: Grants)
    requires Represents(grants,
      Without(BaseFacts(c.matrix, c.userReadActions), Revocations(c.revoked)) +
        FactsOf(CustomPairs(c.custom, AllRoles(c.matrix)), Custom))
    ensures forall p: Pair :: NoSpace(p.action) ==> (KeyOf(p) in grants <==> exists source :: Wants(c, p, source))
    ensures forall key :: key in grants ==>
      KeyOf(grants[key].pair) == key && forall source :: source in grants[key].sources <==>
        Wants(c, grants[key].pair, source)
  {
    hide NoSpace, KeyOf, Wants;
    var facts := Without(BaseFacts(c.matrix, c.userReadActions), Revocations(c.revoked)) +
      FactsOf(CustomPairs(c.custom, AllRoles(c.matrix)), Custom);
    forall p: Pair, source
      ensures (p, source) in facts <==> Wants(c, p, source)
    {
      ListsMean(c, p, source);
      FactsMean(MatrixPairs(c.matrix), Matrix, p, source);
      FactsMean(UserReadPairs(c.matrix, c.userReadActions), UserRead, p, source);
      FactsMean(CustomPairs(c.custom, AllRoles(c.matrix)), Custom, p, source);
    }
    forall p: Pair | NoSpace(p.action)
      ensures KeyOf(p) in grants <==> exists source :: Wants(c, p, source)
    {
      SameEntry(grants, facts, p);
    }
    forall key | key in grants
      ensures KeyOf(grants[key].pair) == key
      ensures forall source :: source in grants[key].sources <==> Wants(c, grants[key].pair, source)
    {
      assert Entry(key, grants[key], facts);
    }
  }

  lemma FactsMean(pairs: seq<Pair>, source: Source, p: Pair, other: Source)
    ensures (p, other) in FactsOf(pairs, source) <==> other == source && p in pairs
  {
    if p in pairs {
      var i :| 0 <= i < |pairs| && pairs[i] == p;
      assert (pairs[i], source) in FactsOf(pairs, source);
    }
  }
}

/**
 * The permission sync (apps/cms/src/bootstrap/sync-permissions.ts and
 * computeDesiredGrants in permission-matrix.ts): which (role, action) pairs
 * the code wants, and the writes that make the table converge to them.
 */
module Permissions {
  import opened Common

  datatype Pair = Pair(role: string, action: string)

  function PairKey(role: string, action: string): string {
    role + " " + action
  }

  function KeyOf(p: Pair): string {
    PairKey(p.role, p.action)
  }

  predicate NoSpace(action: string) {
    forall i :: 0 <= i < |action| ==> action[i] != ' '
  }

  /** A key names one pair, as long as actions have no space; roles may. */
  lemma KeyIsInjective(p: Pair, q: Pair)
    requires NoSpace(p.action) && NoSpace(q.action) && KeyOf(p) == KeyOf(q)
    ensures p == q
  {
    LastSpace(p);
    LastSpace(q);
    var key := KeyOf(p);
    assert |p.role| == |q.role|;
    assert key[..|p.role|] == p.role && key[..|q.role|] == q.role;
    assert key[|p.role| + 1..] == p.action && key[|q.role| + 1..] == q.action;
  }

  lemma LastSpace(p: Pair)
    requires NoSpace(p.action)
    ensures KeyOf(p)[|p.role|] == ' ' && forall i :: |p.role| < i < |KeyOf(p)| ==> KeyOf(p)[i] != ' '
  {
    forall i | |p.role| < i < |KeyOf(p)|
      ensures KeyOf(p)[i] != ' '
    {
      assert KeyOf(p)[i] == p.action[i - |p.role| - 1];
    }
  }

  /** The code's own pairs: neither role nor action has a space. */
  ghost predicate Plain(pairs: seq<Pair>) {
    forall i :: 0 <= i < |pairs| ==> IsPlain(pairs[i])
  }

  predicate IsPlain(p: Pair) {
    NoSpace(p.role) && NoSpace(p.action)
  }

  /** Such a pair's key is no other pair's, whatever that one's role and action hold. */
  lemma PlainKeyIsItsOwn(p: Pair, q: Pair)
    requires IsPlain(p) && KeyOf(p) == KeyOf(q)
    ensures p == q
  {
    var key := KeyOf(q);
    assert key[|q.role|] == ' ' && KeyOf(p)[|p.role|] == ' ';
    assert forall i :: 0 <= i < |p.role| ==> KeyOf(p)[i] == p.role[i];
    LastSpace(p);
    assert |p.role| == |q.role|;
    assert key[..|p.role|] == p.role && key[..|q.role|] == q.role;
    assert key[|p.role| + 1..] == p.action && key[|q.role| + 1..] == q.action;
  }

  /** `new Set(pairs.map(key))`. */
  function Keys(pairs: seq<Pair>): set<string> {
    set i | 0 <= i < |pairs| :: KeyOf(pairs[i])
  }

  lemma KeysMean(pairs: seq<Pair>, p: Pair)
    requires Plain(pairs)
    ensures KeyOf(p) in Keys(pairs) <==> p in pairs
  {
    if KeyOf(p) in Keys(pairs) {
      var i :| 0 <= i < |pairs| && KeyOf(pairs[i]) == KeyOf(p);
      PlainKeyIsItsOwn(pairs[i], p);
    }
  }

  // ---------------------------------------------------------------------
  // The plan.

  datatype Existing = Existing(id: nat, action: string, roleType: Option<string>)
  datatype NewRow = NewRow(roleType: string, roleId: nat, action: string)
  datatype Plan = Plan(create: seq<NewRow>, revokeIds: seq<nat>, drift: set<Pair>)

  function PairOf(row: Existing): Pair
    requires row.roleType.Some?
  {
    Pair(row.roleType.value, row.action)
  }

  predicate Holds(existing: seq<Existing>, p: Pair) {
    exists i :: 0 <= i < |existing| && existing[i].roleType.Some? && PairOf(existing[i]) == p
  }

  /** A pair the code revokes and does not also want. */
  predicate Revoked(desired: seq<Pair>, revocations: seq<Pair>, p: Pair) {
    p in revocations && p !in desired
  }

  predicate RevokedRow(desired: seq<Pair>, revocations: seq<Pair>, row: Existing) {
    row.roleType.Some? && Revoked(desired, revocations, PairOf(row))
  }

  predicate Managed(desired: seq<Pair>, revocations: seq<Pair>, action: string) {
    exists p: Pair :: p in desired + revocations && p.action == action
  }

  predicate Missing(desired: seq<Pair>, roleIdByType: map<string, nat>, existing: seq<Existing>, p: Pair) {
    p in desired && p.role in roleIdByType && !Holds(existing, p)
  }

  ghost predicate Unique(pairs: seq<Pair>) {
    forall i, j :: 0 <= i < j < |pairs| ==> pairs[i] != pairs[j]
  }

  /** No pair is to be created twice. */
  ghost predicate EachOnce(create: seq<NewRow>) {
    forall i, j :: 0 <= i < j < |create| ==>
      create[i].roleType != create[j].roleType || create[i].action != create[j].action
  }

  /**
   * What a plan lists: the missing pairs, each once when the desired ones are
   * unique, the ids of the revoked rows, ascending, and the drift.
   */
  ghost predicate PlanFor(plan: Plan, desired: seq<Pair>, revocations: seq<Pair>, roleIdByType: map<string, nat>,
                          existing: seq<Existing>) {
    && (forall c :: c in plan.create ==>
      Missing(desired, roleIdByType, existing, Pair(c.roleType, c.action)) && c.roleId == roleIdByType[c.roleType])
    && (forall p: Pair :: Missing(desired, roleIdByType, existing, p) ==>
      NewRow(p.role, roleIdByType[p.role], p.action) in plan.create)
    && (forall id :: id in plan.revokeIds <==>
      exists i :: 0 <= i < |existing| && existing[i].id == id && RevokedRow(desired, revocations, existing[i]))
    && Ascending(plan.revokeIds) && (Unique(desired) ==> EachOnce(plan.create))
    && (forall p: Pair :: p in plan.drift <==>
      Holds(existing, p) && ActionIsTheCodes(desired, revocations, p.action) && p !in desired && p !in revocations)
  }

  /** The code wants or revokes the action for some role. */
  ghost predicate ActionIsTheCodes(desired: seq<Pair>, revocations: seq<Pair>, action: string) {
    exists role: string :: Pair(role, action) in desired || Pair(role, action) in revocations
  }

  lemma ManagedMeans(desired: seq<Pair>, revocations: seq<Pair>, action: string)
    ensures Managed(desired, revocations, action) <==> ActionIsTheCodes(desired, revocations, action)
  {
    if Managed(desired, revocations, action) {
      var p: Pair :| p in desired + revocations && p.action == action;
      assert Pair(p.role, action) in desired || Pair(p.role, action) in revocations;
    }
    if ActionIsTheCodes(desired, revocations, action) {
      var role: string :| Pair(role, action) in desired || Pair(role, action) in revocations;
      assert Pair(role, action) in desired + revocations;
    }
  }

  predicate Ascending(ids: seq<nat>) {
    forall i, j :: 0 <= i < j < |ids| ==> ids[i] <= ids[j]
  }

  function Inserted(ids: seq<nat>, id: nat): seq<nat> {
    if ids == [] || id <= ids[0] then [id] + ids else [ids[0]] + Inserted(ids[1..], id)
  }

  lemma {:induction false} InsertedInOrder(ids: seq<nat>, id: nat)
    requires Ascending(ids)
    ensures var sorted := Inserted(ids, id);
      Ascending(sorted) && |sorted| == |ids| + 1 && forall x :: x in sorted <==> x in ids || x == id
  {
    if ids != [] && ids[0] < id {
      var rest := Inserted(ids[1..], id);
      InsertedInOrder(ids[1..], id);
      assert ids == [ids[0]] + ids[1..];
      forall k | 0 <= k < |rest|
        ensures ids[0] <= rest[k]
      {
        assert rest[k] in rest;
      }
    }
  }

  /** The ids in ascending order. */
  method SortIds(ids: seq<nat>) returns (sorted: seq<nat>)
    ensures Ascending(sorted) && |sorted| == |ids|
    ensures forall id :: id in sorted <==> id in ids
  {
    sorted := [];
    for i := 0 to |ids|
      invariant Ascending(sorted) && |sorted| == i
      invariant forall id :: id in sorted <==> id in ids[..i]
    {
      assert ids[..i + 1] == ids[..i] + [ids[i]];
      InsertedInOrder(sorted, ids[i]);
      sorted := Inserted(sorted, ids[i]);
    }
    assert ids[..|ids|] == ids;
  }

  /** What the walk over the existing rows has found after `n` of them. */
  ghost predicate Walked(held: set<string>, revokeIds: seq<nat>, drift: set<Pair>, n: nat,
                         desired: seq<Pair>, revocations: seq<Pair>, existing: seq<Existing>)
    requires n <= |existing|
  {
    && (forall key :: key in held <==>
      exists i :: 0 <= i < n && existing[i].roleType.Some? && KeyOf(PairOf(existing[i])) == key)
    && (forall id :: id in revokeIds <==>
      exists i :: 0 <= i < n && existing[i].id == id && RevokedRow(desired, revocations, existing[i]))
    && (forall p: Pair :: p in drift <==>
      Holds(existing[..n], p) && Managed(desired, revocations, p.action) && p !in desired && p !in revocations)
  }

  method PlanPermissionSync(desired: seq<Pair>, revocations: seq<Pair>, roleIdByType: map<string, nat>,
                            existing: seq<Existing>)
    returns (plan: Plan)
    requires Plain(desired) && Plain(revocations)
    ensures PlanFor(plan, desired, revocations, roleIdByType, existing)
  {
    var desiredKeys := Keys(desired);
    var revokedKeys := Keys(revocations) - desiredKeys;
    var held, revokeIds, drift := WalkRows(desiredKeys, revokedKeys, desired, revocations, existing);
    var create := WalkDesired(desired, roleIdByType, existing, held);
    assert existing[..|existing|] == existing;
    var sorted := SortIds(revokeIds);
    plan := Plan(create, sorted, drift);
    forall action
      ensures Managed(desired, revocations, action) <==> ActionIsTheCodes(desired, revocations, action)
    {
      ManagedMeans(desired, revocations, action);
    }
  }

  method WalkRows(desiredKeys: set<string>, revokedKeys: set<string>, desired: seq<Pair>, revocations: seq<Pair>,
                  existing: seq<Existing>)
    returns (held: set<string>, revokeIds: seq<nat>, drift: set<Pair>)
    requires Plain(desired) && Plain(revocations)
    requires desiredKeys == Keys(desired) && revokedKeys == Keys(revocations) - Keys(desired)
    ensures Walked(held, revokeIds, drift, |existing|, desired, revocations, existing)
  {
    hide Managed, IsPlain;
    held, revokeIds, drift := {}, [], {};
    for i := 0 to |existing|
      invariant Walked(held, revokeIds, drift, i, desired, revocations, existing)
    {
      var row := existing[i];
      assert existing[..i + 1] == existing[..i] + [row];
      HoldsStep(existing, i);
      if row.roleType.Some? {
        var p := PairOf(row);
        KeysMean(desired, p);
        KeysMean(revocations, p);
        held := held + {KeyOf(p)};
        if KeyOf(p) in revokedKeys {
          revokeIds := revokeIds + [row.id];
        } else if Managed(desired, revocations, row.action) && KeyOf(p) !in desiredKeys {
          drift := drift + {p};
        }
      }
    }
  }

  lemma HoldsStep(existing: seq<Existing>, i: nat)
    requires i < |existing|
    ensures forall p :: Holds(existing[..i + 1], p) <==>
      (Holds(existing[..i], p) || (existing[i].roleType.Some? && PairOf(existing[i]) == p))
  {
    var some, more := existing[..i], existing[..i + 1];
    assert more[i] == existing[i];
    assert forall k :: 0 <= k < i ==> more[k] == some[k];
    forall p
      ensures Holds(more, p) <==> (Holds(some, p) || (existing[i].roleType.Some? && PairOf(existing[i]) == p))
    {
      if Holds(some, p) {
        var k :| 0 <= k < |some| && some[k].roleType.Some? && PairOf(some[k]) == p;
        assert PairOf(more[k]) == p;
      }
    }
  }

  method WalkDesired(desired: seq<Pair>, roleIdByType: map<string, nat>, existing: seq<Existing>, held: set<string>)
    returns (create: seq<NewRow>)
    requires Plain(desired)
    requires forall key :: key in held <==>
      exists i :: 0 <= i < |existing| && existing[i].roleType.Some? && KeyOf(PairOf(existing[i])) == key
    ensures forall c :: c in create ==>
      Missing(desired, roleIdByType, existing, Pair(c.roleType, c.action)) && c.roleId == roleIdByType[c.roleType]
    ensures forall p: Pair :: Missing(desired, roleIdByType, existing, p) ==>
      NewRow(p.role, roleIdByType[p.role], p.action) in create
    ensures |create| <= |desired| && (Unique(desired) ==> EachOnce(create))
  {
    hide IsPlain;
    create := [];
    for i := 0 to |desired|
      invariant |create| <= i && (Unique(desired) ==> EachOnce(create))
      invariant forall c :: c in create ==> Pair(c.roleType, c.action) in desired[..i]
      invariant forall c :: c in create ==>
        Missing(desired, roleIdByType, existing, Pair(c.roleType, c.action)) && c.roleId == roleIdByType[c.roleType]
      invariant forall k :: 0 <= k < i && Missing(desired, roleIdByType, existing, desired[k]) ==>
        NewRow(desired[k].role, roleIdByType[desired[k].role], desired[k].action) in create
    {
      var p := desired[i];
      HeldMeans(existing, held, p);
      assert desired[..i + 1] == desired[..i] + [p];
      OnceMore(desired, create, i, roleIdByType);
      if p.role in roleIdByType && KeyOf(p) !in held {
        create := create + [NewRow(p.role, roleIdByType[p.role], p.action)];
      }
    }
  }

  lemma OnceMore(desired: seq<Pair>, create: seq<NewRow>, i: nat, roleIdByType: map<string, nat>)
    requires i < |desired| && (Unique(desired) ==> EachOnce(create))
    requires forall c :: c in create ==> Pair(c.roleType, c.action) in desired[..i]
    ensures forall roleId :: Unique(desired) ==> EachOnce(create + [NewRow(desired[i].role, roleId, desired[i].action)])
  {
    forall k | 0 <= k < |create|
      ensures Unique(desired) ==> create[k].roleType != desired[i].role || create[k].action != desired[i].action
    {
      assert create[k] in create;
    }
  }

  lemma HeldMeans(existing: seq<Existing>, held: set<string>, p: Pair)
    requires IsPlain(p)
    requires forall key :: key in held <==>
      exists i :: 0 <= i < |existing| && existing[i].roleType.Some? && KeyOf(PairOf(existing[i])) == key
    ensures KeyOf(p) in held <==> Holds(existing, p)
  {
    hide IsPlain;
    if KeyOf(p) in held {
      var i :| 0 <= i < |existing| && existing[i].roleType.Some? && KeyOf(PairOf(existing[i])) == KeyOf(p);
      PlainKeyIsItsOwn(p, PairOf(existing[i]));
    }
  }

  // ---------------------------------------------------------------------
  // The sync.

  /** A stored permission: its action (none when the column is not a string) and its role's id. */
  datatype Row = Row(action: Option<string>, role: Option<nat>)
  datatype RoleRow = RoleRow(id: nat, roleType: Option<string>)

  type Table = map<nat, Row>

  const REVOKE_CHUNK_SIZE: nat := 500

  /** A role's type by its id. */
  function TypeOfRole(roles: seq<RoleRow>, id: Option<nat>): Option<string> {
    if roles == [] || id.None? then None
    else if roles[0].id == id.value then roles[0].roleType
    else TypeOfRole(roles[1..], id)
  }

  /** The pair a stored row stands for, when it has an action and a role of a type. */
  function StoredPair(roles: seq<RoleRow>, row: Row): Option<Pair> {
    var roleType := TypeOfRole(roles, row.role);
    if row.action.Some? && roleType.Some? then Some(Pair(roleType.value, row.action.value)) else None
  }

  predicate Stored(roles: seq<RoleRow>, table: Table, p: Pair) {
    exists id :: id in table && StoredPair(roles, table[id]) == Some(p)
  }

  ghost predicate DistinctRoles(roles: seq<RoleRow>) {
    forall i, j :: 0 <= i < j < |roles| ==> roles[i].id != roles[j].id
  }

  lemma {:induction false} TypeOfItsRow(roles: seq<RoleRow>, i: nat)
    requires DistinctRoles(roles) && i < |roles|
    ensures TypeOfRole(roles, Some(roles[i].id)) == roles[i].roleType
  {
    if i > 0 {
      assert roles[0].id != roles[i].id && roles[1..][i - 1] == roles[i];
      TypeOfItsRow(roles[1..], i - 1);
    }
  }

  /** The roles' ids by type, the first row of a type winning. */
  method IdsByType(roles: seq<RoleRow>) returns (ids: map<string, nat>)
    requires DistinctRoles(roles)
    ensures forall t :: t in ids <==> RoleExists(roles, t)
    ensures forall t :: t in ids ==> TypeOfRole(roles, Some(ids[t])) == Some(t)
  {
    ids := map[];
    for i := 0 to |roles|
      invariant forall t :: t in ids <==> exists k :: 0 <= k < i && roles[k].roleType == Some(t)
      invariant forall t :: t in ids ==> TypeOfRole(roles, Some(ids[t])) == Some(t)
    {
      TypeOfItsRow(roles, i);
      if roles[i].roleType.Some? && roles[i].roleType.value !in ids {
        ids := ids[roles[i].roleType.value := roles[i].id];
      }
    }
  }

  /** The rows as the plan reads them; `listing` is the order the query answers them in. */
  method ReadExisting(roles: seq<RoleRow>, table: Table, listing: seq<nat>) returns (existing: seq<Existing>)
    requires forall id :: id in listing <==> id in table
    ensures forall e :: e in existing <==>
      e.id in table && table[e.id].action == Some(e.action) && e.roleType == TypeOfRole(roles, table[e.id].role)
  {
    existing := [];
    for i := 0 to |listing|
      invariant forall e :: e in existing <==>
        e.id in listing[..i] && table[e.id].action == Some(e.action) &&
          e.roleType == TypeOfRole(roles, table[e.id].role)
    {
      assert listing[..i + 1] == listing[..i] + [listing[i]];
      assert listing[i] in table;
      var row := table[listing[i]];
      if row.action.Some? {
        existing := existing + [Existing(listing[i], row.action.value, TypeOfRole(roles, row.role))];
      }
    }
    assert listing[..|listing|] == listing;
  }

  lemma ExistingMeans(roles: seq<RoleRow>, table: Table, existing: seq<Existing>, p: Pair)
    requires forall e :: e in existing <==>
      e.id in table && table[e.id].action == Some(e.action) && e.roleType == TypeOfRole(roles, table[e.id].role)
    ensures Holds(existing, p) <==> Stored(roles, table, p)
  {
    hide TypeOfRole;
    if Holds(existing, p) {
      var i :| 0 <= i < |existing| && existing[i].roleType.Some? && PairOf(existing[i]) == p;
      assert existing[i] in existing;
      assert StoredPair(roles, table[existing[i].id]) == Some(p);
    }
    if Stored(roles, table, p) {
      var id :| id in table && StoredPair(roles, table[id]) == Some(p);
      assert Existing(id, p.action, Some(p.role)) in existing;
    }
  }

  predicate RevokedStored(desired: seq<Pair>, revocations: seq<Pair>, roles: seq<RoleRow>, row: Row) {
    var p := StoredPair(roles, row);
    p.Some? && Revoked(desired, revocations, p.value)
  }

  predicate RoleExists(roles: seq<RoleRow>, roleType: string) {
    exists i :: 0 <= i < |roles| && roles[i].roleType == Some(roleType)
  }

  /** Nothing is missing and nothing revoked is left. */
  ghost predicate Converged(desired: seq<Pair>, revocations: seq<Pair>, roles: seq<RoleRow>, table: Table) {
    && (forall p: Pair :: p in desired && RoleExists(roles, p.role) ==> Stored(roles, table, p))
    && (forall id :: id in table ==> !RevokedStored(desired, revocations, roles, table[id]))
  }

  function RowOf(c: NewRow): Row {
    Row(Some(c.action), Some(c.roleId))
  }

  predicate Among(create: seq<NewRow>, row: Row) {
    exists c :: c in create && row == RowOf(c)
  }

  predicate IsNew(before: Table, after: Table, row: Row) {
    exists id :: id in after && id !in before && after[id] == row
  }

  /** `after` is `before` with a row for each of `create`, and no other. */
  ghost predicate Appended(before: Table, after: Table, create: seq<NewRow>) {
    && (forall id :: id in before ==> id in after && after[id] == before[id])
    && (forall id :: id in after && id !in before ==> Among(create, after[id]))
    && (forall c :: c in create ==> IsNew(before, after, RowOf(c)))
  }

  lemma AppendOne(before: Table, after: Table, create: seq<NewRow>, i: nat, id: nat)
    requires i < |create| && id !in after && Appended(before, after, create[..i])
    ensures Appended(before, after[id := RowOf(create[i])], create[..i + 1])
  {
    var some, more, grown := create[..i], create[..i + 1], after[id := RowOf(create[i])];
    assert more == some + [create[i]];
    assert grown[id] == RowOf(create[i]) && id !in before;
    forall c | c in some
      ensures IsNew(before, grown, RowOf(c))
    {
      var x :| x in after && x !in before && after[x] == RowOf(c);
      assert grown[x] == after[x];
    }
    forall x | x in grown && x !in before
      ensures Among(more, grown[x])
    {
      if x != id {
        var c :| c in some && after[x] == RowOf(c);
        assert c in more;
      } else {
        assert create[i] in more;
      }
    }
  }

  /** What the plan's writes are, on the stored rows. */
  ghost predicate Writes(plan: Plan, desired: seq<Pair>, revocations: seq<Pair>, roles: seq<RoleRow>, table: Table) {
    && (forall c :: c in plan.create ==>
      var p := Pair(c.roleType, c.action);
      p in desired && RoleExists(roles, p.role) && !Stored(roles, table, p) && StoredPair(roles, RowOf(c)) == Some(p))
    && (forall p: Pair :: p in desired && RoleExists(roles, p.role) && !Stored(roles, table, p) ==>
      exists c :: c in plan.create && StoredPair(roles, RowOf(c)) == Some(p))
    && (forall id :: id in plan.revokeIds <==> id in table && RevokedStored(desired, revocations, roles, table[id]))
  }

  lemma PlanMeans(desired: seq<Pair>, revocations: seq<Pair>, roles: seq<RoleRow>, ids: map<string, nat>,
                  table: Table, existing: seq<Existing>, plan: Plan)
    requires PlanFor(plan, desired, revocations, ids, existing)
    requires forall e :: e in existing <==>
      e.id in table && table[e.id].action == Some(e.action) && e.roleType == TypeOfRole(roles, table[e.id].role)
    requires forall t :: t in ids <==> RoleExists(roles, t)
    requires forall t :: t in ids ==> TypeOfRole(roles, Some(ids[t])) == Some(t)
    ensures Writes(plan, desired, revocations, roles, table)
  {
    hide TypeOfRole, Holds, Stored, Managed, Revoked, RoleExists;
    forall p
      ensures Holds(existing, p) <==> Stored(roles, table, p)
    {
      ExistingMeans(roles, table, existing, p);
    }
    forall p: Pair | p in desired && RoleExists(roles, p.role) && !Stored(roles, table, p)
      ensures exists c :: c in plan.create && StoredPair(roles, RowOf(c)) == Some(p)
    {
      var c := NewRow(p.role, ids[p.role], p.action);
      assert Missing(desired, ids, existing, p);
      assert c in plan.create && StoredPair(roles, RowOf(c)) == Some(p);
    }
    forall id
      ensures id in plan.revokeIds <==> id in table && RevokedStored(desired, revocations, roles, table[id])
    {
      if id in plan.revokeIds {
        var i :| 0 <= i < |existing| && existing[i].id == id && RevokedRow(desired, revocations, existing[i]);
        assert existing[i] in existing;
      }
      if id in table && RevokedStored(desired, revocations, roles, table[id]) {
        var e := Existing(id, table[id].action.value, TypeOfRole(roles, table[id].role));
        assert e in existing;
        var i :| 0 <= i < |existing| && existing[i] == e;
      }
    }
  }

  /** The table after the plan's writes: its new rows are the planned ones, its old rows the others. */
  ghost predicate Wrote(before: Table, plan: Plan, grown: Table, after: Table) {
    && Appended(before, grown, plan.create)
    && (forall id :: id in after <==> id in grown && id !in plan.revokeIds)
    && (forall id :: id in after ==> after[id] == grown[id])
  }

  lemma OldRowsAfter(desired: seq<Pair>, revocations: seq<Pair>, roles: seq<RoleRow>, before: Table, plan: Plan,
                     grown: Table, after: Table)
    requires Writes(plan, desired, revocations, roles, before) && Wrote(before, plan, grown, after)
    ensures forall id :: id in before ==>
      (id in after <==> !RevokedStored(desired, revocations, roles, before[id])) &&
        (id in after ==> after[id] == before[id])
  {
    hide RevokedStored, Stored, StoredPair, RoleExists, Among, IsNew;
  }

  lemma NewRowAfter(desired: seq<Pair>, revocations: seq<Pair>, roles: seq<RoleRow>, before: Table, plan: Plan,
                    grown: Table, after: Table, id: nat)
    requires Writes(plan, desired, revocations, roles, before) && Wrote(before, plan, grown, after)
    requires id in after && id !in before
    ensures var p := StoredPair(roles, after[id]);
      p.Some? && p.value in desired && RoleExists(roles, p.value.role) &&
        !RevokedStored(desired, revocations, roles, after[id])
  {
    hide Stored, StoredPair, RoleExists, IsNew;
    var c :| c in plan.create && grown[id] == RowOf(c);
  }

  lemma StoredAfter(desired: seq<Pair>, revocations: seq<Pair>, roles: seq<RoleRow>, before: Table, plan: Plan,
                    grown: Table, after: Table, p: Pair)
    requires Writes(plan, desired, revocations, roles, before) && Wrote(before, plan, grown, after)
    ensures Stored(roles, after, p) <==>
      ((Stored(roles, before, p) && !Revoked(desired, revocations, p)) || (p in desired && RoleExists(roles, p.role)))
  {
    hide StoredPair, RoleExists, Revoked, Writes, Wrote;
    OldRowsAfter(desired, revocations, roles, before, plan, grown, after);
    if Stored(roles, after, p) {
      var id :| id in after && StoredPair(roles, after[id]) == Some(p);
      if id !in before { NewRowAfter(desired, revocations, roles, before, plan, grown, after, id); }
    }
    if Stored(roles, before, p) && !Revoked(desired, revocations, p) {
      var id :| id in before && StoredPair(roles, before[id]) == Some(p);
      assert id in after && StoredPair(roles, after[id]) == Some(p);
    }
    if p in desired && RoleExists(roles, p.role) && !Stored(roles, after, p) {
      WantedIsStored(desired, revocations, roles, before, plan, grown, after, p);
    }
  }

  lemma WantedIsStored(desired: seq<Pair>, revocations: seq<Pair>, roles: seq<RoleRow>, before: Table, plan: Plan,
                       grown: Table, after: Table, p: Pair)
    requires Writes(plan, desired, revocations, roles, before) && Wrote(before, plan, grown, after)
    requires p in desired && RoleExists(roles, p.role)
    ensures Stored(roles, after, p)
  {
    hide StoredPair, RoleExists;
    if Stored(roles, before, p) {
      var id :| id in before && StoredPair(roles, before[id]) == Some(p);
      assert id in after && StoredPair(roles, after[id]) == Some(p);
    } else {
      var c :| c in plan.create && StoredPair(roles, RowOf(c)) == Some(p);
      var id :| id in grown && id !in before && grown[id] == RowOf(c);
      assert id in after && StoredPair(roles, after[id]) == Some(p);
    }
  }

  lemma SyncConverges(desired: seq<Pair>, revocations: seq<Pair>, roles: seq<RoleRow>, before: Table, plan: Plan,
                      grown: Table, after: Table)
    requires Writes(plan, desired, revocations, roles, before) && Wrote(before, plan, grown, after)
    ensures Converged(desired, revocations, roles, after)
  {
    hide StoredPair, RoleExists, Stored, Writes, Wrote, RevokedStored;
    forall p: Pair | p in desired && RoleExists(roles, p.role)
      ensures Stored(roles, after, p)
    {
      WantedIsStored(desired, revocations, roles, before, plan, grown, after, p);
    }
    OldRowsAfter(desired, revocations, roles, before, plan, grown, after);
    forall id | id in after
      ensures !RevokedStored(desired, revocations, roles, after[id])
    {
      if id !in before { NewRowAfter(desired, revocations, roles, before, plan, grown, after, id); }
    }
  }

  /** A plan with a write in it was made for a table that has not converged. */
  lemma PlannedMeansNotConverged(desired: seq<Pair>, revocations: seq<Pair>, roles: seq<RoleRow>, table: Table,
                                 plan: Plan)
    requires Writes(plan, desired, revocations, roles, table)
    requires plan.create != [] || plan.revokeIds != []
    ensures !Converged(desired, revocations, roles, table)
  {
    hide StoredPair, RoleExists, Stored, RevokedStored;
    if plan.create != [] {
      var c := plan.create[0];
      assert c in plan.create;
    } else {
      assert plan.revokeIds[0] in plan.revokeIds;
    }
  }

  /** The new rows are those of the list, one each, from `nextId` on. */
  ghost predicate InOrder(before: Table, nextId: nat, after: Table, create: seq<NewRow>) {
    forall id :: id in after && id !in before ==>
      nextId <= id < nextId + |create| && after[id] == RowOf(create[id - nextId])
  }

  lemma OneInOrder(before: Table, nextId: nat, after: Table, create: seq<NewRow>, i: nat)
    requires i < |create| && InOrder(before, nextId, after, create[..i])
    ensures InOrder(before, nextId, after[nextId + i := RowOf(create[i])], create[..i + 1])
  {}

  /** No two new rows stand for one pair. */
  ghost predicate NewPairsDiffer(roles: seq<RoleRow>, before: Table, after: Table) {
    forall i, j :: i in after && j in after && i !in before && j !in before && i != j ==>
      StoredPair(roles, after[i]) != StoredPair(roles, after[j])
  }

  lemma NewRowsDiffer(before: Table, nextId: nat, plan: Plan, grown: Table, roles: seq<RoleRow>)
    requires InOrder(before, nextId, grown, plan.create) && EachOnce(plan.create)
    requires forall c :: c in plan.create ==> StoredPair(roles, RowOf(c)) == Some(Pair(c.roleType, c.action))
    ensures NewPairsDiffer(roles, before, grown)
  {
    hide StoredPair;
    forall i | i in grown && i !in before
      ensures plan.create[i - nextId] in plan.create
    {}
  }

  lemma NothingAppended(table: Table)
    ensures Appended(table, table, [])
  {}

  class PermissionTable {
    var table: Table
    var nextId: nat

    constructor ()
      ensures table == map[] && nextId == 0
    {
      table, nextId := map[], 0;
    }

    ghost predicate Valid()
      reads this
    {
      forall id :: id in table ==> id < nextId
    }

    /** One row for each planned pair, until the write with the fault. */
    method CreateRows(create: seq<NewRow>, fault: Option<nat>) returns (done: bool)
      requires forall id :: id in table ==> id < nextId
      modifies this
      ensures !done ==> fault.Some?
      ensures done ==> Appended(old(table), table, create) && forall id :: id in table ==> id < nextId
      ensures done ==> InOrder(old(table), old(nextId), table, create)
      ensures create == [] ==> done && table == old(table) && nextId == old(nextId)
    {
      for i := 0 to |create|
        invariant Appended(old(table), table, create[..i]) && forall id :: id in table ==> id < nextId
        invariant InOrder(old(table), old(nextId), table, create[..i]) && nextId == old(nextId) + i
        invariant i == 0 ==> table == old(table) && nextId == old(nextId)
      {
        if fault == Some(i) { return false; }
        AppendOne(old(table), table, create, i, nextId);
        OneInOrder(old(table), old(nextId), table, create, i);
        table := table[nextId := RowOf(create[i])];
        nextId := nextId + 1;
      }
      assert create[..|create|] == create;
      done := true;
    }

    /** `deleteMany` by id, a chunk at a time, until the one with the fault. */
    method DeleteInChunks(ids: seq<nat>, fault: Option<nat>) returns (done: bool)
      modifies this`table
      ensures !done ==> fault.Some?
      ensures done ==> forall id :: id in table <==> id in old(table) && id !in ids
      ensures done ==> forall id :: id in table ==> table[id] == old(table)[id]
    {
      var start, chunks := 0, 0;
      while start < |ids|
        invariant 0 <= start
        invariant forall id :: id in table <==> id in old(table) && id !in ids[..if start < |ids| then start else |ids|]
        invariant forall id :: id in table ==> table[id] == old(table)[id]
      {
        if fault == Some(chunks) { return false; }
        var end := if start + REVOKE_CHUNK_SIZE < |ids| then start + REVOKE_CHUNK_SIZE else |ids|;
        var chunk := ids[start..end];
        assert ids[..end] == ids[..start] + chunk;
        table := table - (set id | id in chunk);
        start, chunks := start + REVOKE_CHUNK_SIZE, chunks + 1;
      }
      assert ids[..|ids|] == ids;
      done := true;
    }

    /**
     * One sync, in one transaction: afterwards the stored pairs are those
     * that were there and are not revoked, and the desired ones of the roles
     * that exist. Rows the code neither wants nor revokes stay as they are.
     * No pair gets two new rows. An error at any create (`createFault`) or
     * delete (`deleteFault`) rolls everything back, and a table that has
     * converged is not written at all.
     */
    method SyncRolePermissions(desired: seq<Pair>, revocations: seq<Pair>, roles: seq<RoleRow>, listing: seq<nat>,
                               createFault: Option<nat>, deleteFault: Option<nat>)
      returns (ok: bool, plan: Plan)
      requires Valid() && Plain(desired) && Plain(revocations) && DistinctRoles(roles)
      requires forall id :: id in listing <==> id in table
      modifies this
      ensures Valid()
      ensures !ok ==> (createFault.Some? || deleteFault.Some?) && table == old(table) && nextId == old(nextId)
      ensures ok ==> forall id :: id in old(table) ==>
        (id in table <==> !RevokedStored(desired, revocations, roles, old(table)[id])) &&
        (id in table ==> table[id] == old(table)[id])
      ensures ok ==> forall p: Pair :: Stored(roles, table, p) <==>
        ((Stored(roles, old(table), p) && !Revoked(desired, revocations, p)) ||
          (p in desired && RoleExists(roles, p.role)))
      ensures ok ==> Converged(desired, revocations, roles, table)
      ensures ok && Unique(desired) ==> NewPairsDiffer(roles, old(table), table)
      ensures Converged(desired, revocations, roles, old(table)) ==>
        ok && table == old(table) && nextId == old(nextId) && plan.create == [] && plan.revokeIds == []
    {
      hide Stored, RoleExists, RevokedStored, Revoked, PlanFor, TypeOfRole, Appended, Converged;
      var roleIdByType := IdsByType(roles);
      var existing := ReadExisting(roles, table, listing);
      plan := PlanPermissionSync(desired, revocations, roleIdByType, existing);
      PlanMeans(desired, revocations, roles, roleIdByType, table, existing, plan);
      ghost var before, grown := table, table;
      NothingAppended(before);
      if |plan.create| > 0 || |plan.revokeIds| > 0 {
        PlannedMeansNotConverged(desired, revocations, roles, before, plan);
        var saved, savedId := table, nextId;
        var done := CreateRows(plan.create, createFault);
        if !done { table, nextId := saved, savedId; return false, plan; }
        grown := table;
        if Unique(desired) { NewRowsDiffer(before, savedId, plan, grown, roles); }
        done := DeleteInChunks(plan.revokeIds, deleteFault);
        if !done { table, nextId := saved, savedId; return false, plan; }
      }
      OldRowsAfter(desired, revocations, roles, before, plan, grown, table);
      SyncConverges(desired, revocations, roles, before, plan, grown, table);
      forall p: Pair
        ensures Stored(roles, table, p) <==>
          ((Stored(roles, before, p) && !Revoked(desired, revocations, p)) ||
            (p in desired && RoleExists(roles, p.role)))
      {
        StoredAfter(desired, revocations, roles, before, plan, grown, table, p);
      }
      ok := true;
    }
  }
}

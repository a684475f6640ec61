/**
 * The two transactions of a sign-in on the users table (createIdentity and
 * writeRole in apps/cms/src/idp/exchange-core.ts), statement by statement:
 * a row and its role link are separate statements, and only together do
 * they make the step of module SignInExchange.
 */
module UserTable {
  import opened Common
  import opened Roles
  import opened SignInExchange

  /** An error at the statement with this number. */
  predicate FailsAt(fault: Option<nat>, statement: nat) {
    fault == Some(statement)
  }

  class Table {
    var users: Users
    var nextId: nat

    constructor ()
      ensures users == map[] && nextId == 0
    {
      users, nextId := map[], 0;
    }

    /** The unique index on the identity. */
    method IdentityTaken(identity: Identity) returns (taken: bool)
      ensures taken <==> Held(users, identity)
    {
      taken := exists id :: id in users && Holds(users[id], identity);
    }

    /** Inserts a first sign-in's row and links its role in one transaction; the loser of a race inserts nothing. */
    method CreateIdentity(request: Request, role: Role, self: nat, fault: Option<nat>) returns (stage: Stage)
      requires request.email.Some?
      modifies this
      ensures var weather := if fault.Some? && fault.value < 3 then Error else Fair;
        Effect(users, stage) == Step(old(users), old(nextId), Exchange(request, Insert(role)), self, weather)
      ensures nextId == if stage == Lost then old(nextId) else old(nextId) + 1
    {
      var savedUsers, savedId := users, nextId;
      if FailsAt(fault, 0) { return Lost; }
      var taken := IdentityTaken(request.identity);
      if taken { return Lost; }
      var row := NewUser(request, role, self);
      users := users[nextId := row.(state := row.state.(role := None))];
      nextId := nextId + 1;
      if FailsAt(fault, 1) { users, nextId := savedUsers, savedId; return Lost; }
      users := users[savedId := users[savedId].(state := users[savedId].state.(role := Some(role)))];
      if FailsAt(fault, 2) { users, nextId := savedUsers, savedId; return Lost; }
      assert users[savedId] == row;
      stage := ReadBack(true);
    }

    /** Decides on the locked row and writes its columns, then its role link, in one transaction. */
    method WriteRoleOf(id: nat, request: Request, self: nat, rolesExist: bool, fault: Option<nat>)
      returns (stage: Stage)
      modifies this`users
      ensures var weather :=
          if stage == Ended(Thrown(DatabaseError)) then Error else if rolesExist then Fair else RoleMissing;
        Effect(users, stage) == Step(old(users), nextId, Exchange(request, WriteRole(id)), self, weather)
      ensures stage == Ended(Thrown(DatabaseError)) ==> fault.Some?
    {
      var saved := users;
      if FailsAt(fault, 0) { return Ended(Thrown(DatabaseError)); }
      if id !in users { return Ended(Thrown(UserVanished)); }
      var user := users[id];
      var decision := Decide(user, request);
      if decision.Reject? { return Ended(Refused(Decided(decision.refusal))); }
      if decision.Assign? && !rolesExist { return Ended(Refused(NoRole)); }
      var after := Written(user, decision);
      if decision.ToManual? || decision.Assign? || decision.Note? {
        users := users[id := user.(state := user.state.(source := after.state.source, applied := after.state.applied))];
        if FailsAt(fault, 1) { users := saved; return Ended(Thrown(DatabaseError)); }
      }
      users := users[id := after];
      if FailsAt(fault, 2) { users := saved; return Ended(Thrown(DatabaseError)); }
      stage := Ended(Admitted(id, false));
    }
  }

  /**
   * Why it is one transaction: a reader between the two statements of a role
   * write would take the half-written row for an admin's change.
   */
  lemma HalfAWriteLooksLikeAnAdmin(user: User, request: Request)
    requires Decide(user, request).Assign?
    ensures var after := Written(user, Decide(user, request));
      var half := user.(state := user.state.(source := after.state.source, applied := after.state.applied));
      Decide(half, request) == ToManual && Decide(after, request) == Keep
  {}
}

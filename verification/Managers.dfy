/**
 * The manager links Entra sign-ins write (syncManager in
 * apps/cms/src/entra/provision.ts): one's own link, then those of the people
 * who waited for one's row.
 */
module Managers {
  import opened Common
  import opened Roles

  /** An Entra identity: the tenant and the object id in it. */
  datatype Identity = Identity(tenant: string, oid: string)

  /** A user row; `managerOid` names the manager in the row's tenant, `manager` is the link. */
  datatype Person = Person(identity: Option<Identity>, managerOid: Option<string>, manager: Option<nat>, blocked: bool)

  type People = map<nat, Person>

  predicate HasRow(people: People, identity: Identity) {
    exists id :: id in people && people[id].identity == Some(identity)
  }

  ghost function RowOf(people: People, identity: Identity): (id: nat)
    requires HasRow(people, identity)
    ensures id in people && people[id].identity == Some(identity)
  {
    var id :| id in people && people[id].identity == Some(identity);
    id
  }

  ghost predicate OneRowEach(people: People) {
    forall i, j :: i in people && j in people ==>
      people[i].identity.Some? && people[i].identity == people[j].identity ==> i == j
  }

  /** The row a manager's object id leads to; oneself is nobody's manager. */
  ghost function Boss(people: People, id: nat, managerOid: string): Option<nat>
    requires id in people && people[id].identity.Some?
  {
    var identity := Identity(people[id].identity.value.tenant, managerOid);
    if HasRow(people, identity) && RowOf(people, identity) != id then Some(RowOf(people, identity)) else None
  }

  /** The person's own fields after Graph's answer; a blocked row and a failed answer keep them. */
  ghost function OwnLink(people: People, id: nat, answer: Answer<Option<string>>): (own: Person)
    requires id in people && people[id].identity.Some?
    ensures own.identity == people[id].identity && own.blocked == people[id].blocked
  {
    var person := people[id];
    if person.blocked || answer.Failed? then person
    else
      match answer.data
      case None => person.(managerOid := None, manager := None)
      case Some(oid) => person.(managerOid := Some(oid), manager := Boss(people, id, oid))
  }

  /** Whether a row waits for the manager with this identity. */
  predicate WaitsFor(person: Person, identity: Identity) {
    person.identity.Some? && person.identity.value.tenant == identity.tenant && person.managerOid == Some(identity.oid)
  }

  /** The rows that wait for `id`'s, linked to it. */
  function BackFilled(people: People, id: nat): (after: People)
    requires id in people && people[id].identity.Some?
    ensures after.Keys == people.Keys
    ensures forall r :: r in people ==> after[r].identity == people[r].identity && after[r].blocked == people[r].blocked
  {
    map r | r in people ::
      if r != id && WaitsFor(people[r], people[id].identity.value) then people[r].(manager := Some(id)) else people[r]
  }

  ghost function Synced(people: People, id: nat, answer: Answer<Option<string>>): People
    requires id in people && people[id].identity.Some?
  {
    BackFilled(people[id := OwnLink(people, id, answer)], id)
  }

  class Directory {
    var people: People

    constructor (rows: People)
      ensures people == rows
    {
      people := rows;
    }

    /** `findOne` by identity, none when nobody has it. */
    method FindRow(identity: Identity) returns (row: Option<nat>)
      requires OneRowEach(people)
      ensures if HasRow(people, identity) then row == Some(RowOf(people, identity)) else row == None
    {
      if id :| id in people && people[id].identity == Some(identity) {
        row := Some(id);
      } else {
        row := None;
      }
    }

    /** One's own link; an error or a blocked row writes nothing. */
    method SyncOwn(id: nat, answer: Answer<Option<string>>, mayWrite: bool, fails: bool)
      requires OneRowEach(people) && id in people && people[id].identity.Some?
      modifies this
      ensures people == if mayWrite && !fails then old(people)[id := OwnLink(old(people), id, answer)] else old(people)
    {
      var user := people[id];
      if !fails && answer.Answered? {
        match answer.data {
          case None =>
            if (user.manager.Some? || user.managerOid.Some?) && mayWrite && !user.blocked {
              people := people[id := user.(manager := None, managerOid := None)];
            }
          case Some(managerOid) =>
            var boss := FindRow(Identity(user.identity.value.tenant, managerOid));
            var bossId := if boss == Some(id) then None else boss;
            assert bossId == Boss(people, id, managerOid);
            if !(user.managerOid == Some(managerOid) && user.manager == bossId) && mayWrite && !user.blocked {
              people := people[id := user.(managerOid := Some(managerOid), manager := bossId)];
            }
        }
      }
    }

    /** The rows of `waiting`, which the query answered, one after the other; an error stops at `failsAt`. */
    method BackFill(id: nat, waiting: seq<nat>, failsAt: Option<nat>) returns (linked: nat)
      requires id in people && people[id].identity.Some?
      requires forall r :: r in waiting <==> r in people && WaitsFor(people[r], people[id].identity.value)
      modifies this
      ensures failsAt.None? ==> people == BackFilled(old(people), id)
      ensures people.Keys == old(people).Keys && linked <= |waiting|
      ensures var reached := if failsAt.Some? then Min(failsAt.value, |waiting|) else |waiting|;
        forall r :: r in people ==>
          people[r] ==
            if r != id && r in waiting[..reached] then old(people)[r].(manager := Some(id)) else old(people)[r]
    {
      linked := 0;
      for i := 0 to |waiting|
        invariant people.Keys == old(people).Keys && linked <= i && (failsAt.Some? ==> i <= failsAt.value)
        invariant forall r :: r in people ==>
          people[r] == if r != id && r in waiting[..i] then old(people)[r].(manager := Some(id)) else old(people)[r]
      {
        if failsAt == Some(i) { return; }
        var r := waiting[i];
        assert r in waiting && waiting[..i + 1] == waiting[..i] + [r];
        if r != id && people[r].manager != Some(id) {
          people := people[r := people[r].(manager := Some(id))];
          linked := linked + 1;
        }
      }
      assert waiting[..|waiting|] == waiting;
    }

    /**
     * `waiting` is what the back-fill's query answers once one's own link is
     * written. Dry-run writes nothing; an error leaves its part for later.
     */
    method SyncManager(id: nat, answer: Answer<Option<string>>, mayWrite: bool, waiting: seq<nat>,
                       ownFails: bool, fillFailsAt: Option<nat>)
      returns (linked: nat)
      requires OneRowEach(people) && id in people && people[id].identity.Some?
      requires var own := if mayWrite && !ownFails then people[id := OwnLink(people, id, answer)] else people;
        forall r :: r in waiting <==> r in own && WaitsFor(own[r], people[id].identity.value)
      modifies this
      ensures !mayWrite ==> people == old(people) && linked == 0
      ensures mayWrite && !ownFails && fillFailsAt.None? ==> people == Synced(old(people), id, answer)
      ensures people.Keys == old(people).Keys
      ensures people[id] == old(people)[id] || people[id] == OwnLink(old(people), id, answer)
      ensures forall r :: r in people && r != id && !WaitsFor(old(people)[r], old(people)[id].identity.value) ==>
        people[r] == old(people)[r]
    {
      linked := 0;
      SyncOwn(id, answer, mayWrite, ownFails);
      if mayWrite {
        linked := BackFill(id, waiting, fillFailsAt);
      }
    }
  }

  // ---------------------------------------------------------------------
  // Sign-ins in sequence.

  /** A sign-in with the sync on: its identity and what Graph answers about the manager. */
  datatype SignIn = SignIn(identity: Identity, manager: Answer<Option<string>>)

  datatype Register = Register(people: People, nextId: nat)

  /** The row of a sign-in: its own, or a new one without links. */
  ghost function Admitted(s: Register, identity: Identity): (admitted: Register)
    ensures HasRow(admitted.people, identity)
  {
    if HasRow(s.people, identity) then s
    else
      var people := s.people[s.nextId := Person(Some(identity), None, None, false)];
      assert people[s.nextId].identity == Some(identity);
      Register(people, s.nextId + 1)
  }

  ghost function After(s: Register, signIn: SignIn): Register {
    var admitted := Admitted(s, signIn.identity);
    admitted.(people := Synced(admitted.people, RowOf(admitted.people, signIn.identity), signIn.manager))
  }

  ghost function At(s: Register, run: seq<SignIn>, n: nat): Register
    requires n <= |run|
  {
    if n == 0 then s else After(At(s, run, n - 1), run[n - 1])
  }

  ghost predicate Sound(s: Register) {
    OneRowEach(s.people) && forall id :: id in s.people ==> id < s.nextId
  }

  /** The link to the row of the person's tenant with this object id, none when there is none but the person's own. */
  ghost predicate LeadsTo(people: People, id: nat, oid: string, manager: Option<nat>)
    requires id in people && people[id].identity.Some?
  {
    var identity := Identity(people[id].identity.value.tenant, oid);
    match manager
    case Some(r) => r in people && r != id && people[r].identity == Some(identity)
    case None => forall r :: r in people && r != id ==> people[r].identity != Some(identity)
  }

  /** A row's link leads to the row its `managerOid` names, if there is one. */
  ghost predicate Linked(people: People, id: nat)
    requires id in people && people[id].identity.Some?
  {
    match people[id].managerOid
    case None => people[id].manager == None
    case Some(oid) => LeadsTo(people, id, oid, people[id].manager)
  }

  lemma BossLeads(people: People, id: nat, oid: string, manager: Option<nat>)
    requires OneRowEach(people) && id in people && people[id].identity.Some?
    ensures manager == Boss(people, id, oid) <==> LeadsTo(people, id, oid, manager)
  {
    var identity := Identity(people[id].identity.value.tenant, oid);
    if HasRow(people, identity) {
      var r := RowOf(people, identity);
      assert forall other :: other in people && people[other].identity == Some(identity) ==> other == r;
    }
  }

  lemma AdmittedSound(s: Register, identity: Identity)
    requires Sound(s)
    ensures Sound(Admitted(s, identity)) && HasRow(Admitted(s, identity).people, identity)
    ensures forall id :: id in s.people ==>
      id in Admitted(s, identity).people && Admitted(s, identity).people[id] == s.people[id]
  {
    var after := Admitted(s, identity).people;
    if !HasRow(s.people, identity) {
      assert after[s.nextId].identity == Some(identity);
    }
  }

  /** A sign-in keeps rows, identities and blocks, and touches only its own row and those that wait for it. */
  lemma AfterKeeps(s: Register, signIn: SignIn, id: nat)
    requires Sound(s) && id in s.people
    ensures Sound(After(s, signIn)) && HasRow(After(s, signIn).people, signIn.identity)
    ensures var after := After(s, signIn).people;
      && id in after && after[id].identity == s.people[id].identity && after[id].blocked == s.people[id].blocked
      && (s.people[id].identity != Some(signIn.identity) ==>
        after[id] == if WaitsFor(s.people[id], signIn.identity)
          then s.people[id].(manager := Some(RowOf(after, signIn.identity))) else s.people[id])
  {
    AfterSound(s, signIn);
  }

  lemma AfterSound(s: Register, signIn: SignIn)
    requires Sound(s)
    ensures var admitted, after := Admitted(s, signIn.identity).people, After(s, signIn).people;
      && Sound(After(s, signIn)) && HasRow(after, signIn.identity) && HasRow(admitted, signIn.identity)
      && after.Keys == admitted.Keys && RowOf(after, signIn.identity) == RowOf(admitted, signIn.identity)
      && (forall r :: r in after ==>
        after[r].identity == admitted[r].identity && after[r].blocked == admitted[r].blocked)
      && (forall r :: r in s.people ==> r in admitted && admitted[r] == s.people[r])
  {
    AdmittedSound(s, signIn.identity);
    hide OwnLink, BackFilled, Admitted;
    var admitted := Admitted(s, signIn.identity).people;
    var own := RowOf(admitted, signIn.identity);
    var after := After(s, signIn).people;
    assert after[own].identity == Some(signIn.identity);
  }

  /** Rows stay where they are, and the only new one is the sign-in's own. */
  lemma SameRows(s: Register, signIn: SignIn, identity: Identity)
    requires Sound(s)
    ensures HasRow(After(s, signIn).people, identity) <==> HasRow(s.people, identity) || identity == signIn.identity
    ensures HasRow(s.people, identity) ==> RowOf(After(s, signIn).people, identity) == RowOf(s.people, identity)
  {
    AfterSound(s, signIn);
    var after := After(s, signIn).people;
    if HasRow(s.people, identity) {
      var id := RowOf(s.people, identity);
      assert after[id].identity == Some(identity);
    }
    if HasRow(after, identity) && !HasRow(s.people, identity) {
      var id := RowOf(after, identity);
      assert id !in s.people;
    }
  }

  /** A sign-in leaves its own row, when it is not blocked, with the manager Graph named. */
  lemma OwnRowIsLinked(s: Register, signIn: SignIn)
    requires Sound(s) && signIn.manager.Answered?
    requires HasRow(s.people, signIn.identity) ==> !s.people[RowOf(s.people, signIn.identity)].blocked
    ensures var after := After(s, signIn).people;
      && HasRow(after, signIn.identity)
      && var own := RowOf(after, signIn.identity);
        after[own].identity == Some(signIn.identity) && after[own].managerOid == signIn.manager.data &&
          Linked(after, own)
  {
    AfterSound(s, signIn);
    var admitted, after := Admitted(s, signIn.identity).people, After(s, signIn).people;
    var own := RowOf(admitted, signIn.identity);
    if signIn.manager.data.Some? {
      BossLeads(after, own, signIn.manager.data.value, after[own].manager);
      var boss := Identity(signIn.identity.tenant, signIn.manager.data.value);
      if HasRow(admitted, boss) {
        assert after[RowOf(admitted, boss)].identity == Some(boss);
      }
      if HasRow(after, boss) {
        assert admitted[RowOf(after, boss)].identity == Some(boss);
      }
    }
  }

  /** A blocked row keeps its manager through its own sign-in, and so does one whose manager Graph could not tell. */
  lemma KeepsItsManager(s: Register, signIn: SignIn, id: nat)
    requires Sound(s) && id in s.people && s.people[id].identity == Some(signIn.identity)
    requires s.people[id].blocked || signIn.manager.Failed?
    ensures id in After(s, signIn).people && After(s, signIn).people[id] == s.people[id]
  {
    assert HasRow(s.people, signIn.identity);
    assert RowOf(s.people, signIn.identity) == id;
  }

  /** A linked row stays linked through anyone else's sign-in. */
  lemma OtherRowsStayLinked(s: Register, signIn: SignIn, id: nat)
    requires Sound(s) && id in s.people && s.people[id].identity.Some? && s.people[id].identity != Some(signIn.identity)
    requires Linked(s.people, id)
    ensures var after := After(s, signIn).people;
      id in after && after[id].identity == s.people[id].identity && after[id].managerOid == s.people[id].managerOid &&
        Linked(after, id)
  {
    AfterKeeps(s, signIn, id);
    if s.people[id].managerOid.Some? {
      var oid := s.people[id].managerOid.value;
      BossLeads(s.people, id, oid, s.people[id].manager);
      BossLeads(After(s, signIn).people, id, oid, After(s, signIn).people[id].manager);
      SameRows(s, signIn, Identity(s.people[id].identity.value.tenant, s.people[id].managerOid.value));
    }
  }

  ghost predicate NobodyBlocked(people: People) {
    forall id :: id in people ==> !people[id].blocked
  }

  lemma StaysUnblocked(s: Register, signIn: SignIn)
    requires Sound(s) && NobodyBlocked(s.people)
    ensures NobodyBlocked(After(s, signIn).people)
  {
    AfterSound(s, signIn);
  }

  lemma {:induction false} RunIsSound(s: Register, run: seq<SignIn>, n: nat)
    requires Sound(s) && NobodyBlocked(s.people) && n <= |run|
    ensures Sound(At(s, run, n)) && NobodyBlocked(At(s, run, n).people)
  {
    hide After;
    if n > 0 {
      RunIsSound(s, run, n - 1);
      AfterSound(At(s, run, n - 1), run[n - 1]);
      StaysUnblocked(At(s, run, n - 1), run[n - 1]);
    }
  }

  /** Everybody signs in once: no identity comes twice, and Graph answers each. */
  ghost predicate EachOnce(run: seq<SignIn>) {
    && (forall i :: 0 <= i < |run| ==> run[i].manager.Answered?)
    && (forall i, j :: 0 <= i < j < |run| ==> run[i].identity != run[j].identity)
  }

  /**
   * Whatever the order, everyone who signed in ends with the manager Graph
   * named, linked to that manager's row when there is one by then.
   */
  lemma {:induction false} LinksDoNotDependOnOrder(s: Register, run: seq<SignIn>, n: nat, i: nat)
    requires Sound(s) && NobodyBlocked(s.people) && EachOnce(run) && i < n <= |run|
    ensures var people := At(s, run, n).people;
      && HasRow(people, run[i].identity)
      && var own := RowOf(people, run[i].identity);
        people[own].managerOid == run[i].manager.data && Linked(people, own)
  {
    hide After, Linked;
    RunIsSound(s, run, n - 1);
    var before := At(s, run, n - 1);
    if i == n - 1 {
      OwnRowIsLinked(before, run[i]);
    } else {
      LinksDoNotDependOnOrder(s, run, n - 1, i);
      OtherRowsStayLinked(before, run[n - 1], RowOf(before.people, run[i].identity));
      SameRows(before, run[n - 1], run[i].identity);
    }
  }

  /** So two people who both signed in, one the other's manager, end linked. */
  lemma ManagersWhoSignInAreLinked(s: Register, run: seq<SignIn>, n: nat, i: nat, j: nat)
    requires Sound(s) && NobodyBlocked(s.people) && EachOnce(run) && i < n <= |run| && j < n && i != j
    requires run[i].identity.tenant == run[j].identity.tenant && run[i].manager.data == Some(run[j].identity.oid)
    ensures var people := At(s, run, n).people;
      && HasRow(people, run[i].identity) && HasRow(people, run[j].identity)
      && people[RowOf(people, run[i].identity)].manager == Some(RowOf(people, run[j].identity))
  {
    hide After;
    LinksDoNotDependOnOrder(s, run, n, i);
    LinksDoNotDependOnOrder(s, run, n, j);
    RunIsSound(s, run, n);
    var people := At(s, run, n).people;
    var own := RowOf(people, run[i].identity);
    BossLeads(people, own, run[j].identity.oid, people[own].manager);
    assert run[j].identity == Identity(run[i].identity.tenant, run[j].identity.oid);
    assert run[i].identity != run[j].identity;
  }

  /** The identity of the row someone is linked to. */
  ghost function ManagerOf(people: People, identity: Identity): Option<Identity>
    requires HasRow(people, identity)
  {
    match people[RowOf(people, identity)].manager
    case None => None
    case Some(boss) => if boss in people then people[boss].identity else None
  }

  lemma {:induction false} RowsAfter(s: Register, run: seq<SignIn>, n: nat, identity: Identity)
    requires Sound(s) && NobodyBlocked(s.people) && n <= |run|
    ensures HasRow(At(s, run, n).people, identity) <==>
      HasRow(s.people, identity) || exists i :: 0 <= i < n && run[i].identity == identity
  {
    hide After, HasRow;
    if n > 0 {
      RowsAfter(s, run, n - 1, identity);
      RunIsSound(s, run, n - 1);
      SameRows(At(s, run, n - 1), run[n - 1], identity);
    }
  }

  /** The same people signing in once each, in two different orders, end with the same managers. */
  lemma PermutedSignInsAgree(s: Register, a: seq<SignIn>, b: seq<SignIn>, i: nat, j: nat)
    requires Sound(s) && NobodyBlocked(s.people) && EachOnce(a) && EachOnce(b)
    requires forall signIn :: signIn in a <==> signIn in b
    requires i < |a| && j < |b| && a[i] == b[j]
    ensures var x, y := At(s, a, |a|).people, At(s, b, |b|).people;
      && HasRow(x, a[i].identity) && HasRow(y, a[i].identity)
      && ManagerOf(x, a[i].identity) == ManagerOf(y, a[i].identity)
  {
    hide At, HasRow;
    LinksDoNotDependOnOrder(s, a, |a|, i);
    LinksDoNotDependOnOrder(s, b, |b|, j);
    if a[i].manager.data.Some? {
      var oid := a[i].manager.data.value;
      var boss := Identity(a[i].identity.tenant, oid);
      RunIsSound(s, a, |a|);
      RunIsSound(s, b, |b|);
      ManagerMeans(At(s, a, |a|).people, a[i].identity, oid);
      ManagerMeans(At(s, b, |b|).people, a[i].identity, oid);
      RowsAfter(s, a, |a|, boss);
      RowsAfter(s, b, |b|, boss);
      assert (exists k :: 0 <= k < |a| && a[k].identity == boss) <==>
        exists k :: 0 <= k < |b| && b[k].identity == boss by {
        SameIdentities(a, b, boss);
        SameIdentities(b, a, boss);
      }
    }
  }

  /** A linked row's manager is whoever has the row of that object id, unless it is oneself. */
  lemma ManagerMeans(people: People, identity: Identity, oid: string)
    requires OneRowEach(people) && HasRow(people, identity)
    requires var own := RowOf(people, identity); people[own].managerOid == Some(oid) && Linked(people, own)
    ensures var boss := Identity(identity.tenant, oid);
      ManagerOf(people, identity) == if HasRow(people, boss) && boss != identity then Some(boss) else None
  {
    var own, boss := RowOf(people, identity), Identity(identity.tenant, oid);
    BossLeads(people, own, oid, people[own].manager);
    if HasRow(people, boss) && boss != identity { assert RowOf(people, boss) != own; }
  }

  lemma SameIdentities(a: seq<SignIn>, b: seq<SignIn>, identity: Identity)
    requires forall signIn :: signIn in a ==> signIn in b
    ensures (exists k :: 0 <= k < |a| && a[k].identity == identity) ==>
      exists k :: 0 <= k < |b| && b[k].identity == identity
  {
    if exists k :: 0 <= k < |a| && a[k].identity == identity {
      var k :| 0 <= k < |a| && a[k].identity == identity;
      assert a[k] in a;
    }
  }

  /** Nobody who neither signs in nor waits for one who does is touched. */
  lemma {:induction false} OthersAreUndisturbed(s: Register, run: seq<SignIn>, n: nat, id: nat)
    requires Sound(s) && NobodyBlocked(s.people) && n <= |run| && id in s.people
    requires forall i :: 0 <= i < n ==>
      s.people[id].identity != Some(run[i].identity) && !WaitsFor(s.people[id], run[i].identity)
    ensures id in At(s, run, n).people && At(s, run, n).people[id] == s.people[id]
  {
    hide After;
    if n > 0 {
      OthersAreUndisturbed(s, run, n - 1, id);
      RunIsSound(s, run, n - 1);
      AfterKeeps(At(s, run, n - 1), run[n - 1], id);
    }
  }
}

/**
 * The sign-in exchange (apps/cms/src/idp/exchange-core.ts) as interleaved
 * steps: any number of exchanges, each between two of its queries, and the
 * administrators' writes (apps/cms/src/utils/user-admin.ts). A query or a
 * transaction is one step. No row is deleted and no identity moves.
 */
module SignInExchange {
  import opened Common
  import opened Roles

  datatype Identity = Identity(provider: Provider, key: string)

  /**
   * A user row. Two fields only record history: whether an admin changed the
   * role since the provider last wrote it, and which exchange inserted the row.
   */
  datatype User = User(
    keys: map<Provider, string>, email: string, blocked: bool, state: RoleState, changed: bool, creator: Option<nat>)

  type Users = map<nat, User>

  datatype Request = Request(identity: Identity, email: Option<string>, mode: Mode, resolution: Resolution)

  datatype Reason = Blocked | Conflict(taken: nat) | Decided(refusal: Refusal) | NoEmail | NoRole
  datatype Cause = DatabaseError | ReadbackFailed | UserVanished
  datatype Outcome = Admitted(id: nat, created: bool) | Refused(reason: Reason) | Thrown(cause: Cause)

  /** What an exchange does next. */
  datatype Stage =
    | Begin
    | CheckMail
    | ReFind(taken: nat)
    | Insert(role: Role)
    | Lost
    | ReadBack(created: bool)
    | WriteRole(id: nat)
    | Ended(outcome: Outcome)

  datatype Exchange = Exchange(request: Request, stage: Stage)
  datatype World = World(users: Users, nextId: nat, exchanges: seq<Exchange>)

  predicate Holds(user: User, identity: Identity) {
    identity.provider in user.keys && user.keys[identity.provider] == identity.key
  }

  ghost predicate Held(users: Users, identity: Identity) {
    exists id :: id in users && Holds(users[id], identity)
  }

  /** `findOne` by the identity. */
  ghost function HolderOf(users: Users, identity: Identity): (id: nat)
    requires Held(users, identity)
    ensures id in users && Holds(users[id], identity)
  {
    var id :| id in users && Holds(users[id], identity);
    id
  }

  /** `$eqi`: the address, whatever its case. */
  predicate HasMail(user: User, email: string) {
    Lower(user.email) == Lower(email)
  }

  ghost predicate MailTaken(users: Users, email: string) {
    exists id :: id in users && HasMail(users[id], email)
  }

  ghost function MailHolder(users: Users, email: string): (id: nat)
    requires MailTaken(users, email)
    ensures id in users && HasMail(users[id], email)
  {
    var id :| id in users && HasMail(users[id], email);
    id
  }

  // ---------------------------------------------------------------------
  // The steps.

  /** How the database answers a step: as asked, without the role's row, or with an error. */
  datatype Weather = Fair | RoleMissing | Error

  /** What follows a find: a blocked row is refused, another gets its role written. */
  function Found(users: Users, id: nat): Stage
    requires id in users
  {
    if users[id].blocked then Ended(Refused(Blocked)) else WriteRole(id)
  }

  /** The row a first sign-in inserts. */
  function NewUser(request: Request, role: Role, self: nat): User
    requires request.email.Some?
  {
    User(map[request.identity.provider := request.identity.key], request.email.value, false,
      RoleState(Some(role), Some(From(request.identity.provider)), Some(role)), false, Some(self))
  }

  /** An existing user after a role decision. */
  function Decide(user: User, request: Request): Decision {
    DecideRoleWrite(Some(user.state), request.resolution, request.mode, request.identity.provider)
  }

  function Written(user: User, decision: Decision): User {
    user.(state := Write(user.state, decision), changed := user.changed && !decision.Assign? && !decision.Note?)
  }

  datatype Effect = Effect(users: Users, stage: Stage)

  /** One step of exchange `self`, at its stage. */
  ghost function Step(users: Users, nextId: nat, e: Exchange, self: nat, weather: Weather): Effect {
    var request := e.request;
    if weather == Error && !e.stage.Insert? && !e.stage.Ended? then Effect(users, Ended(Thrown(DatabaseError)))
    else
      match e.stage
      case Begin =>
        if Held(users, request.identity) then Effect(users, Found(users, HolderOf(users, request.identity)))
        else Effect(users, if request.email.None? then Ended(Refused(NoEmail)) else CheckMail)
      case CheckMail =>
        if request.email.None? then Effect(users, e.stage)
        else if MailTaken(users, request.email.value) then Effect(users, ReFind(MailHolder(users, request.email.value)))
        else
          (match DecideRoleWrite(None, request.resolution, request.mode, request.identity.provider)
           case Create(role) => Effect(users, if weather == RoleMissing then Ended(Refused(NoRole)) else Insert(role))
           case Reject(refusal) => Effect(users, Ended(Refused(Decided(refusal))))
           case _ => Effect(users, e.stage))
      case ReFind(taken) =>
        if Held(users, request.identity) then Effect(users, Found(users, HolderOf(users, request.identity)))
        else Effect(users, Ended(Refused(Conflict(taken))))
      case Insert(role) =>
        if weather == Error || Held(users, request.identity) || request.email.None? then Effect(users, Lost)
        else Effect(users[nextId := NewUser(request, role, self)], ReadBack(true))
      case Lost => Effect(users,
        if Held(users, request.identity) then ReadBack(false) else Ended(Thrown(DatabaseError)))
      case ReadBack(created) =>
        if !Held(users, request.identity) then Effect(users, Ended(Thrown(ReadbackFailed)))
        else
          var id := HolderOf(users, request.identity);
          Effect(users, if created then Ended(Admitted(id, true)) else Found(users, id))
      case WriteRole(id) =>
        if id !in users then Effect(users, Ended(Thrown(UserVanished)))
        else
          (match Decide(users[id], request)
           case Reject(refusal) => Effect(users, Ended(Refused(Decided(refusal))))
           case decision =>
             if decision.Assign? && weather == RoleMissing then Effect(users, Ended(Refused(NoRole)))
             else Effect(users[id := Written(users[id], decision)], Ended(Admitted(id, false))))
      case Ended(_) => Effect(users, e.stage)
  }

  datatype AdminAction =
    | PanelRole(id: nat, role: Option<Role>)
    | WebRole(id: nat, chosen: Role)
    | HandBack(id: nat, provider: Provider)
    | Block(id: nat, blocked: bool)
    | SetEmail(id: nat, email: string)
    | BindIdentity(id: nat, identity: Identity)
    | AddUser(email: string, role: Option<Role>)

  ghost function Administer(w: World, action: AdminAction): World {
    if action.AddUser? then
      w.(users := w.users[w.nextId := User(map[], action.email, false, RoleState(action.role, None, None), false,
        None)],
        nextId := w.nextId + 1)
    else if action.id !in w.users then w
    else
      var user := w.users[action.id];
      match action
      case PanelRole(id, role) => w.(users := w.users[id := user.(state := user.state.(role := role), changed := true)])
      case WebRole(id, chosen) =>
        w.(users := w.users[id := user.(state := RoleState(Some(chosen), Some(Manual), None), changed := true)])
      case HandBack(id, provider) =>
        if provider in user.keys
        then w.(users := w.users[id := user.(state := user.state.(source := Some(From(provider)), applied := None))])
        else w
      case Block(id, blocked) => w.(users := w.users[id := user.(blocked := blocked)])
      case SetEmail(id, email) => w.(users := w.users[id := user.(email := email)])
      case BindIdentity(id, identity) =>
        if Held(w.users, identity) || identity.provider in user.keys then w
        else w.(users := w.users[id := user.(keys := user.keys[identity.provider := identity.key])])
  }

  datatype Event = Arrive(request: Request) | Advance(x: nat, weather: Weather) | Act(action: AdminAction)

  ghost function Next(w: World, event: Event): World {
    match event
    case Arrive(request) => w.(exchanges := w.exchanges + [Exchange(request, Begin)])
    case Act(action) => Administer(w, action)
    case Advance(x, weather) =>
      if |w.exchanges| <= x then w
      else
        var effect := Step(w.users, w.nextId, w.exchanges[x], x, weather);
        World(effect.users, if w.nextId in effect.users then w.nextId + 1 else w.nextId,
          w.exchanges[x := w.exchanges[x].(stage := effect.stage)])
  }

  /** The world after the first `n` events. */
  ghost function At(w: World, run: seq<Event>, n: nat): World
    requires n <= |run|
  {
    if n == 0 then w else Next(At(w, run, n - 1), run[n - 1])
  }

  // ---------------------------------------------------------------------
  // What every run keeps.

  /** No identity has two rows: the unique index. */
  ghost predicate OneRowEach(users: Users) {
    forall i, j, identity :: i in users && j in users && Holds(users[i], identity) && Holds(users[j], identity) ==>
      i == j
  }

  ghost predicate IdsBelow(users: Users, nextId: nat) {
    forall id :: id in users ==> id < nextId
  }

  /** An owned row whose role is not the applied one was changed by an admin since. */
  predicate Accounted(user: User) {
    user.state.source.Some? && user.state.source.value.From? && Overridden(user.state) ==> user.changed
  }

  /** An exchange beyond a find is about the row of its own identity. */
  ghost predicate OnItsRow(users: Users, e: Exchange) {
    match e.stage
    case WriteRole(id) => id in users && Holds(users[id], e.request.identity)
    case ReadBack(_) => Held(users, e.request.identity)
    case ReFind(taken) => taken in users
    case CheckMail => e.request.email.Some?
    case Insert(_) => e.request.email.Some?
    case Ended(Admitted(id, _)) => id in users && Holds(users[id], e.request.identity)
    case Ended(Thrown(cause)) => cause == DatabaseError
    case _ => true
  }

  predicate Created(e: Exchange) {
    e.stage == ReadBack(true) || (e.stage.Ended? && e.stage.outcome.Admitted? && e.stage.outcome.created)
  }

  ghost predicate InsertedBy(users: Users, x: nat) {
    exists id :: id in users && users[id].creator == Some(x)
  }

  /** A row's inserting exchange is one of its own identity, past its insert. */
  predicate WellInserted(user: User, exchanges: seq<Exchange>) {
    user.creator.Some? ==>
      && user.creator.value < |exchanges|
      && Holds(user, exchanges[user.creator.value].request.identity)
      && (Created(exchanges[user.creator.value]) || exchanges[user.creator.value].stage == Ended(Thrown(DatabaseError)))
  }

  ghost predicate Invariant(w: World) {
    && OneRowEach(w.users) && IdsBelow(w.users, w.nextId)
    && (forall id :: id in w.users ==> Accounted(w.users[id]) && WellInserted(w.users[id], w.exchanges))
    && (forall x :: 0 <= x < |w.exchanges| ==> OnItsRow(w.users, w.exchanges[x]))
    && (forall x :: 0 <= x < |w.exchanges| && Created(w.exchanges[x]) ==> InsertedBy(w.users, x))
  }

  predicate Kept(before: User, after: User) {
    after.creator == before.creator && forall p :: p in before.keys ==>
      p in after.keys && after.keys[p] == before.keys[p]
  }

  /** The rows only grow: none goes, and each keeps its identities and its inserter. */
  ghost predicate Grown(before: Users, after: Users) {
    forall id :: id in before ==> id in after && Kept(before[id], after[id])
  }

  lemma GrownKeeps(before: Users, after: Users, e: Exchange, x: nat)
    requires Grown(before, after)
    ensures OnItsRow(before, e) ==> OnItsRow(after, e)
    ensures InsertedBy(before, x) ==> InsertedBy(after, x)
  {
    if Held(before, e.request.identity) {
      var id :| id in before && Holds(before[id], e.request.identity);
      assert Holds(after[id], e.request.identity);
    }
  }

  lemma ReplaceKeeps(users: Users, id: nat, user: User)
    requires OneRowEach(users) && id in users
    requires user.keys == users[id].keys && user.creator == users[id].creator
    ensures Grown(users, users[id := user]) && OneRowEach(users[id := user])
  {
    forall i, identity | i in users[id := user] && Holds(users[id := user][i], identity)
      ensures i in users && Holds(users[i], identity)
    {}
  }

  lemma InsertKeeps(users: Users, id: nat, user: User)
    requires OneRowEach(users) && id !in users
    requires forall identity :: Holds(user, identity) ==> !Held(users, identity)
    ensures Grown(users, users[id := user]) && OneRowEach(users[id := user])
  {}

  lemma BindKeeps(users: Users, id: nat, identity: Identity)
    requires OneRowEach(users) && id in users && !Held(users, identity) && identity.provider !in users[id].keys
    ensures var bound := users[id := users[id].(keys := users[id].keys[identity.provider := identity.key])];
      Grown(users, bound) && OneRowEach(bound)
  {
    var bound := users[id := users[id].(keys := users[id].keys[identity.provider := identity.key])];
    forall i, other | i in bound && Holds(bound[i], other)
      ensures (other == identity && i == id) || (i in users && Holds(users[i], other) && other != identity)
    {}
  }

  /** A row as exchange `x` inserts it. */
  predicate IsInserted(user: User, e: Exchange, x: nat) {
    !user.changed && Accounted(user) && user.creator == Some(x) && Holds(user, e.request.identity)
  }

  /** A step of an exchange: at most a row inserted or a row's role state written. */
  lemma StepUsers(users: Users, nextId: nat, e: Exchange, x: nat, weather: Weather)
    requires OneRowEach(users) && IdsBelow(users, nextId) && OnItsRow(users, e)
    ensures var after := Step(users, nextId, e, x, weather).users;
      && Grown(users, after) && OneRowEach(after)
      && (forall id :: id in after ==>
        if id in users then (Accounted(users[id]) ==> Accounted(after[id])) && (after[id].changed ==> users[id].changed)
        else id == nextId && IsInserted(after[id], e, x))
      && (nextId in after ==> Step(users, nextId, e, x, weather).stage == ReadBack(true) && InsertedBy(after, x))
  {
    hide Held, Grown, OneRowEach, Accounted, MailTaken;
    SameUsers(users);
    if e.stage.Insert? {
      if weather != Error && !Held(users, e.request.identity) { NotHeldByNew(users, nextId, e, x); }
    } else if e.stage.WriteRole? {
      if weather != Error { WrittenKeeps(users, e); }
    } else {
      OnlyReads(users, nextId, e, x, weather);
    }
  }

  /** Every other stage only reads. */
  lemma OnlyReads(users: Users, nextId: nat, e: Exchange, x: nat, weather: Weather)
    requires !e.stage.Insert? && !e.stage.WriteRole?
    ensures Step(users, nextId, e, x, weather).users == users
  {
    hide Held, MailTaken, DecideRoleWrite;
  }

  lemma WrittenKeeps(users: Users, e: Exchange)
    requires OneRowEach(users) && e.stage.WriteRole? && e.stage.id in users
    ensures var after := users[e.stage.id := Written(users[e.stage.id], Decide(users[e.stage.id], e.request))];
      && Grown(users, after) && OneRowEach(after)
      && (forall id :: id in after ==>
        id in users && (Accounted(users[id]) ==> Accounted(after[id])) && (after[id].changed ==> users[id].changed))
  {
    hide Grown, OneRowEach;
    var id := e.stage.id;
    ReplaceKeeps(users, id, Written(users[id], Decide(users[id], e.request)));
  }

  lemma NotHeldByNew(users: Users, nextId: nat, e: Exchange, x: nat)
    requires OneRowEach(users) && IdsBelow(users, nextId) && e.stage.Insert? && e.request.email.Some?
    requires !Held(users, e.request.identity)
    ensures var after := users[nextId := NewUser(e.request, e.stage.role, x)];
      && Grown(users, after) && OneRowEach(after) && InsertedBy(after, x)
      && Accounted(after[nextId]) && !after[nextId].changed && Holds(after[nextId], e.request.identity) &&
        after[nextId].creator == Some(x)
  {
    InsertKeeps(users, nextId, NewUser(e.request, e.stage.role, x));
    var after := users[nextId := NewUser(e.request, e.stage.role, x)];
    assert after[nextId].creator == Some(x);
  }

  /** After its step an exchange is again on its own row, and created only by its own insert. */
  lemma StepStage(users: Users, nextId: nat, e: Exchange, x: nat, weather: Weather)
    requires OneRowEach(users) && IdsBelow(users, nextId) && OnItsRow(users, e)
    ensures var effect := Step(users, nextId, e, x, weather);
      && OnItsRow(effect.users, e.(stage := effect.stage))
      && (Created(e.(stage := effect.stage)) ==> Created(e) || nextId in effect.users)
      && (Created(e) ==> Created(e.(stage := effect.stage)) || effect.stage == Ended(Thrown(DatabaseError)))
  {
    var effect := Step(users, nextId, e, x, weather);
    if e.stage.Insert? && weather != Error && !Held(users, e.request.identity) {
      assert Holds(effect.users[nextId], e.request.identity);
    } else if e.stage.WriteRole? && weather != Error {
      var id := e.stage.id;
      assert Holds(Written(users[id], Decide(users[id], e.request)), e.request.identity);
    }
  }

  lemma AdvanceKeeps(w: World, x: nat, weather: Weather)
    requires Invariant(w) && x < |w.exchanges|
    ensures Invariant(Next(w, Advance(x, weather)))
  {
    hide Step, OneRowEach, OnItsRow, Accounted, InsertedBy, Holds, Kept;
    var e := w.exchanges[x];
    var effect := Step(w.users, w.nextId, e, x, weather);
    StepUsers(w.users, w.nextId, e, x, weather);
    StepStage(w.users, w.nextId, e, x, weather);
    var after := Next(w, Advance(x, weather));
    forall y | 0 <= y < |w.exchanges|
      ensures OnItsRow(after.users, after.exchanges[y])
      ensures Created(after.exchanges[y]) ==> InsertedBy(after.users, y)
    {
      GrownKeeps(w.users, after.users, w.exchanges[y], y);
    }
    forall id | id in after.users
      ensures Accounted(after.users[id]) && WellInserted(after.users[id], after.exchanges)
    {
      if id in w.users { InserterStays(w, x, weather, id); }
    }
  }

  lemma InserterStays(w: World, x: nat, weather: Weather, id: nat)
    requires x < |w.exchanges| && id in w.users && WellInserted(w.users[id], w.exchanges)
    requires OneRowEach(w.users) && IdsBelow(w.users, w.nextId) && OnItsRow(w.users, w.exchanges[x])
    requires var after := Next(w, Advance(x, weather)); id in after.users && Kept(w.users[id], after.users[id])
    ensures var after := Next(w, Advance(x, weather)); WellInserted(after.users[id], after.exchanges)
  {
    hide Step, OneRowEach, OnItsRow, IdsBelow;
    StepStage(w.users, w.nextId, w.exchanges[x], x, weather);
    if w.exchanges[x].stage.Ended? { EndedStays(w.users, w.nextId, w.exchanges[x], x, weather); }
  }

  lemma EndedStays(users: Users, nextId: nat, e: Exchange, x: nat, weather: Weather)
    requires e.stage.Ended?
    ensures Step(users, nextId, e, x, weather) == Effect(users, e.stage)
  {}

  lemma AdminKeeps(w: World, action: AdminAction)
    requires Invariant(w)
    ensures Invariant(Administer(w, action))
  {
    hide OneRowEach, OnItsRow, Grown, InsertedBy, Held;
    var after := Administer(w, action);
    AdminUsers(w, action);
    forall y | 0 <= y < |w.exchanges|
      ensures OnItsRow(after.users, after.exchanges[y])
      ensures Created(after.exchanges[y]) ==> InsertedBy(after.users, y)
    {
      GrownKeeps(w.users, after.users, w.exchanges[y], y);
    }
  }

  lemma AdminUsers(w: World, action: AdminAction)
    requires OneRowEach(w.users) && IdsBelow(w.users, w.nextId)
    requires forall id :: id in w.users ==> Accounted(w.users[id]) && WellInserted(w.users[id], w.exchanges)
    ensures var after := Administer(w, action);
      && after.exchanges == w.exchanges && Grown(w.users, after.users) && OneRowEach(after.users)
      && IdsBelow(after.users, after.nextId)
      && forall id :: id in after.users ==> Accounted(after.users[id]) && WellInserted(after.users[id], w.exchanges)
  {
    hide Held, OneRowEach, Grown;
    var after := Administer(w, action);
    if action.AddUser? {
      InsertKeeps(w.users, w.nextId, after.users[w.nextId]);
    } else if action.id in w.users {
      if action.BindIdentity? {
        if !Held(w.users, action.identity) && action.identity.provider !in w.users[action.id].keys {
          BindKeeps(w.users, action.id, action.identity);
        } else {
          SameUsers(w.users);
        }
      } else {
        SameUsers(w.users);
        ReplaceKeeps(w.users, action.id, after.users[action.id]);
        assert after.users == w.users[action.id := after.users[action.id]];
      }
    } else {
      SameUsers(w.users);
    }
  }

  lemma SameUsers(users: Users)
    ensures Grown(users, users)
  {}

  lemma NextKeeps(w: World, event: Event)
    requires Invariant(w)
    ensures Invariant(Next(w, event))
  {
    match event {
      case Arrive(_) =>
      case Act(action) => AdminKeeps(w, action);
      case Advance(x, weather) => if x < |w.exchanges| { AdvanceKeeps(w, x, weather); }
    }
  }

  lemma {:induction false} RunKeeps(w: World, run: seq<Event>, n: nat)
    requires Invariant(w) && n <= |run|
    ensures Invariant(At(w, run, n))
  {
    hide Next, Invariant;
    if n > 0 {
      RunKeeps(w, run, n - 1);
      NextKeeps(At(w, run, n - 1), run[n - 1]);
    }
  }

  // ---------------------------------------------------------------------
  // Admission.

  /** An admitted exchange is on the row of its own identity, and no other row holds it. */
  lemma AdmittedOnItsOwnRow(w: World, run: seq<Event>, n: nat, x: nat)
    requires Invariant(w) && n <= |run| && x < |At(w, run, n).exchanges|
    requires At(w, run, n).exchanges[x].stage.Ended? && At(w, run, n).exchanges[x].stage.outcome.Admitted?
    ensures var after := At(w, run, n);
      var identity, id := after.exchanges[x].request.identity, after.exchanges[x].stage.outcome.id;
      && id in after.users && Holds(after.users[id], identity)
      && forall other :: other in after.users && Holds(after.users[other], identity) ==> other == id
  {
    RunKeeps(w, run, n);
    assert OnItsRow(At(w, run, n).users, At(w, run, n).exchanges[x]);
  }

  /** Of the exchanges of one identity at most one created its row, and it is the one that inserted it. */
  lemma OneCreator(w: World, run: seq<Event>, n: nat, x: nat, y: nat)
    requires Invariant(w) && n <= |run| && x < |At(w, run, n).exchanges| && y < |At(w, run, n).exchanges|
    requires At(w, run, n).exchanges[x].request.identity == At(w, run, n).exchanges[y].request.identity
    requires Created(At(w, run, n).exchanges[x]) && Created(At(w, run, n).exchanges[y])
    ensures x == y
  {
    hide Created;
    var after := At(w, run, n);
    RunKeeps(w, run, n);
    var i :| i in after.users && after.users[i].creator == Some(x);
    var j :| j in after.users && after.users[j].creator == Some(y);
    assert WellInserted(after.users[i], after.exchanges) && WellInserted(after.users[j], after.exchanges);
    assert Holds(after.users[i], after.exchanges[x].request.identity);
    assert Holds(after.users[j], after.exchanges[x].request.identity);
  }

  /** An exchange that ended without a database error says `created` exactly when it inserted the row. */
  lemma CreatedMeansInserted(w: World, run: seq<Event>, n: nat, id: nat, x: nat)
    requires Invariant(w) && n <= |run| && id in At(w, run, n).users && x < |At(w, run, n).exchanges|
    requires At(w, run, n).exchanges[x].stage.Ended?
    requires At(w, run, n).exchanges[x].stage.outcome != Thrown(DatabaseError)
    ensures At(w, run, n).exchanges[x].stage == Ended(Admitted(id, true)) <==>
      At(w, run, n).users[id].creator == Some(x)
  {
    hide Accounted, IdsBelow;
    var after := At(w, run, n);
    RunKeeps(w, run, n);
    var e := after.exchanges[x];
    assert WellInserted(after.users[id], after.exchanges) && OnItsRow(after.users, e);
    if e.stage == Ended(Admitted(id, true)) {
      assert Created(e) && InsertedBy(after.users, x);
      var j :| j in after.users && after.users[j].creator == Some(x);
      assert WellInserted(after.users[j], after.exchanges);
      assert Holds(after.users[j], e.request.identity);
    }
    if after.users[id].creator == Some(x) {
      assert Created(e);
    }
  }

  /** No administrator gives the identity to a row in the first `n` events. */
  predicate NeverBound(run: seq<Event>, n: nat, identity: Identity)
    requires n <= |run|
  {
    forall i :: 0 <= i < n ==> !(run[i].Act? && run[i].action.BindIdentity? && run[i].action.identity == identity)
  }

  /** Every row of the identity was inserted by an exchange of it. */
  ghost predicate InsertedForItself(w: World, identity: Identity) {
    forall id :: id in w.users && Holds(w.users[id], identity) ==>
      var creator := w.users[id].creator;
      creator.Some? && creator.value < |w.exchanges| && w.exchanges[creator.value].request.identity == identity
  }

  lemma AdminAddsNoHolder(w: World, action: AdminAction, identity: Identity)
    requires InsertedForItself(w, identity) && !(action.BindIdentity? && action.identity == identity)
    ensures InsertedForItself(Administer(w, action), identity)
  {
    hide Held;
    var after := Administer(w, action);
    forall id | id in after.users && Holds(after.users[id], identity)
      ensures id in w.users && Holds(w.users[id], identity) && after.users[id].creator == w.users[id].creator
    {}
  }

  lemma HoldersAreInserted(w: World, event: Event, identity: Identity)
    requires Invariant(w) && InsertedForItself(w, identity)
    requires !(event.Act? && event.action.BindIdentity? && event.action.identity == identity)
    ensures InsertedForItself(Next(w, event), identity)
  {
    hide Step, Administer, OneRowEach, Grown, Accounted, WellInserted, OnItsRow;
    match event {
      case Arrive(_) =>
      case Act(action) => AdminAddsNoHolder(w, action, identity);
      case Advance(x, weather) =>
        if x < |w.exchanges| {
          StepHolders(w.users, w.nextId, w.exchanges[x], x, weather, identity);
          StepUsers(w.users, w.nextId, w.exchanges[x], x, weather);
        }
    }
  }

  /** A step gives no stored row an identity, and a new row only its exchange's. */
  lemma StepHolders(users: Users, nextId: nat, e: Exchange, x: nat, weather: Weather, identity: Identity)
    requires IdsBelow(users, nextId)
    ensures var after := Step(users, nextId, e, x, weather).users;
      forall id :: id in after && Holds(after[id], identity) ==>
        if id in users then Holds(users[id], identity) && after[id].creator == users[id].creator
        else after[id].creator == Some(x) && e.request.identity == identity
  {
    hide Held, MailTaken;
    if !e.stage.Insert? && !e.stage.WriteRole? { OnlyReads(users, nextId, e, x, weather); }
  }

  lemma {:induction false} HoldersStayInserted(w: World, run: seq<Event>, n: nat, identity: Identity)
    requires Invariant(w) && n <= |run| && !Held(w.users, identity) && NeverBound(run, n, identity)
    ensures InsertedForItself(At(w, run, n), identity)
  {
    hide Next, Invariant;
    if n > 0 {
      HoldersStayInserted(w, run, n - 1, identity);
      RunKeeps(w, run, n - 1);
      HoldersAreInserted(At(w, run, n - 1), run[n - 1], identity);
    }
  }

  /**
   * A first sign-in has exactly one creator: when an identity held by no row
   * at the start, and bound to none by an administrator, has an admitted
   * exchange, one row holds it, one exchange of it inserted that row, and that
   * exchange says `created` unless a database error ended it afterwards.
   */
  lemma FirstSignInHasACreator(w: World, run: seq<Event>, n: nat, x: nat) returns (creator: nat)
    requires Invariant(w) && n <= |run| && x < |At(w, run, n).exchanges|
    requires At(w, run, n).exchanges[x].stage.Ended? && At(w, run, n).exchanges[x].stage.outcome.Admitted?
    requires !Held(w.users, At(w, run, n).exchanges[x].request.identity)
    requires NeverBound(run, n, At(w, run, n).exchanges[x].request.identity)
    ensures var after := At(w, run, n);
      var identity, id := after.exchanges[x].request.identity, after.exchanges[x].stage.outcome.id;
      && id in after.users && Holds(after.users[id], identity) && after.users[id].creator == Some(creator)
      && creator < |after.exchanges| && after.exchanges[creator].request.identity == identity
      && (Created(after.exchanges[creator]) || after.exchanges[creator].stage == Ended(Thrown(DatabaseError)))
  {
    hide Accounted, IdsBelow, Created;
    var after := At(w, run, n);
    RunKeeps(w, run, n);
    AdmittedOnItsOwnRow(w, run, n, x);
    HoldersStayInserted(w, run, n, after.exchanges[x].request.identity);
    var id := after.exchanges[x].stage.outcome.id;
    creator := after.users[id].creator.value;
    assert WellInserted(after.users[id], after.exchanges);
  }

  /** An exchange of the identity that ended admitted. */
  predicate IsAdmitted(e: Exchange, identity: Identity) {
    e.request.identity == identity && e.stage.Ended? && e.stage.outcome.Admitted?
  }

  /** The exchanges of an identity have all ended, none of them in a database error. */
  predicate AllEndedWell(exchanges: seq<Exchange>, identity: Identity) {
    forall x :: 0 <= x < |exchanges| && exchanges[x].request.identity == identity ==>
      exchanges[x].stage.Ended? && exchanges[x].stage.outcome != Thrown(DatabaseError)
  }

  /**
   * So once the exchanges of such an identity have ended without a database
   * error and one of them is admitted, all admitted ones are on one row, and
   * exactly one says it created it.
   */
  lemma ExactlyOneCreated(w: World, run: seq<Event>, n: nat, identity: Identity, x: nat) returns (creator: nat)
    requires Invariant(w) && n <= |run| && !Held(w.users, identity) && NeverBound(run, n, identity)
    requires AllEndedWell(At(w, run, n).exchanges, identity)
    requires x < |At(w, run, n).exchanges| && IsAdmitted(At(w, run, n).exchanges[x], identity)
    ensures var after := At(w, run, n);
      var id := after.exchanges[x].stage.outcome.id;
      && creator < |after.exchanges| && IsAdmitted(after.exchanges[creator], identity)
      && forall y :: 0 <= y < |after.exchanges| && IsAdmitted(after.exchanges[y], identity) ==>
        after.exchanges[y].stage == Ended(Admitted(id, y == creator))
  {
    hide Invariant, At, Held;
    var after := At(w, run, n);
    creator := FirstSignInHasACreator(w, run, n, x);
    var id := after.exchanges[x].stage.outcome.id;
    AdmittedOnItsOwnRow(w, run, n, x);
    AdmittedOnItsOwnRow(w, run, n, creator);
    forall y | 0 <= y < |after.exchanges| && IsAdmitted(after.exchanges[y], identity)
      ensures after.exchanges[y].stage == Ended(Admitted(id, y == creator))
    {
      AdmittedOnItsOwnRow(w, run, n, y);
      CreatedMeansInserted(w, run, n, id, y);
    }
  }

  lemma GrownNext(w: World, event: Event)
    requires Invariant(w)
    ensures Grown(w.users, Next(w, event).users)
  {
    hide Step, Administer;
    SameUsers(w.users);
    match event {
      case Arrive(_) =>
      case Act(action) => AdminUsers(w, action);
      case Advance(x, weather) => if x < |w.exchanges| { StepUsers(w.users, w.nextId, w.exchanges[x], x, weather); }
    }
  }

  lemma GrownTwice(a: Users, b: Users, c: Users)
    requires Grown(a, b) && Grown(b, c)
    ensures Grown(a, c)
  {}

  /** Event `m` is the exchange's own look for the address. */
  ghost predicate ChecksMail(w: World, run: seq<Event>, m: nat, x: nat)
    requires m < |run|
  {
    && run[m].Advance? && run[m].x == x
    && x < |At(w, run, m).exchanges| && At(w, run, m).exchanges[x].stage.CheckMail?
  }

  /** A row held the address as exchange `x` looked for it in event `m`, and has only grown since. */
  ghost predicate HeldTheMail(w: World, run: seq<Event>, m: nat, n: nat, x: nat, email: Option<string>, taken: nat)
    requires m < n <= |run|
  {
    ChecksMail(w, run, m, x) && taken in At(w, run, m).users && email.Some? &&
      HasMail(At(w, run, m).users[taken], email.value) &&
    Grown(At(w, run, m).users, At(w, run, n).users)
  }

  /** What a run remembers of an exchange whose address was taken. */
  ghost predicate Remembered(w: World, run: seq<Event>, n: nat, x: nat, e: Exchange)
    requires n <= |run|
  {
    match e.stage
    case ReFind(taken) => exists m: nat :: m < n && HeldTheMail(w, run, m, n, x, e.request.email, taken)
    case Ended(Refused(Conflict(taken))) =>
      exists m: nat :: m < n && HeldTheMail(w, run, m, n, x, e.request.email, taken) &&
        !Holds(At(w, run, m).users[taken], e.request.identity)
    case _ => true
  }

  lemma RememberedLater(w: World, run: seq<Event>, n: nat, x: nat, e: Exchange)
    requires Invariant(w) && 0 < n <= |run| && Remembered(w, run, n - 1, x, e)
    ensures Remembered(w, run, n, x, e)
  {
    hide Next, Grown, Holds, HasMail, Invariant;
    RunKeeps(w, run, n - 1);
    GrownNext(At(w, run, n - 1), run[n - 1]);
    match e.stage {
      case ReFind(taken) =>
        var m: nat :| m < n - 1 && HeldTheMail(w, run, m, n - 1, x, e.request.email, taken);
        GrownTwice(At(w, run, m).users, At(w, run, n - 1).users, At(w, run, n).users);
        assert HeldTheMail(w, run, m, n, x, e.request.email, taken);
      case Ended(Refused(Conflict(taken))) =>
        var m: nat :| m < n - 1 && HeldTheMail(w, run, m, n - 1, x, e.request.email, taken) &&
          !Holds(At(w, run, m).users[taken], e.request.identity);
        GrownTwice(At(w, run, m).users, At(w, run, n - 1).users, At(w, run, n).users);
        assert HeldTheMail(w, run, m, n, x, e.request.email, taken);
      case _ =>
    }
  }

  lemma RememberedAfterStep(w: World, run: seq<Event>, n: nat, x: nat, weather: Weather)
    requires Invariant(w) && 0 < n <= |run| && run[n - 1] == Advance(x, weather) && x < |At(w, run, n - 1).exchanges|
    requires Remembered(w, run, n - 1, x, At(w, run, n - 1).exchanges[x])
    ensures Remembered(w, run, n, x, At(w, run, n).exchanges[x])
  {
    hide Grown, Holds, HasMail, Invariant;
    var before, after := At(w, run, n - 1), At(w, run, n);
    RunKeeps(w, run, n - 1);
    GrownNext(before, run[n - 1]);
    var e := before.exchanges[x];
    if e.stage.CheckMail? && after.exchanges[x].stage.ReFind? {
      assert HeldTheMail(w, run, n - 1, n, x, e.request.email, after.exchanges[x].stage.taken);
    } else if e.stage.ReFind? && after.exchanges[x].stage == Ended(Refused(Conflict(e.stage.taken))) {
      var taken := e.stage.taken;
      var m: nat :| m < n - 1 && HeldTheMail(w, run, m, n - 1, x, e.request.email, taken);
      NotHeldBefore(At(w, run, m).users, before.users, e.request.identity, taken);
      GrownTwice(At(w, run, m).users, before.users, after.users);
      assert HeldTheMail(w, run, m, n, x, e.request.email, taken);
    } else if e.stage.Ended? {
      EndedStays(before.users, before.nextId, e, x, weather);
      RememberedLater(w, run, n, x, e);
    }
  }

  lemma NotHeldBefore(before: Users, after: Users, identity: Identity, id: nat)
    requires Grown(before, after) && id in before && !Held(after, identity)
    ensures !Holds(before[id], identity)
  {}

  lemma {:induction false} RunRemembers(w: World, run: seq<Event>, n: nat, x: nat)
    requires Invariant(w) && w.exchanges == [] && n <= |run| && x < |At(w, run, n).exchanges|
    ensures Remembered(w, run, n, x, At(w, run, n).exchanges[x])
  {
    hide Invariant, Step, Remembered;
    if n > 0 {
      var before := At(w, run, n - 1);
      if x < |before.exchanges| {
        RunRemembers(w, run, n - 1, x);
        if run[n - 1].Advance? && run[n - 1].x == x {
          RememberedAfterStep(w, run, n, x, run[n - 1].weather);
        } else {
          OthersWait(before, run[n - 1], x);
          RememberedLater(w, run, n, x, before.exchanges[x]);
        }
      } else {
        NothingToRemember(w, run, n, x, At(w, run, n).exchanges[x]);
      }
    }
  }

  lemma OthersWait(w: World, event: Event, x: nat)
    requires x < |w.exchanges| && !(event.Advance? && event.x == x)
    ensures x < |Next(w, event).exchanges| && Next(w, event).exchanges[x] == w.exchanges[x]
  {
    hide Step;
  }

  lemma NothingToRemember(w: World, run: seq<Event>, n: nat, x: nat, e: Exchange)
    requires n <= |run|
    ensures e.stage.Begin? ==> Remembered(w, run, n, x, e)
  {}

  /** The row holds the address of the request, and is not its identity's. */
  predicate AnothersAddress(users: Users, taken: nat, request: Request) {
    taken in users && request.email.Some? && Lower(users[taken].email) == Lower(request.email.value) &&
      !Holds(users[taken], request.identity)
  }

  /**
   * An address conflict is only ever about a row that held the address, and
   * was not the identity's own, as this very exchange looked for it.
   */
  lemma ConflictIsAnotherRows(w: World, run: seq<Event>, n: nat, x: nat, taken: nat)
    requires Invariant(w) && w.exchanges == [] && n <= |run| && x < |At(w, run, n).exchanges|
    requires At(w, run, n).exchanges[x].stage == Ended(Refused(Conflict(taken)))
    ensures var request := At(w, run, n).exchanges[x].request;
      exists m: nat :: m < n && ChecksMail(w, run, m, x) && AnothersAddress(At(w, run, m).users, taken, request)
  {
    hide Invariant, Next, Holds, Grown;
    RunRemembers(w, run, n, x);
    var request := At(w, run, n).exchanges[x].request;
    var m: nat :| m < n && HeldTheMail(w, run, m, n, x, request.email, taken) &&
      !Holds(At(w, run, m).users[taken], request.identity);
    assert AnothersAddress(At(w, run, m).users, taken, request);
  }

  /** How many of its own steps an exchange has left at most. */
  function StepsLeft(stage: Stage): nat {
    match stage
    case Begin => 6
    case CheckMail => 5
    case ReFind(_) => 2
    case Insert(_) => 4
    case Lost => 3
    case ReadBack(_) => 2
    case WriteRole(_) => 1
    case Ended(_) => 0
  }

  lemma EveryStepIsProgress(users: Users, nextId: nat, e: Exchange, x: nat, weather: Weather)
    requires OnItsRow(users, e) && !e.stage.Ended?
    ensures StepsLeft(Step(users, nextId, e, x, weather).stage) < StepsLeft(e.stage) <= 6
  {
    hide Held, MailTaken;
  }

  /** How often exchange `x` has moved in the first `n` events. */
  function Moves(run: seq<Event>, n: nat, x: nat): nat
    requires n <= |run|
  {
    if n == 0 then 0 else Moves(run, n - 1, x) + (if run[n - 1].Advance? && run[n - 1].x == x then 1 else 0)
  }

  /** Every exchange has ended after six of its own steps, whatever the others do meanwhile. */
  lemma {:induction false} SixStepsSuffice(w: World, run: seq<Event>, n: nat, x: nat)
    requires Invariant(w) && n <= |run| && x < |w.exchanges|
    ensures x < |At(w, run, n).exchanges|
    ensures StepsLeft(At(w, run, n).exchanges[x].stage) <= if Moves(run, n, x) <= 6 then 6 - Moves(run, n, x) else 0
    ensures 6 <= Moves(run, n, x) ==> At(w, run, n).exchanges[x].stage.Ended?
  {
    hide Invariant, Step;
    if n > 0 {
      var before := At(w, run, n - 1);
      SixStepsSuffice(w, run, n - 1, x);
      RunKeeps(w, run, n - 1);
      if run[n - 1].Advance? && run[n - 1].x == x {
        InvariantMeansOnItsRow(before, x);
        var e := before.exchanges[x];
        if e.stage.Ended? {
          EndedStays(before.users, before.nextId, e, x, run[n - 1].weather);
        } else {
          EveryStepIsProgress(before.users, before.nextId, e, x, run[n - 1].weather);
        }
      } else {
        OthersWait(before, run[n - 1], x);
      }
    }
  }

  lemma InvariantMeansOnItsRow(w: World, x: nat)
    requires Invariant(w) && x < |w.exchanges|
    ensures OnItsRow(w.users, w.exchanges[x])
  {}

  // ---------------------------------------------------------------------
  // Who owns the role.

  lemma ManualMeansChanged(w: World, x: nat, weather: Weather, id: nat)
    requires Invariant(w) && x < |w.exchanges| && id in w.users
    requires w.users[id].state.source.Some? && w.users[id].state.source.value.From?
    requires var after := Next(w, Advance(x, weather));
      id in after.users && after.users[id].state.source == Some(Manual)
    ensures w.users[id].changed
    ensures Next(w, Advance(x, weather)).users[id].state.role == w.users[id].state.role
  {
    hide Held, MailTaken;
    assert Accounted(w.users[id]);
  }

  /** An admin's role change on the row with this id. */
  predicate SetsRole(event: Event, id: nat) {
    event.Act? && (event.action.PanelRole? || event.action.WebRole?) && event.action.id == id
  }

  lemma ChangedByAnAdmin(w: World, event: Event, id: nat)
    requires Invariant(w) && id in Next(w, event).users && Next(w, event).users[id].changed
    ensures id in w.users
    ensures !SetsRole(event, id) ==> w.users[id].changed
  {
    hide Held, MailTaken, Step, OneRowEach, Accounted, WellInserted;
    if event.Advance? && event.x < |w.exchanges| {
      StepUsers(w.users, w.nextId, w.exchanges[event.x], event.x, event.weather);
    }
  }

  /** A row whose role counts as changed was changed by an admin, and no provider has written it since. */
  lemma {:induction false} ChangedSince(w: World, run: seq<Event>, n: nat, id: nat)
    requires Invariant(w) && n <= |run| && id in At(w, run, n).users && At(w, run, n).users[id].changed
    requires forall i :: i in w.users ==> !w.users[i].changed
    ensures exists m :: 0 <= m < n && SetsRole(run[m], id) && ChangedFrom(w, run, m, n, id)
  {
    hide Invariant, Next;
    if n > 0 {
      RunKeeps(w, run, n - 1);
      ChangedByAnAdmin(At(w, run, n - 1), run[n - 1], id);
      if SetsRole(run[n - 1], id) {
        assert ChangedFrom(w, run, n - 1, n, id);
      } else {
        ChangedSince(w, run, n - 1, id);
        var m :| 0 <= m < n - 1 && SetsRole(run[m], id) && ChangedFrom(w, run, m, n - 1, id);
        assert ChangedFrom(w, run, m, n, id);
      }
    }
  }

  /** After every event from `m` to `n` the row is there and its role counts as changed. */
  ghost predicate ChangedFrom(w: World, run: seq<Event>, m: nat, n: nat, id: nat)
    requires m < n <= |run|
  {
    forall k :: m < k <= n ==> id in At(w, run, k).users && At(w, run, k).users[id].changed
  }

  /** An exchange's write of the row's role, or of the role it was told. */
  ghost predicate ProviderWrites(w: World, event: Event, id: nat) {
    && event.Advance? && event.weather != Error && event.x < |w.exchanges| && id in w.users
    && w.exchanges[event.x].stage == WriteRole(id)
    && var decision := Decide(w.users[id], w.exchanges[event.x].request);
      decision.Note? || (decision.Assign? && event.weather == Fair)
  }

  /** Such a write ends an admin's change. */
  lemma WritesEndTheChange(w: World, event: Event, id: nat)
    requires ProviderWrites(w, event, id)
    ensures id in Next(w, event).users && !Next(w, event).users[id].changed
  {
    hide DecideRoleWrite, Held, MailTaken;
  }

  lemma NextWorld(w: World, run: seq<Event>, k: nat)
    requires k < |run|
    ensures At(w, run, k + 1) == Next(At(w, run, k), run[k])
  {}

  lemma NoWriteSince(w: World, run: seq<Event>, m: nat, n: nat, id: nat)
    requires m < n <= |run| && ChangedFrom(w, run, m, n, id)
    ensures NotWrittenSince(w, run, m, n, id)
  {
    hide Next, ProviderWrites;
    forall k | m < k < n
      ensures !ProviderWrites(At(w, run, k), run[k], id)
    {
      NextWorld(w, run, k);
      if ProviderWrites(At(w, run, k), run[k], id) {
        WritesEndTheChange(At(w, run, k), run[k], id);
      }
    }
  }

  ghost predicate NotWrittenSince(w: World, run: seq<Event>, m: nat, n: nat, id: nat)
    requires m < n <= |run|
  {
    forall k :: m < k < n ==> !ProviderWrites(At(w, run, k), run[k], id)
  }

  /**
   * In every run, an exchange makes an owned row manual only after an admin
   * set its role, with no exchange's write of the role since, and it keeps
   * that role.
   */
  lemma ManualOnlyAfterAnAdmin(w: World, run: seq<Event>, n: nat, x: nat, weather: Weather, id: nat)
    requires Invariant(w) && (forall i :: i in w.users ==> !w.users[i].changed)
    requires n < |run| && run[n] == Advance(x, weather) && id in At(w, run, n).users
    requires At(w, run, n).users[id].state.source.Some? && At(w, run, n).users[id].state.source.value.From?
    requires id in At(w, run, n + 1).users && At(w, run, n + 1).users[id].state.source == Some(Manual)
    ensures exists m: nat :: m < n && SetsRole(run[m], id) && NotWrittenSince(w, run, m, n, id)
    ensures At(w, run, n + 1).users[id].state.role == At(w, run, n).users[id].state.role
  {
    hide Invariant, Step;
    RunKeeps(w, run, n);
    ManualMeansChanged(At(w, run, n), x, weather, id);
    ChangedSince(w, run, n, id);
    var m: nat :| m < n && SetsRole(run[m], id) && ChangedFrom(w, run, m, n, id);
    NoWriteSince(w, run, m, n, id);
  }

  /** The role is the intranet's: not owned by a provider, or not the one a provider applied. */
  predicate AdminsRole(state: RoleState) {
    state.source.None? || state.source == Some(Manual) || Overridden(state)
  }

  predicate TouchesRole(event: Event, id: nat) {
    event.Act? && (event.action.PanelRole? || event.action.WebRole? || event.action.HandBack?) && event.action.id == id
  }

  lemma AdminsRoleStaysOneStep(w: World, event: Event, id: nat)
    requires Invariant(w) && id in w.users && AdminsRole(w.users[id].state) && !TouchesRole(event, id)
    ensures var after := Next(w, event).users;
      id in after && after[id].state.role == w.users[id].state.role && AdminsRole(after[id].state)
  {
    hide Held, MailTaken;
    if event.Advance? && event.x < |w.exchanges| {
      WriteKeepsAdminsRole(w.users, w.nextId, w.exchanges[event.x], event.x, event.weather, id);
    }
  }

  lemma WriteKeepsAdminsRole(users: Users, nextId: nat, e: Exchange, x: nat, weather: Weather, id: nat)
    requires id in users && id < nextId && AdminsRole(users[id].state)
    ensures var after := Step(users, nextId, e, x, weather).users;
      id in after && after[id].state.role == users[id].state.role && AdminsRole(after[id].state)
  {
    hide Held, MailTaken;
  }

  /** Once the role is an admin's, no sign-in of any provider or mode changes it until an admin acts again. */
  lemma {:induction false} AdminsRoleStays(w: World, run: seq<Event>, n: nat, id: nat)
    requires Invariant(w) && n <= |run| && id in w.users && AdminsRole(w.users[id].state)
    requires forall i :: 0 <= i < n ==> !TouchesRole(run[i], id)
    ensures id in At(w, run, n).users && AdminsRole(At(w, run, n).users[id].state)
    ensures At(w, run, n).users[id].state.role == w.users[id].state.role
  {
    hide Next, Invariant;
    if n > 0 {
      AdminsRoleStays(w, run, n - 1, id);
      RunKeeps(w, run, n - 1);
      AdminsRoleStaysOneStep(At(w, run, n - 1), run[n - 1], id);
    }
  }

  /** A panel change away from the applied role, and any change in the web administration, make the role an admin's. */
  lemma AdminsTakeTheRole(w: World, id: nat, role: Role)
    requires id in w.users
    ensures var web, panel := Administer(w, WebRole(id, role)), Administer(w, PanelRole(id, Some(role)));
      && AdminsRole(web.users[id].state) && web.users[id].state.role == Some(role)
      && panel.users[id].state.role == Some(role)
      && (w.users[id].state.applied.Some? && w.users[id].state.applied != Some(role) ==>
        AdminsRole(panel.users[id].state))
  {}

  /**
   * A row handed back to its provider keeps its role until the next sign-in
   * with the sync on, which gives it the role it is granted.
   */
  lemma HandedBackFollowsTheProvider(w: World, id: nat, request: Request)
    requires id in w.users && request.identity.provider in w.users[id].keys && request.mode == On
    ensures var handed := Administer(w, HandBack(id, request.identity.provider)).users[id];
      && handed.state.role == w.users[id].state.role && !AdminsRole(handed.state)
      && (request.resolution.Granted? ==>
        var role := Some(request.resolution.role);
        Written(handed, Decide(handed, request)).state == RoleState(role, Some(From(request.identity.provider)), role))
  {}
}

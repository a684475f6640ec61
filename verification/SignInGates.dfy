/**
 * Who gets in, and on what grounds: every outcome of a sign-in exchange
 * (apps/cms/src/idp/exchange-core.ts) goes back to what one of its own steps
 * found, in every run of module SignInExchange.
 */
module SignInGates {
  import opened Common
  import opened Roles
  import opened SignInExchange

  /** Event `m` is a step of exchange `x`. */
  ghost predicate OwnStep(w: World, run: seq<Event>, m: nat, x: nat)
    requires m < |run|
  {
    run[m].Advance? && run[m].x == x && x < |At(w, run, m).exchanges|
  }

  lemma RequestStays(w: World, event: Event, x: nat)
    requires x < |w.exchanges|
    ensures x < |Next(w, event).exchanges| && Next(w, event).exchanges[x].request == w.exchanges[x].request
  {
    hide Step;
  }

  lemma {:induction false} RequestsStay(w: World, run: seq<Event>, m: nat, n: nat, x: nat)
    requires m <= n <= |run| && x < |At(w, run, m).exchanges|
    ensures x < |At(w, run, n).exchanges|
    ensures At(w, run, n).exchanges[x].request == At(w, run, m).exchanges[x].request
  {
    hide Next;
    if m < n {
      RequestsStay(w, run, m, n - 1, x);
      RequestStays(At(w, run, n - 1), run[n - 1], x);
    }
  }

  // ---------------------------------------------------------------------
  // Every outcome has its grounds.

  /** The stages at which an exchange looks for the row of its identity, to go on with it. */
  predicate LooksForItsRow(stage: Stage) {
    stage.Begin? || stage.ReFind? || stage == ReadBack(false)
  }

  predicate IsTurnedAway(user: User, request: Request) {
    TurnedAway(user.state, request.resolution, request.identity.provider)
  }

  /** The role fields the answer leaves this row with. */
  function Afterwards(user: User, request: Request): RoleState {
    StateAfter(user.state, request.resolution, request.mode, request.identity.provider)
  }

  ghost predicate HoldsBlocked(users: Users, identity: Identity) {
    exists id :: id in users && Holds(users[id], identity) && users[id].blocked
  }

  /** What an exchange's last step found, by its outcome. */
  ghost predicate Grounds(users: Users, e: Exchange, weather: Weather, outcome: Outcome) {
    var request := e.request;
    (weather == Error ==> outcome == Thrown(DatabaseError)) &&
    match outcome
    case Admitted(id, created) =>
      id in users && Holds(users[id], request.identity) &&
      if created then e.stage == ReadBack(true)
      else
        && e.stage == WriteRole(id) && !IsTurnedAway(users[id], request)
        && (weather == RoleMissing ==> Afterwards(users[id], request).role == users[id].state.role)
    case Refused(Blocked) => LooksForItsRow(e.stage) && HoldsBlocked(users, request.identity)
    case Refused(Conflict(taken)) => e.stage == ReFind(taken) && !Held(users, request.identity)
    case Refused(Decided(Unavailable)) => e.stage.CheckMail? && request.resolution == Unknown
    case Refused(Decided(NotAssigned)) =>
      request.resolution == Deny &&
      (e.stage.CheckMail? || (e.stage.WriteRole? && e.stage.id in users && IsTurnedAway(users[e.stage.id], request)))
    case Refused(NoEmail) => e.stage.Begin? && request.email.None? && !Held(users, request.identity)
    case Refused(NoRole) =>
      weather == RoleMissing &&
      if e.stage.CheckMail? then request.resolution.Granted?
      else
        && e.stage.WriteRole? && e.stage.id in users
        && Afterwards(users[e.stage.id], request).role != users[e.stage.id].state.role
    case Thrown(cause) =>
      cause == DatabaseError && (weather == Error || (e.stage.Lost? && !Held(users, request.identity)))
  }

  lemma StepHasGrounds(users: Users, nextId: nat, e: Exchange, x: nat, weather: Weather)
    requires OnItsRow(users, e) && !e.stage.Ended?
    ensures var stage := Step(users, nextId, e, x, weather).stage;
      stage.Ended? ==> Grounds(users, e, weather, stage.outcome)
  {
    NewcomersAreCreatedExactlyWhen(e.request.resolution, e.request.mode, e.request.identity.provider);
    if e.stage.WriteRole? && e.stage.id in users {
      StoredUsersAre(users[e.stage.id].state, e.request.resolution, e.request.mode, e.request.identity.provider);
    }
    hide DecideRoleWrite, Write, MailTaken, TurnedAway, StateAfter;
  }

  /** Event `m` is the exchange's own, with the grounds for this outcome. */
  ghost predicate EndedAt(w: World, run: seq<Event>, m: nat, x: nat, outcome: Outcome)
    requires m < |run|
  {
    OwnStep(w, run, m, x) && Grounds(At(w, run, m).users, At(w, run, m).exchanges[x], run[m].weather, outcome)
  }

  /**
   * In every run an exchange that has ended did so at an own step that found
   * the grounds of its outcome: a blocked row of its identity, an address of
   * another row, a deny, an unknown answer, a missing role or an error; or,
   * admitted, its own row and an answer that does not turn it away.
   */
  lemma {:induction false} EveryEndHasItsGrounds(w: World, run: seq<Event>, n: nat, x: nat)
    requires Invariant(w) && w.exchanges == [] && n <= |run| && x < |At(w, run, n).exchanges|
    requires At(w, run, n).exchanges[x].stage.Ended?
    ensures exists m: nat :: m < n && EndedAt(w, run, m, x, At(w, run, n).exchanges[x].stage.outcome)
  {
    hide Invariant, Step, Grounds;
    if n > 0 {
      var m := n - 1;
      var before := At(w, run, m);
      RunKeeps(w, run, m);
      if OwnStep(w, run, m, x) && !before.exchanges[x].stage.Ended? {
        InvariantMeansOnItsRow(before, x);
        StepHasGrounds(before.users, before.nextId, before.exchanges[x], x, run[m].weather);
        assert EndedAt(w, run, m, x, At(w, run, n).exchanges[x].stage.outcome);
      } else if x < |before.exchanges| {
        if OwnStep(w, run, m, x) {
          EndedStays(before.users, before.nextId, before.exchanges[x], x, run[m].weather);
        } else {
          OthersWait(before, run[m], x);
        }
        EveryEndHasItsGrounds(w, run, m, x);
      }
    }
  }

  // ---------------------------------------------------------------------
  // Sign-ins on a stored row.

  /** The exchange's own look found this row of its identity, and it was not blocked. */
  ghost predicate FoundOpen(w: World, run: seq<Event>, m: nat, x: nat, id: nat)
    requires m < |run|
  {
    && OwnStep(w, run, m, x) && LooksForItsRow(At(w, run, m).exchanges[x].stage)
    && id in At(w, run, m).users && !At(w, run, m).users[id].blocked
    && Holds(At(w, run, m).users[id], At(w, run, m).exchanges[x].request.identity)
  }

  lemma WriteFollowsALook(users: Users, nextId: nat, e: Exchange, x: nat, weather: Weather)
    requires OnItsRow(users, e)
    ensures var stage := Step(users, nextId, e, x, weather).stage;
      stage.WriteRole? ==>
        && LooksForItsRow(e.stage) && stage.id in users && !users[stage.id].blocked
        && Holds(users[stage.id], e.request.identity)
  {
    hide DecideRoleWrite, MailTaken, Held;
  }

  lemma {:induction false} WriteWasFoundOpen(w: World, run: seq<Event>, n: nat, x: nat)
    requires Invariant(w) && w.exchanges == [] && n <= |run| && x < |At(w, run, n).exchanges|
    requires At(w, run, n).exchanges[x].stage.WriteRole?
    ensures exists m: nat :: m < n && FoundOpen(w, run, m, x, At(w, run, n).exchanges[x].stage.id)
  {
    hide Invariant, Step;
    if n > 0 {
      var m := n - 1;
      var before := At(w, run, m);
      RunKeeps(w, run, m);
      if OwnStep(w, run, m, x) {
        InvariantMeansOnItsRow(before, x);
        WriteFollowsALook(before.users, before.nextId, before.exchanges[x], x, run[m].weather);
        assert FoundOpen(w, run, m, x, At(w, run, n).exchanges[x].stage.id);
      } else if x < |before.exchanges| {
        OthersWait(before, run[m], x);
        WriteWasFoundOpen(w, run, m, x);
      }
    }
  }

  /** The exchange's own write on this row: it is not turned away, and the row gets the role fields of its answer. */
  ghost predicate WritesAsTold(w: World, run: seq<Event>, k: nat, x: nat, id: nat)
    requires k < |run|
  {
    && OwnStep(w, run, k, x) && id in At(w, run, k).users && id in At(w, run, k + 1).users
    && !IsTurnedAway(At(w, run, k).users[id], At(w, run, k).exchanges[x].request)
    && At(w, run, k + 1).users[id].state == Afterwards(At(w, run, k).users[id], At(w, run, k).exchanges[x].request)
  }

  lemma AdmittingWrites(w: World, run: seq<Event>, k: nat, x: nat, id: nat)
    requires k < |run| && EndedAt(w, run, k, x, Admitted(id, false))
    ensures WritesAsTold(w, run, k, x, id)
  {
    var before := At(w, run, k);
    var request := before.exchanges[x].request;
    NextWorld(w, run, k);
    StoredUsersAre(before.users[id].state, request.resolution, request.mode, request.identity.provider);
    hide DecideRoleWrite, Write, TurnedAway, StateAfter;
  }

  /**
   * In every run, an exchange that is admitted to a stored row found that row
   * of its identity not blocked in an own step, and in a later own step was
   * not turned away and wrote the role fields of its answer.
   */
  lemma AdmittedUnblockedAndEntitled(w: World, run: seq<Event>, n: nat, x: nat, id: nat)
    requires Invariant(w) && w.exchanges == [] && n <= |run| && x < |At(w, run, n).exchanges|
    requires At(w, run, n).exchanges[x].stage == Ended(Admitted(id, false))
    ensures exists m: nat, k: nat :: m < k < n && FoundOpen(w, run, m, x, id) && WritesAsTold(w, run, k, x, id)
  {
    hide Invariant, Step, FoundOpen, WritesAsTold;
    EveryEndHasItsGrounds(w, run, n, x);
    var k: nat :| k < n && EndedAt(w, run, k, x, Admitted(id, false));
    WriteWasFoundOpen(w, run, k, x);
    var m: nat :| m < k && FoundOpen(w, run, m, x, id);
    AdmittingWrites(w, run, k, x, id);
  }

  // ---------------------------------------------------------------------
  // Blocked people.

  /** After each of these events the row is there, holds the identity and is blocked. */
  ghost predicate BlockedFrom(w: World, run: seq<Event>, a: nat, n: nat, id: nat, identity: Identity)
    requires a <= n <= |run|
  {
    forall k :: a <= k <= n ==>
      id in At(w, run, k).users && Holds(At(w, run, k).users[id], identity) && At(w, run, k).users[id].blocked
  }

  /** Refused as blocked, or ended by a database error. */
  predicate IsOut(stage: Stage) {
    stage == Ended(Refused(Blocked)) || stage == Ended(Thrown(DatabaseError))
  }

  lemma BlockedStep(users: Users, nextId: nat, e: Exchange, x: nat, weather: Weather, id: nat)
    requires OneRowEach(users) && e.stage.Begin?
    requires id in users && Holds(users[id], e.request.identity) && users[id].blocked
    ensures Step(users, nextId, e, x, weather) ==
      Effect(users, Ended(if weather == Error then Thrown(DatabaseError) else Refused(Blocked)))
  {
    hide MailTaken;
    assert Held(users, e.request.identity);
  }

  /**
   * In every run, an exchange whose identity's row is blocked from its
   * arrival on ends blocked, or in a database error, with its first own step,
   * and no step of it writes anything.
   */
  lemma {:induction false} BlockedStaysOut(w: World, run: seq<Event>, a: nat, n: nat, x: nat, id: nat)
    requires Invariant(w) && a <= n <= |run| && x < |At(w, run, a).exchanges|
    requires At(w, run, a).exchanges[x].stage == Begin
    requires BlockedFrom(w, run, a, n, id, At(w, run, a).exchanges[x].request.identity)
    ensures x < |At(w, run, n).exchanges|
    ensures var stage := At(w, run, n).exchanges[x].stage;
      if Moves(run, a, x) == Moves(run, n, x) then stage == Begin
      else IsOut(stage)
    ensures Moves(run, a, x) <= Moves(run, n, x)
    ensures forall k :: a <= k < n && OwnStep(w, run, k, x) ==> At(w, run, k + 1).users == At(w, run, k).users
  {
    hide Invariant, Next, Holds, OneRowEach, IdsBelow;
    if a < n {
      var m := n - 1;
      BlockedStaysOut(w, run, a, m, x, id);
      RequestsStay(w, run, a, m, x);
      RunKeeps(w, run, m);
      InvariantMeansOneRowEach(At(w, run, m));
      BlockedStaysOneStep(At(w, run, m), run[m], x, id);
    }
  }

  lemma BlockedStaysOneStep(w: World, event: Event, x: nat, id: nat)
    requires OneRowEach(w.users) && x < |w.exchanges| && (w.exchanges[x].stage.Begin? || IsOut(w.exchanges[x].stage))
    requires id in w.users && Holds(w.users[id], w.exchanges[x].request.identity) && w.users[id].blocked
    ensures x < |Next(w, event).exchanges|
    ensures var after := Next(w, event);
      if event.Advance? && event.x == x then IsOut(after.exchanges[x].stage) && after.users == w.users
      else after.exchanges[x] == w.exchanges[x]
  {
    hide Step, Holds, OneRowEach;
    if event.Advance? && event.x == x {
      if w.exchanges[x].stage.Begin? {
        BlockedStep(w.users, w.nextId, w.exchanges[x], x, event.weather, id);
      } else {
        EndedStays(w.users, w.nextId, w.exchanges[x], x, event.weather);
      }
    } else {
      OthersWait(w, event, x);
    }
  }

  lemma InvariantMeansOneRowEach(w: World)
    requires Invariant(w)
    ensures OneRowEach(w.users) && IdsBelow(w.users, w.nextId)
  {}

  // ---------------------------------------------------------------------
  // First sign-ins.

  /** No row has the address, whatever its case. */
  ghost predicate NobodyHas(users: Users, email: string) {
    forall id :: id in users ==> Lower(users[id].email) != Lower(email)
  }

  /** The exchange's own look for its address found no row with it, and the role to give. */
  ghost predicate AddressWasFree(w: World, run: seq<Event>, m: nat, x: nat, email: Option<string>)
    requires m < |run|
  {
    && OwnStep(w, run, m, x) && run[m].weather == Fair && At(w, run, m).exchanges[x].stage.CheckMail?
    && email.Some? && NobodyHas(At(w, run, m).users, email.value)
  }

  lemma InsertFollowsACheck(users: Users, nextId: nat, e: Exchange, x: nat, weather: Weather)
    requires OnItsRow(users, e)
    ensures var stage := Step(users, nextId, e, x, weather).stage;
      stage.Insert? ==>
        && e.stage.CheckMail? && weather == Fair && e.request.email.Some? && NobodyHas(users, e.request.email.value)
        && e.request.resolution.Granted? && stage.role == NewcomersRole(e.request.resolution.role, e.request.mode)
  {
    NewcomersAreCreatedExactlyWhen(e.request.resolution, e.request.mode, e.request.identity.provider);
    hide DecideRoleWrite, Held, Lower;
  }

  lemma {:induction false} InsertIsEntitled(w: World, run: seq<Event>, n: nat, x: nat)
    requires Invariant(w) && w.exchanges == [] && n <= |run| && x < |At(w, run, n).exchanges|
    requires At(w, run, n).exchanges[x].stage.Insert?
    ensures var e := At(w, run, n).exchanges[x];
      && e.request.resolution.Granted? && e.stage.role == NewcomersRole(e.request.resolution.role, e.request.mode)
      && exists m: nat :: m < n && AddressWasFree(w, run, m, x, e.request.email)
  {
    hide Invariant, Step, NobodyHas;
    if n > 0 {
      var m := n - 1;
      var before := At(w, run, m);
      RunKeeps(w, run, m);
      if OwnStep(w, run, m, x) {
        InvariantMeansOnItsRow(before, x);
        InsertFollowsACheck(before.users, before.nextId, before.exchanges[x], x, run[m].weather);
        assert AddressWasFree(w, run, m, x, before.exchanges[x].request.email);
      } else if x < |before.exchanges| {
        OthersWait(before, run[m], x);
        InsertIsEntitled(w, run, m, x);
      }
    }
  }

  /** The row of a first sign-in: its identity, its address, unblocked, and the granted role as its provider's own. */
  predicate IsFirstRow(user: User, request: Request, x: nat) {
    && request.resolution.Granted? && request.email.Some?
    && var role := NewcomersRole(request.resolution.role, request.mode);
    && user.keys == map[request.identity.provider := request.identity.key]
    && user.email == request.email.value && !user.blocked && !user.changed && user.creator == Some(x)
    && user.state == RoleState(Some(role), Some(From(request.identity.provider)), Some(role))
  }

  lemma StepInserts(users: Users, nextId: nat, e: Exchange, x: nat, weather: Weather, id: nat)
    requires id !in users && id in Step(users, nextId, e, x, weather).users
    ensures e.stage.Insert? && id == nextId && !Held(users, e.request.identity) && weather != Error
    ensures e.request.email.Some? && Step(users, nextId, e, x, weather).users[id] == NewUser(e.request, e.stage.role, x)
  {
    hide DecideRoleWrite, MailTaken;
  }

  /**
   * In every run, a row that an exchange inserts is the first row of its
   * identity, with an answer that granted its role, the address of the
   * request, and no row with that address as the exchange looked for it.
   */
  lemma NewRowsAreGranted(w: World, run: seq<Event>, n: nat, x: nat, id: nat)
    requires Invariant(w) && w.exchanges == [] && n < |run| && OwnStep(w, run, n, x)
    requires id !in At(w, run, n).users && id in At(w, run, n + 1).users
    ensures var request := At(w, run, n).exchanges[x].request;
      && !Held(At(w, run, n).users, request.identity) && IsFirstRow(At(w, run, n + 1).users[id], request, x)
      && exists m: nat :: m < n && AddressWasFree(w, run, m, x, request.email)
  {
    hide Step, Held, AddressWasFree, Invariant;
    var before := At(w, run, n);
    NextWorld(w, run, n);
    StepInserts(before.users, before.nextId, before.exchanges[x], x, run[n].weather, id);
    InsertIsEntitled(w, run, n, x);
  }

  /** Whoever inserted a row was granted a role. */
  ghost predicate CreatorsWereGranted(w: World) {
    forall id :: id in w.users && w.users[id].creator.Some? ==>
      var x := w.users[id].creator.value;
      x < |w.exchanges| && w.exchanges[x].request.resolution.Granted?
  }

  lemma CreatorStays(w: World, event: Event, id: nat)
    requires Invariant(w) && id in Next(w, event).users && !(id !in w.users && event.Advance?)
    ensures var after := Next(w, event).users[id].creator;
      after == if id in w.users then w.users[id].creator else None
  {
    hide Step;
    GrownNext(w, event);
  }

  lemma {:induction false} CreatorsAreGranted(w: World, run: seq<Event>, n: nat)
    requires Invariant(w) && w.exchanges == [] && n <= |run|
    ensures CreatorsWereGranted(At(w, run, n))
  {
    hide Invariant, Next, IsFirstRow;
    if n == 0 {
      NobodyInsertedYet(w);
    } else {
      var m := n - 1;
      CreatorsAreGranted(w, run, m);
      RunKeeps(w, run, m);
      forall id | id in At(w, run, n).users && At(w, run, n).users[id].creator.Some?
        ensures var x := At(w, run, n).users[id].creator.value;
          x < |At(w, run, n).exchanges| && At(w, run, n).exchanges[x].request.resolution.Granted?
      {
        CreatorIsGranted(w, run, m, id);
      }
    }
  }

  lemma NobodyInsertedYet(w: World)
    requires Invariant(w) && w.exchanges == []
    ensures CreatorsWereGranted(w)
  {
    assert forall id :: id in w.users ==> WellInserted(w.users[id], w.exchanges);
  }

  lemma CreatorIsGranted(w: World, run: seq<Event>, m: nat, id: nat)
    requires Invariant(w) && w.exchanges == [] && m < |run|
    requires CreatorsWereGranted(At(w, run, m)) && Invariant(At(w, run, m))
    requires id in At(w, run, m + 1).users && At(w, run, m + 1).users[id].creator.Some?
    ensures var x := At(w, run, m + 1).users[id].creator.value;
      x < |At(w, run, m + 1).exchanges| && At(w, run, m + 1).exchanges[x].request.resolution.Granted?
  {
    hide Step, Invariant;
    NextWorld(w, run, m);
    var before := At(w, run, m);
    if id in before.users || !run[m].Advance? {
      CreatorStays(before, run[m], id);
      RequestStays(before, run[m], before.users[id].creator.value);
    } else {
      NewRowsAreGranted(w, run, m, run[m].x, id);
      RequestStays(before, run[m], run[m].x);
    }
  }

  /** Every exchange of the identity so far was answered with a deny, or not at all. */
  predicate NeverGranted(exchanges: seq<Exchange>, identity: Identity) {
    forall x :: 0 <= x < |exchanges| && exchanges[x].request.identity == identity ==>
      !exchanges[x].request.resolution.Granted?
  }

  /**
   * In every run, an identity that no row holds at the start and no
   * administrator binds to one gets no row as long as it is granted no role.
   */
  lemma UngrantedNeverGetARow(w: World, run: seq<Event>, n: nat, identity: Identity)
    requires Invariant(w) && w.exchanges == [] && n <= |run|
    requires !Held(w.users, identity) && NeverBound(run, n, identity)
    requires NeverGranted(At(w, run, n).exchanges, identity)
    ensures !Held(At(w, run, n).users, identity)
  {
    hide Invariant;
    HoldersStayInserted(w, run, n, identity);
    CreatorsAreGranted(w, run, n);
  }
}

/**
 * Overlapping sign-ins and the manager links (syncManager in
 * apps/cms/src/entra/provision.ts), query by query: the row is admitted and
 * read, the manager is looked up, the own link written, the waiting rows
 * queried and then linked one at a time, each between any steps of others.
 */
module ManagerRaces {
  import opened Common
  import opened Roles
  import opened Managers

  /** What a session does next; `read` is its row as admitted, `waiting` the query's rows with the links they had. */
  datatype Stage =
    | Arriving
    | Looking(id: nat, read: Person)
    | Writing(id: nat, read: Person, managerOid: Option<string>, boss: Option<nat>)
    | Querying(id: nat)
    | Filling(id: nat, waiting: map<nat, Option<nat>>)
    | Finished

  datatype Session = Session(signIn: SignIn, mayWrite: bool, stage: Stage)
  datatype World = World(rows: Register, sessions: seq<Session>)

  /** A session begins, or makes its next step; a filling one links the row `row`. */
  datatype Event = Begin(signIn: SignIn, mayWrite: bool) | Move(x: nat, row: nat, fails: bool)

  datatype Effect = Effect(rows: Register, stage: Stage)

  /** What follows one's own part. */
  function AfterOwn(e: Session, id: nat): Stage {
    if e.mayWrite then Querying(id) else Finished
  }

  /** Whether the own write has something to write. */
  predicate Changes(read: Person, managerOid: Option<string>, boss: Option<nat>) {
    !(read.managerOid == managerOid && read.manager == boss)
  }

  /** The rows that wait for a manager, with their links. */
  function WaitingFor(people: People, identity: Identity): map<nat, Option<nat>> {
    map r | r in people && WaitsFor(people[r], identity) :: people[r].manager
  }

  ghost function Step(rows: Register, e: Session, row: nat, fails: bool): Effect {
    var people := rows.people;
    match e.stage
    case Arriving =>
      if fails then Effect(rows, Finished)
      else
        var admitted := Admitted(rows, e.signIn.identity);
        var id := RowOf(admitted.people, e.signIn.identity);
        Effect(admitted, Looking(id, admitted.people[id]))
    case Looking(id, read) =>
      if fails || e.signIn.manager.Failed? || id !in people || people[id].identity.None?
      then Effect(rows, AfterOwn(e, id))
      else
        var oid := e.signIn.manager.data;
        Effect(rows, Writing(id, read, oid, if oid.None? then None else Boss(people, id, oid.value)))
    case Writing(id, read, managerOid, boss) =>
      if fails || !e.mayWrite || !Changes(read, managerOid, boss) || id !in people || people[id].blocked
      then Effect(rows, AfterOwn(e, id))
      else Effect(rows.(people := people[id := people[id].(managerOid := managerOid, manager := boss)]),
        AfterOwn(e, id))
    case Querying(id) =>
      if fails || id !in people || people[id].identity.None? then Effect(rows, Finished)
      else Effect(rows, Filling(id, WaitingFor(people, people[id].identity.value)))
    case Filling(id, waiting) =>
      if fails || waiting == map[] then Effect(rows, Finished)
      else if row !in waiting then Effect(rows, e.stage)
      else if row == id || waiting[row] == Some(id) || row !in people then Effect(rows, Filling(id, waiting - {row}))
      else Effect(rows.(people := people[row := people[row].(manager := Some(id))]), Filling(id, waiting - {row}))
    case Finished => Effect(rows, Finished)
  }

  ghost function Next(w: World, event: Event): World {
    match event
    case Begin(signIn, mayWrite) => w.(sessions := w.sessions + [Session(signIn, mayWrite, Arriving)])
    case Move(x, row, fails) =>
      if |w.sessions| <= x then w
      else
        var effect := Step(w.rows, w.sessions[x], row, fails);
        World(effect.rows, w.sessions[x := w.sessions[x].(stage := effect.stage)])
  }

  /** The world after the first `n` events. */
  ghost function WorldAt(w: World, run: seq<Event>, n: nat): World
    requires n <= |run|
  {
    if n == 0 then w else Next(WorldAt(w, run, n - 1), run[n - 1])
  }

  // ---------------------------------------------------------------------
  // What every run keeps.

  /** A session beyond its arrival is about the row of its identity. */
  ghost predicate OnItsRow(people: People, e: Session) {
    && ((e.stage.Looking? || e.stage.Writing? || e.stage.Querying? || e.stage.Filling?) ==>
      e.stage.id in people && people[e.stage.id].identity == Some(e.signIn.identity))
    && (e.stage.Filling? ==> forall r :: r in e.stage.waiting ==> r in people)
  }

  ghost predicate Good(w: World) {
    && Sound(w.rows)
    && forall x :: 0 <= x < |w.sessions| ==> OnItsRow(w.rows.people, w.sessions[x])
  }

  /** Rows stay, with their identity and their block. */
  ghost predicate Kept(before: People, after: People) {
    forall id :: id in before ==>
      id in after && after[id].identity == before[id].identity && after[id].blocked == before[id].blocked
  }

  lemma StepKeeps(rows: Register, e: Session, row: nat, fails: bool)
    requires Sound(rows) && OnItsRow(rows.people, e)
    ensures var effect := Step(rows, e, row, fails);
      && Sound(effect.rows) && Kept(rows.people, effect.rows.people) &&
        OnItsRow(effect.rows.people, e.(stage := effect.stage))
      && (forall id :: id in effect.rows.people && id !in rows.people ==>
        e.stage.Arriving? && effect.rows.people[id] == Person(Some(e.signIn.identity), None, None, false))
  {
    hide Boss, WaitsFor, Admitted, Sound;
    KeptSame(rows.people);
    if e.stage.Arriving? {
      if !fails { AdmittedKeeps(rows, e.signIn.identity); }
    } else if Step(rows, e, row, fails).rows != rows {
      var id := if e.stage.Writing? then e.stage.id else row;
      ReplacedKeeps(rows, id, Step(rows, e, row, fails).rows.people[id]);
    }
  }

  lemma KeptSame(people: People)
    ensures Kept(people, people)
  {}

  lemma AdmittedKeeps(rows: Register, identity: Identity)
    requires Sound(rows)
    ensures var after := Admitted(rows, identity);
      && Sound(after) && Kept(rows.people, after.people)
      && forall id :: id in after.people && id !in rows.people ==>
        after.people[id] == Person(Some(identity), None, None, false)
  {
    AdmittedSound(rows, identity);
  }

  lemma ReplacedKeeps(rows: Register, id: nat, person: Person)
    requires Sound(rows) && id in rows.people
    requires person.identity == rows.people[id].identity && person.blocked == rows.people[id].blocked
    ensures Sound(rows.(people := rows.people[id := person])) && Kept(rows.people, rows.people[id := person])
  {}

  lemma NextKeeps(w: World, event: Event)
    requires Good(w)
    ensures Good(Next(w, event)) && Kept(w.rows.people, Next(w, event).rows.people)
  {
    hide Step, Sound;
    if event.Move? && event.x < |w.sessions| {
      StepKeeps(w.rows, w.sessions[event.x], event.row, event.fails);
    }
  }

  lemma {:induction false} RunKeeps(w: World, run: seq<Event>, n: nat)
    requires Good(w) && n <= |run|
    ensures Good(WorldAt(w, run, n))
  {
    hide Next, Good;
    if n > 0 {
      RunKeeps(w, run, n - 1);
      NextKeeps(WorldAt(w, run, n - 1), run[n - 1]);
    }
  }

  /** A row found by an identity is found by it again. */
  lemma SameRow(before: People, after: People, identity: Identity)
    requires Kept(before, after) && OneRowEach(after) && HasRow(before, identity)
    ensures HasRow(after, identity) && RowOf(after, identity) == RowOf(before, identity)
  {
    assert after[RowOf(before, identity)].identity == Some(identity);
  }

  // ---------------------------------------------------------------------
  // A session nobody interrupts.

  /** The effect of a session's moves in a row, without an error; `links` are the rows it is at. */
  ghost function Alone(rows: Register, e: Session, links: seq<nat>): Effect {
    if links == [] then Effect(rows, e.stage)
    else
      var before := Alone(rows, e, links[..|links| - 1]);
      Step(before.rows, e.(stage := before.stage), links[|links| - 1], false)
  }

  /** The rows once one's own link is written. */
  ghost function OwnWritten(s: Register, signIn: SignIn): People {
    var people := Admitted(s, signIn.identity).people;
    var id := RowOf(people, signIn.identity);
    people[id := OwnLink(people, id, signIn.manager)]
  }

  /** How far a session has brought the rows it found. */
  ghost predicate Brought(s: Register, signIn: SignIn, now: Effect) {
    var admitted, own := Admitted(s, signIn.identity), OwnWritten(s, signIn);
    var id := RowOf(admitted.people, signIn.identity);
    match now.stage
    case Arriving => now.rows == s
    case Looking(at, read) => now.rows == admitted && at == id && read == admitted.people[id]
    case Writing(at, read, managerOid, boss) =>
      && now.rows == admitted && at == id && read == admitted.people[id] && signIn.manager == Answered(managerOid)
      && boss == (match managerOid case None => None case Some(oid) => Boss(admitted.people, id, oid))
    case Querying(at) => now.rows == admitted.(people := own) && at == id
    case Filling(at, waiting) => now.rows == admitted.(people := now.rows.people) && at == id &&
      PartFilled(own, id, waiting, now.rows.people)
    case Finished => now.rows == After(s, signIn)
  }

  /** The waiting rows that are off the list are linked, the others as they were. */
  ghost predicate PartFilled(own: People, id: nat, waiting: map<nat, Option<nat>>, people: People)
    requires id in own && own[id].identity.Some?
  {
    && people.Keys == own.Keys
    && (forall r :: r in waiting ==>
      r in own && WaitsFor(own[r], own[id].identity.value) && waiting[r] == own[r].manager)
    && (forall r :: r in people ==> people[r] == if r in waiting then own[r] else BackFilled(own, id)[r])
  }

  lemma AllFilled(own: People, id: nat, people: People)
    requires id in own && own[id].identity.Some? && PartFilled(own, id, map[], people)
    ensures people == BackFilled(own, id)
  {}

  lemma StepBrings(s: Register, e: Session, now: Effect, row: nat)
    requires Sound(s) && e.mayWrite && Brought(s, e.signIn, now)
    ensures Brought(s, e.signIn, Step(now.rows, e.(stage := now.stage), row, false))
  {
    AdmittedSound(s, e.signIn.identity);
    var id := RowOf(Admitted(s, e.signIn.identity).people, e.signIn.identity);
    hide Boss, WaitsFor, Sound, Admitted, BackFilled, PartFilled;
    match now.stage
    case Querying(_) => QueryStarts(OwnWritten(s, e.signIn), id);
    case Filling(_, waiting) =>
      if waiting == map[] {
        AllFilled(OwnWritten(s, e.signIn), id, now.rows.people);
      } else if row in waiting {
        FillsOne(OwnWritten(s, e.signIn), id, waiting, now.rows.people, row);
      }
    case _ =>
  }

  lemma QueryStarts(own: People, id: nat)
    requires id in own && own[id].identity.Some?
    ensures PartFilled(own, id, WaitingFor(own, own[id].identity.value), own)
  {}

  lemma FillsOne(own: People, id: nat, waiting: map<nat, Option<nat>>, people: People, row: nat)
    requires id in own && own[id].identity.Some? && PartFilled(own, id, waiting, people) && row in waiting
    ensures row in people
    ensures PartFilled(own, id, waiting - {row},
      if row == id || waiting[row] == Some(id) then people else people[row := people[row].(manager := Some(id))])
  {}

  /** A session that nobody interrupts and nothing fails is one whole sign-in. */
  lemma {:induction false} AloneIsAWholeSignIn(s: Register, e: Session, links: seq<nat>)
    requires Sound(s) && e.mayWrite && e.stage.Arriving?
    ensures Brought(s, e.signIn, Alone(s, e, links))
    ensures Alone(s, e, links).stage.Finished? ==> Alone(s, e, links).rows == After(s, e.signIn)
  {
    hide Step;
    if links != [] {
      AloneIsAWholeSignIn(s, e, links[..|links| - 1]);
      StepBrings(s, e, Alone(s, e, links[..|links| - 1]), links[|links| - 1]);
    }
  }
  // ---------------------------------------------------------------------
  // A report and its manager.

  /** Session `x` is a report's, `y` its manager's; `names` are the identities of all the sessions of the run. */
  datatype Race = Race(x: nat, y: nat, report: SignIn, boss: SignIn, names: seq<Identity>)

  /** Both sign in once, and Graph names the one as the other's manager. */
  ghost predicate IsRace(c: Race) {
    && c.x < |c.names| && c.y < |c.names| && c.x != c.y
    && (forall z :: 0 <= z < |c.names| ==> (c.names[z] == c.report.identity <==> z == c.x))
    && (forall z :: 0 <= z < |c.names| ==> (c.names[z] == c.boss.identity <==> z == c.y))
    && c.report.identity.tenant == c.boss.identity.tenant
    && c.report.manager == Answered(Some(c.boss.identity.oid))
  }

  function StageOf(w: World, z: nat): Stage {
    if z < |w.sessions| then w.sessions[z].stage else Arriving
  }

  ghost predicate Named(w: World, c: Race) {
    && |w.sessions| <= |c.names|
    && (forall z :: 0 <= z < |w.sessions| ==> w.sessions[z].signIn.identity == c.names[z])
    && (c.x < |w.sessions| ==> w.sessions[c.x].signIn == c.report && w.sessions[c.x].mayWrite)
    && (c.y < |w.sessions| ==> w.sessions[c.y].signIn == c.boss && w.sessions[c.y].mayWrite)
  }

  /** The report looks while the manager's row is there. */
  ghost predicate Looks(w: World, event: Event, c: Race) {
    event.Move? && event.x == c.x && StageOf(w, c.x).Looking? && HasRow(w.rows.people, c.boss.identity)
  }

  /** A session's own write is behind it. */
  predicate HasWritten(stage: Stage) {
    stage.Querying? || stage.Filling? || stage.Finished?
  }

  /** The manager's session queries who waits, the report's write behind. */
  predicate Queries(w: World, event: Event, c: Race) {
    event.Move? && event.x == c.y && StageOf(w, c.y).Querying? && HasWritten(StageOf(w, c.x))
  }

  predicate BossFails(event: Event, c: Race) {
    event.Move? && event.x == c.y && event.fails
  }

  predicate FailsFor(event: Event, c: Race) {
    BossFails(event, c) || (event.Move? && event.x == c.x && event.fails)
  }

  /** The manager's row if it was found, else none. */
  ghost predicate Found(people: People, c: Race, found: bool, link: Option<nat>) {
    if found then HasRow(people, c.boss.identity) && link == Some(RowOf(people, c.boss.identity)) else link == None
  }

  predicate OnList(stage: Stage, id: nat) {
    stage.Filling? && id in stage.waiting
  }

  /** A session at this stage links the row when it gets to it. */
  predicate PendingOn(stage: Stage, id: nat) {
    OnList(stage, id) && stage.id != id && stage.waiting[id] != Some(stage.id)
  }

  /** The move of a session, as the world after it. */
  ghost predicate Moved(w: World, event: Event, after: World) {
    event.Move? && event.x < |w.sessions| && Good(w) && after == Next(w, event)
  }

  lemma BossStays(w: World, event: Event, after: World, identity: Identity)
    requires Moved(w, event, after)
    ensures Good(after) && Kept(w.rows.people, after.rows.people)
    ensures HasRow(w.rows.people, identity) ==>
      HasRow(after.rows.people, identity) && RowOf(after.rows.people, identity) == RowOf(w.rows.people, identity)
  {
    hide Next;
    NextKeeps(w, event);
    if HasRow(w.rows.people, identity) { SameRow(w.rows.people, after.rows.people, identity); }
  }

  lemma OnlyOneMoves(w: World, event: Event, after: World, z: nat)
    requires Moved(w, event, after) && z != event.x
    ensures StageOf(after, z) == StageOf(w, z) && |after.sessions| == |w.sessions|
  {
    hide Step;
  }

  /**
   * What a session's move does to a row it does not write as its own: it
   * links the row when it is at it, and lists it only by a query.
   */
  lemma SessionOnRow(rows: Register, e: Session, row: nat, fails: bool, id: nat)
    requires Sound(rows) && OnItsRow(rows.people, e) && id in rows.people
    requires e.stage.Writing? ==> e.stage.id != id
    ensures var effect := Step(rows, e, row, fails);
      && id in effect.rows.people && (HasWritten(e.stage) ==> HasWritten(effect.stage))
      && (OnList(effect.stage, id) ==>
        if e.stage.Querying? then WaitsFor(rows.people[id], e.signIn.identity) && effect.stage.id == e.stage.id &&
          effect.stage.waiting[id] == rows.people[id].manager
        else OnList(e.stage, id) && effect.stage.id == e.stage.id && effect.stage.waiting[id] == e.stage.waiting[id])
      && (PendingOn(e.stage, id) && !fails ==> (PendingOn(effect.stage, id) <==> row != id))
      && effect.rows.people[id] ==
        if PendingOn(e.stage, id) && row == id && !fails
        then rows.people[id].(manager := Some(e.stage.id)) else rows.people[id]
  {
    if e.stage.Arriving? { AdmittedSound(rows, e.signIn.identity); }
    hide Boss, Sound, Admitted, WaitsFor;
  }

  /** A row that names the manager comes onto no other session's list. */
  lemma ListedByTheBoss(w: World, event: Event, after: World, c: Race, id: nat)
    requires IsRace(c) && Named(w, c) && Moved(w, event, after) && event.x != c.y
    requires id in w.rows.people && w.rows.people[id].identity == Some(c.report.identity)
    requires w.rows.people[id].managerOid == Some(c.boss.identity.oid) && !OnList(w.sessions[event.x].stage, id)
    ensures !OnList(after.sessions[event.x].stage, id)
  {
    var e := w.sessions[event.x];
    assert OnItsRow(w.rows.people, e);
    assert e.signIn.identity == c.names[event.x] && c.names[event.x] != c.boss.identity;
    assert !WaitsFor(w.rows.people[id], e.signIn.identity);
    hide Sound, Boss, WaitsFor;
  }

  lemma OneRow(w: World, id: nat, identity: Identity)
    requires Good(w) && id in w.rows.people && w.rows.people[id].identity == Some(identity)
    ensures HasRow(w.rows.people, identity) && RowOf(w.rows.people, identity) == id
  {}
  /** The manager's row is there once its session has arrived. */
  lemma BossArrives(w: World, event: Event, after: World, c: Race)
    requires IsRace(c) && Named(w, c) && Moved(w, event, after) && !BossFails(event, c)
    requires !StageOf(w, c.y).Arriving? ==> HasRow(w.rows.people, c.boss.identity)
    ensures Good(after) && (!StageOf(after, c.y).Arriving? ==> HasRow(after.rows.people, c.boss.identity))
  {
    BossStays(w, event, after, c.boss.identity);
    if event.x != c.y {
      OnlyOneMoves(w, event, after, c.y);
    } else if StageOf(w, c.y).Arriving? {
      AdmittedKeeps(w.rows, c.boss.identity);
    }
    hide Boss, WaitsFor, Sound, Admitted;
  }
  // ---------------------------------------------------------------------
  // Over a whole run.

  /** The race of sessions `x` and `y`, read off the end of the run. */
  ghost function RaceOf(last: World, x: nat, y: nat): Race
    requires x < |last.sessions| && y < |last.sessions|
  {
    Race(x, y, last.sessions[x].signIn, last.sessions[y].signIn,
         seq(|last.sessions|, z requires 0 <= z < |last.sessions| => last.sessions[z].signIn.identity))
  }
  /** Sessions stay who they are. */
  ghost predicate SameSessions(before: World, after: World) {
    && |before.sessions| <= |after.sessions|
    && forall z :: 0 <= z < |before.sessions| ==>
      before.sessions[z].signIn == after.sessions[z].signIn && before.sessions[z].mayWrite == after.sessions[z].mayWrite
  }

  lemma {:induction false} SessionsStay(w: World, run: seq<Event>, k: nat, n: nat)
    requires k <= n <= |run|
    ensures SameSessions(WorldAt(w, run, k), WorldAt(w, run, n))
  {
    hide Step;
    if k < n { SessionsStay(w, run, k, n - 1); }
  }

  // ---------------------------------------------------------------------
  // What a session may write.

  predicate WritesOwn(e: Session, id: nat, before: Person, after: Person) {
    && e.stage.Writing? && e.mayWrite && id == e.stage.id && !before.blocked
    && after == before.(managerOid := e.stage.managerOid, manager := e.stage.boss)
  }

  predicate LinksListed(e: Session, row: nat, id: nat, before: Person, after: Person) {
    && e.stage.Filling? && id == row && id in e.stage.waiting && id != e.stage.id
    && after == before.(manager := Some(e.stage.id))
  }

  /** A stored row a step changes: the session's own, unblocked and with the sync on, or the one it links. */
  lemma OnlyTheseAreWritten(rows: Register, e: Session, row: nat, fails: bool, id: nat)
    requires Sound(rows) && id in rows.people
    ensures var before, after := rows.people[id], Step(rows, e, row, fails).rows.people;
      id in after && (after[id] != before ==>
        !fails && (WritesOwn(e, id, before, after[id]) || LinksListed(e, row, id, before, after[id])))
  {
    hide Boss, WaitsFor;
    if e.stage.Arriving? && !fails { AdmittedSound(rows, e.signIn.identity); }
  }

  /** The stages of a session that may not write. */
  predicate Harmless(stage: Stage) {
    !stage.Querying? && !stage.Filling?
  }

  /** In every run the sessions of a dry-run change no stored row. */
  lemma {:induction false} DryRunsWriteNothing(w: World, run: seq<Event>, n: nat, x: nat)
    requires Good(w) && w.sessions == [] && n <= |run|
    requires x < |WorldAt(w, run, n).sessions| && !WorldAt(w, run, n).sessions[x].mayWrite
    ensures Harmless(WorldAt(w, run, n).sessions[x].stage)
    ensures n < |run| && run[n].Move? && run[n].x == x ==>
      forall id :: id in WorldAt(w, run, n).rows.people ==>
        id in WorldAt(w, run, n + 1).rows.people &&
        WorldAt(w, run, n + 1).rows.people[id] == WorldAt(w, run, n).rows.people[id]
  {
    hide Step, Good, Sound;
    if n > 0 {
      var before := WorldAt(w, run, n - 1);
      if x < |before.sessions| {
        DryRunsWriteNothing(w, run, n - 1, x);
        if run[n - 1].Move? && run[n - 1].x == x {
          StaysHarmless(before.rows, before.sessions[x], run[n - 1].row, run[n - 1].fails);
        }
      }
    }
    if n < |run| && run[n].Move? && run[n].x == x {
      var now := WorldAt(w, run, n);
      RunKeeps(w, run, n);
      GoodMeansSound(now);
      forall id | id in now.rows.people
        ensures id in WorldAt(w, run, n + 1).rows.people
        ensures WorldAt(w, run, n + 1).rows.people[id] == now.rows.people[id]
      {
        OnlyTheseAreWritten(now.rows, now.sessions[x], run[n].row, run[n].fails, id);
      }
    }
  }

  lemma GoodMeansSound(w: World)
    requires Good(w)
    ensures Sound(w.rows)
  {}

  lemma StaysHarmless(rows: Register, e: Session, row: nat, fails: bool)
    requires !e.mayWrite && Harmless(e.stage)
    ensures Harmless(Step(rows, e, row, fails).stage)
  {
    hide Boss, WaitsFor, Admitted;
  }
}

/**
 * A sign-in that names a manager the row did not name (syncManager in
 * apps/cms/src/entra/provision.ts), while others sign in: exactly when the
 * row ends linked to that manager.
 */
module NewManagers {
  import opened Common
  import opened Roles
  import opened Managers
  import opened ManagerRaces

  /** The session has not queried yet who waits. */
  predicate BeforeQuery(stage: Stage) {
    stage.Arriving? || stage.Looking? || stage.Writing? || stage.Querying?
  }

  /** The session will still come over the row: it has yet to query, or has the row on its list to link. */
  predicate StillToCome(stage: Stage, id: nat) {
    BeforeQuery(stage) || PendingOn(stage, id)
  }

  ghost predicate IsLinked(people: People, c: Race) {
    && HasRow(people, c.report.identity) && HasRow(people, c.boss.identity)
    && people[RowOf(people, c.report.identity)].manager == Some(RowOf(people, c.boss.identity))
  }

  /** The manager's session is still to come over the report's row. */
  ghost predicate BossToCome(w: World, c: Race) {
    HasRow(w.rows.people, c.report.identity) && StillToCome(StageOf(w, c.y), RowOf(w.rows.people, c.report.identity))
  }

  /** The report's own write behind, another session than the manager's links the report's row. */
  ghost predicate LinksElse(w: World, event: Event, c: Race) {
    && event.Move? && !event.fails && event.x < |w.sessions| && event.x != c.y
    && HasWritten(StageOf(w, c.x)) && HasRow(w.rows.people, c.report.identity)
    && event.row == RowOf(w.rows.people, c.report.identity) && PendingOn(w.sessions[event.x].stage, event.row)
  }

  /** The report's own write is behind, and its row names the manager. */
  ghost predicate Written(w: World, c: Race) {
    && HasWritten(StageOf(w, c.x)) && HasRow(w.rows.people, c.report.identity)
    && w.rows.people[RowOf(w.rows.people, c.report.identity)].managerOid == Some(c.boss.identity.oid)
  }

  /** A world of a run. */
  ghost predicate InRun(w: World, c: Race) {
    && Good(w) && IsRace(c) && Named(w, c)
    && (!StageOf(w, c.y).Arriving? ==> HasRow(w.rows.people, c.boss.identity))
  }

  // ---------------------------------------------------------------------
  // After the report's write.

  ghost predicate LinkedOrToCome(w: World, c: Race) {
    IsLinked(w.rows.people, c) || BossToCome(w, c)
  }

  /** What a step makes of it: another's link leaves only the manager who is still to come. */
  ghost predicate Stepped(w: World, event: Event, after: World, c: Race) {
    LinkedOrToCome(after, c) <==> if LinksElse(w, event, c) then BossToCome(w, c) else LinkedOrToCome(w, c)
  }

  /** Whoever has a row keeps it. */
  ghost predicate StaysOn(before: People, after: People, identity: Identity) {
    HasRow(before, identity) ==> HasRow(after, identity) && RowOf(after, identity) == RowOf(before, identity)
  }

  /** The rows of the two, by a move. */
  lemma RowsStay(w: World, event: Event, after: World, c: Race)
    requires InRun(w, c) && Moved(w, event, after) && Named(after, c) && !BossFails(event, c)
    ensures InRun(after, c)
    ensures StaysOn(w.rows.people, after.rows.people, c.report.identity)
    ensures StaysOn(w.rows.people, after.rows.people, c.boss.identity)
  {
    hide Step, Sound;
    BossStays(w, event, after, c.report.identity);
    BossStays(w, event, after, c.boss.identity);
    BossArrives(w, event, after, c);
  }

  /** Nobody but the manager's session makes the manager's row. */
  lemma OnlyTheBossArrives(w: World, event: Event, after: World, c: Race)
    requires InRun(w, c) && Moved(w, event, after) && event.x != c.y
    ensures HasRow(after.rows.people, c.boss.identity) ==> HasRow(w.rows.people, c.boss.identity)
  {
    var e := w.sessions[event.x];
    assert e.signIn.identity == c.names[event.x];
    StepKeeps(w.rows, e, event.row, event.fails);
    hide Step, Sound;
    if HasRow(after.rows.people, c.boss.identity) {
      var id := RowOf(after.rows.people, c.boss.identity);
      assert id in w.rows.people;
      assert w.rows.people[id].identity == Some(c.boss.identity);
    }
  }

  lemma OthersMove(w: World, event: Event, after: World, c: Race)
    requires InRun(w, c) && Written(w, c) && Moved(w, event, after) && Named(after, c) && event.x != c.y
    ensures Written(after, c) && Stepped(w, event, after, c)
  {
    var e, id := w.sessions[event.x], RowOf(w.rows.people, c.report.identity);
    RowsStay(w, event, after, c);
    OnlyTheBossArrives(w, event, after, c);
    OnlyOneMoves(w, event, after, c.y);
    if event.x != c.x { OnlyOneMoves(w, event, after, c.x); }
    assert OnItsRow(w.rows.people, e) && e.signIn.identity == c.names[event.x];
    assert e.stage.Writing? ==> event.x != c.x && e.stage.id != id;
    SessionOnRow(w.rows, e, event.row, event.fails, id);
    if LinksElse(w, event, c) { NotTheBosssRow(w, c, e, event.x); }
    hide Step, Good, IsRace, Named, StillToCome, PendingOn;
  }

  lemma NotTheBosssRow(w: World, c: Race, e: Session, x: nat)
    requires InRun(w, c) && x < |w.sessions| && x != c.y && e == w.sessions[x] && e.stage.Filling?
    ensures HasRow(w.rows.people, c.boss.identity) ==> e.stage.id != RowOf(w.rows.people, c.boss.identity)
  {
    assert OnItsRow(w.rows.people, e) && e.signIn.identity == c.names[x];
  }

  lemma BossMoves(w: World, event: Event, after: World, c: Race)
    requires InRun(w, c) && Written(w, c) && Moved(w, event, after) && Named(after, c) && event.x == c.y && !event.fails
    ensures Written(after, c) && Stepped(w, event, after, c)
  {
    var e, id := w.sessions[event.x], RowOf(w.rows.people, c.report.identity);
    RowsStay(w, event, after, c);
    OnlyOneMoves(w, event, after, c.x);
    assert OnItsRow(w.rows.people, e) && e.signIn == c.boss && e.mayWrite && c.names[c.y] != c.report.identity;
    assert WaitsFor(w.rows.people[id], c.boss.identity);
    SessionOnRow(w.rows, e, event.row, event.fails, id);
    if !e.stage.Arriving? { BossOnTheList(w, event, after, c, e, id); }
    hide Good, IsRace, Named, WaitsFor, HasRow, Sound;
  }

  /** The manager's query lists the row, its back-fill links it when it is to. */
  lemma BossOnTheList(w: World, event: Event, after: World, c: Race, e: Session, id: nat)
    requires InRun(w, c) && Written(w, c) && Moved(w, event, after) && event.x == c.y && !event.fails
    requires e == w.sessions[c.y]
    requires id == RowOf(w.rows.people, c.report.identity) && !e.stage.Arriving?
    ensures var stage := after.sessions[c.y].stage;
      && (e.stage.Querying? ==> OnList(stage, id) && stage.waiting[id] == w.rows.people[id].manager && stage.id != id)
      && (e.stage.Looking? || e.stage.Writing? ==> BeforeQuery(stage))
      && (e.stage.Filling? || e.stage.Finished? ==> stage.Filling? || stage.Finished?)
      && (e.stage.Filling? ==> e.stage.id == RowOf(w.rows.people, c.boss.identity) && e.stage.id != id)
      && (stage.Filling? ==> stage.id == RowOf(w.rows.people, c.boss.identity))
  {
    assert OnItsRow(w.rows.people, e) && e.signIn == c.boss && c.names[c.y] != c.report.identity;
    assert WaitsFor(w.rows.people[id], c.boss.identity);
    hide WaitsFor, Boss, IsRace;
    if e.stage.Filling? || e.stage.Querying? { OneRow(w, e.stage.id, c.boss.identity); }
    hide HasRow, Sound;
  }

  lemma AfterStep(w: World, event: Event, c: Race)
    requires InRun(w, c) && Written(w, c) && Named(Next(w, event), c) && !BossFails(event, c)
    ensures InRun(Next(w, event), c) && Written(Next(w, event), c) && Stepped(w, event, Next(w, event), c)
  {
    var after := Next(w, event);
    if event.Begin? {
      NextKeeps(w, event);
      hide Sound;
      assert StageOf(after, c.x) == StageOf(w, c.x) && StageOf(after, c.y) == StageOf(w, c.y);
    } else if event.x < |w.sessions| {
      RowsStay(w, event, after, c);
      if event.x == c.y { BossMoves(w, event, after, c); } else { OthersMove(w, event, after, c); }
    }
  }

  // ---------------------------------------------------------------------
  // Up to the report's write.

  /** A row of the report's identity names another manager or none, and is not blocked. */
  ghost predicate NotNamed(people: People, c: Race) {
    forall id :: id in people && people[id].identity == Some(c.report.identity) ==>
      people[id].managerOid != Some(c.boss.identity.oid) && !people[id].blocked
  }

  ghost predicate BossListsNot(w: World, c: Race) {
    forall id :: OnList(StageOf(w, c.y), id) && id in w.rows.people ==>
      w.rows.people[id].identity != Some(c.report.identity)
  }

  /** The report will write what it found, in place of what its row names now. */
  ghost predicate Before(w: World, c: Race, looked: bool) {
    && NotNamed(w.rows.people, c) && BossListsNot(w, c)
    && match StageOf(w, c.x)
       case Arriving => !looked
       case Looking(id, read) => !looked && id in w.rows.people && read.managerOid == w.rows.people[id].managerOid
       case Writing(id, read, managerOid, found) =>
         && id in w.rows.people && read.managerOid == w.rows.people[id].managerOid
         && managerOid == Some(c.boss.identity.oid) && Found(w.rows.people, c, looked, found)
       case _ => false
  }

  /** Rows of the report's identity stay as they are in what they name, until the report's own write. */
  lemma NotNamedStays(w: World, event: Event, after: World, c: Race)
    requires InRun(w, c) && Moved(w, event, after) && NotNamed(w.rows.people, c)
    requires event.x == c.x ==> !StageOf(w, c.x).Writing?
    ensures NotNamed(after.rows.people, c)
    ensures forall id :: id in w.rows.people && w.rows.people[id].identity == Some(c.report.identity) ==>
      id in after.rows.people && after.rows.people[id].managerOid == w.rows.people[id].managerOid
  {
    var e := w.sessions[event.x];
    assert OnItsRow(w.rows.people, e) && e.signIn.identity == c.names[event.x];
    StepKeeps(w.rows, e, event.row, event.fails);
    forall id | id in w.rows.people && w.rows.people[id].identity == Some(c.report.identity)
      ensures id in after.rows.people && after.rows.people[id].managerOid == w.rows.people[id].managerOid
    {
      SessionOnRow(w.rows, e, event.row, event.fails, id);
    }
    hide Step, Sound;
  }

  lemma BossListsNotStays(w: World, event: Event, after: World, c: Race)
    requires InRun(w, c) && Moved(w, event, after) && NotNamed(w.rows.people, c) && BossListsNot(w, c)
    ensures BossListsNot(after, c)
  {
    var e := w.sessions[event.x];
    StepKeeps(w.rows, e, event.row, event.fails);
    assert OnItsRow(w.rows.people, e) && e.signIn.identity == c.names[event.x];
    if event.x != c.y { OnlyOneMoves(w, event, after, c.y); }
    forall id | OnList(StageOf(after, c.y), id) && id in after.rows.people
      ensures after.rows.people[id].identity != Some(c.report.identity)
    {
      if event.x == c.y {
        SessionOnRow(w.rows, e, event.row, event.fails, id);
      } else {
        assert OnItsRow(w.rows.people, w.sessions[c.y]);
      }
    }
    hide Step, Sound, Boss;
  }

  /** Before the report's write, a move of another session. */
  lemma OthersBefore(w: World, event: Event, after: World, c: Race, looked: bool)
    requires InRun(w, c) && Moved(w, event, after) && Named(after, c) && !BossFails(event, c)
    requires event.x != c.x && Before(w, c, looked)
    ensures Before(after, c, looked)
  {
    RowsStay(w, event, after, c);
    NotNamedStays(w, event, after, c);
    BossListsNotStays(w, event, after, c);
    OnlyOneMoves(w, event, after, c.x);
    assert StageOf(w, c.x).Looking? || StageOf(w, c.x).Writing? ==> OnItsRow(w.rows.people, w.sessions[c.x]);
    hide Next, Good, IsRace, NotNamed, BossListsNot;
  }

  /** The report arrives or looks. */
  lemma ReportBefore(w: World, event: Event, after: World, c: Race, looked: bool)
    requires InRun(w, c) && Moved(w, event, after) && event.x == c.x && !event.fails
    requires Before(w, c, looked) && !StageOf(w, c.x).Writing?
    ensures Before(after, c, looked || Looks(w, event, c))
  {
    NotNamedStays(w, event, after, c);
    BossListsNotStays(w, event, after, c);
    var e := w.sessions[c.x];
    assert OnItsRow(w.rows.people, e) && c.names[c.x] != c.boss.identity;
    assert Identity(c.report.identity.tenant, c.boss.identity.oid) == c.boss.identity;
    hide NotNamed, BossListsNot, WaitsFor, Sound;
  }

  lemma ReportWrites(w: World, event: Event, after: World, c: Race, looked: bool)
    requires InRun(w, c) && Moved(w, event, after) && Named(after, c) && event.x == c.x && !event.fails
    requires Before(w, c, looked) && StageOf(w, c.x).Writing?
    ensures InRun(after, c) && Written(after, c)
    ensures LinkedOrToCome(after, c) <==> looked || BeforeQuery(StageOf(after, c.y))
  {
    var e, id := w.sessions[c.x], StageOf(w, c.x).id;
    assert OnItsRow(w.rows.people, e);
    OneRow(w, id, c.report.identity);
    RowsStay(w, event, after, c);
    OnlyOneMoves(w, event, after, c.y);
    assert Changes(e.stage.read, e.stage.managerOid, e.stage.boss);
    assert after.rows.people[id].manager == e.stage.boss && after.rows.people[id].managerOid == e.stage.managerOid;
    assert !OnList(StageOf(w, c.y), id);
    OnlyTheBossArrives(w, event, after, c);
    hide Step, Good, IsRace, Named, NotNamed, BossListsNot;
  }

  // ---------------------------------------------------------------------
  // Over a whole run.

  /** No session but the manager's links the report from `m` on. */
  ghost predicate NoElse(w: World, run: seq<Event>, m: nat, n: nat, c: Race)
    requires m <= n <= |run|
  {
    forall k :: m <= k < n ==> !LinksElse(WorldAt(w, run, k), run[k], c)
  }

  /** When the last other session links the report, the manager's is still to come. */
  ghost predicate BossComesLast(w: World, run: seq<Event>, n: nat, c: Race)
    requires n <= |run|
  {
    exists k: nat :: k < n && LastElseAt(w, run, k, n, c)
  }

  /** Event `k` is the last in which another session links the report, and the manager's is still to come then. */
  ghost predicate LastElseAt(w: World, run: seq<Event>, k: nat, n: nat, c: Race)
    requires k < n <= |run|
  {
    && LinksElse(WorldAt(w, run, k), run[k], c) && BossToCome(WorldAt(w, run, k), c)
    && NoElse(w, run, k + 1, n, c)
  }

  ghost predicate LookedBy(w: World, run: seq<Event>, n: nat, c: Race)
    requires n <= |run|
  {
    exists k: nat :: k < n && Looks(WorldAt(w, run, k), run[k], c)
  }

  ghost predicate QueriedBy(w: World, run: seq<Event>, n: nat, c: Race)
    requires n <= |run|
  {
    exists k: nat :: k < n && Queries(WorldAt(w, run, k), run[k], c)
  }

  /** One event more. */
  lemma History(w: World, run: seq<Event>, n: nat, c: Race)
    requires 0 < n <= |run|
    ensures var before, event := WorldAt(w, run, n - 1), run[n - 1];
      && (LookedBy(w, run, n, c) <==> LookedBy(w, run, n - 1, c) || Looks(before, event, c))
      && (QueriedBy(w, run, n, c) <==> QueriedBy(w, run, n - 1, c) || Queries(before, event, c))
      && (NoElse(w, run, 0, n, c) <==> NoElse(w, run, 0, n - 1, c) && !LinksElse(before, event, c))
      && (BossComesLast(w, run, n, c) <==>
        if LinksElse(before, event, c) then BossToCome(before, c) else BossComesLast(w, run, n - 1, c))
  {
    hide WorldAt, Looks, Queries, LinksElse, BossToCome;
    var m := n - 1;
    assert LookedBy(w, run, m, c) ==> LookedBy(w, run, n, c);
    assert QueriedBy(w, run, m, c) ==> QueriedBy(w, run, n, c);
    if LinksElse(WorldAt(w, run, m), run[m], c) {
      if BossToCome(WorldAt(w, run, m), c) { assert LastElseAt(w, run, m, n, c); }
    } else {
      if k: nat :| k < m && LastElseAt(w, run, k, m, c) {
        assert LastElseAt(w, run, k, n, c);
      }
      if k: nat :| k < n && LastElseAt(w, run, k, n, c) {
        assert LastElseAt(w, run, k, m, c);
      }
    }
  }

  /** How the run decides the link, as far as it has gone. */
  ghost predicate Decides(w: World, run: seq<Event>, n: nat, c: Race, otherwise: bool)
    requires n <= |run|
  {
    LinkedOrToCome(WorldAt(w, run, n), c) <==> BossComesLast(w, run, n, c) || (NoElse(w, run, 0, n, c) && otherwise)
  }

  lemma {:induction false} RunAfter(w: World, run: seq<Event>, n: nat, c: Race)
    requires n <= |run| && InRun(w, c) && Written(w, c)
    requires forall k :: 0 <= k <= n ==> Named(WorldAt(w, run, k), c)
    requires forall k :: 0 <= k < n ==> !BossFails(run[k], c)
    ensures InRun(WorldAt(w, run, n), c) && Written(WorldAt(w, run, n), c)
    ensures Decides(w, run, n, c, LinkedOrToCome(w, c))
  {
    hide Next, InRun, Named, Written, LinksElse, BossToCome, LinkedOrToCome, BossFails;
    if n == 0 {
      assert !BossComesLast(w, run, 0, c) && NoElse(w, run, 0, 0, c);
    } else {
      RunAfter(w, run, n - 1, c);
      History(w, run, n, c);
      assert WorldAt(w, run, n) == Next(WorldAt(w, run, n - 1), run[n - 1]);
      AfterStep(WorldAt(w, run, n - 1), run[n - 1], c);
      hide BossComesLast, NoElse;
    }
  }

  /** From the start, up to the report's write and on. */
  ghost predicate Reached(w: World, run: seq<Event>, n: nat, c: Race)
    requires n <= |run|
  {
    var now, looked, queried := WorldAt(w, run, n), LookedBy(w, run, n, c), QueriedBy(w, run, n, c);
    if HasWritten(StageOf(now, c.x)) then
      && Written(now, c) && (queried ==> !BeforeQuery(StageOf(now, c.y)))
      && Decides(w, run, n, c, looked || queried || BeforeQuery(StageOf(now, c.y)))
    else Before(now, c, looked) && !queried && NoElse(w, run, 0, n, c) && !BossComesLast(w, run, n, c)
  }

  ghost predicate AtTheStart(w: World, c: Race) {
    w.sessions == [] && Sound(w.rows) && NotNamed(w.rows.people, c)
  }

  lemma Begins(w: World, event: Event, c: Race, looked: bool)
    requires InRun(w, c) && event.Begin? && Named(Next(w, event), c)
    ensures var after := Next(w, event);
      && InRun(after, c) && StageOf(after, c.x) == StageOf(w, c.x) && StageOf(after, c.y) == StageOf(w, c.y)
      && !Looks(w, event, c) && !Queries(w, event, c) && !LinksElse(w, event, c)
      && (Before(w, c, looked) ==> Before(after, c, looked))
  {
    NextKeeps(w, event);
    hide Sound;
  }

  lemma BeforeStep(w: World, event: Event, c: Race, looked: bool)
    requires InRun(w, c) && Before(w, c, looked) && Named(Next(w, event), c) && !FailsFor(event, c)
    ensures var after := Next(w, event);
      && InRun(after, c) && !Queries(w, event, c) && !LinksElse(w, event, c)
      && if HasWritten(StageOf(after, c.x)) then
           Written(after, c) && !Looks(w, event, c) &&
             (LinkedOrToCome(after, c) <==> looked || BeforeQuery(StageOf(after, c.y)))
         else Before(after, c, looked || Looks(w, event, c))
  {
    var after := Next(w, event);
    if event.Begin? {
      Begins(w, event, c, looked);
    } else if event.x < |w.sessions| {
      hide Next, Good, IsRace, Named;
      RowsStay(w, event, after, c);
      if event.x != c.x {
        OthersBefore(w, event, after, c, looked);
      } else if StageOf(w, c.x).Writing? {
        ReportWrites(w, event, after, c, looked);
      } else {
        ReportBefore(w, event, after, c, looked);
      }
    }
  }

  lemma QueriesStep(w: World, event: Event, c: Race)
    requires InRun(w, c) && Written(w, c) && Named(Next(w, event), c) && !BossFails(event, c)
    ensures var before, after := StageOf(w, c.y), StageOf(Next(w, event), c.y);
      && (!BeforeQuery(before) ==> !BeforeQuery(after)) && !Looks(w, event, c)
      && (Queries(w, event, c) <==> BeforeQuery(before) && !BeforeQuery(after))
  {
    hide Boss, WaitsFor, Sound, Admitted;
    if event.Move? && event.x < |w.sessions| && event.x == c.y {
      assert OnItsRow(w.rows.people, w.sessions[c.y]);
    }
  }

  lemma ReachedNext(w: World, run: seq<Event>, n: nat, c: Race)
    requires 0 < n <= |run| && InRun(WorldAt(w, run, n - 1), c) && Reached(w, run, n - 1, c)
    requires Named(WorldAt(w, run, n), c) && !FailsFor(run[n - 1], c)
    ensures InRun(WorldAt(w, run, n), c) && Reached(w, run, n, c)
  {
    var before, event := WorldAt(w, run, n - 1), run[n - 1];
    History(w, run, n, c);
    assert WorldAt(w, run, n) == Next(before, event);
    NoBossFails(event, c);
    hide LookedBy, QueriedBy, NoElse, BossComesLast, WorldAt, Next, InRun, Named, LinksElse, BossToCome, LinkedOrToCome;
    hide FailsFor, Written, Before, Looks, Queries, BeforeQuery, HasWritten, StageOf, BossFails;
    if HasWritten(StageOf(before, c.x)) {
      AfterStep(before, event, c);
      QueriesStep(before, event, c);
      WrittenStays(before, event, c);
    } else {
      BeforeStep(before, event, c, LookedBy(w, run, n - 1, c));
    }
  }

  lemma {:induction false} RunFromTheStart(w: World, run: seq<Event>, n: nat, c: Race)
    requires n <= |run| && IsRace(c) && AtTheStart(w, c)
    requires forall k :: 0 <= k <= n ==> Named(WorldAt(w, run, k), c)
    requires forall k :: 0 <= k < n ==> !FailsFor(run[k], c)
    ensures InRun(WorldAt(w, run, n), c) && Reached(w, run, n, c)
  {
    hide Next, InRun, Named, Reached, FailsFor;
    if n == 0 {
      assert WorldAt(w, run, 0) == w && Named(WorldAt(w, run, 0), c);
      FirstWorld(w, run, c);
    } else {
      RunFromTheStart(w, run, n - 1, c);
      ReachedNext(w, run, n, c);
    }
  }

  lemma NoBossFails(event: Event, c: Race)
    requires !FailsFor(event, c)
    ensures !BossFails(event, c)
  {}

  lemma WrittenStays(w: World, event: Event, c: Race)
    requires Written(Next(w, event), c)
    ensures HasWritten(StageOf(Next(w, event), c.x))
  {}

  lemma FirstWorld(w: World, run: seq<Event>, c: Race)
    requires IsRace(c) && AtTheStart(w, c) && Named(w, c)
    ensures InRun(WorldAt(w, run, 0), c) && Reached(w, run, 0, c)
  {
    hide NotNamed, Sound;
    assert WorldAt(w, run, 0) == w;
  }

  /** The names of a run's sessions are those at its end. */
  lemma AllNamed(w: World, run: seq<Event>, x: nat, y: nat)
    requires var last := WorldAt(w, run, |run|);
      x < |last.sessions| && y < |last.sessions| && last.sessions[x].mayWrite && last.sessions[y].mayWrite
    ensures forall k :: 0 <= k <= |run| ==> Named(WorldAt(w, run, k), RaceOf(WorldAt(w, run, |run|), x, y))
  {
    hide WorldAt;
    forall k | 0 <= k <= |run|
      ensures Named(WorldAt(w, run, k), RaceOf(WorldAt(w, run, |run|), x, y))
    {
      SessionsStay(w, run, k, |run|);
    }
  }

  /** Both sign-ins are over, each without an error of its own. */
  ghost predicate BothOver(w: World, run: seq<Event>, x: nat, y: nat) {
    var last := WorldAt(w, run, |run|);
    && x < |last.sessions| && y < |last.sessions|
    && last.sessions[x].stage.Finished? && last.sessions[y].stage.Finished?
    && last.sessions[x].mayWrite && last.sessions[y].mayWrite
    && IsRace(RaceOf(last, x, y)) && forall k :: 0 <= k < |run| ==> !FailsFor(run[k], RaceOf(last, x, y))
  }

  /**
   * However the steps of the sign-ins fall, and whomever the report's row
   * named before, it ends naming the manager; and linked to the manager's row
   * exactly when, as the last other session's list links it, the manager is
   * still to come over it, or no other list does and the report looked with
   * the manager's row there or the manager queried with the report's write
   * behind.
   */
  lemma OverlappingSignInsLinkExactlyWhen(w: World, run: seq<Event>, x: nat, y: nat)
    requires BothOver(w, run, x, y) && AtTheStart(w, RaceOf(WorldAt(w, run, |run|), x, y))
    ensures var last, n := WorldAt(w, run, |run|), |run|;
      var c := RaceOf(last, x, y);
      && HasRow(last.rows.people, c.report.identity) && HasRow(last.rows.people, c.boss.identity)
      && last.rows.people[RowOf(last.rows.people, c.report.identity)].managerOid == Some(c.boss.identity.oid)
      && (IsLinked(last.rows.people, c) <==>
        BossComesLast(w, run, n, c) || (NoElse(w, run, 0, n, c) && (LookedBy(w, run, n, c) || QueriedBy(w, run, n, c))))
  {
    var c := RaceOf(WorldAt(w, run, |run|), x, y);
    AllNamed(w, run, x, y);
    RunFromTheStart(w, run, |run|, c);
    hide WorldAt, LookedBy, QueriedBy, NoElse, BossComesLast, AtTheStart, FailsFor;
  }

  /**
   * The same from any moment at which the report's own write is behind it:
   * then what counts, when no other list links it, is whether the row is
   * linked by then or the manager still to come.
   */
  lemma NamedRowsAreLinkedExactlyWhen(w: World, run: seq<Event>, x: nat, y: nat)
    requires BothOver(w, run, x, y)
    requires InRun(w, RaceOf(WorldAt(w, run, |run|), x, y)) && Written(w, RaceOf(WorldAt(w, run, |run|), x, y))
    ensures var last, n := WorldAt(w, run, |run|), |run|;
      var c := RaceOf(last, x, y);
      IsLinked(last.rows.people, c) <==>
        BossComesLast(w, run, n, c) || (NoElse(w, run, 0, n, c) && (IsLinked(w.rows.people, c) || BossToCome(w, c)))
  {
    var c := RaceOf(WorldAt(w, run, |run|), x, y);
    AllNamed(w, run, x, y);
    RunAfter(w, run, |run|, c);
    hide WorldAt, NoElse, BossComesLast, InRun, Written, FailsFor, IsLinked;
  }

  // ---------------------------------------------------------------------
  // A report no other session is about to link.

  ghost predicate NobodyElseLists(w: World, c: Race) {
    HasRow(w.rows.people, c.report.identity) ==>
      forall z :: 0 <= z < |w.sessions| && z != c.y ==>
        !PendingOn(w.sessions[z].stage, RowOf(w.rows.people, c.report.identity))
  }

  /** Every step of the report's own write finds it on no other session's list to link. */
  ghost predicate UnlistedAtTheWrite(w: World, run: seq<Event>, n: nat, c: Race)
    requires n <= |run|
  {
    forall k :: 0 <= k < n && run[k].Move? && run[k].x == c.x && StageOf(WorldAt(w, run, k), c.x).Writing? ==>
      NobodyElseLists(WorldAt(w, run, k), c)
  }

  lemma UnlistedStep(w: World, event: Event, c: Race)
    requires InRun(w, c) && Named(Next(w, event), c) && !FailsFor(event, c) && NobodyElseLists(w, c)
    requires Written(w, c) || (Written(Next(w, event), c) && event.Move? && event.x == c.x && StageOf(w, c.x).Writing?)
    ensures NobodyElseLists(Next(w, event), c)
  {
    var after := Next(w, event);
    if event.Begin? {
      hide Sound, WaitsFor;
    } else if event.x < |w.sessions| {
      RowsStay(w, event, after, c);
      var e := w.sessions[event.x];
      assert OnItsRow(w.rows.people, e) && e.signIn.identity == c.names[event.x];
      if Written(w, c) {
        var id := RowOf(w.rows.people, c.report.identity);
        assert e.stage.Writing? ==> event.x != c.x && e.stage.id != id;
        SessionOnRow(w.rows, e, event.row, event.fails, id);
        assert event.x != c.y ==> !WaitsFor(w.rows.people[id], e.signIn.identity);
      } else {
        OneRow(w, e.stage.id, c.report.identity);
      }
      hide Step, Sound, WaitsFor, IsRace, Named;
    }
  }

  lemma {:induction false} UnlistedRun(w: World, run: seq<Event>, n: nat, c: Race)
    requires n <= |run| && IsRace(c) && AtTheStart(w, c) && UnlistedAtTheWrite(w, run, n, c)
    requires forall k :: 0 <= k <= n ==> Named(WorldAt(w, run, k), c)
    requires forall k :: 0 <= k < n ==> !FailsFor(run[k], c)
    ensures HasWritten(StageOf(WorldAt(w, run, n), c.x)) ==> NobodyElseLists(WorldAt(w, run, n), c)
    ensures NoElse(w, run, 0, n, c)
  {
    hide Next, InRun, Named, FailsFor, IsRace, NobodyElseLists, LinksElse, Written, Decides, Before;
    if n > 0 {
      var before, event := WorldAt(w, run, n - 1), run[n - 1];
      UnlistedRun(w, run, n - 1, c);
      RunFromTheStart(w, run, n - 1, c);
      RunFromTheStart(w, run, n, c);
      assert WorldAt(w, run, n) == Next(before, event);
      UnlistedLinksNobody(before, event, c);
      if HasWritten(StageOf(WorldAt(w, run, n), c.x)) {
        if !HasWritten(StageOf(before, c.x)) { WritesOnce(before, event, c); }
        UnlistedStep(before, event, c);
      }
    } else {
      assert WorldAt(w, run, 0) == w;
    }
  }

  lemma UnlistedLinksNobody(w: World, event: Event, c: Race)
    requires HasWritten(StageOf(w, c.x)) ==> NobodyElseLists(w, c)
    ensures !LinksElse(w, event, c)
  {}

  /** The report comes past its own write by that step alone. */
  lemma WritesOnce(w: World, event: Event, c: Race)
    requires InRun(w, c) && HasWritten(StageOf(Next(w, event), c.x)) && !HasWritten(StageOf(w, c.x))
    requires !FailsFor(event, c)
    ensures event.Move? && event.x == c.x && StageOf(w, c.x).Writing?
  {
    if event.Move? && event.x < |w.sessions| {
      assert OnItsRow(w.rows.people, w.sessions[event.x]);
    }
    hide Boss, Sound, WaitsFor;
  }

  /**
   * So a report that no other session is about to link, as its own write is
   * made, ends linked to the manager exactly when it looked with the
   * manager's row there or the manager queried with the write behind.
   */
  lemma UnlistedReportsLinkExactlyWhen(w: World, run: seq<Event>, x: nat, y: nat)
    requires BothOver(w, run, x, y) && AtTheStart(w, RaceOf(WorldAt(w, run, |run|), x, y))
    requires UnlistedAtTheWrite(w, run, |run|, RaceOf(WorldAt(w, run, |run|), x, y))
    ensures var last, n := WorldAt(w, run, |run|), |run|;
      var c := RaceOf(last, x, y);
      IsLinked(last.rows.people, c) <==> LookedBy(w, run, n, c) || QueriedBy(w, run, n, c)
  {
    var c := RaceOf(WorldAt(w, run, |run|), x, y);
    AllNamed(w, run, x, y);
    OverlappingSignInsLinkExactlyWhen(w, run, x, y);
    UnlistedRun(w, run, |run|, c);
    hide WorldAt, LookedBy, QueriedBy, AtTheStart, FailsFor, UnlistedAtTheWrite, IsLinked;
  }
}

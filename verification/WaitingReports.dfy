/**
 * A report whose row already names the manager, and a person whose manager
 * was cleared (syncManager in apps/cms/src/entra/provision.ts): how their
 * links end when sign-ins overlap.
 */
module WaitingReports {
  import opened Common
  import opened Roles
  import opened Managers
  import opened ManagerRaces

  // ---------------------------------------------------------------------
  // A report whose row already names the manager.

  /** No link, or the one to the manager's row. */
  ghost predicate PendingOrLinked(people: People, c: Race, link: Option<nat>) {
    link.None? || Found(people, c, true, link)
  }

  /** What the report's session holds never takes a link away. */
  ghost predicate HoldsNoLoss(people: People, c: Race, stage: Stage) {
    match stage
    case Looking(_, read) => read.managerOid == Some(c.boss.identity.oid) && PendingOrLinked(people, c, read.manager)
    case Writing(_, read, managerOid, found) =>
      && read.managerOid == Some(c.boss.identity.oid) == managerOid
      && PendingOrLinked(people, c, found) && (found.None? ==> read.manager.None?)
    case _ => true
  }

  ghost predicate NamesTheBoss(people: People, c: Race) {
    && HasRow(people, c.report.identity)
    && var row := people[RowOf(people, c.report.identity)];
      row.managerOid == Some(c.boss.identity.oid) && PendingOrLinked(people, c, row.manager)
  }

  /** The manager's session has been over the row. */
  predicate IsPast(stage: Stage, id: nat) {
    stage.Finished? || (stage.Filling? && id !in stage.waiting)
  }

  ghost predicate WaitingInvariant(w: World, c: Race) {
    && Good(w) && Named(w, c) && NamesTheBoss(w.rows.people, c)
    && (!StageOf(w, c.y).Arriving? ==> HasRow(w.rows.people, c.boss.identity))
    && HoldsNoLoss(w.rows.people, c, StageOf(w, c.x))
    && var id := RowOf(w.rows.people, c.report.identity);
      && (forall z :: 0 <= z < |w.sessions| && OnList(w.sessions[z].stage, id) ==>
        z == c.y && (w.sessions[z].stage.waiting[id].None? || w.rows.people[id].manager.Some?))
      && (IsPast(StageOf(w, c.y), id) ==> w.rows.people[id].manager.Some?)
  }

  /** What a move leaves of the row: the manager it names, and a link it had. */
  ghost predicate RowStays(w: World, after: World, c: Race, id: nat)
    requires id in w.rows.people
  {
    && id in after.rows.people && after.rows.people[id].managerOid == w.rows.people[id].managerOid
    && PendingOrLinked(after.rows.people, c, after.rows.people[id].manager)
    && (w.rows.people[id].manager.Some? ==> after.rows.people[id].manager.Some?)
  }

  lemma StaysPendingOrLinked(w: World, event: Event, after: World, c: Race, link: Option<nat>)
    requires Moved(w, event, after) && PendingOrLinked(w.rows.people, c, link)
    ensures PendingOrLinked(after.rows.people, c, link)
  {
    hide Next;
    BossStays(w, event, after, c.boss.identity);
  }

  lemma WaitingReportMoves(w: World, event: Event, after: World, c: Race, id: nat)
    requires IsRace(c) && Moved(w, event, after) && event.x == c.x
    requires WaitingInvariant(w, c) && id == RowOf(w.rows.people, c.report.identity)
    ensures RowStays(w, after, c, id) && HoldsNoLoss(after.rows.people, c, after.sessions[c.x].stage)
    ensures !OnList(after.sessions[c.x].stage, id)
  {
    var e := w.sessions[c.x];
    assert OnItsRow(w.rows.people, e) && c.names[c.x] != c.boss.identity;
    ListedByTheBoss(w, event, after, c, id);
    if e.stage.Looking? {
      WaitingReportLooks(w, event, after, c, id);
    } else if e.stage.Writing? {
      WaitingReportWrites(w, event, after, c, id);
    } else {
      StaysPendingOrLinked(w, event, after, c, w.rows.people[id].manager);
      hide Boss, WaitsFor, Sound, Kept, HasRow, IsRace, Named, OnList, Changes;
    }
  }

  lemma WaitingReportWrites(w: World, event: Event, after: World, c: Race, id: nat)
    requires IsRace(c) && Moved(w, event, after) && event.x == c.x && StageOf(w, c.x).Writing?
    requires WaitingInvariant(w, c) && id == RowOf(w.rows.people, c.report.identity)
    ensures RowStays(w, after, c, id) && HoldsNoLoss(after.rows.people, c, after.sessions[c.x].stage)
  {
    assert OnItsRow(w.rows.people, w.sessions[c.x]);
    StaysPendingOrLinked(w, event, after, c, StageOf(w, c.x).boss);
    StaysPendingOrLinked(w, event, after, c, w.rows.people[id].manager);
    hide WaitsFor, Sound, Kept, HasRow, IsRace, Named, OnList, PendingOrLinked;
  }

  lemma WaitingReportLooks(w: World, event: Event, after: World, c: Race, id: nat)
    requires IsRace(c) && Moved(w, event, after) && event.x == c.x && StageOf(w, c.x).Looking?
    requires WaitingInvariant(w, c) && id == RowOf(w.rows.people, c.report.identity)
    ensures RowStays(w, after, c, id) && HoldsNoLoss(after.rows.people, c, after.sessions[c.x].stage)
  {
    assert OnItsRow(w.rows.people, w.sessions[c.x]) && c.names[c.x] != c.boss.identity;
    assert Identity(c.report.identity.tenant, c.boss.identity.oid) == c.boss.identity;
    assert after.rows == w.rows;
    hide WaitsFor, Sound, Kept, IsRace, Named, OnList;
  }

  lemma WaitingBossMoves(w: World, event: Event, after: World, c: Race, id: nat)
    requires IsRace(c) && Moved(w, event, after) && event.x == c.y && !event.fails
    requires WaitingInvariant(w, c) && id == RowOf(w.rows.people, c.report.identity)
    ensures var stage := after.sessions[c.y].stage;
      && RowStays(w, after, c, id) && (IsPast(stage, id) ==> after.rows.people[id].manager.Some?)
      && (OnList(stage, id) ==> stage.waiting[id].None? || after.rows.people[id].manager.Some?)
  {
    var e := w.sessions[c.y];
    assert OnItsRow(w.rows.people, e) && c.names[c.y] != c.report.identity;
    BossStays(w, event, after, c.boss.identity);
    StaysPendingOrLinked(w, event, after, c, w.rows.people[id].manager);
    assert WaitsFor(w.rows.people[id], c.boss.identity);
    if e.stage.Filling? {
      OneRow(w, e.stage.id, c.boss.identity);
      SessionOnRow(w.rows, e, event.row, event.fails, id);
      FillingGoesOn(w.rows, e, event.row);
      hide Step;
    }
    hide Sound, Boss, WaitsFor, HoldsNoLoss, Kept;
  }

  lemma FillingGoesOn(rows: Register, e: Session, row: nat)
    requires e.stage.Filling?
    ensures var stage := Step(rows, e, row, false).stage;
      && (stage.Finished? <==> e.stage.waiting == map[])
      && (stage.Filling? ==> stage.id == e.stage.id)
      && (stage.Filling? ==> forall id :: id in e.stage.waiting && id != row ==> id in stage.waiting)
      && (stage.Filling? || stage.Finished?)
  {}

  lemma WaitingOtherMoves(w: World, event: Event, after: World, c: Race, id: nat)
    requires IsRace(c) && Moved(w, event, after) && event.x != c.x && event.x != c.y
    requires WaitingInvariant(w, c) && id == RowOf(w.rows.people, c.report.identity)
    ensures RowStays(w, after, c, id) && !OnList(after.sessions[event.x].stage, id)
  {
    var e := w.sessions[event.x];
    assert OnItsRow(w.rows.people, e) && e.signIn.identity == c.names[event.x];
    SessionOnRow(w.rows, e, event.row, event.fails, id);
    hide Step;
    ListedByTheBoss(w, event, after, c, id);
    StaysPendingOrLinked(w, event, after, c, w.rows.people[id].manager);
  }

  lemma HoldingStays(w: World, event: Event, after: World, c: Race)
    requires Moved(w, event, after) && event.x != c.x && HoldsNoLoss(w.rows.people, c, StageOf(w, c.x))
    ensures HoldsNoLoss(after.rows.people, c, StageOf(after, c.x))
  {
    OnlyOneMoves(w, event, after, c.x);
    hide Next, PendingOrLinked, Good;
    match StageOf(w, c.x)
    case Looking(_, read) => StaysPendingOrLinked(w, event, after, c, read.manager);
    case Writing(_, _, _, found) => StaysPendingOrLinked(w, event, after, c, found);
    case _ =>
  }

  lemma WaitingStep(w: World, event: Event, c: Race)
    requires IsRace(c) && WaitingInvariant(w, c) && Named(Next(w, event), c) && !BossFails(event, c)
    ensures WaitingInvariant(Next(w, event), c)
  {
    var after := Next(w, event);
    if event.Begin? {
      NextKeeps(w, event);
      hide Sound, WaitsFor, IsRace;
      assert StageOf(after, c.x) == StageOf(w, c.x) && StageOf(after, c.y) == StageOf(w, c.y);
      assert forall z :: 0 <= z < |w.sessions| ==> after.sessions[z] == w.sessions[z];
    } else if event.x < |w.sessions| {
      WaitingMove(w, event, after, c);
    }
  }

  lemma WaitingMove(w: World, event: Event, after: World, c: Race)
    requires IsRace(c) && Moved(w, event, after) && WaitingInvariant(w, c) && Named(after, c) && !BossFails(event, c)
    ensures WaitingInvariant(after, c)
  {
    var id := RowOf(w.rows.people, c.report.identity);
    BossStays(w, event, after, c.report.identity);
    BossArrives(w, event, after, c);
    if event.x != c.y { OnlyOneMoves(w, event, after, c.y); }
    if event.x == c.x {
      WaitingReportMoves(w, event, after, c, id);
    } else {
      HoldingStays(w, event, after, c);
      if event.x == c.y { WaitingBossMoves(w, event, after, c, id); } else { WaitingOtherMoves(w, event, after, c,
        id); }
    }
    hide Step, Good, IsRace, Named, PendingOrLinked, HoldsNoLoss;
    forall z | 0 <= z < |after.sessions| && OnList(after.sessions[z].stage, id)
      ensures z == c.y && (after.sessions[z].stage.waiting[id].None? || after.rows.people[id].manager.Some?)
    {
      if z != event.x { assert after.sessions[z] == w.sessions[z]; }
    }
  }

  lemma {:induction false} WaitingRun(w: World, run: seq<Event>, n: nat, c: Race)
    requires n <= |run| && IsRace(c) && w.sessions == [] && Sound(w.rows) && NamesTheBoss(w.rows.people, c)
    requires forall k :: 0 <= k <= n ==> Named(WorldAt(w, run, k), c)
    requires forall k :: 0 <= k < n ==> !BossFails(run[k], c)
    ensures WaitingInvariant(WorldAt(w, run, n), c)
  {
    hide Next, IsRace, Named, BossFails;
    if n > 0 {
      hide WaitingInvariant;
      WaitingRun(w, run, n - 1, c);
      assert WorldAt(w, run, n) == Next(WorldAt(w, run, n - 1), run[n - 1]);
      WaitingStep(WorldAt(w, run, n - 1), run[n - 1], c);
    }
  }

  /**
   * A report whose row already names the manager, pending or linked, is
   * linked once the manager's sign-in is over, whatever overlaps and whatever
   * fails in the report's own.
   */
  lemma WaitingReportsAreLinked(w: World, run: seq<Event>, x: nat, y: nat)
    requires var last := WorldAt(w, run, |run|);
      && x < |last.sessions| && y < |last.sessions|
      && last.sessions[y].stage.Finished? && last.sessions[x].mayWrite && last.sessions[y].mayWrite
      && IsRace(RaceOf(last, x, y)) && w.sessions == [] && Sound(w.rows) &&
        NamesTheBoss(w.rows.people, RaceOf(last, x, y))
      && forall k :: 0 <= k < |run| ==> !BossFails(run[k], RaceOf(last, x, y))
    ensures var people, c := WorldAt(w, run, |run|).rows.people, RaceOf(WorldAt(w, run, |run|), x, y);
      && HasRow(people, c.report.identity) && HasRow(people, c.boss.identity)
      && people[RowOf(people, c.report.identity)].manager == Some(RowOf(people, c.boss.identity))
  {
    var c := RaceOf(WorldAt(w, run, |run|), x, y);
    hide WorldAt, BossFails;
    forall k | 0 <= k <= |run|
      ensures Named(WorldAt(w, run, k), c)
    {
      SessionsStay(w, run, k, |run|);
    }
    WaitingRun(w, run, |run|, c);
  }

  // ---------------------------------------------------------------------
  // A row whose manager was cleared.
  /** The row names no manager, and no session of its identity will write it again. */
  ghost predicate Cleared(w: World, id: nat, identity: Identity) {
    && id in w.rows.people && w.rows.people[id].identity == Some(identity) && w.rows.people[id].managerOid.None?
    && forall z :: 0 <= z < |w.sessions| && w.sessions[z].signIn.identity == identity ==>
      HasWritten(w.sessions[z].stage)
  }

  ghost predicate AnyPendingOn(w: World, id: nat) {
    exists z :: 0 <= z < |w.sessions| && PendingOn(w.sessions[z].stage, id)
  }

  ghost predicate LinkedOrPending(w: World, id: nat) {
    (id in w.rows.people && w.rows.people[id].manager.Some?) || AnyPendingOn(w, id)
  }

  lemma ClearedSessionMoves(rows: Register, e: Session, row: nat, fails: bool, id: nat, identity: Identity)
    requires Sound(rows) && OnItsRow(rows.people, e)
    requires id in rows.people && rows.people[id].identity == Some(identity) && rows.people[id].managerOid.None?
    requires (e.signIn.identity == identity ==> HasWritten(e.stage)) && (fails ==> !PendingOn(e.stage, id))
    ensures var effect := Step(rows, e, row, fails);
      && id in effect.rows.people
      && (PendingOn(effect.stage, id) <==> PendingOn(e.stage, id) && row != id)
      && (HasWritten(e.stage) ==> HasWritten(effect.stage))
      && effect.rows.people[id] ==
        if PendingOn(e.stage, id) && row == id then rows.people[id].(manager := Some(e.stage.id)) else rows.people[id]
  {
    SessionOnRow(rows, e, row, fails, id);
    hide Step, Sound;
  }

  lemma ClearedMove(w: World, event: Event, after: World, id: nat, identity: Identity)
    requires Moved(w, event, after) && Cleared(w, id, identity)
    requires event.fails ==> !PendingOn(w.sessions[event.x].stage, id)
    ensures Cleared(after, id, identity) && (LinkedOrPending(after, id) <==> LinkedOrPending(w, id))
  {
    var e := w.sessions[event.x];
    ClearedSessionMoves(w.rows, e, event.row, event.fails, id, identity);
    hide Step, Sound, OnItsRow, PendingOn, HasWritten;
    var moved := after.sessions[event.x];
    assert moved == e.(stage := Step(w.rows, e, event.row, event.fails).stage);
    if PendingOn(e.stage, id) {
      assert AnyPendingOn(w, id);
      assert PendingOn(moved.stage, id) ==> AnyPendingOn(after, id);
    } else {
      if z :| 0 <= z < |w.sessions| && PendingOn(w.sessions[z].stage, id) {
        assert PendingOn(after.sessions[z].stage, id);
      }
      if z :| 0 <= z < |after.sessions| && PendingOn(after.sessions[z].stage, id) {
        assert PendingOn(w.sessions[z].stage, id);
      }
    }
  }

  lemma ClearedStep(w: World, event: Event, id: nat, identity: Identity)
    requires Good(w) && Cleared(w, id, identity)
    requires event.Begin? ==> event.signIn.identity != identity
    requires event.Move? && event.fails && event.x < |w.sessions| ==> !PendingOn(w.sessions[event.x].stage, id)
    ensures Cleared(Next(w, event), id, identity) && (LinkedOrPending(Next(w, event), id) <==> LinkedOrPending(w, id))
  {
    var after := Next(w, event);
    if event.Begin? {
      hide PendingOn;
      if z :| 0 <= z < |w.sessions| && PendingOn(w.sessions[z].stage, id) {
        assert PendingOn(after.sessions[z].stage, id);
      }
      if z :| 0 <= z < |after.sessions| && PendingOn(after.sessions[z].stage, id) {
        NotPending(id);
        assert PendingOn(w.sessions[z].stage, id);
      }
    } else if event.x < |w.sessions| {
      ClearedMove(w, event, after, id, identity);
    }
  }

  lemma NotPending(id: nat)
    ensures !PendingOn(Arriving, id)
  {}

  /** Nobody of this identity begins again, and no session that is to link the row fails. */
  ghost predicate LeavesItBe(w: World, run: seq<Event>, id: nat, identity: Identity) {
    && (forall k :: 0 <= k < |run| && run[k].Begin? ==> run[k].signIn.identity != identity)
    && (forall k :: 0 <= k < |run| && run[k].Move? && run[k].fails && run[k].x < |WorldAt(w, run, k).sessions| ==>
      !PendingOn(WorldAt(w, run, k).sessions[run[k].x].stage, id))
  }

  lemma {:induction false} ClearedRun(w: World, run: seq<Event>, n: nat, id: nat, identity: Identity)
    requires Good(w) && Cleared(w, id, identity) && LeavesItBe(w, run, id, identity) && n <= |run|
    ensures Cleared(WorldAt(w, run, n), id, identity)
    ensures (LinkedOrPending(WorldAt(w, run, n), id) <==> LinkedOrPending(w, id))
  {
    hide Next, Cleared, LinkedOrPending, PendingOn, Good;
    if n > 0 {
      ClearedRun(w, run, n - 1, id, identity);
      RunKeeps(w, run, n - 1);
      ClearedStep(WorldAt(w, run, n - 1), run[n - 1], id, identity);
    }
  }

  /**
   * From the moment someone's own sign-in has cleared the manager: once all
   * that began is finished, the row has a link if and only if at that moment
   * some session still had it on its list to link.
   */
  lemma ClearedRowsAreLinkedExactlyWhen(w: World, run: seq<Event>, id: nat, identity: Identity)
    requires Good(w) && Cleared(w, id, identity) && w.rows.people[id].manager.None? && LeavesItBe(w, run, id, identity)
    requires forall z :: 0 <= z < |WorldAt(w, run, |run|).sessions| ==>
      WorldAt(w, run, |run|).sessions[z].stage.Finished?
    ensures var people := WorldAt(w, run, |run|).rows.people;
      id in people && people[id].managerOid.None? && (people[id].manager.Some? <==> AnyPendingOn(w, id))
  {
    hide WorldAt, Good;
    ClearedRun(w, run, |run|, id, identity);
  }
}

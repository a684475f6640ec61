/**
 * Three runs of overlapping sign-ins (syncManager in
 * apps/cms/src/entra/provision.ts) that end with a wrong manager link.
 */
module ManagerRuns {
  import opened Common
  import opened Roles
  import opened Managers
  import opened ManagerRaces
  import opened NewManagers

  /** The report looks, its manager's whole first sign-in passes, then the report writes. */
  function LateRun(report: SignIn, boss: SignIn): seq<Event> {
    var first, second := Move(0, 0, false), Move(1, 0, false);
    [Begin(report, true), first, first, Begin(boss, true), second, second, second, second, second, first, first, first]
  }

  function NewRow(identity: Identity): Person {
    Person(Some(identity), None, None, false)
  }

  /** The worlds of that run, from an empty table. */
  function LateWorlds(report: SignIn, boss: SignIn): seq<World> {
    var early, row := NewRow(report.identity), NewRow(boss.identity);
    var oid := Some(boss.identity.oid);
    var one, both := Register(map[0 := early], 1), Register(map[0 := early, 1 := row], 2);
    var late := Register(map[0 := early.(managerOid := oid), 1 := row], 2);
    var looked := Session(report, true, Writing(0, early, oid, None));
    var done := Session(boss, true, Finished);
    [World(Register(map[], 0), []),
     World(Register(map[], 0), [Session(report, true, Arriving)]),
     World(one, [Session(report, true, Looking(0, early))]),
     World(one, [looked]),
     World(one, [looked, Session(boss, true, Arriving)]),
     World(both, [looked, Session(boss, true, Looking(1, row))]),
     World(both, [looked, Session(boss, true, Writing(1, row, None, None))]),
     World(both, [looked, Session(boss, true, Querying(1))]),
     World(both, [looked, Session(boss, true, Filling(1, map[]))]),
     World(both, [looked, done]),
     World(late, [Session(report, true, Querying(0)), done]),
     World(late, [Session(report, true, Filling(0, map[])), done]),
     World(late, [Session(report, true, Finished), done])]
  }

  ghost predicate NamesBoss(report: SignIn, boss: SignIn) {
    && report.identity.tenant == boss.identity.tenant && report.identity.oid != boss.identity.oid
    && report.manager == Answered(Some(boss.identity.oid)) && boss.manager == Answered(None)
  }

  lemma FirstLooks(report: SignIn, boss: SignIn)
    requires NamesBoss(report, boss)
    ensures var worlds, run := LateWorlds(report, boss), LateRun(report, boss);
      forall k :: 0 <= k < 4 ==> Next(worlds[k], run[k]) == worlds[k + 1]
  {
    var worlds, run := LateWorlds(report, boss), LateRun(report, boss);
    var one := worlds[2].rows.people;
    assert one[0].identity == Some(report.identity);
    assert RowOf(one, report.identity) == 0;
    assert Identity(report.identity.tenant, boss.identity.oid) == boss.identity;
    assert Boss(one, 0, boss.identity.oid) == None;
    assert Next(worlds[0], run[0]) == worlds[1];
    assert Next(worlds[1], run[1]) == worlds[2];
    assert Next(worlds[2], run[2]) == worlds[3];
    assert Next(worlds[3], run[3]) == worlds[4];
  }

  lemma BossPasses(report: SignIn, boss: SignIn)
    requires NamesBoss(report, boss)
    ensures var worlds, run := LateWorlds(report, boss), LateRun(report, boss);
      forall k :: 4 <= k < 9 ==> Next(worlds[k], run[k]) == worlds[k + 1]
  {
    var worlds, run := LateWorlds(report, boss), LateRun(report, boss);
    var both := worlds[5].rows.people;
    assert both[1].identity == Some(boss.identity);
    assert RowOf(both, boss.identity) == 1;
    assert WaitingFor(both, boss.identity) == map[];
    assert Next(worlds[4], run[4]) == worlds[5];
    assert Next(worlds[5], run[5]) == worlds[6];
    assert Next(worlds[6], run[6]) == worlds[7];
    assert Next(worlds[7], run[7]) == worlds[8];
    assert Next(worlds[8], run[8]) == worlds[9];
  }

  lemma FirstWrites(report: SignIn, boss: SignIn)
    requires NamesBoss(report, boss)
    ensures var worlds, run := LateWorlds(report, boss), LateRun(report, boss);
      forall k :: 9 <= k < 12 ==> Next(worlds[k], run[k]) == worlds[k + 1]
  {
    var worlds, run := LateWorlds(report, boss), LateRun(report, boss);
    assert WaitingFor(worlds[10].rows.people, report.identity) == map[];
    assert Next(worlds[9], run[9]) == worlds[10];
    assert Next(worlds[10], run[10]) == worlds[11];
    assert Next(worlds[11], run[11]) == worlds[12];
  }

  lemma {:induction false} LateRunGoes(report: SignIn, boss: SignIn, n: nat)
    requires NamesBoss(report, boss) && n <= 12
    ensures |LateRun(report, boss)| == 12 && |LateWorlds(report, boss)| == 13
    ensures WorldAt(LateWorlds(report, boss)[0], LateRun(report, boss), n) == LateWorlds(report, boss)[n]
  {
    if n > 0 {
      LateRunGoes(report, boss, n - 1);
      FirstLooks(report, boss);
      BossPasses(report, boss);
      FirstWrites(report, boss);
      hide Next;
    }
  }

  /**
   * From an empty table, with no error and nobody blocked, both first
   * sign-ins finish; the report's row names its manager, whose row is there,
   * and the link is none.
   */
  lemma RaceLeavesTheLinkPending(report: SignIn, boss: SignIn)
    requires NamesBoss(report, boss)
    ensures var run := LateRun(report, boss);
      var last := WorldAt(World(Register(map[], 0), []), run, |run|);
      && last.sessions == [Session(report, true, Finished), Session(boss, true, Finished)]
      && HasRow(last.rows.people, report.identity) && HasRow(last.rows.people, boss.identity)
      && last.rows.people[RowOf(last.rows.people, report.identity)] ==
        NewRow(report.identity).(managerOid := Some(boss.identity.oid))
  {
    LateRunGoes(report, boss, 12);
    var people := LateWorlds(report, boss)[12].rows.people;
    assert people[0].identity == Some(report.identity) && people[1].identity == Some(boss.identity);
    hide Next;
  }

  /** A manager's session lists its report, the report's passes with nobody for a manager, then the list is linked. */
  function StaleRun(report: SignIn, boss: SignIn): seq<Event> {
    var first, second := Move(0, 0, false), Move(1, 0, false);
    [Begin(boss, true), first, first, first, first, Begin(report, true), second, second, second, second, second, first,
      first]
  }

  /** The worlds of that run, from the row that waits for the manager. */
  function StaleWorlds(report: SignIn, boss: SignIn): seq<World> {
    var row, free := NewRow(boss.identity), NewRow(report.identity);
    var waits := free.(managerOid := Some(boss.identity.oid));
    var one, both := Register(map[0 := waits], 1), Register(map[0 := waits, 1 := row], 2);
    var cleared, linked := Register(map[0 := free, 1 := row], 2),
      Register(map[0 := free.(manager := Some(1)), 1 := row], 2);
    var listed := Session(boss, true, Filling(1, map[0 := None]));
    var done := Session(report, true, Finished);
    [World(one, []),
     World(one, [Session(boss, true, Arriving)]),
     World(both, [Session(boss, true, Looking(1, row))]),
     World(both, [Session(boss, true, Writing(1, row, None, None))]),
     World(both, [Session(boss, true, Querying(1))]),
     World(both, [listed]),
     World(both, [listed, Session(report, true, Arriving)]),
     World(both, [listed, Session(report, true, Looking(0, waits))]),
     World(both, [listed, Session(report, true, Writing(0, waits, None, None))]),
     World(cleared, [listed, Session(report, true, Querying(0))]),
     World(cleared, [listed, Session(report, true, Filling(0, map[]))]),
     World(cleared, [listed, done]),
     World(linked, [Session(boss, true, Filling(1, map[])), done]),
     World(linked, [Session(boss, true, Finished), done])]
  }

  ghost predicate LeavesBoss(report: SignIn, boss: SignIn) {
    && report.identity.tenant == boss.identity.tenant && report.identity.oid != boss.identity.oid
    && report.manager == Answered(None) && boss.manager == Answered(None)
  }

  lemma BossLists(report: SignIn, boss: SignIn)
    requires LeavesBoss(report, boss)
    ensures var worlds, run := StaleWorlds(report, boss), StaleRun(report, boss);
      forall k :: 0 <= k < 5 ==> Next(worlds[k], run[k]) == worlds[k + 1]
  {
    var worlds, run := StaleWorlds(report, boss), StaleRun(report, boss);
    var both := worlds[2].rows.people;
    assert both[1].identity == Some(boss.identity);
    assert RowOf(both, boss.identity) == 1;
    assert WaitingFor(both, boss.identity) == map[0 := None];
    assert Next(worlds[0], run[0]) == worlds[1];
    assert Next(worlds[1], run[1]) == worlds[2];
    assert Next(worlds[2], run[2]) == worlds[3];
    assert Next(worlds[3], run[3]) == worlds[4];
    assert Next(worlds[4], run[4]) == worlds[5];
  }

  lemma ReportLeaves(report: SignIn, boss: SignIn)
    requires LeavesBoss(report, boss)
    ensures var worlds, run := StaleWorlds(report, boss), StaleRun(report, boss);
      forall k :: 5 <= k < 11 ==> Next(worlds[k], run[k]) == worlds[k + 1]
  {
    var worlds, run := StaleWorlds(report, boss), StaleRun(report, boss);
    var both := worlds[6].rows.people;
    assert both[0].identity == Some(report.identity);
    assert RowOf(both, report.identity) == 0;
    assert WaitingFor(worlds[9].rows.people, report.identity) == map[];
    assert Next(worlds[5], run[5]) == worlds[6];
    assert Next(worlds[6], run[6]) == worlds[7];
    assert Next(worlds[7], run[7]) == worlds[8];
    assert Next(worlds[8], run[8]) == worlds[9];
    assert Next(worlds[9], run[9]) == worlds[10];
    assert Next(worlds[10], run[10]) == worlds[11];
  }

  lemma ListIsLinked(report: SignIn, boss: SignIn)
    requires LeavesBoss(report, boss)
    ensures var worlds, run := StaleWorlds(report, boss), StaleRun(report, boss);
      forall k :: 11 <= k < 13 ==> Next(worlds[k], run[k]) == worlds[k + 1]
  {
    var worlds, run := StaleWorlds(report, boss), StaleRun(report, boss);
    var listed: map<nat, Option<nat>> := map[0 := None];
    assert listed - {0} == map[];
    assert Next(worlds[11], run[11]) == worlds[12];
    assert Next(worlds[12], run[12]) == worlds[13];
  }

  lemma {:induction false} StaleRunGoes(report: SignIn, boss: SignIn, n: nat)
    requires LeavesBoss(report, boss) && n <= 13
    ensures |StaleRun(report, boss)| == 13 && |StaleWorlds(report, boss)| == 14
    ensures WorldAt(StaleWorlds(report, boss)[0], StaleRun(report, boss), n) == StaleWorlds(report, boss)[n]
  {
    if n > 0 {
      StaleRunGoes(report, boss, n - 1);
      BossLists(report, boss);
      ReportLeaves(report, boss);
      ListIsLinked(report, boss);
      hide Next;
    }
  }

  /**
   * A list taken before someone's own write is linked after it: a person
   * whose sign-in cleared the manager ends linked to the former one, and the
   * row names nobody.
   */
  lemma StaleListLinksAFormerManager(report: SignIn, boss: SignIn)
    requires LeavesBoss(report, boss)
    ensures var waits := NewRow(report.identity).(managerOid := Some(boss.identity.oid));
      var run := StaleRun(report, boss);
      var last := WorldAt(World(Register(map[0 := waits], 1), []), run, |run|);
      && last.sessions == [Session(boss, true, Finished), Session(report, true, Finished)]
      && HasRow(last.rows.people, report.identity) && HasRow(last.rows.people, boss.identity)
      && last.rows.people[RowOf(last.rows.people, report.identity)] ==
        NewRow(report.identity).(manager := Some(RowOf(last.rows.people, boss.identity)))
  {
    StaleRunGoes(report, boss, 13);
    var people := StaleWorlds(report, boss)[13].rows.people;
    assert people[0].identity == Some(report.identity) && people[1].identity == Some(boss.identity);
    hide Next;
  }

  ghost predicate ChangesBoss(report: SignIn, former: SignIn, boss: SignIn) {
    && report.identity.tenant == boss.identity.tenant == former.identity.tenant
    && report.identity.oid != boss.identity.oid && report.identity.oid != former.identity.oid
    && boss.identity.oid != former.identity.oid
    && report.manager == Answered(Some(boss.identity.oid)) && boss.manager == former.manager == Answered(None)
  }

  /** The three rows, the report's as given. */
  function ThreeRows(report: Person, former: SignIn, boss: SignIn): Register {
    Register(map[0 := report, 1 := NewRow(boss.identity), 2 := NewRow(former.identity)], 3)
  }

  lemma FormerSteps(former: SignIn, boss: SignIn, waits: Person, e: Session)
    requires former.identity != boss.identity && waits.identity != Some(former.identity)
    requires former.manager == Answered(None)
    requires WaitsFor(waits, former.identity) && waits.manager.None? && e.signIn == former && e.mayWrite
    ensures var row, three := NewRow(former.identity), ThreeRows(waits, former, boss);
      var two := Register(map[0 := waits, 1 := NewRow(boss.identity)], 2);
      && Step(two, e.(stage := Arriving), 0, false) == Effect(three, Looking(2, row))
      && Step(three, e.(stage := Looking(2, row)), 0, false) == Effect(three, Writing(2, row, None, None))
      && Step(three, e.(stage := Writing(2, row, None, None)), 0, false) == Effect(three, Querying(2))
      && Step(three, e.(stage := Querying(2)), 0, false) == Effect(three, Filling(2, map[0 := None]))
  {
    var three := ThreeRows(waits, former, boss).people;
    assert three[2].identity == Some(former.identity);
    assert RowOf(three, former.identity) == 2;
    assert WaitingFor(three, former.identity) == map[0 := None];
  }

  lemma ReportSteps(report: SignIn, former: SignIn, boss: SignIn, waits: Person, e: Session)
    requires ChangesBoss(report, former, boss)
    requires waits == NewRow(report.identity).(managerOid := Some(former.identity.oid))
    requires e.signIn == report && e.mayWrite
    ensures var oid, three := Some(boss.identity.oid), ThreeRows(waits, former, boss);
      && Step(three, e.(stage := Arriving), 0, false) == Effect(three, Looking(0, waits))
      && Step(three, e.(stage := Looking(0, waits)), 0, false) == Effect(three, Writing(0, waits, oid, Some(1)))
      && Step(three, e.(stage := Writing(0, waits, oid, Some(1))), 0, false) ==
        Effect(ThreeRows(waits.(managerOid := oid, manager := Some(1)), former, boss), Querying(0))
      && HasRow(three.people, boss.identity)
  {
    var three := ThreeRows(waits, former, boss).people;
    assert three[0].identity == Some(report.identity) && three[1].identity == Some(boss.identity);
    assert RowOf(three, report.identity) == 0 && RowOf(three, boss.identity) == 1;
    assert Identity(report.identity.tenant, boss.identity.oid) == boss.identity;
    assert Boss(three, 0, boss.identity.oid) == Some(1);
    hide WaitsFor;
  }

  lemma BossSteps(former: SignIn, boss: SignIn, named: Person, e: Session)
    requires former.identity != boss.identity && named.identity != Some(boss.identity) && boss.manager == Answered(None)
    requires WaitsFor(named, boss.identity) && named.manager == Some(1) && e.signIn == boss && e.mayWrite
    ensures var row, three := NewRow(boss.identity), ThreeRows(named, former, boss);
      && Step(three, e.(stage := Arriving), 0, false) == Effect(three, Looking(1, row))
      && Step(three, e.(stage := Looking(1, row)), 0, false) == Effect(three, Writing(1, row, None, None))
      && Step(three, e.(stage := Writing(1, row, None, None)), 0, false) == Effect(three, Querying(1))
      && Step(three, e.(stage := Querying(1)), 0, false) == Effect(three, Filling(1, map[0 := Some(1)]))
      && Step(three, e.(stage := Filling(1, map[0 := Some(1)])), 0, false) == Effect(three, Filling(1, map[]))
      && Step(three, e.(stage := Filling(1, map[])), 0, false) == Effect(three, Finished)
  {
    var three := ThreeRows(named, former, boss).people;
    assert three[1].identity == Some(boss.identity);
    assert RowOf(three, boss.identity) == 1;
    var listed: map<nat, Option<nat>> := map[0 := Some(1)];
    assert WaitingFor(three, boss.identity) == listed;
    assert listed - {0} == map[];
  }

  lemma LastSteps(report: SignIn, former: SignIn, boss: SignIn, named: Person, r: Session, f: Session)
    requires ChangesBoss(report, former, boss)
    requires named == NewRow(report.identity).(managerOid := Some(boss.identity.oid), manager := Some(1))
    ensures var three := ThreeRows(named, former, boss);
      var over := ThreeRows(named.(manager := Some(2)), former, boss);
      && Step(three, r.(stage := Querying(0)), 0, false) == Effect(three, Filling(0, map[]))
      && Step(three, r.(stage := Filling(0, map[])), 0, false) == Effect(three, Finished)
      && Step(three, f.(stage := Filling(2, map[0 := None])), 0, false) == Effect(over, Filling(2, map[]))
      && Step(over, f.(stage := Filling(2, map[])), 0, false) == Effect(over, Finished)
  {
    var three := ThreeRows(named, former, boss).people;
    var listed: map<nat, Option<nat>> := map[0 := None];
    assert listed - {0} == map[];
    assert WaitingFor(three, report.identity) == map[];
  }

  /**
   * Three sign-ins. The former manager's session lists the report; the report
   * names the new one, whose row is there, and is linked; the new one's whole
   * sign-in finds that link in place; then the former one's list is linked.
   */
  function OvertakenRun(report: SignIn, former: SignIn, boss: SignIn): seq<Event> {
    var f, r, b := Move(0, 0, false), Move(1, 0, false), Move(2, 0, false);
    [Begin(former, true), Begin(report, true), Begin(boss, true), f, f, f, f, r, r, r, b, b, b, b, b, b, r, r, f, f]
  }

  /** The report is the run's session 1, its new manager 2, the former one 0. */
  function RaceOfThree(report: SignIn, former: SignIn, boss: SignIn): Race {
    Race(1, 2, report, boss, [former.identity, report.identity, boss.identity])
  }

  /** The report's row waits for the former manager, who has none yet; the new one's is there. */
  function OvertakenStart(report: SignIn, former: SignIn, boss: SignIn): World {
    World(TwoRows(Waits(report, former), boss), [])
  }

  function TwoRows(report: Person, boss: SignIn): Register {
    Register(map[0 := report, 1 := NewRow(boss.identity)], 2)
  }

  function Waits(report: SignIn, boss: SignIn): Person {
    NewRow(report.identity).(managerOid := Some(boss.identity.oid))
  }

  function Trio(rows: Register, report: SignIn, former: SignIn, boss: SignIn, f: Stage, r: Stage, b: Stage): World {
    World(rows, [Session(former, true, f), Session(report, true, r), Session(boss, true, b)])
  }

  ghost function OvertakenAt(report: SignIn, former: SignIn, boss: SignIn, n: nat): World
    requires n <= |OvertakenRun(report, former, boss)|
  {
    WorldAt(OvertakenStart(report, former, boss), OvertakenRun(report, former, boss), n)
  }

  lemma OvertakenNext(report: SignIn, former: SignIn, boss: SignIn, n: nat)
    requires n < |OvertakenRun(report, former, boss)|
    ensures OvertakenAt(report, former, boss, n + 1) ==
      Next(OvertakenAt(report, former, boss, n), OvertakenRun(report, former, boss)[n])
  {
    hide Next;
  }

  lemma TrioMoves(rows: Register, report: SignIn, former: SignIn, boss: SignIn, f: Stage, r: Stage, b: Stage)
    ensures var w := Trio(rows, report, former, boss, f, r, b);
      var ff, rr, bb := Step(rows, w.sessions[0], 0, false), Step(rows, w.sessions[1], 0, false),
        Step(rows, w.sessions[2], 0, false);
      && Next(w, Move(0, 0, false)) == Trio(ff.rows, report, former, boss, ff.stage, r, b)
      && Next(w, Move(1, 0, false)) == Trio(rr.rows, report, former, boss, f, rr.stage, b)
      && Next(w, Move(2, 0, false)) == Trio(bb.rows, report, former, boss, f, r, bb.stage)
  {
    hide Step;
  }

  lemma FormerLists(report: SignIn, former: SignIn, boss: SignIn)
    requires ChangesBoss(report, former, boss)
    ensures var three := ThreeRows(Waits(report, former), former, boss);
      OvertakenAt(report, former, boss, 7) ==
        Trio(three, report, former, boss, Filling(2, map[0 := None]), Arriving, Arriving)
  {
    var two := TwoRows(Waits(report, former), boss);
    assert OvertakenAt(report, former, boss, 0) == OvertakenStart(report, former, boss);
    OvertakenNext(report, former, boss, 0);
    OvertakenNext(report, former, boss, 1);
    OvertakenNext(report, former, boss, 2);
    assert OvertakenAt(report, former, boss, 3) == Trio(two, report, former, boss, Arriving, Arriving, Arriving);
    FormerMoves(report, former, boss);
  }

  lemma TheFormersSteps(report: SignIn, former: SignIn, boss: SignIn)
    requires ChangesBoss(report, former, boss)
    ensures var row, three := NewRow(former.identity), ThreeRows(Waits(report, former), former, boss);
      var two, e := TwoRows(Waits(report, former), boss), Session(former, true, Arriving);
      && Step(two, e, 0, false) == Effect(three, Looking(2, row))
      && Step(three, e.(stage := Looking(2, row)), 0, false) == Effect(three, Writing(2, row, None, None))
      && Step(three, e.(stage := Writing(2, row, None, None)), 0, false) == Effect(three, Querying(2))
      && Step(three, e.(stage := Querying(2)), 0, false) == Effect(three, Filling(2, map[0 := None]))
  {
    FormerSteps(former, boss, Waits(report, former), Session(former, true, Arriving));
    hide Step, ThreeRows;
  }

  lemma FormerMoves(report: SignIn, former: SignIn, boss: SignIn)
    requires ChangesBoss(report, former, boss)
    requires var two := TwoRows(Waits(report, former), boss);
      OvertakenAt(report, former, boss, 3) == Trio(two, report, former, boss, Arriving, Arriving, Arriving)
    ensures var three := ThreeRows(Waits(report, former), former, boss);
      OvertakenAt(report, former, boss, 7) ==
        Trio(three, report, former, boss, Filling(2, map[0 := None]), Arriving, Arriving)
  {
    var two, row := TwoRows(Waits(report, former), boss), NewRow(former.identity);
    var three := ThreeRows(Waits(report, former), former, boss);
    TheFormersSteps(report, former, boss);
    hide Step, Next, OvertakenAt, NewRow, WaitsFor, ThreeRows, TwoRows, Waits, ChangesBoss;
    FormerMovesOnce(report, former, boss, 3, two, Arriving);
    FormerMovesOnce(report, former, boss, 4, three, Looking(2, row));
    FormerMovesOnce(report, former, boss, 5, three, Writing(2, row, None, None));
    FormerMovesOnce(report, former, boss, 6, three, Querying(2));
  }

  lemma FormerMovesOnce(report: SignIn, former: SignIn, boss: SignIn, n: nat, rows: Register, f: Stage)
    requires n < |OvertakenRun(report, former, boss)| && OvertakenRun(report, former, boss)[n] == Move(0, 0, false)
    requires OvertakenAt(report, former, boss, n) == Trio(rows, report, former, boss, f, Arriving, Arriving)
    ensures var effect := Step(rows, Session(former, true, f), 0, false);
      OvertakenAt(report, former, boss, n + 1) ==
        Trio(effect.rows, report, former, boss, effect.stage, Arriving, Arriving)
  {
    TrioMoves(rows, report, former, boss, f, Arriving, Arriving);
    OvertakenNext(report, former, boss, n);
    hide Step, Next;
  }

  lemma ReportIsLinked(report: SignIn, former: SignIn, boss: SignIn)
    requires ChangesBoss(report, former, boss)
    ensures var named, c := Waits(report, boss).(manager := Some(1)), RaceOfThree(report, former, boss);
      && OvertakenAt(report, former, boss, 10) ==
        Trio(ThreeRows(named, former, boss), report, former, boss, Filling(2, map[0 := None]), Querying(0), Arriving)
      && Looks(OvertakenAt(report, former, boss, 8), OvertakenRun(report, former, boss)[8], c)
  {
    FormerLists(report, former, boss);
    var waits, oid := Waits(report, former), Some(boss.identity.oid);
    var three, listed := ThreeRows(waits, former, boss), Filling(2, map[0 := None]);
    ReportSteps(report, former, boss, waits, Session(report, true, Arriving));
    hide Step, Next, OvertakenAt, NewRow, WaitsFor, ThreeRows, HasRow;
    TrioMoves(three, report, former, boss, listed, Arriving, Arriving);
    TrioMoves(three, report, former, boss, listed, Looking(0, waits), Arriving);
    TrioMoves(three, report, former, boss, listed, Writing(0, waits, oid, Some(1)), Arriving);
    OvertakenNext(report, former, boss, 7);
    OvertakenNext(report, former, boss, 8);
    OvertakenNext(report, former, boss, 9);
  }

  lemma NewBossPasses(report: SignIn, former: SignIn, boss: SignIn)
    requires ChangesBoss(report, former, boss)
    ensures var named, c := Waits(report, boss).(manager := Some(1)), RaceOfThree(report, former, boss);
      && OvertakenAt(report, former, boss, 16) ==
        Trio(ThreeRows(named, former, boss), report, former, boss, Filling(2, map[0 := None]), Querying(0), Finished)
      && Queries(OvertakenAt(report, former, boss, 13), OvertakenRun(report, former, boss)[13], c)
  {
    ReportIsLinked(report, former, boss);
    var named, row := Waits(report, boss).(manager := Some(1)), NewRow(boss.identity);
    var three, listed, wrote := ThreeRows(named, former, boss), Filling(2, map[0 := None]), Querying(0);
    BossSteps(former, boss, named, Session(boss, true, Arriving));
    hide Step, Next, OvertakenAt, NewRow, WaitsFor, ThreeRows, Looks;
    TrioMoves(three, report, former, boss, listed, wrote, Arriving);
    TrioMoves(three, report, former, boss, listed, wrote, Looking(1, row));
    TrioMoves(three, report, former, boss, listed, wrote, Writing(1, row, None, None));
    TrioMoves(three, report, former, boss, listed, wrote, Querying(1));
    TrioMoves(three, report, former, boss, listed, wrote, Filling(1, map[0 := Some(1)]));
    TrioMoves(three, report, former, boss, listed, wrote, Filling(1, map[]));
    OvertakenNext(report, former, boss, 10);
    OvertakenNext(report, former, boss, 11);
    OvertakenNext(report, former, boss, 12);
    OvertakenNext(report, former, boss, 13);
    OvertakenNext(report, former, boss, 14);
    OvertakenNext(report, former, boss, 15);
  }

  lemma FormerLinks(report: SignIn, former: SignIn, boss: SignIn)
    requires ChangesBoss(report, former, boss)
    ensures var over := ThreeRows(Waits(report, boss).(manager := Some(2)), former, boss);
      OvertakenAt(report, former, boss, 20) == Trio(over, report, former, boss, Finished, Finished, Finished)
  {
    NewBossPasses(report, former, boss);
    var named := Waits(report, boss).(manager := Some(1));
    var three, listed := ThreeRows(named, former, boss), Filling(2, map[0 := None]);
    var over := ThreeRows(named.(manager := Some(2)), former, boss);
    LastSteps(report, former, boss, named, Session(report, true, Arriving), Session(former, true, Arriving));
    hide Step, Next, OvertakenAt, NewRow, WaitsFor, ThreeRows, Queries;
    TrioMoves(three, report, former, boss, listed, Querying(0), Finished);
    TrioMoves(three, report, former, boss, listed, Filling(0, map[]), Finished);
    TrioMoves(three, report, former, boss, listed, Finished, Finished);
    TrioMoves(over, report, former, boss, Filling(2, map[]), Finished, Finished);
    OvertakenNext(report, former, boss, 16);
    OvertakenNext(report, former, boss, 17);
    OvertakenNext(report, former, boss, 18);
    OvertakenNext(report, former, boss, 19);
  }

  /**
   * With no error and nobody blocked, though the report looked with the new
   * manager's row there and that one queried with the report's write behind:
   * the row names the new manager and is linked to the former one.
   */
  lemma StaleListOvertakesTheNewManager(report: SignIn, former: SignIn, boss: SignIn)
    requires ChangesBoss(report, former, boss)
    ensures var start, run := OvertakenStart(report, former, boss), OvertakenRun(report, former, boss);
      var last, c := WorldAt(start, run, |run|), RaceOfThree(report, former, boss);
      && IsRace(c) && AtTheStart(start, c) && LookedBy(start, run, |run|, c) && QueriedBy(start, run, |run|, c)
      && last.sessions == [Session(former, true, Finished), Session(report, true, Finished),
        Session(boss, true, Finished)]
      && HasRow(last.rows.people, report.identity) && HasRow(last.rows.people, former.identity)
      && last.rows.people[RowOf(last.rows.people, report.identity)] ==
        Waits(report, boss).(manager := Some(RowOf(last.rows.people, former.identity)))
  {
    ReportIsLinked(report, former, boss);
    NewBossPasses(report, former, boss);
    FormerLinks(report, former, boss);
    OvertakenIsARace(report, former, boss);
    OvertakenRows(report, former, boss);
    OvertakenIsSeen(report, former, boss);
    assert |OvertakenRun(report, former, boss)| == 20;
    hide Next, Looks, Queries, WorldAt, IsRace, AtTheStart, OvertakenRun, Waits, ThreeRows, HasRow, ChangesBoss;
  }

  lemma OvertakenIsARace(report: SignIn, former: SignIn, boss: SignIn)
    requires ChangesBoss(report, former, boss)
    ensures IsRace(RaceOfThree(report, former, boss))
    ensures AtTheStart(OvertakenStart(report, former, boss), RaceOfThree(report, former, boss))
  {}

  lemma OvertakenRows(report: SignIn, former: SignIn, boss: SignIn)
    requires ChangesBoss(report, former, boss)
    ensures var people := ThreeRows(Waits(report, boss).(manager := Some(2)), former, boss).people;
      && HasRow(people, report.identity) && HasRow(people, former.identity)
      && people[RowOf(people, report.identity)] == Waits(report, boss).(manager := Some(RowOf(people, former.identity)))
  {
    var people := ThreeRows(Waits(report, boss).(manager := Some(2)), former, boss).people;
    assert people[0].identity == Some(report.identity) && people[2].identity == Some(former.identity);
  }

  lemma OvertakenIsSeen(report: SignIn, former: SignIn, boss: SignIn)
    requires var run, c := OvertakenRun(report, former, boss), RaceOfThree(report, former, boss);
      Looks(OvertakenAt(report, former, boss, 8), run[8], c) &&
        Queries(OvertakenAt(report, former, boss, 13), run[13], c)
    ensures var start, run := OvertakenStart(report, former, boss), OvertakenRun(report, former, boss);
      var c := RaceOfThree(report, former, boss);
      LookedBy(start, run, |run|, c) && QueriedBy(start, run, |run|, c)
  {
    hide Looks, Queries, WorldAt;
  }
}

/**
 * The retry tier of the due withdrawals (cron/scheduled-publish.ts,
 * retryWithdrawals): a walk over the failing draft rows in id order, from a
 * stored cursor, wrapping once, with a bound on the rows examined and one on
 * the rows picked; and the fairness bound the module comment promises.
 */
module RetryTier {
  import opened Common
  import opened Attempts
  import opened Documents

  datatype DraftRow = DraftRow(id: nat, documentId: string, publishAt: Option<int>)

  /**
   * What one run reads of a type: its draft rows with a passed `unpublishAt`
   * and a `scheduleError`, in id order, the documents with a published row,
   * the revisions, and the run's clock and backoffs; and the run's limits, the
   * rows it may examine (200 in the source) and those it may pick (10).
   */
  datatype Snapshot = Snapshot(
    uid: Uid,
    rows: seq<DraftRow>,
    published: set<string>,
    revisions: map<string, nat>,
    withdrawals: seq<Kept<Ref, Deferral>>,
    now: int,
    scan: nat,
    quota: nat)

  /** Row ids are positive and ascending; the scan limit is at least the quota. */
  ghost predicate Valid(s: Snapshot) {
    && 0 < s.quota <= s.scan
    && (forall i :: 0 <= i < |s.rows| ==> 0 < s.rows[i].id)
    && (forall i, j :: 0 <= i < j < |s.rows| ==> s.rows[i].id < s.rows[j].id)
  }

  function RevisionOf(s: Snapshot, documentId: string): nat {
    if documentId in s.revisions then s.revisions[documentId] else 0
  }

  /** Whether the walk picks the row when it examines it. */
  predicate Attemptable(s: Snapshot, row: DraftRow) {
    && row.documentId != ""
    && (row.documentId in s.published || row.publishAt.None?)
    && BackoffOver(s.withdrawals, Ref(s.uid, row.documentId), s.now, RevisionOf(s, row.documentId))
  }

  // ---------------------------------------------------------------------
  // The queries.

  predicate InRange(id: nat, after: nat, upTo: Option<nat>) {
    after < id && (upTo.Some? ==> id <= upTo.value)
  }

  function Matching(rows: seq<DraftRow>, after: nat, upTo: Option<nat>): seq<DraftRow> {
    if rows == [] then []
    else (if InRange(rows[0].id, after, upTo) then [rows[0]] else []) + Matching(rows[1..], after, upTo)
  }

  /** `findMany`: the matching rows in id order, at most `limit`. */
  function FindMany(rows: seq<DraftRow>, after: nat, upTo: Option<nat>, limit: nat): seq<DraftRow> {
    var all := Matching(rows, after, upTo);
    if |all| <= limit then all else all[..limit]
  }

  // ---------------------------------------------------------------------
  // The walk, as a function of the stored cursor.

  /** How many rows have an id up to the cursor. */
  function Passed(rows: seq<DraftRow>, cursor: nat): (n: nat)
    ensures n <= |rows|
  {
    if rows == [] || cursor < rows[0].id then 0 else 1 + Passed(rows[1..], cursor)
  }

  /** The rows in the order a walk from `cursor` meets them. */
  function Circle(rows: seq<DraftRow>, cursor: nat): seq<DraftRow> {
    rows[Passed(rows, cursor)..] + rows[..Passed(rows, cursor)]
  }

  /** How many rows of `circle` a walk with these budgets examines. */
  function Examine(s: Snapshot, circle: seq<DraftRow>, scan: nat, quota: nat): (n: nat)
    ensures n <= |circle| && n <= scan
  {
    if circle == [] || scan == 0 || quota == 0 then 0
    else 1 + Examine(s, circle[1..], scan - 1, if Attemptable(s, circle[0]) then quota - 1 else quota)
  }

  /** The documents picked among the examined rows, in order. */
  function Picks(s: Snapshot, examined: seq<DraftRow>): seq<string> {
    if examined == [] then []
    else
      Picks(s, examined[..|examined| - 1]) +
      (var row := examined[|examined| - 1]; if Attemptable(s, row) then [row.documentId] else [])
  }

  function ExaminedRows(s: Snapshot, cursor: nat): seq<DraftRow> {
    var circle := Circle(s.rows, cursor);
    circle[..Examine(s, circle, s.scan, s.quota)]
  }

  /** The last examined row when a budget ran out, else the start. */
  function NextCursor(s: Snapshot, cursor: nat): nat {
    var examined := ExaminedRows(s, cursor);
    if |examined| == s.scan || |Picks(s, examined)| == s.quota
    then if examined == [] then 0 else examined[|examined| - 1].id
    else 0
  }

  lemma PassedSplits(rows: seq<DraftRow>, cursor: nat)
    requires forall i, j :: 0 <= i < j < |rows| ==> rows[i].id < rows[j].id
    ensures forall i :: 0 <= i < Passed(rows, cursor) ==> rows[i].id <= cursor
    ensures forall i :: Passed(rows, cursor) <= i < |rows| ==> cursor < rows[i].id
  {
    if rows != [] && rows[0].id <= cursor {
      PassedSplits(rows[1..], cursor);
      assert forall i :: 0 < i < |rows| ==> rows[i] == rows[1..][i - 1];
    }
  }

  lemma {:induction false} MatchingIsSlice(rows: seq<DraftRow>, after: nat, upTo: Option<nat>, lo: nat, hi: nat)
    requires lo <= hi <= |rows|
    requires forall i :: 0 <= i < |rows| ==> (InRange(rows[i].id, after, upTo) <==> lo <= i < hi)
    ensures Matching(rows, after, upTo) == rows[lo..hi]
  {
    if rows != [] {
      var rest := rows[1..];
      assert forall i :: 0 <= i < |rest| ==> rest[i] == rows[i + 1];
      if lo == 0 < hi {
        MatchingIsSlice(rest, after, upTo, 0, hi - 1);
        assert rows[0..hi] == [rows[0]] + rest[0..hi - 1];
      } else if lo == 0 {
        MatchingIsSlice(rest, after, upTo, 0, 0);
      } else {
        MatchingIsSlice(rest, after, upTo, lo - 1, hi - 1);
        assert rows[lo..hi] == rest[lo - 1..hi - 1];
      }
    }
  }

  /** The two pages a run reads are the two arcs of the circle. */
  lemma PagesAreArcs(s: Snapshot, start: nat)
    requires Valid(s)
    ensures Matching(s.rows, start, None) == s.rows[Passed(s.rows, start)..]
    ensures Matching(s.rows, 0, Some(start)) == s.rows[..Passed(s.rows, start)]
    ensures Passed(s.rows, 0) == 0
  {
    var p := Passed(s.rows, start);
    PassedSplits(s.rows, start);
    MatchingIsSlice(s.rows, start, None, p, |s.rows|);
    assert s.rows[p..|s.rows|] == s.rows[p..];
    MatchingIsSlice(s.rows, 0, Some(start), 0, p);
    assert s.rows[0..p] == s.rows[..p];
  }

  /** The walk so far: `examined` rows of the circle, and what they gave. */
  ghost predicate Walked(s: Snapshot, circle: seq<DraftRow>, examined: nat, picked: seq<string>) {
    && examined <= |circle| && examined <= s.scan && |picked| <= s.quota
    && picked == Picks(s, circle[..examined])
    && Examine(s, circle, s.scan, s.quota) == examined +
      Examine(s, circle[examined..], s.scan - examined, s.quota - |picked|)
  }

  predicate BudgetLeft(s: Snapshot, examined: nat, picked: seq<string>) {
    examined < s.scan && |picked| < s.quota
  }

  lemma OneMore(s: Snapshot, circle: seq<DraftRow>, examined: nat, picked: seq<string>)
    requires Walked(s, circle, examined, picked) && BudgetLeft(s, examined, picked) && examined < |circle|
    ensures var row := circle[examined];
      Walked(s, circle, examined + 1, if Attemptable(s, row) then picked + [row.documentId] else picked)
  {
    hide Attemptable;
    assert circle[examined..][1..] == circle[examined + 1..];
    assert circle[..examined + 1][..examined] == circle[..examined];
  }

  /** Where the arc before (or, `wrapped`, after) the wrap starts on the circle, and where it ends. */
  function ArcStart(s: Snapshot, start: nat, wrapped: bool): nat {
    if wrapped then |s.rows| - Passed(s.rows, start) else 0
  }

  function ArcEnd(s: Snapshot, start: nat, wrapped: bool): nat {
    if wrapped then |s.rows| else |s.rows| - Passed(s.rows, start)
  }

  /** One query: the next rows of the circle from `start`, up to the end of the arc. */
  method ReadPage(s: Snapshot, start: nat, wrapped: bool, cursor: nat, limit: nat) returns (rows: seq<DraftRow>)
    requires Valid(s) && cursor == if wrapped then 0 else start
    ensures ArcStart(s, start, wrapped) <= ArcEnd(s, start, wrapped) <= |s.rows|
    ensures rows <= Circle(s.rows, start)[ArcStart(s, start, wrapped)..]
    ensures |rows| == Min(ArcEnd(s, start, wrapped) - ArcStart(s, start, wrapped), limit)
  {
    rows := FindMany(s.rows, cursor, if wrapped then Some(start) else None, limit);
    PagesAreArcs(s, start);
  }

  /**
   * One pass of the outer loop: a page, and every row of it until the quota
   * is full. `end` says that it read the last row of its arc with both
   * budgets left.
   */
  method WalkPage(s: Snapshot, start: nat, wrapped: bool, examined0: nat, cursor0: nat, picked0: seq<string>)
    returns (examined: nat, cursor: nat, picked: seq<string>, end: bool)
    requires Valid(s) && Walked(s, Circle(s.rows, start), examined0, picked0) && BudgetLeft(s, examined0, picked0)
    requires examined0 == ArcStart(s, start, wrapped) && cursor0 == if wrapped then 0 else start
    ensures Walked(s, Circle(s.rows, start), examined, picked)
    ensures end ==> BudgetLeft(s, examined, picked) && examined == ArcEnd(s, start, wrapped)
    ensures !end ==>
      !BudgetLeft(s, examined, picked) && 0 < examined && cursor == Circle(s.rows, start)[examined - 1].id
  {
    hide Attemptable, Passed, Matching, Picks, Examine, Circle;
    ghost var circle := Circle(s.rows, start);
    var limit := s.scan - examined0;
    var rows := ReadPage(s, start, wrapped, cursor0, limit);
    examined, cursor, picked := examined0, cursor0, picked0;
    for i := 0 to |rows|
      invariant Walked(s, circle, examined, picked) && examined == examined0 + i
      invariant |picked| < s.quota
      invariant 0 < i ==> cursor == circle[examined - 1].id
    {
      assert rows[i] == circle[examined0..][i] == circle[examined];
      OneMore(s, circle, examined, picked);
      examined := examined + 1;
      cursor := rows[i].id;
      if Attemptable(s, rows[i]) {
        picked := picked + [rows[i].documentId];
        if |picked| == s.quota {
          return examined, cursor, picked, false;
        }
      }
    }
    end := |rows| < limit;
  }

  lemma WalkEnds(s: Snapshot, start: nat, examined: nat, picked: seq<string>)
    requires Walked(s, Circle(s.rows, start), examined, picked)
    requires !BudgetLeft(s, examined, picked) || examined == |s.rows|
    ensures ExaminedRows(s, start) == Circle(s.rows, start)[..examined]
    ensures picked == Picks(s, ExaminedRows(s, start))
    ensures BudgetLeft(s, examined, picked) ==> NextCursor(s, start) == 0
    ensures !BudgetLeft(s, examined, picked) && 0 < examined ==>
      NextCursor(s, start) == Circle(s.rows, start)[examined - 1].id
  {
    hide Attemptable;
  }

  lemma NothingWalked(s: Snapshot, start: nat)
    ensures Walked(s, Circle(s.rows, start), 0, [])
  {
    hide Attemptable, Circle;
    assert Circle(s.rows, start)[0..] == Circle(s.rows, start);
  }

  /** The run: reads the pages, walks them, stores the cursor. */
  method RetryWithdrawals(attempts: TransientAttempts, s: Snapshot) returns (picked: seq<string>)
    requires Valid(s) && s.withdrawals == attempts.withdrawals
    modifies attempts`cursors
    ensures picked == Picks(s, ExaminedRows(s, old(attempts.CursorOf(s.uid))))
    ensures attempts.cursors == old(attempts.cursors)[s.uid := NextCursor(s, old(attempts.CursorOf(s.uid)))]
  {
    hide Attemptable, Passed, Matching, Picks, Examine, Circle, ExaminedRows, NextCursor;
    var start := attempts.CursorOf(s.uid);
    var cursor, examined, wrapped, end := start, 0, false, false;
    picked := [];
    NothingWalked(s, start);
    while BudgetLeft(s, examined, picked)
      invariant Walked(s, Circle(s.rows, start), examined, picked)
      invariant BudgetLeft(s, examined, picked) ==>
        examined == ArcStart(s, start, wrapped) && cursor == if wrapped then 0 else start
      invariant !BudgetLeft(s, examined, picked) ==> 0 < examined && cursor == Circle(s.rows, start)[examined - 1].id
      invariant attempts.cursors == old(attempts.cursors)
      decreases BudgetLeft(s, examined, picked), !wrapped
    {
      examined, cursor, picked, end := WalkPage(s, start, wrapped, examined, cursor, picked);
      if end {
        cursor := 0;
        if wrapped || start == 0 {
          PagesAreArcs(s, start);
          break;
        }
        wrapped := true;
      }
    }
    WalkEnds(s, start, examined, picked);
    attempts.cursors := attempts.cursors[s.uid := cursor];
  }

  // ---------------------------------------------------------------------
  // Fairness.

  ghost function Ids(rows: seq<DraftRow>): set<nat> {
    set i | 0 <= i < |rows| :: rows[i].id
  }

  /** Whether a walk that left the cursor at `from` meets `id` no later than `to`. */
  predicate OnArc(from: nat, to: nat, id: nat) {
    if from < to then from < id <= to else from < id || id <= to
  }

  /** The rows a walk from `cursor` meets up to and including `x`. */
  ghost function Ahead(s: Snapshot, cursor: nat, x: nat): set<nat> {
    set id | id in Ids(s.rows) && OnArc(cursor, x, id)
  }

  /** The circle holds every row, each met before the ones after it. */
  lemma CircleOrder(s: Snapshot, cursor: nat, i: nat, k: nat)
    requires Valid(s) && i < k < |s.rows|
    ensures var circle := Circle(s.rows, cursor);
      circle[i].id != circle[k].id && OnArc(cursor, circle[k].id, circle[i].id)
  {
    var p, n := Passed(s.rows, cursor), |s.rows|;
    PassedSplits(s.rows, cursor);
    var i', k' := if i < n - p then i + p else i - (n - p), if k < n - p then k + p else k - (n - p);
    assert Circle(s.rows, cursor)[i] == s.rows[i'] && Circle(s.rows, cursor)[k] == s.rows[k'];
  }

  lemma CircleIds(s: Snapshot, cursor: nat)
    ensures Ids(Circle(s.rows, cursor)) == Ids(s.rows)
  {
    var p, n, circle := Passed(s.rows, cursor), |s.rows|, Circle(s.rows, cursor);
    forall i | 0 <= i < n ensures s.rows[i].id in Ids(circle) {
      assert circle[if p <= i then i - p else i + n - p] == s.rows[i];
    }
    forall i | 0 <= i < n ensures circle[i].id in Ids(s.rows) {
      assert circle[i] == s.rows[if i < n - p then i + p else i - (n - p)];
    }
  }

  lemma DistinctIds(rows: seq<DraftRow>)
    requires forall i, j :: 0 <= i < j < |rows| ==> rows[i].id != rows[j].id
    ensures |Ids(rows)| == |rows|
  {
    if rows == [] {
      assert Ids(rows) == {};
    } else {
      var last := |rows| - 1;
      DistinctIds(rows[..last]);
      assert Ids(rows) == Ids(rows[..last]) + {rows[last].id};
    }
  }

  lemma {:induction false} PicksOf(s: Snapshot, rows: seq<DraftRow>)
    ensures |Picks(s, rows)| <= |rows|
    ensures forall d :: d in Picks(s, rows) <==>
      exists i :: 0 <= i < |rows| && Attemptable(s, rows[i]) && rows[i].documentId == d
  {
    if rows != [] {
      PicksOf(s, rows[..|rows| - 1]);
    }
  }

  /** How a walk ends: the circle is done, or a budget is. */
  lemma {:induction false} ExamineEnds(s: Snapshot, circle: seq<DraftRow>, scan: nat, quota: nat)
    ensures var n := Examine(s, circle, scan, quota);
      && |Picks(s, circle[..n])| <= quota
      && (n == |circle| || n == scan || |Picks(s, circle[..n])| == quota)
  {
    hide Attemptable;
    var n := Examine(s, circle, scan, quota);
    if circle != [] && scan != 0 && quota != 0 {
      ExamineEnds(s, circle[1..], scan - 1, if Attemptable(s, circle[0]) then quota - 1 else quota);
      PicksOfCons(s, circle[0], circle[1..][..n - 1]);
      assert circle[..n] == [circle[0]] + circle[1..][..n - 1];
    } else {
      assert circle[..0] == [];
    }
  }

  lemma {:induction false} PicksOfCons(s: Snapshot, row: DraftRow, rest: seq<DraftRow>)
    ensures Picks(s, [row] + rest) == (if Attemptable(s, row) then [row.documentId] else []) + Picks(s, rest)
  {
    hide Attemptable;
    var rows := [row] + rest;
    if rest == [] {
      assert rows[..0] == [];
    } else {
      PicksOfCons(s, row, rest[..|rest| - 1]);
      assert rows[..|rows| - 1] == [row] + rest[..|rest| - 1];
    }
  }

  /** No run examines a row twice or exceeds a budget, and it picks exactly the attemptable rows it examined. */
  lemma RunStaysInBudget(s: Snapshot, cursor: nat)
    requires Valid(s)
    ensures var examined := ExaminedRows(s, cursor);
      && |Ids(examined)| == |examined| <= s.scan
      && Ids(examined) <= Ids(s.rows)
      && |Picks(s, examined)| <= s.quota
      && forall d :: d in Picks(s, examined) <==>
        exists i :: 0 <= i < |examined| && Attemptable(s, examined[i]) && examined[i].documentId == d
  {
    var circle, examined := Circle(s.rows, cursor), ExaminedRows(s, cursor);
    forall i, k | 0 <= i < k < |examined| ensures examined[i].id != examined[k].id {
      CircleOrder(s, cursor, i, k);
    }
    DistinctIds(examined);
    CircleIds(s, cursor);
    ExamineEnds(s, circle, s.scan, s.quota);
    PicksOf(s, examined);
    assert forall i :: 0 <= i < |examined| ==> examined[i] == circle[i];
  }

  /** A run that does not reach `x` stopped on a budget, at a row met before `x`. */
  lemma StopsShort(s: Snapshot, cursor: nat, x: nat)
    requires Valid(s) && x in Ids(s.rows) && x !in Ids(ExaminedRows(s, cursor))
    ensures var examined := ExaminedRows(s, cursor);
      && s.quota <= |examined|
      && NextCursor(s, cursor) == examined[|examined| - 1].id
      && (forall i :: 0 <= i < |examined| ==> OnArc(cursor, x, examined[i].id) && examined[i].id != x)
  {
    hide Attemptable, Picks, Examine, OnArc, Passed;
    var circle, examined := Circle(s.rows, cursor), ExaminedRows(s, cursor);
    CircleIds(s, cursor);
    ExamineEnds(s, circle, s.scan, s.quota);
    PicksOf(s, examined);
    assert forall i :: 0 <= i < |examined| ==> examined[i].id in Ids(examined) && examined[i] == circle[i];
    var k :| 0 <= k < |circle| && circle[k].id == x;
    forall i | 0 <= i < |examined| ensures OnArc(cursor, x, examined[i].id) && examined[i].id != x {
      CircleOrder(s, cursor, i, k);
    }
  }

  /** So it leaves at least a quota of rows behind on the way to `x`. */
  lemma Advance(s: Snapshot, cursor: nat, x: nat)
    requires Valid(s) && x in Ids(s.rows) && x !in Ids(ExaminedRows(s, cursor))
    ensures 0 < |Ahead(s, NextCursor(s, cursor), x)|
    ensures |Ahead(s, NextCursor(s, cursor), x)| + s.quota <= |Ahead(s, cursor, x)|
  {
    var examined, next := ExaminedRows(s, cursor), NextCursor(s, cursor);
    var before, after := Ahead(s, cursor, x), Ahead(s, next, x);
    StopsShort(s, cursor, x);
    RunStaysInBudget(s, cursor);
    forall id | id in Ids(examined) ensures id in before && id !in after {
      var i :| 0 <= i < |examined| && examined[i].id == id;
      ExaminedInOrder(s, cursor, i);
    }
    assert x in after;
    assert |after + Ids(examined)| == |after| + |Ids(examined)|;
    Subset(after + Ids(examined), before);
  }

  lemma ExaminedInOrder(s: Snapshot, cursor: nat, i: nat)
    requires Valid(s) && i < |ExaminedRows(s, cursor)|
    ensures var examined := ExaminedRows(s, cursor);
      var last := examined[|examined| - 1].id;
      examined[i].id == last || OnArc(cursor, last, examined[i].id)
  {
    var last := |ExaminedRows(s, cursor)| - 1;
    if i < last {
      CircleOrder(s, cursor, i, last);
    }
  }

  lemma Subset(a: set<nat>, b: set<nat>)
    requires a <= b
    ensures |a| <= |b|
  {
    assert |b| == |a| + |b - a| by { assert b == a + (b - a); }
  }

  /** Consecutive runs at one quota: each starts at the cursor the last one left, and no failing row is added. */
  ghost predicate Consecutive(runs: seq<Snapshot>, cursors: seq<nat>) {
    && |cursors| == |runs|
    && (forall i :: 0 <= i < |runs| ==> Valid(runs[i]) && runs[i].quota == runs[0].quota)
    && (forall i :: 0 < i < |runs| ==>
      cursors[i] == NextCursor(runs[i - 1], cursors[i - 1]) && Ids(runs[i].rows) <= Ids(runs[i - 1].rows))
  }

  lemma {:induction false} StillAhead(runs: seq<Snapshot>, cursors: seq<nat>, x: nat, j: nat)
    requires Consecutive(runs, cursors) && j < |runs|
    requires forall i :: 0 <= i <= j ==> x in Ids(runs[i].rows)
    requires forall i :: 0 <= i < j ==> x !in Ids(ExaminedRows(runs[i], cursors[i]))
    ensures |Ahead(runs[j], cursors[j], x)| + j * runs[0].quota <= |Ids(runs[0].rows)|
  {
    if j == 0 {
      Subset(Ahead(runs[0], cursors[0], x), Ids(runs[0].rows));
    } else {
      StillAhead(runs, cursors, x, j - 1);
      OneMoreRun(j, runs[0].quota);
      FewerAhead(runs[j], runs[j - 1], cursors[j], x);
      hide Ahead, ExaminedRows, NextCursor, Ids, Valid;
      Advance(runs[j - 1], cursors[j - 1], x);
    }
  }

  lemma FewerAhead(s: Snapshot, before: Snapshot, cursor: nat, x: nat)
    requires Ids(s.rows) <= Ids(before.rows)
    ensures |Ahead(s, cursor, x)| <= |Ahead(before, cursor, x)|
  {
    Subset(Ahead(s, cursor, x), Ahead(before, cursor, x));
  }

  /** The runs after which N failing rows have all been examined: N / QUOTA, rounded up. */
  function RunsFor(n: nat, quota: nat): nat
    requires 0 < quota
  {
    (n + quota - 1) / quota
  }

  lemma RunsCover(n: nat, quota: nat, runs: nat)
    requires 0 < quota && RunsFor(n, quota) <= runs
    ensures n <= runs * quota
  {
    var k := RunsFor(n, quota);
    assert n + quota - 1 == k * quota + (n + quota - 1) % quota;
    assert k * quota <= runs * quota;
  }

  lemma OneMoreRun(runs: nat, quota: nat)
    requires 0 < runs
    ensures runs * quota == (runs - 1) * quota + quota
  {}

  /**
   * Retry fairness: from any stored cursor, a row that keeps failing is
   * examined by one of the next N / QUOTA runs (rounded up), as long as no failing row is added.
   */
  lemma EveryFailureIsExamined(runs: seq<Snapshot>, cursors: seq<nat>, x: nat) returns (i: nat)
    requires Consecutive(runs, cursors) && 0 < |runs|
    requires RunsFor(|Ids(runs[0].rows)|, runs[0].quota) <= |runs|
    requires forall i :: 0 <= i < |runs| ==> x in Ids(runs[i].rows)
    ensures i < |runs| && x in Ids(ExaminedRows(runs[i], cursors[i]))
  {
    if forall i :: 0 <= i < |runs| ==> x !in Ids(ExaminedRows(runs[i], cursors[i])) {
      var last := |runs| - 1;
      StillAhead(runs, cursors, x, last);
      OneMoreRun(|runs|, runs[0].quota);
      RunsCover(|Ids(runs[0].rows)|, runs[0].quota, |runs|);
      Advance(runs[last], cursors[last], x);
    }
    i :| 0 <= i < |runs| && x in Ids(ExaminedRows(runs[i], cursors[i]));
  }

  /** So a failing withdrawal whose backoff stays over is attempted within that many runs. */
  lemma EveryReadyFailureIsPicked(runs: seq<Snapshot>, cursors: seq<nat>, documentId: string, x: nat) returns (i: nat)
    requires Consecutive(runs, cursors) && 0 < |runs|
    requires RunsFor(|Ids(runs[0].rows)|, runs[0].quota) <= |runs|
    requires forall i :: 0 <= i < |runs| ==>
      exists k :: 0 <= k < |runs[i].rows| && runs[i].rows[k].id == x &&
        runs[i].rows[k].documentId == documentId && Attemptable(runs[i], runs[i].rows[k])
    ensures i < |runs| && documentId in Picks(runs[i], ExaminedRows(runs[i], cursors[i]))
  {
    forall i | 0 <= i < |runs| ensures x in Ids(runs[i].rows) {
      var k :| 0 <= k < |runs[i].rows| && runs[i].rows[k].id == x;
    }
    i := EveryFailureIsExamined(runs, cursors, x);
    var s, examined := runs[i], ExaminedRows(runs[i], cursors[i]);
    var j :| 0 <= j < |examined| && examined[j].id == x;
    assert examined[j] in s.rows;
    PicksOf(s, examined);
  }
}

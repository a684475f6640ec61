/**
 * Notification retention (apps/cms/src/cron/prune-notifications.ts): the age
 * rule, the where clause that stands for it in the database, and the paged
 * delete.
 */
module Notifications {
  import opened Common

  const DAY: int := 86400000
  const RETENTION_DAYS: int := 90
  const UNREAD_RETENTION_DAYS: int := 180
  const BATCH: nat := 500
  const MAX_BATCHES: nat := 200

  /** A stored row; instants in milliseconds. */
  datatype Row = Row(
    id: nat, readAt: Option<int>, createdAt: Option<int>, sourceType: Option<string>, sourceDocumentId: Option<string>)

  datatype Cutoffs = Cutoffs(read: int, unread: int)

  function CutoffsAt(now: int): Cutoffs {
    Cutoffs(now - RETENTION_DAYS * DAY, now - UNREAD_RETENTION_DAYS * DAY)
  }

  // ---------------------------------------------------------------------
  // The rule.

  predicate IsAgedOut(row: Row, cutoffs: Cutoffs) {
    row.createdAt.Some? &&
    match row.readAt
    case None => row.createdAt.value < cutoffs.unread
    case Some(readAt) => readAt < cutoffs.read && row.createdAt.value < cutoffs.read
  }

  /** A row of the fan-out's ledger, which is never pruned here. */
  predicate IsAnchored(row: Row) {
    row.sourceType.Some? || row.sourceDocumentId.Some?
  }

  predicate IsPrunable(row: Row, cutoffs: Cutoffs) {
    !IsAnchored(row) && IsAgedOut(row, cutoffs)
  }

  /**
   * The rule at an instant: no fan-out row; read more than ninety days ago and
   * created before that, or unread and created more than a hundred and eighty
   * days ago.
   */
  lemma PrunableExactlyWhen(row: Row, now: int)
    ensures var day := 24 * 60 * 60 * 1000;
      IsPrunable(row, CutoffsAt(now)) <==>
        && row.sourceType.None? && row.sourceDocumentId.None? && row.createdAt.Some?
        && if row.readAt.Some? then 90 * day < now - row.readAt.value && 90 * day < now - row.createdAt.value
           else 180 * day < now - row.createdAt.value
  {}

  // ---------------------------------------------------------------------
  // The where clause, in SQL's three truth values.

  datatype Truth = True | False | Null
  datatype Column = ReadAt | CreatedAt | SourceType | SourceDocumentId

  datatype Where =
    | And(left: Where, right: Where)
    | Or(left: Where, right: Where)
    | IsNull(column: Column)
    | NotNull(column: Column)
    | Before(column: Column, instant: int)

  function Both(a: Truth, b: Truth): Truth {
    if a == False || b == False then False else if a == Null || b == Null then Null else True
  }

  function Either(a: Truth, b: Truth): Truth {
    if a == True || b == True then True else if a == Null || b == Null then Null else False
  }

  function TruthOf(b: bool): Truth {
    if b then True else False
  }

  predicate HasValue(row: Row, column: Column) {
    match column
    case ReadAt => row.readAt.Some?
    case CreatedAt => row.createdAt.Some?
    case SourceType => row.sourceType.Some?
    case SourceDocumentId => row.sourceDocumentId.Some?
  }

  function InstantOf(row: Row, column: Column): Option<int> {
    match column
    case ReadAt => row.readAt
    case CreatedAt => row.createdAt
    case _ => None
  }

  /** A comparison with NULL is neither true nor false. */
  function Eval(w: Where, row: Row): Truth {
    match w
    case And(left, right) => Both(Eval(left, row), Eval(right, row))
    case Or(left, right) => Either(Eval(left, row), Eval(right, row))
    case IsNull(column) => TruthOf(!HasValue(row, column))
    case NotNull(column) => TruthOf(HasValue(row, column))
    case Before(column, instant) =>
      var at := InstantOf(row, column);
      if at.None? then Null else TruthOf(at.value < instant)
  }

  function AgedOutWhere(cutoffs: Cutoffs): Where {
    Or(And(NotNull(ReadAt), And(Before(ReadAt, cutoffs.read), Before(CreatedAt, cutoffs.read))),
       And(IsNull(ReadAt), Before(CreatedAt, cutoffs.unread)))
  }

  const UNANCHORED_WHERE: Where := And(IsNull(SourceType), IsNull(SourceDocumentId))

  function PrunableWhere(cutoffs: Cutoffs): Where {
    And(AgedOutWhere(cutoffs), UNANCHORED_WHERE)
  }

  /** The database selects a row exactly when the rule holds of it. */
  lemma WhereMeansTheRule(row: Row, cutoffs: Cutoffs)
    ensures Eval(PrunableWhere(cutoffs), row) == True <==> IsPrunable(row, cutoffs)
    ensures Eval(AgedOutWhere(cutoffs), row) == True <==> IsAgedOut(row, cutoffs)
  {
    var early := And(Before(ReadAt, cutoffs.read), Before(CreatedAt, cutoffs.read));
    var read, unread := And(NotNull(ReadAt), early), And(IsNull(ReadAt), Before(CreatedAt, cutoffs.unread));
    assert Eval(early, row) == Both(Eval(Before(ReadAt, cutoffs.read), row),
      Eval(Before(CreatedAt, cutoffs.read), row));
    assert Eval(read, row) == Both(TruthOf(row.readAt.Some?), Eval(early, row));
    assert Eval(unread, row) == Both(TruthOf(row.readAt.None?), Eval(Before(CreatedAt, cutoffs.unread), row));
    assert Eval(Or(read, unread), row) == Either(Eval(read, row), Eval(unread, row));
    assert Eval(UNANCHORED_WHERE, row) == TruthOf(!IsAnchored(row));
  }

  // ---------------------------------------------------------------------
  // Lists of rows in id order.

  ghost predicate InIdOrder(rows: seq<Row>) {
    forall i, j :: 0 <= i < j < |rows| ==> rows[i].id < rows[j].id
  }

  /** The rows a page query matches: the clause and an id after the cursor. */
  function Matching(rows: seq<Row>, w: Where, after: nat): seq<Row> {
    if rows == [] then []
    else
      var rest := Matching(rows[1..], w, after);
      if Eval(w, rows[0]) == True && after < rows[0].id then [rows[0]] + rest else rest
  }

  function Page(rows: seq<Row>, w: Where, after: nat): (page: seq<Row>)
    ensures |page| <= BATCH
  {
    var all := Matching(rows, w, after);
    if |all| <= BATCH then all else all[..BATCH]
  }

  function IdsOf(rows: seq<Row>): set<nat> {
    set i | 0 <= i < |rows| :: rows[i].id
  }

  /** The rows whose id is not in the set. */
  function Remove(rows: seq<Row>, ids: set<nat>): seq<Row> {
    if rows == [] then []
    else
      var rest := Remove(rows[1..], ids);
      if rows[0].id in ids then rest else [rows[0]] + rest
  }

  /** `deleteMany` of these ids where the clause still holds. */
  function Delete(rows: seq<Row>, ids: set<nat>, w: Where): (left: seq<Row>)
    ensures |left| <= |rows|
  {
    if rows == [] then []
    else
      var rest := Delete(rows[1..], ids, w);
      if rows[0].id in ids && Eval(w, rows[0]) == True then rest else [rows[0]] + rest
  }

  /** The rows the rule prunes, in id order. */
  function Prunable(rows: seq<Row>, cutoffs: Cutoffs): seq<Row> {
    if rows == [] then []
    else
      var rest := Prunable(rows[1..], cutoffs);
      if IsPrunable(rows[0], cutoffs) then [rows[0]] + rest else rest
  }

  lemma {:induction false} PageIsTheFirstPrunable(rows: seq<Row>, cutoffs: Cutoffs, after: nat)
    requires forall row :: row in Prunable(rows, cutoffs) ==> after < row.id
    ensures Matching(rows, PrunableWhere(cutoffs), after) == Prunable(rows, cutoffs)
  {
    hide PrunableWhere, IsPrunable, Eval;
    if rows != [] {
      WhereMeansTheRule(rows[0], cutoffs);
      forall row | row in Prunable(rows[1..], cutoffs)
        ensures row in Prunable(rows, cutoffs)
      {}
      PageIsTheFirstPrunable(rows[1..], cutoffs, after);
      if IsPrunable(rows[0], cutoffs) { assert Prunable(rows, cutoffs)[0] == rows[0]; }
    }
  }

  lemma {:induction false} PrunableMembers(rows: seq<Row>, cutoffs: Cutoffs)
    ensures forall row :: row in Prunable(rows, cutoffs) <==> row in rows && IsPrunable(row, cutoffs)
  {
    hide IsPrunable;
    if rows != [] {
      PrunableMembers(rows[1..], cutoffs);
    }
  }

  lemma {:induction false} PrunableInOrder(rows: seq<Row>, cutoffs: Cutoffs)
    requires InIdOrder(rows)
    ensures InIdOrder(Prunable(rows, cutoffs))
  {
    hide IsPrunable;
    if rows != [] {
      PrunableInOrder(rows[1..], cutoffs);
      PrunableMembers(rows[1..], cutoffs);
      var rest := Prunable(rows[1..], cutoffs);
      forall i | 0 <= i < |rest|
        ensures rows[0].id < rest[i].id
      {
        assert rest[i] in rest;
        var k :| 0 <= k < |rows[1..]| && rows[1..][k] == rest[i];
        assert rows[k + 1] == rest[i];
      }
    }
  }

  /** A delete takes the prunable rows among its ids, in the state it finds, and nothing else. */
  lemma {:induction false} DeleteTakesOnlyPrunable(rows: seq<Row>, ids: set<nat>, cutoffs: Cutoffs)
    ensures forall row :: row in rows && row !in Delete(rows, ids, PrunableWhere(cutoffs)) ==>
      IsPrunable(row, cutoffs) && row.id in ids
    ensures forall row :: row in Delete(rows, ids, PrunableWhere(cutoffs)) ==>
      row in rows && !(IsPrunable(row, cutoffs) && row.id in ids)
  {
    hide PrunableWhere, IsPrunable, Eval;
    if rows != [] {
      WhereMeansTheRule(rows[0], cutoffs);
      DeleteTakesOnlyPrunable(rows[1..], ids, cutoffs);
    }
  }

  lemma {:induction false} RemoveMembers(rows: seq<Row>, ids: set<nat>)
    ensures forall row :: row in Remove(rows, ids) <==> row in rows && row.id !in ids
  {
    if rows != [] {
      RemoveMembers(rows[1..], ids);
    }
  }

  /** When the rows with those ids are all prunable, the delete is their removal. */
  lemma {:induction false} DeleteIsRemove(rows: seq<Row>, ids: set<nat>, cutoffs: Cutoffs)
    requires forall row :: row in rows && row.id in ids ==> IsPrunable(row, cutoffs)
    ensures Delete(rows, ids, PrunableWhere(cutoffs)) == Remove(rows, ids)
  {
    hide PrunableWhere, IsPrunable, Eval;
    if rows != [] {
      WhereMeansTheRule(rows[0], cutoffs);
      DeleteIsRemove(rows[1..], ids, cutoffs);
    }
  }

  lemma {:induction false} PrunableOfRemove(rows: seq<Row>, ids: set<nat>, cutoffs: Cutoffs)
    ensures Prunable(Remove(rows, ids), cutoffs) == Remove(Prunable(rows, cutoffs), ids)
  {
    hide IsPrunable;
    if rows != [] {
      PrunableOfRemove(rows[1..], ids, cutoffs);
      var rest := Remove(rows[1..], ids);
      assert ([rows[0]] + rest)[1..] == rest;
      assert ([rows[0]] + Prunable(rows[1..], cutoffs))[1..] == Prunable(rows[1..], cutoffs);
    }
  }

  lemma {:induction false} RemoveTwice(rows: seq<Row>, a: set<nat>, b: set<nat>)
    ensures Remove(Remove(rows, a), b) == Remove(rows, a + b)
  {
    if rows != [] {
      RemoveTwice(rows[1..], a, b);
      var rest := Remove(rows[1..], a);
      assert ([rows[0]] + rest)[1..] == rest;
    }
  }

  /** Removing the first rows of a list in id order drops them. */
  lemma {:induction false} RemoveFirst(rows: seq<Row>, n: nat)
    requires InIdOrder(rows) && n <= |rows|
    ensures Remove(rows, IdsOf(rows[..n])) == rows[n..]
  {
    if n == 0 {
      RemoveNothing(rows);
      assert IdsOf(rows[..n]) == {};
    } else {
      var rest := rows[1..];
      RemoveFirst(rest, n - 1);
      assert rows[..n] == [rows[0]] + rest[..n - 1];
      IdsOfFront(rows[0], rest[..n - 1]);
      RemoveAbsent(rest, rows[0].id, IdsOf(rest[..n - 1]));
    }
  }

  lemma IdsOfFront(row: Row, rows: seq<Row>)
    ensures IdsOf([row] + rows) == {row.id} + IdsOf(rows)
  {
    var all := [row] + rows;
    assert all[0] == row;
    forall id
      ensures id in IdsOf(all) <==> id in {row.id} + IdsOf(rows)
    {
      if id in IdsOf(rows) {
        var i :| 0 <= i < |rows| && rows[i].id == id;
        assert all[i + 1] == rows[i];
      }
    }
  }

  lemma {:induction false} RemoveNothing(rows: seq<Row>)
    ensures Remove(rows, {}) == rows
  {
    if rows != [] {
      RemoveNothing(rows[1..]);
    }
  }

  lemma {:induction false} RemoveAbsent(rows: seq<Row>, id: nat, ids: set<nat>)
    requires forall row :: row in rows ==> row.id != id
    ensures Remove(rows, {id} + ids) == Remove(rows, ids)
  {
    if rows != [] {
      RemoveAbsent(rows[1..], id, ids);
    }
  }

  // ---------------------------------------------------------------------
  // The nightly run.

  /** One turn of the loop: the rows it read, from which id on, its page, and the rows its delete found and left. */
  datatype Batch = Batch(read: seq<Row>, after: nat, page: seq<Row>, found: seq<Row>, left: seq<Row>)

  /** Every row a delete took was prunable as it found it. */
  ghost predicate OnlyPrunable(log: seq<Batch>, cutoffs: Cutoffs) {
    forall k, row :: 0 <= k < |log| && row in log[k].found && row !in log[k].left ==> IsPrunable(row, cutoffs)
  }

  /** How many rows the deletes took together. */
  function Taken(log: seq<Batch>): int {
    if log == [] then 0 else Taken(log[..|log| - 1]) + |log[|log| - 1].found| - |log[|log| - 1].left|
  }

  /** What others make of the rows before the page read (even) and the delete (odd) of each batch. */
  type Others = (nat, seq<Row>) -> seq<Row>

  ghost predicate NobodyWrites(others: Others) {
    forall k, rows :: others(k, rows) == rows
  }

  /** Batch `k`: its page is of the rows it read, its delete takes that page's prunable ids from the rows it found. */
  ghost predicate Follows(b: Batch, k: nat, before: seq<Row>, after: nat, others: Others, cutoffs: Cutoffs) {
    && b.read == others(2 * k, before) && b.after == after && b.page == Page(b.read, PrunableWhere(cutoffs), after)
    && b.found == (if b.page == [] then b.read else others(2 * k + 1, b.read))
    && b.left == Delete(b.found, IdsOf(Prunable(b.page, cutoffs)), PrunableWhere(cutoffs))
  }

  /** The rows and the cursor batch `k` goes on from. */
  function RowsBefore(log: seq<Batch>, k: nat, start: seq<Row>): seq<Row>
    requires k <= |log|
  {
    if k == 0 then start else log[k - 1].left
  }

  function AfterOf(b: Batch): nat {
    if b.page == [] then b.after else b.page[|b.page| - 1].id
  }

  function CursorBefore(log: seq<Batch>, k: nat): nat
    requires k <= |log|
  {
    if k == 0 then 0 else AfterOf(log[k - 1])
  }

  ghost predicate FollowsOn(log: seq<Batch>, k: nat, start: seq<Row>, others: Others, cutoffs: Cutoffs)
    requires k < |log|
  {
    && (k > 0 ==> |log[k - 1].page| == BATCH)
    && Follows(log[k], k, RowsBefore(log, k, start), CursorBefore(log, k), others, cutoffs)
  }

  /** The batches of a night: each goes on from the one before it, which was full. */
  ghost predicate Chained(log: seq<Batch>, start: seq<Row>, others: Others, cutoffs: Cutoffs, rows: seq<Row>) {
    rows == RowsBefore(log, |log|, start) && forall k :: 0 <= k < |log| ==> FollowsOn(log, k, start, others, cutoffs)
  }

  lemma {:induction false} DeleteNothing(rows: seq<Row>, w: Where)
    ensures Delete(rows, {}, w) == rows
  {
    if rows != [] { DeleteNothing(rows[1..], w); }
  }

  class Janitor {
    var rows: seq<Row>

    constructor (stored: seq<Row>)
      ensures rows == stored
    {
      rows := stored;
    }

    /** One turn: the page, then the delete of its prunable ids. */
    method RunBatch(batch: nat, afterId: nat, w: Where, cutoffs: Cutoffs, others: Others)
      returns (page: seq<Row>, taken: nat, ghost b: Batch)
      requires w == PrunableWhere(cutoffs)
      modifies this
      ensures Follows(b, batch, old(rows), afterId, others, cutoffs)
      ensures page == b.page && |page| <= BATCH && b.after == afterId && rows == b.left && taken == |b.found| - |b.left|
    {
      hide PrunableWhere, Page, IdsOf, Prunable, Delete;
      rows := others(2 * batch, rows);
      ghost var read := rows;
      page, taken := Page(rows, w, afterId), 0;
      if |page| > 0 { rows := others(2 * batch + 1, rows); }
      var ids := IdsOf(Prunable(page, cutoffs));
      ghost var found := rows;
      DeleteNothing(rows, w);
      if ids != {} {
        var left := Delete(rows, ids, w);
        taken := |rows| - |left|;
        rows := left;
      }
      b := Batch(read, afterId, page, found, rows);
    }

    /**
     * One night. Whatever others write before each page read and each
     * delete, the batches follow from it and only rows prunable at their
     * delete go; when nobody writes, the first hundred thousand prunable
     * rows go, and nothing else.
     */
    method PruneNotifications(now: int, others: Others) returns (deleted: nat, ghost log: seq<Batch>)
      requires InIdOrder(rows) && forall row :: row in rows ==> 0 < row.id
      modifies this
      ensures Chained(log, old(rows), others, CutoffsAt(now), rows)
      ensures 0 < |log| <= 200 && (|log| < 200 ==> |log[|log| - 1].page| < 500)
      ensures OnlyPrunable(log, CutoffsAt(now)) && deleted == Taken(log)
      ensures NobodyWrites(others) ==>
        var prunable := Prunable(old(rows), CutoffsAt(now));
        && deleted == Min(|prunable|, 100_000)
        && rows == Remove(old(rows), IdsOf(prunable[..deleted]))
        && (|prunable| <= 100_000 ==> Prunable(rows, CutoffsAt(now)) == [])
    {
      hide SoFar, PrunableWhere, Page, Follows, CutoffsAt, Prunable, Remove, IdsOf, Delete, Chained, OnlyPrunable,
        Taken;
      var cutoffs := CutoffsAt(now);
      NightBegins(rows, others, cutoffs);
      var w := PrunableWhere(cutoffs);
      var afterId := 0;
      deleted, log := 0, [];
      for batch: nat := 0 to MAX_BATCHES
        invariant |log| == batch && SoFar(log, old(rows), others, cutoffs, rows, deleted, afterId)
        invariant batch > 0 ==> |log[batch - 1].page| == BATCH
      {
        ghost var before := rows;
        var page, taken;
        ghost var b;
        page, taken, b := RunBatch(batch, afterId, w, cutoffs, others);
        NightGoesOn(log, b, old(rows), others, cutoffs, before, deleted, afterId);
        log := log + [b];
        deleted := deleted + taken;
        if |page| > 0 { afterId := page[|page| - 1].id; }
        if |page| < BATCH { break; }
      }
      NightEnds(log, old(rows), others, cutoffs, rows, deleted, afterId);
    }
  }

  /** A night up to here. */
  ghost predicate SoFar(log: seq<Batch>, start: seq<Row>, others: Others, cutoffs: Cutoffs, rows: seq<Row>,
                        deleted: nat, after: nat) {
    && Chained(log, start, others, cutoffs, rows) && OnlyPrunable(log, cutoffs)
    && deleted == Taken(log) && after == CursorBefore(log, |log|)
    && (NobodyWrites(others) ==>
      && Progress(start, cutoffs, rows, deleted, after) && deleted == Min(|Prunable(start, cutoffs)|, |log| * BATCH)
      && (log != [] && |log[|log| - 1].page| < BATCH ==> deleted == |Prunable(start, cutoffs)|))
  }

  lemma NightBegins(rows: seq<Row>, others: Others, cutoffs: Cutoffs)
    requires InIdOrder(rows) && forall row :: row in rows ==> 0 < row.id
    ensures SoFar([], rows, others, cutoffs, rows, 0, 0)
  {
    Start(rows, cutoffs);
  }

  lemma NightGoesOn(log: seq<Batch>, b: Batch, start: seq<Row>, others: Others, cutoffs: Cutoffs, rows: seq<Row>,
                    deleted: nat, after: nat)
    requires SoFar(log, start, others, cutoffs, rows, deleted, after) && (log != [] ==> |log[|log| - 1].page| == BATCH)
    requires Follows(b, |log|, rows, after, others, cutoffs) && |b.left| <= |b.found|
    ensures SoFar(log + [b], start, others, cutoffs, b.left, deleted + |b.found| - |b.left|, AfterOf(b))
  {
    hide Chained, OnlyPrunable, Follows, Progress, Prunable, NobodyWrites;
    OneBatchMore(log, b, start, others, cutoffs, rows);
    if NobodyWrites(others) { QuietBatch(b, |log|, rows, start, deleted, after, others, cutoffs); }
  }

  /** With nobody writing, a batch takes the next page of prunable rows. */
  lemma QuietBatch(b: Batch, k: nat, rows: seq<Row>, start: seq<Row>, deleted: nat, after: nat, others: Others,
                   cutoffs: Cutoffs)
    requires NobodyWrites(others) && Follows(b, k, rows, after, others, cutoffs)
    requires Progress(start, cutoffs, rows, deleted, after)
    ensures var taken, total := |b.found| - |b.left|, |Prunable(start, cutoffs)|;
      && deleted + taken == Min(deleted + BATCH, total) && |b.page| == taken
      && Progress(start, cutoffs, b.left, deleted + taken, AfterOf(b))
  {
    hide PrunableWhere, Delete, Remove, Page;
    NextPage(start, cutoffs, rows, deleted, after);
    assert others(2 * k, rows) == rows && others(2 * k + 1, rows) == rows;
    if b.page == [] {
      assert IdsOf(Prunable([], cutoffs)) == {};
      DeleteNothing(rows, PrunableWhere(cutoffs));
    }
  }

  lemma OneBatchMore(log: seq<Batch>, b: Batch, start: seq<Row>, others: Others, cutoffs: Cutoffs, rows: seq<Row>)
    requires Chained(log, start, others, cutoffs, rows) && OnlyPrunable(log, cutoffs)
    requires log != [] ==> |log[|log| - 1].page| == BATCH
    requires Follows(b, |log|, rows, CursorBefore(log, |log|), others, cutoffs)
    ensures Chained(log + [b], start, others, cutoffs, b.left) && OnlyPrunable(log + [b], cutoffs)
    ensures Taken(log + [b]) == Taken(log) + |b.found| - |b.left|
  {
    hide Follows, PrunableWhere, IsPrunable, Delete;
    var more := log + [b];
    assert more[..|more| - 1] == log;
    forall k | 0 <= k < |more|
      ensures FollowsOn(more, k, start, others, cutoffs)
    {
      if k < |log| { assert FollowsOn(log, k, start, others, cutoffs) && more[k] == log[k]; }
    }
    TakesOnlyPrunable(b, |log|, rows, CursorBefore(log, |log|), others, cutoffs);
  }

  lemma TakesOnlyPrunable(b: Batch, k: nat, before: seq<Row>, after: nat, others: Others, cutoffs: Cutoffs)
    requires Follows(b, k, before, after, others, cutoffs)
    ensures forall row :: row in b.found && row !in b.left ==> IsPrunable(row, cutoffs)
  {
    DeleteTakesOnlyPrunable(b.found, IdsOf(Prunable(b.page, cutoffs)), cutoffs);
  }

  lemma NightEnds(log: seq<Batch>, start: seq<Row>, others: Others, cutoffs: Cutoffs, rows: seq<Row>, deleted: nat,
                  after: nat)
    requires SoFar(log, start, others, cutoffs, rows, deleted, after)
    requires 0 < |log| <= MAX_BATCHES && (|log| < MAX_BATCHES ==> |log[|log| - 1].page| < BATCH)
    ensures Chained(log, start, others, cutoffs, rows) && OnlyPrunable(log, cutoffs) && deleted == Taken(log)
    ensures NobodyWrites(others) ==>
      var prunable := Prunable(start, cutoffs);
      && deleted == Min(|prunable|, MAX_BATCHES * BATCH)
      && rows == Remove(start, IdsOf(prunable[..deleted]))
      && (|prunable| <= MAX_BATCHES * BATCH ==> Prunable(rows, cutoffs) == [])
  {
    hide OnlyPrunable, Prunable, Remove, IdsOf, Page, PrunableWhere, Delete;
    if NobodyWrites(others) {
      Finish(start, cutoffs, rows, deleted, after);
    }
  }

  /** So far exactly the first `deleted` prunable rows are gone, and the cursor stands between them and the rest. */
  ghost predicate Progress(start: seq<Row>, cutoffs: Cutoffs, rows: seq<Row>, deleted: nat, after: nat) {
    var prunable := Prunable(start, cutoffs);
    && InIdOrder(start) && deleted <= |prunable|
    && rows == Remove(start, IdsOf(prunable[..deleted]))
    && (forall i :: deleted <= i < |prunable| ==> after < prunable[i].id)
  }

  lemma Start(rows: seq<Row>, cutoffs: Cutoffs)
    requires InIdOrder(rows) && forall row :: row in rows ==> 0 < row.id
    ensures Progress(rows, cutoffs, rows, 0, 0) && OnlyPrunable([], cutoffs) && Taken([]) == 0
  {
    hide IsPrunable;
    var prunable := Prunable(rows, cutoffs);
    RemoveNothing(rows);
    assert IdsOf(prunable[..0]) == {};
    PrunableMembers(rows, cutoffs);
    forall i | 0 <= i < |prunable|
      ensures 0 < prunable[i].id
    {
      assert prunable[i] in prunable;
    }
  }

  /** What is left to prune after the first `n`. */
  lemma LeftToPrune(start: seq<Row>, cutoffs: Cutoffs, n: nat)
    requires InIdOrder(start) && n <= |Prunable(start, cutoffs)|
    ensures var prunable := Prunable(start, cutoffs);
      Prunable(Remove(start, IdsOf(prunable[..n])), cutoffs) == prunable[n..]
  {
    hide IsPrunable, IdsOf, InIdOrder;
    var prunable := Prunable(start, cutoffs);
    PrunableOfRemove(start, IdsOf(prunable[..n]), cutoffs);
    PrunableInOrder(start, cutoffs);
    RemoveFirst(prunable, n);
  }

  lemma {:induction false} RemovedCount(rows: seq<Row>, cutoffs: Cutoffs, n: nat)
    requires InIdOrder(rows) && n <= |Prunable(rows, cutoffs)|
    ensures |Remove(rows, IdsOf(Prunable(rows, cutoffs)[..n]))| == |rows| - n
  {
    hide IsPrunable;
    if n == 0 {
      assert IdsOf(Prunable(rows, cutoffs)[..0]) == {};
      RemoveNothing(rows);
    } else {
      var first, rest, later := rows[0], rows[1..], Prunable(rows[1..], cutoffs);
      forall row | row in rest
        ensures first.id < row.id
      {
        var k :| 0 <= k < |rest| && rest[k] == row;
        assert rows[k + 1] == row;
      }
      PrunableMembers(rest, cutoffs);
      if IsPrunable(first, cutoffs) {
        RemovedCount(rest, cutoffs, n - 1);
        assert Prunable(rows, cutoffs)[..n] == [first] + later[..n - 1];
        IdsOfFront(first, later[..n - 1]);
        RemoveAbsent(rest, first.id, IdsOf(later[..n - 1]));
      } else {
        RemovedCount(rest, cutoffs, n);
        forall i | 0 <= i < n
          ensures later[..n][i].id != first.id
        {
          assert later[i] in later;
        }
      }
    }
  }

  lemma SameIdSameRow(rows: seq<Row>, a: Row, b: Row)
    requires InIdOrder(rows) && a in rows && b in rows && a.id == b.id
    ensures a == b
  {
    var i :| 0 <= i < |rows| && rows[i] == a;
    var j :| 0 <= j < |rows| && rows[j] == b;
  }

  lemma IdsJoin(a: seq<Row>, b: seq<Row>)
    ensures IdsOf(a + b) == IdsOf(a) + IdsOf(b)
  {
    forall id
      ensures id in IdsOf(a + b) <==> id in IdsOf(a) + IdsOf(b)
    {
      if id in IdsOf(a) {
        var i :| 0 <= i < |a| && a[i].id == id;
        assert (a + b)[i] == a[i];
      }
      if id in IdsOf(b) {
        var i :| 0 <= i < |b| && b[i].id == id;
        assert (a + b)[|a| + i] == b[i];
      }
    }
  }

  /** The ids of a page of prunable rows take exactly that page. */
  lemma PageIsDeleted(start: seq<Row>, cutoffs: Cutoffs, n: nat, m: nat)
    requires InIdOrder(start) && n <= m <= |Prunable(start, cutoffs)|
    ensures var prunable := Prunable(start, cutoffs);
      var rows := Remove(start, IdsOf(prunable[..n]));
      Delete(rows, IdsOf(prunable[n..m]), PrunableWhere(cutoffs)) == Remove(start, IdsOf(prunable[..m]))
  {
    hide PrunableWhere, IsPrunable, InIdOrder;
    var prunable := Prunable(start, cutoffs);
    var rows, page := Remove(start, IdsOf(prunable[..n])), prunable[n..m];
    PrunableMembers(start, cutoffs);
    RemoveMembers(start, IdsOf(prunable[..n]));
    forall row | row in rows && row.id in IdsOf(page)
      ensures IsPrunable(row, cutoffs)
    {
      var i :| 0 <= i < |page| && page[i].id == row.id;
      assert prunable[n + i] in prunable;
      SameIdSameRow(start, row, page[i]);
    }
    DeleteIsRemove(rows, IdsOf(page), cutoffs);
    RemoveTwice(start, IdsOf(prunable[..n]), IdsOf(page));
    IdsJoin(prunable[..n], page);
    assert prunable[..m] == prunable[..n] + page;
  }

  lemma {:induction false} AllPrunable(rows: seq<Row>, cutoffs: Cutoffs)
    requires forall row :: row in rows ==> IsPrunable(row, cutoffs)
    ensures Prunable(rows, cutoffs) == rows
  {
    hide IsPrunable;
    if rows != [] {
      AllPrunable(rows[1..], cutoffs);
    }
  }

  /** One page further. */
  lemma NextPage(start: seq<Row>, cutoffs: Cutoffs, rows: seq<Row>, deleted: nat, after: nat)
    requires Progress(start, cutoffs, rows, deleted, after)
    ensures var prunable, w := Prunable(start, cutoffs), PrunableWhere(cutoffs);
      var page, m := Page(rows, w, after), Min(deleted + BATCH, |prunable|);
      && page == prunable[deleted..m] && Prunable(page, cutoffs) == page
      && (page != [] ==>
        && IdsOf(page) != {} && |Delete(rows, IdsOf(page), w)| == |rows| - |page|
        && Progress(start, cutoffs, Delete(rows, IdsOf(page), w), m, page[|page| - 1].id))
  {
    hide PrunableWhere, IsPrunable, Delete, Remove;
    var prunable, w := Prunable(start, cutoffs), PrunableWhere(cutoffs);
    var m := Min(deleted + BATCH, |prunable|);
    LeftToPrune(start, cutoffs, deleted);
    forall row | row in prunable[deleted..]
      ensures after < row.id
    {
      var i :| 0 <= i < |prunable[deleted..]| && prunable[deleted..][i] == row;
      assert prunable[deleted + i] == row;
    }
    PageIsTheFirstPrunable(rows, cutoffs, after);
    var page := Page(rows, w, after);
    assert page == prunable[deleted..m];
    PrunableMembers(start, cutoffs);
    forall row | row in page
      ensures IsPrunable(row, cutoffs)
    {
      assert row in prunable;
    }
    AllPrunable(page, cutoffs);
    PageIsDeleted(start, cutoffs, deleted, m);
    RemovedCount(start, cutoffs, deleted);
    RemovedCount(start, cutoffs, m);
    PrunableInOrder(start, cutoffs);
    if page != [] {
      assert page[0].id in IdsOf(page);
      assert page[|page| - 1] == prunable[m - 1];
    }
  }

  lemma Finish(start: seq<Row>, cutoffs: Cutoffs, rows: seq<Row>, deleted: nat, after: nat)
    requires Progress(start, cutoffs, rows, deleted, after)
    ensures deleted <= |Prunable(start, cutoffs)| && rows == Remove(start, IdsOf(Prunable(start, cutoffs)[..deleted]))
    ensures deleted == |Prunable(start, cutoffs)| ==> Prunable(rows, cutoffs) == []
  {
    LeftToPrune(start, cutoffs, deleted);
  }
}

/**
 * The batches of the scheduled publisher's selections (duePublishes and
 * healthyWithdrawals in apps/cms/src/cron/scheduled-publish.ts): ordered by
 * the due time, then the row id, up to a limit; and how soon a due row gets
 * into one.
 */
module DueBatches {
  import opened Common
  import opened Attempts
  import opened Documents
  import opened Schedule
  import opened ScheduleSelection

  const SCHEDULE_BATCH: nat := 50

  /** A selected row: when it was due, its id, and its document. */
  datatype Due = Due(at: int, id: nat, documentId: string)

  predicate Earlier(a: Due, b: Due) {
    a.at < b.at || (a.at == b.at && a.id < b.id)
  }

  /** Row ids are unique. */
  ghost predicate OwnIds(rows: set<Due>) {
    forall a, b :: a in rows && b in rows && a.id == b.id ==> a == b
  }

  ghost function EarlierThan(rows: set<Due>, d: Due): set<Due> {
    set e | e in rows && Earlier(e, d)
  }

  ghost function Earliest(rows: set<Due>): (d: Due)
    requires OwnIds(rows) && rows != {}
    ensures d in rows && forall e :: e in rows && e != d ==> Earlier(d, e)
  {
    var some :| some in rows;
    if rows == {some} then some
    else
      var rest := rows - {some};
      assert rest != {} by { assert rows == rest + {some}; }
      var first := Earliest(rest);
      if Earlier(some, first) then some else first
  }

  /** `ORDER BY … LIMIT`: the rows in their order, up to the limit. */
  ghost function BatchOf(rows: set<Due>, limit: nat): seq<Due>
    requires OwnIds(rows)
  {
    if limit == 0 || rows == {} then [] else [Earliest(rows)] + BatchOf(rows - {Earliest(rows)}, limit - 1)
  }

  /** A row is in the batch exactly when fewer rows than the limit are before it. */
  lemma {:induction false} BatchHolds(rows: set<Due>, limit: nat, d: Due)
    requires OwnIds(rows)
    ensures d in BatchOf(rows, limit) <==> d in rows && |EarlierThan(rows, d)| < limit
  {
    if rows != {} && limit > 0 {
      var first := Earliest(rows);
      var rest := rows - {first};
      BatchHolds(rest, limit - 1, d);
      FirstOfAll(rows, first, d);
      hide EarlierThan, Earliest, OwnIds;
    }
  }

  lemma FirstOfAll(rows: set<Due>, first: Due, d: Due)
    requires first in rows && forall e :: e in rows && e != first ==> Earlier(first, e)
    ensures d == first ==> EarlierThan(rows, d) == {}
    ensures d in rows && d != first ==> |EarlierThan(rows, d)| == |EarlierThan(rows - {first}, d)| + 1
  {
    if d == first {
      assert EarlierThan(rows, d) == {};
    } else if d in rows {
      assert EarlierThan(rows, d) == EarlierThan(rows - {first}, d) + {first};
    }
  }

  /** Only these rows, each at most once. */
  ghost predicate EachOnce(batch: seq<Due>, rows: set<Due>) {
    forall d :: multiset(batch)[d] <= if d in rows then 1 else 0
  }

  /** The batch has no row twice, and is full unless it has them all. */
  lemma {:induction false} BatchIsFull(rows: set<Due>, limit: nat)
    requires OwnIds(rows)
    ensures |BatchOf(rows, limit)| == Min(limit, |rows|) && EachOnce(BatchOf(rows, limit), rows)
  {
    hide BatchOf, Earliest, OwnIds, EachOnce;
    BatchUnfolds(rows, limit);
    if rows == {} || limit == 0 {
      NoneTwice(rows);
    } else {
      var first := Earliest(rows);
      var rest := rows - {first};
      BatchIsFull(rest, limit - 1);
      assert |rows| == |rest| + 1;
      OnlyOnce(rows, first, BatchOf(rest, limit - 1));
    }
  }

  lemma BatchUnfolds(rows: set<Due>, limit: nat)
    requires OwnIds(rows)
    ensures rows == {} || limit == 0 ==> BatchOf(rows, limit) == []
    ensures rows != {} && limit > 0 ==>
      && OwnIds(rows - {Earliest(rows)}) && Earliest(rows) in rows
      && BatchOf(rows, limit) == [Earliest(rows)] + BatchOf(rows - {Earliest(rows)}, limit - 1)
  {}

  lemma NoneTwice(rows: set<Due>)
    ensures EachOnce([], rows)
  {}

  lemma OnlyOnce(rows: set<Due>, first: Due, batch: seq<Due>)
    requires first in rows && EachOnce(batch, rows - {first})
    ensures EachOnce([first] + batch, rows)
  {
    assert multiset([first] + batch) == multiset{first} + multiset(batch);
  }

  /** The batch is in the order of the due times, then the ids. */
  lemma {:induction false} BatchIsInOrder(rows: set<Due>, limit: nat, i: nat, j: nat)
    requires OwnIds(rows) && i < j < |BatchOf(rows, limit)|
    ensures var a, b := BatchOf(rows, limit)[i], BatchOf(rows, limit)[j]; a.at < b.at || (a.at == b.at && a.id < b.id)
  {
    var first := Earliest(rows);
    var rest := BatchOf(rows - {first}, limit - 1);
    if i > 0 {
      BatchIsInOrder(rows - {first}, limit - 1, i - 1, j - 1);
    } else {
      assert rest[j - 1] in rest;
      BatchHolds(rows - {first}, limit - 1, rest[j - 1]);
    }
  }

  // ---------------------------------------------------------------------
  // The two queries.

  function TimeOf(at: Option<int>): int {
    if at.Some? then at.value else 0
  }

  function PublishRow(d: Stored, id: Stored -> nat): Due {
    Due(TimeOf(d.row.publishAt), id(d), d.ref.documentId)
  }

  function WithdrawalRow(d: Stored, id: Stored -> nat): Due {
    Due(TimeOf(d.row.unpublishAt), id(d), d.ref.documentId)
  }

  ghost function PublishRows(t: Tables, uid: Uid, id: Stored -> nat, now: int): set<Due> {
    set d | d in t.rows && d.ref.uid == uid && SelectsPublish(t, d, now) :: PublishRow(d, id)
  }

  ghost function WithdrawalRows(t: Tables, uid: Uid, id: Stored -> nat, now: int): set<Due> {
    set d | d in t.rows && d.ref.uid == uid && SelectsWithdrawal(t, d, now) :: WithdrawalRow(d, id)
  }

  /** Every table row has its own id. */
  ghost predicate Numbered(t: Tables, id: Stored -> nat) {
    forall a, b :: a in t.rows && b in t.rows && id(a) == id(b) ==> a == b
  }

  predicate DueBefore(a: Option<int>, aId: nat, b: Option<int>, bId: nat) {
    a.Some? && b.Some? && (a.value < b.value || (a.value == b.value && aId < bId))
  }

  /** The selected drafts of the type with an earlier time to publish, or the same and a smaller row id. */
  ghost function PublishesBefore(t: Tables, d: Stored, id: Stored -> nat, now: int): set<Stored> {
    set e | e in t.rows && e.ref.uid == d.ref.uid && SelectsPublish(t, e, now) &&
      DueBefore(e.row.publishAt, id(e), d.row.publishAt, id(d))
  }

  /** The selected withdrawals of the type with an earlier deadline, or the same and a smaller row id. */
  ghost function WithdrawalsBefore(t: Tables, d: Stored, id: Stored -> nat, now: int): set<Stored> {
    set e | e in t.rows && e.ref.uid == d.ref.uid && SelectsWithdrawal(t, e, now) &&
      DueBefore(e.row.unpublishAt, id(e), d.row.unpublishAt, id(d))
  }

  /** As many rows as they stand for: every one has its own id. */
  lemma {:induction false} SameSize(stored: set<Stored>, due: Stored -> Due, id: Stored -> nat)
    requires forall e :: e in stored ==> due(e).id == id(e)
    requires forall a, b :: a in stored && b in stored && id(a) == id(b) ==> a == b
    ensures |set e | e in stored :: due(e)| == |stored|
  {
    var image := set e | e in stored :: due(e);
    if stored == {} {
      assert image == {};
    } else {
      var some :| some in stored;
      var rest := stored - {some};
      SameSize(rest, due, id);
      assert image == (set e | e in rest :: due(e)) + {due(some)};
    }
  }

  lemma PublishesCounted(t: Tables, d: Stored, id: Stored -> nat, now: int)
    requires Numbered(t, id) && d.row.publishAt.Some?
    ensures |EarlierThan(PublishRows(t, d.ref.uid, id, now), PublishRow(d, id))| == |PublishesBefore(t, d, id, now)|
  {
    var stored := PublishesBefore(t, d, id, now);
    var due := (e: Stored) => PublishRow(e, id);
    SameSize(stored, due, id);
    assert EarlierThan(PublishRows(t, d.ref.uid, id, now), PublishRow(d, id)) == set e | e in stored :: due(e);
  }

  lemma WithdrawalsCounted(t: Tables, d: Stored, id: Stored -> nat, now: int)
    requires Numbered(t, id) && d.row.unpublishAt.Some?
    ensures |EarlierThan(WithdrawalRows(t, d.ref.uid, id, now), WithdrawalRow(d, id))| ==
      |WithdrawalsBefore(t, d, id, now)|
  {
    var stored := WithdrawalsBefore(t, d, id, now);
    var due := (e: Stored) => WithdrawalRow(e, id);
    SameSize(stored, due, id);
    assert EarlierThan(WithdrawalRows(t, d.ref.uid, id, now), WithdrawalRow(d, id)) == set e | e in stored :: due(e);
  }

  /**
   * A draft is in the publish batch exactly when its transaction would not
   * skip it, it does not wait, and fewer than fifty such drafts of its type
   * are before it.
   */
  lemma PublishBatchAgrees(t: Tables, db: Db, id: Stored -> nat, ref: Ref, now: int)
    requires Represents(t, db) && Numbered(t, id) && DocOf(db, ref).draft.Some?
    ensures OwnIds(PublishRows(t, ref.uid, id, now))
    ensures var d := Stored(ref, false, DocOf(db, ref).draft.value);
      PublishRow(d, id) in BatchOf(PublishRows(t, ref.uid, id, now), SCHEDULE_BATCH) <==>
        && PublishTx(db, ref, DocOf(db, ref).revision, now) != Ok(Change(db, Skipped))
        && !WaitsForTarget(db, ref.uid, d.row, now)
        && |PublishesBefore(t, d, id, now)| < 50
  {
    var d := Stored(ref, false, DocOf(db, ref).draft.value);
    PublishSelectionAgrees(t, db, ref, now);
    if SelectsPublish(t, d, now) { PublishesCounted(t, d, id, now); }
    hide SelectsPublish, PublishTx, WaitsForTarget, BatchOf;
    BatchHolds(PublishRows(t, ref.uid, id, now), SCHEDULE_BATCH, PublishRow(d, id));
    assert d in t.rows;
  }

  /** The healthy tier: its batch, less the withdrawals that still back off. */
  ghost function Healthy(batch: seq<Due>, uid: Uid, withdrawals: seq<Kept<Ref, Deferral>>, revisions: map<string, nat>,
                         now: int): seq<Due> {
    if batch == [] then []
    else
      var rest := Healthy(batch[1..], uid, withdrawals, revisions, now);
      if IsReady(batch[0], uid, withdrawals, revisions, now) then [batch[0]] + rest else rest
  }

  predicate IsReady(d: Due, uid: Uid, withdrawals: seq<Kept<Ref, Deferral>>, revisions: map<string, nat>, now: int) {
    && d.documentId != ""
    && BackoffOver(withdrawals, Ref(uid, d.documentId), now,
      if d.documentId in revisions then revisions[d.documentId] else 0)
  }

  lemma {:induction false} HealthyHolds(batch: seq<Due>, uid: Uid, withdrawals: seq<Kept<Ref, Deferral>>,
                                        revisions: map<string, nat>,
                                        now: int, d: Due)
    ensures d in Healthy(batch, uid, withdrawals, revisions, now) <==>
      d in batch && IsReady(d, uid, withdrawals, revisions, now)
  {
    hide IsReady;
    if batch != [] { HealthyHolds(batch[1..], uid, withdrawals, revisions, now, d); }
  }

  /**
   * An unmarked draft's withdrawal is in the healthy tier exactly when its
   * transaction would act, fewer such drafts of its type than the limit are
   * before it, and no backoff holds it.
   */
  lemma HealthyTierAgrees(t: Tables, db: Db, id: Stored -> nat, ref: Ref, now: int, limit: nat,
                          withdrawals: seq<Kept<Ref, Deferral>>, revisions: map<string, nat>)
    requires Represents(t, db) && Numbered(t, id)
    requires DocOf(db, ref).draft.Some? && DocOf(db, ref).draft.value.scheduleError.None?
    ensures OwnIds(WithdrawalRows(t, ref.uid, id, now))
    ensures var d := Stored(ref, false, DocOf(db, ref).draft.value);
      var revision := if ref.documentId in revisions then revisions[ref.documentId] else 0;
      var batch := BatchOf(WithdrawalRows(t, ref.uid, id, now), limit);
      WithdrawalRow(d, id) in Healthy(batch, ref.uid, withdrawals, revisions, now) <==>
        && UnpublishTx(db, ref, DocOf(db, ref).revision, now).outcome != Skipped
        && |WithdrawalsBefore(t, d, id, now)| < limit
        && ref.documentId != "" && BackoffOver(withdrawals, ref, now, revision)
  {
    var d := Stored(ref, false, DocOf(db, ref).draft.value);
    if SelectsWithdrawal(t, d, now) { WithdrawalsCounted(t, d, id, now); }
    assert IsReady(WithdrawalRow(d, id), ref.uid, withdrawals, revisions, now) <==>
      ref.documentId != "" &&
        BackoffOver(withdrawals, ref, now, if ref.documentId in revisions then revisions[ref.documentId] else 0);
    hide SelectsWithdrawal, UnpublishTx, BatchOf, IsReady, Healthy, BackoffOver;
    var rows := WithdrawalRows(t, ref.uid, id, now);
    WithdrawalSelectionAgrees(t, db, ref, now);
    BatchHolds(rows, limit, WithdrawalRow(d, id));
    HealthyHolds(BatchOf(rows, limit), ref.uid, withdrawals, revisions, now, WithdrawalRow(d, id));
    assert d in t.rows;
  }

  // ---------------------------------------------------------------------
  // How soon a row is selected.

  /** Run after run: the rows the query selects, and its limit. */
  datatype Selection = Selection(rows: set<Due>, limit: nat)

  /**
   * The row stays selected, no row comes before it that was not before it at
   * first, and each limit is `least` or more.
   */
  ghost predicate Waits(runs: seq<Selection>, x: Due, least: nat) {
    forall i :: 0 <= i < |runs| ==>
      && OwnIds(runs[i].rows) && x in runs[i].rows && least <= runs[i].limit
      && EarlierThan(runs[i].rows, x) <= EarlierThan(runs[0].rows, x)
  }

  /** All that the first `n` runs have in their batches. */
  ghost function Selected(runs: seq<Selection>, n: nat): multiset<Due>
    requires n <= |runs| && forall i :: 0 <= i < |runs| ==> OwnIds(runs[i].rows)
  {
    if n == 0 then multiset{} else Selected(runs, n - 1) + multiset(BatchOf(runs[n - 1].rows, runs[n - 1].limit))
  }

  /** A multiset over `rows` with no row more than `times` times. */
  lemma {:induction false} AtMost(many: multiset<Due>, rows: set<Due>, times: nat)
    requires forall d :: d in many ==> d in rows && many[d] <= times
    ensures |many| <= times * |rows|
  {
    if rows == {} {
      assert many == multiset{};
    } else {
      var d :| d in rows;
      var fewer := many[d := 0];
      AtMost(fewer, rows - {d}, times);
      assert |many| == |fewer| + many[d];
      assert |rows| == |rows - {d}| + 1;
      assert times * |rows| == times * |rows - {d}| + times;
    }
  }

  /** While the row is in no batch, every batch is full of rows before it. */
  lemma {:induction false} OnlyEarlierOnes(runs: seq<Selection>, x: Due, least: nat, n: nat)
    requires Waits(runs, x, least) && n <= |runs|
    requires forall i :: 0 <= i < n ==> x !in BatchOf(runs[i].rows, runs[i].limit)
    ensures least * n <= |Selected(runs, n)|
    ensures forall d :: d in Selected(runs, n) ==> d in EarlierThan(runs[0].rows, x)
  {
    if n > 0 {
      var batch := BatchOf(runs[n - 1].rows, runs[n - 1].limit);
      OnlyEarlierOnes(runs, x, least, n - 1);
      FullOfEarlierOnes(runs[n - 1].rows, runs[n - 1].limit, x);
      hide EarlierThan, BatchOf, OwnIds;
      OneBatchMore(Selected(runs, n - 1), batch, EarlierThan(runs[0].rows, x), least, n);
    }
  }

  lemma OneBatchMore(before: multiset<Due>, batch: seq<Due>, earlier: set<Due>, least: nat, n: nat)
    requires 0 < n && least * (n - 1) <= |before| && least <= |batch|
    requires (forall d :: d in before ==> d in earlier) && forall d :: d in batch ==> d in earlier
    ensures least * n <= |before + multiset(batch)| && forall d :: d in before + multiset(batch) ==> d in earlier
  {
    OneMoreTime(least, n);
    assert |before + multiset(batch)| == |before| + |batch|;
  }

  lemma OneMoreTime(least: nat, n: nat)
    requires 0 < n
    ensures least * n == least * (n - 1) + least
  {}

  lemma FullOfEarlierOnes(rows: set<Due>, limit: nat, x: Due)
    requires OwnIds(rows) && x in rows && x !in BatchOf(rows, limit)
    ensures |BatchOf(rows, limit)| == limit
    ensures forall d :: d in BatchOf(rows, limit) ==> d in EarlierThan(rows, x)
  {
    BatchHolds(rows, limit, x);
    BatchIsFull(rows, limit);
    Fewer(EarlierThan(rows, x), rows);
    forall d | d in BatchOf(rows, limit)
      ensures d in EarlierThan(rows, x)
    {
      BatchHolds(rows, limit, d);
      if !Earlier(d, x) {
        assert EarlierThan(rows, x) <= EarlierThan(rows, d);
        Fewer(EarlierThan(rows, x), EarlierThan(rows, d));
      }
    }
  }

  lemma Fewer(a: set<Due>, b: set<Due>)
    requires a <= b
    ensures |a| <= |b|
  {
    assert b == a + (b - a);
  }

  /**
   * A row that stays selected, with N rows before it and none added there,
   * each in at most `times` batches, is in a batch within N * times / limit
   * runs and one more.
   */
  lemma {:induction false} EveryDueRowIsSelected(runs: seq<Selection>, x: Due, least: nat, times: nat)
    requires 0 < |runs| && Waits(runs, x, least)
    requires forall d :: d in Selected(runs, |runs|) ==> Selected(runs, |runs|)[d] <= times
    requires times * |EarlierThan(runs[0].rows, x)| < least * |runs|
    ensures exists i :: 0 <= i < |runs| && x in BatchOf(runs[i].rows, runs[i].limit)
  {
    if forall k :: 0 <= k < |runs| ==> x !in BatchOf(runs[k].rows, runs[k].limit) {
      OnlyEarlierOnes(runs, x, least, |runs|);
      AtMost(Selected(runs, |runs|), EarlierThan(runs[0].rows, x), times);
    }
  }
}

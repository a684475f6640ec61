/**
 * The selection queries of the scheduled publisher (duePublishes and
 * healthyWithdrawals in apps/cms/src/cron/scheduled-publish.ts), as they
 * read the tables, against what the locked transactions decide. Order and
 * batch limit are module DueBatches.
 */
module ScheduleSelection {
  import opened Common
  import opened Attempts
  import opened Documents
  import opened Schedule
  import RetryTier

  /** A table row, and the link rows between a draft and its target's row. */
  datatype Stored = Stored(ref: Ref, published: bool, row: Row)
  datatype Tables = Tables(rows: set<Stored>, links: set<(Stored, Stored)>)

  /** The tables hold exactly the documents' rows, and a link row for each relation that resolves. */
  ghost predicate Represents(t: Tables, db: Db) {
    && (forall ref, row :: Stored(ref, false, row) in t.rows <==> DocOf(db, ref).draft == Some(row))
    && (forall ref, row :: Stored(ref, true, row) in t.rows <==> DocOf(db, ref).published == Some(row))
    && (forall d, p :: (d, p) in t.links && d in t.rows ==> Linked(db, d.ref.uid, d.row) == Some(p.ref))
    && (forall d :: d in t.rows && Linked(db, d.ref.uid, d.row).Some? ==> exists p :: (d, p) in t.links)
  }

  ghost predicate HasPublished(t: Tables, ref: Ref) {
    exists q :: q in t.rows && q.ref == ref && q.published
  }

  ghost predicate HasDueDraft(t: Tables, ref: Ref, now: int) {
    exists w :: w in t.rows && w.ref == ref && !w.published && IsDue(w.row.publishAt, now)
  }

  /** The WHERE clause of the due publishes. */
  ghost predicate SelectsPublish(t: Tables, d: Stored, now: int) {
    && d in t.rows && !d.published && IsDue(d.row.publishAt, now)
    && !(UnpublishScheduled(d.ref.uid) && IsDue(d.row.unpublishAt, now) && HasPublished(t, d.ref))
    && (ReadinessTarget(d.ref.uid).Some? ==>
      || d.row.publishAt.value <= now - DEPENDENCY_WAIT
      || !(exists p :: (d, p) in t.links && HasDueDraft(t, p.ref, now) && !HasPublished(t, p.ref)))
  }

  /** The WHERE clause of the healthy withdrawals. */
  ghost predicate SelectsWithdrawal(t: Tables, d: Stored, now: int) {
    && d in t.rows && !d.published && IsDue(d.row.unpublishAt, now) && d.row.scheduleError.None?
    && !(d.row.publishAt.Some? && !HasPublished(t, d.ref))
  }

  lemma RowsMean(t: Tables, db: Db, ref: Ref, now: int)
    requires Represents(t, db)
    ensures HasPublished(t, ref) <==> DocOf(db, ref).published.Some?
    ensures HasDueDraft(t, ref, now) <==> DocOf(db, ref).draft.Some? && IsDue(DocOf(db, ref).draft.value.publishAt, now)
  {
    var doc := DocOf(db, ref);
    if doc.published.Some? {
      assert Stored(ref, true, doc.published.value) in t.rows;
    }
    if doc.draft.Some? {
      assert Stored(ref, false, doc.draft.value) in t.rows;
    }
    forall q | q in t.rows && q.ref == ref
      ensures if q.published then doc.published == Some(q.row) else doc.draft == Some(q.row)
    {
      assert q == Stored(ref, q.published, q.row);
    }
  }

  lemma LinksMean(t: Tables, db: Db, d: Stored, now: int)
    requires Represents(t, db) && d in t.rows && !d.published && IsDue(d.row.publishAt, now)
    requires now < d.row.publishAt.value + DEPENDENCY_WAIT
    ensures (exists p :: (d, p) in t.links && HasDueDraft(t, p.ref, now) && !HasPublished(t, p.ref)) <==>
      Dependency(db, d.ref, now) == Waiting
  {
    hide HasDueDraft, HasPublished;
    assert d == Stored(d.ref, false, d.row);
    assert DocOf(db, d.ref).draft == Some(d.row);
    var linked := Linked(db, d.ref.uid, d.row);
    if linked.Some? {
      var p :| (d, p) in t.links;
      RowsMean(t, db, linked.value, now);
      assert p.ref == linked.value;
    }
  }

  /**
   * The publish selection leaves out exactly the due drafts whose
   * transaction would leave them to a due withdrawal, and those that wait.
   */
  lemma PublishSelectionAgrees(t: Tables, db: Db, ref: Ref, now: int)
    requires Represents(t, db) && DocOf(db, ref).draft.Some?
    ensures var doc := DocOf(db, ref);
      SelectsPublish(t, Stored(ref, false, doc.draft.value), now) <==>
        && PublishTx(db, ref, doc.revision, now) != Ok(Change(db, Skipped))
        && !WaitsForTarget(db, ref.uid, doc.draft.value, now)
  {
    var d := Stored(ref, false, DocOf(db, ref).draft.value);
    RowsMean(t, db, ref, now);
    if IsDue(d.row.publishAt, now) && now < d.row.publishAt.value + DEPENDENCY_WAIT {
      LinksMean(t, db, d, now);
    }
    WaitingMeans(db, ref, now);
    SkippedExactlyWhen(db, ref, DocOf(db, ref).revision, now);
  }

  /** No draft waits longer than the dependency wait after its own time. */
  lemma WaitIsBounded(t: Tables, db: Db, ref: Ref, now: int)
    requires Represents(t, db) && DocOf(db, ref).draft.Some?
    requires DocOf(db, ref).draft.value.publishAt.Some?
    requires DocOf(db, ref).draft.value.publishAt.value + DEPENDENCY_WAIT <= now
    requires !(IsDue(DocOf(db, ref).draft.value.unpublishAt, now) && DocOf(db, ref).published.Some?)
    ensures SelectsPublish(t, Stored(ref, false, DocOf(db, ref).draft.value), now)
  {
    RowsMean(t, db, ref, now);
  }

  /** Two due pages that are each other's parent are selected exactly when their wait is over. */
  lemma LoopIsSelectedAfterItsWait(t: Tables, db: Db, a: string, b: string, now: int)
    requires Represents(t, db)
    requires var x, y := DocOf(db, Ref(WikiPage, a)), DocOf(db, Ref(WikiPage, b));
      && x.published.None? && x.draft.Some? && x.draft.value.link == Some(b) && IsDue(x.draft.value.publishAt, now)
      && y.published.None? && y.draft.Some? && y.draft.value.link == Some(a) && IsDue(y.draft.value.publishAt, now)
    ensures var draft := DocOf(db, Ref(WikiPage, a)).draft.value;
      SelectsPublish(t, Stored(Ref(WikiPage, a), false, draft), now) <==> draft.publishAt.value + DEPENDENCY_WAIT <= now
  {
    hide SelectsPublish;
    PublishSelectionAgrees(t, db, Ref(WikiPage, a), now);
    SkippedExactlyWhen(db, Ref(WikiPage, a), DocOf(db, Ref(WikiPage, a)).revision, now);
  }

  /**
   * The healthy tier leaves out exactly the unmarked due drafts whose
   * transaction would leave a pending publish to the publish pass.
   */
  lemma WithdrawalSelectionAgrees(t: Tables, db: Db, ref: Ref, now: int)
    requires Represents(t, db) && DocOf(db, ref).draft.Some? && DocOf(db, ref).draft.value.scheduleError.None?
    ensures SelectsWithdrawal(t, Stored(ref, false, DocOf(db, ref).draft.value), now) <==>
      UnpublishTx(db, ref, DocOf(db, ref).revision, now).outcome != Skipped
  {
    RowsMean(t, db, ref, now);
  }

  /** What the retry tier reads of a marked draft agrees with the tables. */
  ghost predicate Reads(s: RetryTier.Snapshot, row: RetryTier.DraftRow, t: Tables, d: Stored) {
    && s.uid == d.ref.uid && row.documentId == d.ref.documentId && row.publishAt == d.row.publishAt
    && (row.documentId in s.published <==> HasPublished(t, d.ref))
  }

  /** The retry tier picks a due marked draft exactly when its transaction would act and its backoff is over. */
  lemma RetryTierAgrees(t: Tables, db: Db, ref: Ref, s: RetryTier.Snapshot, row: RetryTier.DraftRow)
    requires Represents(t, db) && DocOf(db, ref).draft.Some? && ref.documentId != ""
    requires IsDue(DocOf(db, ref).draft.value.unpublishAt, s.now)
    requires Reads(s, row, t, Stored(ref, false, DocOf(db, ref).draft.value))
    ensures RetryTier.Attemptable(s, row) <==>
      && UnpublishTx(db, ref, DocOf(db, ref).revision, s.now).outcome != Skipped
      && BackoffOver(s.withdrawals, ref, s.now, RetryTier.RevisionOf(s, ref.documentId))
  {
    RowsMean(t, db, ref, s.now);
  }

  /** The WHERE clause of the retry walk's queries. */
  predicate SelectsRetry(t: Tables, d: Stored, now: int) {
    d in t.rows && !d.published && IsDue(d.row.unpublishAt, now) && d.row.scheduleError.Some?
  }

  /** Every due withdrawal of a published document is in exactly one tier, and eligible there. */
  lemma NoDueWithdrawalIsHidden(t: Tables, db: Db, ref: Ref, s: RetryTier.Snapshot, row: RetryTier.DraftRow)
    requires Represents(t, db) && DocOf(db, ref).draft.Some? && DocOf(db, ref).published.Some? && ref.documentId != ""
    requires IsDue(DocOf(db, ref).draft.value.unpublishAt, s.now)
    requires Reads(s, row, t, Stored(ref, false, DocOf(db, ref).draft.value))
    requires BackoffOver(s.withdrawals, ref, s.now, RetryTier.RevisionOf(s, ref.documentId))
    ensures var d := Stored(ref, false, DocOf(db, ref).draft.value);
      && (SelectsWithdrawal(t, d, s.now) <==> !SelectsRetry(t, d, s.now))
      && (SelectsRetry(t, d, s.now) ==> RetryTier.Attemptable(s, row))
  {
    RowsMean(t, db, ref, s.now);
    UnpublishedExactlyWhen(db, ref, DocOf(db, ref).revision, s.now);
  }
}

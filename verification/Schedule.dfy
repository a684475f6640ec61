/**
 * The scheduled publisher's transactions (apps/cms/src/cron/scheduled-publish.ts):
 * one per document, each under the document's lock. Every function here is
 * one committed transaction on the rows it finds; one that throws is rolled
 * back and changes nothing.
 */
module Schedule {
  import opened Common
  import opened Attempts
  import opened Documents

  const DEPENDENCY_WAIT: int := 60 * MINUTE

  datatype Outcome = Published | Unpublished | Cleared | Expired | Skipped

  /** What a transaction threw. */
  datatype Failure = NotPublishableError | ValidationError | ApplicationError | OtherError

  datatype Change = Change(db: Db, outcome: Outcome)

  // ---------------------------------------------------------------------
  // The transactions.

  /** Withdraws a due document, or clears the deadline of one that is not published. */
  function UnpublishTx(db: Db, ref: Ref, r: nat, at: int): Change {
    var doc := DocOf(db, ref);
    if doc.revision != r || doc.draft.None? || !IsDue(doc.draft.value.unpublishAt, at) then Change(db, Skipped)
    else if doc.published.None? && doc.draft.value.publishAt.Some? then Change(db, Skipped)
    else
      var claimed := doc.draft.value.(unpublishAt := None, scheduleError := None);
      if doc.published.None? then Change(Commit(db, ref, Some(claimed), None), Cleared)
      else Change(UnpublishAction(db, ref, Some(claimed)), Unpublished)
  }

  /** Publishes a due draft, or records that its window had ended. */
  function PublishTx(db: Db, ref: Ref, r: nat, at: int): Result<Change, Failure> {
    var doc := DocOf(db, ref);
    if doc.revision != r || doc.draft.None? || !IsDue(doc.draft.value.publishAt, at) then Ok(Change(db, Skipped))
    else
      var draft := doc.draft.value;
      if UnpublishScheduled(ref.uid) && IsDue(draft.unpublishAt, at) && doc.published.Some? then Ok(Change(db, Skipped))
      else if WindowEnded(ref.uid, draft, at) then
        var ended := draft.(publishAt := None, scheduleError := Some(WindowExpired),
          unpublishAt := if UnpublishScheduled(ref.uid) then None else draft.unpublishAt);
        Ok(Change(Commit(db, ref, Some(ended), doc.published), Expired))
      else
        match PublishAction(db, ref, draft.(publishAt := None))
        case None => Err(NotPublishableError)
        case Some(after) => Ok(Change(after, Published))
  }

  datatype DependencyState = TargetPublished | Waiting | NoTarget

  /** The state of a draft's course or parent at `now`. */
  function Dependency(db: Db, ref: Ref, now: int): DependencyState {
    var doc := DocOf(db, ref);
    if doc.draft.None? || Linked(db, ref.uid, doc.draft.value).None? then NoTarget
    else
      var target := DocOf(db, Linked(db, ref.uid, doc.draft.value).value);
      var due := doc.draft.value.publishAt;
      if target.published.Some? then TargetPublished
      else if due.None? || due.value + DEPENDENCY_WAIT <= now then NoTarget
      else if target.draft.Some? && IsDue(target.draft.value.publishAt, now) then Waiting
      else NoTarget
  }

  /** Whether a readiness refusal still holds on the locked rows. */
  predicate RefusalStillHolds(db: Db, ref: Ref, now: int) {
    var draft := DocOf(db, ref).draft;
    draft.Some? &&
    var blockers := Blockers(db, ref.uid, draft.value);
    blockers != {} && (Target in blockers ==> Dependency(db, ref, now) == NoTarget)
  }

  datatype Recording = Recorded(revision: nat) | Superseded | Stale
  datatype RecordChange = RecordChange(db: Db, recording: Recording)

  /** Records a failure for good; `judgedAt` asks the refusal to be judged again then. */
  function RecordTx(db: Db, ref: Ref, r: nat, pass: Pass, code: Code, judgedAt: Option<int>): RecordChange {
    var doc := DocOf(db, ref);
    if doc.revision != r then RecordChange(db, Superseded)
    else if judgedAt.Some? && !RefusalStillHolds(db, ref, judgedAt.value) then RecordChange(db, Stale)
    else if pass == Unpublish && doc.draft.Some? && doc.draft.value.scheduleError == Some(code) then
      RecordChange(db, Recorded(r))
    else RecordChange(Commit(db, ref, Marked(doc.draft, pass, code), doc.published), Recorded(r + 1))
  }

  function Marked(draft: Option<Row>, pass: Pass, code: Code): Option<Row> {
    match draft
    case None => None
    case Some(row) =>
      if pass == Publish then Some(row.(scheduleError := Some(code), publishAt := None))
      else Some(row.(scheduleError := Some(code)))
  }

  // ---------------------------------------------------------------------
  // What one transaction does, said of the rows themselves.

  predicate Reached(at: Option<int>, clock: int) {
    at.Some? && at.value <= clock
  }

  /** An announcement has expired, or a document's or quick link's withdrawal is due; nothing else has a window. */
  predicate WindowIsOver(uid: Uid, draft: Row, clock: int) {
    match uid
    case Announcement => Reached(draft.expiresAt, clock)
    case DocumentType => Reached(draft.unpublishAt, clock)
    case QuickLink => Reached(draft.unpublishAt, clock)
    case _ => false
  }

  /** A withdrawal is due, and a published row is there for it. */
  predicate WithdrawalIsDue(uid: Uid, doc: Document, clock: int) {
    (uid == DocumentType || uid == QuickLink) && doc.draft.Some? && doc.published.Some? &&
    Reached(doc.draft.value.unpublishAt, clock)
  }

  /** The draft's own fields are valid and its course or parent is right. */
  predicate Ready(db: Db, uid: Uid, row: Row) {
    row.complete && LinkIsRight(db, uid, row)
  }

  /** The rows with one document's replaced, at its next revision. */
  function With(db: Db, ref: Ref, draft: Row, published: Option<Row>): Db {
    db[ref := Document(DocOf(db, ref).revision + 1, Some(draft), published, DocOf(db, ref).deleted)]
  }

  /** A publish acts for this draft: selected at its revision, and due. */
  predicate PublishActs(doc: Document, r: nat, at: int) {
    doc.revision == r && doc.draft.Some? && Reached(doc.draft.value.publishAt, at)
  }

  /**
   * A draft is published exactly when, at the selected revision and a clock
   * read under the lock, it is due, its window is open, its own fields are
   * valid and its course or parent is published; in its window but not ready
   * it is refused.
   */
  lemma PublishedExactlyWhen(db: Db, ref: Ref, r: nat, at: int)
    ensures var doc, tx := DocOf(db, ref), PublishTx(db, ref, r, at);
      && (tx.Ok? && tx.value.outcome == Published <==>
        PublishActs(doc, r, at) && !WindowIsOver(ref.uid, doc.draft.value, at) && Ready(db, ref.uid, doc.draft.value))
      && (tx == Err(NotPublishableError) <==>
        PublishActs(doc, r, at) && !WindowIsOver(ref.uid, doc.draft.value, at) && !Ready(db, ref.uid, doc.draft.value))
      && (tx.Ok? && tx.value.outcome == Published ==>
        var copy := doc.draft.value.(publishAt := None, scheduleError := None);
        tx.value.db == With(db, ref, copy, Some(copy)))
  {
    var doc := DocOf(db, ref);
    if doc.draft.Some? {
      var draft := doc.draft.value;
      BlockersMean(db, ref.uid, draft.(publishAt := None, scheduleError := None));
      assert WindowEnded(ref.uid, draft, at) <==> WindowIsOver(ref.uid, draft, at);
    }
  }

  /**
   * A due draft whose window has ended stays unpublished: its schedule goes,
   * with the withdrawal of a document or quick link, and the marker says why.
   * A published row that awaits its withdrawal is left to it.
   */
  lemma ExpiredExactlyWhen(db: Db, ref: Ref, r: nat, at: int)
    ensures var doc, tx := DocOf(db, ref), PublishTx(db, ref, r, at);
      && (tx.Ok? && tx.value.outcome == Expired <==>
        && PublishActs(doc, r, at) && WindowIsOver(ref.uid, doc.draft.value, at)
        && !WithdrawalIsDue(ref.uid, doc, at))
      && (tx.Ok? && tx.value.outcome == Expired ==>
        var ended := doc.draft.value.(publishAt := None, scheduleError := Some(WindowExpired));
        tx.value.db == With(db, ref, if ref.uid == Announcement then ended else ended.(unpublishAt := None),
          doc.published))
  {}

  /** Any other publish skips the document: not due, another revision, or left to its withdrawal. */
  lemma SkippedExactlyWhen(db: Db, ref: Ref, r: nat, at: int)
    ensures PublishTx(db, ref, r, at) == Ok(Change(db, Skipped)) <==>
      !PublishActs(DocOf(db, ref), r, at) || WithdrawalIsDue(ref.uid, DocOf(db, ref), at)
  {
    PublishedExactlyWhen(db, ref, r, at);
    ExpiredExactlyWhen(db, ref, r, at);
  }

  /**
   * A due withdrawal at the selected revision takes the published row, the
   * deadline, the marker and a pending publish; without a published row it
   * only clears the deadline, unless a publish is pending.
   */
  lemma UnpublishedExactlyWhen(db: Db, ref: Ref, r: nat, at: int)
    ensures var doc, tx := DocOf(db, ref), UnpublishTx(db, ref, r, at);
      var acts := doc.revision == r && doc.draft.Some? && Reached(doc.draft.value.unpublishAt, at);
      && (tx.outcome == Unpublished <==> acts && doc.published.Some?)
      && (tx.outcome == Cleared <==> acts && doc.published.None? && doc.draft.value.publishAt.None?)
      && (tx.outcome == Unpublished || tx.outcome == Cleared ==>
        tx.db == With(db, ref, doc.draft.value.(publishAt := None, unpublishAt := None, scheduleError := None), None))
      && (tx.outcome != Unpublished && tx.outcome != Cleared ==> tx == Change(db, Skipped))
  {}

  /** A recorded withdrawal failure keeps its deadline and a pending publish, and a repeat writes nothing. */
  lemma RecordedWithdrawalRepeats(db: Db, ref: Ref, r: nat, code: Code)
    requires DocOf(db, ref).revision == r && DocOf(db, ref).draft.Some?
    ensures var first := RecordTx(db, ref, r, Unpublish, code, None);
      && first.recording.Recorded?
      && DocOf(first.db, ref).draft == Some(DocOf(db, ref).draft.value.(scheduleError := Some(code)))
      && DocOf(first.db, ref).published == DocOf(db, ref).published
      && RecordTx(first.db, ref, first.recording.revision, Unpublish, code, None) == first
  {}

  /**
   * A draft waits for its course or parent: the document it names is not
   * published but has a due draft, and the draft's own time is less than
   * sixty minutes ago.
   */
  predicate WaitsForTarget(db: Db, uid: Uid, draft: Row, clock: int) {
    (uid == Lesson || uid == WikiPage) && draft.link.Some? && draft.publishAt.Some? &&
    clock < draft.publishAt.value + 60 * 60 * 1000 &&
    var target := Ref(if uid == Lesson then Course else WikiPage, draft.link.value);
    !IsPublished(db, target) && target in db && db[target].draft.Some? &&
      Reached(db[target].draft.value.publishAt, clock)
  }

  lemma WaitingMeans(db: Db, ref: Ref, now: int)
    requires DocOf(db, ref).draft.Some?
    ensures Dependency(db, ref, now) == Waiting <==> WaitsForTarget(db, ref.uid, DocOf(db, ref).draft.value, now)
    ensures Target in Blockers(db, ref.uid, DocOf(db, ref).draft.value) ==> Dependency(db, ref, now) != TargetPublished
  {}

  /** A readiness refusal stands: the draft is not ready, and does not wait for what it lacks. */
  predicate RefusalStands(db: Db, ref: Ref, clock: int) {
    var draft := DocOf(db, ref).draft;
    && draft.Some? && !Ready(db, ref.uid, draft.value)
    && (LinkIsRight(db, ref.uid, draft.value) || !WaitsForTarget(db, ref.uid, draft.value, clock))
  }

  lemma RefusalMeans(db: Db, ref: Ref, now: int)
    ensures RefusalStillHolds(db, ref, now) <==> RefusalStands(db, ref, now)
  {
    if DocOf(db, ref).draft.Some? {
      BlockersMean(db, ref.uid, DocOf(db, ref).draft.value);
      WaitingMeans(db, ref, now);
    }
  }

  /**
   * A readiness refusal is recorded exactly when on the locked rows the draft
   * is not ready and does not wait; it loses its schedule. Otherwise nothing
   * is written.
   */
  lemma RefusalRecordedExactlyWhen(db: Db, ref: Ref, r: nat, now: int)
    requires DocOf(db, ref).revision == r
    ensures var doc, record := DocOf(db, ref), RecordTx(db, ref, r, Publish, NotPublishable, Some(now));
      && (record.recording.Recorded? <==> RefusalStands(db, ref, now))
      && (!record.recording.Recorded? ==> record == RecordChange(db, Stale))
      && (record.recording.Recorded? ==>
        var marked := doc.draft.value.(publishAt := None, scheduleError := Some(NotPublishable));
        record == RecordChange(With(db, ref, marked, doc.published), Recorded(r + 1)))
  {
    RefusalMeans(db, ref, now);
  }

  /**
   * A record of a failure that is not judged again: nothing at another
   * revision; a withdrawal marked with that code already stays as it is; else
   * the draft gets the marker, and a publish loses its schedule.
   */
  lemma RecordedExactlyWhen(db: Db, ref: Ref, r: nat, pass: Pass, code: Code)
    requires DocOf(db, ref).draft.Some?
    ensures var doc, record := DocOf(db, ref), RecordTx(db, ref, r, pass, code, None);
      var marked := doc.draft.value.(scheduleError := Some(code));
      record ==
        if doc.revision != r then RecordChange(db, Superseded)
        else if pass == Publish then
          RecordChange(With(db, ref, marked.(publishAt := None), doc.published), Recorded(r + 1))
        else if doc.draft.value.scheduleError == Some(code) then RecordChange(db, Recorded(r))
        else RecordChange(With(db, ref, marked, doc.published), Recorded(r + 1))
  {}
}

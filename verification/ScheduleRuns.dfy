/**
 * Runs of the scheduled publisher: any number of runners in any process, and
 * authors, in any order. A runner's selection is not a step: the document,
 * the revision and the clock of its steps are arbitrary.
 */
module ScheduleRuns {
  import opened Common
  import opened Attempts
  import opened Documents
  import opened Schedule

  datatype Step =
    | Author(ref: Ref, action: Action)
    | Withdraw(ref: Ref, r: nat, at: int)
    | PublishDue(ref: Ref, r: nat, at: int)
    | RecordFailure(ref: Ref, r: nat, pass: Pass, code: Code, judgedAt: Option<int>)
    | RolledBack

  /** The unpublish pass only takes the types with `unpublishAt`. */
  predicate Scheduled(step: Step) {
    match step
    case Withdraw(ref, _, _) => UnpublishScheduled(ref.uid)
    case RecordFailure(ref, _, pass, _, _) => pass == Unpublish ==> UnpublishScheduled(ref.uid)
    case _ => true
  }

  function Next(db: Db, step: Step): Db {
    match step
    case Author(ref, action) => Act(db, ref, action)
    case Withdraw(ref, r, at) => UnpublishTx(db, ref, r, at).db
    case PublishDue(ref, r, at) =>
      var tx := PublishTx(db, ref, r, at);
      if tx.Ok? then tx.value.db else db
    case RecordFailure(ref, r, pass, code, judgedAt) => RecordTx(db, ref, r, pass, code, judgedAt).db
    case RolledBack => db
  }

  /** The rows after the first `n` steps. */
  function At(db: Db, run: seq<Step>, n: nat): Db
    requires n <= |run|
  {
    if n == 0 then db else Next(At(db, run, n - 1), run[n - 1])
  }

  ghost predicate AllScheduled(run: seq<Step>) {
    forall i :: 0 <= i < |run| ==> Scheduled(run[i])
  }

  /** A step of a runner that acts for a document selected at a revision. */
  predicate ActsFor(step: Step, ref: Ref, r: nat) {
    (step.Withdraw? || step.PublishDue? || step.RecordFailure?) && step.ref == ref && step.r == r
  }

  predicate SameRows(a: Document, b: Document) {
    a.draft == b.draft && a.published == b.published
  }

  /** Step `i` of a run changes a document's rows. */
  predicate ChangesAt(db: Db, run: seq<Step>, i: nat, ref: Ref)
    requires i < |run|
  {
    !SameRows(DocOf(At(db, run, i), ref), DocOf(At(db, run, i + 1), ref))
  }

  // ---------------------------------------------------------------------
  // One change per revision.

  /** No runner that selected the document at `r` can change its rows any more. */
  predicate Past(doc: Document, r: nat) {
    if doc.deleted then doc.draft.None? && doc.published.None? else r < doc.revision
  }

  ghost predicate DeletedAreEmpty(db: Db) {
    forall ref :: ref in db && db[ref].deleted ==> db[ref].draft.None? && db[ref].published.None?
  }

  lemma DeletedStayEmpty(db: Db, step: Step)
    requires DeletedAreEmpty(db)
    ensures DeletedAreEmpty(Next(db, step))
  {}

  lemma PastStays(db: Db, step: Step, ref: Ref, r: nat)
    requires Past(DocOf(db, ref), r)
    ensures Past(DocOf(Next(db, step), ref), r)
  {}

  /** Every step that changes a document's rows raises its revision, or deletes it. */
  lemma ChangeRaisesRevision(db: Db, step: Step, ref: Ref)
    requires !SameRows(DocOf(db, ref), DocOf(Next(db, step), ref))
    ensures DocOf(Next(db, step), ref).deleted || DocOf(Next(db, step), ref).revision == DocOf(db, ref).revision + 1
    ensures step.RolledBack? || step.ref == ref
  {}

  lemma {:induction false} StaysDeletedEmpty(db: Db, run: seq<Step>, n: nat)
    requires DeletedAreEmpty(db) && n <= |run|
    ensures DeletedAreEmpty(At(db, run, n))
  {
    if n > 0 {
      StaysDeletedEmpty(db, run, n - 1);
      DeletedStayEmpty(At(db, run, n - 1), run[n - 1]);
    }
  }

  lemma {:induction false} StaysPast(db: Db, run: seq<Step>, m: nat, n: nat, ref: Ref, r: nat)
    requires m <= n <= |run| && Past(DocOf(At(db, run, m), ref), r)
    ensures Past(DocOf(At(db, run, n), ref), r)
  {
    if m < n {
      StaysPast(db, run, m, n - 1, ref, r);
      PastStays(At(db, run, n - 1), run[n - 1], ref, r);
    }
  }

  /**
   * Of all the runners that selected a document at one revision, in whatever
   * passes, at most one changes it; the others change nothing.
   */
  lemma OneChangePerRevision(db: Db, run: seq<Step>, i: nat, j: nat, ref: Ref, r: nat)
    requires DeletedAreEmpty(db) && i < j < |run|
    requires ActsFor(run[i], ref, r) && ActsFor(run[j], ref, r)
    ensures !(ChangesAt(db, run, i, ref) && ChangesAt(db, run, j, ref))
  {
    if ChangesAt(db, run, i, ref) {
      StaysDeletedEmpty(db, run, i + 1);
      ActedIsPast(At(db, run, i), run[i], ref, r);
      StaysPast(db, run, i + 1, j, ref, r);
      PastRefuses(At(db, run, j), run[j], ref, r);
    }
  }

  lemma ActedIsPast(db: Db, step: Step, ref: Ref, r: nat)
    requires ActsFor(step, ref, r) && !SameRows(DocOf(db, ref), DocOf(Next(db, step), ref))
    requires DeletedAreEmpty(Next(db, step))
    ensures Past(DocOf(Next(db, step), ref), r)
  {}

  lemma PastRefuses(db: Db, step: Step, ref: Ref, r: nat)
    requires ActsFor(step, ref, r) && Past(DocOf(db, ref), r)
    ensures SameRows(DocOf(db, ref), DocOf(Next(db, step), ref))
  {}

  /** A step keeps a deleted document deleted, and lowers no other document's revision. */
  lemma RevisionOnlyGrows(db: Db, step: Step, ref: Ref)
    ensures var before, after := DocOf(db, ref), DocOf(Next(db, step), ref);
      && (before.deleted ==> after.deleted)
      && (!after.deleted ==> before.revision <= after.revision)
      && (!after.deleted && before.revision == after.revision ==> SameRows(before, after))
  {
    if !SameRows(DocOf(db, ref), DocOf(Next(db, step), ref)) { ChangeRaisesRevision(db, step, ref); }
  }

  lemma {:induction false} RevisionGrows(db: Db, run: seq<Step>, m: nat, n: nat, ref: Ref)
    requires m <= n <= |run| && !DocOf(At(db, run, n), ref).deleted
    ensures !DocOf(At(db, run, m), ref).deleted
    ensures DocOf(At(db, run, m), ref).revision <= DocOf(At(db, run, n), ref).revision
  {
    if m < n {
      RevisionOnlyGrows(At(db, run, n - 1), run[n - 1], ref);
      RevisionGrows(db, run, m, n - 1, ref);
    }
  }

  /**
   * The revision stands for the rows: when a document is found at the same
   * revision again, its rows are the same, whatever happened in between.
   */
  lemma {:induction false} SameRevisionSameRows(db: Db, run: seq<Step>, m: nat, n: nat, ref: Ref)
    requires m <= n <= |run| && !DocOf(At(db, run, n), ref).deleted
    requires DocOf(At(db, run, m), ref).revision == DocOf(At(db, run, n), ref).revision
    ensures SameRows(DocOf(At(db, run, m), ref), DocOf(At(db, run, n), ref))
  {
    hide Next;
    if m < n {
      RevisionOnlyGrows(At(db, run, n - 1), run[n - 1], ref);
      RevisionGrows(db, run, m, n - 1, ref);
      SameRevisionSameRows(db, run, m, n - 1, ref);
    }
  }

  // ---------------------------------------------------------------------
  // Nothing is published early or late.

  /** A step publishes the draft as it stands: due, in its window, and ready. */
  predicate PublishesInTime(db: Db, step: Step, ref: Ref, published: Option<Row>) {
    var doc := DocOf(db, ref);
    && step.PublishDue? && step.ref == ref && step.r == doc.revision && doc.draft.Some?
    && Reached(doc.draft.value.publishAt, step.at) && !WindowIsOver(ref.uid, doc.draft.value, step.at)
    && Ready(db, ref.uid, doc.draft.value)
    && published == Some(doc.draft.value.(publishAt := None, scheduleError := None))
  }

  /** The draft an author's action is to publish: the stored one, or one saved with it. */
  function AuthorsDraft(db: Db, ref: Ref, action: Action): Option<Row> {
    match action
    case SavePublished(row) => if DocOf(db, ref).deleted then None else Some(row)
    case PublishNow => if DocOf(db, ref).deleted then None else DocOf(db, ref).draft
    case _ => None
  }

  /** An author publishes a ready draft. */
  predicate AuthorPublishes(db: Db, step: Step, ref: Ref, published: Option<Row>) {
    && step.Author? && step.ref == ref && AuthorsDraft(db, ref, step.action).Some?
    && Ready(db, ref.uid, AuthorsDraft(db, ref, step.action).value)
    && published == Some(AuthorsDraft(db, ref, step.action).value.(publishAt := None, scheduleError := None))
  }

  predicate MayPublish(db: Db, step: Step, ref: Ref, published: Option<Row>) {
    PublishesInTime(db, step, ref, published) || AuthorPublishes(db, step, ref, published)
  }

  lemma PublishedByAStep(db: Db, step: Step, ref: Ref)
    requires DocOf(Next(db, step), ref).published != DocOf(db, ref).published
    requires DocOf(Next(db, step), ref).published.Some?
    ensures MayPublish(db, step, ref, DocOf(Next(db, step), ref).published)
  {
    if step.PublishDue? && step.ref == ref { PublishedExactlyWhen(db, ref, step.r, step.at); }
    if step.Author? && step.ref == ref {
      if step.action.SavePublished? || step.action.PublishNow? { AuthorPublishesExactlyWhen(db, ref, step.action); }
    }
  }

  /** An author's publish goes up exactly when the draft is ready, without its schedule; else nothing changes. */
  lemma AuthorPublishesExactlyWhen(db: Db, ref: Ref, action: Action)
    requires action.SavePublished? || action.PublishNow?
    ensures var draft := AuthorsDraft(db, ref, action);
      Act(db, ref, action) ==
        if draft.None? || !Ready(db, ref.uid, draft.value) then db
        else
          var copy := draft.value.(publishAt := None, scheduleError := None);
          With(db, ref, copy, Some(copy))
  {
    var draft := AuthorsDraft(db, ref, action);
    if draft.Some? {
      BlockersMean(db, ref.uid, draft.value.(publishAt := None, scheduleError := None));
    }
  }

  /** The other actions publish nothing: what each leaves of a document. */
  lemma AuthorsOtherActions(db: Db, ref: Ref, action: Action)
    ensures var before, after := DocOf(db, ref), DocOf(Act(db, ref, action), ref);
      var there := before.draft.Some? || before.published.Some?;
      if before.deleted then after == before
      else
        match action
        case SaveDraft(row) =>
          after.draft == Some(row.(scheduleError := None)) && after.published == before.published
        case UnpublishNow =>
          && after.published.None? && (after.draft.Some? <==> before.draft.Some?)
          && (before.draft.Some? ==> after.draft.value == before.draft.value.(publishAt := None))
        case DiscardDraft =>
          && after.published == before.published && after.draft == before.published
          && after.deleted == (there && before.published.None?)
        case Delete => after == if there then Document(0, None, None, true) else before
        case _ => true
  {}

  /** The published row is the same from `m` to `n`. */
  ghost predicate StaysUp(db: Db, run: seq<Step>, m: nat, n: nat, ref: Ref, published: Option<Row>)
    requires m <= n <= |run|
  {
    forall k :: m <= k <= n ==> DocOf(At(db, run, k), ref).published == published
  }

  /** Step `i` puts the published row there in time, or is an author's that does, and it is up ever since. */
  ghost predicate PutUpAt(db: Db, run: seq<Step>, i: nat, n: nat, ref: Ref, published: Option<Row>)
    requires i < n <= |run|
  {
    && DocOf(At(db, run, i), ref).published != published && MayPublish(At(db, run, i), run[i], ref, published)
    && StaysUp(db, run, i + 1, n, ref, published)
  }

  /**
   * In every run a document's published row has been up unchanged from the
   * start, or since a step that put it there: an author's, or one that
   * published it in time from the draft it found under the lock.
   */
  lemma {:induction false} NothingIsPublishedOutOfTime(db: Db, run: seq<Step>, n: nat, ref: Ref)
    requires n <= |run| && DocOf(At(db, run, n), ref).published.Some?
    ensures var published := DocOf(At(db, run, n), ref).published;
      StaysUp(db, run, 0, n, ref, published) || exists i: nat :: i < n && PutUpAt(db, run, i, n, ref, published)
  {
    hide Next, MayPublish;
    if n > 0 {
      var last := n - 1;
      var before, after := DocOf(At(db, run, last), ref), DocOf(At(db, run, n), ref);
      if before.published == after.published {
        NothingIsPublishedOutOfTime(db, run, last, ref);
        if i: nat :| i < last && PutUpAt(db, run, i, last, ref, after.published) {
          assert PutUpAt(db, run, i, n, ref, after.published);
        }
      } else {
        PublishedByAStep(At(db, run, last), run[last], ref);
        assert PutUpAt(db, run, last, n, ref, after.published);
      }
    }
  }

  // ---------------------------------------------------------------------
  // Withdrawn content stays down.

  /** Not published, and no publish pending. */
  predicate Down(db: Db, ref: Ref) {
    DocOf(db, ref).published.None? && (DocOf(db, ref).draft.Some? ==> DocOf(db, ref).draft.value.publishAt.None?)
  }

  /** A withdrawal, or an author's. */
  predicate TakesDown(db: Db, step: Step, ref: Ref) {
    (step.Author? && step.ref == ref && step.action == UnpublishNow) ||
    (step.Withdraw? && step.ref == ref && UnpublishTx(db, ref, step.r, step.at).outcome == Unpublished)
  }

  lemma DownStays(db: Db, step: Step, ref: Ref)
    requires Down(db, ref) && !(step.Author? && step.ref == ref)
    ensures Down(Next(db, step), ref)
  {
    if step.PublishDue? { SkippedExactlyWhen(db, step.ref, step.r, step.at); }
  }

  /**
   * In every run withdrawn content stays down, whatever was scheduled before
   * the withdrawal, until an author acts on it.
   */
  lemma {:induction false} WithdrawnStaysDown(db: Db, run: seq<Step>, m: nat, n: nat, ref: Ref)
    requires DeletedAreEmpty(db) && m < n <= |run| && TakesDown(At(db, run, m), run[m], ref)
    ensures Down(At(db, run, n), ref) || exists i :: m < i < n && run[i].Author? && run[i].ref == ref
  {
    hide Next, Down;
    if n == m + 1 {
      StaysDeletedEmpty(db, run, m);
      WithdrawnIsDown(At(db, run, m), run[m], ref);
    } else {
      WithdrawnStaysDown(db, run, m, n - 1, ref);
      if Down(At(db, run, n - 1), ref) && !(run[n - 1].Author? && run[n - 1].ref == ref) {
        DownStays(At(db, run, n - 1), run[n - 1], ref);
      }
    }
  }

  lemma WithdrawnIsDown(db: Db, step: Step, ref: Ref)
    requires DeletedAreEmpty(db) && TakesDown(db, step, ref)
    ensures Down(Next(db, step), ref)
  {
    if step.Withdraw? { UnpublishedExactlyWhen(db, ref, step.r, step.at); }
  }

  // ---------------------------------------------------------------------
  // A withdrawal is never dropped.

  predicate Pending(db: Db, ref: Ref, deadline: int) {
    var doc := DocOf(db, ref);
    doc.published.Some? && doc.draft.Some? && doc.draft.value.unpublishAt == Some(deadline)
  }

  predicate Withdraws(db: Db, step: Step, ref: Ref, deadline: int) {
    step.Withdraw? && step.ref == ref && deadline <= step.at &&
    UnpublishTx(db, ref, step.r, step.at).outcome == Unpublished
  }

  /** A step without an author keeps the deadline of a published document, or withdraws the document. */
  lemma DeadlineSurvives(db: Db, step: Step, ref: Ref, deadline: int)
    requires Pending(db, ref, deadline) && Scheduled(step)
    requires !(step.Author? && step.ref == ref)
    ensures Pending(Next(db, step), ref, deadline) <==> !Withdraws(db, step, ref, deadline)
  {}

  /** A step ends the deadline: it withdraws the document, or it is an author's on it. */
  predicate EndsDeadline(db: Db, step: Step, ref: Ref, deadline: int) {
    Withdraws(db, step, ref, deadline) || (step.Author? && step.ref == ref && !Pending(Next(db, step), ref, deadline))
  }

  /**
   * In every run a pending deadline stays pending until a step withdraws the
   * document after it has passed, or an author's own action ends it.
   */
  lemma {:induction false} WithdrawalIsNeverDropped(db: Db, run: seq<Step>, n: nat, ref: Ref, deadline: int)
    requires n <= |run| && AllScheduled(run) && Pending(db, ref, deadline)
    ensures Pending(At(db, run, n), ref, deadline) ||
      exists i :: 0 <= i < n && Pending(At(db, run, i), ref, deadline) &&
        EndsDeadline(At(db, run, i), run[i], ref, deadline)
  {
    hide Next, Withdraws, Pending, Scheduled;
    if n > 0 {
      WithdrawalIsNeverDropped(db, run, n - 1, ref, deadline);
      if Pending(At(db, run, n - 1), ref, deadline) && !(run[n - 1].Author? && run[n - 1].ref == ref) {
        DeadlineSurvives(At(db, run, n - 1), run[n - 1], ref, deadline);
      }
    }
  }

  // ---------------------------------------------------------------------
  // What every run keeps.

  /**
   * A published row carries no pending publish and no failure; a marker
   * beside a pending publish is a withdrawal's; a deleted document is empty.
   */
  predicate Tidy(ref: Ref, doc: Document) {
    && (doc.published.Some? ==> doc.published.value.publishAt.None? && doc.published.value.scheduleError.None?)
    && (doc.draft.Some? && doc.draft.value.scheduleError.Some? && doc.draft.value.publishAt.Some? ==>
      UnpublishScheduled(ref.uid))
    && (doc.published.Some? ==> doc.draft.Some?)
    && (doc.deleted ==> doc.draft.None? && doc.published.None?)
  }

  ghost predicate AllTidy(db: Db) {
    forall ref :: ref in db ==> Tidy(ref, db[ref])
  }

  lemma TidyStays(db: Db, step: Step)
    requires AllTidy(db) && Scheduled(step)
    ensures AllTidy(Next(db, step))
  {
    hide Next, Tidy, Scheduled;
    forall ref | ref in Next(db, step)
      ensures Tidy(ref, Next(db, step)[ref])
    {
      assert Tidy(ref, DocOf(db, ref)) by { NoRowsAreTidy(ref); }
      TidyStaysAt(db, step, ref);
    }
  }

  lemma NoRowsAreTidy(ref: Ref)
    ensures Tidy(ref, Document(0, None, None, false))
  {}

  lemma TidyStaysAt(db: Db, step: Step, ref: Ref)
    requires Tidy(ref, DocOf(db, ref)) && Scheduled(step)
    ensures Tidy(ref, DocOf(Next(db, step), ref))
  {
    hide Blockers;
  }

  lemma {:induction false} RunsAreTidy(run: seq<Step>, n: nat)
    requires n <= |run| && AllScheduled(run)
    ensures AllTidy(At(map[], run, n))
  {
    if n > 0 {
      RunsAreTidy(run, n - 1);
      TidyStays(At(map[], run, n - 1), run[n - 1]);
    }
  }

  // ---------------------------------------------------------------------
  // Parent loops.

  /** Unpublished pages whose parents are pages of the set. */
  ghost predicate Loop(db: Db, pages: set<string>) {
    forall id :: id in pages ==>
      var doc := DocOf(db, Ref(WikiPage, id));
      doc.published.None? && doc.draft.Some? && doc.draft.value.link.Some? && doc.draft.value.link.value in pages
  }

  /** An author's step on a page of the set. */
  predicate AuthorTouches(step: Step, pages: set<string>) {
    step.Author? && step.ref.uid == WikiPage && step.ref.documentId in pages
  }

  /** The scheduler never publishes a page whose parents loop back, and leaves its parent alone. */
  lemma LoopStays(db: Db, step: Step, pages: set<string>)
    requires Loop(db, pages) && !AuthorTouches(step, pages)
    ensures Loop(Next(db, step), pages)
  {
    if step.PublishDue? && step.ref.uid == WikiPage && step.ref.documentId in pages {
      LoopBlocks(db, step.ref.documentId, pages);
      PublishedExactlyWhen(db, step.ref, step.r, step.at);
    }
  }

  lemma LoopBlocks(db: Db, id: string, pages: set<string>)
    requires Loop(db, pages) && id in pages
    ensures !LinkIsRight(db, WikiPage, DocOf(db, Ref(WikiPage, id)).draft.value)
  {
    var parent := DocOf(db, Ref(WikiPage, id)).draft.value.link.value;
    assert DocOf(db, Ref(WikiPage, parent)).published.None?;
  }

  /** In every run the pages of a loop stay unpublished and looped until an author touches one of them. */
  lemma {:induction false} LoopsNeverPublish(db: Db, run: seq<Step>, n: nat, pages: set<string>)
    requires n <= |run| && Loop(db, pages)
    ensures Loop(At(db, run, n), pages) ||
      exists i :: 0 <= i < n && Loop(At(db, run, i), pages) && AuthorTouches(run[i], pages)
  {
    hide Next, Loop;
    if n > 0 {
      LoopsNeverPublish(db, run, n - 1, pages);
      if Loop(At(db, run, n - 1), pages) && !AuthorTouches(run[n - 1], pages) {
        LoopStays(At(db, run, n - 1), run[n - 1], pages);
      }
    }
  }

  /** Once its wait is over, a looping page that is due is refused and the refusal is recorded. */
  lemma LoopEndsInARefusal(db: Db, id: string, pages: set<string>, at: int)
    requires Loop(db, pages) && id in pages
    requires var draft := DocOf(db, Ref(WikiPage, id)).draft.value;
      draft.publishAt.Some? && draft.publishAt.value + DEPENDENCY_WAIT <= at
    ensures var ref := Ref(WikiPage, id);
      var r := DocOf(db, ref).revision;
      && PublishTx(db, ref, r, at) == Err(NotPublishableError)
      && RecordTx(db, ref, r, Publish, NotPublishable, Some(at)).recording == Recorded(r + 1)
  {
    var r := DocOf(db, Ref(WikiPage, id)).revision;
    LoopBlocks(db, id, pages);
    PublishedExactlyWhen(db, Ref(WikiPage, id), r, at);
    RefusalRecordedExactlyWhen(db, Ref(WikiPage, id), r, at);
  }

  // ---------------------------------------------------------------------
  // Documents that are gone.

  /**
   * A failure record changes a document without rows exactly when it was
   * selected at the revision that now reads, and the failure is not one that
   * is judged again; all it changes is the revision.
   */
  lemma RecordWithoutRows(db: Db, ref: Ref, r: nat, pass: Pass, code: Code, judgedAt: Option<int>)
    requires DocOf(db, ref).draft.None? && DocOf(db, ref).published.None?
    ensures var before, after := DocOf(db, ref), DocOf(RecordTx(db, ref, r, pass, code, judgedAt).db, ref);
      && (after != before <==> before.revision == r && judgedAt.None?)
      && (after != before ==> after == before.(revision := r + 1))
  {}

  /** The document a failure record at revision 0 finds after an author deleted it. */
  function AfterLateRecord(db: Db, ref: Ref, pass: Pass, code: Code): Document {
    DocOf(At(db, [Author(ref, Delete), RecordFailure(ref, 0, pass, code, None)], 2), ref)
  }

  /**
   * So a document that had no revision row yet, selected at revision 0 and
   * deleted while its transaction fails, gets a revision row after its
   * deletion; its rows stay gone.
   */
  lemma LateRecordCountsADeletedDocument(db: Db, ref: Ref, pass: Pass, code: Code)
    requires DocOf(db, ref).revision == 0 && !DocOf(db, ref).deleted && DocOf(db, ref).draft.Some?
    ensures AfterLateRecord(db, ref, pass, code) == Document(1, None, None, true)
  {
    var run := [Author(ref, Delete), RecordFailure(ref, 0, pass, code, None)];
    assert At(db, run, 0) == db;
    assert At(db, run, 1) == Removed(db, ref);
    assert At(db, run, 2) == Next(At(db, run, 1), run[1]);
    RecordWithoutRows(Removed(db, ref), ref, 0, pass, code, None);
  }
}

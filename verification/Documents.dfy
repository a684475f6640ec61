/**
 * The rows the scheduled publisher works on (apps/cms/src/utils/schedule.ts,
 * utils/document-lock.ts, utils/publish-readiness.ts): documents with a
 * revision, a draft row and a published row, and what an action of the
 * Document Service does to them inside the document lock's transaction.
 */
module Documents {
  import opened Common

  datatype Uid = Announcement | Event | DocumentType | QuickLink | WikiPage | Course | Lesson
  datatype Ref = Ref(uid: Uid, documentId: string)
  datatype Code = NotPublishable | Invalid | Rejected | WindowExpired | RetryExhausted

  /** A row; `complete` says that its own fields pass the published validation's checks. */
  datatype Row = Row(
    publishAt: Option<int>,
    unpublishAt: Option<int>,
    scheduleError: Option<Code>,
    expiresAt: Option<int>,
    link: Option<string>,
    complete: bool,
    body: string)

  /** A deleted document keeps its (never reused) id, without rows. */
  datatype Document = Document(revision: nat, draft: Option<Row>, published: Option<Row>, deleted: bool)

  type Db = map<Ref, Document>

  function DocOf(db: Db, ref: Ref): Document {
    if ref in db then db[ref] else Document(0, None, None, false)
  }

  /** The types that also have `unpublishAt`. */
  predicate UnpublishScheduled(uid: Uid) {
    uid == DocumentType || uid == QuickLink
  }

  predicate IsDue(at: Option<int>, now: int) {
    at.Some? && at.value <= now
  }

  /** Whether a publish of this draft comes too late. */
  predicate WindowEnded(uid: Uid, draft: Row, now: int) {
    if uid == Announcement then IsDue(draft.expiresAt, now)
    else UnpublishScheduled(uid) && IsDue(draft.unpublishAt, now)
  }

  // ---------------------------------------------------------------------
  // Publish readiness.

  /** The type a draft's course or parent has. */
  function ReadinessTarget(uid: Uid): Option<Uid> {
    if uid == Lesson then Some(Course) else if uid == WikiPage then Some(WikiPage) else None
  }

  /** The document a draft's course or parent relation holds; a deleted one drops out of it. */
  function Linked(db: Db, uid: Uid, row: Row): Option<Ref> {
    if ReadinessTarget(uid).None? || row.link.None? then None
    else
      var target := Ref(ReadinessTarget(uid).value, row.link.value);
      if DocOf(db, target).draft.None? && DocOf(db, target).published.None? then None else Some(target)
  }

  datatype Blocker = Field | Target

  function Blockers(db: Db, uid: Uid, row: Row): set<Blocker> {
    (if row.complete then {} else {Field}) +
    match Linked(db, uid, row)
    case None => if uid == Lesson then {Target} else {}
    case Some(target) => if DocOf(db, target).published.Some? then {} else {Target}
  }

  /** The document has a row, a draft or a published one. */
  predicate Exists(db: Db, ref: Ref) {
    ref in db && (db[ref].draft.Some? || db[ref].published.Some?)
  }

  predicate IsPublished(db: Db, ref: Ref) {
    ref in db && db[ref].published.Some?
  }

  /**
   * A lesson needs a published course; a wiki page a published parent, unless
   * it names none or one that is gone; the other types need nothing.
   */
  predicate LinkIsRight(db: Db, uid: Uid, row: Row) {
    match uid
    case Lesson => row.link.Some? && IsPublished(db, Ref(Course, row.link.value))
    case WikiPage =>
      row.link.Some? && Exists(db, Ref(WikiPage, row.link.value)) ==> IsPublished(db, Ref(WikiPage, row.link.value))
    case _ => true
  }

  /** What blocks a draft: a field of its own, and a link that is not right. */
  lemma BlockersMean(db: Db, uid: Uid, row: Row)
    ensures Field in Blockers(db, uid, row) <==> !row.complete
    ensures Target in Blockers(db, uid, row) <==> !LinkIsRight(db, uid, row)
    ensures Blockers(db, uid, row) == {} <==> row.complete && LinkIsRight(db, uid, row)
  {
    assert Blockers(db, uid, row) == {} <==> Field !in Blockers(db, uid, row) && Target !in Blockers(db, uid, row);
  }

  // ---------------------------------------------------------------------
  // Document Service actions.

  /** The document's rows after a locked write: the revision goes up by one. */
  function Commit(db: Db, ref: Ref, draft: Option<Row>, published: Option<Row>): Db {
    db[ref := Document(DocOf(db, ref).revision + 1, draft, published, DocOf(db, ref).deleted)]
  }

  function Unscheduled(row: Row): Row {
    row.(publishAt := None, scheduleError := None)
  }

  /** `publish` of a stored draft: schedule-clear, readiness, then the copy. */
  function PublishAction(db: Db, ref: Ref, draft: Row): Option<Db> {
    if Blockers(db, ref.uid, Unscheduled(draft)) != {} then None
    else Some(Commit(db, ref, Some(Unscheduled(draft)), Some(Unscheduled(draft))))
  }

  /** `unpublish`: schedule-clear drops a pending publish, the published row goes. */
  function UnpublishAction(db: Db, ref: Ref, draft: Option<Row>): Db {
    Commit(db, ref, match draft case Some(row) => Some(row.(publishAt := None)) case None => None, None)
  }

  datatype Action =
    | SaveDraft(row: Row)
    | SavePublished(row: Row)
    | PublishNow
    | UnpublishNow
    | DiscardDraft
    | Delete

  /** A save, a publish or a removal by an author or the admin panel; a refused one changes nothing. */
  function Act(db: Db, ref: Ref, action: Action): Db {
    var doc := DocOf(db, ref);
    if doc.deleted then db
    else
      match action
      case SaveDraft(row) => Commit(db, ref, Some(row.(scheduleError := None)), doc.published)
      case SavePublished(row) => Published(db, PublishAction(db, ref, row))
      case PublishNow => if doc.draft.None? then db else Published(db, PublishAction(db, ref, doc.draft.value))
      case UnpublishNow => if doc.draft.None? && doc.published.None? then db else UnpublishAction(db, ref, doc.draft)
      case DiscardDraft =>
        if doc.published.Some? then Commit(db, ref, doc.published, doc.published)
        else if doc.draft.Some? then Removed(db, ref) else db
      case Delete => if doc.draft.None? && doc.published.None? then db else Removed(db, ref)
  }

  function Published(db: Db, after: Option<Db>): Db {
    if after.Some? then after.value else db
  }

  /** The version row goes with the document. */
  function Removed(db: Db, ref: Ref): Db {
    db[ref := Document(0, None, None, true)]
  }
}

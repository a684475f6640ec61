/**
 * The scheduled publisher as it runs (apps/cms/src/cron/scheduled-publish.ts):
 * transactions that change the rows statement by statement and roll back on
 * an error, and the failure handling around them. Each method is tied to
 * the transaction it stands for in module Schedule.
 */
module Scheduler {
  import opened Common
  import opened Attempts
  import opened Documents
  import opened Schedule

  /** The lists of a run's result. */
  datatype Tally = Done(outcome: Outcome) | Failed | Retrying
  datatype Entry = Entry(ref: Ref, tally: Tally)

  /** An error thrown by the statement with this number; none when the transaction ends before it. */
  datatype Fault = Fault(statement: nat, failure: Failure)

  predicate Throws(fault: Option<Fault>, statement: nat) {
    fault.Some? && fault.value.statement == statement
  }

  /** Whether a failure is tried again before it counts: a transient one, unless the withdrawal backs off already. */
  predicate Transient(failure: Failure, pass: Pass, withdrawalFailures: nat) {
    failure == OtherError && !(pass == Unpublish && withdrawalFailures > 0)
  }

  function CodeOf(failure: Failure): Code {
    match failure
    case NotPublishableError => NotPublishable
    case ValidationError => Invalid
    case ApplicationError => Rejected
    case OtherError => RetryExhausted
  }

  /** What the world does around one document's handling: clocks, faults, and the rows others left in between. */
  datatype Surroundings = Surroundings(
    before: Db,
    clock: int,
    fault: Option<Fault>,
    meanwhile: Db,
    recordClock: int,
    recordFault: Option<Fault>,
    deferClock: int)

  /** The transaction of a pass, when nothing outside the rows throws. */
  function PassTx(db: Db, ref: Ref, r: nat, pass: Pass, at: int): Result<Change, Failure> {
    if pass == Publish then PublishTx(db, ref, r, at) else Ok(UnpublishTx(db, ref, r, at))
  }

  /** What the process remembers of failures, and how many entries of each kind at most. */
  datatype Memory = Memory(counts: seq<Kept<AttemptKey, nat>>, withdrawals: seq<Kept<Ref, Deferral>>, limit: nat)

  function CountIn(m: Memory, key: AttemptKey): nat {
    match Get(m.counts, key) case None => 0 case Some(count) => count
  }

  function FailuresIn(m: Memory, ref: Ref): nat {
    match Get(m.withdrawals, ref) case None => 0 case Some(d) => d.failures
  }

  /** A committed transaction clears its document, unless it skipped it. */
  function AfterCommit(m: Memory, ref: Ref, r: nat, pass: Pass, outcome: Outcome): Memory {
    if outcome == Skipped then m
    else
      m.(counts := Without(m.counts, AttemptKey(ref, r, pass)),
         withdrawals := if pass == Unpublish then Without(m.withdrawals, ref) else m.withdrawals)
  }

  /**
   * A transient failure is counted; a recorded one is cleared, and as a
   * withdrawal backs off from the record's revision.
   */
  function AfterFailure(m: Memory, ref: Ref, r: nat, pass: Pass, s: Surroundings, failure: Failure,
                        end: Tally): Memory {
    var key, failures := AttemptKey(ref, r, pass), FailuresIn(m, ref);
    var counted := if Transient(failure, pass, failures) then Put(m.counts, key, CountIn(m, key) +
      1, m.limit) else m.counts;
    var record := RecordTx(s.meanwhile, ref, r, pass, CodeOf(failure), Judged(s, pass, failure));
    if end == Failed && record.recording.Recorded? then
      m.(counts := Without(counted, key),
         withdrawals :=
           if pass == Publish then m.withdrawals
           else Put(m.withdrawals, ref,
                    Deferral(failures + 1, s.deferClock +
                      BackoffMinutes(failures + 1) * MINUTE, record.recording.revision), m.limit))
    else m.(counts := counted)
  }

  /** One document's handling: the rows and the memory it found, what was thrown, and what it left. */
  datatype Handling = Handling(read: Db, memory: Memory, thrown: Option<Failure>, after: Db, left: Memory)

  /** A commit and its list, or a failure and how it was settled. */
  predicate Handled(ref: Ref, r: nat, pass: Pass, before: Db, s: Surroundings, h: Handling, end: Tally) {
    match h.thrown
    case None =>
      && end.Done? && PassTx(before, ref, r, pass, s.clock) == Ok(Change(h.after, end.outcome))
      && h.left == AfterCommit(h.memory, ref, r, pass, end.outcome)
    case Some(failure) =>
      && CouldThrow(before, ref, r, pass, s, failure)
      && Settled(s, ref, r, pass, failure, FailuresIn(h.memory, ref),
                 CountIn(h.memory, AttemptKey(ref, r, pass)), h.after, end)
      && h.left == AfterFailure(h.memory, ref, r, pass, s, failure, end)
  }

  /** Each handling reads the rows and the memory the one before it left. */
  ghost predicate Chained(trail: seq<Handling>, rows: Db, memory: Memory, lastRows: Db, lastMemory: Memory) {
    if trail == [] then lastRows == rows && lastMemory == memory
    else
      && trail[0].read == rows && trail[0].memory == memory
      && (forall i :: 0 < i < |trail| ==> trail[i].read == trail[i - 1].after && trail[i].memory == trail[i - 1].left)
      && lastRows == trail[|trail| - 1].after && lastMemory == trail[|trail| - 1].left
  }

  class ScheduledPublisher {
    var db: Db
    var tally: seq<Entry>

    constructor (rows: Db)
      ensures db == rows && tally == []
    {
      db, tally := rows, [];
    }

    method UnpublishOne(ref: Ref, r: nat, at: int, fault: Option<Fault>) returns (result: Result<Outcome, Failure>)
      modifies this`db
      ensures result.Ok? ==> Change(db, result.value) == UnpublishTx(old(db), ref, r, at)
      ensures result.Err? ==> db == old(db) && fault.Some? && result.error == fault.value.failure
    {
      var saved := db;
      if Throws(fault, 0) { return Err(fault.value.failure); }
      var doc := DocOf(db, ref);
      if doc.revision != r { return Ok(Skipped); }
      if Throws(fault, 1) { return Err(fault.value.failure); }
      if doc.draft.None? || !IsDue(doc.draft.value.unpublishAt, at) { return Ok(Skipped); }
      var draft := doc.draft.value;
      if Throws(fault, 2) { return Err(fault.value.failure); }
      if doc.published.None? && draft.publishAt.Some? { return Ok(Skipped); }
      if Throws(fault, 3) { return Err(fault.value.failure); }
      SetRows(ref, Some(draft.(unpublishAt := None)), WithoutDeadline(doc.published));
      if draft.scheduleError.Some? {
        if Throws(fault, 4) { db := saved; return Err(fault.value.failure); }
        SetRows(ref, Some(draft.(unpublishAt := None, scheduleError := None)), DocOf(db, ref).published);
      }
      if Throws(fault, 5) { db := saved; return Err(fault.value.failure); }
      if doc.published.None? {
        db := Commit(db, ref, DocOf(db, ref).draft, None);
        result := Ok(Cleared);
      } else {
        db := UnpublishAction(db, ref, DocOf(db, ref).draft);
        result := Ok(Unpublished);
      }
      if Throws(fault, 6) { db := saved; return Err(fault.value.failure); }
    }

    method PublishOne(ref: Ref, r: nat, at: int, fault: Option<Fault>) returns (result: Result<Outcome, Failure>)
      modifies this`db
      ensures result.Ok? ==> PublishTx(old(db), ref, r, at) == Ok(Change(db, result.value))
      ensures result.Err? ==> db == old(db)
      ensures result.Err? ==>
        (fault.Some? && result.error == fault.value.failure) || PublishTx(old(db), ref, r, at) == Err(result.error)
    {
      var saved := db;
      if Throws(fault, 0) { return Err(fault.value.failure); }
      var doc := DocOf(db, ref);
      if doc.revision != r { return Ok(Skipped); }
      if Throws(fault, 1) { return Err(fault.value.failure); }
      if doc.draft.None? || !IsDue(doc.draft.value.publishAt, at) { return Ok(Skipped); }
      var draft := doc.draft.value;
      if UnpublishScheduled(ref.uid) && IsDue(draft.unpublishAt, at) {
        if Throws(fault, 2) { return Err(fault.value.failure); }
        if doc.published.Some? { return Ok(Skipped); }
      }
      if Throws(fault, 3) { return Err(fault.value.failure); }
      if WindowEnded(ref.uid, draft, at) {
        var ended := draft.(publishAt := None, scheduleError := Some(WindowExpired));
        if UnpublishScheduled(ref.uid) {
          ended := ended.(unpublishAt := None);
        }
        SetRows(ref, Some(ended), doc.published);
        if Throws(fault, 4) { db := saved; return Err(fault.value.failure); }
        db := Commit(db, ref, Some(ended), doc.published);
        assert db == Commit(saved, ref, Some(ended), doc.published);
        return Ok(Expired);
      }
      SetRows(ref, Some(draft.(publishAt := None)), doc.published);
      if Throws(fault, 5) { db := saved; return Err(fault.value.failure); }
      ClaimKeepsTargets(saved, ref, draft.(publishAt := None), doc.published);
      var after := PublishAction(db, ref, draft.(publishAt := None));
      if after.None? { db := saved; return Err(NotPublishableError); }
      db := after.value;
      assert db == PublishAction(saved, ref, draft.(publishAt := None)).value;
      if Throws(fault, 6) { db := saved; return Err(fault.value.failure); }
      result := Ok(Published);
    }

    /** `updateMany` on a document's rows: the revision stays. */
    method SetRows(ref: Ref, draft: Option<Row>, published: Option<Row>)
      modifies this`db
      ensures db == old(db)[ref := DocOf(old(db), ref).(draft := draft, published := published)]
    {
      db := db[ref := DocOf(db, ref).(draft := draft, published := published)];
    }

    method RecordScheduleFailure(ref: Ref, r: nat, pass: Pass, code: Code, judgedAt: Option<int>, fault: Option<Fault>)
      returns (result: Result<Recording, Failure>)
      modifies this`db
      ensures result.Ok? ==> RecordChange(db, result.value) == RecordTx(old(db), ref, r, pass, code, judgedAt)
      ensures result.Err? ==> db == old(db) && fault.Some?
    {
      var saved := db;
      if Throws(fault, 0) { return Err(fault.value.failure); }
      var doc := DocOf(db, ref);
      if doc.revision != r { return Ok(Superseded); }
      if judgedAt.Some? {
        if Throws(fault, 1) { return Err(fault.value.failure); }
        if !RefusalStillHolds(db, ref, judgedAt.value) { return Ok(Stale); }
      }
      if pass == Unpublish {
        if Throws(fault, 2) { return Err(fault.value.failure); }
        if doc.draft.Some? && doc.draft.value.scheduleError == Some(code) { return Ok(Recorded(r)); }
      }
      SetRows(ref, Marked(doc.draft, pass, code), doc.published);
      if Throws(fault, 3) { db := saved; return Err(fault.value.failure); }
      db := Commit(db, ref, DocOf(db, ref).draft, doc.published);
      if Throws(fault, 4) { db := saved; return Err(fault.value.failure); }
      result := Ok(Recorded(r + 1));
    }

    /**
     * One document of one pass. It ends in exactly one list: a committed
     * transaction's own, or the one its failure is settled in.
     */
    method RunScheduledDocument(ref: Ref, pass: Pass, r: nat, attempts: TransientAttempts, s: Surroundings)
      returns (ghost thrown: Option<Failure>)
      modifies this, attempts
      ensures attempts.cursors == old(attempts.cursors)
      ensures |tally| == |old(tally)| + 1 && tally[..|old(tally)|] == old(tally) && tally[|old(tally)|].ref == ref
      ensures var h := Handling(old(db), old(MemoryOf(attempts)), thrown, db, MemoryOf(attempts));
        Handled(ref, r, pass, old(db), s, h, tally[|old(tally)|].tally)
    {
      var outcome: Result<Outcome, Failure>;
      if pass == Publish {
        outcome := PublishOne(ref, r, s.clock, s.fault);
      } else {
        outcome := UnpublishOne(ref, r, s.clock, s.fault);
      }
      if outcome.Err? {
        thrown := Some(outcome.error);
        var end := SettleFailure(ref, pass, r, attempts, s, outcome.error);
        tally := tally + [Entry(ref, end)];
        return;
      }
      thrown := None;
      tally := tally + [Entry(ref, Done(outcome.value))];
      if outcome.value != Skipped {
        attempts.Clear(AttemptKey(ref, r, pass));
        if pass == Unpublish { attempts.ClearWithdrawal(ref); }
      }
    }

    /**
     * A pass over the selected documents: each is handled once, in order, at
     * the revision read just before, and ends as one document's handling does.
     */
    method RunPass(refs: seq<Ref>, pass: Pass, attempts: TransientAttempts, around: seq<Surroundings>)
      returns (ghost trail: seq<Handling>)
      requires |around| == |refs|
      modifies this, attempts
      ensures |tally| == |old(tally)| + |refs| && tally[..|old(tally)|] == old(tally)
      ensures |trail| == |refs| && Chained(trail, old(db), old(MemoryOf(attempts)), db, MemoryOf(attempts))
      ensures forall i :: 0 <= i < |refs| ==> InPass(refs[i], pass, around[i], trail[i], tally[|old(tally)| + i])
      ensures attempts.cursors == old(attempts.cursors)
    {
      hide Handled, Chained, InPass;
      trail := [];
      NothingHandled(db, MemoryOf(attempts));
      for i := 0 to |refs|
        invariant |tally| == |old(tally)| + i && tally[..|old(tally)|] == old(tally)
        invariant |trail| == i && Chained(trail, old(db), old(MemoryOf(attempts)), db, MemoryOf(attempts))
        invariant forall j :: 0 <= j < i ==> InPass(refs[j], pass, around[j], trail[j], tally[|old(tally)| + j])
        invariant attempts.cursors == old(attempts.cursors)
      {
        ghost var done, read, memory := tally, db, MemoryOf(attempts);
        var r := DocOf(db, refs[i]).revision;
        db := around[i].before;
        ghost var thrown := RunScheduledDocument(refs[i], pass, r, attempts, around[i]);
        ghost var h := Handling(around[i].before, memory, thrown, db, MemoryOf(attempts));
        ReadBefore(refs[i], pass, around[i], h, tally[|done|], read);
        OneMore(trail, h.(read := read), old(db), old(MemoryOf(attempts)));
        trail := trail + [h.(read := read)];
        assert tally[..|done|] == done;
        assert forall j :: 0 <= j < |done| ==> tally[j] == done[j];
      }
    }

    /** What follows a failure: another attempt later, or its record for good. */
    method SettleFailure(ref: Ref, pass: Pass, r: nat, attempts: TransientAttempts, s: Surroundings, failure: Failure)
      returns (end: Tally)
      modifies this`db, attempts
      ensures attempts.cursors == old(attempts.cursors)
      ensures Settled(s, ref, r, pass, failure, old(attempts.WithdrawalFailures(ref)),
        old(attempts.CountOf(AttemptKey(ref, r, pass))), db, end)
      ensures MemoryOf(attempts) == AfterFailure(old(MemoryOf(attempts)), ref, r, pass, s, failure, end)
    {
      NothingRecorded(s.meanwhile, ref, r, pass, CodeOf(failure), Judged(s, pass, failure));
      hide RecordTx, BackoffMinutes, DocOf, CodeOf, Judged, Get, Put, Without;
      var key := AttemptKey(ref, r, pass);
      db := s.meanwhile;
      var code := CodeOf(failure);
      if Transient(failure, pass, attempts.WithdrawalFailures(ref)) {
        var exhausted := attempts.Fail(key);
        if !exhausted { return Retrying; }
      }
      var recording := RecordScheduleFailure(ref, r, pass, code, Judged(s, pass, failure), s.recordFault);
      match recording {
        case Ok(Recorded(revision)) =>
          attempts.Clear(key);
          if pass == Unpublish { var _ := attempts.DeferWithdrawal(ref, s.deferClock, revision); }
          end := Failed;
        case Ok(Superseded) => end := Done(Skipped);
        case Ok(Stale) => end := Retrying;
        case Err(_) => end := Retrying;
      }
    }
  }

  /** What one document's handling may have thrown: an outside fault, or the refusal of its own draft. */
  predicate CouldThrow(db: Db, ref: Ref, r: nat, pass: Pass, s: Surroundings, failure: Failure) {
    (s.fault.Some? && s.fault.value.failure == failure) || PassTx(db, ref, r, pass, s.clock) == Err(failure)
  }

  /**
   * How a failure ends. The first four transient ones of a revision are only
   * tried again; any other is recorded with its own code, unless the
   * document moved on, the refusal no longer holds or recording fails too.
   */
  predicate Settled(s: Surroundings, ref: Ref, r: nat, pass: Pass, failure: Failure, failures: nat, count: nat,
                    after: Db, end: Tally) {
    var record := RecordTx(s.meanwhile, ref, r, pass, CodeOf(failure), Judged(s, pass, failure));
    if Transient(failure, pass, failures) && count + 1 < SCHEDULE_TRANSIENT_ATTEMPTS then
      end == Retrying && after == s.meanwhile
    else
      match end
      case Failed => record.recording.Recorded? && after == record.db
      case Done(outcome) => outcome == Skipped && record.recording.Superseded? && after == s.meanwhile
      case Retrying => (record.recording.Stale? || s.recordFault.Some?) && after == s.meanwhile
  }

  function MemoryOf(attempts: TransientAttempts): Memory
    reads attempts
  {
    Memory(attempts.counts, attempts.withdrawals, attempts.limit)
  }

  lemma ReadBefore(ref: Ref, pass: Pass, s: Surroundings, h: Handling, entry: Entry, read: Db)
    requires entry.ref == ref && Handled(ref, DocOf(read, ref).revision, pass, s.before, s, h, entry.tally)
    ensures InPass(ref, pass, s, h.(read := read), entry)
  {}

  lemma NothingHandled(rows: Db, memory: Memory)
    ensures Chained([], rows, memory, rows, memory)
  {}

  lemma OneMore(trail: seq<Handling>, h: Handling, rows: Db, memory: Memory)
    requires Chained(trail, rows, memory, h.read, h.memory)
    ensures Chained(trail + [h], rows, memory, h.after, h.left)
  {}

  /** One document of a pass: handled at the revision it had when read, on the rows as they were by then. */
  predicate InPass(ref: Ref, pass: Pass, s: Surroundings, h: Handling, entry: Entry) {
    entry.ref == ref && Handled(ref, DocOf(h.read, ref).revision, pass, s.before, s, h, entry.tally)
  }

  /**
   * While recording works, a withdrawal that is to be tried again has failed
   * less often than five times at its revision, and this time is counted.
   */
  lemma RetriesAreCounted(ref: Ref, r: nat, before: Db, s: Surroundings, h: Handling)
    requires Handled(ref, r, Unpublish, before, s, h, Retrying) && s.recordFault.None?
    requires Distinct(h.memory.counts) && |h.memory.counts| <= h.memory.limit && 0 < h.memory.limit
    ensures var key := AttemptKey(ref, r, Unpublish);
      CountIn(h.left, key) == CountIn(h.memory, key) + 1 < SCHEDULE_TRANSIENT_ATTEMPTS
  {
    hide RecordTx, PassTx;
    assert Judged(s, Unpublish, h.thrown.value).None?;
    NeverStale(s.meanwhile, ref, r, CodeOf(h.thrown.value));
    var key := AttemptKey(ref, r, Unpublish);
    OnlyTheOldestIsForgotten(h.memory.counts, key, CountIn(h.memory, key) + 1, h.memory.limit, key);
    hide Get, Put;
  }

  /** Tried again without a record: an unknown error, the first four times, unless the withdrawal backs off already. */
  predicate TriedAgain(failure: Failure, pass: Pass, failures: nat, count: nat) {
    failure == OtherError && (pass == Publish || failures == 0) && count <= 3
  }

  /** A refused publish that is ready by now, or waits for its course or parent. */
  predicate RefusalIsOver(s: Surroundings, ref: Ref, pass: Pass, failure: Failure) {
    pass == Publish && failure == NotPublishableError && !RefusalStands(s.meanwhile, ref, s.recordClock)
  }

  /** The marker each error leaves. */
  predicate MarkedFor(failure: Failure, code: Code) {
    && (code == NotPublishable <==> failure == NotPublishableError)
    && (code == Invalid <==> failure == ValidationError)
    && (code == Rejected <==> failure == ApplicationError)
    && (code == RetryExhausted <==> failure == OtherError)
  }

  /** The rows with a draft marked: a publish loses its schedule, a withdrawal marked so already is left as it is. */
  function WithMarker(db: Db, ref: Ref, pass: Pass, code: Code): Db
    requires DocOf(db, ref).draft.Some?
  {
    var doc := DocOf(db, ref);
    var marked := doc.draft.value.(scheduleError := Some(code));
    if pass == Publish then With(db, ref, marked.(publishAt := None), doc.published)
    else if doc.draft.value == marked then db
    else With(db, ref, marked, doc.published)
  }

  /**
   * How a failed transaction of a document ends, and what it leaves of the
   * rows: tried again, superseded by a newer revision, dropped because the
   * refusal is over, or recorded with the marker of its error. Recording may
   * itself fail, and then it is tried again.
   */
  lemma FailureEndsExactlyWhen(ref: Ref, r: nat, pass: Pass, before: Db, s: Surroundings, h: Handling, end: Tally)
    requires Handled(ref, r, pass, before, s, h, end) && h.thrown.Some?
    ensures var failure, doc := h.thrown.value, DocOf(s.meanwhile, ref);
      var again := TriedAgain(failure, pass, FailuresIn(h.memory, ref), CountIn(h.memory, AttemptKey(ref, r, pass)));
      && (end != Failed ==> h.after == s.meanwhile)
      && (end ==
        (if again then Retrying
         else if doc.revision != r then Done(Skipped)
         else if RefusalIsOver(s, ref, pass, failure) then Retrying else Failed)
        || (end == Retrying && s.recordFault.Some?))
      && (end == Failed && doc.draft.Some? ==>
        exists code :: MarkedFor(failure, code) && h.after == WithMarker(s.meanwhile, ref, pass, code))
  {
    var failure := h.thrown.value;
    RefusalMeans(s.meanwhile, ref, s.recordClock);
    if DocOf(s.meanwhile, ref).draft.Some? {
      RecordedExactlyWhen(s.meanwhile, ref, r, pass, CodeOf(failure));
      RefusalRecordedExactlyWhen(s.meanwhile, ref, DocOf(s.meanwhile, ref).revision, s.recordClock);
    }
    assert MarkedFor(failure, CodeOf(failure));
    hide AfterFailure, CouldThrow;
  }

  ghost predicate SoundMemory(m: Memory) {
    && 0 < m.limit && Distinct(m.counts) && |m.counts| <= m.limit
    && Distinct(m.withdrawals) && |m.withdrawals| <= m.limit
  }

  /**
   * What the process remembers after a failure: a recorded one starts the
   * count over, and a recorded withdrawal is held back for its pause from the
   * recorded revision on; any other only counts an unknown error.
   */
  lemma RememberedAfterFailure(ref: Ref, r: nat, pass: Pass, before: Db, s: Surroundings, h: Handling, end: Tally)
    requires Handled(ref, r, pass, before, s, h, end) && h.thrown.Some? && SoundMemory(h.memory)
    ensures var key, failures := AttemptKey(ref, r, pass), FailuresIn(h.memory, ref);
      var counts := h.thrown.value == OtherError && (pass == Publish || failures == 0);
      && CountIn(h.left, key) == (if end == Failed then 0 else CountIn(h.memory, key) + if counts then 1 else 0)
      && (end != Failed || pass == Publish ==> h.left.withdrawals == h.memory.withdrawals)
      && (end == Failed && pass == Unpublish ==>
        && FailuresIn(h.left, ref) == failures + 1
        && forall t, rev :: BackoffOver(h.left.withdrawals, ref, t, rev) <==>
          rev != DocOf(h.after, ref).revision || s.deferClock + Pause(failures + 1) <= t)
  {
    hide RecordTx, Get, Put, Without, BackoffMinutes, CouldThrow, BackoffOver, Pause, DocOf, CodeOf, Judged, Distinct;
    var m, key, failures := h.memory, AttemptKey(ref, r, pass), FailuresIn(h.memory, ref);
    CountOneMore(m, key);
    GoneAfterwards(m.counts, key);
    GoneAfterwards(Put(m.counts, key, CountIn(m, key) + 1, m.limit), key);
    var record := RecordTx(s.meanwhile, ref, r, pass, CodeOf(h.thrown.value), Judged(s, pass, h.thrown.value));
    if record.recording.Recorded? {
      HeldBack(m, ref, s.deferClock, record.recording.revision);
      RecordedRevision(s.meanwhile, ref, r, pass, CodeOf(h.thrown.value), Judged(s, pass, h.thrown.value));
    }
  }

  lemma CountOneMore(m: Memory, key: AttemptKey)
    requires SoundMemory(m)
    ensures Get(Put(m.counts, key, CountIn(m, key) + 1, m.limit), key) == Some(CountIn(m, key) + 1)
  {
    OnlyTheOldestIsForgotten(m.counts, key, CountIn(m, key) + 1, m.limit, key);
  }

  lemma HeldBack(m: Memory, ref: Ref, now: int, revision: nat)
    requires SoundMemory(m)
    ensures var failures := FailuresIn(m, ref) + 1;
      var after := Put(m.withdrawals, ref, Deferral(failures, now + BackoffMinutes(failures) * MINUTE, revision),
        m.limit);
      && Get(after, ref).Some? && Get(after, ref).value.failures == failures
      && forall t, r :: BackoffOver(after, ref, t, r) <==> r != revision || now + Pause(failures) <= t
  {
    var failures := FailuresIn(m, ref) + 1;
    var entry := Deferral(failures, now + BackoffMinutes(failures) * MINUTE, revision);
    DeferredUntil(m.withdrawals, ref, failures, now, revision, m.limit);
    OnlyTheOldestIsForgotten(m.withdrawals, ref, entry, m.limit, ref);
  }

  lemma GoneAfterwards<K, V>(m: seq<Kept<K, V>>, key: K)
    ensures Get(Without(m, key), key).None?
  {
    KeyIsGone(m, key, key);
    GetMeans(Without(m, key), key);
  }

  lemma RecordedRevision(db: Db, ref: Ref, r: nat, pass: Pass, code: Code, judgedAt: Option<int>)
    ensures var record := RecordTx(db, ref, r, pass, code, judgedAt);
      record.recording.Recorded? ==> record.recording.revision == DocOf(record.db, ref).revision
  {}

  /**
   * A committed transaction starts its document's count over, and a withdrawal's
   * backoff; a skipped one leaves both.
   */
  lemma RememberedAfterCommit(ref: Ref, r: nat, pass: Pass, before: Db, s: Surroundings, h: Handling, end: Tally)
    requires Handled(ref, r, pass, before, s, h, end) && h.thrown.None?
    ensures end.Done? && (end.outcome == Skipped ==> h.left == h.memory)
    ensures end.outcome != Skipped ==> CountIn(h.left, AttemptKey(ref, r, pass)) == 0
    ensures end.outcome != Skipped && pass == Unpublish ==>
      FailuresIn(h.left, ref) == 0 && forall t, rev :: BackoffOver(h.left.withdrawals, ref, t, rev)
    ensures pass == Publish ==> h.left.withdrawals == h.memory.withdrawals
  {
    GoneAfterwards(h.memory.counts, AttemptKey(ref, r, pass));
    GoneAfterwards(h.memory.withdrawals, ref);
    hide PassTx, Get, Without;
  }

  lemma NeverStale(db: Db, ref: Ref, r: nat, code: Code)
    ensures !RecordTx(db, ref, r, Unpublish, code, None).recording.Stale?
  {}

  lemma NothingRecorded(db: Db, ref: Ref, r: nat, pass: Pass, code: Code, judgedAt: Option<int>)
    ensures var record := RecordTx(db, ref, r, pass, code, judgedAt); !record.recording.Recorded? ==> record.db == db
  {}

  function WithoutDeadline(row: Option<Row>): Option<Row> {
    match row case None => None case Some(p) => Some(p.(unpublishAt := None))
  }

  /** A readiness refusal of a publish is judged again when it is recorded. */
  function Judged(s: Surroundings, pass: Pass, failure: Failure): Option<int> {
    if pass == Publish && failure == NotPublishableError then Some(s.recordClock) else None
  }

  /** The claim on a document's own draft does not change which target it needs, or whether it is published. */
  lemma ClaimKeepsTargets(db: Db, ref: Ref, draft: Row, published: Option<Row>)
    requires DocOf(db, ref).draft.Some? && DocOf(db, ref).published == published
    ensures var claimed := db[ref := DocOf(db, ref).(draft := Some(draft), published := published)];
      Blockers(claimed, ref.uid, Unscheduled(draft)) == Blockers(db, ref.uid, Unscheduled(draft))
  {
    var claimed := db[ref := DocOf(db, ref).(draft := Some(draft), published := published)];
    assert Linked(claimed, ref.uid, Unscheduled(draft)) == Linked(db, ref.uid, Unscheduled(draft));
  }
}

/**
 * Recurring training (packages/domain/src/training.ts): when a receipt is
 * due again, whether a course is done, and the newest receipt of a lesson.
 */
module Training {
  import opened Common
  import opened Text
  import opened Calendar
  import opened PlainDate
  import opened WallTime

  const RENEWAL_WINDOW_DAYS: int := 30

  /** A receipt's `completedAt`: its text, and the instant it reads as (none when unreadable). */
  datatype Stamp = Stamp(text: string, ms: Option<int>)

  type Receipts = map<string, Option<Stamp>>

  /** A course that never expires has no validity, or a validity of zero. */
  predicate Expires(validity: Option<int>) {
    validity.Some? && validity.value != 0
  }

  predicate Readable(at: Option<Stamp>) {
    at.Some? && at.value.text != "" && at.value.ms.Some?
  }

  function ReceiptDueKey(ms: int, validity: Option<int>, zone: Zone): Result<Option<string>, DateError> {
    if !Expires(validity) then Ok(None)
    else
      match AddMonthsToKey(ZonedDateKey(zone, ms), validity.value)
      case Ok(key) => Ok(Some(key))
      case Err(error) => Err(error)
  }

  /** A receipt is due again its validity's months after its completion day in the zone, cut to the month's last day. */
  lemma DueMonthsLater(ms: int, months: int, zone: Zone)
    requires ClockYear(Local(zone, ms)) && KeyYear(MonthsLater(CivilOf(Local(zone, ms) / DAY_MS), months).year)
    ensures ReceiptDueKey(ms, Some(months), zone) ==
      if months == 0 then Ok(None) else Ok(Some(KeyOf(MonthsLater(CivilOf(Local(zone, ms) / DAY_MS), months))))
    ensures ReceiptDueKey(ms, None, zone) == Ok(None)
  {
    hide CivilOf, IsPlainDate, DayOfKey, AddMonthsToKey, ZonedDateKey, KeyOf, MonthsLater, Number, HasShape, ClockYear;
    InputsNameTheWallTime(zone, ms, Reject);
    KeyOfItsDay(ZonedDateKey(zone, ms));
    AddMonthsClamps(ZonedDateKey(zone, ms), months);
  }

  datatype LessonState = LessonState(counts: bool, mayComplete: bool, dueKey: Option<string>)

  function LessonReceiptState(at: Option<Stamp>, hasReceipt: bool, validity: Option<int>, today: string, zone: Zone)
    : Result<LessonState, DateError>
  {
    if !hasReceipt then Ok(LessonState(false, true, None))
    else if !Expires(validity) then Ok(LessonState(true, false, None))
    else if !Readable(at) then Ok(LessonState(false, true, None))
    else
      match ReceiptDueKey(at.value.ms.value, validity, zone)
      case Err(error) => Err(error)
      case Ok(due) =>
        match DaysBetweenKeys(today, due.value)
        case Err(error) => Err(error)
        case Ok(days) => Ok(LessonState(Less(today, due.value), days <= RENEWAL_WINDOW_DAYS, due))
  }

  function ReceiptOf(newest: Receipts, id: string): Option<Stamp> {
    if id in newest then newest[id] else None
  }

  function StateOf(newest: Receipts, validity: Option<int>, today: string, zone: Zone, id: string)
    : Result<LessonState, DateError>
  {
    LessonReceiptState(ReceiptOf(newest, id), id in newest, validity, today, zone)
  }

  /** A lesson that counts is one whose due day lies ahead; it may be repeated in the last thirty days before. */
  ghost predicate ByDays(state: LessonState, today: string) {
    if state.dueKey.None? then state.counts == !state.mayComplete
    else
      && IsPlainDate(today) && IsPlainDate(state.dueKey.value)
      && (state.counts <==> DayOfKey(today) < DayOfKey(state.dueKey.value))
      && (state.mayComplete <==> DayOfKey(state.dueKey.value) - DayOfKey(today) <= RENEWAL_WINDOW_DAYS)
  }

  lemma StateIsByDays(newest: Receipts, validity: Option<int>, today: string, zone: Zone, id: string)
    requires StateOf(newest, validity, today, zone, id).Ok?
    ensures ByDays(StateOf(newest, validity, today, zone, id).value, today)
  {
    hide Less, IsPlainDate, DayOfKey, AddMonthsToKey, ZonedDateKey, Readable;
    var state := StateOf(newest, validity, today, zone, id).value;
    if state.dueKey.Some? {
      KeyOrder(today, state.dueKey.value);
    }
  }

  /** A course without a validity, or with one of zero months. */
  predicate NeverExpires(validity: Option<int>) {
    validity == None || validity == Some(0)
  }

  /** The lesson has a receipt with a readable instant, and in this course it is due again on the day `due`. */
  predicate DueOn(newest: Receipts, validity: Option<int>, zone: Zone, id: string, due: string) {
    && id in newest && newest[id].Some? && newest[id].value.text != "" && newest[id].value.ms.Some?
    && !NeverExpires(validity) && ReceiptDueKey(newest[id].value.ms.value, validity, zone) == Ok(Some(due))
  }

  /** So many days from today its receipt is due again. */
  ghost predicate DueIn(newest: Receipts, validity: Option<int>, today: string, zone: Zone, id: string, days: int) {
    exists due :: DueOn(newest, validity, zone, id, due) && DaysTo(today, due, days)
  }

  predicate DaysTo(today: string, due: string, days: int) {
    IsPlainDate(today) && IsPlainDate(due) && DayOfKey(due) - DayOfKey(today) == days
  }

  /** A lesson counts: it has a receipt, and the course never expires or the receipt's due day lies ahead. */
  ghost predicate CountsToday(newest: Receipts, validity: Option<int>, today: string, zone: Zone, id: string) {
    id in newest && (NeverExpires(validity) ||
      exists days :: DueIn(newest, validity, today, zone, id, days) && 0 < days)
  }

  /**
   * A lesson may be completed: it has no receipt, or in a course that expires
   * an unreadable one, or one that is due again within thirty days.
   */
  ghost predicate MayBeCompleted(newest: Receipts, validity: Option<int>, today: string, zone: Zone, id: string) {
    id !in newest ||
    (!NeverExpires(validity) && forall days :: DueIn(newest, validity, today, zone, id, days) ==> days <= 30)
  }

  /** What a lesson's state says, by its receipt. */
  lemma LessonByItsReceipt(newest: Receipts, validity: Option<int>, today: string, zone: Zone, id: string)
    requires StateOf(newest, validity, today, zone, id).Ok?
    ensures var state := StateOf(newest, validity, today, zone, id).value;
      && (state.counts <==> CountsToday(newest, validity, today, zone, id))
      && (state.mayComplete <==> MayBeCompleted(newest, validity, today, zone, id))
      && (forall due :: state.dueKey == Some(due) <==> DueOn(newest, validity, zone, id, due))
  {
    hide Less, IsPlainDate, DayOfKey, AddMonthsToKey, ZonedDateKey;
    var state := StateOf(newest, validity, today, zone, id).value;
    StateIsByDays(newest, validity, today, zone, id);
    assert forall due :: state.dueKey == Some(due) <==> DueOn(newest, validity, zone, id, due);
    if state.dueKey.Some? {
      var days := DayOfKey(state.dueKey.value) - DayOfKey(today);
      assert DaysTo(today, state.dueKey.value, days);
      assert DueIn(newest, validity, today, zone, id, days);
    }
  }

  /** Only a due day outside the years of the keys leaves a lesson untold. */
  lemma LessonIsTold(newest: Receipts, validity: Option<int>, today: string, zone: Zone, id: string)
    requires IsPlainDate(today)
    requires id in newest && Readable(newest[id]) && validity.Some? ==>
      var ms := newest[id].value.ms.value;
      ClockYear(Local(zone, ms)) && KeyYear(MonthsLater(CivilOf(Local(zone, ms) / DAY_MS), validity.value).year)
    ensures StateOf(newest, validity, today, zone, id).Ok?
  {
    hide CivilOf, IsPlainDate, DayOfKey, AddMonthsToKey, ZonedDateKey, KeyOf, MonthsLater, Less, ClockYear;
    if id in newest && Readable(newest[id]) && validity.Some? && validity.value != 0 {
      var ms := newest[id].value.ms.value;
      DueMonthsLater(ms, validity.value, zone);
      InputsNameTheWallTime(zone, ms, Reject);
      KeyOfItsDay(ZonedDateKey(zone, ms));
      AddMonthsClamps(ZonedDateKey(zone, ms), validity.value);
    }
  }

  // ---------------------------------------------------------------------
  // A course.

  datatype Status = Done | DueSoon | Expired | Open
  datatype CourseValidity = CourseValidity(
    total: nat, completed: nat, status: Status, dueKey: Option<string>, completedAt: Option<Stamp>)

  ghost predicate AllTold(lessons: seq<string>, newest: Receipts, validity: Option<int>, today: string, zone: Zone) {
    forall i :: 0 <= i < |lessons| ==> StateOf(newest, validity, today, zone, lessons[i]).Ok?
  }

  ghost function States(lessons: seq<string>, newest: Receipts, validity: Option<int>, today: string, zone: Zone)
    : (states: seq<LessonState>)
    requires AllTold(lessons, newest, validity, today, zone)
    ensures |states| == |lessons|
    ensures forall i :: 0 <= i < |lessons| ==> StateOf(newest, validity, today, zone, lessons[i]) == Ok(states[i])
  {
    if lessons == [] then []
    else
      var last := |lessons| - 1;
      States(lessons[..last], newest, validity, today, zone) +
        [StateOf(newest, validity, today, zone, lessons[last]).value]
  }

  function Counting(states: seq<LessonState>): (n: nat)
    ensures n <= |states|
    ensures n == |states| <==> AllCount(states)
  {
    if states == [] then 0
    else Counting(states[..|states| - 1]) + (if states[|states| - 1].counts then 1 else 0)
  }

  predicate AllCount(states: seq<LessonState>) {
    forall i :: 0 <= i < |states| ==> states[i].counts
  }

  predicate SomeMayBeCompleted(states: seq<LessonState>) {
    exists i :: 0 <= i < |states| && states[i].mayComplete
  }

  /** The course's status, lesson by lesson: done means that no lesson may be completed again. */
  function StatusOf(states: seq<LessonState>, allHaveReceipts: bool, validity: Option<int>): Status {
    if states == [] then Open
    else if !SomeMayBeCompleted(states) then Done
    else if AllCount(states) then DueSoon
    else if allHaveReceipts && Expires(validity) then Expired
    else Open
  }

  predicate AllHaveReceipts(lessons: seq<string>, newest: Receipts) {
    forall i :: 0 <= i < |lessons| ==> lessons[i] in newest
  }

  /** `key` is the earliest due day of the lessons, none when no lesson has one. */
  predicate EarliestDue(key: Option<string>, states: seq<LessonState>) {
    && (key.Some? ==> exists i :: 0 <= i < |states| && states[i].dueKey == key)
    && (forall i :: 0 <= i < |states| && states[i].dueKey.Some? ==>
      key.Some? && !Less(states[i].dueKey.value, key.value))
  }

  /** The instant a receipt stands for when two are compared: an unreadable one is the epoch. */
  function Value(at: Option<Stamp>): int {
    if at.Some? && at.value.ms.Some? then at.value.ms.value else 0
  }

  predicate Present(at: Option<Stamp>) {
    at.Some? && at.value.text != ""
  }

  /** The lesson's receipt has this text. */
  predicate HasText(newest: Receipts, id: string, at: Stamp) {
    id in newest && newest[id] == Some(at) && at.text != ""
  }

  predicate IsStampOf(lessons: seq<string>, newest: Receipts, at: Stamp) {
    exists i :: 0 <= i < |lessons| && HasText(newest, lessons[i], at)
  }

  /** `a` is from no later than `b`; an unreadable receipt counts as the epoch. */
  predicate NoLater(a: Stamp, b: Stamp) {
    (if a.ms.Some? then a.ms.value else 0) <= if b.ms.Some? then b.ms.value else 0
  }

  /** The lesson's receipt, if it has one, is from no later than `at`. */
  predicate Covers(at: Option<Stamp>, newest: Receipts, id: string) {
    id in newest && newest[id].Some? && newest[id].value.text != "" ==> at.Some? && NoLater(newest[id].value, at.value)
  }

  /** `at` is a newest receipt of the lessons, none when they have none. */
  predicate NewestOf(at: Option<Stamp>, lessons: seq<string>, newest: Receipts) {
    && (at.Some? ==> IsStampOf(lessons, newest, at.value))
    && (forall i :: 0 <= i < |lessons| ==> Covers(at, newest, lessons[i]))
  }

  ghost predicate EveryLessonCounts(lessons: seq<string>, newest: Receipts, validity: Option<int>, today: string,
                                    zone: Zone) {
    forall id :: id in lessons ==> CountsToday(newest, validity, today, zone, id)
  }

  ghost predicate SomeLessonMayBeCompleted(lessons: seq<string>, newest: Receipts, validity: Option<int>,
                                           today: string, zone: Zone) {
    exists id :: id in lessons && MayBeCompleted(newest, validity, today, zone, id)
  }

  predicate EveryLessonHasAReceipt(lessons: seq<string>, newest: Receipts) {
    forall id :: id in lessons ==> id in newest
  }

  /**
   * The status by the receipts: done and due soon when every lesson counts,
   * due soon when one of them may be completed again; expired when every
   * lesson has a receipt but not all count in a course that expires; open
   * otherwise, and always without lessons.
   */
  ghost predicate StatusByReceipts(status: Status, lessons: seq<string>, newest: Receipts, validity: Option<int>,
                                   today: string, zone: Zone) {
    var all := lessons != [] && EveryLessonCounts(lessons, newest, validity, today, zone);
    var soon := SomeLessonMayBeCompleted(lessons, newest, validity, today, zone);
    var had := lessons != [] && !NeverExpires(validity) && EveryLessonHasAReceipt(lessons, newest);
    match status
    case Done => all && !soon
    case DueSoon => all && soon
    case Expired => !all && had
    case Open => !all && !had
  }

  ghost predicate Counts(lessons: seq<string>, newest: Receipts, validity: Option<int>, today: string, zone: Zone,
                         i: nat)
    requires i < |lessons|
  {
    CountsToday(newest, validity, today, zone, lessons[i])
  }

  /** The lessons that count. */
  ghost function CountingLessons(lessons: seq<string>, newest: Receipts, validity: Option<int>, today: string,
                                 zone: Zone): set<nat> {
    set i | 0 <= i < |lessons| && Counts(lessons, newest, validity, today, zone, i)
  }

  ghost function CountingOf(states: seq<LessonState>): set<nat> {
    set i | 0 <= i < |states| && states[i].counts
  }

  lemma {:induction false} CountingIsHowMany(states: seq<LessonState>)
    ensures Counting(states) == |CountingOf(states)|
  {
    if states == [] {
      assert CountingOf(states) == {};
    } else {
      var last := |states| - 1;
      CountingIsHowMany(states[..last]);
      assert CountingOf(states) == CountingOf(states[..last]) + if states[last].counts then {last} else {};
    }
  }

  lemma CountedByReceipts(lessons: seq<string>, newest: Receipts, validity: Option<int>, today: string, zone: Zone)
    requires AllTold(lessons, newest, validity, today, zone)
    ensures Counting(States(lessons, newest, validity, today, zone)) ==
      |CountingLessons(lessons, newest, validity, today, zone)|
  {
    hide StateOf, CountsToday, MayBeCompleted, Counting;
    var states := States(lessons, newest, validity, today, zone);
    CountingIsHowMany(states);
    forall i | 0 <= i < |lessons|
      ensures states[i].counts <==> Counts(lessons, newest, validity, today, zone, i)
    {
      LessonByItsReceipt(newest, validity, today, zone, lessons[i]);
    }
    assert CountingOf(states) == CountingLessons(lessons, newest, validity, today, zone);
  }

  lemma LessonsMean(lessons: seq<string>, newest: Receipts, validity: Option<int>, today: string, zone: Zone)
    requires AllTold(lessons, newest, validity, today, zone)
    ensures var states := States(lessons, newest, validity, today, zone);
      && (AllCount(states) <==> EveryLessonCounts(lessons, newest, validity, today, zone))
      && (SomeMayBeCompleted(states) <==> SomeLessonMayBeCompleted(lessons, newest, validity, today, zone))
  {
    hide StateOf, CountsToday, MayBeCompleted;
    var states := States(lessons, newest, validity, today, zone);
    forall i | 0 <= i < |lessons|
      ensures states[i].counts <==> CountsToday(newest, validity, today, zone, lessons[i])
      ensures states[i].mayComplete <==> MayBeCompleted(newest, validity, today, zone, lessons[i])
    {
      LessonByItsReceipt(newest, validity, today, zone, lessons[i]);
    }
    if SomeMayBeCompleted(states) {
      var i :| 0 <= i < |states| && states[i].mayComplete;
      assert lessons[i] in lessons;
    }
    if AllCount(states) {
      forall id | id in lessons
        ensures CountsToday(newest, validity, today, zone, id)
      {
        var i :| 0 <= i < |lessons| && lessons[i] == id;
      }
    }
    if EveryLessonCounts(lessons, newest, validity, today, zone) {
      assert forall i :: 0 <= i < |lessons| ==> lessons[i] in lessons;
    }
  }

  lemma ReceiptsMean(lessons: seq<string>, newest: Receipts)
    ensures AllHaveReceipts(lessons, newest) <==> EveryLessonHasAReceipt(lessons, newest)
  {}

  lemma StatusMeans(lessons: seq<string>, newest: Receipts, validity: Option<int>, today: string, zone: Zone)
    requires AllTold(lessons, newest, validity, today, zone)
    ensures var status := StatusOf(States(lessons, newest, validity, today, zone),
      |lessons| > 0 && AllHaveReceipts(lessons, newest), validity);
      StatusByReceipts(status, lessons, newest, validity, today, zone)
  {
    var states := States(lessons, newest, validity, today, zone);
    StatesAreByDays(lessons, newest, validity, today, zone);
    NotAllCount(states, today);
    LessonsMean(lessons, newest, validity, today, zone);
    ReceiptsMean(lessons, newest);
    hide StateOf, AllCount, SomeMayBeCompleted, EveryLessonCounts, SomeLessonMayBeCompleted, AllHaveReceipts,
      EveryLessonHasAReceipt, ByDays, AllTold, States;
  }

  /** The course of one user: what its counters and keys mean for the lessons. */
  method CourseOf(lessons: seq<string>, newest: Receipts, validity: Option<int>, today: string, zone: Zone)
    returns (course: Result<CourseValidity, DateError>)
    ensures course.Ok? <==> AllTold(lessons, newest, validity, today, zone)
    ensures course.Ok? ==>
      var states := States(lessons, newest, validity, today, zone);
      && course.value.total == |lessons|
      && course.value.completed == |CountingLessons(lessons, newest, validity, today, zone)|
      && StatusByReceipts(course.value.status, lessons, newest, validity, today, zone)
      && course.value.status == StatusOf(states, |lessons| > 0 && AllHaveReceipts(lessons, newest), validity)
      && (if course.value.status == Open then course.value.dueKey.None? else EarliestDue(course.value.dueKey, states))
      && (if course.value.status in {Done, DueSoon} then NewestOf(course.value.completedAt, lessons, newest)
          else course.value.completedAt.None?)
  {
    hide StateOf, Less, EarliestDue, NewestOf, ByDays, Value, Present, StatusOf, Counting, AllHaveReceipts, ReceiptOf;
    var completed := 0;
    var allHaveReceipts := |lessons| > 0;
    var dueKey: Option<string> := None;
    var completedAt: Option<Stamp> := None;
    NothingYet(lessons, newest, validity, today, zone);
    for i := 0 to |lessons|
      invariant AllTold(lessons[..i], newest, validity, today, zone)
      invariant completed == Counting(States(lessons[..i], newest, validity, today, zone))
      invariant allHaveReceipts <==> |lessons| > 0 && AllHaveReceipts(lessons[..i], newest)
      invariant EarliestDue(dueKey, States(lessons[..i], newest, validity, today, zone))
      invariant NewestOf(completedAt, lessons[..i], newest)
    {
      var id := lessons[i];
      var answer := StateOf(newest, validity, today, zone, id);
      if answer.Err? {
        assert !AllTold(lessons, newest, validity, today, zone);
        return Err(answer.error);
      }
      var state := answer.value;
      OneMore(lessons, i, newest, validity, today, zone);
      if id !in newest { allHaveReceipts := false; }
      if state.counts { completed := completed + 1; }
      EarliestStep(dueKey, States(lessons[..i], newest, validity, today, zone), state, today);
      if state.dueKey.Some? && (dueKey.None? || Less(state.dueKey.value, dueKey.value)) { dueKey := state.dueKey; }
      NewestStep(completedAt, lessons, i, newest);
      var at := ReceiptOf(newest, id);
      if Present(at) && (completedAt.None? || Value(at) > Value(completedAt)) { completedAt := at; }
    }
    assert lessons[..|lessons|] == lessons;
    StatesAreByDays(lessons, newest, validity, today, zone);
    CountedByReceipts(lessons, newest, validity, today, zone);
    StatusMeans(lessons, newest, validity, today, zone);
    hide States, StatusByReceipts, CountingLessons;
    course := Conclude(|lessons|, completed, dueKey, completedAt, allHaveReceipts, validity, today,
      States(lessons, newest, validity, today, zone));
  }

  /** The course's status, from the counters at the end of its lessons. */
  method Conclude(total: nat, completed: nat, dueKey: Option<string>, completedAt: Option<Stamp>, allHaveReceipts: bool,
                  validity: Option<int>, today: string, ghost states: seq<LessonState>)
    returns (course: Result<CourseValidity, DateError>)
    requires total == |states| && completed == Counting(states) && EarliestDue(dueKey, states)
    requires allHaveReceipts ==> total > 0
    requires forall j :: 0 <= j < |states| ==> ByDays(states[j], today)
    ensures course.Ok? && course.value.total == total && course.value.completed == completed
    ensures course.value.status == StatusOf(states, allHaveReceipts, validity)
    ensures course.value.dueKey == if course.value.status == Open then None else dueKey
    ensures course.value.completedAt == if course.value.status in {Done, DueSoon} then completedAt else None
  {
    hide Less, EarliestDue, IsPlainDate, SomeMayBeCompleted, ByDays, DaysBetweenKeys;
    if total > 0 && completed == total {
      SoonMeans(dueKey, states, today);
      var soon := dueKey.Some? && DaysBetweenKeys(today, dueKey.value).value <= RENEWAL_WINDOW_DAYS;
      return Ok(CourseValidity(total, completed, if soon then DueSoon else Done, dueKey, completedAt));
    }
    NotAllCount(states, today);
    if allHaveReceipts && Expires(validity) {
      return Ok(CourseValidity(total, completed, Expired, dueKey, None));
    }
    return Ok(CourseValidity(total, completed, Open, None, None));
  }

  lemma NothingYet(lessons: seq<string>, newest: Receipts, validity: Option<int>, today: string, zone: Zone)
    ensures AllTold(lessons[..0], newest, validity, today, zone)
    ensures var none := States(lessons[..0], newest, validity, today, zone);
      EarliestDue(None, none) && Counting(none) == 0
    ensures NewestOf(None, lessons[..0], newest) && AllHaveReceipts(lessons[..0], newest)
  {}

  lemma StatesAreByDays(lessons: seq<string>, newest: Receipts, validity: Option<int>, today: string, zone: Zone)
    requires AllTold(lessons, newest, validity, today, zone)
    ensures forall i :: 0 <= i < |lessons| ==> ByDays(States(lessons, newest, validity, today, zone)[i], today)
  {
    hide StateOf, ByDays;
    forall i | 0 <= i < |lessons|
      ensures ByDays(States(lessons, newest, validity, today, zone)[i], today)
    {
      StateIsByDays(newest, validity, today, zone, lessons[i]);
    }
  }

  lemma OneMore(lessons: seq<string>, i: nat, newest: Receipts, validity: Option<int>, today: string, zone: Zone)
    requires i < |lessons| && AllTold(lessons[..i], newest, validity, today, zone)
    requires StateOf(newest, validity, today, zone, lessons[i]).Ok?
    ensures AllTold(lessons[..i + 1], newest, validity, today, zone)
    ensures var before, state := States(lessons[..i], newest, validity, today, zone),
        StateOf(newest, validity, today, zone, lessons[i]).value;
      && States(lessons[..i + 1], newest, validity, today, zone) == before + [state]
      && Counting(before + [state]) == Counting(before) + (if state.counts then 1 else 0)
      && (forall j :: 0 <= j < |before| ==> ByDays(before[j], today)) && ByDays(state, today)
    ensures AllHaveReceipts(lessons[..i + 1], newest) <==> AllHaveReceipts(lessons[..i], newest) && lessons[i] in newest
  {
    hide StateOf, ByDays, Counting;
    StatesAreByDays(lessons[..i], newest, validity, today, zone);
    StateIsByDays(newest, validity, today, zone, lessons[i]);
    assert lessons[..i + 1] == lessons[..i] + [lessons[i]];
    assert lessons[..i + 1][..i] == lessons[..i];
    CountingAppend(States(lessons[..i], newest, validity, today, zone),
      StateOf(newest, validity, today, zone, lessons[i]).value);
  }

  lemma CountingAppend(states: seq<LessonState>, state: LessonState)
    ensures Counting(states + [state]) == Counting(states) + (if state.counts then 1 else 0)
  {
    assert (states + [state])[..|states|] == states;
  }

  lemma EarliestStep(key: Option<string>, states: seq<LessonState>, state: LessonState, today: string)
    requires EarliestDue(key, states) && ByDays(state, today)
    requires forall j :: 0 <= j < |states| ==> ByDays(states[j], today)
    ensures var earlier := state.dueKey.Some? && (key.None? || Less(state.dueKey.value, key.value));
      EarliestDue(if earlier then state.dueKey else key, states + [state])
  {
    hide Less, IsPlainDate, DayOfKey;
    var due := state.dueKey;
    var all := states + [state];
    assert all[|states|] == state;
    if key.Some? {
      var k :| 0 <= k < |states| && states[k].dueKey == key;
      assert all[k].dueKey == key;
      if due.Some? {
        KeyOrder(due.value, key.value);
        forall j | 0 <= j < |states| && states[j].dueKey.Some?
          ensures Less(due.value, key.value) ==> !Less(states[j].dueKey.value, due.value)
        {
          KeyOrder(states[j].dueKey.value, due.value);
          KeyOrder(states[j].dueKey.value, key.value);
        }
      }
    }
    if due.Some? {
      KeyOrder(due.value, due.value);
    }
  }

  lemma NewestStep(at: Option<Stamp>, lessons: seq<string>, i: nat, newest: Receipts)
    requires i < |lessons| && NewestOf(at, lessons[..i], newest)
    ensures var next := ReceiptOf(newest, lessons[i]);
      NewestOf(if Present(next) && (at.None? || Value(next) > Value(at)) then next else at, lessons[..i + 1], newest)
  {
    var next, some, all := ReceiptOf(newest, lessons[i]), lessons[..i], lessons[..i + 1];
    assert all[i] == lessons[i] && forall j :: 0 <= j < i ==> all[j] == some[j];
    if at.Some? {
      var j :| 0 <= j < i && HasText(newest, some[j], at.value);
      assert HasText(newest, all[j], at.value);
    }
    if Present(next) { assert HasText(newest, all[i], next.value); }
    assert forall j :: 0 <= j < i ==> Covers(at, newest, some[j]);
  }

  /** With every lesson counting, the earliest due day is in the window exactly when some lesson may be renewed. */
  lemma SoonMeans(key: Option<string>, states: seq<LessonState>, today: string)
    requires AllCount(states) && EarliestDue(key, states)
    requires forall j :: 0 <= j < |states| ==> ByDays(states[j], today)
    ensures key.Some? ==> DaysBetweenKeys(today, key.value).Ok?
    ensures SomeMayBeCompleted(states) <==> key.Some? && DaysBetweenKeys(today, key.value).value <= RENEWAL_WINDOW_DAYS
  {
    hide Less, IsPlainDate, DayOfKey;
    if key.Some? {
      var k :| 0 <= k < |states| && states[k].dueKey == key;
      forall i | 0 <= i < |states| && states[i].dueKey.Some?
        ensures DayOfKey(key.value) <= DayOfKey(states[i].dueKey.value)
      {
        KeyOrder(states[i].dueKey.value, key.value);
      }
    }
  }

  /** A lesson that does not count may be completed. */
  lemma NotAllCount(states: seq<LessonState>, today: string)
    requires forall j :: 0 <= j < |states| ==> ByDays(states[j], today)
    ensures !AllCount(states) ==> SomeMayBeCompleted(states)
  {
    hide IsPlainDate, DayOfKey;
  }

  // ---------------------------------------------------------------------
  // As the days go by.

  function Rank(status: Status): nat {
    match status
    case Done => 0
    case DueSoon => 1
    case Expired => 2
    case Open => 3
  }

  /** With readable, unchanged receipts a course only goes from done to due soon to expired. */
  lemma StatusOnlyAges(lessons: seq<string>, newest: Receipts, validity: Option<int>, zone: Zone, today: string,
                       later: string)
    requires lessons != [] && forall i :: 0 <= i < |lessons| ==> lessons[i] in newest && Readable(newest[lessons[i]])
    requires AllTold(lessons, newest, validity, today, zone) && AllTold(lessons, newest, validity, later, zone)
    requires IsPlainDate(today) && IsPlainDate(later) && !Less(later, today)
    ensures var before, after := States(lessons, newest, validity, today, zone),
      States(lessons, newest, validity, later, zone);
      && Rank(StatusOf(before, true, validity)) <= Rank(StatusOf(after, true, validity)) <= 2
      && (!Expires(validity) ==> StatusOf(after, true, validity) == Done)
  {
    hide StateOf, IsPlainDate, DayOfKey, Less, Readable;
    KeyOrder(later, today);
    var before, after := States(lessons, newest, validity, today, zone), States(lessons, newest, validity, later, zone);
    forall i | 0 <= i < |lessons|
      ensures (after[i].counts ==> before[i].counts) && (before[i].mayComplete ==> after[i].mayComplete)
      ensures !Expires(validity) ==> after[i].counts && !after[i].mayComplete
    {
      LessonOnlyAges(newest, validity, zone, lessons[i], today, later);
    }
    StatesAreByDays(lessons, newest, validity, later, zone);
    NotAllCount(after, later);
  }

  lemma LessonOnlyAges(newest: Receipts, validity: Option<int>, zone: Zone, id: string, today: string, later: string)
    requires id in newest && Readable(newest[id])
    requires StateOf(newest, validity, today, zone, id).Ok? && StateOf(newest, validity, later, zone, id).Ok?
    requires IsPlainDate(today) && IsPlainDate(later) && DayOfKey(today) <= DayOfKey(later)
    ensures var before, after := StateOf(newest, validity, today, zone, id).value,
      StateOf(newest, validity, later, zone, id).value;
      && (after.counts ==> before.counts) && (before.mayComplete ==> after.mayComplete)
      && (!Expires(validity) ==> after.counts && !after.mayComplete)
  {
    hide Less, IsPlainDate, DayOfKey, AddMonthsToKey, ZonedDateKey;
    StateIsByDays(newest, validity, today, zone, id);
    StateIsByDays(newest, validity, later, zone, id);
  }

  // ---------------------------------------------------------------------
  // The newest receipts.

  datatype ReceiptRow = ReceiptRow(target: Option<string>, completedAt: Option<Stamp>)

  predicate RowOf(row: ReceiptRow, id: string) {
    id != "" && row.target == Some(id)
  }

  /** `newest` holds, for exactly the lessons with a row, a receipt none of its rows is newer than. */
  ghost predicate NewestByLesson(newest: Receipts, rows: seq<ReceiptRow>) {
    && (forall id :: id in newest <==> exists i :: 0 <= i < |rows| && RowOf(rows[i], id))
    && (forall id :: id in newest ==>
      exists i :: 0 <= i < |rows| && RowOf(rows[i], id) && rows[i].completedAt == newest[id])
    && (forall id, i :: id in newest && 0 <= i < |rows| && RowOf(rows[i], id) && rows[i].completedAt.Some? ==>
      newest[id].Some? && Value(rows[i].completedAt) <= Value(newest[id]))
  }

  /** The map after one more row. */
  function Noted(newest: Receipts, row: ReceiptRow): Receipts {
    if row.target.None? || row.target.value == "" then newest
    else
      var id := row.target.value;
      if id !in newest || (row.completedAt.Some? && (newest[id].None? || Value(row.completedAt) > Value(newest[id])))
      then newest[id := row.completedAt] else newest
  }

  /** The rows noted one after the other. */
  function NewestFold(rows: seq<ReceiptRow>): Receipts {
    if rows == [] then map[] else Noted(NewestFold(rows[..|rows| - 1]), rows[|rows| - 1])
  }

  lemma FoldStep(rows: seq<ReceiptRow>, i: nat)
    requires i < |rows|
    ensures NewestFold(rows[..i + 1]) == Noted(NewestFold(rows[..i]), rows[i])
  {
    hide Noted;
    assert rows[..i + 1][..i] == rows[..i];
  }

  /** The map is the rows noted in their order, and holds a newest receipt of each lesson. */
  method NewestReceipts(rows: seq<ReceiptRow>) returns (newest: Receipts)
    ensures newest == NewestFold(rows)
    ensures NewestByLesson(newest, rows)
  {
    newest := map[];
    for i := 0 to |rows|
      invariant newest == NewestFold(rows[..i])
    {
      var row := rows[i];
      FoldStep(rows, i);
      if row.target.Some? && row.target.value != "" {
        var id := row.target.value;
        if id !in newest {
          newest := newest[id := row.completedAt];
        } else if row.completedAt.Some? && (newest[id].None? || Value(row.completedAt) > Value(newest[id])) {
          newest := newest[id := row.completedAt];
        }
      }
    }
    assert rows[..|rows|] == rows;
    FoldIsNewest(rows);
  }

  lemma {:induction false} FoldIsNewest(rows: seq<ReceiptRow>)
    ensures NewestByLesson(NewestFold(rows), rows)
  {
    if rows != [] {
      var last := |rows| - 1;
      FoldIsNewest(rows[..last]);
      NewestGrows(NewestFold(rows[..last]), rows, last);
      assert rows[..last + 1] == rows;
    }
  }

  lemma RowsNoted(row: ReceiptRow)
    ensures forall id :: RowOf(row, id) <==> row.target == Some(id) && id != ""
  {}

  lemma NewestGrows(newest: Receipts, rows: seq<ReceiptRow>, i: nat)
    requires i < |rows| && NewestByLesson(newest, rows[..i])
    ensures NewestByLesson(Noted(newest, rows[i]), rows[..i + 1])
  {
    hide Value, RowOf;
    RowsNoted(rows[i]);
    var after, all := Noted(newest, rows[i]), rows[..i + 1];
    assert forall j :: 0 <= j < i ==> all[j] == rows[..i][j];
    assert all[i] == rows[i];
    forall id
      ensures id in after <==> exists j :: 0 <= j < |all| && RowOf(all[j], id)
    {
      if id in newest {
        var j :| 0 <= j < i && RowOf(rows[..i][j], id);
        assert RowOf(all[j], id);
      } else if id in after {
        assert RowOf(all[i], id);
      }
    }
    forall id | id in after
      ensures exists j :: 0 <= j < |all| && RowOf(all[j], id) && all[j].completedAt == after[id]
    {
      if id in newest && after[id] == newest[id] {
        var j :| 0 <= j < i && RowOf(rows[..i][j], id) && rows[..i][j].completedAt == newest[id];
        assert RowOf(all[j], id) && all[j].completedAt == after[id];
      } else {
        assert RowOf(all[i], id) && all[i].completedAt == after[id];
      }
    }
  }

  /** Two lists of the same rows, in whatever order and however often each. */
  ghost predicate SameRows(rows: seq<ReceiptRow>, shuffled: seq<ReceiptRow>) {
    forall row :: row in rows <==> row in shuffled
  }

  /** The instant kept for a lesson, none when it has no row or no readable one is kept. */
  function KeptInstant(newest: Receipts, id: string): Option<int> {
    if id in newest && newest[id].Some? then newest[id].value.ms else None
  }

  /** Order and repeats of the rows change neither the lessons nor which instant counts as newest. */
  lemma NewestValueIgnoresOrder(rows: seq<ReceiptRow>, shuffled: seq<ReceiptRow>, id: string)
    requires SameRows(rows, shuffled)
    ensures var a, b := NewestFold(rows), NewestFold(shuffled);
      && (id in a <==> id in b)
      && (id in a ==> (a[id].Some? <==> b[id].Some?) && Value(a[id]) == Value(b[id]))
  {
    hide NewestFold;
    FoldIsNewest(rows);
    FoldIsNewest(shuffled);
    NewestCovers(NewestFold(rows), rows, NewestFold(shuffled), shuffled, id);
    NewestCovers(NewestFold(shuffled), shuffled, NewestFold(rows), rows, id);
  }

  lemma NewestCovers(a: Receipts, rows: seq<ReceiptRow>, b: Receipts, shuffled: seq<ReceiptRow>, id: string)
    requires NewestByLesson(a, rows) && NewestByLesson(b, shuffled)
    requires forall row :: row in rows ==> row in shuffled
    ensures id in a ==> id in b
    ensures id in a && a[id].Some? ==> b[id].Some? && Value(a[id]) <= Value(b[id])
  {
    hide Value;
    if id in a {
      var i :| 0 <= i < |rows| && RowOf(rows[i], id) && rows[i].completedAt == a[id];
      assert rows[i] in shuffled;
      var j :| 0 <= j < |shuffled| && shuffled[j] == rows[i];
    }
  }

  predicate IsAfterEpoch(row: ReceiptRow, id: string) {
    RowOf(row, id) && row.completedAt.Some? && row.completedAt.value.ms.Some? && 0 < row.completedAt.value.ms.value
  }

  predicate IsEpoch(row: ReceiptRow, id: string) {
    RowOf(row, id) && row.completedAt.Some? && row.completedAt.value.ms == Some(0)
  }

  predicate IsUnreadable(row: ReceiptRow, id: string) {
    RowOf(row, id) && row.completedAt.Some? && row.completedAt.value.ms.None?
  }

  /**
   * No receipt of the lesson is from after 1970-01-01T00:00Z, one is of exactly
   * that instant, and one cannot be read.
   */
  ghost predicate TiesAtTheEpoch(rows: seq<ReceiptRow>, id: string) {
    && (forall row :: row in rows ==> !IsAfterEpoch(row, id))
    && (exists row :: row in rows && IsEpoch(row, id))
    && (exists row :: row in rows && IsUnreadable(row, id))
  }

  /** Every order and duplication of the rows keeps the same instant for the lesson. */
  ghost predicate IgnoresOrder(rows: seq<ReceiptRow>, id: string) {
    forall shuffled :: SameRows(rows, shuffled) ==>
      KeptInstant(NewestFold(shuffled), id) == KeptInstant(NewestFold(rows), id)
  }

  /** What is kept for a lesson is one of its rows' receipts, and none of its receipts is from later. */
  lemma KeptRow(rows: seq<ReceiptRow>, id: string) returns (row: ReceiptRow)
    requires id in NewestFold(rows)
    ensures row in rows && RowOf(row, id) && row.completedAt == NewestFold(rows)[id]
    ensures forall other :: other in rows && RowOf(other, id) && other.completedAt.Some? ==>
      row.completedAt.Some? && Value(other.completedAt) <= Value(row.completedAt)
  {
    hide NewestFold, Value;
    FoldIsNewest(rows);
    var i :| 0 <= i < |rows| && RowOf(rows[i], id) && rows[i].completedAt == NewestFold(rows)[id];
    row := rows[i];
  }

  /** With nothing after the epoch, the first of the receipts that count as the epoch is kept. */
  lemma {:induction false} FirstIsKept(rows: seq<ReceiptRow>, id: string, n: nat)
    requires 0 < n <= |rows| && RowOf(rows[0], id) && rows[0].completedAt.Some? && Value(rows[0].completedAt) == 0
    requires forall row :: row in rows ==> !IsAfterEpoch(row, id)
    ensures id in NewestFold(rows[..n]) && NewestFold(rows[..n])[id] == rows[0].completedAt
  {
    FoldStep(rows, n - 1);
    if n == 1 {
      assert rows[..0] == [];
    } else {
      FirstIsKept(rows, id, n - 1);
      assert rows[n - 1] in rows;
    }
  }

  /** Rows that tie: putting the one or the other first keeps it. */
  lemma FirstOfTheTie(rows: seq<ReceiptRow>, id: string, first: ReceiptRow)
    requires first in rows && (IsEpoch(first, id) || IsUnreadable(first, id))
    requires forall row :: row in rows ==> !IsAfterEpoch(row, id)
    ensures SameRows(rows, [first] + rows)
    ensures KeptInstant(NewestFold([first] + rows), id) == first.completedAt.value.ms
  {
    var more := [first] + rows;
    FirstIsKept(more, id, |more|);
    assert more[..|more|] == more;
  }

  /** Where an order of the rows shows in the kept instant, they tie. */
  lemma ADifferenceIsATie(rows: seq<ReceiptRow>, shuffled: seq<ReceiptRow>, id: string)
    requires SameRows(rows, shuffled)
    requires KeptInstant(NewestFold(shuffled), id) != KeptInstant(NewestFold(rows), id)
    ensures TiesAtTheEpoch(rows, id)
  {
    hide NewestFold;
    NewestValueIgnoresOrder(rows, shuffled, id);
    var a := KeptRow(rows, id);
    var b := KeptRow(shuffled, id);
    assert b in rows;
    if a.completedAt.value.ms.None? {
      assert IsUnreadable(a, id) && IsEpoch(b, id);
    } else {
      assert IsEpoch(a, id) && IsUnreadable(b, id);
    }
    forall row | row in rows
      ensures !IsAfterEpoch(row, id)
    {
      if RowOf(row, id) && row.completedAt.Some? { assert Value(row.completedAt) <= Value(a.completedAt); }
    }
  }

  /**
   * A lesson keeps the same instant for every order and duplication of the
   * rows if and only if its receipts do not tie at the epoch.
   */
  lemma OrderShowsExactlyInATie(rows: seq<ReceiptRow>, id: string)
    ensures IgnoresOrder(rows, id) <==> !TiesAtTheEpoch(rows, id)
  {
    hide NewestFold;
    if TiesAtTheEpoch(rows, id) {
      var epoch :| epoch in rows && IsEpoch(epoch, id);
      var unreadable :| unreadable in rows && IsUnreadable(unreadable, id);
      FirstOfTheTie(rows, id, epoch);
      FirstOfTheTie(rows, id, unreadable);
      assert KeptInstant(NewestFold([epoch] + rows), id) != KeptInstant(NewestFold([unreadable] + rows), id);
    } else {
      forall shuffled | SameRows(rows, shuffled)
        ensures KeptInstant(NewestFold(shuffled), id) == KeptInstant(NewestFold(rows), id)
      {
        if KeptInstant(NewestFold(shuffled), id) != KeptInstant(NewestFold(rows), id) {
          ADifferenceIsATie(rows, shuffled, id);
        }
      }
    }
  }

  /** A row from after the epoch whose instant the lesson keeps. */
  predicate IsKept(rows: seq<ReceiptRow>, row: ReceiptRow, id: string) {
    IsAfterEpoch(row, id) && KeptInstant(NewestFold(rows), id) == row.completedAt.value.ms
  }

  /** A receipt from after the epoch rules a tie out: the newest instant is that of every order, and readable. */
  lemma NewestIgnoresOrder(rows: seq<ReceiptRow>, shuffled: seq<ReceiptRow>, id: string)
    requires SameRows(rows, shuffled) && exists row :: row in rows && IsAfterEpoch(row, id)
    ensures KeptInstant(NewestFold(shuffled), id) == KeptInstant(NewestFold(rows), id)
    ensures exists newest :: newest in rows && IsKept(rows, newest, id)
    ensures forall row :: row in rows && IsAfterEpoch(row, id) ==>
      KeptInstant(NewestFold(rows), id).Some? &&
        row.completedAt.value.ms.value <= KeptInstant(NewestFold(rows), id).value
  {
    hide NewestFold;
    OrderShowsExactlyInATie(rows, id);
    var some :| some in rows && IsAfterEpoch(some, id);
    FoldIsNewest(rows);
    var i :| 0 <= i < |rows| && rows[i] == some;
    var kept := KeptRow(rows, id);
    assert IsAfterEpoch(kept, id);
  }

  /** Two receipts that tie: in the one order the epoch's is kept, in the other the unreadable one. */
  lemma AtTheEpochOrderShows(id: string)
    requires id != ""
    ensures var epoch, unreadable := Some(Stamp("1970-01-01T00:00:00.000Z", Some(0))), Some(Stamp("soon", None));
      var first, second := ReceiptRow(Some(id), epoch), ReceiptRow(Some(id), unreadable);
      && NewestFold([first, second]) == map[id := epoch]
      && NewestFold([second, first]) == map[id := unreadable]
  {
    var epoch, unreadable := Some(Stamp("1970-01-01T00:00:00.000Z", Some(0))), Some(Stamp("soon", None));
    var first, second := ReceiptRow(Some(id), epoch), ReceiptRow(Some(id), unreadable);
    assert [first, second][..1] == [first] && [second, first][..1] == [second];
    assert [first][..0] == [] && [second][..0] == [];
    assert NewestFold([first]) == map[id := epoch] && NewestFold([second]) == map[id := unreadable];
  }
}

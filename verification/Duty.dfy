/**
 * Duty shifts across clock changes (packages/domain/src/duty.ts). An
 * endpoint is an instant, or the date and time as typed when it has none.
 */
module Duty {
  import opened Common
  import opened Text
  import opened Calendar
  import opened PlainDate
  import opened WallTime

  datatype Endpoint = At(ms: int) | Typed(day: string, time: string)
  datatype DutyShift = DutyShift(userId: nat, startsAt: Endpoint, endsAt: Endpoint)
  datatype RangeError = NotAnInstant | OutOfRange

  /** An instant that shows the wall time, or the wall time as typed when none or two do. */
  function PlaceEndpoint(day: string, time: string, zone: Zone): Result<Endpoint, RangeError> {
    match ZonedWallTimeToInstant(day, time, zone, Reject)
    case Ok(moved) => Ok(At(moved))
    case Err(Repeated) => Ok(Typed(day, time))
    case Err(Skipped) => Ok(Typed(day, time))
    case Err(_) => Err(OutOfRange)
  }

  /** One endpoint, `days` calendar days later at the same wall time. */
  function MoveEndpoint(e: Endpoint, days: int, zone: Zone): Result<Endpoint, RangeError> {
    match e
    case Typed(_, _) => Err(NotAnInstant)
    case At(t) =>
      match AddDaysToKey(ZonedDateKey(zone, t), days)
      case Err(_) => Err(OutOfRange)
      case Ok(day) =>
        PlaceEndpoint(day, ZonedTimeOfDay(zone, t), zone)
  }

  function MoveDutyShift(shift: DutyShift, days: int, zone: Zone): Result<DutyShift, RangeError> {
    match (MoveEndpoint(shift.startsAt, days, zone), MoveEndpoint(shift.endsAt, days, zone))
    case (Ok(start), Ok(end)) => Ok(DutyShift(shift.userId, start, end))
    case (Err(error), _) => Err(error)
    case (_, Err(error)) => Err(error)
  }

  /** The wall time the move aims at. */
  function Aim(zone: Zone, t: int, days: int): int {
    MinuteOf(Local(zone, t)) + days * DAY_MS
  }

  lemma DayOfAim(local: int, days: int)
    ensures (local / DAY_MS + days) * DAY_MS + (MinuteOf(local) - local / DAY_MS * DAY_MS) ==
      MinuteOf(local) + days * DAY_MS
    ensures (MinuteOf(local) + days * DAY_MS) / DAY_MS == local / DAY_MS + days
  {
    assert local / MINUTE_MS == local / DAY_MS * 1440 + local % DAY_MS / MINUTE_MS;
  }

  /** The date and time the move names are the aimed wall time. */
  lemma MoveNamesTheAim(zone: Zone, t: int, days: int)
    requires ClockYear(Local(zone, t)) && InKeyRange(Local(zone, t) / DAY_MS + days)
    ensures var day := AddDaysToKey(ZonedDateKey(zone, t), days);
      var time := ZonedTimeOfDay(zone, t);
      && day.Ok? && IsPlainDate(day.value) && ParseWallTime(time).Some?
      && DayOfKey(day.value) * DAY_MS + ParseWallTime(time).value * 1000 == Aim(zone, t, days)
  {
    hide InKeyRange, IsPlainDate, DayOfKey, ParseWallTime, MinuteOf, KeyOfDay, ZonedDateKey, ZonedTimeOfDay, Local;
    InputsNameTheWallTime(zone, t, Reject);
    DayOfAim(Local(zone, t), days);
    KeyOfDayRoundTrip(Local(zone, t) / DAY_MS + days);
  }

  /** What placing an endpoint answers, by whether one instant shows the wall time. */
  lemma PlaceAnswers(day: string, time: string, zone: Zone)
    requires IsPlainDate(day) && ParseWallTime(time).Some?
    ensures PlaceEndpoint(day, time, zone) ==
      match InstantOf(zone, DayOfKey(day) * DAY_MS + ParseWallTime(time).value * 1000, Reject)
      case Ok(u) => Ok(At(u))
      case Err(_) => Ok(Typed(day, time))
  {
    hide IsPlainDate, DayOfKey, ParseWallTime, Candidates;
  }

  /**
   * Where a move lands: on the one instant that shows the aimed wall time,
   * or, when none or two do, on that wall time as typed.
   */
  lemma MoveLands(zone: Zone, t: int, days: int)
    requires Regular(zone, Local(zone, t)) && Regular(zone, Aim(zone, t, days))
    ensures var moved := MoveEndpoint(At(t), days, zone);
      var aim := Aim(zone, t, days);
      && moved.Ok?
      && (forall u :: moved == Ok(At(u)) <==> Local(zone, u) == aim && forall v :: Local(zone, v) == aim ==> v == u)
      && (moved.value.Typed? ==>
        && IsPlainDate(moved.value.day) && ParseWallTime(moved.value.time).Some?
        && DayOfKey(moved.value.day) * DAY_MS + ParseWallTime(moved.value.time).value * 1000 == aim)
  {
    hide InKeyRange, IsPlainDate, DayOfKey, ParseWallTime, InstantOf, MinuteOf, KeyOfDay, OneChange, IsZone,
      ZonedDateKey, ZonedTimeOfDay, InClockYears, AddDaysToKey, PlaceEndpoint, Local;
    DayOfAim(Local(zone, t), days);
    MiddleOfYears(Local(zone, t));
    MiddleOfYears(Aim(zone, t, days));
    hide Aim;
    MoveNamesTheAim(zone, t, days);
    assert MoveEndpoint(At(t), days, zone) ==
      PlaceEndpoint(AddDaysToKey(ZonedDateKey(zone, t), days).value, ZonedTimeOfDay(zone, t), zone);
    PlaceAnswers(AddDaysToKey(ZonedDateKey(zone, t), days).value, ZonedTimeOfDay(zone, t), zone);
    RejectIsExact(zone, Aim(zone, t, days));
  }

  lemma MiddleOfYears(w: int)
    requires InClockYears(w)
    ensures InKeyRange(w / DAY_MS)
  {}

  /**
   * Moving a whole-minute endpoint by `days` and back returns it exactly
   * when its own wall time was unambiguous.
   */
  lemma MoveUndoneIffUnambiguous(zone: Zone, t: int, days: int)
    requires Regular(zone, Local(zone, t)) && Regular(zone, Aim(zone, t, days))
    requires Local(zone, t) % MINUTE_MS == 0
    requires MoveEndpoint(At(t), days, zone).Ok? && MoveEndpoint(At(t), days, zone).value.At?
    ensures MoveEndpoint(MoveEndpoint(At(t), days, zone).value, -days, zone) == Ok(At(t)) <==>
      forall u :: Local(zone, u) == Local(zone, t) ==> u == t
  {
    hide MoveEndpoint, Regular, Local, IsPlainDate, ParseWallTime, DayOfKey;
    MoveLands(zone, t, days);
    var u := MoveEndpoint(At(t), days, zone).value.ms;
    assert Local(zone, u) == Aim(zone, t, days);
    AimBack(Local(zone, t), days);
    assert Aim(zone, u, -days) == Local(zone, t);
    hide Aim;
    MoveLands(zone, u, -days);
  }

  lemma AimBack(local: int, days: int)
    requires local % MINUTE_MS == 0
    ensures MinuteOf(MinuteOf(local) + days * DAY_MS) + -days * DAY_MS == local
  {
    assert (local + days * DAY_MS) / MINUTE_MS == local / MINUTE_MS + days * 1440;
  }

  ghost predicate OnlyShownAt(zone: Zone, wall: int, t: int) {
    Local(zone, t) == wall && forall u :: Local(zone, u) == wall ==> u == t
  }

  /**
   * The endpoint shows the minute of `t` so many calendar days later: it is
   * the one instant that does, or, when none or two do, that date and time as
   * typed.
   */
  ghost predicate SameMinuteLater(zone: Zone, t: int, days: int, e: Endpoint) {
    var wall := Aim(zone, t, days);
    match e
    case At(u) => OnlyShownAt(zone, wall, u)
    case Typed(day, time) =>
      && !(exists u :: OnlyShownAt(zone, wall, u))
      && IsPlainDate(day) && ParseWallTime(time).Some?
      && DayOfKey(day) * DAY_MS + ParseWallTime(time).value * 1000 == wall
  }

  /** The clock is regular around an endpoint and where it moves to. */
  ghost predicate RegularMove(zone: Zone, t: int, days: int) {
    Regular(zone, Local(zone, t)) && Regular(zone, Aim(zone, t, days))
  }

  /** A moved shift is the same person's, and each endpoint shows its own minute so many days later. */
  lemma MovedShiftKeepsItsTimes(zone: Zone, shift: DutyShift, days: int)
    requires shift.startsAt.At? && shift.endsAt.At?
    requires RegularMove(zone, shift.startsAt.ms, days) && RegularMove(zone, shift.endsAt.ms, days)
    ensures MoveDutyShift(shift, days, zone).Ok?
    ensures var moved := MoveDutyShift(shift, days, zone).value;
      && moved.userId == shift.userId
      && SameMinuteLater(zone, shift.startsAt.ms, days, moved.startsAt)
      && SameMinuteLater(zone, shift.endsAt.ms, days, moved.endsAt)
  {
    EndpointKeepsItsTime(zone, shift.startsAt.ms, days);
    EndpointKeepsItsTime(zone, shift.endsAt.ms, days);
    hide MoveEndpoint, Regular, SameMinuteLater;
  }

  lemma EndpointKeepsItsTime(zone: Zone, t: int, days: int)
    requires RegularMove(zone, t, days)
    ensures MoveEndpoint(At(t), days, zone).Ok?
    ensures SameMinuteLater(zone, t, days, MoveEndpoint(At(t), days, zone).value)
  {
    hide MoveEndpoint, Regular, IsPlainDate, ParseWallTime, DayOfKey, Local, Aim;
    MoveLands(zone, t, days);
    var moved := MoveEndpoint(At(t), days, zone);
    forall u | OnlyShownAt(zone, Aim(zone, t, days), u)
      ensures moved == Ok(At(u))
    {}
  }

  ghost predicate Unambiguous(zone: Zone, t: int) {
    forall u :: Local(zone, u) == Local(zone, t) ==> u == t
  }

  ghost predicate MovesRegularly(zone: Zone, t: int, days: int) {
    Regular(zone, Local(zone, t)) && Regular(zone, Aim(zone, t, days)) && Local(zone, t) % MINUTE_MS == 0
  }

  /** A shift whose first move yields instants comes back unchanged. */
  lemma ShiftMovesUndo(zone: Zone, userId: nat, start: int, end: int, days: int)
    requires MovesRegularly(zone, start, days) && MovesRegularly(zone, end, days)
    requires Unambiguous(zone, start) && Unambiguous(zone, end)
    ensures var shift := DutyShift(userId, At(start), At(end));
      var moved := MoveDutyShift(shift, days, zone);
      && moved.Ok?
      && (moved.value.startsAt.At? && moved.value.endsAt.At? ==> MoveDutyShift(moved.value, -days, zone) == Ok(shift))
  {
    hide MoveEndpoint, Regular, Local;
    MoveLands(zone, start, days);
    MoveLands(zone, end, days);
    var moved := MoveDutyShift(DutyShift(userId, At(start), At(end)), days, zone).value;
    if moved.startsAt.At? && moved.endsAt.At? {
      MoveUndoneIffUnambiguous(zone, start, days);
      MoveUndoneIffUnambiguous(zone, end, days);
    }
  }

  // ---------------------------------------------------------------------
  // Copying a week.

  predicate StartsInWeek(shift: DutyShift, weekStart: string, weekEnd: string, zone: Zone) {
    && shift.startsAt.At? && shift.endsAt.At?
    && !Less(ZonedDateKey(zone, shift.startsAt.ms), weekStart)
    && Less(ZonedDateKey(zone, shift.startsAt.ms), weekEnd)
  }

  /** The shifts the copy is made of, in order. */
  function WeekShifts(shifts: seq<DutyShift>, weekStart: string, weekEnd: string, zone: Zone): seq<DutyShift> {
    if shifts == [] then []
    else
      (if StartsInWeek(shifts[0], weekStart, weekEnd, zone) then [shifts[0]] else []) +
      WeekShifts(shifts[1..], weekStart, weekEnd, zone)
  }

  function MoveAll(shifts: seq<DutyShift>, days: int, zone: Zone): Result<seq<DutyShift>, RangeError> {
    if shifts == [] then Ok([])
    else
      match (MoveDutyShift(shifts[0], days, zone), MoveAll(shifts[1..], days, zone))
      case (Err(error), _) => Err(error)
      case (_, Err(error)) => Err(error)
      case (Ok(first), Ok(rest)) => Ok([first] + rest)
  }

  function CopyDutyWeek(shifts: seq<DutyShift>, weekStart: string, zone: Zone): Result<seq<DutyShift>, RangeError> {
    match AddDaysToKey(weekStart, 7)
    case Err(_) => Err(OutOfRange)
    case Ok(weekEnd) => MoveAll(WeekShifts(shifts, weekStart, weekEnd, zone), 7, zone)
  }

  /** The filter keeps exactly the shifts that start on one of the week's seven days. */
  lemma WeekIsSevenDays(shift: DutyShift, weekStart: string, zone: Zone)
    requires IsPlainDate(weekStart) && InKeyRange(DayOfKey(weekStart) + 7)
    requires shift.startsAt.At? && shift.endsAt.At? && ClockYear(Local(zone, shift.startsAt.ms))
    ensures StartsInWeek(shift, weekStart, AddDaysToKey(weekStart, 7).value, zone) <==>
      DayOfKey(weekStart) <= Local(zone, shift.startsAt.ms) / DAY_MS < DayOfKey(weekStart) + 7
  {
    hide InKeyRange, IsPlainDate, DayOfKey, ParseWallTime, KeyOfDay, ZonedDateKey, ZonedTimeOfDay, Less, ClockYear;
    var day := ZonedDateKey(zone, shift.startsAt.ms);
    InputsNameTheWallTime(zone, shift.startsAt.ms, Reject);
    KeyOfDayRoundTrip(DayOfKey(weekStart) + 7);
    KeyOrder(day, weekStart);
    KeyOrder(day, AddDaysToKey(weekStart, 7).value);
  }

  /** A shift that has instants, and moves between regular times. */
  ghost predicate RegularShift(zone: Zone, shift: DutyShift, days: int) {
    shift.startsAt.At? && shift.endsAt.At? ==>
      RegularMove(zone, shift.startsAt.ms, days) && RegularMove(zone, shift.endsAt.ms, days)
  }

  /** The copy is the same person's, and both its endpoints show their minutes so many days later. */
  ghost predicate IsCopy(zone: Zone, shift: DutyShift, days: int, copy: DutyShift) {
    && shift.startsAt.At? && shift.endsAt.At? && copy.userId == shift.userId
    && SameMinuteLater(zone, shift.startsAt.ms, days, copy.startsAt)
    && SameMinuteLater(zone, shift.endsAt.ms, days, copy.endsAt)
  }

  lemma MovedIsCopy(zone: Zone, shift: DutyShift, days: int)
    requires shift.startsAt.At? && shift.endsAt.At? && RegularShift(zone, shift, days)
    ensures MoveDutyShift(shift, days, zone).Ok? && IsCopy(zone, shift, days, MoveDutyShift(shift, days, zone).value)
  {
    hide MoveDutyShift, RegularMove, SameMinuteLater;
    MovedShiftKeepsItsTimes(zone, shift, days);
  }

  lemma {:induction false} MoveAllCopies(shifts: seq<DutyShift>, days: int, zone: Zone)
    requires forall s :: s in shifts ==> s.startsAt.At? && s.endsAt.At? && RegularShift(zone, s, days)
    ensures MoveAll(shifts, days, zone).Ok?
    ensures var moved := MoveAll(shifts, days, zone).value;
      |moved| == |shifts| && forall i :: 0 <= i < |shifts| ==> IsCopy(zone, shifts[i], days, moved[i])
  {
    hide MoveDutyShift, RegularShift, IsCopy;
    if shifts != [] {
      MovedIsCopy(zone, shifts[0], days);
      MoveAllCopies(shifts[1..], days, zone);
    }
  }

  /**
   * The copies follow the week's shifts one to one and in order; start and
   * end of each show their own minute exactly seven calendar days later.
   */
  lemma CopyKeepsWallTimes(shifts: seq<DutyShift>, weekStart: string, zone: Zone)
    requires AddDaysToKey(weekStart, 7).Ok?
    requires forall s :: s in shifts ==> RegularShift(zone, s, 7)
    ensures CopyDutyWeek(shifts, weekStart, zone).Ok?
    ensures var week := WeekShifts(shifts, weekStart, AddDaysToKey(weekStart, 7).value, zone);
      var copies := CopyDutyWeek(shifts, weekStart, zone).value;
      |copies| == |week| && forall i :: 0 <= i < |week| ==> IsCopy(zone, week[i], 7, copies[i])
  {
    var weekEnd := AddDaysToKey(weekStart, 7).value;
    var week := WeekShifts(shifts, weekStart, weekEnd, zone);
    hide RegularShift, IsCopy, WeekShifts, MoveAll, AddDaysToKey;
    var at := WeekShiftsAreASubsequence(shifts, weekStart, weekEnd, zone);
    forall s | s in week
      ensures s.startsAt.At? && s.endsAt.At? && RegularShift(zone, s, 7)
    {
      var i :| 0 <= i < |week| && week[i] == s;
      assert at[i] in at && shifts[at[i]] in shifts;
    }
    MoveAllCopies(week, 7, zone);
  }

  /** The week's shifts are the shifts of the list that start in it, in the list's order. */
  lemma {:induction false} WeekShiftsAreASubsequence(shifts: seq<DutyShift>, weekStart: string, weekEnd: string,
                                                     zone: Zone)
    returns (at: seq<nat>)
    ensures var week := WeekShifts(shifts, weekStart, weekEnd, zone);
      && |at| == |week|
      && (forall i :: 0 <= i < |at| ==> at[i] < |shifts| && shifts[at[i]] == week[i])
      && (forall i, j :: 0 <= i < j < |at| ==> at[i] < at[j])
      && (forall k :: 0 <= k < |shifts| ==> (k in at <==> StartsInWeek(shifts[k], weekStart, weekEnd, zone)))
  {
    hide StartsInWeek;
    at := [];
    if shifts != [] {
      var last := |shifts| - 1;
      at := WeekShiftsAreASubsequence(shifts[..last], weekStart, weekEnd, zone);
      WeekShiftsAppend(shifts[..last], shifts[last], weekStart, weekEnd, zone);
      assert shifts == shifts[..last] + [shifts[last]];
      if StartsInWeek(shifts[last], weekStart, weekEnd, zone) {
        at := at + [last];
      }
    }
  }

  lemma {:induction false} WeekShiftsAppend(shifts: seq<DutyShift>, shift: DutyShift, weekStart: string,
                                            weekEnd: string, zone: Zone)
    ensures WeekShifts(shifts + [shift], weekStart, weekEnd, zone) == WeekShifts(shifts, weekStart, weekEnd, zone) +
      (if StartsInWeek(shift, weekStart, weekEnd, zone) then [shift] else [])
  {
    hide StartsInWeek;
    var all := shifts + [shift];
    if shifts == [] {
      assert all[1..] == [];
    } else {
      WeekShiftsAppend(shifts[1..], shift, weekStart, weekEnd, zone);
      assert all[1..] == shifts[1..] + [shift];
    }
  }
}

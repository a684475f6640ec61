/**
 * Wall clocks and instants (packages/domain/src/plain-date.ts): what a zone's
 * clock shows at an instant, and which instants show a wall time. A zone is
 * its offset in milliseconds at every instant.
 */
module WallTime {
  import opened Common
  import opened Text
  import opened Calendar
  import opened PlainDate

  type Zone = int -> int

  const MINUTE_MS: int := 60000

  datatype WallClock = WallClock(date: Civil, hour: int, minute: int, second: int)

  /** The clock's reading, as if it were a UTC instant. */
  function Local(zone: Zone, t: int): int {
    t + zone(t)
  }

  /** The calendar fields and the time of day of a reading, whole seconds. */
  function ClockOf(local: int): WallClock {
    var second := local % DAY_MS / 1000;
    WallClock(CivilOf(local / DAY_MS), second / 3600, second / 60 % 60, second % 60)
  }

  function WallClockAt(zone: Zone, t: int): WallClock {
    ClockOf(Local(zone, t))
  }

  /** `Date.UTC` of a wall clock. */
  function WallAsUtc(w: WallClock): int {
    DateUtc(w.date.year, w.date.month - 1, w.date.day) * DAY_MS +
    ((w.hour * 60 + w.minute) * 60 + w.second) * 1000
  }

  /** `offsetMsAt`: the offset, computed back from what the clock shows. */
  function OffsetMsAt(zone: Zone, t: int): int {
    WallAsUtc(WallClockAt(zone, t)) - t / 1000 * 1000
  }

  /** Offsets are whole seconds and below one day. */
  ghost predicate IsZone(zone: Zone) {
    forall t :: zone(t) % 1000 == 0 && -DAY_MS < zone(t) < DAY_MS
  }

  /** The years in which `Date.UTC` reads a printed year as itself. */
  predicate ClockYear(local: int) {
    InKeyRange(local / DAY_MS)
  }

  lemma SecondsOfDay(ms: int)
    requires 0 <= ms < DAY_MS
    ensures var s := ms / 1000; ((s / 3600 * 60 + s / 60 % 60) * 60 + s % 60) * 1000 == ms / 1000 * 1000
  {
    var s := ms / 1000;
    assert s / 3600 * 60 + s / 60 % 60 == s / 60;
  }

  lemma WholeSeconds(t: int, offset: int)
    requires offset % 1000 == 0
    ensures (t + offset) / 1000 * 1000 == t / 1000 * 1000 + offset
  {}

  lemma DaysAndSeconds(local: int)
    ensures local / DAY_MS * DAY_MS + local % DAY_MS / 1000 * 1000 == local / 1000 * 1000
  {
    var d, r := local / DAY_MS, local % DAY_MS;
    WholeSeconds(r, d * DAY_MS);
  }

  lemma DateReadsBack(day: int)
    requires InKeyRange(day)
    ensures ValidCivil(CivilOf(day))
    ensures DateUtc(CivilOf(day).year, CivilOf(day).month - 1, CivilOf(day).day) == day
  {
    CivilRoundTrip(day);
    KeyRange(day);
    MakeDayOfDate(CivilOf(day));
    hide CivilOf, DayFromYear, DayNumber, MakeDay;
  }

  lemma ClockReadsBack(local: int)
    requires ClockYear(local)
    ensures WallAsUtc(ClockOf(local)) == local / 1000 * 1000
  {
    hide CivilOf, DateUtc, InKeyRange;
    DateReadsBack(local / DAY_MS);
    SecondsOfDay(local % DAY_MS);
    DaysAndSeconds(local);
  }

  /** The round trip through the clock's fields gives the zone's own offset. */
  lemma OffsetIsTheZones(zone: Zone, t: int)
    requires IsZone(zone) && ClockYear(Local(zone, t))
    ensures OffsetMsAt(zone, t) == zone(t)
  {
    hide ClockOf, WallAsUtc;
    ClockReadsBack(Local(zone, t));
    WholeSeconds(t, zone(t));
  }

  // ---------------------------------------------------------------------
  // From a wall time to its instant.

  datatype WallTimeError = NotACalendarDate | NotAWallTime | Repeated | Skipped
  datatype Mode = Compatible | Reject

  predicate TwoDigitsAt(time: string, i: nat, max: nat) {
    i + 2 <= |time| && IsDigit(time[i]) && IsDigit(time[i + 1]) && Number(time[i..i + 2]) <= max
  }

  /** `WALL_TIME_RE`: 'HH:mm' or 'HH:mm:ss', as seconds of the day. */
  function ParseWallTime(time: string): (seconds: Option<int>)
    ensures seconds.Some? ==> 0 <= seconds.value < 86400
  {
    if !(|time| in {5, 8} && TwoDigitsAt(time, 0, 23) && time[2] == ':' && TwoDigitsAt(time, 3, 59)) then None
    else
      var minutes := Number(time[0..2]) * 60 + Number(time[3..5]);
      if |time| == 5 then Some(minutes * 60)
      else if time[5] == ':' && TwoDigitsAt(time, 6, 59) then Some(minutes * 60 + Number(time[6..8]))
      else None
  }

  /** The instants of `tried` whose clock shows the wall time `w`. */
  function Showing(zone: Zone, w: int, tried: seq<int>): seq<int> {
    if tried == [] then []
    else (if tried[0] + OffsetMsAt(zone, tried[0]) == w then [tried[0]] else []) + Showing(zone, w, tried[1..])
  }

  /** The offsets a day before and a day after give the only two instants to try. */
  function Candidates(zone: Zone, w: int): seq<int> {
    var a, b := w - OffsetMsAt(zone, w - DAY_MS), w - OffsetMsAt(zone, w + DAY_MS);
    Showing(zone, w, if a == b then [a] else [a, b])
  }

  function InstantOf(zone: Zone, w: int, mode: Mode): Result<int, WallTimeError> {
    var candidates := Candidates(zone, w);
    if mode == Reject && |candidates| != 1 then Err(if |candidates| > 1 then Repeated else Skipped)
    else if |candidates| == 1 then Ok(candidates[0])
    else if |candidates| > 1 then Ok(Min(candidates[0], candidates[1]))
    else Ok(w - OffsetMsAt(zone, w - DAY_MS))
  }

  function ZonedWallTimeToInstant(key: string, time: string, zone: Zone, mode: Mode): Result<int, WallTimeError> {
    if !IsPlainDate(key) then Err(WallTimeError.NotACalendarDate)
    else
      match ParseWallTime(time)
      case None => Err(NotAWallTime)
      case Some(seconds) => InstantOf(zone, DayOfKey(key) * DAY_MS + seconds * 1000, mode)
  }

  /** At most one change of the offset within a day either side of `w`. */
  ghost predicate OneChange(zone: Zone, w: int) {
    exists change :: ChangesAt(zone, w, change)
  }

  ghost predicate ChangesAt(zone: Zone, w: int, change: int) {
    forall t :: w - DAY_MS <= t <= w + DAY_MS ==>
      zone(t) == if t < change then zone(w - DAY_MS) else zone(w + DAY_MS)
  }

  /** The clock years hold three days either side of `w`: no probe leaves them. */
  predicate InClockYears(w: int) {
    InKeyRange(w / DAY_MS - 3) && InKeyRange(w / DAY_MS + 3)
  }

  /** What the code assumes of a zone around `w`. */
  ghost predicate Regular(zone: Zone, w: int) {
    IsZone(zone) && OneChange(zone, w) && InClockYears(w)
  }

  lemma OffsetNear(zone: Zone, w: int, t: int)
    requires IsZone(zone) && InClockYears(w) && w - DAY_MS <= t <= w + DAY_MS
    ensures OffsetMsAt(zone, t) == zone(t)
  {
    var local := Local(zone, t);
    assert w / DAY_MS - 3 <= local / DAY_MS <= w / DAY_MS + 3;
    hide DayFromYear, OffsetMsAt;
    OffsetIsTheZones(zone, t);
  }

  /** The two instants to try, kept when the clock shows `w` there. */
  function Shown(zone: Zone, w: int): seq<int> {
    var a, b := w - zone(w - DAY_MS), w - zone(w + DAY_MS);
    (if Local(zone, a) == w then [a] else []) + (if a != b && Local(zone, b) == w then [b] else [])
  }

  lemma CandidatesAreShown(zone: Zone, w: int)
    requires IsZone(zone) && InClockYears(w)
    ensures Candidates(zone, w) == Shown(zone, w)
    ensures OffsetMsAt(zone, w - DAY_MS) == zone(w - DAY_MS)
  {
    hide OffsetMsAt, InClockYears;
    OffsetNear(zone, w, w - DAY_MS);
    OffsetNear(zone, w, w + DAY_MS);
    var a, b := w - zone(w - DAY_MS), w - zone(w + DAY_MS);
    OffsetNear(zone, w, a);
    OffsetNear(zone, w, b);
    assert [a, b][1..] == [b] && [a][1..] == [] && [b][1..] == [];
    assert Showing(zone, w, [a]) == if Local(zone, a) == w then [a] else [];
    assert Showing(zone, w, [b]) == if Local(zone, b) == w then [b] else [];
  }

  lemma ShownIsAll(zone: Zone, w: int)
    requires IsZone(zone) && OneChange(zone, w)
    ensures forall t :: t in Shown(zone, w) <==> Local(zone, t) == w
    ensures |Shown(zone, w)| == 2 ==> Shown(zone, w)[0] != Shown(zone, w)[1]
  {
    var change :| ChangesAt(zone, w, change);
    forall t | Local(zone, t) == w ensures t in Shown(zone, w) {
      assert w - DAY_MS <= t <= w + DAY_MS;
    }
  }

  /** The filtered candidates are exactly the instants whose clock shows `w`. */
  lemma CandidatesAreAllInstants(zone: Zone, w: int)
    requires Regular(zone, w)
    ensures forall t :: t in Candidates(zone, w) <==> Local(zone, t) == w
    ensures |Candidates(zone, w)| <= 2
    ensures |Candidates(zone, w)| == 2 ==> Candidates(zone, w)[0] != Candidates(zone, w)[1]
  {
    hide Candidates, OffsetMsAt, InClockYears, OneChange;
    CandidatesAreShown(zone, w);
    ShownIsAll(zone, w);
  }

  /** `reject` refuses a wall time as repeated iff two instants show it, as skipped iff none does. */
  lemma RejectIsExact(zone: Zone, w: int)
    requires Regular(zone, w)
    ensures var r := InstantOf(zone, w, Reject);
      && (r == Err(Repeated) <==> exists t, u :: t != u && Local(zone, t) == w && Local(zone, u) == w)
      && (r == Err(Skipped) <==> forall t :: Local(zone, t) != w)
      && (forall t :: r == Ok(t) <==> Local(zone, t) == w && forall u :: Local(zone, u) == w ==> u == t)
  {
    hide Candidates, OffsetMsAt, InClockYears, OneChange, IsZone, Local;
    CandidatesAreAllInstants(zone, w);
    var c := Candidates(zone, w);
    if |c| == 2 {
      assert c[0] in c && c[1] in c;
    } else if |c| == 1 {
      assert c[0] in c;
      assert forall t :: t in c ==> t == c[0];
    }
  }

  /**
   * `compatible` gives the earliest instant that shows `w`; when none does,
   * the clock jumps over `w` by a gap, and the instant shows `w` moved
   * forward by that gap.
   */
  lemma CompatibleIsEarliestOrShifted(zone: Zone, w: int)
    requires Regular(zone, w)
    ensures InstantOf(zone, w, Compatible).Ok?
    ensures var r := InstantOf(zone, w, Compatible).value;
      if exists t :: Local(zone, t) == w
      then Local(zone, r) == w && forall t :: Local(zone, t) == w ==> r <= t
      else JumpsOver(zone, w, r)
  {
    hide Candidates, OffsetMsAt, InClockYears, OneChange, IsZone, Local, JumpsOver;
    CandidatesAreAllInstants(zone, w);
    CandidatesAreShown(zone, w);
    var c := Candidates(zone, w);
    if |c| == 2 {
      assert c[0] in c && c[1] in c;
      assert forall t :: t in c ==> t == c[0] || t == c[1];
    } else if |c| == 1 {
      assert c[0] in c;
      assert forall t :: t in c ==> t == c[0];
    } else {
      assert forall t :: t !in c;
      ShiftedByTheGap(zone, w);
    }
  }

  /** The clock never shows `w`: it jumps over it, and at `r` shows it moved forward by the jump. */
  ghost predicate JumpsOver(zone: Zone, w: int, r: int) {
    var gap := zone(w + DAY_MS) - zone(w - DAY_MS);
    && 0 < gap && Local(zone, r) == w + gap
    && exists change :: ChangesAt(zone, w, change) && r - gap < change <= r
  }

  lemma ShiftedByTheGap(zone: Zone, w: int)
    requires IsZone(zone) && OneChange(zone, w) && forall t :: Local(zone, t) != w
    ensures JumpsOver(zone, w, w - zone(w - DAY_MS))
  {
    var change :| ChangesAt(zone, w, change);
    var a, b := w - zone(w - DAY_MS), w - zone(w + DAY_MS);
    assert Local(zone, a) != w && Local(zone, b) != w;
    assert w - DAY_MS <= a <= w + DAY_MS && w - DAY_MS <= b <= w + DAY_MS;
  }

  /**
   * A date and time become an instant by the mode asked for: `reject` the
   * only instant that shows them, or a refusal as repeated or skipped;
   * `compatible` the earliest one, or the one shifted by the gap. Anything
   * else than a date and a time of day is refused.
   */
  lemma ZonedInstantByMode(key: string, time: string, zone: Zone, mode: Mode)
    requires IsPlainDate(key) && ParseWallTime(time).Some? ==>
      Regular(zone, DayOfKey(key) * DAY_MS + ParseWallTime(time).value * 1000)
    ensures var r := ZonedWallTimeToInstant(key, time, zone, mode);
      if !IsPlainDate(key) then r == Err(WallTimeError.NotACalendarDate)
      else if ParseWallTime(time).None? then r == Err(NotAWallTime)
      else
        var w := DayOfKey(key) * DAY_MS + ParseWallTime(time).value * 1000;
        if mode == Reject then RejectsUnlessOnly(zone, w, r) else r.Ok? && EarliestOrShifted(zone, w, r.value)
  {
    hide IsPlainDate, ParseWallTime, DayOfKey, InstantOf, Regular, Local, JumpsOver;
    if IsPlainDate(key) && ParseWallTime(time).Some? {
      var w := DayOfKey(key) * DAY_MS + ParseWallTime(time).value * 1000;
      RejectIsExact(zone, w);
      CompatibleIsEarliestOrShifted(zone, w);
    }
  }

  ghost predicate RejectsUnlessOnly(zone: Zone, w: int, r: Result<int, WallTimeError>) {
    match r
    case Ok(t) => Local(zone, t) == w && forall u :: Local(zone, u) == w ==> u == t
    case Err(Repeated) => exists t, u :: t != u && Local(zone, t) == w && Local(zone, u) == w
    case Err(Skipped) => forall t :: Local(zone, t) != w
    case Err(_) => false
  }

  ghost predicate EarliestOrShifted(zone: Zone, w: int, r: int) {
    if exists t :: Local(zone, t) == w then Local(zone, r) == w && forall t :: Local(zone, t) == w ==> r <= t
    else JumpsOver(zone, w, r)
  }

  // ---------------------------------------------------------------------
  // Back from an instant to its date and time inputs.

  function ZonedDateKey(zone: Zone, t: int): string {
    KeyOf(WallClockAt(zone, t).date)
  }

  function ZonedTimeOfDay(zone: Zone, t: int): string {
    var w := WallClockAt(zone, t);
    Pad(w.hour, 2) + ":" + Pad(w.minute, 2)
  }

  lemma TimeOfDayReadsBack(hour: int, minute: int)
    requires 0 <= hour < 24 && 0 <= minute < 60
    ensures ParseWallTime(Pad(hour, 2) + ":" + Pad(minute, 2)) == Some((hour * 60 + minute) * 60)
  {
    TwoDigits(hour);
    TwoDigits(minute);
    var time := Pad(hour, 2) + ":" + Pad(minute, 2);
    assert time[0..2] == Pad(hour, 2) && time[3..5] == Pad(minute, 2);
    assert time[0] == Pad(hour, 2)[0] && time[1] == Pad(hour, 2)[1];
    assert time[3] == Pad(minute, 2)[0] && time[4] == Pad(minute, 2)[1];
  }

  /** A wall time as printed: hours and minutes, with or without seconds. */
  ghost predicate Prints(time: string, hour: int, minute: int, second: int) {
    var minutes := Pad(hour, 2) + ":" + Pad(minute, 2);
    && 0 <= hour < 24 && 0 <= minute < 60 && 0 <= second < 60
    && (time == minutes + ":" + Pad(second, 2) || (time == minutes && second == 0))
  }

  lemma PrintsTwoDigits(text: string)
    requires |text| == 2 && IsDigit(text[0]) && IsDigit(text[1])
    ensures 0 <= Number(text) <= 99 && Pad(Number(text), 2) == text
  {
    DigitsBound(0, text);
    assert Pow10(2) == 100 by { assert Pow10(1) == 10; }
    TwoDigits(Number(text));
    NumberIsInjective(Pad(Number(text), 2), text);
  }

  /** Exactly the printed times of a day are read, each as its second of the day. */
  lemma WallTimesRead(time: string, seconds: int)
    ensures ParseWallTime(time) == Some(seconds) <==>
      exists h, m, s :: Prints(time, h, m, s) && seconds == (h * 60 + m) * 60 + s
  {
    hide Number, Pad;
    if exists h, m, s :: Prints(time, h, m, s) && seconds == (h * 60 + m) * 60 + s {
      var h, m, s :| Prints(time, h, m, s) && seconds == (h * 60 + m) * 60 + s;
      PrintedReads(time, h, m, s);
    }
    if ParseWallTime(time) == Some(seconds) {
      ReadPrints(time);
    }
  }

  lemma PrintedReads(time: string, h: int, m: int, s: int)
    requires Prints(time, h, m, s)
    ensures ParseWallTime(time) == Some((h * 60 + m) * 60 + s)
  {
    hide Number, Pad;
    TwoDigits(h);
    TwoDigits(m);
    TwoDigits(s);
    assert time[0..2] == Pad(h, 2) && time[3..5] == Pad(m, 2);
    assert time[0] == time[0..2][0] && time[1] == time[0..2][1];
    assert time[3] == time[3..5][0] && time[4] == time[3..5][1];
    if |time| == 8 {
      assert time[6..8] == Pad(s, 2);
      assert time[6] == time[6..8][0] && time[7] == time[6..8][1];
    }
  }

  lemma ReadPrints(time: string)
    requires ParseWallTime(time).Some?
    ensures exists h, m, s :: Prints(time, h, m, s) && ParseWallTime(time).value == (h * 60 + m) * 60 + s
  {
    hide Number, Pad;
    var hour, minute := time[0..2], time[3..5];
    PrintsTwoDigits(hour);
    PrintsTwoDigits(minute);
    if |time| == 5 {
      assert time == hour + ":" + minute;
      assert Prints(time, Number(hour), Number(minute), 0);
    } else {
      var second := time[6..8];
      PrintsTwoDigits(second);
      assert time == hour + ":" + minute + ":" + second;
      assert Prints(time, Number(hour), Number(minute), Number(second));
    }
  }

  /** A reading cut to its minute, as the date and time inputs of a form show it. */
  function MinuteOf(local: int): int {
    local / MINUTE_MS * MINUTE_MS
  }

  /** The key and the time of an instant name exactly the minute its clock shows. */
  lemma InputsNameTheWallTime(zone: Zone, t: int, mode: Mode)
    requires ClockYear(Local(zone, t))
    ensures IsPlainDate(ZonedDateKey(zone, t)) && DayOfKey(ZonedDateKey(zone, t)) == Local(zone, t) / DAY_MS
    ensures ParseWallTime(ZonedTimeOfDay(zone, t)).Some?
    ensures DayOfKey(ZonedDateKey(zone, t)) * DAY_MS + ParseWallTime(ZonedTimeOfDay(zone, t)).value * 1000
      == MinuteOf(Local(zone, t))
  {
    hide CivilOf, DayFromYear, InKeyRange, IsPlainDate, KeyOf, DayOfKey, ParseWallTime, InstantOf, Pad;
    var local := Local(zone, t);
    KeyOfDayRoundTrip(local / DAY_MS);
    KeyRange(local / DAY_MS);
    var s := local % DAY_MS / 1000;
    TimeOfDayReadsBack(s / 3600, s / 60 % 60);
    WholeMinutes(local);
  }

  lemma WholeMinutes(local: int)
    ensures var s := local % DAY_MS / 1000;
      local / DAY_MS * DAY_MS + ((s / 3600 * 60 + s / 60 % 60) * 60) * 1000 == MinuteOf(local)
  {
    var ms := local % DAY_MS;
    var s := ms / 1000;
    assert s / 3600 * 60 + s / 60 % 60 == s / 60;
    assert s / 60 == ms / MINUTE_MS;
    assert local / MINUTE_MS == local / DAY_MS * 1440 + ms / MINUTE_MS;
  }
}

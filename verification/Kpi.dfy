/** KPI periods on calendar keys (packages/domain/src/kpi.ts). */
module Kpi {
  import opened Common
  import opened Text
  import opened Calendar
  import opened PlainDate

  datatype Period = Month | Quarter | Year

  function MonthsOf(period: Period): (n: int)
    ensures n in {1, 3, 12}
  {
    match period
    case Month => 1
    case Quarter => 3
    case Year => 12
  }

  /** The first month of a month's period. */
  function FirstOf(month: int, period: Period): int {
    match period
    case Month => month
    case Quarter => month - (month - 1) % 3
    case Year => 1
  }

  /** The first day of the period `day` falls in. */
  function KpiPeriodStart(day: string, period: Period): (start: string)
    requires IsPlainDate(day)
    ensures HasShape(start)
  {
    FirstHasShape(day, period);
    KeyOf(Civil(Fields(day).year, FirstOf(Fields(day).month, period), 1))
  }

  lemma FirstHasShape(day: string, period: Period)
    requires IsPlainDate(day)
    ensures HasShape(KeyOf(Civil(Fields(day).year, FirstOf(Fields(day).month, period), 1)))
  {
    hide HasShape, IsPlainDate, KeyOf, Number;
    FieldBounds(day);
    ShapeOfKey(Civil(Fields(day).year, FirstOf(Fields(day).month, period), 1));
  }

  /** The start of the period `count` periods after (or before) `start`. */
  function AddKpiPeriods(start: string, period: Period, count: int): string
    requires HasShape(start)
  {
    var c := Fields(start);
    var index := c.year * 12 + (c.month - 1) + count * MonthsOf(period);
    KeyOf(Civil(index / 12, index - index / 12 * 12 + 1, 1))
  }

  /** The `count` period starts up to the one of `today`, newest first. */
  function RecentKpiPeriods(today: string, period: Period, count: nat): seq<string>
    requires IsPlainDate(today)
  {
    StartOfMonth(today, period);
    seq(count, i => AddKpiPeriods(KpiPeriodStart(today, period), period, -i))
  }

  // ---------------------------------------------------------------------
  // Months counted from year zero.

  const MONTHS: int := 120000

  function MonthIndex(key: string): int
    requires HasShape(key)
  {
    Fields(key).year * 12 + Fields(key).month - 1
  }

  /** The key of a month's first day. */
  function KeyOfMonth(index: int): string {
    KeyOf(Civil(index / 12, index % 12 + 1, 1))
  }

  /** A key that starts a period: the first of a month whose number the period divides. */
  predicate Aligned(key: string, period: Period): (aligned: bool)
    ensures aligned ==> HasShape(key)
  {
    HasShape(key) && 0 <= MonthIndex(key) < MONTHS && key == KeyOfMonth(MonthIndex(key)) &&
    MonthIndex(key) % MonthsOf(period) == 0
  }

  lemma KeyOfMonthRoundTrip(index: int)
    ensures HasShape(KeyOfMonth(index)) <==> 0 <= index < MONTHS
    ensures HasShape(KeyOfMonth(index)) ==> MonthIndex(KeyOfMonth(index)) == index
    ensures IsPlainDate(KeyOfMonth(index)) <==> 1200 <= index < MONTHS
  {
    hide HasShape, Number, KeyOf, IsPlainDate, DayFromYear;
    ShapeOfKey(Civil(index / 12, index % 12 + 1, 1));
    KeyRoundTrip(Civil(index / 12, index % 12 + 1, 1));
  }

  lemma MonthOrder(m: int, n: int)
    requires 0 <= m < MONTHS && 0 <= n < MONTHS
    ensures Less(KeyOfMonth(m), KeyOfMonth(n)) <==> m < n
  {
    hide HasShape, Number, KeyOf, Less;
    ShapeOfKey(Civil(m / 12, m % 12 + 1, 1));
    ShapeOfKey(Civil(n / 12, n % 12 + 1, 1));
    TextOrder(KeyOfMonth(m), KeyOfMonth(n));
  }

  /** The start of a day's period is its month counted down to a multiple of the period. */
  lemma StartOfMonth(day: string, period: Period)
    requires IsPlainDate(day)
    ensures var index := MonthIndex(day);
      && 1200 <= index < MONTHS
      && KpiPeriodStart(day, period) == KeyOfMonth(index - index % MonthsOf(period))
      && Aligned(KpiPeriodStart(day, period), period)
      && IsPlainDate(KpiPeriodStart(day, period))
  {
    hide HasShape, Number, KeyOf, IsPlainDate, DayFromYear, DateUtc;
    PlainDateIffRealDay(day);
    var index := MonthIndex(day);
    FirstMonth(Fields(day).year, Fields(day).month, period);
    KeyOfMonthRoundTrip(index - index % MonthsOf(period));
  }

  /** The first month of a period, in month numbers. */
  lemma FirstMonth(year: int, month: int, period: Period)
    requires 100 <= year <= 9999 && 1 <= month <= 12
    ensures var index := year * 12 + month - 1;
      var first := index - index % MonthsOf(period);
      && 1200 <= first <= index < MONTHS && first % MonthsOf(period) == 0 && first / 12 == year
      && first % 12 + 1 == FirstOf(month, period)
  {}

  /**
   * A period starts on the first of its month: a month in that month, a
   * quarter in January, April, July or October, a year in January.
   */
  lemma StartsOnItsMonth(day: string, period: Period)
    requires IsPlainDate(day)
    ensures var start, date := Fields(KpiPeriodStart(day, period)), Fields(day);
      && start.year == date.year && start.day == 1
      && match period
        case Month => start.month == date.month
        case Quarter => start.month in {1, 4, 7, 10} && start.month <= date.month <= start.month + 2
        case Year => start.month == 1
  {
    hide HasShape, Number, KeyOf, IsPlainDate, DayFromYear, DateUtc;
    PlainDateIffRealDay(day);
    ShapeOfKey(Civil(Fields(day).year, FirstOf(Fields(day).month, period), 1));
  }

  /** The start of the period so many periods on, in the four-digit years: one, three or twelve months each. */
  lemma StepsByMonths(start: string, period: Period, count: int)
    requires Aligned(start, period)
    ensures var months := match period case Month => 1 case Quarter => 3 case Year => 12;
      var index := Fields(start).year * 12 + Fields(start).month - 1 + count * months;
      0 <= index < 120000 ==>
        && HasShape(AddKpiPeriods(start, period, count))
        && Fields(AddKpiPeriods(start, period, count)) == Civil(index / 12, index % 12 + 1, 1)
  {
    hide HasShape, Number, KeyOf, Fields;
    var index := MonthIndex(start) + count * MonthsOf(period);
    ShapeOfKey(Civil(index / 12, index % 12 + 1, 1));
  }

  /** A step adds the periods' months, and lands on a key exactly in the four-digit years. */
  lemma StepAddsMonths(start: string, period: Period, count: int)
    requires Aligned(start, period)
    ensures var index := MonthIndex(start) + count * MonthsOf(period);
      && AddKpiPeriods(start, period, count) == KeyOfMonth(index)
      && (Aligned(AddKpiPeriods(start, period, count), period) <==> 0 <= index < MONTHS)
      && (0 <= index < MONTHS ==> MonthIndex(AddKpiPeriods(start, period, count)) == index)
  {
    hide HasShape, Number, KeyOf;
    KeyOfMonthRoundTrip(MonthIndex(start) + count * MonthsOf(period));
    MultipleStays(MonthIndex(start), MonthsOf(period), count);
  }

  lemma MultipleStays(index: int, n: int, count: int)
    requires n in {1, 3, 12} && index % n == 0
    ensures (index + count * n) % n == 0
  {}

  /** Periods add up as long as the year between has four digits. */
  lemma AddKpiPeriodsIsAdditive(start: string, period: Period, m: int, n: int)
    requires Aligned(start, period) && HasShape(AddKpiPeriods(start, period, m))
    ensures Aligned(AddKpiPeriods(start, period, m), period)
    ensures AddKpiPeriods(AddKpiPeriods(start, period, m), period, n) == AddKpiPeriods(start, period, m + n)
  {
    hide HasShape, Number, KeyOf, Aligned;
    KeyOfMonthRoundTrip(MonthIndex(start) + m * MonthsOf(period));
    StepAddsMonths(start, period, m);
    StepAddsMonths(start, period, m + n);
    StepAddsMonths(AddKpiPeriods(start, period, m), period, n);
    assert (m + n) * MonthsOf(period) == m * MonthsOf(period) + n * MonthsOf(period);
  }

  /** A day lies in its period: not before its start, and before the next one's; a start is its own. */
  lemma DayLiesInItsPeriod(day: string, period: Period)
    requires IsPlainDate(day) && Fields(day).year < 9999
    ensures var start := KpiPeriodStart(day, period);
      && !Less(day, start) && Less(day, AddKpiPeriods(start, period, 1))
      && (start == day <==> Aligned(day, period))
  {
    hide HasShape, Number, KeyOf, IsPlainDate, DayFromYear, DateUtc, KpiPeriodStart, AddKpiPeriods, Less, DayOfKey,
      DayNumber, Leap;
    PlainDateIffRealDay(day);
    StartOfMonth(day, period);
    var start := KpiPeriodStart(day, period);
    assert MonthIndex(day) < MONTHS - 12;
    hide MonthIndex, KeyOfMonth;
    KeyOfMonthRoundTrip(MonthIndex(day) - MonthIndex(day) % MonthsOf(period));
    StepAddsMonths(start, period, 1);
    DatesOfMonths(day, start);
    KeyOfMonthRoundTrip(MonthIndex(start) + MonthsOf(period));
    DatesOfMonths(day, AddKpiPeriods(start, period, 1));
  }

  /** A day orders against a month's first day as its month does. */
  lemma DatesOfMonths(day: string, first: string)
    requires IsPlainDate(day) && HasShape(first) && 0 <= MonthIndex(first) < MONTHS
    requires first == KeyOfMonth(MonthIndex(first))
    ensures Less(day, first) <==> MonthIndex(day) < MonthIndex(first)
  {
    hide HasShape, Number, KeyOf, IsPlainDate, DayFromYear, DateUtc, Less;
    PlainDateIffRealDay(day);
    var index := MonthIndex(first);
    ShapeOfKey(Civil(index / 12, index % 12 + 1, 1));
    TextOrder(day, first);
  }

  /** The chart's window, newest first: it ends on today's period, each start one period before the last. */
  lemma RecentPeriodsDescend(today: string, period: Period, count: nat, i: int)
    requires IsPlainDate(today) && 0 <= i && i + 1 < count && MonthsOf(period) * count <= MonthIndex(today)
    ensures var starts := RecentKpiPeriods(today, period, count);
      && starts[0] == KpiPeriodStart(today, period)
      && Aligned(starts[i + 1], period)
      && Less(starts[i + 1], starts[i])
      && AddKpiPeriods(starts[i + 1], period, 1) == starts[i]
  {
    hide HasShape, Number, KeyOf, IsPlainDate, DayFromYear, DateUtc, KpiPeriodStart, AddKpiPeriods, Less, Aligned;
    StartOfMonth(today, period);
    var start, n := KpiPeriodStart(today, period), MonthsOf(period);
    KeyOfMonthRoundTrip(MonthIndex(today) - MonthIndex(today) % n);
    var back: int := -i;
    StepAddsMonths(start, period, 0);
    StepAddsMonths(start, period, back);
    StepAddsMonths(start, period, back - 1);
    assert 0 <= -back * n <= (1 - back) * n <= count * n - n;
    KeyOfMonthRoundTrip(MonthIndex(start) + (back - 1) * n);
    AddKpiPeriodsIsAdditive(start, period, back - 1, 1);
    MonthOrder(MonthIndex(start) + (back - 1) * n, MonthIndex(start) + back * n);
  }
}

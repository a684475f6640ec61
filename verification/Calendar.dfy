/**
 * Calendar arithmetic as `Date.UTC` and the `getUTC*` fields do it (section
 * 21.4.1 of ECMA-262): day numbers since 1970-01-01 in the proleptic
 * Gregorian calendar.
 */
module Calendar {

  const DAY_MS: int := 86400000

  datatype Civil = Civil(year: int, month: int, day: int)

  predicate Leap(year: int) {
    year % 4 == 0 && (year % 100 != 0 || year % 400 == 0)
  }

  function DayFromYear(year: int): int {
    365 * (year - 1970) + (year - 1969) / 4 - (year - 1901) / 100 + (year - 1601) / 400
  }

  function MonthLength(month: int, leap: bool): (n: int)
    requires 1 <= month <= 12
    ensures 28 <= n <= 31
  {
    if month == 2 then (if leap then 29 else 28)
    else if month in {4, 6, 9, 11} then 30 else 31
  }

  /** The days of a year before its `month`; 13 is the whole year. */
  function DaysBeforeMonth(month: int, leap: bool): int
    requires 1 <= month <= 13
    decreases month
  {
    if month == 1 then 0 else DaysBeforeMonth(month - 1, leap) + MonthLength(month - 1, leap)
  }

  predicate ValidCivil(c: Civil) {
    1 <= c.month <= 12 && 1 <= c.day <= MonthLength(c.month, Leap(c.year))
  }

  /** The day number of the first of a month. */
  function MonthStart(year: int, month: int): int
    requires 1 <= month <= 13
  {
    DayFromYear(year) + DaysBeforeMonth(month, Leap(year))
  }

  function DayNumber(c: Civil): int
    requires 1 <= c.month <= 12
  {
    MonthStart(c.year, c.month) + c.day - 1
  }

  /** `MakeDay`: months and days outside their range roll over. */
  function MakeDay(year: int, monthIndex: int, day: int): int {
    MonthStart(year + monthIndex / 12, monthIndex % 12 + 1) + day - 1
  }

  /** `Date.UTC` of a date, as a day number: the years 0 to 99 mean 1900 to 1999. */
  function DateUtc(year: int, monthIndex: int, day: int): int {
    MakeDay(if 0 <= year <= 99 then 1900 + year else year, monthIndex, day)
  }

  function YearFrom(year: int, day: int): (y: int)
    requires DayFromYear(year) <= day
    ensures DayFromYear(y) <= day < DayFromYear(y + 1)
    decreases day - DayFromYear(year)
  {
    YearLength(year);
    if DayFromYear(year + 1) <= day then YearFrom(year + 1, day) else year
  }

  /** `YearFromTime`: the year whose first day is the last one not after `day`. */
  function YearOf(day: int): (y: int)
    ensures DayFromYear(y) <= day < DayFromYear(y + 1)
  {
    YearFrom(1969 + day / (if day < 0 then 365 else 366), day)
  }

  function MonthFrom(month: int, dayOfYear: int, leap: bool): (m: int)
    requires 1 <= month <= 12 && DaysBeforeMonth(month, leap) <= dayOfYear < DaysBeforeMonth(13, leap)
    ensures month <= m <= 12 && DaysBeforeMonth(m, leap) <= dayOfYear < DaysBeforeMonth(m + 1, leap)
    decreases 12 - month
  {
    if dayOfYear < DaysBeforeMonth(month + 1, leap) then month else MonthFrom(month + 1, dayOfYear, leap)
  }

  /** The `getUTC*` fields of a day. */
  function CivilOf(day: int): Civil {
    var year := YearOf(day);
    var dayOfYear := day - DayFromYear(year);
    FitsItsYear(year, day);
    var month := MonthFrom(1, dayOfYear, Leap(year));
    Civil(year, month, dayOfYear - DaysBeforeMonth(month, Leap(year)) + 1)
  }

  lemma FitsItsYear(year: int, day: int)
    requires DayFromYear(year) <= day < DayFromYear(year + 1)
    ensures DaysBeforeMonth(1, Leap(year)) == 0 <= day - DayFromYear(year) < DaysBeforeMonth(13, Leap(year))
  {
    hide DayFromYear, Leap;
    YearLength(year);
    YearDays(Leap(year));
  }

  lemma YearLength(year: int)
    ensures DayFromYear(year + 1) == DayFromYear(year) + (if Leap(year) then 366 else 365)
  {
    Quotients(year);
    Step4(year - 1969);
    Step100(year - 1901);
    Step400(year - 1601);
  }

  lemma Quotients(year: int)
    ensures (year - 1968) % 4 == year % 4 && (year - 1900) % 100 == year % 100 && (year - 1600) % 400 == year % 400
    ensures year % 400 == 0 ==> year % 100 == 0
    ensures year % 100 == 0 ==> year % 4 == 0
  {
    Shift4(year);
    Shift100(year);
    Shift400(year);
    By400(year);
    By100(year);
  }

  lemma Shift4(n: int)
    ensures (n - 1968) % 4 == n % 4
  {}

  lemma Shift100(n: int)
    ensures (n - 1900) % 100 == n % 100
  {}

  lemma Shift400(n: int)
    ensures (n - 1600) % 400 == n % 400
  {}

  lemma By400(n: int)
    ensures n % 400 == 0 ==> n % 100 == 0
  {}

  lemma By100(n: int)
    ensures n % 100 == 0 ==> n % 4 == 0
  {}

  lemma Step4(n: int)
    ensures (n + 1) / 4 == n / 4 + (if (n + 1) % 4 == 0 then 1 else 0)
  {}

  lemma Step100(n: int)
    ensures (n + 1) / 100 == n / 100 + (if (n + 1) % 100 == 0 then 1 else 0)
  {}

  lemma Step400(n: int)
    ensures (n + 1) / 400 == n / 400 + (if (n + 1) % 400 == 0 then 1 else 0)
  {}

  lemma YearDays(leap: bool)
    ensures DaysBeforeMonth(13, leap) == if leap then 366 else 365
  {
    assert DaysBeforeMonth(4, leap) == if leap then 91 else 90;
    assert DaysBeforeMonth(7, leap) == if leap then 182 else 181;
    assert DaysBeforeMonth(10, leap) == if leap then 274 else 273;
  }

  lemma {:induction false} MonthsGrow(m: int, n: int, leap: bool)
    requires 1 <= m <= n <= 13
    ensures DaysBeforeMonth(m, leap) + 28 * (n - m) <= DaysBeforeMonth(n, leap)
    decreases n
  {
    if m < n {
      MonthsGrow(m, n - 1, leap);
    }
  }

  lemma {:induction false} YearsGrow(y: int, z: int)
    requires y <= z
    ensures DayFromYear(y) + 365 * (z - y) <= DayFromYear(z)
    decreases z - y
  {
    if y < z {
      YearsGrow(y, z - 1);
      YearLength(z - 1);
    }
  }

  predicate Before(a: Civil, b: Civil) {
    a.year < b.year || (a.year == b.year && (a.month < b.month || (a.month == b.month && a.day < b.day)))
  }

  lemma InItsYear(c: Civil)
    requires ValidCivil(c)
    ensures DayFromYear(c.year) <= DayNumber(c) < DayFromYear(c.year + 1)
    ensures MonthStart(c.year, c.month) <= DayNumber(c) < MonthStart(c.year, c.month + 1)
  {
    hide DayFromYear, Leap;
    MonthsGrow(1, c.month, Leap(c.year));
    MonthsGrow(c.month + 1, 13, Leap(c.year));
    YearLength(c.year);
    YearDays(Leap(c.year));
  }

  /** Day numbers order dates as year, month, day do. */
  lemma DayOrder(a: Civil, b: Civil)
    requires ValidCivil(a) && ValidCivil(b)
    ensures Before(a, b) <==> DayNumber(a) < DayNumber(b)
    ensures a == b <==> DayNumber(a) == DayNumber(b)
  {
    if Before(b, a) {
      Earlier(b, a);
    } else if Before(a, b) {
      Earlier(a, b);
    }
  }

  lemma Earlier(a: Civil, b: Civil)
    requires ValidCivil(a) && ValidCivil(b) && Before(a, b)
    ensures DayNumber(a) < DayNumber(b)
  {
    if a.year < b.year {
      InItsYear(a);
      InItsYear(b);
      YearsGrow(a.year + 1, b.year);
    } else if a.month < b.month {
      EarlierInYear(a, b);
    }
  }

  lemma EarlierInYear(a: Civil, b: Civil)
    requires ValidCivil(a) && ValidCivil(b) && a.year == b.year && a.month < b.month
    ensures DayNumber(a) < DayNumber(b)
  {
    MonthsGrow(a.month + 1, b.month, Leap(a.year));
  }

  /** Every day number is the number of exactly one date. */
  lemma CivilRoundTrip(day: int)
    ensures ValidCivil(CivilOf(day)) && DayNumber(CivilOf(day)) == day
  {}

  lemma DayRoundTrip(c: Civil)
    requires ValidCivil(c)
    ensures CivilOf(DayNumber(c)) == c
  {
    CivilRoundTrip(DayNumber(c));
    DayOrder(CivilOf(DayNumber(c)), c);
  }

  /** The last day of a month of the Gregorian calendar. */
  function LastDay(year: int, month: int): int {
    if month == 2 then (if year % 400 == 0 || (year % 4 == 0 && year % 100 != 0) then 29 else 28)
    else if month in {1, 3, 5, 7, 8, 10, 12} then 31
    else 30
  }

  function NextDay(c: Civil): Civil {
    if c.day < LastDay(c.year, c.month) then Civil(c.year, c.month, c.day + 1)
    else if c.month < 12 then Civil(c.year, c.month + 1, 1)
    else Civil(c.year + 1, 1, 1)
  }

  lemma LastDayMeans(year: int, month: int)
    requires 1 <= month <= 12
    ensures LastDay(year, month) == MonthLength(month, Leap(year))
  {
    Quotients(year);
  }

  /** The day numbers count the dates one by one from 1970-01-01. */
  lemma DaysAreCounted(c: Civil)
    requires ValidCivil(c)
    ensures ValidCivil(NextDay(c)) && DayNumber(NextDay(c)) == DayNumber(c) + 1
    ensures DayNumber(Civil(1970, 1, 1)) == 0
  {
    hide DayFromYear, Leap, LastDay;
    LastDayMeans(c.year, c.month);
    YearLength(c.year);
    YearDays(Leap(c.year));
    FirstYear();
  }

  lemma FirstYear()
    ensures DayFromYear(1970) == 0
  {}
}

/**
 * Calendar dates as 'YYYY-MM-DD' keys (packages/domain/src/plain-date.ts):
 * the check, day and month arithmetic, and the order of keys as strings.
 */
module PlainDate {
  import opened Common
  import opened Text
  import opened Calendar

  datatype DateError = NotACalendarDate

  /** What `new Date(t)` can hold: 100 million days either side of the epoch. */
  const MAX_DAY: int := 100000000

  /** `PLAIN_DATE_RE`: four digits, two digits, two digits. */
  predicate HasShape(key: string) {
    && |key| == 10 && key[4] == '-' && key[7] == '-'
    && (forall i :: 0 <= i < 10 && i != 4 && i != 7 ==> IsDigit(key[i]))
  }

  /** The three numbers of a key, whether or not they name a day. */
  function Fields(key: string): Civil
    requires HasShape(key)
  {
    Civil(Number(key[..4]), Number(key[5..7]), Number(key[8..]))
  }

  /** `isPlainDate`: the fields survive a trip through `Date.UTC`. */
  predicate IsPlainDate(key: string): (plain: bool)
    ensures plain ==> HasShape(key) && 1 <= Fields(key).month <= 12
  {
    HasShape(key) &&
    var c := Fields(key);
    && 1 <= c.month <= 12 && 1 <= c.day
    && CivilOf(DateUtc(c.year, c.month - 1, c.day)) == c
  }

  /** A date as the arithmetic prints it. */
  function KeyOf(c: Civil): string {
    Pad(c.year, 4) + "-" + Pad(c.month, 2) + "-" + Pad(c.day, 2)
  }

  /** `Date.UTC` of a key, as a day number. */
  function DayOfKey(key: string): int
    requires HasShape(key)
  {
    var c := Fields(key);
    DateUtc(c.year, c.month - 1, c.day)
  }

  /** The key of a day, out of the range of `Date` as `pad` prints three times NaN. */
  function KeyOfDay(day: int): string {
    if -MAX_DAY <= day <= MAX_DAY then KeyOf(CivilOf(day)) else "0NaN-NaN-NaN"
  }

  function AddDaysToKey(key: string, days: int): Result<string, DateError> {
    if !IsPlainDate(key) then Err(NotACalendarDate)
    else Ok(KeyOfDay(DayOfKey(key) + days))
  }

  function DaysBetweenKeys(from: string, to: string): Result<int, DateError> {
    if !IsPlainDate(from) || !IsPlainDate(to) then Err(NotACalendarDate)
    else Ok(DayOfKey(to) - DayOfKey(from))
  }

  function AddMonthsToKey(key: string, months: int): Result<string, DateError> {
    if !IsPlainDate(key) then Err(NotACalendarDate)
    else
      var c := Fields(key);
      var targetDay := DateUtc(c.year, c.month - 1 + months, 1);
      if !(-MAX_DAY <= targetDay <= MAX_DAY) then Ok("0NaN-NaN-NaN")
      else
        var target := CivilOf(targetDay);
        var lastDay := CivilOf(DateUtc(target.year, target.month, 0)).day;
        Ok(KeyOf(Civil(target.year, target.month, Min(c.day, lastDay))))
  }

  // ---------------------------------------------------------------------
  // Keys and dates.

  /** The years a key can name: `Date.UTC` takes the ones before 100 for 1900 to 1999. */
  predicate KeyYear(year: int) {
    100 <= year <= 9999
  }

  lemma MakeDayOfDate(c: Civil)
    requires 1 <= c.month <= 12
    ensures MakeDay(c.year, c.month - 1, c.day) == DayNumber(c)
  {
    hide DayFromYear, DaysBeforeMonth, Leap;
  }

  /** A key is a plain date iff it names a real day of the years 100 to 9999. */
  lemma PlainDateIffRealDay(key: string)
    ensures IsPlainDate(key) <==>
      HasShape(key) && KeyYear(Fields(key).year) && ValidCivil(Fields(key))
    ensures IsPlainDate(key) ==> DayOfKey(key) == DayNumber(Fields(key))
  {
    hide DayFromYear, DaysBeforeMonth, YearOf, MonthFrom, NumberFrom;
    if HasShape(key) {
      var c := Fields(key);
      FieldBounds(key);
      if 1 <= c.month <= 12 && 1 <= c.day {
        var n := DateUtc(c.year, c.month - 1, c.day);
        CivilRoundTrip(n);
        if 100 <= c.year {
          MakeDayOfDate(c);
          if ValidCivil(c) {
            DayRoundTrip(c);
          }
        } else {
          MakeDayOfDate(c.(year := 1900 + c.year));
          CenturyOff(c);
        }
      }
    }
  }

  lemma FieldBounds(key: string)
    requires HasShape(key)
    ensures 0 <= Fields(key).year <= 9999 && 0 <= Fields(key).month <= 99 && 0 <= Fields(key).day <= 99
  {
    DigitsBound(0, key[..4]);
    DigitsBound(0, key[5..7]);
    DigitsBound(0, key[8..]);
    assert Pow10(4) == 10000 && Pow10(2) == 100 by {
      assert Pow10(1) == 10 && Pow10(2) == 100 && Pow10(3) == 1000;
    }
  }

  lemma {:induction false} DigitsBound(acc: nat, s: string)
    requires AllDigits(s)
    ensures NumberFrom(acc, s) < (acc + 1) * Pow10(|s|)
    decreases s
  {
    if s == [] {
      assert Pow10(0) == 1;
    } else {
      var next, power := acc * 10 + DigitValue(s[0]), Pow10(|s| - 1);
      DigitsBound(next, s[1..]);
      assert Pow10(|s|) == 10 * power;
      TimesPower(next + 1, (acc + 1) * 10, power);
      assert (acc + 1) * 10 * power == (acc + 1) * (10 * power);
    }
  }

  lemma TimesPower(a: nat, b: nat, power: nat)
    requires a <= b
    ensures a * power <= b * power
  {}

  /** A date whose year was moved to the 1900s never reads back as the year it came from. */
  lemma CenturyOff(c: Civil)
    requires 0 <= c.year <= 99 && 1 <= c.month <= 12 && 1 <= c.day <= 99
    ensures CivilOf(DayNumber(c.(year := 1900 + c.year))).year != c.year
  {
    var n := DayNumber(c.(year := 1900 + c.year));
    MonthsGrow(1, c.month, Leap(1900 + c.year));
    YearsGrow(c.year + 1, 1900 + c.year);
  }

  lemma TwoDigits(n: int)
    requires 0 <= n <= 99
    ensures |Pad(n, 2)| == 2 && AllDigits(Pad(n, 2)) && Number(Pad(n, 2)) == n
  {
    PadRoundTrip(n, 2);
    assert Pow10(2) == 100 by { assert Pow10(1) == 10; }
  }

  lemma {:induction false} PadStartKeepsText(s: string, width: nat, i: nat)
    requires i < |s|
    ensures PadStart(s, width)[|PadStart(s, width)| - |s| + i] == s[i]
    decreases width - |s|
  {
    if |s| < width {
      PadStartKeepsText("0" + s, width, i + 1);
    }
  }

  /** Four digits, two and two between dashes have the shape, and those fields. */
  lemma ShapeOfParts(year: string, month: string, day: string)
    requires |year| == 4 && |month| == 2 && |day| == 2 && AllDigits(year) && AllDigits(month) && AllDigits(day)
    ensures var key := year + "-" + month + "-" + day;
      HasShape(key) && Fields(key) == Civil(Number(year), Number(month), Number(day))
  {
    hide Number, IsDigit;
    var key := year + "-" + month + "-" + day;
    assert key[..4] == year && key[5..7] == month && key[8..] == day;
    assert forall i :: 0 <= i < 4 ==> key[i] == year[i];
    assert forall i :: 0 <= i < 2 ==> key[5 + i] == month[i] && key[8 + i] == day[i];
  }

  /** A year of another length, or with a sign, gives no key. */
  lemma NoShape(year: string, month: string, day: string, i: nat)
    requires |month| == 2 && |day| == 2 && i < |year| && (|year| != 4 || year[i] == '-')
    ensures !HasShape(year + "-" + month + "-" + day)
  {
    var key := year + "-" + month + "-" + day;
    assert key[i] == year[i];
  }

  /** A printed date has the shape of a key exactly for the years 0 to 9999. */
  lemma ShapeOfKey(c: Civil)
    requires 0 <= c.month <= 99 && 0 <= c.day <= 99
    ensures HasShape(KeyOf(c)) <==> 0 <= c.year <= 9999
    ensures HasShape(KeyOf(c)) ==> Fields(KeyOf(c)) == c
  {
    hide Number, Pow10, PadStart, HasShape, Decimal;
    var year, month, day := Pad(c.year, 4), Pad(c.month, 2), Pad(c.day, 2);
    TwoDigits(c.month);
    TwoDigits(c.day);
    if c.year < 0 {
      var text := "-" + Decimal(-c.year);
      PadStartKeepsText(text, 4, 0);
      NoShape(year, month, day, |year| - |text|);
    } else {
      PadRoundTrip(c.year, 4);
      FourDigitPower();
      if |year| == 4 {
        ShapeOfParts(year, month, day);
      } else {
        NoShape(year, month, day, 0);
      }
    }
  }

  lemma FourDigitPower()
    ensures Pow10(4) == 10000
  {
    assert Pow10(1) == 10 && Pow10(2) == 100 && Pow10(3) == 1000;
  }

  /** Printing a date of the key years gives a plain date with those fields; nothing else does. */
  lemma KeyRoundTrip(c: Civil)
    requires ValidCivil(c)
    ensures IsPlainDate(KeyOf(c)) <==> KeyYear(c.year)
    ensures KeyYear(c.year) ==> Fields(KeyOf(c)) == c && DayOfKey(KeyOf(c)) == DayNumber(c)
  {
    ShapeOfKey(c);
    PlainDateIffRealDay(KeyOf(c));
  }

  lemma {:induction false} NumberIsInjective(a: string, b: string)
    requires |a| == |b| && AllDigits(a) && AllDigits(b) && Number(a) == Number(b)
    ensures a == b
  {
    DigitOrder(0, a, b, "", "");
  }

  lemma KeyOfItsFields(key: string)
    requires HasShape(key) && Fields(key).month <= 99 && Fields(key).day <= 99
    ensures KeyOf(Fields(key)) == key
  {
    var c := Fields(key);
    FieldBounds(key);
    ShapeOfKey(c);
    var again := KeyOf(c);
    NumberIsInjective(key[..4], again[..4]);
    NumberIsInjective(key[5..7], again[5..7]);
    NumberIsInjective(key[8..], again[8..]);
    assert key == key[..4] + "-" + key[5..7] + "-" + key[8..];
    assert again == again[..4] + "-" + again[5..7] + "-" + again[8..];
  }

  /** A plain date is the key of its own fields, so of its day. */
  lemma KeyOfItsDay(key: string)
    requires IsPlainDate(key)
    ensures KeyOf(Fields(key)) == key
    ensures CivilOf(DayOfKey(key)) == Fields(key)
  {
    hide HasShape, DayFromYear, CivilOf, DayNumber, KeyOf, Number;
    FieldBounds(key);
    PlainDateIffRealDay(key);
    DayRoundTrip(Fields(key));
    KeyOfItsFields(key);
  }

  /** Texts of the shape compare as their year, month and day do. */
  lemma TextOrder(a: string, b: string)
    requires HasShape(a) && HasShape(b)
    ensures Less(a, b) <==> Before(Fields(a), Fields(b))
  {
    hide NumberFrom, IsDigit;
    DigitOrder(0, a[8..], b[8..], "", "");
    DigitOrder(0, a[5..7], b[5..7], a[7..], b[7..]);
    DigitOrder(0, a[..4], b[..4], a[4..], b[4..]);
    Slices(a);
    Slices(b);
  }

  lemma Slices(key: string)
    requires |key| == 10
    ensures key[..4] + key[4..] == key && key[5..7] + key[7..] == key[5..] && key[8..] + "" == key[8..]
    ensures key[4..][1..] == key[5..] && key[7..][1..] == key[8..]
  {}

  /** Keys compare as strings the way their days follow each other. */
  lemma KeyOrder(a: string, b: string)
    requires IsPlainDate(a) && IsPlainDate(b)
    ensures Less(a, b) <==> DayOfKey(a) < DayOfKey(b)
    ensures a == b <==> DayOfKey(a) == DayOfKey(b)
  {
    hide DayFromYear, CivilOf, DateUtc, DayNumber, Less, MonthLength, Number;
    PlainDateIffRealDay(a);
    PlainDateIffRealDay(b);
    TextOrder(a, b);
    DayOrder(Fields(a), Fields(b));
    KeyOfItsDay(a);
    KeyOfItsDay(b);
  }

  // ---------------------------------------------------------------------
  // Days.

  predicate InKeyRange(day: int) {
    DayFromYear(100) <= day < DayFromYear(10000)
  }

  lemma YearOfCivil(day: int)
    ensures CivilOf(day).year == YearOf(day)
  {}

  lemma KeyDays()
    ensures -MAX_DAY <= DayFromYear(100) && DayFromYear(10000) <= MAX_DAY
  {}

  lemma KeyRange(day: int)
    ensures KeyYear(CivilOf(day).year) <==> InKeyRange(day)
    ensures InKeyRange(day) ==> -MAX_DAY <= day <= MAX_DAY
  {
    KeyDays();
    YearOfCivil(day);
    hide CivilOf, DayNumber, DayFromYear, YearOf;
    var y := YearOf(day);
    if y < 100 {
      YearsGrow(y + 1, 100);
    } else if y <= 9999 {
      YearsGrow(100, y);
      YearsGrow(y + 1, 10000);
    } else {
      YearsGrow(10000, y);
    }
  }

  /** The key of a day is a plain date, and reads back as that day, exactly in the key range. */
  lemma KeyOfDayRoundTrip(day: int)
    ensures IsPlainDate(KeyOfDay(day)) <==> InKeyRange(day)
    ensures InKeyRange(day) ==> DayOfKey(KeyOfDay(day)) == day
  {
    hide CivilOf, DayFromYear, HasShape;
    KeyRange(day);
    CivilRoundTrip(day);
    KeyRoundTrip(CivilOf(day));
  }

  lemma DayOfKeyInRange(key: string)
    requires IsPlainDate(key)
    ensures InKeyRange(DayOfKey(key)) && KeyOfDay(DayOfKey(key)) == key
  {
    hide CivilOf, DayFromYear, HasShape;
    PlainDateIffRealDay(key);
    KeyOfItsDay(key);
    KeyRange(DayOfKey(key));
  }

  /** Adding days moves a key by that many days, exactly while the day stays in the key range. */
  lemma AddDaysMovesByDays(key: string, days: int)
    requires IsPlainDate(key)
    ensures var moved := AddDaysToKey(key, days);
      && moved.Ok?
      && (IsPlainDate(moved.value) <==> InKeyRange(DayOfKey(key) + days))
      && (IsPlainDate(moved.value) ==> DaysBetweenKeys(key, moved.value) == Ok(days))
  {
    hide CivilOf, DayFromYear, HasShape, DateUtc, IsPlainDate, KeyOfDay;
    KeyOfDayRoundTrip(DayOfKey(key) + days);
  }

  /** Adding days is additive, and undone by the days between. */
  lemma AddDaysIsAdditive(key: string, m: int, n: int)
    requires IsPlainDate(key) && InKeyRange(DayOfKey(key) + m)
    ensures AddDaysToKey(AddDaysToKey(key, m).value, n) == AddDaysToKey(key, m + n)
  {
    hide CivilOf, DayFromYear, HasShape, DateUtc, Less;
    KeyOfDayRoundTrip(DayOfKey(key) + m);
  }

  lemma DaysBetweenIsInverse(from: string, to: string)
    requires IsPlainDate(from) && IsPlainDate(to)
    ensures AddDaysToKey(from, DaysBetweenKeys(from, to).value) == Ok(to)
    ensures DaysBetweenKeys(to, from).value == -DaysBetweenKeys(from, to).value
    ensures Less(from, to) <==> 0 < DaysBetweenKeys(from, to).value
  {
    hide CivilOf, DayFromYear, HasShape, DateUtc, Less;
    DayOfKeyInRange(to);
    KeyOrder(from, to);
  }

  // ---------------------------------------------------------------------
  // Months.

  /** The month `months` after a date's, its day cut to the month's last one. */
  function MonthsLater(c: Civil, months: int): Civil
    requires 1 <= c.month <= 12
  {
    var year := c.year + (c.month - 1 + months) / 12;
    var month := (c.month - 1 + months) % 12 + 1;
    Civil(year, month, Min(c.day, MonthLength(month, Leap(year))))
  }

  lemma LastDayOfMonth(year: int, month: int)
    requires 1 <= month <= 12
    ensures CivilOf(MakeDay(year, month, 0)) == Civil(year, month, MonthLength(month, Leap(year)))
  {
    hide CivilOf, DayFromYear, Leap;
    var last := Civil(year, month, MonthLength(month, Leap(year)));
    YearLength(year);
    YearDays(Leap(year));
    assert MakeDay(year, month, 0) == DayNumber(last);
    DayRoundTrip(last);
  }

  /** The first of the target month; out of range of `Date`, its year is no key year. */
  lemma TargetMonth(c: Civil, months: int)
    requires KeyYear(c.year) && 1 <= c.month <= 12
    ensures var target := MonthsLater(c, months).(day := 1);
      && CivilOf(DateUtc(c.year, c.month - 1 + months, 1)) == target
      && (KeyYear(target.year) ==> -MAX_DAY <= DateUtc(c.year, c.month - 1 + months, 1) <= MAX_DAY)
  {
    hide CivilOf, DayFromYear;
    var target := MonthsLater(c, months).(day := 1);
    assert DateUtc(c.year, c.month - 1 + months, 1) == DayNumber(target);
    DayRoundTrip(target);
    KeyRange(DayNumber(target));
  }

  /** `addMonthsToKey` clamps to the month's last day; its result is a key exactly in the key years. */
  lemma AddMonthsClamps(key: string, months: int)
    requires IsPlainDate(key)
    ensures var later := MonthsLater(Fields(key), months);
      && ValidCivil(later)
      && AddMonthsToKey(key, months).Ok?
      && (KeyYear(later.year) ==> AddMonthsToKey(key, months) == Ok(KeyOf(later)))
      && (IsPlainDate(AddMonthsToKey(key, months).value) <==> KeyYear(later.year))
  {
    hide CivilOf, DayFromYear, DaysBeforeMonth, HasShape, IsPlainDate, KeyOf, Number, Leap, DateUtc, MakeDay;
    var c := Fields(key);
    var later := MonthsLater(c, months);
    PlainDateIffRealDay(key);
    TargetMonth(c, months);
    if KeyYear(later.year) {
      LastDayOfMonth(later.year, later.month);
      assert DateUtc(later.year, later.month, 0) == MakeDay(later.year, later.month, 0) by {
        LateYear(later.year, later.month);
      }
      KeyRoundTrip(later);
    } else if -MAX_DAY <= DateUtc(c.year, c.month - 1 + months, 1) <= MAX_DAY {
      var printed := later.(day := Min(c.day, CivilOf(DateUtc(later.year, later.month, 0)).day));
      CivilRoundTrip(DateUtc(later.year, later.month, 0));
      NotAKeyYear(printed);
    } else {
      NotADate();
    }
  }

  lemma LateYear(year: int, month: int)
    requires KeyYear(year)
    ensures DateUtc(year, month, 0) == MakeDay(year, month, 0)
  {}

  lemma NotADate()
    ensures !IsPlainDate("0NaN-NaN-NaN")
  {}

  /** A printed date of another year is no key. */
  lemma NotAKeyYear(c: Civil)
    requires 1 <= c.month <= 12 && 1 <= c.day <= 31 && !KeyYear(c.year)
    ensures !IsPlainDate(KeyOf(c))
  {
    hide CivilOf, DayFromYear, HasShape, IsPlainDate, KeyOf, Number;
    ShapeOfKey(c);
    PlainDateIffRealDay(KeyOf(c));
  }

  /** Adding months keeps the order of keys. */
  lemma AddMonthsIsMonotone(a: string, b: string, months: int)
    requires IsPlainDate(a) && IsPlainDate(b) && !Less(b, a)
    requires KeyYear(MonthsLater(Fields(a), months).year) && KeyYear(MonthsLater(Fields(b), months).year)
    ensures match (AddMonthsToKey(a, months), AddMonthsToKey(b, months))
      case (Ok(earlier), Ok(later)) => !Less(later, earlier)
      case _ => false
  {
    hide CivilOf, DayFromYear, DayNumber, HasShape, IsPlainDate, DateUtc, AddMonthsToKey, Less;
    var c, d := Fields(a), Fields(b);
    PlainDateIffRealDay(a);
    PlainDateIffRealDay(b);
    KeyOrder(b, a);
    DayOrder(d, c);
    AddMonthsClamps(a, months);
    AddMonthsClamps(b, months);
    var e, f := MonthsLater(c, months), MonthsLater(d, months);
    KeyRoundTrip(e);
    KeyRoundTrip(f);
    assert !Before(f, e);
    DayOrder(f, e);
    KeyOrder(KeyOf(f), KeyOf(e));
  }

  lemma BackAgain(c: Civil, months: int)
    requires ValidCivil(c)
    ensures var later := MonthsLater(c, months);
      && 1 <= later.month <= 12
      && MonthsLater(later, -months) == c.(day := Min(c.day, MonthLength(later.month, Leap(later.year))))
  {
    hide Leap;
  }

  /** Going `months` on and back ends on the same key iff the day was not cut. */
  lemma MonthsUndo(key: string, months: int)
    requires IsPlainDate(key) && KeyYear(MonthsLater(Fields(key), months).year)
    ensures match AddMonthsToKey(key, months)
      case Err(_) => false
      case Ok(moved) =>
        var later := MonthsLater(Fields(key), months);
        AddMonthsToKey(moved, -months) == Ok(key) <==> Fields(key).day <= MonthLength(later.month, Leap(later.year))
  {
    hide CivilOf, DayFromYear, DayNumber, HasShape, IsPlainDate, DateUtc, AddMonthsToKey, MonthsLater, Leap, KeyOf,
      Number, MonthLength;
    var c := Fields(key);
    var later := MonthsLater(c, months);
    PlainDateIffRealDay(key);
    KeyOfItsDay(key);
    AddMonthsClamps(key, months);
    KeyRoundTrip(later);
    AddMonthsClamps(KeyOf(later), -months);
    BackAgain(c, months);
    KeyRoundTrip(MonthsLater(later, -months));
  }
}

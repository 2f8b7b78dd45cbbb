/** The slice of `System.DateTime` that the timestamp parser produces: a
    proleptic Gregorian date and a time of day to the second, with a kind,
    ordered by its tick count. */
module DateTimes {

  datatype DateTimeKind = Unspecified | Utc | Local

  datatype DateTime = DateTime(
    year: int, month: int, day: int,
    hour: int, minute: int, second: int,
    kind: DateTimeKind)

  /** `DateTime.MinValue`: midnight at the start of 1 January of year 1. */
  const MinValue: DateTime := DateTime(1, 1, 1, 0, 0, 0, Unspecified)

  const TicksPerSecond: int := 10_000_000
  const SecondsPerDay: int := 86_400

  predicate IsLeapYear(year: int) {
    year % 4 == 0 && (year % 100 != 0 || year % 400 == 0)
  }

  function DaysInMonth(year: int, month: int): (n: int)
    requires 1 <= month <= 12
    ensures 28 <= n <= 31
    ensures month == 2 ==> (n == 29 <==> IsLeapYear(year))
  {
    if month == 2 then (if IsLeapYear(year) then 29 else 28)
    else if month == 4 || month == 6 || month == 9 || month == 11 then 30
    else 31
  }

  /** The components name a date and time that `DateTime` can represent. */
  predicate Valid(dt: DateTime) {
    && 1 <= dt.year <= 9999
    && 1 <= dt.month <= 12
    && 1 <= dt.day <= DaysInMonth(dt.year, dt.month)
    && 0 <= dt.hour < 24
    && 0 <= dt.minute < 60
    && 0 <= dt.second < 60
  }

  /** Days from 1 January of year 1 to 1 January of `year`. */
  function DaysBeforeYear(year: int): int
    requires year >= 1
  {
    var y := year - 1;
    y * 365 + y / 4 - y / 100 + y / 400
  }

  /** Days from 1 January of `year` to the first day of `month`. */
  function DaysBeforeMonth(year: int, month: int): int
    requires 1 <= month <= 12
  {
    if month == 1 then 0 else DaysBeforeMonth(year, month - 1) + DaysInMonth(year, month - 1)
  }

  /** `DateTime.Ticks`: 100-nanosecond intervals since `MinValue`. */
  function Ticks(dt: DateTime): int
    requires Valid(dt)
  {
    var days := DaysBeforeYear(dt.year) + DaysBeforeMonth(dt.year, dt.month) + dt.day - 1;
    (days * SecondsPerDay + dt.hour * 3600 + dt.minute * 60 + dt.second) * TicksPerSecond
  }

  /** `DateTime ==`: two values are the same instant when their ticks agree;
      the kind takes no part in the comparison. */
  predicate SameInstant(a: DateTime, b: DateTime)
    requires Valid(a) && Valid(b)
  {
    Ticks(a) == Ticks(b)
  }

  lemma {:induction false} DaysBeforeMonthNonNegative(year: int, month: int)
    requires 1 <= month <= 12
    ensures DaysBeforeMonth(year, month) >= 0
    ensures DaysBeforeMonth(year, month) == 0 <==> month == 1
  {
    if month > 1 {
      DaysBeforeMonthNonNegative(year, month - 1);
    }
  }

  lemma DaysBeforeYearNonNegative(year: int)
    requires year >= 1
    ensures DaysBeforeYear(year) >= 0
    ensures DaysBeforeYear(year) == 0 <==> year == 1
  {
    var y := year - 1;
    var c := y / 100;
    assert c * 100 <= y;
    assert c * 25 <= y / 4;
  }

  /** Every representable value lies at or after `MinValue`, and the only one
      at the same instant as `MinValue` is midnight of 1 January of year 1. */
  lemma TicksAtLeastMinValue(dt: DateTime)
    requires Valid(dt)
    ensures Ticks(MinValue) == 0 && Ticks(dt) >= 0
    ensures Ticks(dt) == 0 <==> dt.year == 1 && dt.month == 1 && dt.day == 1 && dt.hour == 0 && dt.minute == 0 && dt.second == 0
  {
    DaysBeforeYearNonNegative(dt.year);
    DaysBeforeMonthNonNegative(dt.year, dt.month);
  }

  function DaysInYear(year: int): int {
    if IsLeapYear(year) then 366 else 365
  }

  /** `dt` comes strictly before `other` in calendar order: compared year
      first, then month, day, hour, minute and second. */
  predicate Before(dt: DateTime, other: DateTime) {
    || dt.year < other.year
    || (dt.year == other.year && dt.month < other.month)
    || (dt.year == other.year && dt.month == other.month && dt.day < other.day)
    || (dt.year == other.year && dt.month == other.month && dt.day == other.day && dt.hour < other.hour)
    || (dt.year == other.year && dt.month == other.month && dt.day == other.day && dt.hour == other.hour
        && dt.minute < other.minute)
    || (dt.year == other.year && dt.month == other.month && dt.day == other.day && dt.hour == other.hour
        && dt.minute == other.minute && dt.second < other.second)
  }

  lemma DivStep4(q: int)
    ensures q / 4 - (q - 1) / 4 == if q % 4 == 0 then 1 else 0
  {
  }

  lemma DivStep100(q: int)
    ensures q / 100 - (q - 1) / 100 == if q % 100 == 0 then 1 else 0
  {
  }

  lemma DivStep400(q: int)
    ensures q / 400 - (q - 1) / 400 == if q % 400 == 0 then 1 else 0
  {
  }

  lemma MultipleOf100IsMultipleOf4(q: int)
    requires q % 100 == 0
    ensures q % 4 == 0
  {
    var k := q / 100;
    assert q == 4 * (25 * k);
  }

  lemma MultipleOf400IsMultipleOf100(q: int)
    requires q % 400 == 0
    ensures q % 100 == 0
  {
    var k := q / 400;
    assert q == 100 * (4 * k);
  }

  /** Going from `year - 1` to `year` full years adds one leap day exactly
      when `year` is a leap year. */
  lemma LeapDayStep(year: int)
    ensures (year / 4 - (year - 1) / 4) - (year / 100 - (year - 1) / 100) + (year / 400 - (year - 1) / 400)
         == if IsLeapYear(year) then 1 else 0
  {
    DivStep4(year);
    DivStep100(year);
    DivStep400(year);
    if year % 100 == 0 {
      MultipleOf100IsMultipleOf4(year);
    }
    if year % 400 == 0 {
      MultipleOf400IsMultipleOf100(year);
    }
  }

  lemma DaysBeforeNextYear(year: int)
    requires year >= 1
    ensures DaysBeforeYear(year + 1) == DaysBeforeYear(year) + DaysInYear(year)
  {
    LeapDayStep(year);
    assert DaysBeforeYear(year + 1) == year * 365 + year / 4 - year / 100 + year / 400;
    assert DaysBeforeYear(year) == (year - 1) * 365 + (year - 1) / 4 - (year - 1) / 100 + (year - 1) / 400;
  }

  lemma {:induction false} DaysBeforeLaterYear(year: int, later: int)
    requires 1 <= year < later
    ensures DaysBeforeYear(year) + DaysInYear(year) <= DaysBeforeYear(later)
  {
    DaysBeforeNextYear(later - 1);
    if year < later - 1 {
      DaysBeforeLaterYear(year, later - 1);
    }
  }

  lemma {:induction false} DaysBeforeLaterMonth(year: int, month: int, later: int)
    requires 1 <= month < later <= 12
    ensures DaysBeforeMonth(year, month) + DaysInMonth(year, month) <= DaysBeforeMonth(year, later)
  {
    if month < later - 1 {
      DaysBeforeLaterMonth(year, month, later - 1);
    }
  }

  /** The months of a year add up to its length. */
  lemma MonthsFillYear(year: int)
    ensures DaysBeforeMonth(year, 12) + DaysInMonth(year, 12) == DaysInYear(year)
  {
    var leap := if IsLeapYear(year) then 1 else 0;
    assert DaysBeforeMonth(year, 2) == 31;
    assert DaysBeforeMonth(year, 3) == 59 + leap;
    assert DaysBeforeMonth(year, 4) == 90 + leap;
    assert DaysBeforeMonth(year, 5) == 120 + leap;
    assert DaysBeforeMonth(year, 6) == 151 + leap;
    assert DaysBeforeMonth(year, 7) == 181 + leap;
    assert DaysBeforeMonth(year, 8) == 212 + leap;
    assert DaysBeforeMonth(year, 9) == 243 + leap;
    assert DaysBeforeMonth(year, 10) == 273 + leap;
    assert DaysBeforeMonth(year, 11) == 304 + leap;
    assert DaysBeforeMonth(year, 12) == 334 + leap;
  }

  /** Days from the start of the year to `dt`'s day lie within the year. */
  lemma DayOfYearInRange(dt: DateTime)
    requires Valid(dt)
    ensures 0 <= DaysBeforeMonth(dt.year, dt.month) + dt.day - 1 < DaysInYear(dt.year)
  {
    DaysBeforeMonthNonNegative(dt.year, dt.month);
    MonthsFillYear(dt.year);
    if dt.month < 12 {
      DaysBeforeLaterMonth(dt.year, dt.month, 12);
    }
  }

  /** Ticks follow calendar order: an earlier date and time has fewer ticks. */
  lemma TicksChronological(dt: DateTime, other: DateTime)
    requires Valid(dt) && Valid(other) && Before(dt, other)
    ensures Ticks(dt) < Ticks(other)
  {
    var d1 := DaysBeforeYear(dt.year) + DaysBeforeMonth(dt.year, dt.month) + dt.day - 1;
    var d2 := DaysBeforeYear(other.year) + DaysBeforeMonth(other.year, other.month) + other.day - 1;
    DayOfYearInRange(dt);
    DayOfYearInRange(other);
    if dt.year < other.year {
      DaysBeforeLaterYear(dt.year, other.year);
      assert d1 < d2;
    } else if dt.month < other.month {
      DaysBeforeLaterMonth(dt.year, dt.month, other.month);
      assert d1 < d2;
    }
    var t1 := dt.hour * 3600 + dt.minute * 60 + dt.second;
    var t2 := other.hour * 3600 + other.minute * 60 + other.second;
    assert 0 <= t1 < SecondsPerDay && 0 <= t2 < SecondsPerDay;
    assert d1 < d2 || (d1 == d2 && t1 < t2);
    assert d1 * SecondsPerDay + t1 < d2 * SecondsPerDay + t2;
  }

  /** Two representable values are the same instant exactly when their
      calendar fields agree: the tick count loses nothing but the kind. */
  lemma SameInstantIffSameFields(dt: DateTime, other: DateTime)
    requires Valid(dt) && Valid(other)
    ensures SameInstant(dt, other) <==> dt.(kind := Utc) == other.(kind := Utc)
  {
    if Before(dt, other) {
      TicksChronological(dt, other);
    } else if Before(other, dt) {
      TicksChronological(other, dt);
    }
  }
}

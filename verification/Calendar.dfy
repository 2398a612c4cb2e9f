/** The dates and instants behind `last_completed_audit_period` of `nova/utils.py`, counted as `datetime` counts
    them. */
module Calendar {
  import opened AuditPeriod

  // The Gregorian rule, and the days of the months in a year that is not a leap year.
  const LENGTHS := [31, 28, 31, 30, 31, 30, 31, 31, 30, 31, 30, 31]
  const DAYS_BEFORE := [0, 31, 59, 90, 120, 151, 181, 212, 243, 273, 304, 334]

  predicate LeapYear(year: int) {
    year % 400 == 0 || (year % 4 == 0 && year % 100 != 0)
  }

  /** What makes a `datetime`. */
  lemma ValidIff(d: DateTime)
    ensures Valid(d) <==>
      && 1 <= d.year <= 9999 && 1 <= d.month <= 12
      && 1 <= d.day <= LENGTHS[d.month - 1] + (if d.month == 2 && LeapYear(d.year) then 1 else 0)
      && 0 <= d.hour <= 23 && 0 <= d.minute <= 59 && 0 <= d.second <= 59 && 0 <= d.micro <= 999999
  {
    LeapCounts(d.year);
  }

  lemma MonthStarts(year: int, month: int)
    requires 1 <= month <= 12
    ensures DaysBeforeMonth(year, month) == DAYS_BEFORE[month - 1] + (if month > 2 && LeapYear(year) then 1 else 0)
  {
    LeapCounts(year);
    var m := 1;
    while m < month
      invariant 1 <= m <= month
      invariant DaysBeforeMonth(year, m) == DAYS_BEFORE[m - 1] + (if m > 2 && LeapYear(year) then 1 else 0)
    {
      assert DaysBeforeMonth(year, m + 1) == DaysBeforeMonth(year, m) + DaysIn(year, m);
      assert DaysIn(year, m) == LENGTHS[m - 1] + (if m == 2 && LeapYear(year) then 1 else 0);
      assert DAYS_BEFORE[m] == DAYS_BEFORE[m - 1] + LENGTHS[m - 1];
      m := m + 1;
    }
  }

  /** The number of a day. */
  lemma OrdinalIs(d: DateTime)
    requires Valid(d)
    ensures Ordinal(d) ==
      365 * (d.year - 1) + (d.year - 1) / 4 - (d.year - 1) / 100 + (d.year - 1) / 400
      + DAYS_BEFORE[d.month - 1] + (if d.month > 2 && LeapYear(d.year) then 1 else 0) + d.day
  {
    hide DaysBeforeMonth, DAYS_BEFORE, LeapYear;
    MonthStarts(d.year, d.month);
  }

  // The microseconds of a day that are over.
  function TimeOfDay(d: DateTime): int {
    ((d.hour * 60 + d.minute) * 60 + d.second) * 1000000 + d.micro
  }

  const MICROS_A_DAY := 86400000000

  // The microseconds since the beginning of year 1, and a day.
  function Instant(d: DateTime): int
    requires Valid(d)
  {
    Ordinal(d) * MICROS_A_DAY + TimeOfDay(d)
  }

  lemma {:induction false} YearsGrow(a: int, b: int)
    requires 1 <= a < b
    ensures DaysBeforeYear(a) + (if Leap(a) then 366 else 365) <= DaysBeforeYear(b)
    decreases b - a
  {
    hide DaysBeforeYear;
    YearLength(a);
    if a + 1 < b {
      YearsGrow(a + 1, b);
    }
  }

  lemma {:induction false} MonthsGrow(year: int, a: int, b: int)
    requires 1 <= a < b
    ensures DaysBeforeMonth(year, a) + DaysIn(year, a) <= DaysBeforeMonth(year, b)
    decreases b - a
  {
    if a + 1 < b {
      MonthsGrow(year, a, b - 1);
    }
  }

  // A day of a year is within it.
  lemma DayWithinYear(year: int, month: int, day: int)
    requires 1 <= month <= 12 && 1 <= day <= DaysIn(year, month)
    ensures 1 <= DaysBeforeMonth(year, month) + day <= if Leap(year) then 366 else 365
  {
    hide DaysBeforeMonth;
    WholeYear(year);
    BeforeMonthPositive(year, month);
    if month < 12 {
      MonthsGrow(year, month, 12);
    }
  }

  lemma EarlierDay(a: DateTime, b: DateTime)
    requires Valid(a) && Valid(b)
    requires a.year < b.year || (a.year == b.year && (a.month < b.month || (a.month == b.month && a.day < b.day)))
    ensures Ordinal(a) < Ordinal(b)
  {
    hide DaysBeforeYear, DaysBeforeMonth;
    if a.year < b.year {
      YearsGrow(a.year, b.year);
      DayWithinYear(a.year, a.month, a.day);
      DayWithinYear(b.year, b.month, b.day);
    } else if a.month < b.month {
      MonthsGrow(a.year, a.month, b.month);
    }
  }

  lemma TimeWithinDay(d: DateTime)
    requires Valid(d)
    ensures 0 <= TimeOfDay(d) < MICROS_A_DAY
  {
  }

  lemma EarlierTime(a: DateTime, b: DateTime)
    requires Valid(a) && Valid(b) && a.year == b.year && a.month == b.month && a.day == b.day && Before(a, b)
    ensures TimeOfDay(a) < TimeOfDay(b) && Ordinal(a) == Ordinal(b)
  {
  }

  lemma BeforeEarlier(a: DateTime, b: DateTime)
    requires Valid(a) && Valid(b) && Before(a, b)
    ensures Instant(a) < Instant(b)
  {
    hide Ordinal, TimeOfDay;
    TimeWithinDay(a);
    TimeWithinDay(b);
    if a.year == b.year && a.month == b.month && a.day == b.day {
      EarlierTime(a, b);
    } else {
      EarlierDay(a, b);
      assert Ordinal(a) + 1 <= Ordinal(b);
    }
  }

  /** The order of instants is that of their number. */
  lemma BeforeIff(a: DateTime, b: DateTime)
    requires Valid(a) && Valid(b)
    ensures Before(a, b) <==> Instant(a) < Instant(b)
  {
    hide Instant;
    if Before(a, b) {
      BeforeEarlier(a, b);
    } else if Before(b, a) {
      BeforeEarlier(b, a);
    } else {
      assert a == b;
    }
  }

  /** Hourly and daily periods are an hour and a day long. */
  lemma PeriodLength(offset: int, now: DateTime, begin: DateTime, end: DateTime)
    ensures IsPeriod("hour", offset, now, begin, end) ==> Instant(end) - Instant(begin) == 3600000000
    ensures IsPeriod("day", offset, now, begin, end) ==> Instant(end) - Instant(begin) == 86400000000
  {
    hide Before, IsPeriod, Ordinal, Valid;
    if IsPeriod("hour", offset, now, begin, end) {
      HourLength(offset, now, begin, end);
    }
    if IsPeriod("day", offset, now, begin, end) {
      DayLength(offset, now, begin, end);
    }
  }

  lemma DayLength(offset: int, now: DateTime, begin: DateTime, end: DateTime)
    requires IsPeriod("day", offset, now, begin, end)
    ensures Valid(begin) && Valid(end) && Instant(end) - Instant(begin) == 86400000000
  {
    hide Before, Ordinal, MinusDay, Valid;
    assert IsBoundary("day", offset, end) && IsBoundary("day", offset, begin) && Latest("day", offset, end, begin);
    DayBelow(offset, end);
    MinusDayOrdinal(end);
    if MinusDay(end).Some? {
      LatestOnce("day", offset, end, begin, MinusDay(end).value);
    }
  }

  lemma HourLength(offset: int, now: DateTime, begin: DateTime, end: DateTime)
    requires IsPeriod("hour", offset, now, begin, end)
    ensures Valid(begin) && Valid(end) && Instant(end) - Instant(begin) == 3600000000
  {
    hide Before, MinusDay;
    assert IsBoundary("hour", offset, end) && IsBoundary("hour", offset, begin) && Latest("hour", offset, end, begin);
    HourBelow(offset, end);
    if MinusHour(end).Some? {
      LatestOnce("hour", offset, end, begin, MinusHour(end).value);
      HourEarlier(end);
    }
  }

  lemma HourEarlier(d: DateTime)
    requires Valid(d) && MinusHour(d).Some?
    ensures Instant(d) - Instant(MinusHour(d).value) == 3600000000
  {
    hide MinusDay;
    if d.hour > 0 {
      assert Ordinal(MinusHour(d).value) == Ordinal(d);
    } else {
      MinusDayOrdinal(d);
      var e := MinusDay(d).value;
      assert Ordinal(e.(hour := 23)) == Ordinal(e);
    }
  }

  /** Periods begin at a minute of every hour, an hour of every day, a day of every month or the first of a month of
      every year, where nothing, or 0, stands for the first day or month. */
  lemma BoundaryIff(offset: int, d: DateTime)
    requires Valid(d)
    ensures IsBoundary("hour", offset, d) <==> d == DateTime(d.year, d.month, d.day, d.hour, offset, 0, 0)
    ensures IsBoundary("day", offset, d) <==> d == DateTime(d.year, d.month, d.day, offset, 0, 0, 0)
    ensures offset != 0 ==> (IsBoundary("month", offset, d) <==> d == DateTime(d.year, d.month, offset, 0, 0, 0, 0))
    ensures offset != 0 ==> (IsBoundary("year", offset, d) <==> d == DateTime(d.year, offset, 1, 0, 0, 0, 0))
    ensures IsBoundary("month", 0, d) <==> d == DateTime(d.year, d.month, 1, 0, 0, 0, 0)
    ensures IsBoundary("year", 0, d) <==> d == DateTime(d.year, 1, 1, 0, 0, 0, 0)
  {
  }

  /** A monthly period exists exactly when the month of the instant, the month before and, unless the day of the month
      is over, the one before that have the day. */
  lemma MonthsHaveDayIff(day: int, now: DateTime)
    requires Valid(now) && day != 0
    ensures MonthsHaveDay(day, now) <==>
      && HasDay(now.year, now.month, day) && HasDay(EarlierYear(now, 1), EarlierMonth(now, 1), day)
      && (!Before(DateTime(now.year, now.month, day, 0, 0, 0, 0), now) ==>
            HasDay(EarlierYear(now, 2), EarlierMonth(now, 2), day))
    ensures MonthsHaveDay(0, now) <==> MonthsHaveDay(1, now)
  {
    assert 1 <= now.month <= 12;
    hide IsDate, HasDay, MonthBefore, EarlierMonth, EarlierYear, Before;
    MonthsBefore(now);
    DateIff(now.year, now.month, day);
    DateIff(EarlierYear(now, 1), EarlierMonth(now, 1), day);
    DateIff(EarlierYear(now, 2), EarlierMonth(now, 2), day);
  }

  lemma DateIff(year: int, month: int, day: int)
    requires 1 <= month <= 12
    ensures IsDate(year, month, day) <==> HasDay(year, month, day)
  {
    LeapCounts(year);
  }

  lemma MonthsBefore(now: DateTime)
    requires 1 <= now.month <= 12
    ensures MonthBefore(now.year, now.month) == (EarlierYear(now, 1), EarlierMonth(now, 1))
    ensures MonthBefore(EarlierYear(now, 1), EarlierMonth(now, 1)) == (EarlierYear(now, 2), EarlierMonth(now, 2))
    ensures EarlierYear(now, 0) == now.year && EarlierMonth(now, 0) == now.month
  {
  }

  predicate HasDay(year: int, month: int, day: int)
    requires 1 <= month <= 12
  {
    1 <= year <= 9999 && 1 <= day <= LENGTHS[month - 1] + (if month == 2 && LeapYear(year) then 1 else 0)
  }

  // The month a number of months before that of an instant, and its year.
  function EarlierMonth(now: DateTime, n: int): (m: int)
    requires 1 <= now.month <= 12
    ensures 1 <= m <= 12
  {
    (now.month - 1 - n) % 12 + 1
  }

  function EarlierYear(now: DateTime, n: int): int {
    (now.year * 12 + now.month - 1 - n) / 12
  }
}

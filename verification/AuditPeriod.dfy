/** `last_completed_audit_period` of `nova/utils.py`, with the calendar of `datetime`. */
module AuditPeriod {
  import opened Wrappers

  datatype DateTime = DateTime(year: int, month: int, day: int, hour: int, minute: int, second: int, micro: int)

  datatype PeriodError = UnknownUnit | BadDate | OutOfRange

  /* ---------- the calendar ---------- */

  predicate Leap(year: int) {
    year % 4 == 0 && (year % 100 != 0 || year % 400 == 0)
  }

  function DaysIn(year: int, month: int): (n: int)
    ensures 28 <= n <= 31
  {
    if month == 2 then (if Leap(year) then 29 else 28)
    else if month == 4 || month == 6 || month == 9 || month == 11 then 30
    else 31
  }

  predicate IsDate(year: int, month: int, day: int) {
    1 <= year <= 9999 && 1 <= month <= 12 && 1 <= day <= DaysIn(year, month)
  }

  predicate Valid(d: DateTime) {
    && IsDate(d.year, d.month, d.day)
    && 0 <= d.hour < 24 && 0 <= d.minute < 60 && 0 <= d.second < 60 && 0 <= d.micro < 1000000
  }

  predicate Before(a: DateTime, b: DateTime) {
    if a.year != b.year then a.year < b.year
    else if a.month != b.month then a.month < b.month
    else if a.day != b.day then a.day < b.day
    else if a.hour != b.hour then a.hour < b.hour
    else if a.minute != b.minute then a.minute < b.minute
    else if a.second != b.second then a.second < b.second
    else a.micro < b.micro
  }

  // `datetime.datetime(year=…, month=…, day=…, hour=…)`; None for ValueError.
  function Make(year: int, month: int, day: int, hour: int): Option<DateTime> {
    var d := DateTime(year, month, day, hour, 0, 0, 0);
    if Valid(d) then Some(d) else None
  }

  // Minus `timedelta(days=1)`; None for OverflowError.
  function MinusDay(d: DateTime): (r: Option<DateTime>)
    requires Valid(d)
    ensures r.Some? ==> Valid(r.value)
  {
    if d.day > 1 then Some(d.(day := d.day - 1))
    else if d.month > 1 then Some(d.(month := d.month - 1, day := DaysIn(d.year, d.month - 1)))
    else if d.year > 1 then Some(d.(year := d.year - 1, month := 12, day := 31))
    else None
  }

  // Minus `timedelta(hours=1)`.
  function MinusHour(d: DateTime): (r: Option<DateTime>)
    requires Valid(d)
    ensures r.Some? ==> Valid(r.value)
  {
    if d.hour > 0 then Some(d.(hour := d.hour - 1))
    else match MinusDay(d)
         case Some(e) => Some(e.(hour := 23))
         case None => None
  }

  /* ---------- the calendar counted in days ---------- */

  function DaysBeforeYear(year: int): int {
    (year - 1) * 365 + (year - 1) / 4 - (year - 1) / 100 + (year - 1) / 400
  }

  function DaysBeforeMonth(year: int, month: int): int
    requires month >= 1
    decreases month
  {
    if month == 1 then 0 else DaysBeforeMonth(year, month - 1) + DaysIn(year, month - 1)
  }

  // `toordinal`: 1 for the first of January of year 1.
  function Ordinal(d: DateTime): int
    requires Valid(d)
  {
    DaysBeforeYear(d.year) + DaysBeforeMonth(d.year, d.month) + d.day
  }

  lemma Quarter(k: int)
    ensures (k + 1) / 4 == k / 4 + if (k + 1) % 4 == 0 then 1 else 0
  {
  }

  lemma Century(k: int)
    ensures (k + 1) / 100 == k / 100 + if (k + 1) % 100 == 0 then 1 else 0
  {
  }

  lemma FourCenturies(k: int)
    ensures (k + 1) / 400 == k / 400 + if (k + 1) % 400 == 0 then 1 else 0
  {
  }

  lemma Multiple4(k: int)
    ensures (4 * k) % 4 == 0
  {
  }

  lemma Multiple100(k: int)
    ensures (100 * k) % 100 == 0
  {
  }

  lemma LeapCounts(year: int)
    ensures year % 100 == 0 ==> year % 4 == 0
    ensures year % 400 == 0 ==> year % 100 == 0
  {
    Multiple4(25 * (year / 100));
    Multiple100(4 * (year / 400));
    assert year % 100 == 0 ==> year == 4 * (25 * (year / 100));
    assert year % 400 == 0 ==> year == 100 * (4 * (year / 400));
  }

  lemma YearLength(year: int)
    requires year >= 1
    ensures DaysBeforeYear(year + 1) - DaysBeforeYear(year) == if Leap(year) then 366 else 365
  {
    Quarter(year - 1);
    Century(year - 1);
    FourCenturies(year - 1);
    LeapCounts(year);
  }

  lemma WholeYear(year: int)
    ensures DaysBeforeMonth(year, 12) + 31 == if Leap(year) then 366 else 365
  {
    assert DaysBeforeMonth(year, 3) == 31 + DaysIn(year, 2);
    assert DaysBeforeMonth(year, 6) == DaysBeforeMonth(year, 3) + 92;
    assert DaysBeforeMonth(year, 9) == DaysBeforeMonth(year, 6) + 92;
    assert DaysBeforeMonth(year, 12) == DaysBeforeMonth(year, 9) + 91;
  }

  // A day less is one ordinal less, over month ends, leap days and year ends; the time of day stays.
  lemma MinusDayOrdinal(d: DateTime)
    requires Valid(d)
    ensures MinusDay(d).None? <==> Ordinal(d) == 1
    ensures MinusDay(d).Some? ==>
      && Ordinal(MinusDay(d).value) == Ordinal(d) - 1
      && MinusDay(d).value.(year := d.year, month := d.month, day := d.day) == d
  {
    OrdinalPositive(d);
    if d.day == 1 && d.month == 1 && d.year > 1 {
      YearLength(d.year - 1);
      WholeYear(d.year - 1);
    }
  }

  lemma {:induction false} BeforeMonthPositive(year: int, month: int)
    requires month >= 1
    ensures DaysBeforeMonth(year, month) >= 28 * (month - 1)
    decreases month
  {
    if month > 1 {
      BeforeMonthPositive(year, month - 1);
    }
  }

  lemma OrdinalPositive(d: DateTime)
    requires Valid(d)
    ensures Ordinal(d) >= 1
    ensures Ordinal(d) == 1 <==> d.year == 1 && d.month == 1 && d.day == 1
  {
    BeforeMonthPositive(d.year, d.month);
    assert (d.year - 1) * 365 >= 365 || d.year == 1;
    assert DaysBeforeYear(d.year) >= 0;
  }

  /* ---------- period boundaries ---------- */

  function OrFirst(offset: int): int {
    if offset == 0 then 1 else offset
  }

  // The instants at which a period of the unit begins: month@15 on the 15th, year@3 in March, day@18 at 18:00.
  predicate IsBoundary(unit: string, offset: int, d: DateTime) {
    && Valid(d) && d.second == 0 && d.micro == 0
    && (unit == "hour" || unit == "day" || unit == "month" || unit == "year")
    && d.minute == (if unit == "hour" then offset else 0)
    && (unit != "hour" ==> d.hour == if unit == "day" then offset else 0)
    && (unit == "month" ==> d.day == OrFirst(offset))
    && (unit == "year" ==> d.day == 1 && d.month == OrFirst(offset))
  }

  // The greatest boundary strictly before an instant.
  ghost predicate Latest(unit: string, offset: int, now: DateTime, e: DateTime) {
    && IsBoundary(unit, offset, e) && Before(e, now)
    && forall x :: IsBoundary(unit, offset, x) && Before(x, now) ==> !Before(e, x)
  }

  // From one boundary to the next, and over before the instant.
  ghost predicate IsPeriod(unit: string, offset: int, now: DateTime, begin: DateTime, end: DateTime) {
    Latest(unit, offset, now, end) && Latest(unit, offset, end, begin)
  }

  lemma LatestOnce(unit: string, offset: int, now: DateTime, a: DateTime, b: DateTime)
    requires Latest(unit, offset, now, a) && Latest(unit, offset, now, b)
    ensures a == b
  {
  }

  // Asking again at the end of a period gives the period before it: the periods tile time.
  lemma PeriodsTile(unit: string, offset: int, now: DateTime, begin: DateTime, end: DateTime,
                    begin': DateTime, end': DateTime)
    requires IsPeriod(unit, offset, now, begin, end) && IsPeriod(unit, offset, end, begin', end')
    ensures end' == begin && Before(begin', begin)
  {
    LatestOnce(unit, offset, end, begin, end');
  }

  predicate Within(t: DateTime, p: (DateTime, DateTime)) {
    !Before(t, p.0) && Before(t, p.1)
  }

  // The periods of a run of calls, each made at the end of the period before.
  ghost predicate Successive(unit: string, offset: int, now: DateTime, ps: seq<(DateTime, DateTime)>) {
    forall i :: 0 <= i < |ps| ==> Succeeds(unit, offset, now, ps, i)
  }

  ghost predicate Succeeds(unit: string, offset: int, now: DateTime, ps: seq<(DateTime, DateTime)>, i: nat)
    requires i < |ps|
  {
    IsPeriod(unit, offset, if i == 0 then now else ps[i - 1].1, ps[i].0, ps[i].1)
  }

  lemma FewerSuccessive(unit: string, offset: int, now: DateTime, ps: seq<(DateTime, DateTime)>, n: nat)
    requires Successive(unit, offset, now, ps) && n <= |ps|
    ensures Successive(unit, offset, now, ps[..n])
  {
    forall i | 0 <= i < n ensures Succeeds(unit, offset, now, ps[..n], i) {
      assert Succeeds(unit, offset, now, ps, i);
    }
  }

  // Every instant from the beginning of the last to the end of the first lies in exactly one of them.
  lemma {:induction false} PeriodsCover(unit: string, offset: int, now: DateTime, ps: seq<(DateTime, DateTime)>,
                                        t: DateTime)
    requires Successive(unit, offset, now, ps) && ps != []
    requires !Before(t, ps[|ps| - 1].0) && Before(t, ps[0].1)
    ensures exists i :: 0 <= i < |ps| && Within(t, ps[i]) && forall j :: 0 <= j < |ps| && Within(t, ps[j]) ==> j == i
    decreases |ps|
  {
    hide Before, IsPeriod;
    var n := |ps| - 1;
    forall i | 0 <= i < n ensures ps[i + 1].1 == ps[i].0 {
      assert Succeeds(unit, offset, now, ps, i) && Succeeds(unit, offset, now, ps, i + 1);
      PeriodsTile(unit, offset, if i == 0 then now else ps[i - 1].1, ps[i].0, ps[i].1, ps[i + 1].0, ps[i + 1].1);
    }
    EndsDescend(unit, offset, now, ps);
    if n == 0 {
      assert Within(t, ps[0]);
    } else if Before(t, ps[n].1) {
      assert Within(t, ps[n]);
      forall j | 0 <= j < n ensures !Within(t, ps[j]) {
        NotBefore(t, ps[n].1, ps[j].0);
      }
    } else {
      FewerSuccessive(unit, offset, now, ps, n);
      PeriodsCover(unit, offset, now, ps[..n], t);
      var i :| 0 <= i < n && Within(t, ps[..n][i]) && forall j :: 0 <= j < n && Within(t, ps[..n][j]) ==> j == i;
      assert Within(t, ps[i]);
      forall j | 0 <= j < |ps| && Within(t, ps[j]) ensures j == i {
        assert j < n ==> Within(t, ps[..n][j]);
      }
    }
  }

  // The last end is no later than the beginning of any earlier period.
  lemma {:induction false} EndsDescend(unit: string, offset: int, now: DateTime, ps: seq<(DateTime, DateTime)>)
    requires Successive(unit, offset, now, ps) && ps != []
    requires forall i :: 0 <= i < |ps| - 1 ==> ps[i + 1].1 == ps[i].0
    ensures forall j :: 0 <= j < |ps| - 1 ==> !Before(ps[j].0, ps[|ps| - 1].1)
    decreases |ps|
  {
    hide Before, Latest;
    var n := |ps| - 1;
    if n > 0 {
      FewerSuccessive(unit, offset, now, ps, n);
      EndsDescend(unit, offset, now, ps[..n]);
      assert ps[n].1 == ps[n - 1].0;
      NotItself(ps[n].1);
      forall j | 0 <= j < n - 1 ensures !Before(ps[j].0, ps[n].1) {
        assert !Before(ps[..n][j].0, ps[..n][n - 1].1);
        assert Succeeds(unit, offset, now, ps, n - 1);
        BeginFirst(unit, offset, if n == 1 then now else ps[n - 2].1, ps[n - 1].0, ps[n - 1].1);
        NotBefore(ps[n - 1].0, ps[n - 1].1, ps[j].0);
      }
    }
  }

  lemma BeginFirst(unit: string, offset: int, now: DateTime, begin: DateTime, end: DateTime)
    requires IsPeriod(unit, offset, now, begin, end)
    ensures Before(begin, end)
  {
  }

  lemma NotItself(a: DateTime)
    ensures !Before(a, a)
  {
  }

  lemma NotBefore(a: DateTime, b: DateTime, c: DateTime)
    requires Before(a, b) && !Before(c, b)
    ensures Before(a, c) && !Before(c, a)
  {
  }

  // The period does not change until the next boundary is passed.
  lemma SamePeriod(unit: string, offset: int, now: DateTime, later: DateTime, begin: DateTime, end: DateTime)
    requires IsPeriod(unit, offset, later, begin, end) && Before(end, now) && !Before(later, now)
    ensures IsPeriod(unit, offset, now, begin, end)
  {
    forall x | IsBoundary(unit, offset, x) && Before(x, now) ensures !Before(end, x) {
      Transitive(x, now, later);
    }
  }

  lemma Transitive(a: DateTime, b: DateTime, c: DateTime)
    requires Before(a, b) && !Before(c, b)
    ensures Before(a, c)
  {
  }

  /* ---------- neighbouring boundaries ---------- */

  ghost predicate NoneBelow(unit: string, offset: int, t: DateTime) {
    forall x :: IsBoundary(unit, offset, x) ==> !Before(x, t)
  }

  lemma DayBelow(offset: int, b: DateTime)
    requires IsBoundary("day", offset, b)
    ensures MinusDay(b).Some? ==> Latest("day", offset, b, MinusDay(b).value)
    ensures MinusDay(b).None? ==> NoneBelow("day", offset, b)
  {
  }

  lemma HourBelow(offset: int, b: DateTime)
    requires IsBoundary("hour", offset, b)
    ensures MinusHour(b).Some? ==> Latest("hour", offset, b, MinusHour(b).value)
    ensures MinusHour(b).None? ==> NoneBelow("hour", offset, b)
  {
  }

  function MonthBefore(year: int, month: int): (int, int) {
    if 1 >= month then (year - 1, 12 + (month - 1)) else (year, month - 1)
  }

  // The boundary a month below, if that month has the day.
  function MonthBelow(b: DateTime): Option<DateTime> {
    var (y, m) := MonthBefore(b.year, b.month);
    Make(y, m, b.day, 0)
  }

  lemma MonthBelowIs(offset: int, b: DateTime)
    requires IsBoundary("month", offset, b)
    ensures MonthBelow(b).Some? ==> Latest("month", offset, b, MonthBelow(b).value)
    ensures MonthBelow(b).None? && OrFirst(offset) <= 28 ==> NoneBelow("month", offset, b)
  {
  }

  lemma YearBelow(offset: int, b: DateTime)
    requires IsBoundary("year", offset, b)
    ensures b.year > 1 ==> Latest("year", offset, b, b.(year := b.year - 1))
    ensures b.year <= 1 ==> NoneBelow("year", offset, b)
  {
  }

  // The boundary in the hour, on the day, in the month or in the year of the instant.
  ghost predicate InUnit(unit: string, offset: int, now: DateTime, end: DateTime) {
    && IsBoundary(unit, offset, end)
    && (forall x :: IsBoundary(unit, offset, x) && Before(x, now) ==> !Before(end, x))
    && (forall a :: IsBoundary(unit, offset, a) && Before(a, end) ==> Before(a, now))
  }

  // If it is before the instant it is the latest, and if not the one below it is.
  lemma EndIsLatest(unit: string, offset: int, now: DateTime, end: DateTime)
    requires InUnit(unit, offset, now, end)
    ensures Before(end, now) ==> Latest(unit, offset, now, end)
    ensures forall a :: !Before(end, now) && Latest(unit, offset, end, a) ==> Latest(unit, offset, now, a)
    ensures !Before(end, now) && NoneBelow(unit, offset, end) ==> NoneBelow(unit, offset, now)
  {
  }

  ghost predicate HasPeriod(unit: string, offset: int, now: DateTime) {
    exists b, e :: IsPeriod(unit, offset, now, b, e)
  }

  lemma NoPeriod(unit: string, offset: int, now: DateTime)
    ensures NoneBelow(unit, offset, now) ==> !HasPeriod(unit, offset, now)
    ensures forall e :: Latest(unit, offset, now, e) && NoneBelow(unit, offset, e) ==> !HasPeriod(unit, offset, now)
  {
    forall e, b, e' | Latest(unit, offset, now, e) && IsPeriod(unit, offset, now, b, e') ensures e' == e {
      LatestOnce(unit, offset, now, e, e');
    }
  }

  /* ---------- the four units ---------- */

  method DayPeriod(offset: int, now: DateTime) returns (r: Result<(DateTime, DateTime), PeriodError>)
    requires Valid(now)
    ensures r.Ok? ==> IsPeriod("day", offset, now, r.value.0, r.value.1)
    ensures if 0 <= offset < 24 then r.Ok? <==> HasPeriod("day", offset, now) else r == Err(BadDate)
    ensures r.Err? ==> r.error != UnknownUnit
  {
    hide IsBoundary, Before, Latest, InUnit, NoneBelow, MinusDay;
    var made := Make(now.year, now.month, now.day, offset);
    if made.None? {
      return Err(BadDate);
    }
    var end := made.value;
    DayInUnit(offset, now, end);
    EndIsLatest("day", offset, now, end);
    NoPeriod("day", offset, now);
    if !Before(end, now) {
      DayBelow(offset, end);
      var earlier := MinusDay(end);
      if earlier.None? {
        return Err(OutOfRange);
      }
      end := earlier.value;
    }
    LatestIsBoundary("day", offset, now, end);
    DayBelow(offset, end);
    var begin := MinusDay(end);
    if begin.None? {
      return Err(OutOfRange);
    }
    return Ok((begin.value, end));
  }

  lemma LatestIsBoundary(unit: string, offset: int, now: DateTime, e: DateTime)
    requires Latest(unit, offset, now, e)
    ensures IsBoundary(unit, offset, e) && Valid(e)
  {
  }

  lemma DayInUnit(offset: int, now: DateTime, end: DateTime)
    requires Valid(now) && Make(now.year, now.month, now.day, offset) == Some(end)
    ensures InUnit("day", offset, now, end)
  {
  }

  method HourPeriod(offset: int, now: DateTime) returns (r: Result<(DateTime, DateTime), PeriodError>)
    requires Valid(now)
    ensures r.Ok? ==> IsPeriod("hour", offset, now, r.value.0, r.value.1)
    ensures if 0 <= offset < 60 then r.Ok? <==> HasPeriod("hour", offset, now) else r == Err(BadDate)
    ensures r.Err? ==> r.error != UnknownUnit
  {
    hide IsBoundary, Before, Latest, InUnit, NoneBelow, MinusHour, Valid;
    if !(0 <= offset < 60) {
      return Err(BadDate);
    }
    var end := now.(minute := offset, second := 0, micro := 0);
    HourInUnit(offset, now, end);
    EndIsLatest("hour", offset, now, end);
    NoPeriod("hour", offset, now);
    if !Before(end, now) {
      HourBelow(offset, end);
      var earlier := MinusHour(end);
      if earlier.None? {
        return Err(OutOfRange);
      }
      end := earlier.value;
    }
    LatestIsBoundary("hour", offset, now, end);
    HourBelow(offset, end);
    var begin := MinusHour(end);
    if begin.None? {
      return Err(OutOfRange);
    }
    return Ok((begin.value, end));
  }

  lemma HourInUnit(offset: int, now: DateTime, end: DateTime)
    requires Valid(now) && 0 <= offset < 60 && end == now.(minute := offset, second := 0, micro := 0)
    ensures InUnit("hour", offset, now, end) && Valid(end) && IsBoundary("hour", offset, end)
  {
  }

  // The months a period with this day reaches into have that day.
  predicate MonthsHaveDay(offset: int, now: DateTime) {
    var day := OrFirst(offset);
    var (y, m) := MonthBefore(now.year, now.month);
    var (y', m') := MonthBefore(y, m);
    && IsDate(now.year, now.month, day) && IsDate(y, m, day)
    && (!Before(DateTime(now.year, now.month, day, 0, 0, 0, 0), now) ==> IsDate(y', m', day))
  }

  method MonthPeriod(offset: int, now: DateTime) returns (r: Result<(DateTime, DateTime), PeriodError>)
    requires Valid(now)
    ensures r.Ok? ==> IsPeriod("month", offset, now, r.value.0, r.value.1)
    ensures r.Ok? <==> MonthsHaveDay(offset, now)
    ensures 0 <= offset <= 28 ==> (r.Ok? <==> HasPeriod("month", offset, now))
    ensures r.Err? ==> r.error == BadDate
  {
    hide IsBoundary, Before, Latest, InUnit, NoneBelow, IsDate;
    var day := if offset == 0 then 1 else offset;
    var made := Make(now.year, now.month, day, 0);
    if made.None? {
      DayInEveryMonth(now, day);
      return Err(BadDate);
    }
    var end := made.value;
    MonthInUnit(offset, now, end);
    EndIsLatest("month", offset, now, end);
    NoPeriod("month", offset, now);
    if !Before(end, now) {
      MonthBelowIs(offset, end);
      var year := now.year;
      var month := now.month - 1;
      if 1 >= now.month {
        year := year - 1;
        month := 12 + (now.month - 1);
      }
      made := Make(year, month, day, 0);
      if made.None? {
        return Err(BadDate);
      }
      end := made.value;
    }
    LatestIsBoundary("month", offset, now, end);
    MonthBelowIs(offset, end);
    var year := end.year;
    var month := end.month - 1;
    if 1 >= end.month {
      year := year - 1;
      month := 12 + (end.month - 1);
    }
    made := Make(year, month, day, 0);
    if made.None? {
      return Err(BadDate);
    }
    return Ok((made.value, end));
  }

  lemma DayInEveryMonth(now: DateTime, day: int)
    requires Valid(now) && Make(now.year, now.month, day, 0).None?
    ensures !(1 <= day <= 28) && !IsDate(now.year, now.month, day)
  {
  }

  lemma MonthInUnit(offset: int, now: DateTime, end: DateTime)
    requires Valid(now) && Make(now.year, now.month, OrFirst(offset), 0) == Some(end)
    ensures InUnit("month", offset, now, end) && IsBoundary("month", offset, end)
  {
  }

  method YearPeriod(offset: int, now: DateTime) returns (r: Result<(DateTime, DateTime), PeriodError>)
    requires Valid(now)
    ensures r.Ok? ==> IsPeriod("year", offset, now, r.value.0, r.value.1)
    ensures if 0 <= offset <= 12 then r.Ok? <==> HasPeriod("year", offset, now) else r == Err(BadDate)
    ensures r.Err? ==> r.error == BadDate
  {
    hide IsBoundary, Before, Latest, InUnit, NoneBelow;
    var month := if offset == 0 then 1 else offset;
    var made := Make(now.year, month, 1, 0);
    if made.None? {
      return Err(BadDate);
    }
    var end := made.value;
    YearInUnit(offset, now, end);
    EndIsLatest("year", offset, now, end);
    NoPeriod("year", offset, now);
    YearBelow(offset, end);
    var begin;
    if !Before(end, now) {
      made := Make(now.year - 1, month, 1, 0);
      begin := Make(now.year - 2, month, 1, 0);
      if made.None? {
        return Err(BadDate);
      }
      end := made.value;
      LatestIsBoundary("year", offset, now, end);
      YearBelow(offset, end);
    } else {
      begin := Make(now.year - 1, month, 1, 0);
    }
    if begin.None? {
      return Err(BadDate);
    }
    return Ok((begin.value, end));
  }

  lemma YearInUnit(offset: int, now: DateTime, end: DateTime)
    requires Valid(now) && Make(now.year, OrFirst(offset), 1, 0) == Some(end)
    ensures InUnit("year", offset, now, end) && IsBoundary("year", offset, end)
  {
  }

  /** The last completed period: its end is the greatest boundary strictly before the instant, its beginning the
      boundary just below. With a legal offset it fails only where year 1 leaves no such period. */
  method LastCompletedAuditPeriod(unit: string, offset: int, now: DateTime)
    returns (r: Result<(DateTime, DateTime), PeriodError>)
    requires Valid(now)
    ensures r.Ok? ==> IsPeriod(unit, offset, now, r.value.0, r.value.1)
    ensures (|| (unit == "hour" && 0 <= offset <= 59) || (unit == "day" && 0 <= offset <= 23)
             || (unit == "month" && 0 <= offset <= 28) || (unit == "year" && 0 <= offset <= 12)) ==>
      (r.Ok? <==> HasPeriod(unit, offset, now))
    ensures unit == "month" ==> (r.Ok? <==> MonthsHaveDay(offset, now))
    ensures unit != "month" && r.Ok? ==>
      || (unit == "hour" && 0 <= offset <= 59) || (unit == "day" && 0 <= offset <= 23)
      || (unit == "year" && 0 <= offset <= 12)
    ensures r == Err(UnknownUnit) <==> unit != "month" && unit != "day" && unit != "year" && unit != "hour"
  {
    hide IsPeriod, HasPeriod, MonthsHaveDay, Valid;
    if unit == "month" {
      r := MonthPeriod(offset, now);
    } else if unit == "year" {
      r := YearPeriod(offset, now);
    } else if unit == "day" {
      r := DayPeriod(offset, now);
    } else if unit == "hour" {
      r := HourPeriod(offset, now);
    } else {
      r := Err(UnknownUnit);
    }
  }

  // A monthly period works at every instant, the very first year aside, exactly when every month has its day.
  lemma MonthDayIff(offset: int)
    ensures (forall now :: Valid(now) && now.year > 1 ==> MonthsHaveDay(offset, now)) <==> 0 <= offset <= 28
  {
    var march := DateTime(2015, 3, 1, 0, 0, 0, 0);
    assert Valid(march) && MonthBefore(2015, 3) == (2015, 2);
    if 0 <= offset <= 28 {
      forall now | Valid(now) && now.year > 1 ensures MonthsHaveDay(offset, now) {
      }
    } else {
      assert !MonthsHaveDay(offset, march);
    }
  }
}

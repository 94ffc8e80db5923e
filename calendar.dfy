/**
 * The proleptic Gregorian calendar as Python's `datetime` module uses it:
 * dates, day ordinals (`date.toordinal()`, 0001-01-01 is day 1), weekdays
 * (`date.weekday()`, Monday is 0), adding days (`timedelta(days=n)`), adding a
 * month (`relativedelta(months=1)`), and local wall-clock instants in
 * milliseconds for the single time zone the application runs in.
 */
module Calendar {

  datatype Date = Date(year: int, month: int, day: int)
  datatype ClockTime = ClockTime(hour: int, minute: int, second: int)
  datatype DateTime = DateTime(date: Date, time: ClockTime)

  const MaxYear: int := 9999
  /** `date(9999, 12, 31).toordinal()` */
  const LastOrdinal: int := 3652059

  const MsPerSecond: int := 1000
  const MsPerMinute: int := 60000
  const MsPerDay: int := 86400000

  predicate IsLeap(y: int)
  {
    y % 4 == 0 && (y % 100 != 0 || y % 400 == 0)
  }

  function DaysInMonth(y: int, m: int): (r: int)
    requires 1 <= m <= 12
    ensures 28 <= r <= 31
  {
    if m == 2 then (if IsLeap(y) then 29 else 28)
    else if m == 4 || m == 6 || m == 9 || m == 11 then 30
    else 31
  }

  function DaysInYear(y: int): int
  {
    if IsLeap(y) then 366 else 365
  }

  /** A real calendar day from year 1 on (no upper bound on the year). */
  predicate Proper(d: Date)
  {
    1 <= d.year && 1 <= d.month <= 12 && 1 <= d.day <= DaysInMonth(d.year, d.month)
  }

  /** What `datetime(year, month, day)` accepts without raising. */
  predicate ValidDate(d: Date)
  {
    Proper(d) && d.year <= MaxYear
  }

  predicate ValidTime(t: ClockTime)
  {
    0 <= t.hour < 24 && 0 <= t.minute < 60 && 0 <= t.second < 60
  }

  predicate ValidDateTime(dt: DateTime)
  {
    ValidDate(dt.date) && ValidTime(dt.time)
  }

  /** `datetime.combine(d, t)` */
  function Combine(d: Date, t: ClockTime): DateTime
  {
    DateTime(d, t)
  }

  // ---------------------------------------------------------------------
  // Ordinals and weekdays
  // ---------------------------------------------------------------------

  /** Days in the years before year `y`, counted year by year from year 1. */
  function DaysBeforeYear(y: int): int
    decreases y
  {
    if y <= 1 then 0 else DaysBeforeYear(y - 1) + DaysInYear(y - 1)
  }

  /** Python's `_days_before_month`. */
  function DaysBeforeMonth(y: int, m: int): int
    requires 1 <= m <= 12
  {
    var base :=
      if m == 1 then 0 else if m == 2 then 31 else if m == 3 then 59
      else if m == 4 then 90 else if m == 5 then 120 else if m == 6 then 151
      else if m == 7 then 181 else if m == 8 then 212 else if m == 9 then 243
      else if m == 10 then 273 else if m == 11 then 304 else 334;
    if m > 2 && IsLeap(y) then base + 1 else base
  }

  /** `date.toordinal()` */
  function Ordinal(d: Date): int
    requires 1 <= d.month <= 12
  {
    DaysBeforeYear(d.year) + DaysBeforeMonth(d.year, d.month) + d.day
  }

  /** `date.weekday()`: Monday is 0, Sunday is 6. */
  function Weekday(d: Date): (r: int)
    requires 1 <= d.month <= 12
    ensures 0 <= r < 7
  {
    (Ordinal(d) + 6) % 7
  }

  /**
   * The count starts on a Monday: 1 January of year 1 and 1 January 2024 are
   * Mondays (0), and 7 January 2024 is a Sunday (6).
   */
  lemma WeekdayAnchors()
    ensures Weekday(Date(1, 1, 1)) == 0
    ensures Weekday(Date(2024, 1, 1)) == 0 && Weekday(Date(2024, 1, 7)) == 6
  {
    FirstOrdinal2024();
    assert Ordinal(Date(2024, 1, 7)) == 738892;
  }

  lemma FirstOrdinal2024()
    ensures Ordinal(Date(2024, 1, 1)) == 738886
  {
    DaysBeforeYearFormula(2024);
    assert DaysBeforeYear(2024) == 365 * 2023 + 505 - 20 + 5;
  }

  lemma DaysBeforeMonthStep(y: int, m: int)
    requires 1 <= m < 12
    ensures DaysBeforeMonth(y, m + 1) == DaysBeforeMonth(y, m) + DaysInMonth(y, m)
  {
  }

  lemma DivStep(k: int, q: int)
    requires q == 4 || q == 100 || q == 400
    ensures (k + 1) / q == k / q + (if (k + 1) % q == 0 then 1 else 0)
  {
  }

  lemma LeapDivisors(y: int)
    ensures y % 400 == 0 ==> y % 100 == 0
    ensures y % 100 == 0 ==> y % 4 == 0
  {
  }

  /** Python's closed form `_days_before_year`: 365 a year plus the leap days. */
  lemma {:induction false} DaysBeforeYearFormula(y: int)
    requires y >= 1
    decreases y
    ensures DaysBeforeYear(y) == 365 * (y - 1) + (y - 1) / 4 - (y - 1) / 100 + (y - 1) / 400
  {
    if y > 1 {
      DaysBeforeYearFormula(y - 1);
      var k := y - 2;
      DivStep(k, 4);
      DivStep(k, 100);
      DivStep(k, 400);
      LeapDivisors(y - 1);
    }
  }

  // ---------------------------------------------------------------------
  // Adding days and months
  // ---------------------------------------------------------------------

  /** The calendar day after `d`. */
  function NextDay(d: Date): (r: Date)
    requires Proper(d)
    ensures Proper(r) && Ordinal(r) == Ordinal(d) + 1
  {
    if d.day < DaysInMonth(d.year, d.month) then Date(d.year, d.month, d.day + 1)
    else if d.month < 12 then
      DaysBeforeMonthStep(d.year, d.month);
      Date(d.year, d.month + 1, 1)
    else
      Date(d.year + 1, 1, 1)
  }

  /** `d + timedelta(days=n)` for n >= 0. */
  function AddDays(d: Date, n: nat): (r: Date)
    requires Proper(d)
    decreases n
    ensures Proper(r) && Ordinal(r) == Ordinal(d) + n
  {
    if n == 0 then d else AddDays(NextDay(d), n - 1)
  }

  lemma ModSucc(a: int)
    ensures (a + 1) % 7 == (a % 7 + 1) % 7
  {
  }

  lemma {:induction false} ModAdd(a: int, n: nat)
    decreases n
    ensures (a + n) % 7 == (a % 7 + n) % 7
  {
    if n > 0 {
      ModAdd(a, n - 1);
      ModSucc(a + n - 1);
      ModSucc(a % 7 + n - 1);
    }
  }

  /** Each day later moves the weekday on by one, Sunday wrapping to Monday. */
  lemma AddDaysWeekday(d: Date, n: nat)
    requires Proper(d)
    ensures Weekday(AddDays(d, n)) == (Weekday(d) + n) % 7
  {
    var o := Ordinal(d);
    assert Ordinal(AddDays(d, n)) == o + n;
    ModAdd(o + 6, n);
  }

  lemma AddDaysOnWeekday(d: Date, n: nat, w: int)
    requires Proper(d) && (Weekday(d) + n) % 7 == w
    ensures Weekday(AddDays(d, n)) == w
  {
    AddDaysWeekday(d, n);
  }

  /**
   * `d + relativedelta(months=1)`: the same day of the next month, clamped to
   * that month's length (31 January becomes 28 or 29 February).
   */
  function AddOneMonth(d: Date): (r: Date)
    requires Proper(d)
    ensures Proper(r)
  {
    var y := if d.month == 12 then d.year + 1 else d.year;
    var m := if d.month == 12 then 1 else d.month + 1;
    Date(y, m, if d.day <= DaysInMonth(y, m) then d.day else DaysInMonth(y, m))
  }

  /**
   * A month later is the next month of the calendar, on the same day when that
   * month has it and on its last day otherwise; it lies 28 to 31 days ahead,
   * exactly the length of the starting month when the day is kept.
   */
  lemma AddOneMonthMeaning(d: Date)
    requires Proper(d)
    ensures var r := AddOneMonth(d);
      && r.year * 12 + r.month == d.year * 12 + d.month + 1
      && (d.day <= DaysInMonth(r.year, r.month) ==> r.day == d.day)
      && (d.day > DaysInMonth(r.year, r.month) ==> r.day == DaysInMonth(r.year, r.month))
      && (r.day == d.day ==> Ordinal(r) == Ordinal(d) + DaysInMonth(d.year, d.month))
      && 28 <= Ordinal(r) - Ordinal(d) <= 31
  {
    if d.month < 12 {
      DaysBeforeMonthStep(d.year, d.month);
    }
  }

  // ---------------------------------------------------------------------
  // Instants
  // ---------------------------------------------------------------------

  /** Local wall-clock time as milliseconds since the start of ordinal day 0. */
  function Instant(dt: DateTime): int
    requires 1 <= dt.date.month <= 12
  {
    Ordinal(dt.date) * MsPerDay + dt.time.hour * 3600000 + dt.time.minute * MsPerMinute + dt.time.second * MsPerSecond
  }

  /** The instant lies on a day `datetime` can represent (year 1 to 9999). */
  predicate InRange(t: int)
  {
    1 <= t / MsPerDay <= LastOrdinal
  }

  /** `_floor_to_min` on an instant: `dt.replace(second=0, microsecond=0)`. */
  function FloorToMinute(t: int): (r: int)
    ensures r <= t && t - MsPerMinute < r
    ensures r % MsPerMinute == 0
  {
    t - t % MsPerMinute
  }

  /** `_floor_to_min` on a date and time. */
  function FloorDateTime(dt: DateTime): DateTime
  {
    DateTime(dt.date, ClockTime(dt.time.hour, dt.time.minute, 0))
  }

  lemma ModOfMultiplePlus(x: int, r: int)
    requires 0 <= r < MsPerMinute
    ensures (x * MsPerMinute + r) % MsPerMinute == r
  {
  }

  /** Flooring is idempotent. */
  lemma FloorIdempotent(t: int)
    ensures FloorToMinute(FloorToMinute(t)) == FloorToMinute(t)
  {
  }

  /** Dropping the seconds of a date and time floors its instant to the minute. */
  lemma FloorDateTimeInstant(dt: DateTime)
    requires ValidDateTime(dt)
    ensures Instant(FloorDateTime(dt)) == FloorToMinute(Instant(dt))
    ensures Instant(FloorDateTime(dt)) % MsPerMinute == 0
  {
    var x := Ordinal(dt.date) * 1440 + dt.time.hour * 60 + dt.time.minute;
    assert Instant(dt) == x * MsPerMinute + dt.time.second * MsPerSecond;
    ModOfMultiplePlus(x, dt.time.second * MsPerSecond);
    ModOfMultiplePlus(x, 0);
  }

  /** Adding whole days to a date moves its instant by that many days. */
  lemma AddDaysInstant(dt: DateTime, n: nat)
    requires Proper(dt.date)
    ensures Instant(DateTime(AddDays(dt.date, n), dt.time)) == Instant(dt) + n * MsPerDay
  {
    var e := AddDays(dt.date, n);
    assert Ordinal(e) == Ordinal(dt.date) + n;
  }

  lemma LastOrdinalValue()
    ensures Ordinal(Date(MaxYear, 12, 31)) == LastOrdinal
  {
    DaysBeforeYearFormula(MaxYear);
  }
}

/**
 * Dates and times as the task list stores them (`LocalDateTime` in UTC+0),
 * with the calendar rules of the proleptic Gregorian calendar of ISO 8601
 * and a day count that gives the signed number of days between two dates.
 */
module Calendar {

  datatype Date = Date(year: int, month: int, day: int)

  /** A due date with hour and minute; seconds are always zero for a task. */
  datatype DateTime = DateTime(date: Date, hour: int, minute: int)

  /** The year range a `LocalDate` accepts. */
  const MinYear: int := -999_999_999
  const MaxYear: int := 999_999_999

  predicate IsLeapYear(y: int) {
    y % 4 == 0 && (y % 100 != 0 || y % 400 == 0)
  }

  function DaysInMonth(y: int, m: int): (n: int)
    requires 1 <= m <= 12
    ensures 28 <= n <= 31
  {
    if m == 2 then (if IsLeapYear(y) then 29 else 28)
    else if m == 4 || m == 6 || m == 9 || m == 11 then 30
    else 31
  }

  /** What the `LocalDateTime` constructor accepts as a date. */
  predicate ValidDate(d: Date) {
    && MinYear <= d.year <= MaxYear
    && 1 <= d.month <= 12
    && 1 <= d.day <= DaysInMonth(d.year, d.month)
  }

  /** What the `LocalDateTime` constructor accepts as hour and minute. */
  predicate ValidTime(hour: int, minute: int) {
    0 <= hour <= 23 && 0 <= minute <= 59
  }

  predicate ValidDateTime(t: DateTime) {
    ValidDate(t.date) && ValidTime(t.hour, t.minute)
  }

  /** Calendar order: `a` is an earlier day than `b`. */
  predicate Before(a: Date, b: Date) {
    || a.year < b.year
    || (a.year == b.year && a.month < b.month)
    || (a.year == b.year && a.month == b.month && a.day < b.day)
  }

  function YearLength(y: int): int {
    if IsLeapYear(y) then 366 else 365
  }

  /** Days from 0001-01-01 to the first day of year `y` (negative before it). */
  function YearStart(y: int): int {
    365 * (y - 1) + (y - 1) / 4 - (y - 1) / 100 + (y - 1) / 400
  }

  /** Days from the first of January to the first day of month `m`. */
  function MonthStart(y: int, m: int): int
    requires 1 <= m <= 12
  {
    [0, 31, 59, 90, 120, 151, 181, 212, 243, 273, 304, 334][m - 1]
    + (if m > 2 && IsLeapYear(y) then 1 else 0)
  }

  /** Days from 0001-01-01 to `d`. */
  function DayNumber(d: Date): int
    requires 1 <= d.month <= 12
  {
    YearStart(d.year) + MonthStart(d.year, d.month) + d.day - 1
  }

  /** `LocalDate.daysUntil`: the signed number of days from `from` to `to`. */
  function DaysUntil(from: Date, to: Date): int
    requires ValidDate(from) && ValidDate(to)
  {
    DayNumber(to) - DayNumber(from)
  }

  // ------------------------------------------------------------- lemmas

  lemma FloorStep(y: int, d: int)
    requires d == 4 || d == 100 || d == 400
    ensures y / d - (y - 1) / d == if y % d == 0 then 1 else 0
  {
    var q, r := (y - 1) / d, (y - 1) % d;
    assert y == d * q + r + 1;
    if r + 1 == d {
      assert y == d * (q + 1);
      assert y / d == q + 1 && y % d == 0;
    } else {
      assert y / d == q && y % d == r + 1;
    }
  }

  /** Consecutive years are a year's length apart. */
  lemma YearStep(y: int)
    ensures YearStart(y + 1) == YearStart(y) + YearLength(y)
  {
    FloorStep(y, 4);
    FloorStep(y, 100);
    FloorStep(y, 400);
    CenturyDivides(y);
  }

  /** A multiple of 100 is a multiple of 4, and a multiple of 400 one of 100. */
  lemma CenturyDivides(y: int)
    ensures y % 100 == 0 ==> y % 4 == 0
    ensures y % 400 == 0 ==> y % 100 == 0
  {
    if y % 100 == 0 {
      assert y % 4 == 4 * (25 * (y / 100) - y / 4);
    }
    if y % 400 == 0 {
      assert y % 100 == 100 * (4 * (y / 400) - y / 100);
    }
  }

  lemma {:induction false} YearStartGrows(y: int, z: int)
    requires y <= z
    ensures YearStart(y) + 365 * (z - y) <= YearStart(z)
    decreases z - y
  {
    if y < z {
      YearStartGrows(y, z - 1);
      YearStep(z - 1);
    }
  }

  /** A valid day lies inside its month and the month inside its year. */
  lemma DayInYear(d: Date)
    requires ValidDate(d)
    ensures 0 <= MonthStart(d.year, d.month) + d.day - 1 < YearLength(d.year)
  {
  }

  lemma MonthsOrdered(y: int, m: int, n: int)
    requires 1 <= m < n <= 12
    ensures MonthStart(y, m) + DaysInMonth(y, m) <= MonthStart(y, n)
  {
  }

  /** The day count respects calendar order. */
  lemma DayNumberOrder(a: Date, b: Date)
    requires ValidDate(a) && ValidDate(b) && Before(a, b)
    ensures DayNumber(a) < DayNumber(b)
  {
    DayInYear(a);
    DayInYear(b);
    if a.year < b.year {
      YearStep(a.year);
      YearStartGrows(a.year + 1, b.year);
    } else if a.month < b.month {
      MonthsOrdered(a.year, a.month, b.month);
    }
  }

  /**
   * The sign of `DaysUntil` is the calendar order: zero exactly on the
   * same day, positive exactly when `to` is later, negative exactly when
   * it is earlier.
   */
  lemma DaysUntilSign(from: Date, to: Date)
    requires ValidDate(from) && ValidDate(to)
    ensures DaysUntil(from, to) == 0 <==> from == to
    ensures DaysUntil(from, to) > 0 <==> Before(from, to)
    ensures DaysUntil(from, to) < 0 <==> Before(to, from)
  {
    if Before(from, to) {
      DayNumberOrder(from, to);
    } else if Before(to, from) {
      DayNumberOrder(to, from);
    } else {
      assert from == to;
    }
  }
}

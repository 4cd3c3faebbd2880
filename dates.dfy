/**
 * Integer date arithmetic standing in for JavaScript's `Date` on the calendar page:
 * proleptic Gregorian calendar, 0-based months (January = 0) and weekdays counted
 * from Sunday = 0, the order of the grid's column headers.
 */
module Dates {

  /** A calendar date as `getFullYear()`, `getMonth()` and `getDate()` report it. */
  datatype Date = Date(year: int, month: int, day: int)

  /** A (year, 0-based month) pair. */
  datatype YearMonth = YearMonth(year: int, month: int)

  predicate IsLeapYear(y: int) {
    y % 4 == 0 && (y % 100 != 0 || y % 400 == 0)
  }

  /** The day of the month of `new Date(y, m + 1, 0)`: the last day of month `m`. */
  function DaysInMonth(y: int, m: int): (n: int)
    requires 0 <= m < 12
    ensures 28 <= n <= 31
    ensures m == 1 ==> (n == 29 <==> IsLeapYear(y))
  {
    if m == 1 then (if IsLeapYear(y) then 29 else 28)
    else if m == 3 || m == 5 || m == 8 || m == 10 then 30
    else 31
  }

  predicate ValidDate(d: Date) {
    0 <= d.month < 12 && 1 <= d.day <= DaysInMonth(d.year, d.month)
  }

  /** Number of leap years among 1 .. y - 1 (negative for y < 1, counting backwards). */
  function LeapYearsBefore(y: int): int {
    (y - 1) / 4 - (y - 1) / 100 + (y - 1) / 400
  }

  /** Days from 0001-01-01 to the first day of year `y`. */
  function DaysBeforeYear(y: int): int {
    365 * (y - 1) + LeapYearsBefore(y)
  }

  /** Days from the first of the year to the first of month `m`. */
  function DaysBeforeMonth(y: int, m: int): int
    requires 0 <= m < 12
  {
    [0, 31, 59, 90, 120, 151, 181, 212, 243, 273, 304, 334][m]
      + (if m >= 2 && IsLeapYear(y) then 1 else 0)
  }

  /** Days from 0001-01-01 (day number 0) to the given date. */
  function DayNumber(y: int, m: int, d: int): int
    requires 0 <= m < 12
  {
    DaysBeforeYear(y) + DaysBeforeMonth(y, m) + (d - 1)
  }

  /** `getDay()`: 0 = Sunday .. 6 = Saturday. 0001-01-01 was a Monday. */
  function Weekday(y: int, m: int, d: int): (w: int)
    requires 0 <= m < 12
    ensures 0 <= w < 7
  {
    (DayNumber(y, m, d) + 1) % 7
  }

  /** `new Date(y, m + k, 1)` keeps only the normalised year and month. */
  function ShiftMonth(y: int, m: int, k: int): (r: YearMonth)
    ensures 0 <= r.month < 12
    ensures r.year * 12 + r.month == y * 12 + m + k
  {
    YearMonth((y * 12 + m + k) / 12, (y * 12 + m + k) % 12)
  }

  /** A positive multiple of `k` is at least `k`. */
  lemma {:induction false} MulAtLeast(k: int, d: int)
    requires k > 0 && d >= 1
    ensures k * d >= k
    decreases d
  {
    if d > 1 {
      MulAtLeast(k, d - 1);
      assert k * d == k * (d - 1) + k;
    }
  }

  /** Euclidean division is determined by quotient and remainder. */
  lemma DivModUnique(n: int, k: int, q: int, r: int)
    requires k > 0 && 0 <= r < k && n == k * q + r
    ensures n / k == q && n % k == r
  {
    var q', r' := n / k, n % k;
    assert k * q + r == k * q' + r';
    assert k * (q - q') == r' - r;
    if q > q' {
      MulAtLeast(k, q - q');
    } else if q < q' {
      MulAtLeast(k, q' - q);
    }
  }

  /** Adding to a number and reducing modulo 7 may reduce the number first. */
  lemma ModAdd7(x: int, d: int)
    ensures (x + d) % 7 == (x % 7 + d) % 7
  {
    var t := x % 7 + d;
    assert x + d == 7 * (x / 7 + t / 7) + t % 7;
    DivModUnique(x + d, 7, x / 7 + t / 7, t % 7);
  }

  /** Month shifts compose by adding their offsets. */
  lemma ShiftMonthCompose(y: int, m: int, a: int, b: int)
    ensures ShiftMonth(ShiftMonth(y, m, a).year, ShiftMonth(y, m, a).month, b) == ShiftMonth(y, m, a + b)
  {
    var r1 := ShiftMonth(y, m, a);
    var n := y * 12 + m + a + b;
    var r2 := ShiftMonth(r1.year, r1.month, b);
    DivModUnique(n, 12, r2.year, r2.month);
  }

  /** A shift by 0 months is the identity on normalised months. */
  lemma ShiftMonthZero(y: int, m: int)
    requires 0 <= m < 12
    ensures ShiftMonth(y, m, 0) == YearMonth(y, m)
  {
    DivModUnique(y * 12 + m, 12, y, m);
  }

  /** `changeMonth(1)` followed by `changeMonth(-1)` comes back to the same month. */
  lemma NextThenPrevious(y: int, m: int)
    requires 0 <= m < 12
    ensures var n := ShiftMonth(y, m, 1); ShiftMonth(n.year, n.month, -1) == YearMonth(y, m)
  {
    ShiftMonthCompose(y, m, 1, -1);
    ShiftMonthZero(y, m);
  }

  /** The next month of a month other than December lies in the same year. */
  lemma ShiftMonthOne(y: int, m: int)
    requires 0 <= m < 12
    ensures ShiftMonth(y, m, 1) == if m < 11 then YearMonth(y, m + 1) else YearMonth(y + 1, 0)
  {
    if m < 11 {
      DivModUnique(y * 12 + m + 1, 12, y, m + 1);
    } else {
      DivModUnique(y * 12 + m + 1, 12, y + 1, 0);
    }
  }

  /** `n / k` goes up by one exactly when `n` is a multiple of `k`. */
  lemma DivStep(n: int, k: int)
    requires k > 0
    ensures n / k - (n - 1) / k == if n % k == 0 then 1 else 0
  {
    var q, r := (n - 1) / k, (n - 1) % k;
    if r + 1 < k {
      DivModUnique(n, k, q, r + 1);
    } else {
      DivModUnique(n, k, q + 1, 0);
    }
  }

  /** Year `y` adds a leap day to the count exactly when it is a leap year. */
  lemma LeapYearsStep(y: int)
    ensures LeapYearsBefore(y + 1) == LeapYearsBefore(y) + (if IsLeapYear(y) then 1 else 0)
  {
    DivStep(y, 4);
    DivStep(y, 100);
    DivStep(y, 400);
    if y % 400 == 0 {
      DivModUnique(y, 100, 4 * (y / 400), 0);
      DivModUnique(y, 4, 100 * (y / 400), 0);
    } else if y % 100 == 0 {
      DivModUnique(y, 4, 25 * (y / 100), 0);
    }
  }

  /** Year `y` is 366 days long exactly when it is a leap year. */
  lemma YearLength(y: int)
    ensures DaysBeforeYear(y + 1) - DaysBeforeYear(y) == if IsLeapYear(y) then 366 else 365
  {
    LeapYearsStep(y);
  }

  /**
   * The first of the next month comes `DaysInMonth(y, m)` days after the first of
   * month `m`, across a year boundary too.
   */
  lemma NextMonthStart(y: int, m: int)
    requires 0 <= m < 12
    ensures var n := ShiftMonth(y, m, 1);
      DayNumber(n.year, n.month, 1) == DayNumber(y, m, 1) + DaysInMonth(y, m)
  {
    ShiftMonthOne(y, m);
    if m == 11 {
      YearLength(y);
    }
  }

  /**
   * The grid of the next month starts on the weekday after this month's last day:
   * the weekday of the 1st and the number of days agree across months.
   */
  lemma NextMonthWeekday(y: int, m: int)
    requires 0 <= m < 12
    ensures var n := ShiftMonth(y, m, 1);
      Weekday(n.year, n.month, 1) == (Weekday(y, m, 1) + DaysInMonth(y, m)) % 7
  {
    NextMonthStart(y, m);
    ModAdd7(DayNumber(y, m, 1) + 1, DaysInMonth(y, m));
  }

  /** Anchors of the weekday count: 1970-01-01 was a Thursday, 2025-11-01 a Saturday. */
  lemma WeekdayAnchors()
    ensures Weekday(1970, 0, 1) == 4
    ensures Weekday(2025, 10, 1) == 6
  {
  }
}

/**
 * Calendar dates as already-parsed (year, month, day) triples, the Gregorian
 * days-in-month rule, and the weekday of a date (0 = Sunday .. 6 = Saturday).
 * JavaScript's `Date` objects, their string parsing and time zones are not part
 * of this model: both `getDay()` and `getUTCDay()` on a parsed date become
 * `DayOfWeek` of its triple.
 */
module Dates {

  /** Month numbers as the dashboard passes them: 1 = January .. 12 = December. */
  type Month = m: int | 1 <= m <= 12 witness 1

  datatype Date = Date(year: int, month: Month, day: int)

  /** Gregorian leap years: every fourth year, except centuries not divisible by 400. */
  predicate IsLeapYear(y: int)
  {
    y % 4 == 0 && (y % 100 != 0 || y % 400 == 0)
  }

  /** The number of days of month `m` of year `y`, as `new Date(y, m, 0).getDate()` gives it. */
  function DaysInMonth(y: int, m: Month): (n: int)
    ensures 28 <= n <= 31
    ensures n == 29 <==> m == 2 && IsLeapYear(y)
    ensures n == 28 <==> m == 2 && !IsLeapYear(y)
    ensures n == 30 <==> m == 4 || m == 6 || m == 9 || m == 11
  {
    if m == 2 then (if IsLeapYear(y) then 29 else 28)
    else if m == 4 || m == 6 || m == 9 || m == 11 then 30
    else 31
  }

  /**
   * The full year that `new Date(y, ...)` and `Date.UTC(y, ...)` use for a
   * numeric year argument: 0..99 stand for 1900..1999.
   */
  function FullYear(y: int): (r: int)
    ensures 0 <= y <= 99 ==> r == 1900 + y
    ensures !(0 <= y <= 99) ==> r == y
  {
    if 0 <= y <= 99 then 1900 + y else y
  }

  /** Month offsets of Sakamoto's weekday formula. */
  function MonthOffset(m: Month): int
  {
    [0, 3, 2, 5, 0, 3, 5, 1, 4, 6, 2, 4][m - 1]
  }

  /** The days that leap years and Gregorian corrections add up to year `y`. */
  function YearShift(y: int): int
  {
    y + y / 4 - y / 100 + y / 400
  }

  /**
   * The weekday of `d`, 0 = Sunday .. 6 = Saturday, in the proleptic Gregorian
   * calendar. January and February count as months of the previous year.
   */
  function DayOfWeek(d: Date): (r: int)
    ensures 0 <= r < 7
  {
    var y := if d.month < 3 then d.year - 1 else d.year;
    (YearShift(y) + MonthOffset(d.month) + d.day) % 7
  }

  /** Saturday and Sunday. */
  predicate IsWeekend(d: Date)
  {
    DayOfWeek(d) == 0 || DayOfWeek(d) == 6
  }

  /** The first day of the month after month `m` of year `y`. */
  function NextMonthStart(y: int, m: Month): (d: Date)
    ensures d.day == 1
    ensures m < 12 ==> d.year == y && d.month == m + 1
    ensures m == 12 ==> d.year == y + 1 && d.month == 1
  {
    if m == 12 then Date(y + 1, 1, 1) else Date(y, m + 1, 1)
  }

  /** Going `k` days further within a month moves the weekday `k` places on, modulo 7. */
  lemma DayOfWeekShift(y: int, m: Month, d: int, k: int)
    ensures DayOfWeek(Date(y, m, d + k)) == (DayOfWeek(Date(y, m, d)) + k) % 7
  {

  }

  /** A day is a weekend day exactly when the same day a week later is one. */
  lemma WeekendRepeatsWeekly(y: int, m: Month, d: int)
    ensures IsWeekend(Date(y, m, d)) <==> IsWeekend(Date(y, m, d + 7))
  {
    DayOfWeekShift(y, m, d, 7);
    ModSevenPeriodic(DayOfWeek(Date(y, m, d)), 1);
  }

  /** ((a % 7) + k) % 7 == (a + k) % 7, written out for the solver. */
  lemma ModAddShift(a: int, k: int)
    ensures (a + k) % 7 == (a % 7 + k) % 7
  {
    var q := a / 7;
    assert a == 7 * q + a % 7;
    assert a + k == 7 * q + (a % 7 + k);
  }

  /** Stepping one year on adds one day, two when the new year is a leap year. */
  lemma YearShiftStep(y: int)
    ensures YearShift(y) - YearShift(y - 1) == if IsLeapYear(y) then 2 else 1
  {
    DivStep(y, 4);
    DivStep(y, 100);
    DivStep(y, 400);
    if y % 400 == 0 {
      var q := y / 400;
      assert y == 100 * (4 * q);
      assert y == 4 * (100 * q);
    } else if y % 100 == 0 {
      var q := y / 100;
      assert y == 4 * (25 * q);
    }
  }

  /** y / k and (y - 1) / k differ by one exactly when k divides y. */
  lemma DivStep(y: int, k: int)
    requires k == 4 || k == 100 || k == 400
    ensures y / k - (y - 1) / k == if y % k == 0 then 1 else 0
  {

  }

  /**
   * The first weekday of the next month is this month's first weekday moved on
   * by this month's length: `DayOfWeek` and `DaysInMonth` describe the same calendar.
   */
  lemma {:induction false} DayOfWeekNextMonth(y: int, m: Month)
    ensures DayOfWeek(NextMonthStart(y, m)) == (DayOfWeek(Date(y, m, 1)) + DaysInMonth(y, m)) % 7
  {
    var n := NextMonthStart(y, m);
    var a := YearShift(if m < 3 then y - 1 else y) + MonthOffset(m);
    var b := YearShift(if n.month < 3 then n.year - 1 else n.year) + MonthOffset(n.month);
    var len := DaysInMonth(y, m);
    MonthOffsetStep(y, m);
    var c := if m == 4 || m == 7 || m == 10 || m == 12 then -5 else -4;
    assert b + 1 == a + 1 + len + 7 * c;
    ModSevenPeriodic(a + 1 + len, c);
    ModAddShift(a + 1, len);
    assert DayOfWeek(Date(y, m, 1)) == (a + 1) % 7;
    assert DayOfWeek(n) == (b + 1) % 7;
  }

  /** Adding whole weeks does not change a weekday. */
  lemma ModSevenPeriodic(x: int, c: int)
    ensures (x + 7 * c) % 7 == x % 7
  {
    var q := x / 7;
    assert x + 7 * c == 7 * (q + c) + x % 7;
  }

  /** Between the first days of consecutive months the formula advances by the month's length, less whole weeks. */
  lemma MonthOffsetStep(y: int, m: Month)
    ensures var n := NextMonthStart(y, m);
            var a := YearShift(if m < 3 then y - 1 else y) + MonthOffset(m);
            var b := YearShift(if n.month < 3 then n.year - 1 else n.year) + MonthOffset(n.month);
            b - a - DaysInMonth(y, m) == (if m == 4 || m == 7 || m == 10 || m == 12 then -35 else -28)
  {
    if m == 2 {
      YearShiftStep(y);
    }
  }

  /** 1 January 1970, the epoch of JavaScript time values, was a Thursday. */
  lemma EpochIsThursday()
    ensures DayOfWeek(Date(1970, 1, 1)) == 4
  {
  }
}

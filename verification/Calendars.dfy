/**
 The proleptic Gregorian calendar in one fixed offset.  Day 0 is Thursday 1 January 1970; seconds
 count from the midnight that starts day 0.
 */
module Calendars {
  import opened Arithmetic

  const DAY: int := 86400
  const NANOS: int := 1_000_000_000

  datatype Date = Date(year: int, month: int, day: int)

  predicate Leap(y: int) {
    y % 4 == 0 && (y % 100 != 0 || y % 400 == 0)
  }

  function MonthLength(y: int, m: int): int {
    if m == 2 then (if Leap(y) then 29 else 28)
    else if m == 4 || m == 6 || m == 9 || m == 11 then 30
    else 31
  }

  /** The number of leap years in 1..y, extended to all years. */
  function Leaps(y: int): int {
    y / 4 - y / 100 + y / 400
  }

  function YearStart(y: int): int {
    365 * (y - 1970) + Leaps(y - 1) - Leaps(1969)
  }

  /** The days of year `y` before its month `m`. */
  function MonthStart(y: int, m: int): int
    requires 1 <= m <= 12
  {
    (if m > 2 && Leap(y) then 1 else 0) +
    if m == 1 then 0 else if m == 2 then 31 else if m == 3 then 59 else if m == 4 then 90
    else if m == 5 then 120 else if m == 6 then 151 else if m == 7 then 181 else if m == 8 then 212
    else if m == 9 then 243 else if m == 10 then 273 else if m == 11 then 304 else 334
  }

  /** `time.Date`, as a day number: months and days outside their range are carried over. */
  function DayNumber(y: int, m: int, d: int): int {
    var year, month := y + (m - 1) / 12, (m - 1) % 12 + 1;
    YearStart(year) + MonthStart(year, month) + d - 1
  }

  lemma OneMultiple(y: int, d: int)
    requires d == 4 || d == 100 || d == 400
    ensures y / d - (y - 1) / d == if y % d == 0 then 1 else 0
  {
  }

  lemma YearLength(y: int)
    ensures YearStart(y + 1) - YearStart(y) == if Leap(y) then 366 else 365
  {
    OneMultiple(y, 4);
    OneMultiple(y, 100);
    OneMultiple(y, 400);
  }

  lemma NoCarry(y: int, m: int, d: int)
    requires 1 <= m <= 12
    ensures DayNumber(y, m, d) == YearStart(y) + MonthStart(y, m) + d - 1
  {
    hide YearStart, MonthStart;
  }

  /** The year that day `n` falls in, searched for from year `y`. */
  function YearOf(n: int, y: int): (r: int)
    ensures YearStart(r) <= n < YearStart(r + 1)
    decreases n < YearStart(y), if n < YearStart(y) then YearStart(y) - n else n - YearStart(y)
  {
    YearLength(y);
    YearLength(y - 1);
    if n < YearStart(y) then YearOf(n, y - 1)
    else if n >= YearStart(y + 1) then YearOf(n, y + 1)
    else y
  }

  /** The month that holds the `n`-th day of year `y`, searched for from month `m`. */
  function MonthOf(y: int, n: int, m: int): (r: int)
    requires 1 <= m <= 12
    requires MonthStart(y, m) <= n < YearStart(y + 1) - YearStart(y)
    ensures m <= r <= 12
    ensures MonthStart(y, r) <= n < MonthStart(y, r) + MonthLength(y, r)
    decreases 12 - m
  {
    YearLength(y);
    if n < MonthStart(y, m) + MonthLength(y, m) then m else MonthOf(y, n, m + 1)
  }

  ghost predicate Valid(d: Date) {
    1 <= d.month <= 12 && 1 <= d.day <= MonthLength(d.year, d.month)
  }

  /** The date of day `n`. */
  function Civil(n: int): (d: Date)
    ensures Valid(d) && DayNumber(d.year, d.month, d.day) == n
  {
    var y := YearOf(n, 1970);
    var m := MonthOf(y, n - YearStart(y), 1);
    NoCarry(y, m, n - YearStart(y) - MonthStart(y, m) + 1);
    hide DayNumber, YearStart;
    Date(y, m, n - YearStart(y) - MonthStart(y, m) + 1)
  }

  /** Sunday is 0. */
  function Weekday(n: int): int {
    (n + 4) % 7
  }

  lemma MonthsInOrder(y: int, m: int, k: int)
    requires 1 <= m < k <= 12
    ensures MonthStart(y, m) + MonthLength(y, m) <= MonthStart(y, k)
  {
  }

  lemma {:induction false} YearsInOrder(x: int, y: int)
    requires x <= y
    ensures YearStart(x) <= YearStart(y)
    decreases y - x
  {
    if x < y {
      YearsInOrder(x, y - 1);
      YearLength(y - 1);
    }
  }

  lemma WithinYear(y: int, m: int, d: int)
    requires Valid(Date(y, m, d))
    ensures YearStart(y) <= DayNumber(y, m, d) < YearStart(y + 1)
    ensures DayNumber(y, m, d) == YearStart(y) + MonthStart(y, m) + d - 1
    ensures MonthStart(y, m) >= 0
  {
    hide YearStart, DayNumber;
    NoCarry(y, m, d);
    YearLength(y);
  }

  /** Day numbers and valid dates correspond one to one. */
  lemma CivilUnique(d: Date)
    requires Valid(d)
    ensures Civil(DayNumber(d.year, d.month, d.day)) == d
  {
    hide YearStart, MonthStart, MonthLength, Civil;
    var n := DayNumber(d.year, d.month, d.day);
    var c := Civil(n);
    WithinYear(d.year, d.month, d.day);
    WithinYear(c.year, c.month, c.day);
    if c.year < d.year { YearsInOrder(c.year + 1, d.year); }
    if d.year < c.year { YearsInOrder(d.year + 1, c.year); }
    if c.month < d.month { MonthsInOrder(d.year, c.month, d.month); }
    if d.month < c.month { MonthsInOrder(d.year, d.month, c.month); }
  }

  lemma NextMonthStart(y: int, m: int)
    requires 1 <= m <= 12
    ensures MonthStart(y, m) + MonthLength(y, m)
            == if m < 12 then MonthStart(y, m + 1) else if Leap(y) then 366 else 365
  {
    hide Leap;
  }

  /** The first of the following month is the day after the month's last day, also in December. */
  lemma MonthEnd(y: int, m: int)
    requires 1 <= m <= 12
    ensures DayNumber(y, m + 1, 1) == DayNumber(y, m, 1) + MonthLength(y, m)
  {
    NoCarry(y, m, 1);
    NextMonthStart(y, m);
    YearLength(y);
    if m == 12 {
      assert DayNumber(y, 13, 1) == YearStart(y + 1) by {
        hide YearStart, Leap;
      }
    } else {
      NoCarry(y, m + 1, 1);
    }
    hide *;
  }

  /** Every day before the first of the next month is in the same month. */
  lemma SameMonth(n: int, later: int)
    requires n <= later < DayNumber(Civil(n).year, Civil(n).month + 1, 1)
    ensures Civil(later).year == Civil(n).year && Civil(later).month == Civil(n).month
  {
    hide YearStart, MonthStart, MonthLength, Civil;
    var d := Civil(n);
    NoCarry(d.year, d.month, d.day);
    MonthEnd(d.year, d.month);
    CivilUnique(Date(d.year, d.month, d.day + later - n));
  }

  // ----- What the calendar is, apart from its formulas -----

  /** Anchors: the epoch, the turn of the century, and the February of a century without leap day. */
  lemma KnownDays()
    ensures DayNumber(1970, 1, 1) == 0 && DayNumber(2000, 1, 1) == 10957 && DayNumber(2000, 2, 29) == 11016
    ensures DayNumber(2000, 3, 1) == 11017 && DayNumber(1900, 3, 1) == DayNumber(1900, 2, 28) + 1
    ensures DayNumber(2100, 3, 1) == DayNumber(2100, 2, 28) + 1 && DayNumber(2024, 2, 29) + 1 == DayNumber(2024, 3, 1)
  {
  }

  /** Every 400 years the calendar repeats after 146097 days, a whole number of weeks. */
  lemma GregorianCycle(y: int, m: int, d: int)
    requires 1 <= m <= 12
    ensures DayNumber(y + 400, m, d) == DayNumber(y, m, d) + 146097
    ensures Leap(y + 400) == Leap(y)
  {
    NoCarry(y, m, d);
    NoCarry(y + 400, m, d);
    CycleOfLeaps(y);
    CycleOfLeaps(y - 1);
    assert y - 1 + 400 == y + 400 - 1;
    hide DayNumber, Leap, Leaps;
  }

  lemma CycleOfLeaps(y: int)
    ensures Leaps(y + 400) == Leaps(y) + 97 && Leap(y + 400) == Leap(y)
  {
    Quotient(y + 400, 4, y / 4 + 100, y % 4);
    Quotient(y + 400, 100, y / 100 + 4, y % 100);
    Quotient(y + 400, 400, y / 400 + 1, y % 400);
  }

  /** Weekdays follow each other, Sunday after Saturday; the epoch is a Thursday and the year 2000 began on
      a Saturday. */
  lemma WeekdaysFollow(n: int)
    ensures Weekday(n + 1) == if Weekday(n) == 6 then 0 else Weekday(n) + 1
    ensures 0 <= Weekday(n) <= 6
    ensures Weekday(DayNumber(1970, 1, 1)) == 4 && Weekday(DayNumber(2000, 1, 1)) == 6
  {
    KnownDays();
    hide DayNumber;
  }

  /** The day of the week of a date, by the congruence with one number per month; Sunday is 0. */
  function DayOfWeek(d: Date): int
    requires 1 <= d.month <= 12
  {
    var y := if d.month < 3 then d.year - 1 else d.year;
    (y + y / 4 - y / 100 + y / 400 + MonthKey(d.month) + d.day) % 7
  }

  /** The weekday of a day number is that of its date. */
  lemma WeekdayOfDate(d: Date)
    requires Valid(d)
    ensures Weekday(DayNumber(d.year, d.month, d.day)) == DayOfWeek(d)
  {
    hide DayNumber, Leap, Leaps, MonthStart, MonthWeeks, YearStart, DayOfWeek;
    var y, m := d.year, d.month;
    NoCarry(y, m, d.day);
    LeapCounted(y);
    MonthShift(y, m);
    YearCounted(y);
    DayOfWeekSum(d);
    var late := if m < 3 then y - 1 else y;
    SameRemainder(DayNumber(y, m, d.day) + 4, late + Leaps(late) + MonthKey(m) + d.day,
                  52 * (y - 1970) - 349 + MonthWeeks(m));
  }

  function MonthKey(m: int): int
    requires 1 <= m <= 12
  {
    [0, 3, 2, 5, 0, 3, 5, 1, 4, 6, 2, 4][m - 1]
  }

  lemma DayOfWeekSum(d: Date)
    requires 1 <= d.month <= 12
    ensures var late := if d.month < 3 then d.year - 1 else d.year;
            DayOfWeek(d) == (late + Leaps(late) + MonthKey(d.month) + d.day) % 7
  {
  }

  lemma YearCounted(y: int)
    ensures YearStart(y) == 365 * (y - 1970) + Leaps(y - 1) - 477
  {
  }

  /** The whole weeks by which a month's start and its number in the congruence differ. */
  function MonthWeeks(m: int): int
    requires 1 <= m <= 12
  {
    [0, 4, 8, 12, 17, 21, 25, 30, 34, 38, 43, 47][m - 1]
  }

  lemma MonthShift(y: int, m: int)
    requires 1 <= m <= 12
    ensures MonthStart(y, m)
            == MonthKey(m) + 7 * MonthWeeks(m)
               + if m < 3 then 0 else if Leap(y) then 2 else 1
  {
    hide Leap;
  }

  lemma LeapCounted(y: int)
    ensures Leaps(y) == Leaps(y - 1) + if Leap(y) then 1 else 0
  {
    OneMultiple(y, 4);
    OneMultiple(y, 100);
    OneMultiple(y, 400);
  }

  lemma SameRemainder(a: int, b: int, k: int)
    requires a == b + 7 * k
    ensures a % 7 == b % 7
  {
    Quotient(a, 7, b / 7 + k, b % 7);
  }
}

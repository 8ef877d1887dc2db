/** Proleptic Gregorian calendar arithmetic. The working-day calculator leans on
    the JavaScript Date built-ins for the length of a month and the weekday of a
    date; this module gives both as explicit integer functions and relates them
    to a single day count. */
module Calendar {

  /** A month number: January is 1, December is 12. */
  type Month = m: int | 1 <= m <= 12 witness 1

  /** A day of the month as a `YYYY-MM-DD` date writes it: 1 .. 31. */
  type Day = d: int | 1 <= d <= 31 witness 1

  /** The Gregorian leap rule: divisible by 4, except centuries not divisible by 400. */
  predicate IsLeapYear(y: int) {
    y % 4 == 0 && (y % 100 != 0 || y % 400 == 0)
  }

  /** The last day of month m of year y, which is what `new Date(y, m, 0).getDate()`
      reads (day 0 of the following month). MonthStartsFollow ties it to DayNumber. */
  function DaysInMonth(y: int, m: Month): (n: int)
    ensures 28 <= n <= 31
    ensures m == 2 ==> (n == 29 <==> IsLeapYear(y))
    ensures m != 2 ==> n >= 30
  {
    if m == 2 then (if IsLeapYear(y) then 29 else 28)
    else if m == 4 || m == 6 || m == 9 || m == 11 then 30
    else 31
  }

  /** Leap days in the years 1 .. y, counted with floor division so that the
      count also runs backwards through year 0 and negative years. */
  function LeapDaysThrough(y: int): int {
    y / 4 - y / 100 + y / 400
  }

  /** Days from 0001-01-01 to January 1 of year y. */
  function DaysBeforeYear(y: int): int {
    365 * (y - 1) + LeapDaysThrough(y - 1)
  }

  /** Days from January 1 to the first of month m in year y. */
  function DaysBeforeMonth(y: int, m: Month): nat {
    [0, 31, 59, 90, 120, 151, 181, 212, 243, 273, 304, 334][m - 1]
      + (if m > 2 && IsLeapYear(y) then 1 else 0)
  }

  /** The day number of (y, m, d), 0 for 0001-01-01. A day past the end of the
      month counts on into the following month, as the Date constructor does. */
  function DayNumber(y: int, m: Month, d: int): int {
    DaysBeforeYear(y) + DaysBeforeMonth(y, m) + d - 1
  }

  /** Sakamoto's weekday formula: 0 = Sunday, 1 = Monday, .., 6 = Saturday,
      the numbering of `Date.prototype.getDay`. */
  function DayOfWeek(y: int, m: Month, d: int): (w: int)
    ensures 0 <= w < 7
  {
    var yy := if m < 3 then y - 1 else y;
    (yy + LeapDaysThrough(yy) + [0, 3, 2, 5, 0, 3, 5, 1, 4, 6, 2, 4][m - 1] + d) % 7
  }

  /** A real calendar date: the day lies inside its month. */
  predicate IsValidDate(y: int, m: Month, d: int) {
    1 <= d <= DaysInMonth(y, m)
  }

  /** Strict calendar order on (year, month, day) triples. */
  predicate DateBefore(y1: int, m1: Month, d1: int, y2: int, m2: Month, d2: int) {
    y1 < y2 || (y1 == y2 && (m1 < m2 || (m1 == m2 && d1 < d2)))
  }

  lemma DivStep(y: int)
    ensures y / 4 - (y - 1) / 4 == if y % 4 == 0 then 1 else 0
    ensures y / 100 - (y - 1) / 100 == if y % 100 == 0 then 1 else 0
    ensures y / 400 - (y - 1) / 400 == if y % 400 == 0 then 1 else 0
  {
  }

  /** Going from year y - 1 to year y adds a leap day exactly when y is a leap year. */
  lemma LeapDayStep(y: int)
    ensures LeapDaysThrough(y) - LeapDaysThrough(y - 1) == if IsLeapYear(y) then 1 else 0
  {
    DivStep(y);
  }

  /** A year has 366 days exactly when it is a leap year, 365 otherwise. */
  lemma YearLength(y: int)
    ensures DaysBeforeYear(y + 1) - DaysBeforeYear(y) == if IsLeapYear(y) then 366 else 365
  {
    LeapDayStep(y);
  }

  /** The first of the next month comes DaysInMonth(y, m) days after the first of
      month m; equivalently the last day of the month is day 0 of the next one,
      which is how the calculator obtains the month length. */
  lemma MonthStartsFollow(y: int, m: Month)
    ensures m < 12 ==> DayNumber(y, m + 1, 1) == DayNumber(y, m, 1) + DaysInMonth(y, m)
    ensures m == 12 ==> DayNumber(y + 1, 1, 1) == DayNumber(y, 12, 1) + DaysInMonth(y, 12)
  {
    if m == 12 {
      YearLength(y);
    }
  }

  /** Sakamoto's formula agrees with the day count: 0001-01-01 (day 0) was a Monday
      and the weekday advances by one every day. */
  lemma DayOfWeekFromDayNumber(y: int, m: Month, d: int)
    ensures DayOfWeek(y, m, d) == (DayNumber(y, m, d) + 1) % 7
  {
    var yy := if m < 3 then y - 1 else y;
    var t := [0, 3, 2, 5, 0, 3, 5, 1, 4, 6, 2, 4][m - 1];
    var cum := [0, 31, 59, 90, 120, 151, 181, 212, 243, 273, 304, 334][m - 1];
    // whole weeks between the two counts, beyond 52 a year
    var k := [0, 4, 8, 12, 17, 21, 25, 30, 34, 38, 43, 47][m - 1];
    var base := yy + LeapDaysThrough(yy) + t + d;
    assert DayOfWeek(y, m, d) == base % 7;
    assert DaysBeforeMonth(y, m) == cum + (if m > 2 && IsLeapYear(y) then 1 else 0);
    LeapDayStep(y);
    if m < 3 {
      assert cum - t == 7 * k;
    } else {
      assert cum - 1 - t == 7 * k;
    }
    assert DayNumber(y, m, d) + 1 == base + 7 * (52 * (y - 1) + k);
    ShiftByWeeks(base, 52 * (y - 1) + k);
  }

  lemma ShiftByWeeks(a: int, k: int)
    ensures (a + 7 * k) % 7 == a % 7
  {
  }

  /** The weekday runs on without a gap from the last day of a month to the
      first of the next one, December to January included. */
  lemma DayOfWeekRollsOver(y: int, m: Month)
    ensures m < 12 ==> DayOfWeek(y, m + 1, 1) == (DayOfWeek(y, m, DaysInMonth(y, m)) + 1) % 7
    ensures m == 12 ==> DayOfWeek(y + 1, 1, 1) == (DayOfWeek(y, 12, 31) + 1) % 7
  {
    var last := DaysInMonth(y, m);
    var n := DayNumber(y, m, last);
    MonthStartsFollow(y, m);
    DayOfWeekFromDayNumber(y, m, last);
    ModSucc(n + 1);
    if m < 12 {
      DayOfWeekFromDayNumber(y, m + 1, 1);
      assert DayNumber(y, m + 1, 1) == n + 1;
    } else {
      DayOfWeekFromDayNumber(y + 1, 1, 1);
      assert DayNumber(y + 1, 1, 1) == n + 1;
    }
  }

  lemma ModSucc(a: int)
    ensures (a % 7 + 1) % 7 == (a + 1) % 7
  {
  }

  /** Within a month the weekday of day d + i is i days on from that of day d. */
  lemma DayOfWeekShift(y: int, m: Month, d: int, i: int)
    ensures DayOfWeek(y, m, d + i) == (DayOfWeek(y, m, d) + i) % 7
  {
  }

  /** Within a year each month starts after the whole of every earlier month. */
  lemma MonthStartsIncrease(y: int, m1: Month, m2: Month)
    requires m1 < m2
    ensures DaysBeforeMonth(y, m1) + DaysInMonth(y, m1) <= DaysBeforeMonth(y, m2)
  {
  }

  lemma {:induction false} YearStartsIncrease(y1: int, y2: int)
    requires y1 < y2
    ensures DaysBeforeYear(y1 + 1) <= DaysBeforeYear(y2)
    decreases y2 - y1
  {
    if y1 + 1 < y2 {
      YearStartsIncrease(y1 + 1, y2);
      YearLength(y1 + 1);
    }
  }

  lemma DayNumberIncreasing(y1: int, m1: Month, d1: int, y2: int, m2: Month, d2: int)
    requires IsValidDate(y1, m1, d1) && IsValidDate(y2, m2, d2)
    requires DateBefore(y1, m1, d1, y2, m2, d2)
    ensures DayNumber(y1, m1, d1) < DayNumber(y2, m2, d2)
  {
    if y1 < y2 {
      YearLength(y1);
      if m1 < 12 {
        MonthStartsIncrease(y1, m1, 12);
      }
      if y1 + 1 < y2 {
        YearStartsIncrease(y1, y2);
      }
    } else if m1 < m2 {
      MonthStartsIncrease(y1, m1, m2);
    }
  }

  /** On real dates the day number orders exactly as the calendar does, so
      comparing day numbers (or timestamps) sorts dates chronologically. */
  lemma DayNumberOrdersDates(y1: int, m1: Month, d1: int, y2: int, m2: Month, d2: int)
    requires IsValidDate(y1, m1, d1) && IsValidDate(y2, m2, d2)
    ensures DateBefore(y1, m1, d1, y2, m2, d2) <==> DayNumber(y1, m1, d1) < DayNumber(y2, m2, d2)
  {
    if DateBefore(y1, m1, d1, y2, m2, d2) {
      DayNumberIncreasing(y1, m1, d1, y2, m2, d2);
    } else if DateBefore(y2, m2, d2, y1, m1, d1) {
      DayNumberIncreasing(y2, m2, d2, y1, m1, d1);
    }
  }
}

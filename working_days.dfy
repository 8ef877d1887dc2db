/** `calculateWorkingDays`: the weekdays of a month, less the national holidays
    that fall on a weekday. */
module WorkingDays {
  import opened Calendar
  import opened Holidays

  /** The object the calculator returns. */
  datatype WorkingDaysResult = WorkingDaysResult(totalWorkingDays: int, nationalHolidays: nat)

  /** The number of days among 1 .. n of month m in year y whose weekday is
      neither Sunday (0) nor Saturday (6). */
  function WeekdaysUpTo(y: int, m: Month, n: nat): (count: nat)
    ensures count <= n
  {
    if n == 0 then 0
    else
      WeekdaysUpTo(y, m, n - 1) + WeekdayIndicator(DayOfWeek(y, m, n))
  }

  /** The running count is the number of days among 1 .. n that are not on a
      weekend, each counted once. */
  lemma {:induction false} WeekdaysUpToCountsDays(y: int, m: Month, n: nat)
    ensures WeekdaysUpTo(y, m, n) == |WeekdaysAmong(y, m, n)|
  {
    if n == 0 {
      assert WeekdaysAmong(y, m, 0) == {};
    } else {
      WeekdaysUpToCountsDays(y, m, n - 1);
      var before := WeekdaysAmong(y, m, n - 1);
      assert n !in before;
      assert WeekdaysAmong(y, m, n) == before + (if WeekdayIndicator(DayOfWeek(y, m, n)) == 1 then {n} else {});
    }
  }

  /** The days among 1 .. n whose weekday is neither Sunday nor Saturday. */
  ghost function WeekdaysAmong(y: int, m: Month, n: nat): set<int> {
    set day | 1 <= day <= n && DayOfWeek(y, m, day) != 0 && DayOfWeek(y, m, day) != 6
  }

  /** 1 for a weekday number other than Sunday (0) and Saturday (6), else 0. */
  function WeekdayIndicator(dayOfWeek: int): nat {
    if dayOfWeek != 0 && dayOfWeek != 6 then 1 else 0
  }

  lemma SevenWeekdays(w: int)
    requires 0 <= w < 7
    ensures WeekdayIndicator(w) + WeekdayIndicator((w + 1) % 7) + WeekdayIndicator((w + 2) % 7)
          + WeekdayIndicator((w + 3) % 7) + WeekdayIndicator((w + 4) % 7)
          + WeekdayIndicator((w + 5) % 7) + WeekdayIndicator((w + 6) % 7) == 5
  {
  }

  /** Monday-to-Friday days in the month: the number of its days whose
      weekday is neither Sunday nor Saturday. */
  function WeekdayCount(y: int, m: Month): (count: nat)
    ensures count <= DaysInMonth(y, m)
  {
    WeekdaysUpTo(y, m, DaysInMonth(y, m))
  }

  /** Counting the weekdays of the month with a mutable counter, then
      subtracting the national holidays on weekdays. The result is not clamped. */
  method CalculateWorkingDays(month: Month, year: int, holidaysData: seq<Holiday>)
    returns (result: WorkingDaysResult)
    ensures result.nationalHolidays == |NationalWeekdayHolidays(holidaysData)|
    ensures result.totalWorkingDays + result.nationalHolidays == WeekdayCount(year, month)
    ensures 20 <= result.totalWorkingDays + result.nationalHolidays <= 23
    ensures holidaysData == [] ==> result.totalWorkingDays == WeekdayCount(year, month)
  {
    var totalDaysInMonth := DaysInMonth(year, month);
    var workingDays := 0;
    var day := 1;
    while day <= totalDaysInMonth
      invariant 1 <= day <= totalDaysInMonth + 1
      invariant workingDays == WeekdaysUpTo(year, month, day - 1)
    {
      var dayOfWeek := DayOfWeek(year, month, day);
      if dayOfWeek != 0 && dayOfWeek != 6 {
        workingDays := workingDays + 1;
      }
      day := day + 1;
    }
    var nationalHolidaysOnWeekdays := |NationalWeekdayHolidays(holidaysData)|;
    WeekdayCountBounds(year, month);
    result := WorkingDaysResult(workingDays - nationalHolidaysOnWeekdays, nationalHolidaysOnWeekdays);
  }

  /** The weekdays among days n + 1 .. n + k depend only on the weekday of day
      n + 1: the weekday advances by one each day. */
  lemma {:induction false} WeekdaysRun(y: int, m: Month, n: nat, k: nat)
    ensures WeekdaysUpTo(y, m, n + k) == WeekdaysUpTo(y, m, n) + WeekSum(DayOfWeek(y, m, n + 1), k)
  {
    if k > 0 {
      WeekdaysRun(y, m, n, k - 1);
      DayOfWeekShift(y, m, n + 1, k - 1);
    }
  }

  /** The weekdays among k consecutive days starting on weekday w. */
  function WeekSum(w: int, k: nat): nat {
    if k == 0 then 0 else WeekSum(w, k - 1) + WeekdayIndicator((w + k - 1) % 7)
  }

  /** Any seven consecutive days of the month hold exactly five weekdays. */
  lemma WeekWindow(y: int, m: Month, n: nat)
    ensures WeekdaysUpTo(y, m, n + 7) == WeekdaysUpTo(y, m, n) + 5
  {
    WeekdaysRun(y, m, n, 7);
    WeekOfFive(DayOfWeek(y, m, n + 1));
  }

  /** Seven consecutive days starting on any weekday hold five weekdays. */
  lemma WeekOfFive(w: int)
    requires 0 <= w < 7
    ensures WeekSum(w, 7) == 5
  {
    assert WeekSum(w, 7) == WeekdayIndicator(w % 7) + WeekdayIndicator((w + 1) % 7) + WeekdayIndicator((w + 2) % 7)
      + WeekdayIndicator((w + 3) % 7) + WeekdayIndicator((w + 4) % 7)
      + WeekdayIndicator((w + 5) % 7) + WeekdayIndicator((w + 6) % 7) by {
      assert WeekSum(w, 1) == WeekdayIndicator(w % 7);
      assert WeekSum(w, 3) == WeekSum(w, 1) + WeekdayIndicator((w + 1) % 7) + WeekdayIndicator((w + 2) % 7);
      assert WeekSum(w, 5) == WeekSum(w, 3) + WeekdayIndicator((w + 3) % 7) + WeekdayIndicator((w + 4) % 7);
      assert WeekSum(w, 7) == WeekSum(w, 5) + WeekdayIndicator((w + 5) % 7) + WeekdayIndicator((w + 6) % 7);
    }
    SevenWeekdays(w);
  }

  /** A month has 20 weekdays in its first four weeks plus those among the days
      after the 28th. */
  lemma WeekdaysPast28(y: int, m: Month)
    ensures WeekdayCount(y, m) == 20 + WeekSum(DayOfWeek(y, m, 29), DaysInMonth(y, m) - 28)
  {
    WeekWindow(y, m, 0);
    WeekWindow(y, m, 7);
    WeekWindow(y, m, 14);
    WeekWindow(y, m, 21);
    WeekdaysRun(y, m, 28, DaysInMonth(y, m) - 28);
  }

  /** Each further day adds at most one weekday. */
  lemma {:induction false} WeekdaysUpToGrowth(y: int, m: Month, n: nat, k: nat)
    ensures WeekdaysUpTo(y, m, n) <= WeekdaysUpTo(y, m, n + k) <= WeekdaysUpTo(y, m, n) + k
  {
    if k > 0 {
      WeekdaysUpToGrowth(y, m, n, k - 1);
    }
  }

  /** Every month has between 20 and 23 weekdays, and never more than its days:
      four full weeks give 20, and the 0 to 3 days past the 28th add at most 3. */
  lemma WeekdayCountBounds(y: int, m: Month)
    ensures 20 <= WeekdayCount(y, m) <= 20 + DaysInMonth(y, m) - 28 <= 23
  {
    WeekdaysPast28(y, m);
    WeekdaysUpToGrowth(y, m, 28, DaysInMonth(y, m) - 28);
  }

  /** The weekdays of a month are its four full weeks plus those of the days
      past the 28th, so leap-year February has one more weekday than a common
      February exactly when its 29th falls on a weekday. */
  lemma FebruaryWeekdays(y: int)
    ensures WeekdayCount(y, 2) == 20 + (if IsLeapYear(y) && DayOfWeek(y, 2, 29) != 0 && DayOfWeek(y, 2, 29) != 6 then 1 else 0)
  {
    WeekdaysPast28(y, 2);
  }

  // Worked examples. January 1, 2024 was a Monday.

  lemma January2024()
    ensures WeekdayCount(2024, 1) == 23
  {
    assert DayOfWeek(2024, 1, 29) == 1 && DaysInMonth(2024, 1) == 31;
    WeekdaysPast28(2024, 1);
  }

  lemma FebruaryLeapAndCommon()
    ensures WeekdayCount(2024, 2) == 21
    ensures WeekdayCount(2023, 2) == 20
  {
    assert DayOfWeek(2024, 2, 29) == 4 && DaysInMonth(2024, 2) == 29;
    WeekdaysPast28(2024, 2);
    assert DaysInMonth(2023, 2) == 28;
    WeekdaysPast28(2023, 2);
  }

  /** A national holiday on a Saturday (August 17, 2024) is not subtracted. */
  lemma WeekendHolidayNotSubtracted()
    ensures NationalWeekdayHolidays([Holiday(2024, 8, 17, "Hari Proklamasi Kemerdekaan", true)]) == []
    ensures WeekdayCount(2024, 8) == 22
  {
    assert DayOfWeek(2024, 8, 17) == 6;
    assert DayOfWeek(2024, 8, 29) == 4 && DaysInMonth(2024, 8) == 31;
    WeekdaysPast28(2024, 8);
  }

  /** A national holiday on a Wednesday (December 25, 2024) is subtracted once. */
  lemma WeekdayHolidaySubtracted()
    ensures |NationalWeekdayHolidays([Holiday(2024, 12, 25, "Hari Raya Natal", true)])| == 1
    ensures WeekdayCount(2024, 12) == 22
  {
    var h := Holiday(2024, 12, 25, "Hari Raya Natal", true);
    assert DayOfWeek(2024, 12, 25) == 3;
    assert IsNationalWeekday(h);
    assert [h][1..] == [];
    WeekdaysDecember2024();
  }

  lemma WeekdaysDecember2024()
    ensures WeekdayCount(2024, 12) == 22
  {
    assert DayOfWeek(2024, 12, 29) == 0 && DaysInMonth(2024, 12) == 31;
    WeekdaysPast28(2024, 12);
  }

  /** Records are neither checked against the requested month nor deduplicated,
      and the difference is not clamped: thirty copies of a weekday holiday
      drive February 2024 below zero. */
  lemma ResultNotClamped()
    ensures WeekdayCount(2024, 2) - |NationalWeekdayHolidays(Copies(Holiday(2024, 12, 25, "Hari Raya Natal", true), 30))| < 0
  {
    var h := Holiday(2024, 12, 25, "Hari Raya Natal", true);
    assert DayOfWeek(2024, 12, 25) == 3;
    assert IsNationalWeekday(h);
    FebruaryLeapAndCommon();
    DuplicatesCounted(h, 30);
  }
}

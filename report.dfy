/** The data path of the form's submit handler and `displayResult`, without the
    page: the month name is turned into a number, the working days are
    counted, and the heading and the holiday list are assembled. */
module Report {
  import opened Holidays
  import opened WorkingDays
  import opened MonthNames

  /** What the result area shows: the heading's month and year and working-day
      total, and the national weekday holidays listed beneath it (the list is
      replaced by a "no holidays" line when it is empty). */
  datatype Display = Display(
    indonesianMonth: string,
    year: int,
    totalWorkingDays: int,
    weekdayHolidays: seq<Holiday>)

  /** The submit handler for a month name the form offers, after the holiday
      records have arrived. The heading names the month the count was made
      for, and the total and the listed holidays add up to the weekdays of
      that month. */
  method SubmitCalculation(monthName: string, year: int, holidaysData: seq<Holiday>)
    returns (shown: Display)
    requires MonthNameToNumber(monthName) >= 1
    ensures shown.indonesianMonth == INDONESIAN_NAMES[MonthNameToNumber(monthName) - 1]
    ensures shown.year == year
    ensures shown.totalWorkingDays + |shown.weekdayHolidays| == WeekdayCount(year, MonthNameToNumber(monthName))
    ensures SortedByDate(shown.weekdayHolidays)
    ensures multiset(shown.weekdayHolidays) == multiset(NationalWeekdayHolidays(holidaysData))
    ensures forall k :: OnDate(shown.weekdayHolidays, k) == OnDate(NationalWeekdayHolidays(holidaysData), k)
  {
    var monthNumber := MonthNameToNumber(monthName);
    var result := CalculateWorkingDays(monthNumber, year, holidaysData);
    var indonesianMonth := IndonesianMonthName(TitleCaseWord(monthName));
    HeadingMatchesMonthNumber(monthName);
    var nationalHolidays := WeekdayHolidayList(holidaysData);
    shown := Display(indonesianMonth, year, result.totalWorkingDays, nationalHolidays);
  }
}

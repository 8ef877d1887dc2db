# Working-day calculator (kalkulatorHariKerja) in Dafny

The application takes a month name and a year and counts the working days of
that month. It counts the days whose weekday is not Saturday or Sunday, then
subtracts the holiday records that are flagged national and fall on a weekday.
It then shows the total with an Indonesian month name, and below it the
subtracted holidays sorted by date.

This project models that logic and proves properties of it:

- `calendar.dfy` (module `Calendar`): the proleptic Gregorian calendar arithmetic that the
  source gets from JavaScript `Date`. This means the month length (`new Date(y, m, 0).getDate()`)
  and the weekday (`getDay()`).
  - Everything is measured against one day count, `DayNumber`, where day 0 is 0001-01-01.
  - Sakamoto's formula is proved to agree with that count.
- `holidays.dfy` (module `Holidays`): the holiday record and the two copies of the
  "national and on a weekday" filter. It also holds the date sort of the displayed list,
  done as an in-place insertion sort on an array.
- `working_days.dfy` (module `WorkingDays`): `calculateWorkingDays`. The counting loop is a method with
  its invariant. The module also has the bounds on the weekday count and the worked examples.
- `month_names.dfy` (module `MonthNames`): `monthNameToNumber`, `getMonthName` and how the two relate.
  Each lookup is modelled twice:
  - as written, a lookup on a plain JavaScript object;
  - as intended, a lookup over the object's own keys only.
- `date_string.dfy` (module `DateString`): the manual `YYYY-MM-DD` split and `parseInt` parse in
  `formatDateToIndonesian`.
- `report.dfy` (module `Report`): the data path of the submit handler and `displayResult`, without the page.

## Model

| member | source | states |
|---|---|---|
| `Calendar.DaysInMonth` | app.js:82 | The month length is between 28 and 31. February has 29 days exactly in leap years (divisible by 4, except centuries not divisible by 400). Every other month has at least 30. |
| `Calendar.MonthStartsFollow` | app.js:82 | The first day of the next month comes exactly `DaysInMonth` days after the first of this month. So the month's last day is "day 0" of the next month, which is how the source reads the length. December runs into January of the next year. |
| `Calendar.YearLength` | app.js:82 | A year has 366 days when it is a leap year and 365 otherwise. |
| `Calendar.DayOfWeek` | app.js:86-87 | The weekday of (y, m, d), as `getDay()` gives it here and at line 96, is a number from 0 (Sunday) to 6 (Saturday). `DayOfWeekFromDayNumber` ties it to the day count. |
| `Calendar.DayOfWeekFromDayNumber` | app.js:86-87 | Sakamoto's weekday (0 = Sunday .. 6 = Saturday) equals the day count plus one, modulo 7. This means 0001-01-01 was a Monday and the weekday advances by exactly one each day. |
| `Calendar.DayOfWeekRollsOver` | app.js:85-87 | The weekday of the first day of a month is one after the weekday of the last day of the previous month. This also holds from December to January. |
| `Calendar.DayOfWeekShift` | app.js:85-87 | Within a month, day d + i falls i weekdays after day d. |
| `Calendar.DayNumberOrdersDates` | app.js:140 | For real dates, one date is earlier in the calendar exactly when its day number is smaller. So comparing timestamps orders dates chronologically. |
| `Holidays.IsWeekend` | app.js:162-165 | `isWeekend` holds exactly on the days whose day number is 5 (Saturday) or 6 (Sunday) modulo 7. |
| `Holidays.IsNationalWeekday` | app.js:95-97 | The counting test (national, weekday neither 0 nor 6) holds exactly when the record is national and `isWeekend` does not hold of its date. This is the test the display filter writes. |
| `Holidays.NationalWeekdayHolidays` | app.js:94-98 | The filtered list is never longer than its input. |
| `Holidays.FilterCounts` | app.js:94-98 | The filter keeps each record that is national and whose own weekday is not 0 or 6, as many times as the input holds it, and keeps nothing else. |
| `Holidays.DisplayedHolidays` | app.js:128-130 | The display filter's list is never longer than its input. |
| `Holidays.DisplayFilterCounts` | app.js:128-130 | The display filter keeps each national record whose date is not on a weekend, as many times as the input holds it, and keeps nothing else. |
| `Holidays.FiltersAgree` | app.js:128-130 | The display filter written with `isWeekend` selects the same records, in the same order, as the counting filter. So the list shown has `result.nationalHolidays` entries. |
| `Holidays.FilterAppend` | app.js:94-98 | The filter distributes over concatenation, because each record is judged on its own. |
| `Holidays.RecordEffect` | app.js:94-98 | Inserting one record anywhere adds one to the count if it is a national weekday holiday, duplicates included. Otherwise, for a non-national or weekend-dated record, the selection stays the same. |
| `Holidays.FilterCopies` | app.js:94-98 | n copies of one record pass the filter all together or not at all. |
| `Holidays.DuplicatesCounted` | app.js:94-98 | n identical national weekday records count n times, because nothing is deduplicated. |
| `Holidays.DateKeyOrder` | app.js:140 | The comparator `new Date(a.holiday_date) - new Date(b.holiday_date)` is the difference of the sort keys `DateKey`, the records' day numbers, times the length of a day. For records with real dates it is negative exactly when the first date is earlier, and zero exactly when both records have the same date. |
| `Holidays.StableSort` | app.js:139-140 | The order the stable `Array.prototype.sort` produces with that comparator. The output has the length of the input, and it is sorted, a permutation and tie-preserving by the three `StableSort*` lemmas. |
| `Holidays.SortByDate` | app.js:139-140 | The in-place sort with the date comparator leaves the array as `StableSort` of its old contents: ordered by date, and a permutation of the input. |
| `Holidays.StableSortSorted` | app.js:139-140 | The output of the stable sort is ordered by date. |
| `Holidays.StableSortPermutes` | app.js:139-140 | The output of the stable sort is a permutation of its input. |
| `Holidays.StableSortKeepsTies` | app.js:139-140 | For every date, the records of that date appear in the output in the same order as in the input, which is what makes `Array.prototype.sort` stable. |
| `Holidays.InsertByDateKeepsTies` | app.js:139-140 | One insertion keeps the records of every date in their order, with the new record after the others of its date. |
| `Holidays.SortedIsChronological` | app.js:139-140 | In a list sorted by the comparator, no record with a real date is preceded by a record with a later date. |
| `Holidays.WeekdayHolidayList` | app.js:127-140 | The displayed list is the stable sort of the counted selection. So it is sorted by date, and records of the same date keep their input order. It is a permutation of the counted selection, and its length is the count. A record appears in it exactly when it is in the input and is a national weekday holiday. |
| `WorkingDays.CalculateWorkingDays` | app.js:81-104 | The loop counts the month's weekdays. `nationalHolidays` is the length of the filter, so records dated in other months still count. `totalWorkingDays + nationalHolidays` is the weekday count, which lies between 20 and 23. With no records the total is the weekday count. The total is not clamped. |
| `WorkingDays.WeekdaysUpTo` | app.js:85-92 | The count of weekdays among the first n days of the month, which the loop builds. It is at most n. |
| `WorkingDays.WeekdaysUpToCountsDays` | app.js:85-92 | The count equals the number of distinct days among 1 .. n whose weekday is neither Sunday nor Saturday. |
| `WorkingDays.WeekdayCount` | app.js:82-92 | The weekday count of the whole month, which the loop is proved to compute. It is at most the month's length. `WeekdayCountBounds` gives its range. |
| `WorkingDays.WeekdaysRun` | app.js:85-92 | The weekdays among days n+1 .. n+k depend only on the weekday of day n+1. |
| `WorkingDays.WeekWindow` | app.js:85-92 | Any seven consecutive days of a month hold exactly five weekdays. |
| `WorkingDays.WeekdaysUpToGrowth` | app.js:85-92 | Each further day adds zero or one to the running count. |
| `WorkingDays.WeekdayCountBounds` | app.js:85-92 | Every month has at least 20 and at most 20 + (its length − 28) weekdays, and so at most 23. |
| `WorkingDays.WeekdaysPast28` | app.js:85-92 | A month's weekdays are 20 for its first four weeks, plus those among the days after the 28th. |
| `WorkingDays.FebruaryWeekdays` | app.js:82-92 | February has 20 weekdays, plus one in a leap year whose 29th falls on a weekday. |
| `WorkingDays.January2024` | app.js:81-92 | January 2024 has 23 weekdays. |
| `WorkingDays.FebruaryLeapAndCommon` | app.js:82-92 | February 2024 (leap year) has 21 weekdays. February 2023 has 20. |
| `WorkingDays.WeekendHolidayNotSubtracted` | app.js:94-103 | A national holiday on Saturday 2024-08-17 is not subtracted. August 2024 has 22 weekdays. |
| `WorkingDays.WeekdayHolidaySubtracted` | app.js:94-103 | A national holiday on Wednesday 2024-12-25 is subtracted once. December 2024 has 22 weekdays, so 21 working days remain. |
| `WorkingDays.ResultNotClamped` | app.js:100-103 | Thirty copies of a December record drive February 2024's total below zero. Records are not checked against the month, not deduplicated and not clamped. |
| `MonthNames.MonthNameToNumber` | app.js:172-179 | The result is between 0 and 12. A result k ≥ 1 means the lower-cased name is the k-th month name, and 0 means it is none of them. |
| `MonthNames.MonthNumberOfName` | app.js:172-179 | A name gives month k exactly when, lower-cased, it is the k-th English month name, in either direction. So any letter case works. |
| `MonthNames.IndonesianMonthName` | app.js:216-223 | The k-th Title-case English name gives the k-th Indonesian name. Any other input comes back unchanged. |
| `MonthNames.HeadingMatchesMonthNumber` | app.js:119 | The heading's month, `getMonthName(toTitleCase(name))`, is the Indonesian name of the very month whose number `monthNameToNumber(name)` gave. |
| `MonthNames.TitleCaseWord` | app.js:186-188 | `toTitleCase` on one word that starts with an ASCII letter keeps its length and changes only letter case. No letter after the first is upper case, and the first is not lower case. |
| `MonthNames.MonthNameToNumberAsWritten` | app.js:172-179 | As written, the lookup gives a number in 0..12 or an inherited member, and it gives an inherited member only for a name whose lower-case form is an inherited key. |
| `MonthNames.GetMonthNameAsWritten` | app.js:216-223 | As written, the lookup gives a string or an inherited member, and it gives an inherited member only for a name that is an inherited key. |
| `MonthNames.MonthNumberEscapesRange` | app.js:178 | As written, "Constructor" is answered with the inherited `Object` constructor, not with a number in 0..12. |
| `MonthNames.MonthNameEscapesFallback` | app.js:222 | As written, "__proto__", which `toTitleCase` leaves unchanged on its way from app.js:119, is answered with the inherited `Object.prototype`, not with the input. |
| `MonthNames.MonthNumberAsWrittenAgrees` | app.js:172-179 | For every name whose lower-case form is not an inherited member name, the code as written returns the intended number. |
| `MonthNames.MonthNameAsWrittenAgrees` | app.js:216-223 | For every name that is not an inherited member name, the code as written returns the intended string. |
| `DateString.Split` | app.js:201 | `split('-')` yields at least one piece, and no piece contains '-'. |
| `DateString.JoinSplit` | app.js:201 | Joining the pieces of a split with '-' gives back the original string. |
| `DateString.SplitJoin` | app.js:201 | Splitting the join of '-'-free pieces gives back those pieces. |
| `DateString.DigitRun` | app.js:202-204 | The leading digit run has only digits and stops at the first non-digit. |
| `DateString.ParseInt` | app.js:202-204 | `parseInt(.., 10)` is NaN on a string that does not start with a sign or a digit. It is a non-negative number when the string starts with a digit. Only a leading '-' gives a negative number, and a leading '-' never gives a positive one. |
| `DateString.ParseIsoDate` | app.js:201-204 | A date comes out exactly when there are at least three '-'-separated parts and the first three each parse. The year and day handed on are the first and third parts as parsed, and the month is one less than the month written. |
| `DateString.ParseIntOfDigits` | app.js:202-204 | `parseInt` reads a zero-padded number back, leading zeros included, and stops at the first non-digit. |
| `DateString.ParseFormattedDate` | app.js:201-204 | A `YYYY-MM-DD` string parses to the year, the month minus one (JavaScript months start at 0) and the day. Trailing text after the day digits that has no '-' and does not start with a digit is ignored. |
| `DateString.MissingPartIsNaN` | app.js:201-204 | A string with fewer than three '-'-separated parts yields no date, because a missing part reads as NaN. |
| `Report.SubmitCalculation` | app.js:21-28 | For a month name from the form, the heading names the month the count was made for. Total plus listed holidays equals that month's weekdays. The list is a sorted permutation of the counted selection, and records of the same date keep their input order. |

## Findings

| source | as written | input that shows it | evidently intended | confidence | as-written member | corrected member |
|---|---|---|---|---|---|---|
| app.js:172-179 | `months[monthName.toLowerCase()] \|\| 0` reads a plain object literal, so keys inherited from `Object.prototype` are found as well | `"Constructor"` (lower-cased `constructor`) gives the `Object` function, and `"__proto__"` gives `Object.prototype`; both are truthy, so the `\|\| 0` fallback is skipped | a month number 1..12, else 0 | high; not executed | `MonthNames.MonthNumberEscapesRange` | `MonthNames.MonthNameToNumber` |
| app.js:216-223 | `months[monthName] \|\| monthName` reads a plain object literal in the same way | `"__proto__"`, which `toTitleCase` leaves unchanged at app.js:119, gives `Object.prototype` instead of the input ("toString" would give the inherited method, but `toTitleCase` turns it into "Tostring" first) | the Indonesian name, else the input unchanged | high; not executed | `MonthNames.MonthNameEscapesFallback` | `MonthNames.IndonesianMonthName` |

`app.js` itself only reads the value of the `month` form field (app.js:21).
The page markup that lists the choices is not part of this model. If that
field offers only the twelve month names, the page never shows either case. `Report.SubmitCalculation` uses the corrected lookups.

## Left out

- The DOM: the event listener, the loading state of the button, the element creation and text templating in
  `displayResult`, and `populateYearDropdown`, which also reads the wall clock. `Report.Display` stands for the shown values.
- `fetchHolidays`: the network request and JSON decoding. Its output appears only as the `seq<Holiday>` input.
- The timezone behaviour of `new Date(holiday.holiday_date).getDay()`. That call parses the string as UTC but reads
  the weekday in local time. Instead, the weekday of a record is computed from its own year, month and day.
- Holiday date strings that the engine reads differently, or not at all. A record's date is typed as month 1..12 and day 1..31.
  Its weekday is computed with a day past the end of its month counted on into the next month. The numeric constructor
  `new Date(year, month - 1, day)` at app.js:86 does this. But records are read through the string form
  `new Date(holiday.holiday_date)` at app.js:95, 129 and 140. For an out-of-range day such as "2024-02-30", that string form
  leaves the result to the engine, which may roll over or give an Invalid Date. The model does not capture an Invalid Date:
  its `getDay()` is NaN, and `NaN !== 0 && NaN !== 6` (app.js:96-97) counts a national record as a weekday holiday.
  Likewise `!isWeekend(..)` (app.js:129) lists it, and the sort comparator returns NaN for it.
- `CalculateWorkingDays` requires a month in 1..12. It does not model the `Date` rollover the source performs when
  `monthNameToNumber` returns 0 (`new Date(year, 0, 0)` is the last day of the previous December). The code has no
  check of its own that rejects an out-of-range month or year, so none is modelled.
- `CalculateWorkingDays`: does not model that the `Date(year, month, day)` constructor reads years 0..99 as 1900..1999,
  nor the range limit of a JavaScript `Date` (a time value within ±8.64e15 ms, about years −271821..275760). Outside that
  range `new Date(year, month, 0)` (app.js:82) is an Invalid Date, `getDate()` is NaN, the loop at app.js:85 never runs,
  and the source returns minus the number of national weekday holidays; the model counts that month's 20..23 weekdays for
  every integer year. The year dropdown only offers the current year and the two years on either side of it.
- `Report.SubmitCalculation`: promises the weekday identity for every integer year, which the source keeps only inside the
  `Date` range described in the line above; the year comes from the same dropdown.
- `toTitleCase` in general, which rewrites text by regular expression with Unicode case mapping. `TitleCaseWord` models it for
  one word that starts with an ASCII letter only, which is the case of a month name. The regular expression starts a
  word at its first word character, so "(may" becomes "(May" and "éclair" becomes "éClair", which `TitleCaseWord` does not do.
- `MonthNameToNumber`: letter case is folded for ASCII letters only. No other character lower-cases to a letter
  that occurs in an English month name, except two. The Kelvin sign (U+212A) becomes 'k', and no month name contains 'k'.
  U+0130 (capital I with dot above) becomes 'i' followed by U+0307, and that combining dot stays in the key.
  So this restriction does not change which names are recognised.
- `DateString.ParseInt`: does not skip leading white space as `parseInt` does.
- `ParseIntOfDigits` and `ParseInt`: `parseInt` returns a double, which rounds integers above 2^53
  (`parseInt("9007199254740993", 10)` is 9007199254740992); the model reads every digit run back exactly. The date
  parse only meets parts of a few digits, far below that bound.
- `toLocaleDateString('id-ID', …)`: locale formatting from the platform. `ParseIsoDate` stops at the arguments handed to `Date.UTC`.

# calendarick: calendar math and date selection, in Dafny

This project models two parts of the calendarick date-picker library:

- **The calendar-math module** used by every picker:
  - month lengths under the Gregorian leap rule;
  - the month grid `getCalendar`, optionally padded with outside days to whole weeks;
  - the week rows of `groupByWeeks`, optionally filled with empty cells and mirrored for right-to-left layout;
  - weekday orderings and indexes, and `rotate` and `take`;
  - date comparisons, and the `[year, month, day]` conversions.
- **The pickers' selection rules**:
  - the range picker's two-click span;
  - the multi-select picker's toggled set;
  - the single picker's day;
  - the popup picker's committed and draft day, with OK and Cancel.

Files and modules:

- `wrappers.dfy` (`Wrappers`): `Option`, `Result` and the one error, `InvalidArgument`.
- `seqs.dfy` (`Seqs`): `take`, `rotate`, reversal and flattening.
- `dates.dfy` (`CalendarDates`): a date is a `(year, month, day)` triple with a validity predicate.
  - The weekday of a date is its day count from 2019-08-04, a Sunday, modulo 7.
  - Weekdays are the ids 0 (Sunday) to 6 (Saturday).
- `weekdays.dfy` (`WeekDays`): `WEEKDAYS`, `orderWeekDays`, `getWeekDayIndex`, `isFirstDayOfWeek`, `isLastDayOfWeek`, `getWeekDays`, `getMonths`.
- `month_grid.dfy` (`MonthGrid`): `getCalendar`.
- `weeks.dfy` (`WeekGrouping`): `groupByWeeks`.
  - The grid is cut before every day on the first day of the week.
  - A cell is `Option<Date>`: `None` is the source's `null`.
- `selection.dfy` (`Selection`): the selection rules, as transition functions on the pickers' values.
- `pickers.dfy` (`Pickers`): one class per picker.
  - Each holds its selection in fields.
  - Its `Click`, `Choose`, `Ok` and `Cancel` methods update the fields and are proved to follow `Selection`.
  - Scenario methods replay the end-to-end tests on fresh pickers.

The implementation file `src/calendar.js` is not part of this model. The calendar functions follow the behaviour that `src/calendar.test.js` asserts. The picker components are not part of this model either. Their rules follow what `examples/reactjs/cypress/integration/calendarik_spec.js` asserts.

Two points where a reader might expect otherwise; the model follows the tests:

- `isLastDayOfWeek` ignores `isRTL`, although right-to-left layout might be expected to swap the ends of the week. Saturday stays the last day of a Sunday-first week right to left (`src/calendar.test.js:287-289`).
- `getCalendar` takes the first day of the week as a parameter. The tests use its default, Sunday.

## Model

| member | source | states |
|---|---|---|
| `CalendarDates.CountDaysInMonth` | src/calendar.test.js:34-41 | month 1..12 gives its length under the leap rule (29-day February exactly in leap years); any other month is an error |
| `CalendarDates.CountDaysInMonthExamples` | src/calendar.test.js:35-41 | January 2019 has 31 days, February 2020 has 29, February 2019 has 28 |
| `CalendarDates.NextDayNumber` | src/calendar.test.js:44 | `getDay()` of the next day is one weekday further round the week, Saturday wrapping to Sunday |
| `CalendarDates.WeekdaySame` | src/calendar.test.js:44 | two dates share a `getDay()` exactly when a whole number of weeks apart |
| `CalendarDates.WeekdayExamples` | src/calendar.test.js:272-294 | 2019-08-04 and 2019-08-25 are Sundays, 2019-08-05 a Monday, 2019-08-31 a Saturday, 2019-10-01 a Tuesday, 2020-02-29 a Saturday |
| `CalendarDates.DaysFrom` | src/calendar.test.js:91-105 | the n successive days from a valid start: n valid days, each the day after the one before, the first the start |
| `CalendarDates.TakeDaysFrom` | src/calendar.test.js:91-105 | `take(n)` of a longer run of days is the n days from the same start |
| `CalendarDates.CompareDates` | src/calendar.test.js:348-366 | -1 exactly when the first date is earlier by year, then month, then day; 1 exactly when later; 0 exactly when equal |
| `CalendarDates.CompareAntisymmetric` | src/calendar.test.js:348-366 | swapping the arguments negates the comparison |
| `CalendarDates.PrecedesTransitive` | src/calendar.test.js:348-366 | the order is transitive |
| `CalendarDates.PrecedesIsEarlier` | src/calendar.test.js:348-366 | on valid dates the lexicographic order is the order of day counts, and equal dates have equal counts |
| `CalendarDates.IsBefore` | src/calendar.test.js:400-420 | strictly earlier; false on equal dates |
| `CalendarDates.IsAfter` | src/calendar.test.js:422-442 | strictly later; false on equal dates |
| `CalendarDates.IsSame` | src/calendar.test.js:482-493 | true exactly on equal dates |
| `CalendarDates.IsBetween` | src/calendar.test.js:444-480 | strictly inside by default, inside or at either end when inclusive; always false when the end precedes the start |
| `CalendarDates.IsBetweenByDayNumber` | src/calendar.test.js:444-480 | on valid dates `isBetween` compares day counts |
| `CalendarDates.MinDate` | src/calendar.test.js:368-376 | an element of the list that no element precedes; empty list is an error |
| `CalendarDates.MaxDate` | src/calendar.test.js:378-386 | an element of the list that precedes no element; empty list is an error |
| `CalendarDates.ComparisonExamples` | src/calendar.test.js:349-441 | the tested results of `compareDates`, `isBefore`, `isAfter` and `isSame` |
| `CalendarDates.IsBetweenExamples` | src/calendar.test.js:445-479 | the tested results of `isBetween`, exclusive, reversed and inclusive |
| `CalendarDates.MinMaxExamples` | src/calendar.test.js:369-385 | the extreme of three days is found in first, middle and last place |
| `CalendarDates.IsToday` | src/calendar.test.js:388-398 | true exactly when the date equals the given current date |
| `CalendarDates.IsOutsideMonth` | src/calendar.test.js:334-346 | true exactly when the month number differs; the year is not compared |
| `CalendarDates.ToArray` | src/calendar.test.js:495-500 | a date becomes the array [year, month, day], with the month 1-based |
| `CalendarDates.FromArray` | src/calendar.test.js:502-506 | an array converts exactly when it holds three numbers naming a real calendar date, and then to that date; anything else is an error |
| `CalendarDates.FromArrayToArray` | src/calendar.test.js:495-506 | `fromArray(toArray(d))` gives back every valid date and rejects an invalid one |
| `CalendarDates.ToArrayFromArray` | src/calendar.test.js:502-506 | an accepted array is exactly `toArray` of its date |
| `CalendarDates.ArrayExamples` | src/calendar.test.js:495-506 | 1 September 2019 converts to [2019, 9, 1] and back; 31 September and a two-element array are errors |
| `Seqs.Take` | src/calendar.test.js:91-105 | `take(n)` returns the first min(n, available) items, as a prefix |
| `Seqs.TakeExamples` | src/calendar.test.js:92-104 | `take(0)` is empty and `take(3)` of 1,2,3,4 is 1,2,3 |
| `Seqs.Rotate` | src/calendar.test.js:244-252 | same length; element i of the result is element (i - n) mod length of the input, so negative n moves left and positive n moves right |
| `Seqs.RotateInverse` | src/calendar.test.js:244-252 | rotating by n and then by -n gives back the input |
| `WeekDays.RotateExamples` | src/calendar.test.js:245-251 | rotating 0..6 by -2 gives 2,3,4,5,6,0,1 and by 2 gives 5,6,0,1,2,3,4 |
| `WeekDays.OrderWeekDays` | src/calendar.test.js:296-320 | seven weekdays starting at the first day of the week, in reverse order right to left |
| `WeekDays.WeekdaysInPlatformOrder` | src/calendar.test.js:296-320 | `WEEKDAYS[i]` is weekday `i` (Sunday 0 to Saturday 6), and a Sunday-first week is `WEEKDAYS` itself |
| `WeekDays.OrderWeekDaysIsRotation` | src/calendar.test.js:296-320 | the order is `WEEKDAYS` rotated left by the first day's number, and the right-to-left order is its reverse |
| `WeekDays.OrderWeekDaysIsPermutation` | src/calendar.test.js:296-320 | each ordering lists all seven weekdays, each once |
| `WeekDays.OrderWeekDaysExamples` | src/calendar.test.js:227-320 | Monday first is Mon..Sun and reversed Sun..Mon; Wednesday first is Wed..Tue; Sunday first right to left is Sat..Sun |
| `WeekDays.GetWeekDayIndex` | src/calendar.test.js:322-332 | the weekday's position 0..6 in the week that starts at the first day |
| `WeekGrouping.WeekPositionIsWeekDayIndex` | src/calendar.test.js:322-332 | the week position that decides where `groupByWeeks` cuts and pads rows is `getWeekDayIndex` of the date's weekday |
| `WeekDays.WeekDayIndexExamples` | src/calendar.test.js:323-331 | Monday is 1 with Sunday first, and Sunday is 6 with Monday first |
| `WeekDays.IsFirstDayOfWeek` | src/calendar.test.js:272-280 | true exactly when the date falls on the first day of the week |
| `WeekDays.IsLastDayOfWeek` | src/calendar.test.js:282-294 | true exactly when the date falls on the weekday before the first day, with or without right-to-left |
| `WeekDays.FirstAndLastDayExamples` | src/calendar.test.js:272-294 | 2019-08-04 opens a Sunday week and 2019-08-05 a Monday week; 2019-08-31 closes a Sunday week, right to left as well; 2019-08-25 closes a Monday week |
| `WeekDays.GetWeekDays` | src/calendar.test.js:227-242 | seven names, the locale's name of each weekday in `orderWeekDays` order |
| `WeekDays.GetMonths` | src/calendar.test.js:254-270 | twelve entries, entry i having order i + 1 and that month's name |
| `MonthGrid.GetCalendar` | src/calendar.test.js:48-89 | month 1..12 gives its grid; any other month is an error |
| `MonthGrid.GridWithoutOutsideDays` | src/calendar.test.js:49-63 | without outside days the grid is day 1 to the last day of the month, successive, none outside the month |
| `MonthGrid.GridWithOutsideDays` | src/calendar.test.js:65-87 | with outside days the grid is successive days over whole weeks. It starts on the first day of the week and ends on the day before it. Fewer than 7 days come before the month, which then follows in full, and exactly the padding is outside the month |
| `MonthGrid.GridIsRunOfDays` | src/calendar.test.js:48-89 | either way the grid is the run of successive days from its first day |
| `MonthGrid.DecemberAndJuly2019WithoutOutsideDays` | src/calendar.test.js:49-63 | December 2019 runs 12-01..12-31 and July 2019 runs 07-01..07-31 |
| `MonthGrid.July2019WithOutsideDays` | src/calendar.test.js:65-71 | July 2019 padded runs 2019-06-30..2019-08-03 |
| `MonthGrid.December2019WithOutsideDays` | src/calendar.test.js:73-79 | December 2019 padded runs 2019-12-01..2020-01-04 |
| `MonthGrid.January2020WithOutsideDays` | src/calendar.test.js:81-87 | January 2020 padded runs 2019-12-29..2020-02-01 |
| `WeekGrouping.SplitWeeks` | src/calendar.test.js:107-122 | the rows joined are the input, in order, and no row is empty |
| `WeekGrouping.SplitRowsAreWeeks` | src/calendar.test.js:107-122 | every row but the first opens on the first day of the week, and no row holds one after its first day |
| `WeekGrouping.SplitWeeksUnique` | src/calendar.test.js:107-122 | any rows with those two properties are the rows of the split |
| `WeekGrouping.GroupByWeeks` | src/calendar.test.js:107-224 | one row of cells per row of the split |
| `WeekGrouping.GroupByWeeksUnpadded` | src/calendar.test.js:108-139 | without filling, a row's cells are its days, reversed right to left |
| `WeekGrouping.GroupByWeeksMirrored` | src/calendar.test.js:124-139 | right to left, every row is the left-to-right row reversed, with the same days |
| `WeekGrouping.GroupByWeeksPadded` | src/calendar.test.js:173-224 | filled with nulls, every row has 7 cells. A cell holds a day exactly in the columns of the row's weekdays, and each day sits in its own weekday's column, mirrored right to left |
| `WeekGrouping.PaddedWeeksFlatten` | src/calendar.test.js:173-198 | filled rows joined are the days with nulls back to the start of the first week and on to the end of the last |
| `WeekGrouping.PaddedWeeksCount` | src/calendar.test.js:173-198 | filled rows have 7 cells each and number (leading nulls + days + trailing nulls) / 7 |
| `WeekGrouping.WholeWeeksGroupIntoFullRows` | src/calendar.test.js:141-171 | days that run from a first day of the week to a last day group into rows of exactly 7 |
| `WeekGrouping.October2019Weeks` | src/calendar.test.js:108-122 | October 2019, Sunday first: 5 rows, the first October 1-5 and the last October 27-31 |
| `WeekGrouping.October2019WeekCells` | src/calendar.test.js:108-122 | as cells: 5 rows, the first of length 5 opening on October 1st, the last of length 5 closing on October 31st |
| `WeekGrouping.October2019WeekCellsRTL` | src/calendar.test.js:124-139 | right to left, October 1st is the last cell of the first row and October 31st the first cell of the last |
| `WeekGrouping.October2019WeeksWithOutsideDays` | src/calendar.test.js:141-155 | padded October 2019 groups into 5 rows of 7 from September 29th to November 2nd |
| `WeekGrouping.October2019CellsWithOutsideDays` | src/calendar.test.js:141-171 | as cells, left to right and right to left: first row opens (or, mirrored, closes) on September 29th and the last row closes (opens) on November 2nd |
| `WeekGrouping.October2019PaddedCells` | src/calendar.test.js:173-198 | filled: null, null, October 1-5; and October 27-31, null, null |
| `WeekGrouping.October2019PaddedCellsRTL` | src/calendar.test.js:200-224 | filled right to left: October 5..1, null, null; and null, null, October 31..27 |
| `Selection.RangeClick` | examples/reactjs/cypress/integration/calendarik_spec.js:226-300 | a disabled day changes nothing; away from a half-chosen range an enabled click sets one endpoint; after one endpoint it forms the span of the two clicked days, earlier first |
| `Selection.RangeFirstClick` | examples/reactjs/cypress/integration/calendarik_spec.js:250-263 | away from a half-chosen range, a click selects the clicked day alone, dropping an earlier span |
| `Selection.RangeTwoClicks` | examples/reactjs/cypress/integration/calendarik_spec.js:227-287 | two clicks select every enabled day from the earlier to the later, both included, in either click order, across disabled days |
| `Selection.RangeOneDay` | examples/reactjs/cypress/integration/calendarik_spec.js:289-299 | two clicks on the same day give the one-day range of exactly that day |
| `Selection.RangeDisabledClick` | examples/reactjs/cypress/integration/calendarik_spec.js:265-271 | a click on a disabled day leaves the value and does not select the day |
| `Selection.MultiClick` | examples/reactjs/cypress/integration/calendarik_spec.js:302-341 | a click toggles an enabled day and changes no other; a disabled day is never added |
| `Selection.MultiClickTwice` | examples/reactjs/cypress/integration/calendarik_spec.js:328-333 | clicking a day twice gives back the selection |
| `Selection.MultiClickKeepsEnabled` | examples/reactjs/cypress/integration/calendarik_spec.js:311-319 | a selection without disabled days never gains one |
| `Selection.MultiClickAddsNoGap` | examples/reactjs/cypress/integration/calendarik_spec.js:303-341 | two clicks add exactly the two days to the initial selection, with no gap filled |
| `Selection.SingleClick` | examples/reactjs/cypress/integration/calendarik_spec.js:116-121 | an enabled day becomes the value; a disabled one is ignored |
| `Selection.PopupChoose` | examples/reactjs/cypress/integration/calendarik_spec.js:373-393 | choosing changes the draft only, unless auto-close commits it at once |
| `Selection.PopupOk` | examples/reactjs/cypress/integration/calendarik_spec.js:383-408 | OK commits the draft, replacing the earlier committed day |
| `Selection.PopupCancel` | examples/reactjs/cypress/integration/calendarik_spec.js:410-434 | Cancel keeps the committed day and resets the draft to it |
| `Selection.OnlyOkCommits` | examples/reactjs/cypress/integration/calendarik_spec.js:383-434 | without auto-close, no run of choices and cancels changes the committed day |
| `Selection.CancelRestores` | examples/reactjs/cypress/integration/calendarik_spec.js:410-434 | Cancel after such a run restores the popup's value |
| `Selection.ChooseThenOk` | examples/reactjs/cypress/integration/calendarik_spec.js:383-408 | choosing a day and pressing OK commits it, whatever was committed before |
| `Pickers.SinglePicker.Click` | examples/reactjs/cypress/integration/calendarik_spec.js:116-121 | the new value is `SingleClick` of the old |
| `Pickers.RangePicker.Click` | examples/reactjs/cypress/integration/calendarik_spec.js:226-300 | the new value is `RangeClick` of the old, and an ordered span stays ordered |
| `Pickers.MultiPicker.Click` | examples/reactjs/cypress/integration/calendarik_spec.js:302-341 | the new set is `MultiClick` of the old |
| `Pickers.PopupPicker.constructor` | examples/reactjs/cypress/integration/calendarik_spec.js:351-355 | committed and draft start as the initial value |
| `Pickers.PopupPicker.Choose` | examples/reactjs/cypress/integration/calendarik_spec.js:373-393 | the new value is `PopupChoose` of the old |
| `Pickers.PopupPicker.Ok` | examples/reactjs/cypress/integration/calendarik_spec.js:383-408 | the new value is `PopupOk` of the old |
| `Pickers.PopupPicker.Cancel` | examples/reactjs/cypress/integration/calendarik_spec.js:410-434 | the new value is `PopupCancel` of the old |
| `Pickers.SingleSelectsDay` | examples/reactjs/cypress/integration/calendarik_spec.js:111-121 | no day is selected at first, and a clicked day is |
| `Pickers.RangeSelectsSpan` | examples/reactjs/cypress/integration/calendarik_spec.js:227-237 | clicking the 1st and the 3rd selects both and the 2nd |
| `Pickers.RangeShowsInitialSpan` | examples/reactjs/cypress/integration/calendarik_spec.js:239-248 | an initial range 1st-3rd shows all three |
| `Pickers.RangeReplacesInitialSpan` | examples/reactjs/cypress/integration/calendarik_spec.js:250-263 | clicking the 3rd and the 5th selects 3rd-5th and drops the 1st and 2nd |
| `Pickers.RangeIgnoresDisabledDay` | examples/reactjs/cypress/integration/calendarik_spec.js:265-271 | with the 3rd disabled, only the 1st ends up selected |
| `Pickers.RangeAcrossDisabledDays` | examples/reactjs/cypress/integration/calendarik_spec.js:273-278 | with enabled ends, the range 1st-4th forms whatever lies between |
| `Pickers.RangeLateThenEarly` | examples/reactjs/cypress/integration/calendarik_spec.js:280-287 | clicking the 3rd before the 1st selects the same span |
| `Pickers.RangeOfOneDay` | examples/reactjs/cypress/integration/calendarik_spec.js:289-299 | the 1st twice is a one-day range; the 2nd and 3rd then replace it |
| `Pickers.MultiSelectsDays` | examples/reactjs/cypress/integration/calendarik_spec.js:303-309 | clicking the 1st and the 3rd selects those and not the 2nd |
| `Pickers.MultiIgnoresDisabledDay` | examples/reactjs/cypress/integration/calendarik_spec.js:311-319 | a disabled day is not selected before or after a click |
| `Pickers.MultiInitialSelection` | examples/reactjs/cypress/integration/calendarik_spec.js:321-341 | an initial 1st and 2nd show; clicking the 1st drops it alone; clicking the 3rd adds it and keeps both |
| `Pickers.PopupAutoClose` | examples/reactjs/cypress/integration/calendarik_spec.js:373-381 | with auto-close a chosen day reaches the input at once |
| `Pickers.PopupChooseThenOk` | examples/reactjs/cypress/integration/calendarik_spec.js:351-393 | the input starts empty and shows a chosen day only after OK |
| `Pickers.PopupOverwrite` | examples/reactjs/cypress/integration/calendarik_spec.js:395-408 | a second confirmed choice overwrites the first |
| `Pickers.PopupCancelFirstChoice` | examples/reactjs/cypress/integration/calendarik_spec.js:410-419 | Cancel after a first choice leaves the input empty |
| `Pickers.PopupCancelRevertsToPrevious` | examples/reactjs/cypress/integration/calendarik_spec.js:421-434 | Cancel after a later choice goes back to the date confirmed before |

## Left out

- `src/calendar.js` is not part of this model. Behaviour comes from the assertions in `src/calendar.test.js`. Where those tests leave a case open (a month outside 1..12, an array that names no date, an empty list for `minDate` or `maxDate`), the model returns an `InvalidArgument` error.
- Locale strings: weekday and month names come from the host's locale formatter. `GetWeekDays` and `GetMonths` take that formatter as a function parameter.
- JavaScript `Date` objects, time of day, time zones and the host's date range: a date is a triple of unbounded integers in the proleptic Gregorian calendar.
- `isToday` reads the system clock; `IsToday` takes the current date as a parameter.
- `take` pulls values lazily from a generator. `Take` works on the finite list of what the generator yields. `DaysFrom` is the bounded form of an endless day sequence.
- The popup's open/closed state, its footer, click-away and the auto-close closing of the popup. Only the committed and draft values are modelled.
- Rendering: CSS classes, colours, hover, month navigation headers and the debug pane. "Selected" is the pickers' `IsSelected` predicate.
- `src/variations/VariationPage.js`: routing, URL query decoding and debug panes are demo plumbing.
- Tests marked `it.skip` or `describe.skip` assert nothing and are not modelled. This covers the popup's range and multi modes.
- `isRTL` passed to `getCalendar` is ignored, as the month grid does not depend on layout direction.

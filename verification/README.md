# Timesheet aggregation and selection state, in Dafny

This project models the logic of a small React/Redux timesheet.

- **Aggregation** (`src/utils.js`):
  - `totalHoursOnSelectedDate` gives the hours of one entry that fall on one calendar day.
  - `entriesForSelectedDate` is the day-membership filter.
  - `dailyHoursFromEntriesInSelectedWeek` builds the seven-day hour summary.
  - `formatHours` splits an hour count into the parts of an `H:MM` text.
- **State** (`src/TimesheetApp.js`):
  - the reducer `timesheetApp`;
  - the submit guard of the new-entry form, which alone decides whether `ADD_ENTRY` is dispatched;
  - the `isDraft` flag of the date selector.
- **Seed**: the initial store contents of `src/initialData.js`, with the clock as a parameter.

Encoding:

- Instants are integer milliseconds since the epoch.
- A day is a fixed 86,400,000 ms. `DayOf(t) = t / 86_400_000` (Euclidean).
- Weeks start on Sunday, as in moment's default `en` locale. Epoch day 0 was a Thursday, so `Weekday(d) = (d + 4) % 7`.
- Hour counts are exact reals: milliseconds / 3,600,000.
- `Math.round(x)` is `(x + 0.5).Floor`.
- String conversion is not modelled. `formatHours` yields an (hours, minutes, padded) triple.

Modules, one per component:

| file | module | source |
|---|---|---|
| `calendar.dfy` | `Calendar` | the moment.js day and week arithmetic the code relies on |
| `entries.dfy` | `Entries` | the entry record |
| `hours.dfy` | `Hours` | `totalHoursOnSelectedDate`, `hoursBetween` |
| `day_filter.dfy` | `DayFilter` | `entriesForSelectedDate` |
| `week_summary.dfy` | `WeekSummary` | `dailyHoursFromEntriesInSelectedWeek` |
| `hours_format.dfy` | `HoursFormat` | `formatHours` |
| `reducer.dfy` | `Reducer` | state shape, actions, `timesheetApp`, `isDraft` |
| `new_entry_form.dfy` | `NewEntryForm` | `String.prototype.trim` and the form's `onSubmit` |
| `session.dfy` | `Session` | the actions the containers dispatch, in sequence |
| `seed.dfy` | `Seed` | `initialData.js` |
| `wrappers.dfy` | `Wrappers` | `Option`, for the form's nullable bounds |

Where the code behaves in ways its names do not suggest, the model follows the code:

- `hoursBetween` does not clamp to zero. An entry's hours on a day it does not touch are negative.
  The week summary avoids them only because it filters first.
- `isSelected` compares exact instants, not calendar days. A selected date with a time of day selects no item.
- `ADD_ENTRY` appends whatever entry it carries. Validation exists only in the form's submit handler.
  The model composes the two as `SubmitForm`.
- The guard checks only that the bounds differ. An entry that ends before it begins is accepted,
  and it contributes negative hours.
- A day's total is a sum over entries. With overlapping entries it can exceed 24 hours.
  Only a single entry's hours are bounded by 24.

## Model

| member | source | states |
|---|---|---|
| Calendar.StartOfDay | src/utils.js:40-41 | `startOf('day')` is a midnight, on the same day, at most one day before the instant |
| Calendar.StartOfWeek | src/utils.js:17 | `startOf('week')` is the midnight of a Sunday, less than seven days before the instant |
| Calendar.WeekStartWithinWeek | src/utils.js:17 | every day of a Sunday-started week has that Sunday as its week start |
| Calendar.DayOfIff | src/utils.js:35 | two instants are on the same day exactly when one lies in the half-open span from the other's midnight to the next midnight |
| Hours.HoursBetween | src/utils.js:46-52 | the signed length of the span in hours; it is non-negative exactly when `from <= to`, with no clamp |
| Hours.HoursBetweenAdditive | src/utils.js:46-52 | spans laid end to end add up |
| Hours.TotalHoursOnSelectedDate | src/utils.js:39-44 | an entry's hours on a day are at most 24, and are non-negative exactly when the entry is well-ordered and touches the day |
| Hours.WithinOneDay | src/utils.js:39-44 | an entry inside one day counts its whole duration on that day |
| Hours.HoursOverDaysPrefix | src/utils.js:39-44 | the per-day hours over an entry's first n days sum to the part of the entry before the n-th following midnight |
| Hours.SplitAcrossDays | src/utils.js:39-44 | the per-day hours over all days an entry touches sum to its duration |
| Hours.AcrossMidnight | src/utils.js:39-44 | an entry crossing one midnight splits into two parts that sum to its duration |
| DayFilter.EntriesForSelectedDate | src/utils.js:33-37 | the result is an order-preserving subsequence, and an entry is in it iff it is stored and begins or ends on the day |
| DayFilter.FilterEmptyIff | src/utils.js:33-37 | the filter is empty iff no stored entry begins or ends on the day |
| DayFilter.FilterAppend | src/utils.js:33-37 | filtering a concatenation concatenates the filtered parts, so the stored order is kept |
| DayFilter.FilterSingleton | src/utils.js:33-37 | a single entry is kept iff it begins or ends on the day |
| DayFilter.FilterIgnoresTimeOfDay | src/utils.js:35 | the filter depends only on the calendar day of the date, not its time |
| WeekSummary.DailyHoursFromEntriesInSelectedWeek | src/utils.js:16-31 | exactly seven items on consecutive midnights starting on a Sunday, the selected date's day among them at its weekday index; each item's hours sum its day's filtered entries, and it is selected iff its midnight is exactly the selected instant |
| WeekSummary.SumHours | src/utils.js:21-23 | the reduce adds at most 24 hours per entry, and is non-negative when every entry is well-ordered and begins or ends on the day |
| WeekSummary.AtMostOneSelected | src/utils.js:28 | no two items are selected |
| WeekSummary.SelectedItemIsItsWeekday | src/utils.js:28 | when the selected date is a midnight, the item at its weekday index is selected, and only that item |
| WeekSummary.NoneSelectedOffMidnight | src/utils.js:28 | a selected date with a time of day selects no item |
| WeekSummary.HoursNonNegativeOnItsDay | src/utils.js:33-52 | a well-ordered entry has non-negative hours on a day it begins or ends on |
| WeekSummary.NegativeOffTheDay | src/utils.js:39-52 | without the filter the hours can be negative: a one-hour entry on day 0 counts -47 hours on day 2 |
| WeekSummary.DailyHoursNonNegative | src/utils.js:21-23 | if all stored entries are well-ordered, every day total is non-negative |
| WeekSummary.ZeroWithoutBoundaryOnDay | src/utils.js:21-23 | a day on which no entry begins or ends totals zero |
| WeekSummary.SumHoursAppend | src/utils.js:21-23 | the reduce over a concatenation is the sum of the two reduces |
| WeekSummary.AddedEntryHours | src/utils.js:21-23 | storing one more entry adds its hours to exactly the days it begins or ends on |
| WeekSummary.SpanningEntryIgnoredInBetween | src/utils.js:19-23 | an entry from Sunday noon to Wednesday noon adds 12 hours to Sunday and Wednesday and nothing to the days in between |
| HoursFormat.Round | src/utils.js:6 | `Math.round` returns the nearest integer, halves rounded up |
| HoursFormat.FormatHours | src/utils.js:3-10 | the hour part is the floor; the minute part is within half a minute of the fraction times 60, in 0..60; a zero is padded iff minutes are below 9 |
| HoursFormat.FormatSixAndAHalf | src/utils.js:3-10 | 6.5 gives 6, 30, unpadded; 0 gives 0, 0, padded |
| HoursFormat.NineMinutesUnpadded | src/utils.js:7 | 6.15 hours gives nine minutes without a leading zero, one character wide |
| HoursFormat.SixtyMinutesNotCarried | src/utils.js:4-7 | 0.995 hours gives hour 0 and minute 60 |
| HoursFormat.FormatHoursCarried | src/utils.js:3-10 | corrected formatting: minutes in 0..59, hours·60 + minutes is the rounded minute count, minutes always two characters wide |
| HoursFormat.CarriedAgreesBelowSixty | src/utils.js:3-10 | below 60 minutes the corrected formatting has the same hour and minute parts; the padding differs only at exactly 9 minutes |
| Reducer.WithField | src/TimesheetApp.js:300-306 | editing one form field leaves the other two fields as they were |
| Reducer.TimesheetApp | src/TimesheetApp.js:284-321 | only the date actions move the dates; entries are append-only and grow only on `ADD_ENTRY`; only the form actions touch the form draft |
| Reducer.SelectDateEffect | src/TimesheetApp.js:286-290 | `SELECT_DATE` sets the date and the draft, leaves the selector out of draft mode, and keeps entries and the form |
| Reducer.IsDraft | src/TimesheetApp.js:227 | the selector is in draft mode exactly when pressing Select (`SELECT_DATE_DRAFT`) would change the state |
| Reducer.ChangeDateDraftEffect | src/TimesheetApp.js:291-294 | `CHANGE_DATE_DRAFT` moves only the draft; draft mode is on iff the draft differs from the committed date |
| Reducer.SelectDateDraftCommits | src/TimesheetApp.js:295-299 | `SELECT_DATE_DRAFT` commits the draft, ends draft mode, changes nothing else and is idempotent |
| Reducer.ChangeThenCommitIsSelect | src/TimesheetApp.js:286-299 | `CHANGE_DATE_DRAFT(x)` then `SELECT_DATE_DRAFT` is the same as `SELECT_DATE(x)` |
| Reducer.UpdateFieldEffect | src/TimesheetApp.js:300-306 | a field edit changes only that field; the last edit of a field wins; edits of different fields commute |
| Reducer.AddEntryEffect | src/TimesheetApp.js:307-317 | `ADD_ENTRY` appends its entry, clears the draft name and keeps the draft bounds and dates |
| Reducer.OtherActionIsIdentity | src/TimesheetApp.js:318-319 | an action of a type the reducer does not handle returns the state unchanged |
| NewEntryForm.TrimStart | src/TimesheetApp.js:136 | the result is a suffix that drops only whitespace and starts with a non-whitespace character |
| NewEntryForm.TrimEnd | src/TimesheetApp.js:136 | the result is a prefix that drops only whitespace and ends with a non-whitespace character |
| NewEntryForm.Trim | src/TimesheetApp.js:136 | the trimmed name is empty iff the name has no non-whitespace character |
| NewEntryForm.Submit | src/TimesheetApp.js:133-148 | `ADD_ENTRY` is dispatched iff the name has a visible character, both bounds are set and the bounds differ; it carries the untrimmed name and the bounds |
| NewEntryForm.SubmitForm | src/TimesheetApp.js:130-148 | a rejected submit leaves the state unchanged; an accepted one appends one valid entry built from the form, clears the name and keeps the bounds and dates |
| NewEntryForm.BlankNameRejected | src/TimesheetApp.js:135-142 | a whitespace-only name leaves the state unchanged |
| NewEntryForm.ReversedBoundsAccepted | src/TimesheetApp.js:144-148 | an entry ending before it begins passes the guard and is stored |
| Session.Step | src/TimesheetApp.js:203-267 | one interface action never drops or reorders stored entries, and any entry it adds is valid |
| Session.RunPreservesValidEntries | src/TimesheetApp.js:133-148 | over any sequence of interface actions, stored entries stay valid |
| Session.RunAppendOnly | src/TimesheetApp.js:313-316 | over any sequence of interface actions, earlier entries stay in place |
| Session.ClickWeekDaySelectsIt | src/TimesheetApp.js:205-207 | clicking a day of the week summary keeps the same week and selects exactly that day |
| Seed.SeedState | src/initialData.js:3-31 | today's midnight is the selected and the draft date; the seed entries are valid and well-ordered; submitting the initial form changes nothing |
| Seed.SeedEntriesPerDay | src/initialData.js:12-23 | in the week starting on day w, the first day lists the mowing entry, the next two list the overnight watch, the rest are empty |
| Seed.SeedDayHours | src/initialData.js:12-23 | the seed entries contribute 6.5, 2 and 7.5 hours on the first three days |
| Seed.SeedWeekHours | src/initialData.js:9-23 | the seed week reads 6.5, 2, 7.5, 0, 0, 0, 0 hours |
| Seed.SeedWeekSelection | src/initialData.js:3-7 | the selected item of the seed week is today's |

## Left out

- React components, `connect`, `Provider`, `createStore`, the date pickers, PropTypes and CSS: presentation and library wiring. `Session` keeps only the actions the containers dispatch.
- `formatMonthName` and the `moment(date).format('dd')` day labels: locale-dependent text formatting.
- Time zones and daylight saving: moment works in local time, where a day can last 23 or 25 hours. Every day here lasts 86,400,000 ms.
- Hours.TotalHoursOnSelectedDate: uses exact reals instead of IEEE doubles from `duration.asHours()`, so rounding errors in the sums are not modelled.
- HoursFormat.FormatHours: models the hour, minute and padding parts rather than the digits of the text; `Math.round` on doubles is taken as exact.
- NewEntryForm.Submit: compares the bounds by value. The code uses `===` on `Date` objects, which is reference identity, so two equal instants from different pickers pass the code's check.
- Reducer.IsDraft: compares the two dates by value. The code uses `!==`, so a freshly picked date equal to the committed one still shows as a draft there.
- `Session` models the form's fields as typed values: a name edit carries text, a bound edit carries an optional instant. The code writes `action.value` under any key.
- A cleared date selector is not modelled: the selected and draft dates are always instants. In the code, clearing the selector's input dispatches `CHANGE_DATE_DRAFT` with `null`; pressing Select then commits `null` as the selected date, and the week summary throws when it calls `getTime()` on it.
- The wall clock read by `initialData.js` is the parameter `now` of `Seed.SeedState`.

## Findings

| source | as written | input that shows it | evidently intended | confidence | as-written member | corrected member |
|---|---|---|---|---|---|---|
| src/utils.js:7 | a leading zero is added only when minutes are below 9 | 6.15 hours gives 9 minutes, written "6:9" | pad every single-digit minute count (below 10) | high; not executed | HoursFormat.NineMinutesUnpadded | HoursFormat.FormatHoursCarried |
| src/utils.js:4-7 | the minute part is rounded after the hour part is fixed, so it can reach 60 | 0.995 hours gives "0:60" | carry a rounded 60 minutes into the hour, giving "1:00" | high; not executed | HoursFormat.SixtyMinutesNotCarried | HoursFormat.FormatHoursCarried |

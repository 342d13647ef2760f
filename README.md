# Personnel rostering rules, modelled in Dafny

This project models the scheduling rules of a personnel-rostering web front
end. Assignment records map a person to a work-type code over an inclusive
range of days. The front end:

- projects the records into a per-day occupancy index keyed by
  (month, year, day, person name);
- draws that index as a month grid, merging runs of the same code into one
  cell with a colspan;
- splits the roster into available and unavailable persons for a date;
- counts days per code for a monthly report;
- keeps client-side caches of assignments, work types and users, which
  change only after the remote collaborator accepts a mutation;
- runs a small form-validation hook and the dialog that creates or edits an
  assignment.

Dates are integer triples (year, 0-based month, day) in the proleptic
Gregorian calendar. `Dates.DayNumber` counts days from 1 January of year 0.
The JavaScript loop "advance a Date by one day" becomes `Dates.NextDay`, and
`Dates.DayRange` lists the days such a loop visits. `new Date(y, m, d)`
with an out-of-range day becomes `Dates.MakeDate`, which carries the excess
into later months. Every remote call is a parameter `Remote<T>`: either
`Success(data)` or `Failure(message)`. A rejected mutation leaves the cache
as it was, records `err.message || fallback` and returns the failure to the
caller, which is how the model expresses the rethrow.

Module layout:

- `Wrappers` holds the Option and Remote types.
- `SeqOps` has `filter` and the replace-in-place `map`, with their facts.
- `Records` holds the data records.
- The other modules follow the source files:
  - `ScheduleIndex`: useScheduleData
  - `Grid`: CalendarView
  - `Availability`: AvailabilityView
  - `Assignments`: useAssignments
  - `Reports`: ReportsPage
  - `WorkTypes`: useWorkTypes
  - `Users`: useUsers
  - `Calendar`: useCalendar
  - `FormValidation`: useFormValidation
  - `PersonnelSchedule`: the dialog of PersonnelSchedule

Hooks that hold state are classes whose methods change their fields:
`ScheduleData`, `AssignmentStore`, `WorkTypeStore`, `UserStore`,
`CalendarState`, `FormState`, `ContextMenu` and `ScheduleDialog`. Loops in
the source are `while` loops proved against specification functions. The
properties of those functions are then proved as lemmas.

The skip test of the grid is documented as "a cell is hidden when the day
just before it holds the same code". The code does something else: its
backward scan also passes over days that hold a different code. The model
follows the code (`Grid.IsSkipped`), states the difference under Findings,
and proves the documented rule separately (`Grid.CoveredByEarlierSpan`).

## Model

| member | source | states |
|---|---|---|
| ScheduleIndex.UserIdToNameMap | src/hooks/useScheduleData.js:7-17 | The loop builds exactly the id-to-name map `IdToName(users)`. |
| ScheduleIndex.IdToNameLookup | src/hooks/useScheduleData.js:7-17 | An id is a key exactly when it is non-empty and some user has it. Its name is the one of the last user with that id. |
| ScheduleIndex.ResolveById | src/hooks/useScheduleData.js:36-52 | A string id resolves if and only if it is non-empty and the last user with it has a non-empty name. It then resolves to that name and that id. |
| ScheduleIndex.ResolveUnknownId | src/hooks/useScheduleData.js:40-52 | An id that no user carries resolves to nothing, so it writes no entries. |
| ScheduleIndex.CoveredKeysExactly | src/hooks/useScheduleData.js:54-63 | An assignment writes (month, year, day, name) exactly when its person resolves to that name and the day is a real date from start to end inclusive. None is written when start is after end. |
| ScheduleIndex.WriteEffect | src/hooks/useScheduleData.js:58-71 | Processing one assignment sets each covered key to its entry (`_id`, code, dates, resolved user id) and leaves every other key as it was. |
| ScheduleIndex.WriteAssignment | src/hooks/useScheduleData.js:54-71 | The day-by-day loop over the range produces exactly the single-assignment write `Write`. |
| ScheduleIndex.FoldLastWins | src/hooks/useScheduleData.js:30-75 | For overlapping assignments, the entry at a key is that of the last assignment in array order that covers it. |
| ScheduleIndex.FoldKeys | src/hooks/useScheduleData.js:30-75 | A key is in the map exactly when some assignment covers it. |
| ScheduleIndex.FoldEntrySource | src/hooks/useScheduleData.js:64-70 | Every value in the map is the entry of an assignment that covers its key. |
| ScheduleIndex.IndexCharacterization | src/hooks/useScheduleData.js:20-80 | Keys are exactly the covered keys, with none when there are no users. Each value is the entry of the last covering assignment. |
| ScheduleIndex.RebuildAfterDelete | src/hooks/useScheduleData.js:21-79 | Once every record with an id is filtered out and the index is rebuilt, no entry carries that id. |
| ScheduleIndex.ScheduleData.BuildScheduleMap | src/hooks/useScheduleData.js:20-80 | The nested loops start from an empty map and return, and store, exactly `Index(assignments, users)`. Rebuilding from the same input gives the same map. |
| ScheduleIndex.ScheduleData.AddScheduleItem | src/hooks/useScheduleData.js:95-101 | Only the one key changes, to the given data. |
| ScheduleIndex.ScheduleData.RemoveScheduleItem | src/hooks/useScheduleData.js:103-110 | Only the one key is removed. |
| ScheduleIndex.ScheduleData.RemoveScheduleRange | src/hooks/useScheduleData.js:112-121 | The keys for days startDay..endDay of one (month, year, person) are removed, and they are the only ones removed. Every remaining value is unchanged. |
| ScheduleIndex.GetPersonAssignments | src/hooks/useScheduleData.js:131-143 | Returns the occupied days among 1..31 with their entries, in strictly ascending order, and misses none. |
| ScheduleIndex.PersonnelPartition | src/hooks/useScheduleData.js:124-165 | The available and unavailable lists filter `users.map(u => u.name \|\| u)` in order. A label is in one list exactly as its key is absent or present. The two lengths sum to the number of users. |
| Records.GetScheduleItem | src/hooks/useScheduleData.js:87-93 | The lookup is present exactly when the key is in the index, and then it is that key's entry. |
| Records.FindByName | src/pages/ReportsPage.jsx:58 | `users.find` by name: the result, if any, is the first user in the list with that name (no earlier user has it). It is absent exactly when no user has the name. |
| Grid.GenerateCalendarDays | src/components/CalendarView.jsx:56-60 | Returns exactly 1..daysInMonth in ascending order (empty for a non-positive length). |
| Grid.Item | src/components/CalendarView.jsx:62-65 | The cell lookup uses the displayed month and year with the index's key format. |
| Grid.RangeEndSpec | src/components/CalendarView.jsx:91-105 | With no entry, the result is the day itself. Otherwise the result lies in [day, daysInMonth]. Every day up to it holds the day's code, and the next day is past the month or lacks that code. |
| Grid.GetRangeEnd | src/components/CalendarView.jsx:91-106 | The forward loop returns `RangeEnd`. |
| Grid.GetColspan | src/components/CalendarView.jsx:73-89 | The colspan equals `RangeEnd(day) - day + 1`, and it is 1 on an empty day. |
| Grid.IsSkipped | src/components/CalendarView.jsx:339-356 | The backward loop with its two exits decides exactly `SkippedAsWritten`. |
| Grid.ScanBackMeaning | src/components/CalendarView.jsx:340-352 | The scan reports "skip" exactly when an earlier day has the cell's code and is reached across occupied days only, whatever their codes. |
| Grid.SkipBasics | src/components/CalendarView.jsx:339-352 | Day 1 and empty days are never skipped. A day whose predecessor holds its code is skipped. |
| Grid.SkipQuirkExample | src/components/CalendarView.jsx:339-352 | In the row A, B, A, day 3 is skipped although it is not covered by any span. |
| Grid.RowCoverage | src/components/CalendarView.jsx:336-356 | With the corrected skip, every day of the month lies in exactly one drawn cell's span, and no span runs past the month. |
| Grid.AsWrittenAgreesWithoutCodeReturn | src/components/CalendarView.jsx:339-352 | When no code comes back after a different one inside an occupied stretch (no A,B,A; shift changes such as A,A,B,B are allowed), the scan as written hides exactly the covered days, so row coverage holds for it too. |
| Grid.DayLetterAsWritten | src/components/CalendarView.jsx:67-71 | The Monday-first array indexed by the Sunday-first weekday labels a Sunday 'L'. The weekend letters 'S'/'D' fall on weekdays 5 and 6. |
| Grid.SundayLabelledL | src/components/CalendarView.jsx:67-71 | 1 September 2024, a Sunday, is labelled 'L'. |
| Grid.DayLetterCorrectedSpec | src/components/CalendarView.jsx:67-71 | With the index shifted, Sunday reads 'D', Monday 'L', and the weekend letters fall on Saturday and Sunday. |
| Grid.WeekendShadingAsWritten | src/components/CalendarView.jsx:357-366 | A cell that is not today and is empty or holds a code missing from the dictionary gets the grey weekend background exactly on Fridays and Saturdays. |
| Grid.ContextMenuAgreesWithClick | src/components/CalendarView.jsx:108-154 | The context menu's edit and the cell click both pass (day, getRangeEnd(day), person, code). Confirming a delete passes the entry's assignmentId. |
| Grid.ContextMenu.Open | src/components/CalendarView.jsx:108-125 | An empty cell changes nothing. Otherwise the selection captures day, person, entry and the end of the run, and the menu opens. |
| Grid.ContextMenu.EditFromContext | src/components/CalendarView.jsx:131-141 | With a selection, the edit callback receives (day, endDay, person, code). The menu closes, and the selection and confirmation stay. |
| Grid.ContextMenu.DeleteFromContext | src/components/CalendarView.jsx:143-146 | Opens the delete confirmation and closes the menu, keeping the selection. |
| Grid.ContextMenu.ConfirmDelete | src/components/CalendarView.jsx:148-154 | Deletes the selected entry's assignment id, then closes the confirmation and clears the selection. |
| Grid.ArePropsEqual | src/components/CalendarView.jsx:500-525 | True exactly when the currentDate times are equal, the personnel lists are equal element by element, and the key counts of the index and of the code dictionary are equal. |
| Grid.StaleGridExample | src/components/CalendarView.jsx:512-516 | Changing an entry's code keeps the key count, so the comparator reports equal props for a different index. |
| Grid.CorrectedComparatorSound | src/components/CalendarView.jsx:500-525 | The corrected comparator holds exactly when the props are equal, and then the original one holds too. |
| Availability.ItemOn | src/components/AvailabilityView.jsx:25-28 | The lookup uses the index builder's (month, year, day, name) key. |
| Availability.AvailabilityPartition | src/components/AvailabilityView.jsx:30-52 | The available list holds exactly the persons without an entry, and the unavailable list those with one, both in input order. They are disjoint, and their lengths and multisets add up to the roster. |
| Availability.EmptyDayAllAvailable | src/components/AvailabilityView.jsx:30-52 | On a day nobody holds, the available list is the whole roster and the unavailable list is empty. |
| Availability.ChipShownIffKnownCode | src/components/AvailabilityView.jsx:166-188 | The chip appears exactly when the person's entry has a code present in the dictionary, and then it reads "code - caption". |
| Assignments.CreateSpec | src/hooks/useAssignments.js:87-93 | The created record is appended at the end exactly when no filter is set or its start date is valid with the filter's month and year. Otherwise the list is unchanged. |
| Assignments.InvalidStartOutsideWindow | src/hooks/useAssignments.js:87-119 | Under a month filter, a record whose start date is invalid (for example 30 February) is never kept: create leaves the cache unchanged and update drops every element with the id. |
| Assignments.UpdateSpec | src/hooks/useAssignments.js:108-119 | In the window (no filter, or a valid start date in the filter's month and year), every element with the id is replaced in place and the length and other elements are kept. Out of the window, every element with the id is removed and the rest keep their order. |
| Assignments.DeleteSpec | src/hooks/useAssignments.js:129-134 | Exactly the elements with another id remain, in order. |
| Assignments.DeleteOfUserAndMonthSpec | src/hooks/useAssignments.js:146-150 | Exactly the elements whose userId, month and year do not all equal the arguments remain, in order. |
| Assignments.WindowPreserved | src/hooks/useAssignments.js:80-150 | "Every cached record lies in the window" is kept by create, update, delete and the bulk delete. |
| Assignments.AssignmentStore.constructor | src/hooks/useAssignments.js:4-9 | The cache starts empty, with no error, and with the window given to the hook. |
| Assignments.AssignmentStore.LoadByMonth | src/hooks/useAssignments.js:12-28 | Success replaces the cache, sets the window to the target and returns the data. Failure keeps cache and window, sets the error and returns []. |
| Assignments.AssignmentStore.LoadAll | src/hooks/useAssignments.js:31-45 | Success replaces the cache and clears the window to null/null. Failure keeps both and sets the error. |
| Assignments.AssignmentStore.LoadByUser | src/hooks/useAssignments.js:47-60 | Returns the data, or [] on failure. The cache and the window are untouched. |
| Assignments.AssignmentStore.LoadByDateRange | src/hooks/useAssignments.js:62-78 | Returns the data, or [] on failure. The cache and the window are untouched. |
| Assignments.AssignmentStore.Create | src/hooks/useAssignments.js:80-101 | Success applies `AfterCreate`. Failure leaves the cache, sets the error and returns the rejection. The window invariant is kept. |
| Assignments.AssignmentStore.Update | src/hooks/useAssignments.js:103-127 | Success applies `AfterUpdate`. Failure leaves the cache, sets the error and returns the rejection. The window invariant is kept. |
| Assignments.AssignmentStore.Delete | src/hooks/useAssignments.js:129-139 | Success applies `AfterDelete`. Failure leaves the cache, sets the error and returns the rejection. |
| Assignments.AssignmentStore.DeleteOfUserAndMonth | src/hooks/useAssignments.js:141-159 | Success applies `AfterDeleteOfUserAndMonth`. Failure leaves the cache, sets the error and returns the rejection. |
| Wrappers.ErrorText | src/hooks/useAssignments.js:22 | `err.message \|\| fallback`: the message when it is non-empty, otherwise the fallback. |
| Reports.UserStatsSpec | src/pages/ReportsPage.jsx:53-88 | The stats have one key per dictionary code and no other, and an unknown name gets all zeros. Otherwise a code's count is the sum, over that user's assignments with the code, of their days inside the month. |
| Reports.CountAssignment | src/pages/ReportsPage.jsx:71-87 | The day loop adds an assignment's days inside the month to its code. It adds nothing when the code is not in the stats. |
| Reports.CountAssignments | src/pages/ReportsPage.jsx:53-88 | Starting from zero for every known code, the forEach leaves each code holding the number of month days its assignments cover (`CodeStats`). |
| Reports.CalculateUserStats | src/pages/ReportsPage.jsx:51-92 | The loops compute exactly `UserStats`: all zeros for an unknown name, else the per-code day counts of that user's assignments. |
| Reports.CountWholeRange | src/pages/ReportsPage.jsx:77-87 | A range lying inside the selected month counts every one of its days. |
| Reports.OverlapCountsTwice | src/pages/ReportsPage.jsx:71-88 | Two assignments of one user with the same code on the same day count that day twice. |
| Reports.AddStats | src/pages/ReportsPage.jsx:106-108 | The loop over the stats keys adds each user count to its total. |
| Reports.CalculateTotals | src/pages/ReportsPage.jsx:98-112 | The totals have the dictionary's keys. `totals[k]` is the sum over the sorted names of each name's `UserStats[k]`. |
| Reports.SortedNamesSpec | src/pages/ReportsPage.jsx:94-96 | sortedUsers is sorted and a permutation of the users' names. |
| WorkTypes.MapOfListLookup | src/hooks/useWorkTypes.js:17-23 | The derived dictionary's keys are the list's codes. Each key holds the label and colour of the last record with that code. |
| WorkTypes.WorkTypeStore.BuildMap | src/hooks/useWorkTypes.js:17-23 | The forEach builds exactly `MapOfList(data)`. |
| WorkTypes.WorkTypeStore.LoadAll | src/hooks/useWorkTypes.js:10-31 | Success replaces the list and the dictionary, and the two are in step. Failure keeps both and sets the error. |
| WorkTypes.MapOfListKeys | src/hooks/useWorkTypes.js:14-24 | The dictionary's key set is the set of codes in the list. |
| WorkTypes.MapOfListAppend | src/hooks/useWorkTypes.js:41-49 | Appending a record to the list sets its code in the derived dictionary. |
| WorkTypes.WorkTypeStore.Create | src/hooks/useWorkTypes.js:33-57 | Success appends the record and sets its code. Failure changes nothing but the error. Sync is kept. |
| WorkTypes.MapOfListReplace | src/hooks/useWorkTypes.js:67-77 | Replacing the records with a code by one of the same code sets that key, when the code is listed. |
| WorkTypes.WorkTypeStore.Update | src/hooks/useWorkTypes.js:59-85 | Success replaces the records with the code and sets `map[code]` from the returned record. Sync is kept when the returned code is the same and the code was listed. |
| WorkTypes.UpdateWithOtherCodeDesyncs | src/hooks/useWorkTypes.js:67-77 | An update answered with a record of another code breaks key sync. |
| WorkTypes.MapOfListRemove | src/hooks/useWorkTypes.js:91-97 | Removing every record with a code removes exactly that key from the derived dictionary. |
| WorkTypes.WorkTypeStore.Delete | src/hooks/useWorkTypes.js:87-103 | Success removes every record with the code and the key. Failure changes nothing but the error. Sync is kept. |
| Users.UserListSpec | src/hooks/useUsers.js:39-55 | An update replaces every user with the id in place and keeps the length. A delete keeps exactly the users with another id, in order. |
| Users.UpdateKeepsIds | src/hooks/useUsers.js:39-42 | An update whose answer keeps the id leaves the set of ids unchanged. |
| Users.UserStore.Load | src/hooks/useUsers.js:9-21 | Success replaces the list. Failure keeps it and sets the error. |
| Users.UserStore.Create | src/hooks/useUsers.js:23-34 | Success appends the returned user at the end. Failure changes nothing but the error. |
| Users.UserStore.Update | src/hooks/useUsers.js:36-49 | Success replaces the users with the id and keeps the length. Failure changes nothing but the error. |
| Users.UserStore.Delete | src/hooks/useUsers.js:51-61 | Success removes exactly the users with the id. Failure changes nothing but the error. |
| Dates.DaysInMonth | src/hooks/useCalendar.js:10-12 | The Gregorian month length: 28 to 31 days, with 29 in February exactly in leap years and 30 in April, June, September and November. |
| Calendar.DayZeroOfNextMonth | src/hooks/useCalendar.js:10-12 | `new Date(y, m + 1, 0)` is the month's last day, whose day number is the month length. ReportsPage.jsx line 44 uses the same construction. |
| Calendar.FirstDayOfMonthSpec | src/hooks/useCalendar.js:14-16 | The first weekday is in 0..6 (Sunday = 0). The next month's first weekday is this one shifted by the month length. |
| Calendar.MonthSteps | src/hooks/useCalendar.js:18-24 | Next moves to day 1 of the next month (11 wraps to 0 with year+1). Previous moves to day 1 of the previous month (0 wraps to 11 with year-1). |
| Calendar.NextThenPrev | src/hooks/useCalendar.js:18-24 | Next then previous, and previous then next, return to day 1 of the same month. |
| Calendar.CalendarState.PrevMonth | src/hooks/useCalendar.js:18-20 | The displayed date becomes day 1 of the previous month and stays a valid date. |
| Calendar.CalendarState.NextMonth | src/hooks/useCalendar.js:22-24 | The displayed date becomes day 1 of the next month and stays a valid date. |
| Calendar.CalendarState.DaysInCurrentMonth | src/hooks/useCalendar.js:37 | The displayed month has 28 to 31 days, and at least as many as the displayed day. |
| Calendar.NextThenPrevOnState | src/hooks/useCalendar.js:18-24 | On the state object, next then previous ends on day 1 of the starting month. |
| FormValidation.WithField | src/hooks/useFormValidation.js:10-13 | Sets the one field and keeps every other field. |
| FormValidation.ClearedError | src/hooks/useFormValidation.js:15-22 | Removes the field's error only when its message is truthy. Every other error is unchanged. |
| FormValidation.FormState.HandleInputChange | src/hooks/useFormValidation.js:8-23 | The input's text becomes the field's value, and the field's truthy error is cleared. Nothing else changes. |
| FormValidation.FormState.SetFieldValue | src/hooks/useFormValidation.js:25-39 | The value is set, and the field's truthy error is cleared. Nothing else changes. |
| FormValidation.FormState.SetFieldError | src/hooks/useFormValidation.js:41-46 | Only `errors[name]` changes. |
| FormValidation.FormState.ClearForm | src/hooks/useFormValidation.js:48-51 | formData returns to the initial state and errors become empty. |
| FormValidation.CollectRequiredErrors | src/hooks/useFormValidation.js:57-63 | The loop collects one message for each listed field that is falsy, including 0 and false, or blank after trim. The flag is true exactly when none failed. |
| FormValidation.FormState.ValidateRequired | src/hooks/useFormValidation.js:54-68 | formData is unchanged. The errors become exactly the failing listed fields, and the result is true exactly when there are none. |
| FormValidation.RequiredErrorsSpec | src/hooks/useFormValidation.js:57-63 | A field has an error exactly when it is listed and fails, and the error is the fixed message. |
| PersonnelSchedule.ScheduleDialog.DateClick | src/pages/PersonnelSchedule.jsx:92-99 | Clears the editing id and the code, sets start and end to the clicked day and the person, and opens the dialog. |
| PersonnelSchedule.FindEditTarget | src/pages/PersonnelSchedule.jsx:110-123 | Returns the first cached assignment whose user id, valid start date's day of month and code match, or nothing when none does. |
| PersonnelSchedule.InvalidStartNeverEdited | src/pages/PersonnelSchedule.jsx:110-123 | Assignments whose start dates are invalid never match, since `getDate()` of an invalid date equals no day. |
| PersonnelSchedule.ScheduleDialog.EditAssignment | src/pages/PersonnelSchedule.jsx:101-130 | Fills the fields from the run. For a known person it edits the first match and opens the dialog. With no match the previous editing id stays. For an unknown person, the editing id and the dialog's visibility stay as they were. |
| PersonnelSchedule.DecideSaveSpec | src/pages/PersonnelSchedule.jsx:145-179 | Nothing is sent when a field is missing, when start > end, or when the person is unknown. A request carries the user's id, the upper-cased code and in-order dates the chosen day counts into the month, which equal the chosen days when those lie in the month. It is an update exactly when an assignment is being edited. |
| PersonnelSchedule.Send | src/pages/PersonnelSchedule.jsx:173-192 | An update goes through the cache's update and a new assignment through its create. A success shows the matching confirmation, and a failure keeps the cached assignments and shows the error message or the fallback text. |
| PersonnelSchedule.ScheduleDialog.Save | src/pages/PersonnelSchedule.jsx:145-193 | The returned decision is `DecideSave` of the dialog's fields. Rejected checks show their message and change neither the dialog nor the cache. A sent request goes through the cache's create or update with the success snackbar. Only a success resets the dialog, and a failure keeps it. |
| PersonnelSchedule.EndDayInput | src/pages/PersonnelSchedule.jsx:330-333 | The end day is `max(selectedDate, parsed \|\| selectedDate)`. It is never before the start, and it is the parsed number when that is non-zero and later. |
| PersonnelSchedule.ScheduleDialog.EndDayChange | src/pages/PersonnelSchedule.jsx:330-333 | The end day becomes `EndDayInput` of the start day, with a missing start read as 0. No other field changes. |
| PersonnelSchedule.EndDayNotClamped | src/pages/PersonnelSchedule.jsx:330-333 | Nothing keeps the end day inside the month: day 40 is accepted and becomes a date in the next month. |
| PersonnelSchedule.ToUpper | src/pages/PersonnelSchedule.jsx:168 | The code is upper-cased letter by letter, keeping its length. |
| Dates.MakeDate | src/pages/PersonnelSchedule.jsx:163-164 | `new Date(year, month, day)` is the valid date whose day number is that many days from the month's first. |
| Dates.DayRangeMembers | src/hooks/useScheduleData.js:58 | The dates the `d <= endDate` loop visits are exactly the valid dates from start to end inclusive. |
| Dates.DayRangeIndex | src/hooks/useScheduleData.js:58 | The visited dates are consecutive day numbers starting at the start date. |
| SeqOps.FilterPartition | src/components/AvailabilityView.jsx:36-51 | Filtering by a predicate and by its negation splits a list: lengths and multisets add up. |
| SeqOps.ReplaceAt | src/hooks/useAssignments.js:113-115 | The replace-in-place `map` keeps the length, and changes exactly the matching elements. |

## Findings

| source | as written | input that shows it | evidently intended | confidence | as-written member | corrected member |
|---|---|---|---|---|---|---|
| src/components/CalendarView.jsx:339-352 | The backward skip scan has no exit for "both present, different code", so it carries on past such a day. | A single row with codes A, B, A on days 1, 2, 3. Day 3 is hidden, yet days 1 and 2 each span one column, so the row is one cell short. | Hide a cell only when the previous day holds the same code, that is, when an earlier colspan covers it. | high, not executed | Grid.IsSkipped, Grid.SkipQuirkExample | Grid.CoveredByEarlierSpan, Grid.RowCoverage |
| src/components/CalendarView.jsx:67-71 | `['L','M','X','J','V','S','D'][date.getDay()]` indexes a Monday-first array with a Sunday-first weekday. | 1 September 2024 (a Sunday) is labelled 'L'. The weekend shading falls on Friday and Saturday. | Shift the index so that Sunday reads 'D' and the shading covers Saturday and Sunday. | high, not executed | Grid.DayLetter, Grid.SundayLabelledL | Grid.DayLetterCorrected, Grid.DayLetterCorrectedSpec |
| src/components/CalendarView.jsx:512-521 | The memo comparator compares the index and the code dictionary by key count only. | Editing an assignment's code over the same days gives a new index with the same number of keys. The comparator answers "equal" and the grid is not re-rendered. | Treat the props as equal only when the index and the dictionary are equal. | medium, not executed | Grid.ArePropsEqual, Grid.StaleGridExample | Grid.ArePropsEqualCorrected, Grid.CorrectedComparatorSound |

## Left out

- The REST services and the HTTP configuration are not part of this model. Each call's outcome is a `Remote` parameter, and the request bodies sent to the server (other than the save payload) are not modelled.
- The area id passed to the month load by some callers, which the hook ignores, is argument drift in the transport call and is not modelled.
- The application context is not part of this model: area fetch, local storage, alerts. Nor are routing, layout, the users page and the work-type dialog; their logic is only non-empty checks and a Unicode search filter.
- Time zones and JavaScript `Date` parsing are left out: ISO strings, `toISOString`, UTC parsing of `YYYY-MM-DD`. Dates are local calendar triples. An invalid date triple stands for JavaScript's `NaN` date everywhere: such an assignment covers no day, its month matches no window filter, and its day matches no edit.
- Clock reads are left out: today, `handleToday`, the current-day highlight. `Grid.CellBackground` takes today's day as a parameter.
- React scheduling is left out: effects, the double initial load, out-of-order responses, loading flags and memo re-render timing. Only the comparator itself is modelled.
- FormValidation.FormState.ValidateRequired: returns the flag as if React ran the `setFormData` updater before `return isValid`. If the updater runs later, the source returns `true` whatever the fields hold.
- FormValidation.Truthy: `NaN` is not a value of the model.
- PersonnelSchedule.ToUpper: upper-cases ASCII letters only. Unicode case mapping is not modelled.
- Reports.SortedNames: orders names by code point, while JavaScript's default sort compares UTF-16 code units. The two differ only for characters above U+FFFF. Users without a name (which JavaScript sorts last) are not modelled.
- Plain-object lookups of inherited property names (such as `constructor`) are not modelled. Every dictionary is a map with only its own keys.
- Grid.ContextMenu.ConfirmDelete: assumes the delete callback is supplied. The mouse position of the menu is not modelled.
- Colours other than the cell background rule, tooltips, snackbar display, cell sizes and the localised month names are not modelled.
- handleDeleteAssignment in the roster page is the cache's delete (`Assignments.AssignmentStore.Delete`) followed by a snackbar. The page-level wrapper is not modelled separately.
- The initial effects are not modelled: load the month when a month is given, load users and work types. They are single calls of the modelled loads.
- The `try`/`catch` around each assignment in `buildScheduleMap` is left out. Nothing in the model throws, and console logging is not modelled.

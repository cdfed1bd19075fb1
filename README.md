# Attendance dashboard: verified model of its client-side logic

The dashboard shows employees' check-in records for one month. Three small pieces of logic sit behind it, and this project models and verifies them in Dafny:

- **Attendance table** (`attendance_table.dfy`). The search box narrows the roster case-insensitively. A user stays when the lowered, trimmed query occurs in their lowered username or employee number. For the date picked on the calendar, the table lists as absent every roster entry whose username has no attendance record that day. On a Saturday or Sunday it lists nobody.
- **Employee calendar** (`employee_calendar.dfy`). For one employee and one month, a loop builds one cell per day. Each cell's status follows a fixed precedence: present > holiday > weekend > absent. A cell carries the description of the first holiday on its date. Blank cells for the weekday of the 1st come first, so every day falls in its weekday's column.
- **Notification bell** (`notifications.dfy`). A list of pending HR data requests. A successful poll replaces it. A successful submission for a (month, year) drops every request of that period, not only the one clicked. Failures leave it unchanged.

Supporting modules:
- `dates.dfy`: dates as (year, month, day) triples, the Gregorian days-in-month rule, the weekday (0 = Sunday), and how the JavaScript `Date` constructors read years 0..99.
- `text.dfy`: `toLowerCase`, `trim` and `includes`.
- `seqs.dfy`: `filter` and `find`.
- `types.dfy`: the records.
- `wrappers.dfy`: `Option`.

Requests to the backend do not happen in the model. Their replies are parameters instead. `None` stands for a request that threw.

Two facts about the code that the model keeps:
- The bell's submission (src/components/NotificationBell.tsx:35-38) posts only the month and the year.
- `getAbsentEmployees` (src/components/AttendanceTable.tsx:64-81) does not check that the selected date lies in the displayed month, so neither does the model.

## Model

| member | source | states |
|---|---|---|
| Seqs.Filter | src/components/AttendanceTable.tsx:42-50 | `filter` keeps exactly the elements satisfying the predicate, in their original order (a subsequence) and with their multiplicities; the result is no longer than the input |
| Seqs.FilterIdempotent | src/components/NotificationBell.tsx:42 | filtering twice by one predicate equals filtering once |
| Seqs.Find | src/components/EmployeeCalendarModal.tsx:44-51 | `find` returns nothing iff no element matches, else the element at the first matching index |
| Dates.DaysInMonth | src/components/EmployeeCalendarModal.tsx:38 | 28..31 days; 29 exactly for February of a Gregorian leap year, 28 for other Februaries, 30 for April, June, September and November |
| Dates.FullYear | src/components/EmployeeCalendarModal.tsx:38-42 | numeric years 0..99 given to `new Date`/`Date.UTC` mean 1900..1999; other years are kept |
| Dates.DayOfWeek | src/components/EmployeeCalendarModal.tsx:54 | the weekday of a date lies in 0..6 (0 = Sunday) |
| Dates.IsWeekend | src/components/EmployeeCalendarModal.tsx:54 | a date is a weekend day iff its weekday is 0 (Sunday) or 6 (Saturday), the test both the calendar and the table (src/components/AttendanceTable.tsx:73) apply |
| Dates.WeekendRepeatsWeekly | src/components/EmployeeCalendarModal.tsx:54 | within a month's numbering, a day is a weekend day iff the day seven later is one |
| Dates.EpochIsThursday | src/components/EmployeeCalendarModal.tsx:54 | 1 January 1970 is day 4 (Thursday), anchoring the weekday numbering |
| Dates.DayOfWeekShift | src/components/EmployeeCalendarModal.tsx:41-54 | k days later in a month the weekday is k places further on, modulo 7 |
| Dates.DayOfWeekNextMonth | src/components/EmployeeCalendarModal.tsx:38-54 | the 1st of the next month (or of January of the next year) falls the month's day count later, modulo 7: the day count and the weekday describe the same calendar |
| Text.LowerChar | src/components/AttendanceTable.tsx:38 | a lowered character is never an upper-case letter; only upper-case letters change, each to its lower-case letter |
| Text.ToLower | src/components/AttendanceTable.tsx:38 | lowering keeps the length and lowers every character in place |
| Text.ToLowerIdempotent | src/components/AttendanceTable.tsx:38 | lowering a lowered string changes nothing |
| Text.SameUpToCaseLower | src/components/AttendanceTable.tsx:38-48 | two strings lower to the same string iff at every index their characters are equal or are the upper- and lower-case forms of one letter |
| Text.LeadingWhiteSpace | src/components/AttendanceTable.tsx:38 | counts exactly the maximal run of white space at the start |
| Text.TrailingWhiteSpaceStart | src/components/AttendanceTable.tsx:38 | finds where the maximal run of white space at the end begins: everything after is white space, the character before is not |
| Text.Trim | src/components/AttendanceTable.tsx:38 | `trim` returns a slice of its input with only white space before and after it, and neither starting nor ending with white space |
| Text.Contains | src/components/AttendanceTable.tsx:44-48 | `includes` holds iff the query occurs at some index of the string |
| AttendanceTable.NormalizeQuery | src/components/AttendanceTable.tsx:38 | the compared query has no upper-case letter, neither starts nor ends with white space, and is no longer than the typed text |
| AttendanceTable.MatchesQuery | src/components/AttendanceTable.tsx:43-48 | a user matches iff the normalized query is a substring of their lowered username or of their lowered employee number |
| AttendanceTable.SearchRoster | src/components/AttendanceTable.tsx:36-53 | a query blank after lowering and trimming shows the whole roster unchanged; otherwise a user is shown iff the normalized query is a substring of their lowered username or lowered employee number, with roster order and duplicates kept |
| AttendanceTable.SearchIgnoresQueryCase | src/components/AttendanceTable.tsx:38-48 | queries that differ only in letter case show the same rows |
| AttendanceTable.MatchIgnoresNameCase | src/components/AttendanceTable.tsx:44-48 | whether a user matches does not depend on the letter case of their username |
| AttendanceTable.PresentUsernames | src/components/AttendanceTable.tsx:67-69 | the present set holds exactly the usernames of the day's attendance records, and is empty when there are none |
| AttendanceTable.AbsentEmployees | src/components/AttendanceTable.tsx:64-81 | empty with no selected date or no roster; empty on a weekend whatever the attendance; otherwise a roster user is listed iff their username is not present, in roster order and with each duplicate kept; no listed user is present |
| AttendanceTable.AbsentOnWeekdayExample | src/components/AttendanceTable.tsx:64-81 | on Tuesday 2024-03-05, with alice checked in and bob not, the absentees are exactly [bob] |
| AttendanceTable.NobodyAbsentOnSundayExample | src/components/AttendanceTable.tsx:72-79 | on Sunday 2024-03-03 nobody is absent, even without any attendance |
| EmployeeCalendar.HolidaysOf | src/components/EmployeeCalendarModal.tsx:34-36 | a successful reply gives its holidays; an unsuccessful one gives none |
| EmployeeCalendar.Classify | src/components/EmployeeCalendarModal.tsx:65-72 | present iff attended; holiday iff not attended and a holiday; weekend iff neither and a weekend; absent otherwise; never empty |
| EmployeeCalendar.DayCell | src/components/EmployeeCalendarModal.tsx:41-79 | a day's cell has its date and number; it is present iff some attendance record has its date, even on a holiday or weekend; else holiday iff some holiday has its date, even on a weekend; else weekend iff day 0 or 6; else absent; it is never empty; it carries a description iff a holiday matches, namely that of the first matching holiday, on present days too |
| EmployeeCalendar.BuildDays | src/components/EmployeeCalendarModal.tsx:38-80 | the loop yields the month's cells: exactly as many as the month has days, cell i numbered i+1 (strictly ascending), none empty |
| EmployeeCalendar.FebruaryCellCounts | src/components/EmployeeCalendarModal.tsx:38-41 | February 2024 gets 29 cells and February 2023 gets 28 |
| EmployeeCalendar.NoHolidaysOnFailedResponse | src/components/EmployeeCalendarModal.tsx:34-36 | after an unsuccessful holiday reply no cell is a holiday and none has a description |
| EmployeeCalendar.FirstDayOfMonth | src/components/EmployeeCalendarModal.tsx:113 | the number of leading blank cells lies in 0..6 |
| EmployeeCalendar.TwoDigitYearCalendar | src/components/EmployeeCalendarModal.tsx:38-42 | a year 0..99 shows the calendar of the same year of the 1900s: the same cells for any holidays and attendance, and the same padding (line 113) |
| EmployeeCalendar.Grid | src/components/EmployeeCalendarModal.tsx:159-167 | the grid holds as many slots as padding plus cells, and a slot is blank iff it comes before the first-weekday padding count |
| EmployeeCalendar.GridAlignment | src/components/EmployeeCalendarModal.tsx:159-167 | the grid has the padding blanks then the cells; each day's column is its own weekday, so weekend cells fall only in the Sunday and Saturday columns |
| EmployeeCalendar.DayClass | src/components/EmployeeCalendarModal.tsx:94-111 | every cell's class list starts with the shared calendar-day classes and adds a status class after them |
| EmployeeCalendar.DayClassDistinguishesStatus | src/components/EmployeeCalendarModal.tsx:94-111 | two cells get the same CSS classes iff they have the same status |
| EmployeeCalendar.CalendarModal.constructor | src/components/EmployeeCalendarModal.tsx:21-28 | the modal starts with no cells, loading, for the user's attendance of the given month |
| EmployeeCalendar.CalendarModal.GenerateCalendar | src/components/EmployeeCalendarModal.tsx:30-88 | after a generation loading is off; a holiday request that threw leaves the cells as they were; otherwise the cells are rebuilt from the reply's holidays |
| Notifications.ForPeriod | src/components/NotificationBell.tsx:42 | a notification belongs to the submitted period iff it is the notification of that month string and year string |
| Notifications.WithoutPeriod | src/components/NotificationBell.tsx:41-43 | no remaining notification has the submitted month and year; every other notification is kept with its multiplicity and in its order; the list does not grow |
| Notifications.WithoutPeriodNoMatch | src/components/NotificationBell.tsx:42 | a list with no notification of the submitted period is left exactly as it was |
| Notifications.WithoutPeriodCount | src/components/NotificationBell.tsx:42 | the list shrinks by exactly the number of notifications of the submitted period it held |
| Notifications.WithoutPeriodIdempotent | src/components/NotificationBell.tsx:42 | removing the same period twice equals removing it once |
| Notifications.RemovesEveryMatchExample | src/components/NotificationBell.tsx:42 | with two March 2024 requests and one April 2024 request, acting on March removes both March entries |
| Notifications.NotificationBell.constructor | src/components/NotificationBell.tsx:12 | the bell starts with no notifications |
| Notifications.NotificationBell.FetchNotifications | src/components/NotificationBell.tsx:15-24 | only a successful reply replaces the list; an unsuccessful reply or a thrown request keeps it |
| Notifications.NotificationBell.HandleSendData | src/components/NotificationBell.tsx:33-50 | on success the list loses every notification of that month and year and the alert shows the reply's message; on an unsuccessful reply or a thrown request the list is unchanged and the alert shows the error text; the list never grows |

## Left out

- HTTP, local storage and authentication headers (src/utils/api.ts) are not part of this model. Each request is replaced by its reply, passed as a parameter, with `None` for a request that threw.
- The dashboard page (src/app/dashboard/page.tsx) only wires state and data loading. It is not part of this model.
- Parsing of date strings and time zones are abstracted. Attendance, holiday and selected dates are already-parsed triples. Both `getDay()` on the selected date and `getUTCDay()` on the calendar cells are modelled as `Dates.DayOfWeek` of the triple. A date-only string parsed as UTC midnight and read with local `getDay()` can be a day off west of UTC; the model does not capture that shift.
- Dates.DayOfWeek: the model takes dates as valid triples and months as 1..12, the only months the month selector offers. JavaScript's rollover of out-of-range months and days is not modelled.
- Text.LowerChar: lowers the ASCII letters A-Z only. JavaScript's `toLowerCase` also lowers other Unicode letters, and the model does not capture that.
- Polling with `setInterval`, overlapping requests and their order of completion (src/components/NotificationBell.tsx:26-31) are concurrency and timing. Each handler is modelled as one atomic step.
- The submission body's `parseInt` of month and year (src/components/NotificationBell.tsx:35-38) is left out. The body only goes to the backend, which is not modelled.
- A successful submission reply without a `message` shows "undefined" in the alert. The model's reply always carries a message string.
- A successful holiday reply without a `holidays` list makes `find` throw, and the catch leaves the cells unchanged. The model's reply always carries a list.
- In the table's search effect, when no roster is loaded the shown rows are left as they were. `SearchRoster` models the recomputation performed once a roster is present.
- Rendering is left out: JSX, loading and error placeholders, `formatTime`, locale date formatting, the dropdown's open flag and the badge count. `getDayClass` is kept only as the status-to-class map.
- The field-trip `onSave` handler (src/components/AttendanceTable.tsx:400-411) only logs, and it is left out.
- Record fields that no modelled logic reads are left out (src/types/index.ts:11-91): check-in and check-out times, session, attendance and location types, photo, audio, location, the checked-out and day-length flags, employment class, resignation date, projects, the active-field-trip flag, monthly statistics, and the holidays' weekend flag, weekday name and month name. The records keep dates, usernames, employee numbers, attendance lists and holiday descriptions.
- A successful poll whose reply has no `data` sets the list to `undefined` (src/components/NotificationBell.tsx:19). The model's reply always carries a list.
- An unsuccessful submission reply without an `error` shows "Error: undefined" (src/components/NotificationBell.tsx:45). The model's reply always carries an error string.
- Years outside the range of JavaScript `Date` values give an Invalid Date, so the loop yields no cells and there is no padding (src/components/EmployeeCalendarModal.tsx:38, 113). The model's years are unbounded integers.

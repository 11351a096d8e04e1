# Attendance time engine — a Dafny model

This project models the core of a Django face-recognition attendance system.

- **Attendance state machine.** A recognised employee's gesture marks IN, OUT, BREAK_IN or BREAK_OUT, depending on the clock and the day's records. A geofence can refuse the request.
- **Working-hours calculator.** It works from a day's IN record, its break ledger and its OUT record.
- **Period resolver.** It turns day, week, month and year keywords into date ranges.
- **Trend aggregators.** Emotion, punctuality and presence are counted per bucket, and the leave total is split by type.
- **Administrator views.**
  - Report rows of the attendance table, and the table's sort.
  - Hour, overtime and absentee aggregates of the dashboard and of its data endpoint.
- **Employee views.** Recent-activity cards and the leave balance.
- **Supporting state.**
  - The face-encoding cache: three parallel lists.
  - The office-location settings endpoints and the team-member list.
  - The employee form's id-uniqueness check and its field set-up.

Conventions used throughout:

- Times are whole seconds of the day.
- Dates are valid (year, month, day) triples. The day ordinal and weekday follow Python's `date.toordinal()` and `date.weekday()`.
- Durations stay in integer seconds. A threshold given in hours is compared as a real.
- The database is a class, `Models.AttendanceDb`, with tables held as sequences: employees, attendance records, the optional location row and the leave history.
- Its invariant `Valid()` holds four things:
  - primary keys are unique;
  - the `(employee, date, attendance_type)` unique constraint holds;
  - every record belongs to an employee;
  - every IN record's break ledger is well formed. Every break has been opened, and only the last may still be open.
- Python's `sorted`, `list.sort` and `order_by` are one stable insertion sort, `Sorting.SortBy`.
- Every outside input is a parameter:
  - the clock (`now: Instant`);
  - the geodesic distance and its failures (`AttendanceViews.GeoOutcome`);
  - the recogniser's verdict (the requested name);
  - the JSON parser's verdict (`Body`, `SaveBody`).

## Model

| member | source | states |
|---|---|---|
| AttendanceManager.PeriodDates | attendance_app/services/attendance_manager.py:34-51 | start ≤ today ≤ end for every keyword. 'week' starts on a Monday and ends 6 days later. 'month' runs from the 1st to the month's last day. 'year' runs from Jan 1 to Dec 31. Any other keyword gives (today, today). |
| AttendanceManager.FourDaysAfterThe28th | attendance_app/services/attendance_manager.py:43 | the 28th plus four days always lands on day 1–4 of the following month, so the computed month end is right |
| AttendanceManager.WeekStartsMonday | attendance_app/services/attendance_manager.py:39-40 | going back `weekday()` days from any date lands on a Monday |
| AttendanceManager.WeekAroundToday | attendance_app/services/attendance_manager.py:39-40 | going back `weekday()` days lands on a Monday, and the week it starts contains today |
| AttendanceManager.StoredEmotion | attendance_app/services/attendance_manager.py:66-67 | an emotional state is stored iff the record is an IN and the state is truthy, and then unchanged |
| AttendanceManager.CreateAttendanceRecord | attendance_app/services/attendance_manager.py:54-70 | appends exactly one record stamped with the current date and time, sets only that employee's `last_seen`, changes nothing else, and keeps the store's invariant |
| AttendanceManager.RoundHalfEven | attendance_app/services/attendance_manager.py:330-332 | Python's `round` gives an integer within one half of its argument, and an exact tie goes to the even neighbour |
| AttendanceManager.LeaveDistribution | attendance_app/services/attendance_manager.py:327-335 | the four values sum to the total when it is positive and are all 0 otherwise; sick, vacation and casual are within one half of 30 %, 45 % and 20 % of it |
| WorkingHours.EndInstant | attendance_app/services/attendance_manager.py:118-129 | the end instant is the OUT time when there is one. Otherwise it is 19:15 for a day before today, and `now` for today. |
| WorkingHours.HoursOf | attendance_app/services/attendance_manager.py:94-142 | without an IN record the result is (0, 0, 0, False); `has_out` holds iff both an IN and an OUT record exist |
| WorkingHours.CalculateWorkingHours | attendance_app/services/attendance_manager.py:76-142 | the loop over the break ledger computes exactly `HoursOf` |
| WorkingHours.BreakSecondsAppend | attendance_app/services/attendance_manager.py:101-110 | break sums are additive over the ledger |
| WorkingHours.OpenBreaksCountNothing | attendance_app/services/attendance_manager.py:103 | a break missing its `break_in` or `break_out` contributes nothing to either sum |
| WorkingHours.ClosedBreakCountsOnce | attendance_app/services/attendance_manager.py:103-110 | a closed LUNCH break adds its duration to the lunch sum only; any other type adds it to the other-break sum only |
| WorkingHours.SpanAccounting | attendance_app/services/attendance_manager.py:101-136 | lunch and other sums are those of the IN record's ledger. If the end is after the start, worked + lunch + other = end − start. Otherwise worked = 0. |
| WorkingHours.PastDayIgnoresNow | attendance_app/services/attendance_manager.py:123-126 | a day before today gives the same hours whatever the current time |
| WorkingHours.OpenDayMonotone | attendance_app/services/attendance_manager.py:127-134 | for today's open session the worked time never decreases as the clock advances |
| WorkingHours.WorkedIsNotClamped | attendance_app/services/attendance_manager.py:132-134 | worked time goes negative when the breaks exceed the span: a concrete day gives −3600 s |
| Summary.Selected | attendance_app/services/attendance_manager.py:159-166 | the query holds exactly the IN records within [start, end], joined to their employee. When the id list is non-empty, only those employee ids are kept. |
| Summary.DateNameLeOrder | attendance_app/services/attendance_manager.py:169 | ordering by (date, employee name) is a total preorder |
| Summary.OutRecord | attendance_app/services/attendance_manager.py:190-191 | the row's OUT record is one of the day's OUT records, and there is one iff an OUT exists |
| Summary.DayHours | attendance_app/services/attendance_manager.py:176 | one hours result per query row, each from the calculator |
| Summary.Rows | attendance_app/services/attendance_manager.py:175-193 | the loop emits at most one summary row per query row |
| Summary.RowsSorted | attendance_app/services/attendance_manager.py:169-193 | filtering a (date, name)-ordered query keeps the rows ordered |
| Summary.RowsMembers | attendance_app/services/attendance_manager.py:175-193 | each summary row comes from a query row that the threshold keeps, and every such query row gives a summary row |
| Summary.SummaryOf | attendance_app/services/attendance_manager.py:151-156 | an unparseable start or end date gives the empty summary |
| Summary.FilteredAttendanceSummary | attendance_app/services/attendance_manager.py:144-195 | the loop builds exactly `SummaryOf` |
| Summary.SummaryRowsQualify | attendance_app/services/attendance_manager.py:159-193 | every summary row has an IN record in the window, for a selected employee. The threshold keeps its hours, and its OUT record and `has_out` agree with the store. |
| Summary.SummaryKeepsExactly | attendance_app/services/attendance_manager.py:179-180 | a query row appears in the summary iff no truthy threshold is given or its hours are below it |
| Summary.RowOfInjective | attendance_app/services/attendance_manager.py:183-193 | with the unique constraint, distinct query rows give distinct summary rows |
| Summary.QueryRowsDistinct | attendance_app/services/attendance_manager.py:183-193 | equal summary rows come from rows with equal hours |
| Summary.SummarySorted | attendance_app/services/attendance_manager.py:169 | the summary is ordered by (date, employee name) |
| Trends.IntervalOf | attendance_app/services/attendance_manager.py:212-217 | 'daily' and 'monthly' select their buckets; every other interval is yearly |
| Trends.BucketKeyMonotone | attendance_app/services/attendance_manager.py:213-217 | bucket keys (YYYY-MM-DD, YYYY-MM, YYYY) are ordered like the dates they bucket |
| Trends.Keys | attendance_app/services/attendance_manager.py:211-217 | exactly the bucket keys of the counted records |
| Trends.TallyOutside | attendance_app/services/attendance_manager.py:203 | a bucket without counted records keeps the `defaultdict`'s zero counters |
| Trends.Tabulate | attendance_app/services/attendance_manager.py:203-224 | the counter holds one entry per bucket that has a counted record, each equal to the fold over those records. The labels are exactly those buckets, in strictly increasing order. |
| Trends.Series | attendance_app/services/attendance_manager.py:227-229 | one value per label, read from that label's counter |
| Trends.EmotionTallyCounts | attendance_app/services/attendance_manager.py:219-222 | a bucket's happy, sad and neutral counts are the number of its records whose lower-cased emotion is that word. Its total counts every record with an emotion, and counts once more a record whose emotion reads "total", since that word is also a key of the bucket's dictionary. |
| Trends.EmotionTrends | attendance_app/services/attendance_manager.py:198-230 | labels are the buckets of records with an emotion in the window, in increasing order. Each series gives that bucket's count of the word, case-insensitively. |
| Trends.PunctualityTallyCounts | attendance_app/services/attendance_manager.py:256-259 | late counts IN records strictly after 11:00 and on-time counts the rest, so late + on_time = that bucket's IN count |
| Trends.LateOnTimeTrends | attendance_app/services/attendance_manager.py:233-266 | labels are the buckets of IN records in the window, in increasing order, and late + on_time equals each bucket's IN count |
| Trends.NextBucket | attendance_app/services/attendance_manager.py:285-297 | the next bucket start is later, with a larger key. A monthly step lands on a 1st and a yearly step keeps the month and day. Only a yearly step from Feb 29 fails. |
| Trends.Window | attendance_app/services/attendance_manager.py:284-296 | the days checked for a bucket lie between its start and the end date |
| Trends.WalkBuckets | attendance_app/services/attendance_manager.py:280-311 | the while loop visits the chain of bucket starts from `start` until past `end`. Each label comes once, in increasing order, with present + absent = headcount. It fails only when a yearly walk starts on Feb 29. |
| Trends.PresenceTrends | attendance_app/services/attendance_manager.py:269-318 | zero employees give [] and the Feb 29 yearly walk raises. Otherwise one entry per visited bucket, labels increasing, with present = distinct employees with an IN that bucket and present + absent = employee count. |
| Trends.PksAtMostRows | attendance_app/services/attendance_manager.py:274 | there are no more distinct primary keys than employee rows |
| Trends.PresentAtMostStaff | attendance_app/services/attendance_manager.py:299-307 | when every record belongs to an employee, the present count never exceeds the headcount, so absent ≥ 0 |
| AttendanceViews.ToggleBreak | attendance_app/views/attendance_views.py:397-415 | an open last break is closed at the current time. Otherwise a new open break is appended, typed LUNCH iff 13:30 ≤ t ≤ 14:30. Earlier breaks never change. |
| AttendanceViews.ToggleKeepsLedger | attendance_app/views/attendance_views.py:397-415 | a well-formed ledger stays well formed: every break is opened and only the last may be open |
| AttendanceViews.ToggleTwice | attendance_app/views/attendance_views.py:397-415 | two toggles on a closed ledger append exactly one closed break spanning the two times |
| AttendanceViews.ClosingAddsDuration | attendance_app/views/attendance_views.py:400-403 | closing a break adds its duration to its type's sum in the calculator and leaves the other sum unchanged |
| AttendanceViews.Geofence | attendance_app/views/attendance_views.py:334-359 | the request is refused iff an office is set, both coordinates are given and the distance is strictly greater than the radius, so a point exactly at the radius passes. A skipped or failed check adds a non-empty note; a passed one adds none. |
| AttendanceViews.Truncate | attendance_app/views/attendance_views.py:345 | `int()` of a real truncates toward zero |
| AttendanceViews.MarkAdmitted | attendance_app/views/attendance_views.py:321-359 | a request naming exactly one employee that passes the geofence is decided by the action logic, with the geofence note |
| AttendanceViews.NoWriteUnlessAdmitted | attendance_app/views/attendance_views.py:321-348 | a missing or "Unknown" name, an unknown employee, or a refused geofence writes nothing and takes no action |
| AttendanceViews.ActStampsLastSeen | attendance_app/views/attendance_views.py:420-422 | every path past the geofence sets that employee's `last_seen` and no other employee changes, even when no action is taken |
| AttendanceViews.ActSuccessIffRecorded | attendance_app/views/attendance_views.py:424-440 | the status is 'success' iff a record changed, iff an attendance type is reported |
| AttendanceViews.FirstMarkIsIn | attendance_app/views/attendance_views.py:373-384 | without an IN today, exactly one IN record is appended. Its remarks are "Late entry." iff the time is after 11:00 (else "On time."), `is_late` agrees, and the emotion is kept only if truthy. |
| AttendanceViews.EveningMarkIsOut | attendance_app/views/attendance_views.py:385-394 | with an IN and no OUT at 19:00 or later, one OUT record is appended and nothing else changes |
| AttendanceViews.DaytimeMarkTogglesBreak | attendance_app/views/attendance_views.py:395-415 | with an IN and no OUT before 19:00, only the IN record's ledger changes: its open break is closed now, or a new break is opened now. Earlier breaks and the ledger invariant are preserved. |
| AttendanceViews.CheckedOutChangesNoRecord | attendance_app/views/attendance_views.py:416-418 | with IN and OUT both present, no record changes and the status is 'info' |
| AttendanceViews.ActKeepsLedgers | attendance_app/views/attendance_views.py:373-415 | every action keeps every IN record's ledger well formed |
| AttendanceViews.MarkKeepsLedgers | attendance_app/views/attendance_views.py:302-447 | a whole request keeps every ledger well formed |
| AttendanceViews.SuccessIffRecorded | attendance_app/views/attendance_views.py:424-440 | for any request, 'success' iff the record table changed |
| AttendanceViews.StampKeepsValid | attendance_app/views/attendance_views.py:421-422 | stamping `last_seen` keeps primary keys unique and every record owned |
| AttendanceViews.NewBreaksKeepValid | attendance_app/views/attendance_views.py:403-413 | saving a well-formed ledger into a record keeps the store's invariant |
| AttendanceViews.UpdateBreaks | attendance_app/views/attendance_views.py:397-415 | the in-place update sets that record's ledger to the toggled one, changes nothing else, and keeps the invariant |
| AttendanceViews.ActFor | attendance_app/views/attendance_views.py:361-440 | the imperative action leaves the tables and response exactly as `Act` says, keeps the invariant, and leaves the location and leave tables alone |
| AttendanceViews.MarkAttendanceWithGesture | attendance_app/views/attendance_views.py:302-447 | the endpoint leaves the tables and response exactly as `Mark` says and keeps the invariant |
| AttendanceViews.SeenSinceAll | attendance_app/views/attendance_views.py:460-461 | exactly the employees seen on or after the cutoff |
| AttendanceViews.LatestRecord | attendance_app/views/attendance_views.py:466-473 | none iff the employee has no record. Otherwise it is that employee's record with the latest (date, time). |
| AttendanceViews.LatestIsLatestDate | attendance_app/views/attendance_views.py:466-475 | the latest record's date is on or after every record date of that employee |
| AttendanceViews.FirstLunchIn | attendance_app/views/attendance_views.py:506-508 | the minimum `break_in` over opened LUNCH breaks, and none iff there is no such break |
| AttendanceViews.LastLunchOut | attendance_app/views/attendance_views.py:509-510 | the maximum `break_out` over closed LUNCH breaks, and none iff there is no such break |
| AttendanceViews.DayRecords | attendance_app/views/attendance_views.py:518-520 | exactly the employee's records of that date |
| AttendanceViews.TruthyRemarks | attendance_app/views/attendance_views.py:518-521 | exactly the non-empty remarks, none of them empty |
| AttendanceViews.CardOf | attendance_app/views/attendance_views.py:500-542 | the hours show 'In progress...' iff there is no OUT and the date is today. A break total is shown only when positive, and a late flag only for an IN after 11:00. Lunch times are to the minute, and a lunch-out is shown only with a lunch-in. |
| AttendanceViews.CardLateIff | attendance_app/views/attendance_views.py:523-525 | with the unique constraint, the card is late iff that day's IN record is after 11:00 |
| AttendanceViews.RowFor | attendance_app/views/attendance_views.py:465-546 | an employee without records gives no row. Otherwise the row is for the latest record's date, and 'In progress...' appears iff there is no OUT and that date is today. |
| AttendanceViews.Rows | attendance_app/views/attendance_views.py:464-546 | at most one row per recent employee |
| AttendanceViews.BuildRow | attendance_app/views/attendance_views.py:465-542 | builds exactly `RowFor` |
| AttendanceViews.RecentAttendanceRecords | attendance_app/views/attendance_views.py:451-552 | the loop and in-place sort produce exactly `RecentCards` |
| AttendanceViews.RecentCardsOrdered | attendance_app/views/attendance_views.py:549-552 | at most 10 cards (the recent employees are capped at ten on lines 460-462), ordered latest (date, in time) first, with '-' taken as the latest time |
| AttendanceViews.RowsComeFromRecentEmployees | attendance_app/views/attendance_views.py:465-542 | every row is the row of one of the recent employees |
| AttendanceViews.RowsCoverRecentEmployees | attendance_app/views/attendance_views.py:464-546 | every recent employee with at least one record has its row among the rows |
| AttendanceViews.RecentEmployeesFacts | attendance_app/views/attendance_views.py:457-462 | the recent employees are at most ten employees of the table, each seen on or after the cutoff 7 days back, most recently seen first |
| AttendanceViews.RecentEmployeesAreLatestSeen | attendance_app/views/attendance_views.py:457-462 | an employee seen since the cutoff is left out only when the list is full at ten and every listed employee was seen no earlier |
| AttendanceViews.RecentEmployeeHasCard | attendance_app/views/attendance_views.py:457-552 | every recent employee with at least one record gets its card |
| AttendanceViews.CardsComeFromRecentEmployees | attendance_app/views/attendance_views.py:457-552 | every card is the card of one of the recent employees, who is in the table and was seen within the last 7 days |
| AttendanceViews.Balance | attendance_app/views/attendance_views.py:606-630 | accrued = current month number, taken = this year's leave sum, and remaining = max(0, accrued − taken). The month label is YYYY-MM. |
| AttendanceViews.EmployeeLeavesAsWritten | attendance_app/views/attendance_views.py:603-640 | as written, an unknown employee id ends in the 500 branch |
| AttendanceViews.UnknownEmployeeLeavesIs500 | attendance_app/views/attendance_views.py:603-640 | a concrete unknown id gets the 500 internal-error reply instead of the 404 |
| AttendanceViews.EmployeeLeaves | attendance_app/views/attendance_views.py:603-640 | an unknown id gives the 404 "not found" reply and a duplicated id a 500. Otherwise it is the balance of the one matching employee. |
| AttendanceViews.TakenNonNegative | attendance_app/views/attendance_views.py:612-617 | with no negative `leaves_taken`, this year's sum (or 0) is never negative |
| AttendanceViews.BalanceAtMostAccrued | attendance_app/views/attendance_views.py:610-622 | with no negative `leaves_taken`, the remaining balance never exceeds the leave accrued this year |
| AttendanceViews.MoreLeaveNeverRaisesBalance | attendance_app/views/attendance_views.py:612-622 | recording more leave never raises the remaining balance |
| AdminViews.HasLunchBreak | attendance_app/views/admin_views.py:54-55 | true iff some break is of type LUNCH |
| AdminViews.ReportLunchOut | attendance_app/views/admin_views.py:56-57 | the maximum `break_out` over LUNCH breaks, and none iff no LUNCH break is closed |
| AdminViews.LunchOutAgrees | attendance_app/views/admin_views.py:56-57 | on a well-formed ledger the report's lunch-out equals the recent card's |
| AdminViews.ProcessRecord | attendance_app/views/admin_views.py:28-86 | processing fails (`min()` of an empty sequence) iff there is a LUNCH break but none has a `break_in` |
| AdminViews.ReportRowFields | attendance_app/views/admin_views.py:28-86 | overtime = max(0, worked − 8 h) and is never negative. The out time is the OUT record's, else 07:15 PM for a past day, else 'In progress...'. Lunch in/out are the min/max over LUNCH breaks, truncated to the minute as `%I:%M %p` prints them, and the break total is '-' iff lunch + other ≤ 0. |
| AdminViews.LedgerNeverFailsReport | attendance_app/views/admin_views.py:54-55 | a well-formed ledger never hits the empty `min()` |
| AdminViews.SummaryRowsNeverShowDash | attendance_app/views/admin_views.py:63-71 | for summary rows the '-' out-time branch is unreachable, and 'In progress...' appears iff there is no OUT and the date is not past |
| AdminViews.Padded | attendance_app/views/admin_views.py:37 | zero-padded text has at least the requested width |
| AdminViews.KeyAsWritten | attendance_app/views/admin_views.py:365-385 | a sort field containing 'time' is matched first and gives a clock-time key; else one containing 'hours' gives a number key; else a text key. |
| AdminViews.OvertimeContainsTime | attendance_app/views/admin_views.py:374-378 | 'overtime_hours' contains 'time' |
| AdminViews.OvertimeKeyFails | attendance_app/views/admin_views.py:378-379 | as written, sorting by 'overtime_hours' parses "x.xx hours" as a clock time and raises |
| AdminViews.IntendedKey | attendance_app/views/admin_views.py:365-385 | with the 'hours' test first, every hours field gives a number key and the other fields are unchanged |
| AdminViews.IntendedOvertimeKey | attendance_app/views/admin_views.py:380-384 | the corrected key of 'overtime_hours' is the overtime in hours |
| AdminViews.KeyLeOrder | attendance_app/views/admin_views.py:388 | the key comparison is a total preorder |
| AdminViews.KeysOfOneKind | attendance_app/views/admin_views.py:378-385 | one sort field gives keys of one kind for every row, so rows never compare keys of different types |
| AdminViews.OrderIsOrder | attendance_app/views/admin_views.py:388 | ascending and descending row orders are total preorders |
| AdminViews.Collect | attendance_app/views/admin_views.py:363 | all rows processed keeps one report row per summary row |
| AdminViews.CollectFacts | attendance_app/views/admin_views.py:363 | processing fails iff some row fails, and otherwise keeps every processed row in order |
| AdminViews.ProcessAll | attendance_app/views/admin_views.py:363 | one report row per summary row |
| AdminViews.ProcessAllFacts | attendance_app/views/admin_views.py:363 | the list comprehension fails iff some summary row hits the empty `min()`, and otherwise gives each row's report row in order |
| AdminViews.AttendanceTable | attendance_app/views/admin_views.py:334-395 | a produced table has one row per summary row |
| AdminViews.TableIsPermutation | attendance_app/views/admin_views.py:357-388 | the table fails iff processing fails or a key raises; otherwise it is a permutation of the processed rows |
| AdminViews.TableOrdered | attendance_app/views/admin_views.py:387-388 | rows are in descending key order iff sort_order is 'desc', and in ascending order otherwise |
| AdminViews.MissingDatesMeanToday | attendance_app/views/admin_views.py:344-348 | a missing start or end date means today |
| AdminViews.UnparseableThresholdIgnored | attendance_app/views/admin_views.py:350-355 | an unparseable `total_hours_lt` filters nothing |
| AdminViews.OnlyDescReverses | attendance_app/views/admin_views.py:387-388 | any sort order other than 'desc' sorts as the default ascending one |
| AdminViews.OvertimeSortFails | attendance_app/views/admin_views.py:365-388 | as written, sorting a non-empty table by 'overtime_hours' fails |
| AdminViews.IntendedOvertimeSortSucceeds | attendance_app/views/admin_views.py:365-388 | with the corrected key, sorting by 'overtime_hours' yields a table whenever the rows can be processed |
| AdminViews.DaysWith | attendance_app/views/admin_views.py:110-114 | the distinct dates on which the employee has an IN in the period (or an IN or OUT, for the data endpoint on lines 206-214) |
| AdminViews.HoursOfDays | attendance_app/views/admin_views.py:116-120 | one calculator result per day |
| AdminViews.ViewDays | attendance_app/views/admin_views.py:116-128 | the employee's overtime total is never negative |
| AdminViews.ViewDayRules | attendance_app/views/admin_views.py:121-127 | a closed or past day counts its worked hours. Today's open session counts max(0, hours − 1), the 1 coming from 14 − 13. Daily overtime = max(0, hours − 9). |
| AdminViews.OvertimeStandardsDiffer | attendance_app/views/admin_views.py:34-127 | an 8.5 h day shows 0.5 h overtime in the report and none on the dashboard |
| AdminViews.EmployeesTotals | attendance_app/views/admin_views.py:105-130 | overtime total ≥ 0, and the present set is the employees with an IN in the period |
| AdminViews.EmployeesTotalsStep | attendance_app/views/admin_views.py:109-130 | each employee adds its days' hours and overtime to the totals and its pk to the present set iff it has a day |
| AdminViews.ViewDaysStep | attendance_app/views/admin_views.py:116-128 | each day adds its adjusted hours and their overtime |
| AdminViews.EmployeeDays | attendance_app/views/admin_views.py:116-128 | the inner loop computes exactly `ViewDays` |
| AdminViews.CollectViewTotals | attendance_app/views/admin_views.py:105-130 | the outer loop computes exactly `EmployeesTotals` |
| AdminViews.DashboardView | attendance_app/views/admin_views.py:89-134 | the view's figures are exactly `DashboardOf` |
| AdminViews.PresentMeansRecorded | attendance_app/views/admin_views.py:107-130 | an employee is present iff it has a record of the counted kind in the period |
| AdminViews.Absentees | attendance_app/views/admin_views.py:132-133 | exactly the employees not present (also used for the data endpoint on lines 250-252) |
| AdminViews.DashboardAbsentees | attendance_app/views/admin_views.py:132-139 | absentees = all employees minus those with an IN in the period, overtime ≥ 0, at most 5 listed |
| AdminViews.PeriodDays | attendance_app/views/admin_views.py:219-228 | days_present never exceeds the number of days |
| AdminViews.PeriodDaysStep | attendance_app/views/admin_views.py:226-228 | each day adds its hours, and counts as present iff its hours are > 0 |
| AdminViews.PeriodHoursOf | attendance_app/views/admin_views.py:216-228 | one entry per employee with a record in the period, whose days_present never exceeds its number of days |
| AdminViews.PeriodHoursCover | attendance_app/views/admin_views.py:219-225 | every employee with a record in the period has an entry |
| AdminViews.PeriodStep | attendance_app/views/admin_views.py:219-228 | each employee adds its entry iff it has a day, and its pk to the present set |
| AdminViews.PeriodOvertimeRule | attendance_app/views/admin_views.py:237-244 | per-employee overtime = max(0, total − 8·days_present), and positive only with days_present > 0 |
| AdminViews.OvertimeTotal | attendance_app/views/admin_views.py:233-241 | the overtime total is never negative |
| AdminViews.OvertimeEntries | attendance_app/views/admin_views.py:242-244 | exactly the entries with positive overtime, each carrying it |
| AdminViews.OvertimeStep | attendance_app/views/admin_views.py:237-244 | each entry adds its overtime to the total and, when positive, one item to the list |
| AdminViews.Attending | attendance_app/views/admin_views.py:255 | exactly the entries with total hours > 0 |
| AdminViews.MoreOrders | attendance_app/views/admin_views.py:254-264 | the two descending orders are total preorders |
| AdminViews.DashboardDataWith | attendance_app/views/admin_views.py:212 | the endpoint raises NameError iff `defaultdict` is not among the module's names, and otherwise returns `DashboardDataOf` |
| AdminViews.DashboardDataAlwaysFails | attendance_app/views/admin_views.py:212 | with the module's actual imports (lines 2-23), every call raises NameError on `defaultdict` |
| AdminViews.CollectPeriodHours | attendance_app/views/admin_views.py:216-228 | the grouping loop computes exactly `PeriodHoursOf` and the present set |
| AdminViews.CollectOvertime | attendance_app/views/admin_views.py:233-244 | the loop computes exactly the overtime total and list |
| AdminViews.EmployeePeriod | attendance_app/views/admin_views.py:219-228 | one employee's days computed in a loop equal `PeriodDays` |
| AdminViews.DashboardData | attendance_app/views/admin_views.py:193-264 | with `defaultdict` imported, the endpoint's figures are exactly `DashboardDataOf` |
| AdminViews.TopAttendanceFacts | attendance_app/views/admin_views.py:254-258 | at most 5 entries, by total hours descending, all with hours > 0 |
| AdminViews.TopOvertimeOf | attendance_app/views/admin_views.py:260-264 | at most 5, by overtime descending, each overtime = total − 8·days_present > 0 |
| AdminViews.TopOvertimeFacts | attendance_app/views/admin_views.py:237-264 | the dashboard's overtime top-5 is sorted descending with positive, correctly computed overtime |
| AdminViews.TopAbsenteesFacts | attendance_app/views/admin_views.py:246-252 | at most 5 absentees, ordered by name, each without a record in the period |
| AdminViews.AbsenteesSorted | attendance_app/views/admin_views.py:250-252 | filtering a name-ordered list keeps it name-ordered |
| FaceRecognizer.Loadable | attendance_app/face_recognizer.py:45-51 | the loaded employees are no more than the query's |
| FaceRecognizer.LoadableMembers | attendance_app/face_recognizer.py:46-51 | an employee is loaded iff it is in the query with a truthy bytes encoding |
| FaceRecognizer.LoadableSorted | attendance_app/face_recognizer.py:41-51 | loading a name-ordered query (the Employee model's `ordering = ['name']`) keeps the entries in name order |
| FaceRecognizer.LoadFailsByName | attendance_app/face_recognizer.py:40-59 | loading fails on the name-ordered query iff some employee of the table has bytes that fail to unpickle |
| FaceRecognizer.LoadableSplits | attendance_app/face_recognizer.py:45-51 | loading distributes over the table: the loaded list of `xs + ys` is that of `xs` followed by that of `ys`, so the cache keeps the query's order |
| FaceRecognizer.FirstIndex | attendance_app/face_recognizer.py:142 | `list.index` gives the first position holding the id |
| FaceRecognizer.RemoveAtShifts | attendance_app/face_recognizer.py:143-145 | `pop(k)` keeps the entries before k and shifts the later ones down by one |
| FaceRecognizer.RemoveFirstOfDistinct | attendance_app/face_recognizer.py:141-145 | when ids are held once, the deleted id is gone and every other id stays |
| FaceRecognizer.FaceRecognitionSystem.constructor | attendance_app/face_recognizer.py:25-28 | the first construction takes the tolerance (default 0.6) and loads the cache from the employees by name |
| FaceRecognizer.FaceRecognitionSystem.LoadEncodings | attendance_app/face_recognizer.py:31-59 | the three lists are reset and rebuilt, aligned, from the loadable employees in name order, the order `Employee.objects.all()` returns under the model's `ordering = ['name']`. An unpicklable encoding leaves all three empty. |
| FaceRecognizer.FaceRecognitionSystem.DeleteEmployeeEncoding | attendance_app/face_recognizer.py:137-148 | returns True iff the id is cached. If so, the entry at its first index is removed from all three lists; otherwise nothing changes. The lists stay aligned. |
| FaceRecognizer.DeleteKeepsEntries | attendance_app/face_recognizer.py:143-145 | after deletion each remaining entry still pairs the name, id and encoding it had, in the same relative order |
| FaceRecognizer.LoadedEntries | attendance_app/face_recognizer.py:49-51 | each position of a loaded cache holds the name, id and encoding of one loadable employee of the table, and the names come in name order |
| ApiViews.ToFloat | attendance_app/views/api_views.py:42-43 | `float()` keeps a JSON number and raises ValueError only on unparseable text |
| ApiViews.ToInt | attendance_app/views/api_views.py:44 | `int()` truncates a finite number toward zero. It raises ValueError only on NaN or unparseable text. |
| ApiViews.Check | attendance_app/views/api_views.py:28-56 | a missing or null field gives 400 "Missing location data…". An accepted setting has a positive radius, and every refusal is a 400 or 500 error. |
| ApiViews.SaveLocationSettings | attendance_app/views/api_views.py:28-81 | on acceptance the single location row is created if absent and set to exactly the validated values. On refusal nothing is saved. The other tables never change, so the store invariant is kept. |
| ApiViews.NonFiniteRefused | attendance_app/views/api_views.py:51-56 | with the conversions done, the setting is accepted iff both coordinates are finite and the radius is > 0; otherwise the reply is the 400 range error |
| ApiViews.ConversionFailures | attendance_app/views/api_views.py:41-81 | a ValueError in a conversion gives the 400 numeric error, while `int()` of an infinite radius ends in the 500 catch-all |
| ApiViews.RadiusTruncation | attendance_app/views/api_views.py:44-51 | a radius of 0.9 truncates to 0 and is refused; 250.7 is saved as 250 |
| ApiViews.SaveThenGet | attendance_app/views/api_views.py:58-98 | reading after an accepted save returns exactly the saved coordinates and the truncated radius |
| ApiViews.GetLocationSettings | attendance_app/views/api_views.py:90-101 | 404 iff no row exists, else the stored values |
| ApiViews.RefsOf | attendance_app/views/api_views.py:162-164 | one (id, name) pair per employee, in order |
| ApiViews.EligibleAreDevelopersByName | attendance_app/views/api_views.py:160-164 | the list holds exactly the TRAINEE, JUNIOR_DEVELOPER and SENIOR_DEVELOPER employees, ordered by name |
| Models.Developers | attendance_app/views/api_views.py:160-161 | exactly the employees with one of the three developer or trainee roles |
| Models.FindEmployee | attendance_app/services/attendance_manager.py:159-166 | the join from a record to its employee: the position of the employee with that primary key, and none iff there is none |
| Models.GetBy | attendance_app/views/attendance_views.py:326-331 | `objects.get` finds the one matching row; no match and two or more matches are told apart |
| Models.FindRecord | attendance_app/services/attendance_manager.py:82-92 | `.first()` of a record filter is the first matching row, and none iff no row matches |
| Forms.HeldByOther | attendance_app/forms.py:77 | true iff some employee other than the form's own holds the id |
| Forms.CleanEmployeeId | attendance_app/forms.py:70-79 | an id held by a different employee is refused with "An employee with this ID already exists.", and an employee's own id is accepted. An accepted id is returned unchanged. |
| Forms.WithId | attendance_app/forms.py:79 | saving the edited employee changes only its id |
| Forms.CreateKeepsIdsUnique | attendance_app/forms.py:70-79 | an id accepted for a new employee keeps the unique `employee_id` column unique once added |
| Forms.UpdateKeepsIdsUnique | attendance_app/forms.py:76-79 | an id accepted for an edited employee keeps the ids unique once saved |
| Forms.RefusedIdWouldRepeat | attendance_app/forms.py:77-78 | a refused id would be held twice if saved |
| Forms.TeamChoices | attendance_app/forms.py:59-61 | the team-member choices are exactly the developer and trainee employees, ordered by name |
| Forms.EmployeeForm.constructor | attendance_app/forms.py:56-68 | the photo is required unless editing a saved employee that has one. team_members is optional, with exactly the developer and trainee employees as choices, by name. |

## Left out

- **Geodesic distance.** The ellipsoidal distance and the float conversion of coordinates are a given `GeoOutcome`.
- **Face recognition.**
  - Image download, face detection, encoding and `recognize_face` are left out.
  - `recognize_face_for_prompt` is a placeholder and is left out.
  - The recogniser's verdict is the requested name.
- **Pickling.** `pickle.loads` is modelled only by its outcome: an encoding, or a failure.
- **S3 upload and the registration flows.** These are network I/O and foreign calls.
- **Rendering.** HTML rendering, JSON serialisation, and the CSV/XLSX/PDF exporters are left out, including their column-width scaling.
- **Time zones.** There is one local clock, `now`; `make_aware` and `localtime` are left out. `create_attendance_record` uses the same `now` as the decision that calls it.
- **Microseconds.** Times are whole seconds. Report and card times are kept to the minute, as `%I:%M %p` prints them.
- **Float formatting and float arithmetic.** Hours stay integer seconds, and the `:.2f`/`:.1f` texts are left out.
  - Hundredths of an hour are used only as the sort key of the hours columns.
  - Thresholds are compared as exact reals.
  - `AttendanceManager.RoundHalfEven` rounds an exact real, not a binary float.
- **Parsing text.**
  - What `strptime`, `float()` and `int()` make of a string is given with the request, not parsed.
  - `DateArg`, `DateParam` and `NumberParam` carry that verdict.
  - `ApiViews.Json.Text` carries the verdicts of `float()` and `int()`.
- **Exception texts.** The text of an exception appended to a 500 reply is left out. The reply carries only the fixed prefix.
- **Integrity errors.** The IntegrityError branch of `save_location_settings` cannot arise in the model and is left out.
- AttendanceManager.CreateAttendanceRecord: requires that no record with the same (employee, date, type) exists. The database would raise IntegrityError on the unique constraint, and that path is not modelled; every caller checks for the record first.
- **The settings row.** The single location row is one optional value. `get_or_create(pk=1)` and `first()` therefore name the same row, whatever other rows the table might hold.
- **Ties in database ordering.** Rows that compare equal under `order_by`/`sorted` keep table order; the database's own tie order is left out.
- **The dashboard data endpoint's grouping.** The `(employee, date)` grouping of `get_dashboard_data` (lines 206-228) is computed per employee over its distinct record dates. This gives the same per-employee sums. `order_by('employee', …)` orders by the employee's own `ordering = ['name']`, so the dictionary's insertion order is already by name; the model's per-employee entries follow the employees sorted by name, and the two orders can differ only between employees with equal names, which matters only for ties in the top-5 lists.
- **Presence trend bucket keys.** The presence trend labels are visited in increasing order and emitted as they are visited. Sorting those labels is shown to be the identity rather than performed.
- **Presence trend walk from Feb 29.** When a yearly walk starts on Feb 29, `replace(year=...)` raises. The model reports this as a failure outcome rather than an exception.
- **Singleton and concurrency.** `transaction.atomic`, the process-global singleton of `FaceRecognitionSystem.__new__`, and the other endpoints are left out: authentication, health check, routing, the admin site, and the migration and recovery scripts.
- **Python's date range.** Years are unbounded; the 1–9999 limit of `datetime.date` is left out.
- AttendanceViews.Geofence: for a skipped or failed check, the contract says only that a non-empty note is added. The note's exact wording is fixed by the function itself.
- AdminViews.ViewDays: on its own, the contract states only that overtime is non-negative. The per-day rules are stated by `AdminViews.ViewDayRules` and `AdminViews.ViewDaysStep`.
- AdminViews.DashboardAbsentees: the total overtime of the data endpoint is not given its own lemma beyond non-negativity (`AdminViews.OvertimeTotal`).

## Findings

| source | as written | input that shows it | evidently intended | confidence | as-written member | corrected member |
|---|---|---|---|---|---|---|
| attendance_app/views/admin_views.py:212 | `defaultdict(list)` is used, but `defaultdict` is never imported (imports at lines 2-23), so every call raises NameError and the 500 page is returned | any request to the dashboard data endpoint | group the records with `collections.defaultdict` and return the computed figures | high (not executed) | AdminViews.DashboardDataAlwaysFails | AdminViews.DashboardData |
| attendance_app/views/attendance_views.py:603-640 | `get_object_or_404` raises Http404, not `Employee.DoesNotExist`, so an unknown id skips the 404 handler and lands in the generic 500 handler | employee_id "EMP001" with no such employee | a 404 "Employee with ID … not found." reply | high (not executed) | AttendanceViews.UnknownEmployeeLeavesIs500 | AttendanceViews.EmployeeLeaves |
| attendance_app/views/admin_views.py:374-379 | 'overtime_hours' contains 'time', so it takes the clock-time branch and `strptime("0.00 hours", '%I:%M %p')` raises, failing the table | sort_by=overtime_hours on any non-empty table | sort numerically, like the other hours column | high (not executed) | AdminViews.OvertimeSortFails | AdminViews.IntendedOvertimeSortSucceeds |

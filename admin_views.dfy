/** The administrator's views: one report row per summary row, the
    attendance table's sort, and the hour, overtime and absentee aggregates
    of the dashboard and of its data endpoint. */
module AdminViews {
  import opened Common
  import opened Calendar
  import opened Models
  import opened Sorting
  import opened WorkingHours
  import opened Summary
  import AttendanceManager
  import AttendanceViews

  // ------------------------------------------------------------ report rows

  /** `standard_work_hours = 8.0` of the report, in seconds. */
  const ReportStandardSeconds: int := 8 * 3600

  /** A duration as `:.2f` prints it in hours, counted in hundredths of an
      hour. */
  function Hundredths(seconds: int): int {
    AttendanceManager.RoundHalfEven(seconds as real / 36.0)
  }

  /** The report's out-time cell: a clock time (the OUT record's or the
      07:15 PM default), 'In progress...', or '-'. */
  datatype OutCell = OutAt(t: Time) | InProgress | NoOut

  /** One report row. Times are to the minute; `breakSeconds` is `None` for
      '-'. */
  datatype ReportRow = ReportRow(
    employeeName: string,
    employeeId: string,
    date: Date,
    inTime: Time,
    outTime: OutCell,
    lunchIn: Option<Time>,
    lunchOut: Option<Time>,
    breakSeconds: Option<int>,
    workedSeconds: int,
    overtimeSeconds: int)

  /** Whether any break is of type LUNCH. */
  function HasLunchBreak(bs: seq<Break>): (b: bool)
    ensures b <==> exists i :: 0 <= i < |bs| && bs[i].breakType == Lunch
  {
    if bs == [] then false
    else
      assert forall i :: 1 <= i < |bs| ==> bs[i] == bs[1..][i - 1];
      bs[0].breakType == Lunch || HasLunchBreak(bs[1..])
  }

  /** `max(b.break_out for b in lunch_breaks if b.break_out)`, `None` when no
      LUNCH break is closed. */
  function ReportLunchOut(bs: seq<Break>): (r: Option<Time>)
    ensures r.None? <==> forall i :: 0 <= i < |bs| ==> !(bs[i].breakType == Lunch && bs[i].breakOut.Some?)
    ensures r.Some? ==> exists i :: 0 <= i < |bs| && bs[i].breakType == Lunch && bs[i].breakOut == r
    ensures r.Some? ==> forall i :: 0 <= i < |bs| && bs[i].breakType == Lunch && bs[i].breakOut.Some? ==>
      bs[i].breakOut.value <= r.value
    decreases |bs|
  {
    if bs == [] then None
    else
      var n := |bs| - 1;
      var before := ReportLunchOut(bs[..n]);
      assert forall i :: 0 <= i < n ==> bs[..n][i] == bs[i];
      if !(bs[n].breakType == Lunch && bs[n].breakOut.Some?) then before
      else if before.Some? && bs[n].breakOut.value <= before.value then before
      else bs[n].breakOut
  }

  /** On a well-formed break list every break is opened, so the report's
      last lunch-out is the recent-records card's. */
  lemma {:induction false} LunchOutAgrees(bs: seq<Break>)
    requires LedgerOk(bs)
    ensures ReportLunchOut(bs) == AttendanceViews.LastLunchOut(bs)
    decreases |bs|
  {
    if bs != [] {
      var n := |bs| - 1;
      assert LedgerOk(bs[..n]) by {
        assert forall i :: 0 <= i < n ==> bs[..n][i] == bs[i];
      }
      LunchOutAgrees(bs[..n]);
    }
  }

  /** What `_process_attendance_record_for_report` gives: a row, or the
      `ValueError` of `min()` over no opened LUNCH break when LUNCH breaks
      exist but none has a `break_in`. */
  datatype Processed = Processed(row: ReportRow) | LunchInMissing

  /** `min()` of the LUNCH breaks' `break_in`s raises when there are LUNCH
      breaks but none of them is opened. */
  predicate LunchInFails(bs: seq<Break>) {
    HasLunchBreak(bs) && AttendanceViews.FirstLunchIn(bs).None?
  }

  /** The row of a summary row whose day has hours `h`, on day `today`. */
  function ReportRowOf(s: SummaryRow, h: Hours, today: Date): ReportRow {
    var breaks := h.lunch + h.otherBreaks;
    var outCell :=
      if s.outRecord.Some? then OutAt(ToMinute(s.outRecord.value.time))
      else if !h.hasOut && Before(s.date, today) then OutAt(AttendanceManager.OutTimeDefault)
      else if !h.hasOut then InProgress
      else NoOut;
    ReportRow(
      s.employee.name, s.employee.employeeId, s.date, s.inTime, outCell,
      OptionToMinute(if HasLunchBreak(s.breaks) then AttendanceViews.FirstLunchIn(s.breaks) else None),
      OptionToMinute(ReportLunchOut(s.breaks)),
      if breaks > 0 then Some(breaks) else None,
      h.worked,
      if h.worked > ReportStandardSeconds then h.worked - ReportStandardSeconds else 0)
  }

  /** `_process_attendance_record_for_report(record, today)` on a summary
      row, with the hours of `calculate_working_hours` at `now`. */
  function ProcessRecord(s: SummaryRow, rs: seq<AttendanceRecord>, now: Instant): (r: Processed)
    ensures r.LunchInMissing? <==> LunchInFails(s.breaks)
  {
    if LunchInFails(s.breaks) then LunchInMissing
    else Processed(ReportRowOf(s, HoursOf(rs, s.employee.pk, s.date, now), now.date))
  }

  /** The report row of a day: the worked time of `calculate_working_hours`,
      overtime beyond 8 hours and never negative, the break total shown only
      when positive, the out cell by the OUT record, then by whether the day
      is past, and the LUNCH bounds. */
  lemma ReportRowFields(s: SummaryRow, rs: seq<AttendanceRecord>, now: Instant)
    requires ProcessRecord(s, rs, now).Processed?
    ensures var row := ProcessRecord(s, rs, now).row;
      var h := HoursOf(rs, s.employee.pk, s.date, now);
      && row.employeeId == s.employee.employeeId && row.date == s.date && row.inTime == s.inTime
      && row.workedSeconds == h.worked
      && row.overtimeSeconds >= 0
      && row.overtimeSeconds >= h.worked - ReportStandardSeconds
      && (h.worked > ReportStandardSeconds ==> row.overtimeSeconds == h.worked - ReportStandardSeconds)
      && (h.worked <= ReportStandardSeconds ==> row.overtimeSeconds == 0)
      && (row.breakSeconds.None? <==> h.lunch + h.otherBreaks <= 0)
      && (row.breakSeconds.Some? ==> row.breakSeconds.value == h.lunch + h.otherBreaks)
      && (s.outRecord.Some? ==> row.outTime == OutAt(ToMinute(s.outRecord.value.time)))
      && (s.outRecord.None? && !h.hasOut && Before(s.date, now.date) ==>
            row.outTime == OutAt(AttendanceManager.OutTimeDefault))
      && (s.outRecord.None? && !h.hasOut && !Before(s.date, now.date) ==> row.outTime == InProgress)
      && (s.outRecord.None? && h.hasOut ==> row.outTime == NoOut)
      && (row.lunchIn.None? <==> !HasLunchBreak(s.breaks))
      && (row.lunchIn.Some? ==> forall i :: 0 <= i < |s.breaks| && AttendanceViews.OpenedLunch(s.breaks[i]) ==>
            row.lunchIn.value <= s.breaks[i].breakIn.value)
      && (row.lunchIn.Some? ==> row.lunchIn.value % 60 == 0)
      && row.lunchOut == OptionToMinute(ReportLunchOut(s.breaks))
  {
  }

  /** A well-formed break list never makes the report fail. */
  lemma LedgerNeverFailsReport(s: SummaryRow, rs: seq<AttendanceRecord>, now: Instant)
    requires LedgerOk(s.breaks)
    ensures ProcessRecord(s, rs, now).Processed?
  {
    if HasLunchBreak(s.breaks) {
      var i :| 0 <= i < |s.breaks| && s.breaks[i].breakType == Lunch;
      assert AttendanceViews.OpenedLunch(s.breaks[i]);
    }
  }

  /** A summary row's out cell is never '-': a row comes from an IN record,
      so `has_out` holds exactly when there is an OUT record. A day without
      OUT shows 07:15 PM when past and 'In progress...' otherwise. */
  lemma SummaryRowsNeverShowDash(rs: seq<AttendanceRecord>, es: seq<Employee>, start: Date, end: Date,
                                 ids: seq<string>, threshold: Option<real>, now: Instant, s: SummaryRow)
    requires s in SummaryOf(rs, es, Parsed(start), Parsed(end), ids, threshold, now)
    requires ProcessRecord(s, rs, now).Processed?
    ensures ProcessRecord(s, rs, now).row.outTime != NoOut
    ensures ProcessRecord(s, rs, now).row.outTime == InProgress <==>
      FindRecord(rs, s.employee.pk, s.date, Out).None? && !Before(s.date, now.date)
  {
    SummaryRowsQualify(rs, es, start, end, ids, threshold, now, s);
    ReportRowFields(s, rs, now);
  }

  // ------------------------------------------------------------ the table

  /** A `dynamic_sort_key` value: a clock time, a number of hours (in
      hundredths) or a string. */
  datatype SortKey = TimeKey(t: Time) | NumberKey(hundredths: int) | TextKey(text: string)

  /** `f"{n:0<w>d}"`. */
  function Padded(n: nat, w: nat): (r: string)
    ensures |r| >= w
  {
    var t := NatText(n);
    if |t| >= w then t else seq(w - |t|, _ => '0') + t
  }

  /** `date.strftime('%Y-%m-%d')`. */
  function IsoDate(d: Date): string {
    Padded(if d.year >= 0 then d.year else 0, 4) + "-" + Padded(d.month, 2) + "-" + Padded(d.day, 2)
  }

  /** `dynamic_sort_key(item)` as written, `None` where `strptime` raises
      `ValueError`. A `sort_by` containing "time" is matched first, so
      'overtime_hours' is parsed as a clock time and fails. */
  function KeyAsWritten(sortBy: string, row: ReportRow): (k: Option<SortKey>)
    ensures Contains(sortBy, "time") && k.Some? ==> k.value.TimeKey?
    ensures !Contains(sortBy, "time") && Contains(sortBy, "hours") ==> k.Some? && k.value.NumberKey?
    ensures !Contains(sortBy, "time") && !Contains(sortBy, "hours") ==> k.Some? && k.value.TextKey?
  {
    if Contains(sortBy, "time") then
      if sortBy == "in_time" then Some(TimeKey(row.inTime))
      else if sortBy == "out_time" then
        match row.outTime
        case OutAt(t) => Some(TimeKey(t))
        case InProgress => None
        case NoOut => Some(TimeKey(Midnight))
      else if sortBy == "overtime_hours" then None
      else Some(TimeKey(Midnight))
    else if Contains(sortBy, "hours") then
      if sortBy == "total_working_hours" then Some(NumberKey(Hundredths(row.workedSeconds)))
      else Some(NumberKey(0))
    else if sortBy == "employee_name" then Some(TextKey(row.employeeName))
    else if sortBy == "employee_id" then Some(TextKey(row.employeeId))
    else if sortBy == "date" then Some(TextKey(IsoDate(row.date)))
    else Some(TextKey(""))
  }

  lemma OvertimeContainsTime()
    ensures Contains("overtime_hours", "time")
  {
    assert StartsWith("overtime_hours"[4..], "time");
    assert Contains("overtime_hours"[4..], "time");
    assert Contains("overtime_hours"[3..], "time");
    assert Contains("overtime_hours"[2..], "time");
    assert Contains("overtime_hours"[1..], "time");
  }

  /** The 'overtime_hours' key cannot be computed for any row. */
  lemma OvertimeKeyFails(row: ReportRow)
    ensures KeyAsWritten("overtime_hours", row).None?
  {
    OvertimeContainsTime();
  }

  /** `dynamic_sort_key` with the "hours" test ahead of the "time" test, so
      that the two hour columns sort as numbers. */
  function IntendedKey(sortBy: string, row: ReportRow): (k: Option<SortKey>)
    ensures Contains(sortBy, "hours") ==> k.Some? && k.value.NumberKey?
    ensures !Contains(sortBy, "hours") ==> k == KeyAsWritten(sortBy, row)
  {
    if Contains(sortBy, "hours") then
      if sortBy == "overtime_hours" then Some(NumberKey(Hundredths(row.overtimeSeconds)))
      else if sortBy == "total_working_hours" then Some(NumberKey(Hundredths(row.workedSeconds)))
      else Some(NumberKey(0))
    else KeyAsWritten(sortBy, row)
  }

  /** With the intended key, sorting by overtime sorts by the overtime
      shown. */
  lemma IntendedOvertimeKey(row: ReportRow)
    ensures IntendedKey("overtime_hours", row) == Some(NumberKey(Hundredths(row.overtimeSeconds)))
  {
    assert StartsWith("overtime_hours"[9..], "hours");
    assert Contains("overtime_hours"[8..], "hours");
    assert Contains("overtime_hours"[7..], "hours");
    assert Contains("overtime_hours"[6..], "hours");
    assert Contains("overtime_hours"[5..], "hours");
    assert Contains("overtime_hours"[4..], "hours");
    assert Contains("overtime_hours"[3..], "hours");
    assert Contains("overtime_hours"[2..], "hours");
    assert Contains("overtime_hours"[1..], "hours");
  }

  function Rank(k: SortKey): nat {
    match k
    case TimeKey(_) => 0
    case NumberKey(_) => 1
    case TextKey(_) => 2
  }

  /** Python's `<=` on keys. The keys of one sort are all of one kind
      (`KeysOfOneKind`), so the rank never decides between them. */
  predicate KeyLe(a: SortKey, b: SortKey) {
    match (a, b)
    case (TimeKey(x), TimeKey(y)) => x <= y
    case (NumberKey(x), NumberKey(y)) => x <= y
    case (TextKey(x), TextKey(y)) => StrLe(x, y)
    case _ => Rank(a) < Rank(b)
  }

  lemma KeyLeOrder()
    ensures Total(KeyLe) && Transitive(KeyLe)
  {
    forall a: SortKey, b: SortKey ensures KeyLe(a, b) || KeyLe(b, a) {
      if a.TextKey? && b.TextKey? {
        StrLeTotal(a.text, b.text);
      }
    }
    forall a: SortKey, b: SortKey, c: SortKey | KeyLe(a, b) && KeyLe(b, c) ensures KeyLe(a, c) {
      if a.TextKey? && b.TextKey? && c.TextKey? {
        StrLeTrans(a.text, b.text, c.text);
      }
    }
  }

  /** All the keys one `sort_by` gives are of one kind. */
  lemma KeysOfOneKind(sortBy: string, r1: ReportRow, r2: ReportRow)
    requires KeyAsWritten(sortBy, r1).Some? && KeyAsWritten(sortBy, r2).Some?
    ensures Rank(KeyAsWritten(sortBy, r1).value) == Rank(KeyAsWritten(sortBy, r2).value)
  {
  }

  /** The key a row sorts by; a row whose key raises never reaches the
      sort, so the fallback is never used. */
  function RowKey(key: (string, ReportRow) -> Option<SortKey>, sortBy: string, row: ReportRow): SortKey {
    var k := key(sortBy, row);
    if k.Some? then k.value else TextKey("")
  }

  /** Every row's key can be computed. */
  predicate KeysDefined(key: (string, ReportRow) -> Option<SortKey>, sortBy: string, rows: seq<ReportRow>) {
    forall i | 0 <= i < |rows| :: key(sortBy, rows[i]).Some?
  }

  /** `sorted(..., key=dynamic_sort_key, reverse=desc)`: a row may come
      first when its key is not above (not below, when descending) the
      other's. */
  function Order(key: (string, ReportRow) -> Option<SortKey>, sortBy: string, desc: bool): (ReportRow, ReportRow) -> bool {
    if desc then (a: ReportRow, b: ReportRow) => KeyLe(RowKey(key, sortBy, b), RowKey(key, sortBy, a))
    else (a: ReportRow, b: ReportRow) => KeyLe(RowKey(key, sortBy, a), RowKey(key, sortBy, b))
  }

  lemma OrderIsOrder(key: (string, ReportRow) -> Option<SortKey>, sortBy: string, desc: bool)
    ensures Total(Order(key, sortBy, desc)) && Transitive(Order(key, sortBy, desc))
  {
    KeyLeOrder();
  }

  /** `start_date`/`end_date` query parameters: missing or empty, or given. */
  datatype DateParam = Absent | Given(arg: DateArg)

  /** The `total_hours_lt` parameter: missing or empty, a number, or text
      `float()` rejects. */
  datatype NumberParam = NoNumber | Number(value: real) | NotANumber

  /** The JSON reply, or the 500 of an uncaught exception. */
  datatype TableReply = Table(rows: seq<ReportRow>) | TableFailed

  function DateOrToday(p: DateParam, today: Date): DateArg {
    if p.Absent? then Parsed(today) else p.arg
  }

  function Threshold(p: NumberParam): Option<real> {
    if p.Number? then Some(p.value) else None
  }

  /** The processed rows, or `None` when one of them failed. */
  function Collect(ps: seq<Processed>): (r: Option<seq<ReportRow>>)
    ensures r.Some? ==> |r.value| == |ps|
    decreases |ps|
  {
    if ps == [] then Some([])
    else
      var n := |ps| - 1;
      var front := Collect(ps[..n]);
      if ps[n].LunchInMissing? || front.None? then None else Some(front.value + [ps[n].row])
  }

  lemma {:induction false} CollectFacts(ps: seq<Processed>)
    ensures Collect(ps).None? <==> exists i :: 0 <= i < |ps| && ps[i].LunchInMissing?
    ensures Collect(ps).Some? ==> forall i :: 0 <= i < |ps| ==> ps[i] == Processed(Collect(ps).value[i])
    decreases |ps|
  {
    if ps != [] {
      var n := |ps| - 1;
      var front := ps[..n];
      CollectFacts(front);
      assert forall i :: 0 <= i < n ==> front[i] == ps[i];
      if Collect(front).None? {
        var i :| 0 <= i < n && front[i].LunchInMissing?;
        assert ps[i].LunchInMissing?;
      }
    }
  }

  /** The report rows of a summary, or `None` when one of them fails. */
  function ProcessAll(summary: seq<SummaryRow>, rs: seq<AttendanceRecord>, now: Instant): (r: Option<seq<ReportRow>>)
    ensures r.Some? ==> |r.value| == |summary|
  {
    Collect(seq(|summary|, i requires 0 <= i < |summary| => ProcessRecord(summary[i], rs, now)))
  }

  /** The loop of `get_attendance_table` over the summary fails exactly
      when one row's LUNCH break has no start, and otherwise holds each
      row's report row in order. */
  lemma ProcessAllFacts(summary: seq<SummaryRow>, rs: seq<AttendanceRecord>, now: Instant)
    ensures var r := ProcessAll(summary, rs, now);
      && (r.None? <==> exists i :: 0 <= i < |summary| && LunchInFails(summary[i].breaks))
      && (r.Some? ==> forall i :: 0 <= i < |summary| ==> ProcessRecord(summary[i], rs, now) == Processed(r.value[i]))
  {
    var ps := seq(|summary|, i requires 0 <= i < |summary| => ProcessRecord(summary[i], rs, now));
    CollectFacts(ps);
    assert forall i :: 0 <= i < |summary| ==> (ps[i].LunchInMissing? <==> LunchInFails(summary[i].breaks));
  }

  /** `request.GET.get('sort_by', 'date')`. */
  function SortField(sortBy: Option<string>): string {
    if sortBy.Some? then sortBy.value else "date"
  }

  /** The summary `get_attendance_table` reports on: missing dates default
      to today, and an unparseable threshold is no threshold. */
  function TableSummary(rs: seq<AttendanceRecord>, es: seq<Employee>, startParam: DateParam, endParam: DateParam,
                        ids: seq<string>, hoursParam: NumberParam, now: Instant): seq<SummaryRow> {
    SummaryOf(rs, es, DateOrToday(startParam, now.date), DateOrToday(endParam, now.date),
              ids, Threshold(hoursParam), now)
  }

  /** `get_attendance_table(request)` up to rendering, with the sort key
      function `key` (`KeyAsWritten` is the code's): the summary, its report
      rows, and the sort by `sort_by` (default 'date'), descending exactly
      when `sort_order` is 'desc'. */
  function AttendanceTable(rs: seq<AttendanceRecord>, es: seq<Employee>, startParam: DateParam, endParam: DateParam,
                           ids: seq<string>, hoursParam: NumberParam, key: (string, ReportRow) -> Option<SortKey>,
                           sortBy: Option<string>, sortOrder: Option<string>, now: Instant): (r: TableReply)
    ensures r.Table? ==> |r.rows| == |TableSummary(rs, es, startParam, endParam, ids, hoursParam, now)|
  {
    var rows := ProcessAll(TableSummary(rs, es, startParam, endParam, ids, hoursParam, now), rs, now);
    var field := SortField(sortBy);
    if rows.None? || !KeysDefined(key, field, rows.value) then TableFailed
    else Table(SortBy(rows.value, Order(key, field, sortOrder == Some("desc"))))
  }

  /** The table fails exactly when a report row or a sort key raises;
      otherwise it holds the report rows, rearranged. */
  lemma TableIsPermutation(rs: seq<AttendanceRecord>, es: seq<Employee>, startParam: DateParam, endParam: DateParam,
                           ids: seq<string>, hoursParam: NumberParam, key: (string, ReportRow) -> Option<SortKey>,
                           sortBy: Option<string>, sortOrder: Option<string>, now: Instant)
    ensures var rows := ProcessAll(TableSummary(rs, es, startParam, endParam, ids, hoursParam, now), rs, now);
      var field := SortField(sortBy);
      var r := AttendanceTable(rs, es, startParam, endParam, ids, hoursParam, key, sortBy, sortOrder, now);
      && (r.TableFailed? <==> rows.None? || exists i :: 0 <= i < |rows.value| && key(field, rows.value[i]).None?)
      && (r.Table? ==> multiset(r.rows) == multiset(rows.value))
  {
    var summary := TableSummary(rs, es, startParam, endParam, ids, hoursParam, now);
    var rows := ProcessAll(summary, rs, now);
    var field := SortField(sortBy);
    ProcessAllFacts(summary, rs, now);
    var r := AttendanceTable(rs, es, startParam, endParam, ids, hoursParam, key, sortBy, sortOrder, now);
    if rows.Some? && KeysDefined(key, field, rows.value) {
      assert r == Table(SortBy(rows.value, Order(key, field, sortOrder == Some("desc"))));
    } else {
      assert r == TableFailed;
    }
  }

  /** The table is ordered by the keys of `sort_by`: ascending, or
      descending when `sort_order` is 'desc'. */
  lemma TableOrdered(rs: seq<AttendanceRecord>, es: seq<Employee>, startParam: DateParam, endParam: DateParam,
                     ids: seq<string>, hoursParam: NumberParam, key: (string, ReportRow) -> Option<SortKey>,
                     sortBy: Option<string>, sortOrder: Option<string>, now: Instant, i: nat, j: nat)
    requires AttendanceTable(rs, es, startParam, endParam, ids, hoursParam, key, sortBy, sortOrder, now).Table?
    requires i < j < |AttendanceTable(rs, es, startParam, endParam, ids, hoursParam, key, sortBy, sortOrder, now).rows|
    ensures var rows := AttendanceTable(rs, es, startParam, endParam, ids, hoursParam, key, sortBy, sortOrder, now).rows;
      var field := SortField(sortBy);
      && key(field, rows[i]).Some? && key(field, rows[j]).Some?
      && (sortOrder == Some("desc") ==> KeyLe(key(field, rows[j]).value, key(field, rows[i]).value))
      && (sortOrder != Some("desc") ==> KeyLe(key(field, rows[i]).value, key(field, rows[j]).value))
  {
    var rows := ProcessAll(TableSummary(rs, es, startParam, endParam, ids, hoursParam, now), rs, now).value;
    var field := SortField(sortBy);
    var le := Order(key, field, sortOrder == Some("desc"));
    var sorted := SortBy(rows, le);
    OrderIsOrder(key, field, sortOrder == Some("desc"));
    SortBySorted(rows, le);
    SortedPairs(sorted, le, i, j);
    SortByMembers(rows, le, sorted[i]);
    SortByMembers(rows, le, sorted[j]);
  }

  /** Missing dates mean today. */
  lemma MissingDatesMeanToday(rs: seq<AttendanceRecord>, es: seq<Employee>, ids: seq<string>, hoursParam: NumberParam,
                              key: (string, ReportRow) -> Option<SortKey>, sortBy: Option<string>,
                              sortOrder: Option<string>, now: Instant)
    ensures AttendanceTable(rs, es, Absent, Absent, ids, hoursParam, key, sortBy, sortOrder, now)
         == AttendanceTable(rs, es, Given(Parsed(now.date)), Given(Parsed(now.date)), ids, hoursParam, key, sortBy, sortOrder, now)
  {
  }

  /** A threshold `float()` rejects filters nothing, like no threshold. */
  lemma UnparseableThresholdIgnored(rs: seq<AttendanceRecord>, es: seq<Employee>, startParam: DateParam, endParam: DateParam,
                                    ids: seq<string>, key: (string, ReportRow) -> Option<SortKey>,
                                    sortBy: Option<string>, sortOrder: Option<string>, now: Instant)
    ensures AttendanceTable(rs, es, startParam, endParam, ids, NotANumber, key, sortBy, sortOrder, now)
         == AttendanceTable(rs, es, startParam, endParam, ids, NoNumber, key, sortBy, sortOrder, now)
  {
  }

  /** Any `sort_order` other than 'desc' sorts ascending, as the default
      does. */
  lemma OnlyDescReverses(rs: seq<AttendanceRecord>, es: seq<Employee>, startParam: DateParam, endParam: DateParam,
                         ids: seq<string>, hoursParam: NumberParam, key: (string, ReportRow) -> Option<SortKey>,
                         sortBy: Option<string>, order: string, now: Instant)
    requires order != "desc"
    ensures AttendanceTable(rs, es, startParam, endParam, ids, hoursParam, key, sortBy, Some(order), now)
         == AttendanceTable(rs, es, startParam, endParam, ids, hoursParam, key, sortBy, None, now)
  {
  }

  /** As written, asking for the table sorted by overtime fails whenever
      there is a row to show. */
  lemma OvertimeSortFails(rs: seq<AttendanceRecord>, es: seq<Employee>, startParam: DateParam, endParam: DateParam,
                          ids: seq<string>, hoursParam: NumberParam, sortOrder: Option<string>, now: Instant)
    requires TableSummary(rs, es, startParam, endParam, ids, hoursParam, now) != []
    ensures AttendanceTable(rs, es, startParam, endParam, ids, hoursParam, KeyAsWritten,
                            Some("overtime_hours"), sortOrder, now) == TableFailed
  {
    var rows := ProcessAll(TableSummary(rs, es, startParam, endParam, ids, hoursParam, now), rs, now);
    if rows.Some? {
      OvertimeKeyFails(rows.value[0]);
    }
  }

  /** With the intended key, the table sorted by overtime exists whenever
      its rows do, ordered by the overtime shown. */
  lemma IntendedOvertimeSortSucceeds(rs: seq<AttendanceRecord>, es: seq<Employee>, startParam: DateParam,
                                     endParam: DateParam, ids: seq<string>, hoursParam: NumberParam,
                                     sortOrder: Option<string>, now: Instant)
    requires ProcessAll(TableSummary(rs, es, startParam, endParam, ids, hoursParam, now), rs, now).Some?
    ensures AttendanceTable(rs, es, startParam, endParam, ids, hoursParam, IntendedKey,
                            Some("overtime_hours"), sortOrder, now).Table?
  {
    var rows := ProcessAll(TableSummary(rs, es, startParam, endParam, ids, hoursParam, now), rs, now).value;
    forall i | 0 <= i < |rows| ensures IntendedKey("overtime_hours", rows[i]).Some? {
      IntendedOvertimeKey(rows[i]);
    }
  }

  // ------------------------------------------------------------ dashboard

  /** A record of employee `pk` on day `d` inside [start, end]: an IN
      record, or an IN or OUT record when `outToo`. */
  predicate OnDay(r: AttendanceRecord, pk: nat, d: Date, start: Date, end: Date, outToo: bool) {
    r.employee == pk && r.date == d && InWindow(d, start, end) && (r.kind == In || outToo)
  }

  /** The distinct days, in table order, on which employee `pk` has such a
      record: `values_list('date', flat=True).distinct()` for the view, the
      `(employee, date)` keys of one employee for the data endpoint. */
  function DaysWith(rs: seq<AttendanceRecord>, pk: nat, start: Date, end: Date, outToo: bool): (ds: seq<Date>)
    ensures Distinct(ds)
    ensures forall d :: d in ds <==> exists i :: 0 <= i < |rs| && OnDay(rs[i], pk, d, start, end, outToo)
    decreases |rs|
  {
    if rs == [] then []
    else
      var n := |rs| - 1;
      var front := DaysWith(rs[..n], pk, start, end, outToo);
      assert forall i :: 0 <= i < n ==> rs[..n][i] == rs[i];
      if OnDay(rs[n], pk, rs[n].date, start, end, outToo) && rs[n].date !in front then
        assert forall i :: 0 <= i < |front| ==> front[i] != rs[n].date;
        front + [rs[n].date]
      else front
  }

  /** `LUNCH_TIME_END.hour - LUNCH_TIME_START.hour` hours, in seconds. */
  const LunchHourSeconds: int := (AttendanceManager.LunchTimeEnd / 3600 - AttendanceManager.LunchTimeStart / 3600) * 3600

  /** The hours `admin_dashboard_view` counts for one day: today's (or a
      later day's) session without OUT loses the lunch hour, never going
      below zero. */
  function ViewDayHours(h: Hours, d: Date, today: Date): int {
    if h.hasOut || Before(d, today) then h.worked
    else if h.worked - LunchHourSeconds > 0 then h.worked - LunchHourSeconds else 0
  }

  /** `max(0.0, hours - STANDARD_WORK_HOURS)`: overtime beyond 9 hours. */
  function DailyOvertime(x: int): int {
    var limit := AttendanceManager.StandardWorkHours * 3600;
    if x > limit then x - limit else 0
  }

  /** `calculate_working_hours` of each of one employee's days. */
  function HoursOfDays(rs: seq<AttendanceRecord>, pk: nat, ds: seq<Date>, now: Instant): (hs: seq<Hours>)
    ensures |hs| == |ds|
    ensures forall k :: 0 <= k < |ds| ==> hs[k] == HoursOf(rs, pk, ds[k], now)
  {
    seq(|ds|, k requires 0 <= k < |ds| => HoursOf(rs, pk, ds[k], now))
  }

  /** The worked and overtime sums of days `ds` with hours `hs`. */
  function ViewDays(hs: seq<Hours>, ds: seq<Date>, today: Date): (r: (int, int))
    requires |hs| == |ds|
    ensures r.1 >= 0
    decreases |ds|
  {
    if ds == [] then (0, 0)
    else
      var n := |ds| - 1;
      var front := ViewDays(hs[..n], ds[..n], today);
      var x := ViewDayHours(hs[n], ds[n], today);
      (front.0 + x, front.1 + DailyOvertime(x))
  }

  /** The running totals of `admin_dashboard_view`. */
  datatype ViewTotals = ViewTotals(workedSeconds: int, overtimeSeconds: int, present: set<nat>)

  /** The ids of the employees of `emps` that have a day with a record of
      the kinds `outToo` admits. */
  function PresentOf(emps: seq<Employee>, rs: seq<AttendanceRecord>, start: Date, end: Date, outToo: bool): set<nat>
    decreases |emps|
  {
    if emps == [] then {}
    else
      var n := |emps| - 1;
      PresentOf(emps[..n], rs, start, end, outToo)
        + (if DaysWith(rs, emps[n].pk, start, end, outToo) != [] then {emps[n].pk} else {})
  }

  /** The totals after the loop has visited employees `emps`. */
  function EmployeesTotals(emps: seq<Employee>, rs: seq<AttendanceRecord>, start: Date, end: Date, now: Instant): (t: ViewTotals)
    ensures t.overtimeSeconds >= 0
    ensures t.present == PresentOf(emps, rs, start, end, false)
    decreases |emps|
  {
    if emps == [] then ViewTotals(0, 0, {})
    else
      var n := |emps| - 1;
      var front := EmployeesTotals(emps[..n], rs, start, end, now);
      var e := emps[n];
      var ds := DaysWith(rs, e.pk, start, end, false);
      var days := ViewDays(HoursOfDays(rs, e.pk, ds, now), ds, now.date);
      ViewTotals(front.workedSeconds + days.0, front.overtimeSeconds + days.1,
                 if ds != [] then front.present + {e.pk} else front.present)
  }

  lemma EmployeesTotalsStep(emps: seq<Employee>, i: nat, rs: seq<AttendanceRecord>, start: Date, end: Date, now: Instant,
                            ds: seq<Date>, w: int, o: int)
    requires i < |emps| && ds == DaysWith(rs, emps[i].pk, start, end, false)
    requires (w, o) == ViewDays(HoursOfDays(rs, emps[i].pk, ds, now), ds, now.date)
    ensures EmployeesTotals(emps[..i + 1], rs, start, end, now).workedSeconds
      == EmployeesTotals(emps[..i], rs, start, end, now).workedSeconds + w
    ensures EmployeesTotals(emps[..i + 1], rs, start, end, now).overtimeSeconds
      == EmployeesTotals(emps[..i], rs, start, end, now).overtimeSeconds + o
    ensures EmployeesTotals(emps[..i + 1], rs, start, end, now).present
      == EmployeesTotals(emps[..i], rs, start, end, now).present + (if ds != [] then {emps[i].pk} else {})
  {
    var t := emps[..i + 1];
    assert t[..i] == emps[..i] && t[i] == emps[i] && |t| - 1 == i;
  }

  function Pks(es: seq<Employee>): set<nat> {
    set e | e in es :: e.pk
  }

  /** The employees of `es` whose id is not in `present`, in order. */
  function Absentees(es: seq<Employee>, present: set<nat>): (r: seq<Employee>)
    ensures forall x :: x in r <==> x in es && x.pk !in present
    ensures |r| <= |es|
  {
    if es == [] then []
    else (if es[0].pk !in present then [es[0]] else []) + Absentees(es[1..], present)
  }

  /** The figures `admin_dashboard_view` renders: the employee count, the
      hour and overtime totals, the absentee count and the first five
      absentees by name. */
  datatype Dashboard = Dashboard(totalEmployees: nat, workedSeconds: int, overtimeSeconds: int,
                                 absentees: nat, topAbsentees: seq<Employee>)

  function DashboardOf(es: seq<Employee>, rs: seq<AttendanceRecord>, period: string, now: Instant): Dashboard {
    var window := AttendanceManager.PeriodDates(now.date, period);
    var emps := SortBy(es, NameLe);
    var t := EmployeesTotals(emps, rs, window.0, window.1, now);
    Dashboard(|es|, t.workedSeconds, t.overtimeSeconds, |Pks(emps) - t.present|,
              Take(Absentees(emps, t.present), 5))
  }

  lemma ViewDaysStep(hs: seq<Hours>, ds: seq<Date>, j: nat, today: Date, h: Hours)
    requires |hs| == |ds| && j < |ds| && h == hs[j]
    ensures ViewDays(hs[..j + 1], ds[..j + 1], today).0
      == ViewDays(hs[..j], ds[..j], today).0 + ViewDayHours(h, ds[j], today)
    ensures ViewDays(hs[..j + 1], ds[..j + 1], today).1
      == ViewDays(hs[..j], ds[..j], today).1 + DailyOvertime(ViewDayHours(h, ds[j], today))
  {
    var h', d' := hs[..j + 1], ds[..j + 1];
    assert h'[..j] == hs[..j] && d'[..j] == ds[..j] && h'[j] == hs[j] && d'[j] == ds[j];
  }

  /** The inner loop of `admin_dashboard_view` over one employee's days. */
  method EmployeeDays(rs: seq<AttendanceRecord>, pk: nat, ds: seq<Date>, now: Instant) returns (worked: int, overtime: int)
    ensures (worked, overtime) == ViewDays(HoursOfDays(rs, pk, ds, now), ds, now.date)
  {
    ghost var hs := HoursOfDays(rs, pk, ds, now);
    worked, overtime := 0, 0;
    for j := 0 to |ds|
      invariant worked == ViewDays(hs[..j], ds[..j], now.date).0
      invariant overtime == ViewDays(hs[..j], ds[..j], now.date).1
    {
      var h := CalculateWorkingHours(rs, pk, ds[j], now);
      ViewDaysStep(hs, ds, j, now.date, h);
      var x := h.worked;
      if !(h.hasOut || Before(ds[j], now.date)) {
        x := if x - LunchHourSeconds > 0 then x - LunchHourSeconds else 0;
      }
      worked := worked + x;
      overtime := overtime + DailyOvertime(x);
    }
    assert hs[..|ds|] == hs && ds[..|ds|] == ds;
  }

  /** The loop of `admin_dashboard_view` over the employees and their IN
      days of the period. An employee's id joins the present set once it
      has a day. */
  method CollectViewTotals(rs: seq<AttendanceRecord>, emps: seq<Employee>, start: Date, end: Date, now: Instant)
    returns (t: ViewTotals)
    ensures t == EmployeesTotals(emps, rs, start, end, now)
  {
    var worked, overtime := 0, 0;
    var present: set<nat> := {};
    for i := 0 to |emps|
      invariant worked == EmployeesTotals(emps[..i], rs, start, end, now).workedSeconds
      invariant overtime == EmployeesTotals(emps[..i], rs, start, end, now).overtimeSeconds
      invariant present == EmployeesTotals(emps[..i], rs, start, end, now).present
    {
      var e := emps[i];
      var ds := DaysWith(rs, e.pk, start, end, false);
      var w, o := EmployeeDays(rs, e.pk, ds, now);
      EmployeesTotalsStep(emps, i, rs, start, end, now, ds, w, o);
      worked, overtime := worked + w, overtime + o;
      if ds != [] {
        present := present + {e.pk};
      }
    }
    assert emps[..|emps|] == emps;
    t := ViewTotals(worked, overtime, present);
  }

  /** `admin_dashboard_view(request)` up to rendering: the totals over the
      employees in name order, then the absentees. */
  method DashboardView(db: AttendanceDb, period: string, now: Instant) returns (d: Dashboard)
    ensures d == DashboardOf(db.employees, db.records, period, now)
  {
    var window := AttendanceManager.PeriodDates(now.date, period);
    var emps := SortBy(db.employees, NameLe);
    var t := CollectViewTotals(db.records, emps, window.0, window.1, now);
    var absent := Pks(emps) - t.present;
    d := Dashboard(|db.employees|, t.workedSeconds, t.overtimeSeconds, |absent|, Take(Absentees(emps, t.present), 5));
  }

  /** The present ids are exactly those of employees with a record of the
      admitted kinds in the window. */
  lemma {:induction false} PresentMeansRecorded(emps: seq<Employee>, rs: seq<AttendanceRecord>, start: Date, end: Date,
                                                outToo: bool, pk: nat)
    ensures pk in PresentOf(emps, rs, start, end, outToo) <==>
      (pk in Pks(emps) && exists i :: 0 <= i < |rs| && OnDay(rs[i], pk, rs[i].date, start, end, outToo))
    decreases |emps|
  {
    if emps != [] {
      var n := |emps| - 1;
      PresentMeansRecorded(emps[..n], rs, start, end, outToo, pk);
      assert emps == emps[..n] + [emps[n]];
      assert Pks(emps) == Pks(emps[..n]) + {emps[n].pk};
      var ds := DaysWith(rs, emps[n].pk, start, end, outToo);
      if pk == emps[n].pk && exists i :: 0 <= i < |rs| && OnDay(rs[i], pk, rs[i].date, start, end, outToo) {
        var i :| 0 <= i < |rs| && OnDay(rs[i], pk, rs[i].date, start, end, outToo);
        assert rs[i].date in ds;
      }
      if pk == emps[n].pk && ds != [] {
        assert ds[0] in ds;
      }
    }
  }

  /** The absentee count is the number of distinct employee ids without an
      IN record in the period, and the overtime total is never negative. */
  lemma DashboardAbsentees(es: seq<Employee>, rs: seq<AttendanceRecord>, period: string, now: Instant)
    ensures var window := AttendanceManager.PeriodDates(now.date, period);
      var d := DashboardOf(es, rs, period, now);
      && d.absentees == |set e | e in es && (forall i :: 0 <= i < |rs| ==> !OnDay(rs[i], e.pk, rs[i].date, window.0, window.1, false)) :: e.pk|
      && d.overtimeSeconds >= 0
      && |d.topAbsentees| <= 5
  {
    var window := AttendanceManager.PeriodDates(now.date, period);
    var emps := SortBy(es, NameLe);
    var t := EmployeesTotals(emps, rs, window.0, window.1, now);
    var absent := set e | e in es && (forall i :: 0 <= i < |rs| ==> !OnDay(rs[i], e.pk, rs[i].date, window.0, window.1, false)) :: e.pk;
    forall pk ensures pk in Pks(emps) - t.present <==> pk in absent {
      PresentMeansRecorded(emps, rs, window.0, window.1, false, pk);
      if pk in Pks(emps) {
        var e :| e in emps && e.pk == pk;
        SortByMembers(es, NameLe, e);
      }
      if pk in absent {
        var e :| e in es && e.pk == pk && (forall i :: 0 <= i < |rs| ==> !OnDay(rs[i], e.pk, rs[i].date, window.0, window.1, false));
        SortByMembers(es, NameLe, e);
      }
    }
    assert Pks(emps) - t.present == absent;
  }

  /** A day the view counts: unchanged when it has an OUT or is past;
      otherwise the lunch hour of 14 - 13 = 1 hour comes off, never below
      zero. Overtime is what exceeds 9 hours. */
  lemma ViewDayRules(h: Hours, d: Date, today: Date)
    ensures LunchHourSeconds == 3600
    ensures h.hasOut || Before(d, today) ==> ViewDayHours(h, d, today) == h.worked
    ensures !(h.hasOut || Before(d, today)) ==>
      ViewDayHours(h, d, today) >= 0 && ViewDayHours(h, d, today) >= h.worked - 3600
      && (ViewDayHours(h, d, today) == 0 || ViewDayHours(h, d, today) == h.worked - 3600)
    ensures DailyOvertime(ViewDayHours(h, d, today)) >= 0
    ensures DailyOvertime(ViewDayHours(h, d, today)) > 0 <==> ViewDayHours(h, d, today) > 9 * 3600
  {
  }

  /** The report counts overtime beyond 8 hours and the dashboard beyond 9:
      an 8.5-hour day is half an hour of overtime in the report and none on
      the dashboard. */
  lemma OvertimeStandardsDiffer(s: SummaryRow, h: Hours, today: Date)
    requires h.worked == 8 * 3600 + 1800 && h.hasOut
    ensures ReportRowOf(s, h, today).overtimeSeconds == 1800
    ensures DailyOvertime(ViewDayHours(h, s.date, today)) == 0
  {
  }

  // ------------------------------------------------------- dashboard data

  /** The entry `get_dashboard_data` keeps per employee id: the employee,
      the worked seconds of its days and the number of days with more than
      zero worked time. */
  datatype PeriodHours = PeriodHours(employee: Employee, workedSeconds: int, daysPresent: nat)

  /** The worked total of the days with hours `hs` and the count of those
      with positive worked time. */
  function PeriodDays(hs: seq<Hours>): (r: (int, nat))
    ensures r.1 <= |hs|
    decreases |hs|
  {
    if hs == [] then (0, 0)
    else
      var n := |hs| - 1;
      var front := PeriodDays(hs[..n]);
      (front.0 + hs[n].worked, if hs[n].worked > 0 then front.1 + 1 else front.1)
  }

  lemma PeriodDaysStep(hs: seq<Hours>, j: nat, h: Hours)
    requires j < |hs| && h == hs[j]
    ensures PeriodDays(hs[..j + 1]).0 == PeriodDays(hs[..j]).0 + h.worked
    ensures PeriodDays(hs[..j + 1]).1 == PeriodDays(hs[..j]).1 + (if h.worked > 0 then 1 else 0)
  {
    var t := hs[..j + 1];
    assert t[..j] == hs[..j] && t[j] == hs[j];
  }

  /** The entries of the employees of `emps` that have an IN or OUT record
      in [start, end], in the order of `emps`. */
  function PeriodHoursOf(emps: seq<Employee>, rs: seq<AttendanceRecord>, start: Date, end: Date, now: Instant)
    : (ps: seq<PeriodHours>)
    ensures |ps| <= |emps|
    ensures forall p :: p in ps ==>
      (p.employee in emps && DaysWith(rs, p.employee.pk, start, end, true) != []
       && p.daysPresent <= |DaysWith(rs, p.employee.pk, start, end, true)|)
    decreases |emps|
  {
    if emps == [] then []
    else
      var n := |emps| - 1;
      var front := PeriodHoursOf(emps[..n], rs, start, end, now);
      var e := emps[n];
      var ds := DaysWith(rs, e.pk, start, end, true);
      if ds == [] then front
      else
        var p := PeriodDays(HoursOfDays(rs, e.pk, ds, now));
        front + [PeriodHours(e, p.0, p.1)]
  }

  /** Every employee with an IN or OUT day in the period has an entry. */
  lemma {:induction false} PeriodHoursCover(emps: seq<Employee>, rs: seq<AttendanceRecord>, start: Date, end: Date,
                                            now: Instant, e: Employee)
    requires e in emps && DaysWith(rs, e.pk, start, end, true) != []
    ensures exists p :: p in PeriodHoursOf(emps, rs, start, end, now) && p.employee == e
    decreases |emps|
  {
    var n := |emps| - 1;
    var ds := DaysWith(rs, emps[n].pk, start, end, true);
    if e == emps[n] {
      var p := PeriodDays(HoursOfDays(rs, e.pk, ds, now));
      assert PeriodHours(e, p.0, p.1) in PeriodHoursOf(emps, rs, start, end, now);
    } else {
      assert e in emps[..n] by {
        var k :| 0 <= k < |emps| && emps[k] == e;
        assert emps[..n][k] == e;
      }
      PeriodHoursCover(emps[..n], rs, start, end, now, e);
      var q :| q in PeriodHoursOf(emps[..n], rs, start, end, now) && q.employee == e;
      assert q in PeriodHoursOf(emps, rs, start, end, now);
    }
  }

  lemma PeriodStep(emps: seq<Employee>, i: nat, rs: seq<AttendanceRecord>, start: Date, end: Date, now: Instant)
    requires i < |emps|
    ensures var ds := DaysWith(rs, emps[i].pk, start, end, true);
      var p := PeriodDays(HoursOfDays(rs, emps[i].pk, ds, now));
      var front := PeriodHoursOf(emps[..i], rs, start, end, now);
      && PeriodHoursOf(emps[..i + 1], rs, start, end, now)
           == (if ds == [] then front else front + [PeriodHours(emps[i], p.0, p.1)])
      && PresentOf(emps[..i + 1], rs, start, end, true)
           == PresentOf(emps[..i], rs, start, end, true) + (if ds != [] then {emps[i].pk} else {})
  {
    var t := emps[..i + 1];
    assert t[..i] == emps[..i] && t[i] == emps[i] && |t| - 1 == i;
  }

  /** The 8-hour standard day of `get_dashboard_data`, in seconds. */
  const DataStandardSeconds: int := 8 * 3600

  /** `max(0, total_hours - 8 * days_present)` for an employee with days
      present; an employee without any has no overtime. */
  function PeriodOvertime(p: PeriodHours): int {
    var over := p.workedSeconds - DataStandardSeconds * p.daysPresent;
    if p.daysPresent > 0 && over > 0 then over else 0
  }

  /** Overtime is what exceeds eight hours per day present, and only an
      employee with a day present has any. */
  lemma PeriodOvertimeRule(p: PeriodHours)
    ensures PeriodOvertime(p) >= 0
    ensures PeriodOvertime(p) > 0 <==> p.daysPresent > 0 && p.workedSeconds > DataStandardSeconds * p.daysPresent
    ensures PeriodOvertime(p) > 0 ==> PeriodOvertime(p) == p.workedSeconds - DataStandardSeconds * p.daysPresent
  {
  }

  /** An entry of `overtime_employees_list`: the employee's entry together
      with its `overtime_hours`. */
  datatype OvertimeEntry = OvertimeEntry(hours: PeriodHours, overtimeSeconds: int)

  /** The worked total over the entries. */
  function WorkedTotal(ps: seq<PeriodHours>): int
    decreases |ps|
  {
    if ps == [] then 0 else WorkedTotal(ps[..|ps| - 1]) + ps[|ps| - 1].workedSeconds
  }

  /** The overtime total over the entries. */
  function OvertimeTotal(ps: seq<PeriodHours>): (t: int)
    ensures t >= 0
    decreases |ps|
  {
    if ps == [] then 0 else OvertimeTotal(ps[..|ps| - 1]) + PeriodOvertime(ps[|ps| - 1])
  }

  /** The entries with overtime, in order, each with its overtime. */
  function OvertimeEntries(ps: seq<PeriodHours>): (r: seq<OvertimeEntry>)
    ensures |r| <= |ps|
    ensures forall x :: x in r ==>
      x.hours in ps && x.overtimeSeconds == PeriodOvertime(x.hours) && x.overtimeSeconds > 0
    ensures forall p :: p in ps && PeriodOvertime(p) > 0 ==> OvertimeEntry(p, PeriodOvertime(p)) in r
    decreases |ps|
  {
    if ps == [] then []
    else
      var n := |ps| - 1;
      assert forall p :: p in ps ==> p in ps[..n] || p == ps[n];
      var front := OvertimeEntries(ps[..n]);
      if PeriodOvertime(ps[n]) > 0 then front + [OvertimeEntry(ps[n], PeriodOvertime(ps[n]))] else front
  }

  lemma OvertimeStep(ps: seq<PeriodHours>, i: nat)
    requires i < |ps|
    ensures var t := ps[..i + 1];
      && OvertimeTotal(t) == OvertimeTotal(ps[..i]) + PeriodOvertime(ps[i])
      && OvertimeEntries(t) == OvertimeEntries(ps[..i])
           + (if PeriodOvertime(ps[i]) > 0 then [OvertimeEntry(ps[i], PeriodOvertime(ps[i]))] else [])
  {
    var t := ps[..i + 1];
    assert t[..i] == ps[..i] && t[i] == ps[i] && |t| - 1 == i;
  }

  /** The entries with positive worked time, in order. */
  function Attending(ps: seq<PeriodHours>): (r: seq<PeriodHours>)
    ensures forall p :: p in r <==> p in ps && p.workedSeconds > 0
  {
    if ps == [] then []
    else (if ps[0].workedSeconds > 0 then [ps[0]] else []) + Attending(ps[1..])
  }

  /** `sorted(..., key=total_hours, reverse=True)` and
      `sorted(..., key=overtime_hours, reverse=True)`. */
  predicate MoreWorked(a: PeriodHours, b: PeriodHours) {
    a.workedSeconds >= b.workedSeconds
  }

  predicate MoreOvertime(a: OvertimeEntry, b: OvertimeEntry) {
    a.overtimeSeconds >= b.overtimeSeconds
  }

  /** A total the endpoint prints, or `None` for its "N/A" when the total is
      zero. */
  function NonZero(x: int): Option<int> {
    if x != 0 then Some(x) else None
  }

  /** The figures `get_dashboard_data` returns as JSON. */
  datatype DataFigures = DataFigures(totalWorked: Option<int>, totalOvertime: Option<int>, absentees: nat,
                                     topAbsentees: seq<Employee>, topAttendance: seq<PeriodHours>,
                                     topOvertime: seq<OvertimeEntry>)

  function DashboardDataOf(es: seq<Employee>, rs: seq<AttendanceRecord>, period: string, now: Instant): DataFigures {
    var window := AttendanceManager.PeriodDates(now.date, period);
    var emps := SortBy(es, NameLe);
    var ps := PeriodHoursOf(emps, rs, window.0, window.1, now);
    var absent := Absentees(emps, PresentOf(emps, rs, window.0, window.1, true));
    DataFigures(NonZero(WorkedTotal(ps)), NonZero(OvertimeTotal(ps)), |absent|, Take(absent, 5),
                Take(SortBy(Attending(ps), MoreWorked), 5),
                Take(SortBy(OvertimeEntries(ps), MoreOvertime), 5))
  }

  /** The names the module binds by its imports. */
  const ModuleNames: set<string> := {
    "json", "random", "date", "timedelta", "datetime", "time", "login_required", "render", "redirect",
    "timezone", "Max", "Sum", "DurationField", "F", "render_to_string", "JsonResponse", "HttpResponse",
    "logging", "csv", "StringIO", "BytesIO", "openpyxl", "Font", "Alignment", "Border", "Side", "letter",
    "landscape", "SimpleDocTemplate", "Table", "TableStyle", "Paragraph", "Spacer", "colors",
    "getSampleStyleSheet", "inch", "Employee", "AttendanceRecord", "LocationSetting", "Break",
    "AttendanceManager"}

  /** The endpoint's reply: the JSON figures, or the server error of a
      `NameError` for an unbound name. */
  datatype DataReply = Data(data: DataFigures) | NameError(name: string)

  /** `get_dashboard_data` in a module that binds `names`: its first use of
      `defaultdict` comes before any result is produced. */
  function DashboardDataWith(names: set<string>, es: seq<Employee>, rs: seq<AttendanceRecord>, period: string,
                             now: Instant): (r: DataReply)
    ensures r.NameError? <==> "defaultdict" !in names
    ensures r.Data? ==> r.data == DashboardDataOf(es, rs, period, now)
  {
    if "defaultdict" in names then Data(DashboardDataOf(es, rs, period, now)) else NameError("defaultdict")
  }

  /** As written, the module never imports `defaultdict`: every request
      ends in the `NameError`. */
  lemma DashboardDataAlwaysFails(es: seq<Employee>, rs: seq<AttendanceRecord>, period: string, now: Instant)
    ensures DashboardDataWith(ModuleNames, es, rs, period, now) == NameError("defaultdict")
  {
    assert "defaultdict" !in ModuleNames;
  }

  /** The days loop for one employee. */
  method EmployeePeriod(rs: seq<AttendanceRecord>, pk: nat, ds: seq<Date>, now: Instant) returns (worked: int, days: nat)
    ensures (worked, days) == PeriodDays(HoursOfDays(rs, pk, ds, now))
  {
    ghost var hs := HoursOfDays(rs, pk, ds, now);
    worked, days := 0, 0;
    for j := 0 to |ds|
      invariant worked == PeriodDays(hs[..j]).0 && days == PeriodDays(hs[..j]).1
    {
      var h := CalculateWorkingHours(rs, pk, ds[j], now);
      PeriodDaysStep(hs, j, h);
      worked := worked + h.worked;
      if h.worked > 0 {
        days := days + 1;
      }
    }
    assert hs[..|ds|] == hs;
  }

  /** The grouping loops: every employee with an IN or OUT day in the
      period gets an entry and joins the present ids. */
  method CollectPeriodHours(rs: seq<AttendanceRecord>, emps: seq<Employee>, start: Date, end: Date, now: Instant)
    returns (ps: seq<PeriodHours>, present: set<nat>)
    ensures ps == PeriodHoursOf(emps, rs, start, end, now)
    ensures present == PresentOf(emps, rs, start, end, true)
  {
    ps, present := [], {};
    for i := 0 to |emps|
      invariant ps == PeriodHoursOf(emps[..i], rs, start, end, now)
      invariant present == PresentOf(emps[..i], rs, start, end, true)
    {
      PeriodStep(emps, i, rs, start, end, now);
      var ds := DaysWith(rs, emps[i].pk, start, end, true);
      if ds != [] {
        var worked, days := EmployeePeriod(rs, emps[i].pk, ds, now);
        ps := ps + [PeriodHours(emps[i], worked, days)];
        present := present + {emps[i].pk};
      }
    }
    assert emps[..|emps|] == emps;
  }

  /** The overtime loop: the overtime total and the list of entries with
      overtime. */
  method CollectOvertime(ps: seq<PeriodHours>) returns (total: int, list: seq<OvertimeEntry>)
    ensures total == OvertimeTotal(ps) && list == OvertimeEntries(ps)
  {
    total, list := 0, [];
    for i := 0 to |ps|
      invariant total == OvertimeTotal(ps[..i]) && list == OvertimeEntries(ps[..i])
    {
      OvertimeStep(ps, i);
      if ps[i].daysPresent > 0 {
        var expected := DataStandardSeconds * ps[i].daysPresent;
        var over := if ps[i].workedSeconds - expected > 0 then ps[i].workedSeconds - expected else 0;
        total := total + over;
        if over > 0 {
          list := list + [OvertimeEntry(ps[i], over)];
        }
      }
    }
    assert ps[..|ps|] == ps;
  }

  /** `get_dashboard_data(request)` with `defaultdict` imported, up to
      rendering the lists. */
  method DashboardData(db: AttendanceDb, period: string, now: Instant) returns (d: DataFigures)
    ensures d == DashboardDataOf(db.employees, db.records, period, now)
  {
    var window := AttendanceManager.PeriodDates(now.date, period);
    var emps := SortBy(db.employees, NameLe);
    var ps, present := CollectPeriodHours(db.records, emps, window.0, window.1, now);
    var overtime, list := CollectOvertime(ps);
    var absent := Absentees(emps, present);
    d := DataFigures(NonZero(WorkedTotal(ps)), NonZero(overtime), |absent|, Take(absent, 5),
                     Take(SortBy(Attending(ps), MoreWorked), 5), Take(SortBy(list, MoreOvertime), 5));
  }

  lemma MoreOrders()
    ensures Total(MoreWorked) && Transitive(MoreWorked)
    ensures Total(MoreOvertime) && Transitive(MoreOvertime)
  {
  }

  /** The attendance list: at most five entries with positive worked time,
      most worked first. */
  lemma TopAttendanceFacts(es: seq<Employee>, rs: seq<AttendanceRecord>, period: string, now: Instant)
    ensures var d := DashboardDataOf(es, rs, period, now);
      && |d.topAttendance| <= 5 && SortedBy(d.topAttendance, MoreWorked)
      && forall p :: p in d.topAttendance ==> p.workedSeconds > 0 && p.employee in es
  {
    var window := AttendanceManager.PeriodDates(now.date, period);
    var emps := SortBy(es, NameLe);
    var ps := PeriodHoursOf(emps, rs, window.0, window.1, now);
    MoreOrders();
    SortBySorted(Attending(ps), MoreWorked);
    forall p | p in SortBy(Attending(ps), MoreWorked) ensures p.workedSeconds > 0 && p.employee in es {
      SortByMembers(Attending(ps), MoreWorked, p);
      SortByMembers(es, NameLe, p.employee);
    }
  }

  /** The first five entries with overtime, most overtime first. */
  lemma TopOvertimeOf(ps: seq<PeriodHours>)
    ensures var top := Take(SortBy(OvertimeEntries(ps), MoreOvertime), 5);
      && |top| <= 5 && SortedBy(top, MoreOvertime)
      && forall x :: x in top ==>
           (x.hours in ps && x.hours.daysPresent > 0 && x.overtimeSeconds > 0
            && x.overtimeSeconds == x.hours.workedSeconds - DataStandardSeconds * x.hours.daysPresent)
  {
    MoreOrders();
    SortBySorted(OvertimeEntries(ps), MoreOvertime);
    var sorted := SortBy(OvertimeEntries(ps), MoreOvertime);
    forall x | x in sorted
      ensures x.hours in ps && x.hours.daysPresent > 0 && x.overtimeSeconds > 0
      ensures x.overtimeSeconds == x.hours.workedSeconds - DataStandardSeconds * x.hours.daysPresent
    {
      SortByMembers(OvertimeEntries(ps), MoreOvertime, x);
      PeriodOvertimeRule(x.hours);
    }
    assert forall x :: x in Take(sorted, 5) ==> x in sorted;
  }

  /** The overtime list: at most five entries, most overtime first, each
      with positive overtime beyond eight hours per day present. */
  lemma TopOvertimeFacts(es: seq<Employee>, rs: seq<AttendanceRecord>, period: string, now: Instant)
    ensures var d := DashboardDataOf(es, rs, period, now);
      && |d.topOvertime| <= 5 && SortedBy(d.topOvertime, MoreOvertime)
      && (forall x :: x in d.topOvertime ==>
            (x.hours.daysPresent > 0 && x.overtimeSeconds > 0 && x.hours.employee in es
             && x.overtimeSeconds == x.hours.workedSeconds - DataStandardSeconds * x.hours.daysPresent))
  {
    var window := AttendanceManager.PeriodDates(now.date, period);
    var emps := SortBy(es, NameLe);
    var ps := PeriodHoursOf(emps, rs, window.0, window.1, now);
    TopOvertimeOf(ps);
    forall p | p in ps ensures p.employee in es {
      SortByMembers(es, NameLe, p.employee);
    }
  }

  /** The absentees: at most five in the list, in name order, each an
      employee without an IN or OUT record in the period; the count is at
      most the number of employees. */
  lemma TopAbsenteesFacts(es: seq<Employee>, rs: seq<AttendanceRecord>, period: string, now: Instant)
    ensures var window := AttendanceManager.PeriodDates(now.date, period);
      var d := DashboardDataOf(es, rs, period, now);
      && |d.topAbsentees| <= 5 && d.absentees <= |es| && SortedBy(d.topAbsentees, NameLe)
      && (forall e :: e in d.topAbsentees ==>
            (e in es && forall i :: 0 <= i < |rs| ==> !OnDay(rs[i], e.pk, rs[i].date, window.0, window.1, true)))
  {
    var window := AttendanceManager.PeriodDates(now.date, period);
    var emps := SortBy(es, NameLe);
    var present := PresentOf(emps, rs, window.0, window.1, true);
    var absent := Absentees(emps, present);
    NameLeTotal();
    SortBySorted(es, NameLe);
    AbsenteesSorted(emps, present);
    forall e | e in absent
      ensures e in es && forall i :: 0 <= i < |rs| ==> !OnDay(rs[i], e.pk, rs[i].date, window.0, window.1, true)
    {
      SortByMembers(es, NameLe, e);
      PresentMeansRecorded(emps, rs, window.0, window.1, true, e.pk);
    }
  }

  /** Leaving employees out keeps the name order. */
  lemma {:induction false} AbsenteesSorted(es: seq<Employee>, present: set<nat>)
    requires SortedBy(es, NameLe)
    ensures SortedBy(Absentees(es, present), NameLe)
    decreases |es|
  {
    if es != [] {
      AbsenteesSorted(es[1..], present);
      var rest := Absentees(es[1..], present);
      if es[0].pk !in present && rest != [] {
        assert rest[0] in es[1..];
        var k :| 0 <= k < |es[1..]| && es[1..][k] == rest[0];
        NameLeChain(es, 0, k + 1);
      }
    }
  }
}

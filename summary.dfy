/** `AttendanceManager.get_filtered_attendance_summary`: the IN records of a
    date range, optionally restricted to some employee ids, joined with
    their employee, ordered by (date, employee name), and thinned by an
    optional "total hours less than" threshold. */
module Summary {
  import opened Common
  import opened Calendar
  import opened Models
  import opened Sorting
  import opened WorkingHours

  /** A date argument after `strptime(s, '%Y-%m-%d')`: a date, or text
      (or `None`) that raises `ValueError`/`TypeError`. */
  datatype DateArg = Parsed(date: Date) | Unparseable

  /** A record joined with its employee (`select_related('employee')`). */
  datatype Joined = Joined(rec: AttendanceRecord, emp: Employee)

  /** One summary dictionary. `inTime` is the IN time as the report shows
      it, to the minute. */
  datatype SummaryRow = SummaryRow(
    employee: Employee,
    date: Date,
    inTime: Time,
    breaks: seq<Break>,
    outRecord: Option<AttendanceRecord>,
    hasOut: bool)

  predicate InWindow(d: Date, start: Date, end: Date) {
    NotAfter(start, d) && NotAfter(d, end)
  }

  /** The query's filter: IN records in the window, and, when the id list
      is non-empty, only those of listed employee ids. */
  predicate Selects(r: AttendanceRecord, e: Employee, start: Date, end: Date, ids: seq<string>) {
    r.kind == In && InWindow(r.date, start, end) && (ids == [] || e.employeeId in ids)
  }

  /** The filtered, joined records in table order. */
  function Selected(rs: seq<AttendanceRecord>, es: seq<Employee>, start: Date, end: Date, ids: seq<string>): (q: seq<Joined>)
    ensures forall j :: j in q ==>
      j.rec in rs && j.emp in es && j.emp.pk == j.rec.employee && Selects(j.rec, j.emp, start, end, ids)
    ensures forall i :: (0 <= i < |rs| && FindEmployee(es, rs[i].employee).Some?
      && Selects(rs[i], es[FindEmployee(es, rs[i].employee).value], start, end, ids)) ==>
      Joined(rs[i], es[FindEmployee(es, rs[i].employee).value]) in q
    decreases |rs|
  {
    if rs == [] then []
    else
      var r := rs[|rs| - 1];
      var front := Selected(rs[..|rs| - 1], es, start, end, ids);
      assert forall i :: 0 <= i < |rs| - 1 ==> rs[..|rs| - 1][i] == rs[i];
      match FindEmployee(es, r.employee)
      case None => front
      case Some(k) => if Selects(r, es[k], start, end, ids) then front + [Joined(r, es[k])] else front
  }

  /** `order_by('date', 'employee__name')`. */
  predicate DateNameLe(a: Joined, b: Joined) {
    Before(a.rec.date, b.rec.date) || (a.rec.date == b.rec.date && StrLe(a.emp.name, b.emp.name))
  }

  lemma DateNameLeOrder()
    ensures Total(DateNameLe) && Transitive(DateNameLe)
  {
    forall a: Joined, b: Joined ensures DateNameLe(a, b) || DateNameLe(b, a) {
      BeforeIsKeyOrder(a.rec.date, b.rec.date);
      BeforeIsKeyOrder(b.rec.date, a.rec.date);
      if a.rec.date == b.rec.date {
        StrLeTotal(a.emp.name, b.emp.name);
      } else if DayKey(a.rec.date) == DayKey(b.rec.date) {
        DayKeyInjective(a.rec.date, b.rec.date);
      }
    }
    forall a: Joined, b: Joined, c: Joined | DateNameLe(a, b) && DateNameLe(b, c)
      ensures DateNameLe(a, c)
    {
      BeforeIsKeyOrder(a.rec.date, b.rec.date);
      BeforeIsKeyOrder(b.rec.date, c.rec.date);
      BeforeIsKeyOrder(a.rec.date, c.rec.date);
      if a.rec.date == b.rec.date && b.rec.date == c.rec.date {
        StrLeTrans(a.emp.name, b.emp.name, c.emp.name);
      }
    }
  }

  /** The ordered query result the summary loop walks. */
  function Query(rs: seq<AttendanceRecord>, es: seq<Employee>, start: Date, end: Date, ids: seq<string>): seq<Joined> {
    SortBy(Selected(rs, es, start, end, ids), DateNameLe)
  }

  /** `AttendanceRecord.objects.filter(employee=e, date=d, attendance_type='OUT').first()`. */
  function OutRecord(rs: seq<AttendanceRecord>, e: nat, d: Date): (r: Option<AttendanceRecord>)
    ensures r.Some? ==> r.value in rs && Matches(r.value, e, d, Out)
    ensures r.None? <==> FindRecord(rs, e, d, Out).None?
  {
    match FindRecord(rs, e, d, Out)
    case None => None
    case Some(i) => Some(rs[i])
  }

  /** `calculate_working_hours` of each queried record's employee and day. */
  function DayHours(q: seq<Joined>, rs: seq<AttendanceRecord>, now: Instant): (hs: seq<Hours>)
    ensures |hs| == |q|
    ensures forall k :: 0 <= k < |q| ==> hs[k] == HoursOf(rs, q[k].rec.employee, q[k].rec.date, now)
  {
    seq(|q|, k requires 0 <= k < |q| => HoursOf(rs, q[k].rec.employee, q[k].rec.date, now))
  }

  lemma SameHours(q: seq<Joined>, rs: seq<AttendanceRecord>, now: Instant, m: nat, k: nat)
    requires m < |q| && k < |q| && q[m] == q[k]
    ensures DayHours(q, rs, now)[m] == DayHours(q, rs, now)[k]
  {
  }

  /** A row survives unless a truthy threshold is given and the day's hours
      reach it. */
  predicate Kept(h: Hours, threshold: Option<real>) {
    !(threshold.Some? && threshold.value != 0.0 && h.worked as real / 3600.0 >= threshold.value)
  }

  function RowOf(j: Joined, h: Hours, rs: seq<AttendanceRecord>): SummaryRow {
    SummaryRow(j.emp, j.rec.date, ToMinute(j.rec.time), j.rec.breaks,
               OutRecord(rs, j.rec.employee, j.rec.date), h.hasOut)
  }

  /** The rows of the kept elements of `q`, in the order of `q`; `hs` holds
      their hours. */
  function Rows(q: seq<Joined>, hs: seq<Hours>, rs: seq<AttendanceRecord>, threshold: Option<real>): (r: seq<SummaryRow>)
    requires |hs| == |q|
    ensures |r| <= |q|
    decreases |q|
  {
    if q == [] then []
    else
      var n := |q| - 1;
      Rows(q[..n], hs[..n], rs, threshold) + (if Kept(hs[n], threshold) then [RowOf(q[n], hs[n], rs)] else [])
  }

  lemma RowsStep(q: seq<Joined>, hs: seq<Hours>, rs: seq<AttendanceRecord>, threshold: Option<real>, i: nat, h: Hours)
    requires |hs| == |q| && i < |q| && h == hs[i]
    ensures Kept(h, threshold) ==>
      Rows(q[..i + 1], hs[..i + 1], rs, threshold) == Rows(q[..i], hs[..i], rs, threshold) + [RowOf(q[i], h, rs)]
    ensures !Kept(h, threshold) ==> Rows(q[..i + 1], hs[..i + 1], rs, threshold) == Rows(q[..i], hs[..i], rs, threshold)
  {
    assert q[..i + 1][..i] == q[..i] && hs[..i + 1][..i] == hs[..i];
  }

  /** The rows are exactly the rows of the kept elements. */
  lemma {:induction false} RowsMembers(q: seq<Joined>, hs: seq<Hours>, rs: seq<AttendanceRecord>, threshold: Option<real>)
    requires |hs| == |q|
    ensures forall x :: x in Rows(q, hs, rs, threshold) ==>
      exists k :: 0 <= k < |q| && Kept(hs[k], threshold) && x == RowOf(q[k], hs[k], rs)
    ensures forall k :: 0 <= k < |q| && Kept(hs[k], threshold) ==> RowOf(q[k], hs[k], rs) in Rows(q, hs, rs, threshold)
    decreases |q|
  {
    if q != [] {
      var n := |q| - 1;
      RowsMembers(q[..n], hs[..n], rs, threshold);
      assert forall k :: 0 <= k < n ==> q[..n][k] == q[k] && hs[..n][k] == hs[k];
    }
  }

  /** The value `get_filtered_attendance_summary` returns. */
  function SummaryOf(rs: seq<AttendanceRecord>, es: seq<Employee>, startArg: DateArg, endArg: DateArg,
                     ids: seq<string>, threshold: Option<real>, now: Instant): (r: seq<SummaryRow>)
    ensures startArg.Unparseable? || endArg.Unparseable? ==> r == []
  {
    if startArg.Unparseable? || endArg.Unparseable? then []
    else
      var q := Query(rs, es, startArg.date, endArg.date, ids);
      Rows(q, DayHours(q, rs, now), rs, threshold)
  }

  /** The loop of `get_filtered_attendance_summary`, computing each row's
      hours with `calculate_working_hours`. */
  method FilteredAttendanceSummary(db: AttendanceDb, startArg: DateArg, endArg: DateArg,
                                   ids: seq<string>, threshold: Option<real>, now: Instant)
    returns (summary: seq<SummaryRow>)
    ensures summary == SummaryOf(db.records, db.employees, startArg, endArg, ids, threshold, now)
  {
    if startArg.Unparseable? || endArg.Unparseable? {
      return [];
    }
    var q := Query(db.records, db.employees, startArg.date, endArg.date, ids);
    ghost var hs := DayHours(q, db.records, now);
    summary := [];
    for i := 0 to |q|
      invariant summary == Rows(q[..i], hs[..i], db.records, threshold)
    {
      var j := q[i];
      var h := CalculateWorkingHours(db.records, j.rec.employee, j.rec.date, now);
      RowsStep(q, hs, db.records, threshold, i, h);
      if !(threshold.Some? && threshold.value != 0.0 && h.worked as real / 3600.0 >= threshold.value) {
        var out := OutRecord(db.records, j.rec.employee, j.rec.date);
        var row := SummaryRow(j.emp, j.rec.date, ToMinute(j.rec.time), j.rec.breaks, out, h.hasOut);
        assert Kept(h, threshold) && row == RowOf(q[i], h, db.records);
        summary := summary + [row];
      } else {
        assert !Kept(h, threshold);
      }
    }
    assert q[..|q|] == q && hs[..|q|] == hs;
  }

  // ------------------------------------------------------------ properties

  /** Every summary row comes from an IN record of the window, of a listed
      employee id when ids are given, whose hours are below a truthy
      threshold. */
  lemma SummaryRowsQualify(rs: seq<AttendanceRecord>, es: seq<Employee>, start: Date, end: Date,
                           ids: seq<string>, threshold: Option<real>, now: Instant, x: SummaryRow)
    requires x in SummaryOf(rs, es, Parsed(start), Parsed(end), ids, threshold, now)
    ensures FindRecord(rs, x.employee.pk, x.date, In).Some?
    ensures InWindow(x.date, start, end)
    ensures ids != [] ==> x.employee.employeeId in ids
    ensures x.employee in es
    ensures Kept(HoursOf(rs, x.employee.pk, x.date, now), threshold)
    ensures x.outRecord == OutRecord(rs, x.employee.pk, x.date)
    ensures x.hasOut == HoursOf(rs, x.employee.pk, x.date, now).hasOut
  {
    var q := Query(rs, es, start, end, ids);
    var hs := DayHours(q, rs, now);
    RowsMembers(q, hs, rs, threshold);
    var k :| 0 <= k < |q| && Kept(hs[k], threshold) && x == RowOf(q[k], hs[k], rs);
    SortByMembers(Selected(rs, es, start, end, ids), DateNameLe, q[k]);
    var i :| 0 <= i < |rs| && rs[i] == q[k].rec;
    assert Matches(rs[i], x.employee.pk, x.date, In);
  }

  /** Two joined records of the query that give the same row are the same
      record: the table holds one IN record per employee and day. */
  lemma RowOfInjective(rs: seq<AttendanceRecord>, es: seq<Employee>, start: Date, end: Date,
                       ids: seq<string>, j1: Joined, h1: Hours, j2: Joined, h2: Hours)
    requires UniqueRecordKeys(rs)
    requires j1 in Selected(rs, es, start, end, ids) && j2 in Selected(rs, es, start, end, ids)
    requires RowOf(j1, h1, rs) == RowOf(j2, h2, rs)
    ensures j1 == j2
  {
    var i1 :| 0 <= i1 < |rs| && rs[i1] == j1.rec;
    var i2 :| 0 <= i2 < |rs| && rs[i2] == j2.rec;
    if i1 < i2 {
      assert Matches(rs[i2], rs[i1].employee, rs[i1].date, rs[i1].kind);
    } else if i2 < i1 {
      assert Matches(rs[i1], rs[i2].employee, rs[i2].date, rs[i2].kind);
    }
  }

  /** A queried record's row is in the summary exactly when it is kept:
      dropped iff a truthy threshold is given and its hours reach it. */
  lemma SummaryKeepsExactly(rs: seq<AttendanceRecord>, es: seq<Employee>, start: Date, end: Date,
                            ids: seq<string>, threshold: Option<real>, now: Instant, m: nat)
    requires UniqueRecordKeys(rs)
    requires m < |Query(rs, es, start, end, ids)|
    ensures var q := Query(rs, es, start, end, ids);
      var hs := DayHours(q, rs, now);
      RowOf(q[m], hs[m], rs) in SummaryOf(rs, es, Parsed(start), Parsed(end), ids, threshold, now) <==> Kept(hs[m], threshold)
  {
    var q := Query(rs, es, start, end, ids);
    var hs := DayHours(q, rs, now);
    assert SummaryOf(rs, es, Parsed(start), Parsed(end), ids, threshold, now) == Rows(q, hs, rs, threshold);
    RowsMembers(q, hs, rs, threshold);
    if !Kept(hs[m], threshold) && RowOf(q[m], hs[m], rs) in Rows(q, hs, rs, threshold) {
      var k :| 0 <= k < |q| && Kept(hs[k], threshold) && RowOf(q[m], hs[m], rs) == RowOf(q[k], hs[k], rs);
      QueryRowsDistinct(rs, es, start, end, ids, now, m, k);
      assert false;
    }
  }

  /** Distinct positions of the query give rows that differ or have equal hours. */
  lemma QueryRowsDistinct(rs: seq<AttendanceRecord>, es: seq<Employee>, start: Date, end: Date,
                          ids: seq<string>, now: Instant, m: nat, k: nat)
    requires UniqueRecordKeys(rs)
    requires m < |Query(rs, es, start, end, ids)| && k < |Query(rs, es, start, end, ids)|
    ensures var q := Query(rs, es, start, end, ids);
      var hs := DayHours(q, rs, now);
      RowOf(q[m], hs[m], rs) == RowOf(q[k], hs[k], rs) ==> hs[m] == hs[k]
  {
    var sel := Selected(rs, es, start, end, ids);
    var q := Query(rs, es, start, end, ids);
    var hs := DayHours(q, rs, now);
    if RowOf(q[m], hs[m], rs) == RowOf(q[k], hs[k], rs) {
      SortByMembers(sel, DateNameLe, q[m]);
      SortByMembers(sel, DateNameLe, q[k]);
      RowOfInjective(rs, es, start, end, ids, q[m], hs[m], q[k], hs[k]);
      SameHours(q, rs, now, m, k);
    }
  }

  predicate RowLe(a: SummaryRow, b: SummaryRow) {
    Before(a.date, b.date) || (a.date == b.date && StrLe(a.employee.name, b.employee.name))
  }

  lemma {:induction false} RowsSorted(q: seq<Joined>, hs: seq<Hours>, rs: seq<AttendanceRecord>, threshold: Option<real>)
    requires |hs| == |q|
    requires SortedBy(q, DateNameLe)
    ensures SortedBy(Rows(q, hs, rs, threshold), RowLe)
    decreases |q|
  {
    if q != [] {
      var n := |q| - 1;
      var q', hs' := q[..n], hs[..n];
      assert SortedBy(q', DateNameLe) by {
        assert forall i :: 0 <= i < |q'| ==> q'[i] == q[i];
      }
      RowsSorted(q', hs', rs, threshold);
      RowsMembers(q', hs', rs, threshold);
      var front := Rows(q', hs', rs, threshold);
      if Kept(hs[n], threshold) {
        var last := RowOf(q[n], hs[n], rs);
        if front != [] {
          var y := front[|front| - 1];
          assert y in front;
          var k :| 0 <= k < n && Kept(hs'[k], threshold) && y == RowOf(q'[k], hs'[k], rs);
          DateNameLeOrder();
          SortedPairs(q, DateNameLe, k, n);
          assert q'[k] == q[k];
          assert RowLe(y, last);
        }
        SortedAppend(front, last, RowLe);
      }
    }
  }

  /** The summary is ordered by (date, employee name). */
  lemma SummarySorted(rs: seq<AttendanceRecord>, es: seq<Employee>, startArg: DateArg, endArg: DateArg,
                      ids: seq<string>, threshold: Option<real>, now: Instant)
    ensures SortedBy(SummaryOf(rs, es, startArg, endArg, ids, threshold, now), RowLe)
  {
    if startArg.Parsed? && endArg.Parsed? {
      var sel := Selected(rs, es, startArg.date, endArg.date, ids);
      var q := SortBy(sel, DateNameLe);
      DateNameLeOrder();
      SortBySorted(sel, DateNameLe);
      RowsSorted(q, DayHours(q, rs, now), rs, threshold);
    }
  }
}

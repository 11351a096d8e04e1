/** The policy constants of `AttendanceManager`, the period resolver, the
    record writer and the leave split. */
module AttendanceManager {
  import opened Common
  import opened Calendar
  import opened Models

  const InTimeStart: Time := Clock(10, 0)
  /** An IN strictly after this time is late. */
  const InTimeEnd: Time := Clock(11, 0)
  const LunchTimeStart: Time := Clock(13, 30)
  const LunchTimeEnd: Time := Clock(14, 30)
  const MaxLunchDuration: int := 5400
  /** From this time on, a check-in employee's next event is an OUT. */
  const OutTimeMin: Time := Clock(19, 0)
  const OfficeClose: Time := Clock(23, 59)
  const StandardWorkHours: int := 9
  /** The end of a past day that has an IN but no OUT. */
  const OutTimeDefault: Time := Clock(19, 15)

  // ---------------------------------------------------------------- periods

  /** Where `today.replace(day=28) + timedelta(days=4)` lands: 1 to 4 days
      into the next month. */
  lemma FourDaysAfterThe28th(today: Date)
    ensures var p := AddDays(Ymd(today.year, today.month, 28), 4);
      && 1 <= p.day <= 4
      && (if today.month < 12 then p.year == today.year && p.month == today.month + 1
          else p.year == today.year + 1 && p.month == 1)
  {
    var d0: Date := Ymd(today.year, today.month, 28);
    var d1 := NextDay(d0);
    var d2 := NextDay(d1);
    var d3 := NextDay(d2);
    var d4 := NextDay(d3);
    assert AddDays(d3, 1) == d4;
    assert AddDays(d2, 2) == d4;
    assert AddDays(d1, 3) == d4;
  }

  /** Going back `weekday()` days lands on a Monday. */
  lemma WeekStartsMonday(today: Date)
    ensures Weekday(SubDays(today, Weekday(today))) == 0
  {
    WeekdaySubDays(today, Weekday(today));
  }

  /** The week containing `today`, Monday first. */
  lemma WeekAroundToday(today: Date)
    ensures var start := SubDays(today, Weekday(today));
      && NotAfter(start, today) && NotAfter(today, AddDays(start, 6))
      && Weekday(start) == 0
  {
    var w := Weekday(today);
    var start := SubDays(today, w);
    AddSubDays(today, w);
    AddDaysNotBefore(start, w);
    AddDaysAdd(start, w, 6 - w);
    AddDaysNotBefore(today, 6 - w);
    BeforeIsKeyOrder(today, AddDays(start, 6));
    BeforeIsKeyOrder(today, AddDays(today, 6 - w));
    WeekStartsMonday(today);
  }

  /** `AttendanceManager.get_period_dates(today, period)`: a total function
      from a date and a keyword to the date range it names. */
  function PeriodDates(today: Date, period: string): (r: (Date, Date))
    ensures NotAfter(r.0, today) && NotAfter(today, r.1)
    ensures period == "week" ==> Weekday(r.0) == 0 && r.1 == AddDays(r.0, 6)
    ensures period == "month" ==>
      r.0 == Ymd(today.year, today.month, 1)
      && r.1 == Ymd(today.year, today.month, DaysInMonth(today.year, today.month))
    ensures period == "year" ==> r.0 == Ymd(today.year, 1, 1) && r.1 == Ymd(today.year, 12, 31)
    ensures period != "week" && period != "month" && period != "year" ==> r == (today, today)
  {
    if period == "week" then
      WeekAroundToday(today);
      var start := SubDays(today, Weekday(today));
      (start, AddDays(start, 6))
    else if period == "month" then
      FourDaysAfterThe28th(today);
      var probe := AddDays(Ymd(today.year, today.month, 28), 4);
      var nextMonth: Date := Ymd(probe.year, probe.month, 1);
      (Ymd(today.year, today.month, 1), SubDays(nextMonth, 1))
    else if period == "year" then
      (Ymd(today.year, 1, 1), Ymd(today.year, 12, 31))
    else
      (today, today)
  }

  // ---------------------------------------------------------------- writer

  /** The emotional state a new record keeps: only an IN keeps one, and only
      a truthy one. */
  function StoredEmotion(kind: Kind, emotion: Option<string>): (r: Option<string>)
    ensures r.Some? <==> kind == In && Truthy(emotion)
    ensures r.Some? ==> r == emotion
  {
    if kind == In && Truthy(emotion) then emotion else None
  }

  /** The row `create_attendance_record` inserts, stamped with `now`. */
  function NewRecord(e: Employee, kind: Kind, remarks: string, emotion: Option<string>, now: Instant): AttendanceRecord {
    AttendanceRecord(e.pk, now.date, kind, now.time, remarks, StoredEmotion(kind, emotion), [])
  }

  /** `AttendanceManager.create_attendance_record`: inserts a record for
      today and stamps the employee's `last_seen`. The store's unique
      constraint forbids a second record of the same kind for the day. */
  method CreateAttendanceRecord(db: AttendanceDb, ix: nat, kind: Kind, remarks: string,
                                emotion: Option<string>, now: Instant)
    requires db.Valid()
    requires ix < |db.employees|
    requires FindRecord(db.records, db.employees[ix].pk, now.date, kind).None?
    modifies db
    ensures db.Valid()
    ensures db.records == old(db.records) + [NewRecord(old(db.employees[ix]), kind, remarks, emotion, now)]
    ensures db.employees == old(db.employees)[ix := old(db.employees[ix]).(lastSeen := Some(now))]
    ensures db.location == old(db.location) && db.leaves == old(db.leaves)
  {
    var e := db.employees[ix];
    var rec := NewRecord(e, kind, remarks, emotion, now);
    db.records := db.records + [rec];
    db.employees := db.employees[ix := e.(lastSeen := Some(now))];
    assert db.employees[ix].pk == e.pk;
    assert FindEmployee(db.employees, e.pk).Some?;
    forall p: nat | FindEmployee(old(db.employees), p).Some?
      ensures FindEmployee(db.employees, p).Some?
    {
      var k := FindEmployee(old(db.employees), p).value;
      assert db.employees[k].pk == p;
    }
  }

  // ---------------------------------------------------------------- leaves

  /** Python's `round(x)`: the nearest integer, ties to the even one. */
  function RoundHalfEven(x: real): (r: int)
    ensures x - 1.0 / 2.0 <= r as real <= x + 1.0 / 2.0
    ensures r as real == x - 1.0 / 2.0 || r as real == x + 1.0 / 2.0 ==> r % 2 == 0
  {
    var f := x.Floor;
    var frac := x - f as real;
    if frac < 1.0 / 2.0 then f
    else if frac > 1.0 / 2.0 then f + 1
    else if f % 2 == 0 then f else f + 1
  }

  /** Sum of `leaves_taken` over all leave-history rows (`... or 0`). */
  function TotalLeaves(rows: seq<LeaveHistory>): int {
    if rows == [] then 0 else TotalLeaves(rows[..|rows| - 1]) + rows[|rows| - 1].leavesTaken
  }

  datatype LeaveSplit = LeaveSplit(sick: int, vacation: int, casual: int, other: int)

  /** `get_leave_distribution`: a fixed 30/45/20 split of the total with the
      remainder as "Other". */
  function LeaveDistribution(total: int): (r: LeaveSplit)
    ensures total > 0 ==> r.sick + r.vacation + r.casual + r.other == total
    ensures total <= 0 ==> r == LeaveSplit(0, 0, 0, 0)
    ensures total > 0 ==>
      && (total as real) * 0.30 - 0.5 <= r.sick as real <= (total as real) * 0.30 + 0.5
      && (total as real) * 0.45 - 0.5 <= r.vacation as real <= (total as real) * 0.45 + 0.5
      && (total as real) * 0.20 - 0.5 <= r.casual as real <= (total as real) * 0.20 + 0.5
  {
    if total > 0 then
      var sick := RoundHalfEven(total as real * 0.30);
      var vacation := RoundHalfEven(total as real * 0.45);
      var casual := RoundHalfEven(total as real * 0.20);
      LeaveSplit(sick, vacation, casual, total - (sick + vacation + casual))
    else
      LeaveSplit(0, 0, 0, 0)
  }
}

/** The attendance kiosk endpoints: marking attendance from a recognised
    face, the recent-activity cards and an employee's leave balance. */
module AttendanceViews {
  import opened Common
  import opened Calendar
  import opened Models
  import opened Sorting
  import opened AttendanceManager
  import WorkingHours

  // ------------------------------------------------------------ breaks

  /** 13:30 <= t <= 14:30, both ends included. */
  predicate LunchTime(t: Time) {
    LunchTimeStart <= t <= LunchTimeEnd
  }

  /** `in_record.breaks[-1]` exists, was opened, and is not yet closed. */
  predicate HasOpenBreak(bs: seq<Break>) {
    |bs| > 0 && bs[|bs| - 1].breakIn.Some? && bs[|bs| - 1].breakOut.None?
  }

  datatype BreakEvent = ClosedBreak(closedType: BreakType) | OpenedBreak(openedType: BreakType)

  /** The break branch of `mark_attendance_with_gesture`: close the last
      break at `t` when it is open, otherwise open a new one at `t`, typed
      LUNCH exactly inside the lunch window. */
  function ToggleBreak(bs: seq<Break>, t: Time): (r: (seq<Break>, BreakEvent))
    ensures HasOpenBreak(bs) ==>
      && |r.0| == |bs|
      && r.0[|bs| - 1] == bs[|bs| - 1].(breakOut := Some(t))
      && r.1 == ClosedBreak(bs[|bs| - 1].breakType)
    ensures !HasOpenBreak(bs) ==>
      && |r.0| == |bs| + 1
      && r.0[..|bs|] == bs
      && r.0[|bs|].breakIn == Some(t) && r.0[|bs|].breakOut.None?
      && (r.0[|bs|].breakType == Lunch <==> LunchTime(t))
      && r.1 == OpenedBreak(r.0[|bs|].breakType)
    ensures forall i :: 0 <= i < |bs| - 1 ==> r.0[i] == bs[i]
  {
    if HasOpenBreak(bs) then
      var last := bs[|bs| - 1];
      (bs[|bs| - 1 := last.(breakOut := Some(t))], ClosedBreak(last.breakType))
    else
      var bt := if LunchTime(t) then Lunch else Other;
      (bs + [Break(bt, Some(t), None)], OpenedBreak(bt))
  }

  /** The ledger invariant survives every toggle. */
  lemma ToggleKeepsLedger(bs: seq<Break>, t: Time)
    requires LedgerOk(bs)
    ensures LedgerOk(ToggleBreak(bs, t).0)
  {
    var r := ToggleBreak(bs, t).0;
    if !HasOpenBreak(bs) {
      forall i | 0 <= i < |r| - 1 ensures r[i].breakOut.Some? {
        assert r[i] == bs[i];
        assert !(bs[|bs| - 1].breakOut.None?);
      }
    }
  }

  /** Two toggles from a ledger with no open break record one closed break
      from the first instant to the second, of the type the first instant
      selects. */
  lemma ToggleTwice(bs: seq<Break>, t1: Time, t2: Time)
    requires LedgerOk(bs) && !HasOpenBreak(bs)
    ensures ToggleBreak(ToggleBreak(bs, t1).0, t2).0
      == bs + [Break(if LunchTime(t1) then Lunch else Other, Some(t1), Some(t2))]
  {
    var once := ToggleBreak(bs, t1).0;
    assert once == bs + [once[|bs|]];
    assert HasOpenBreak(once);
  }

  /** Closing the open break adds its duration to the sum of its type and
      leaves the other sum alone. */
  lemma ClosingAddsDuration(bs: seq<Break>, t: Time, other: BreakType)
    requires HasOpenBreak(bs)
    requires other != bs[|bs| - 1].breakType
    ensures var last := bs[|bs| - 1];
      var r := ToggleBreak(bs, t).0;
      && WorkingHours.BreakSeconds(r, last.breakType)
           == WorkingHours.BreakSeconds(bs, last.breakType) + (t - last.breakIn.value)
      && WorkingHours.BreakSeconds(r, other) == WorkingHours.BreakSeconds(bs, other)
  {
    var n := |bs| - 1;
    var r := ToggleBreak(bs, t).0;
    assert bs == bs[..n] + [bs[n]];
    assert r == bs[..n] + [r[n]];
    WorkingHours.OpenBreaksCountNothing(bs[..n], bs[n], [], bs[n].breakType);
    WorkingHours.OpenBreaksCountNothing(bs[..n], bs[n], [], other);
    WorkingHours.ClosedBreakCountsOnce(bs[..n], r[n]);
    assert bs[..n] + [bs[n]] + [] == bs;
    assert bs[..n] + [] == bs[..n];
  }

  // ------------------------------------------------------------ request

  /** The request body: not JSON, JSON that is not an object, or an object
      with its fields. A coordinate is given when its key is present and not
      null. */
  datatype Body =
    | InvalidJson
    | NotAnObject
    | Request(recognizedName: Option<string>, latitudeGiven: bool, longitudeGiven: bool,
              emotionalState: Option<string>)

  /** What converting the coordinates and measuring the geodesic distance
      gives: the distance in metres, a `ValueError`/`TypeError`, or another
      exception with its text. */
  datatype GeoOutcome = Distance(meters: real) | InvalidCoordinates | GeoError(detail: string)

  datatype GeoCheck = TooFar(meters: real, radius: int) | Proceed(suffix: string)

  /** The geofence. Only a distance strictly beyond the radius stops the
      request; a skipped or failed check only adds a note to the message. */
  function Geofence(office: Option<LocationSetting>, latitudeGiven: bool, longitudeGiven: bool,
                    geo: GeoOutcome): (g: GeoCheck)
    ensures g.TooFar? <==>
      office.Some? && latitudeGiven && longitudeGiven && geo.Distance?
      && geo.meters > office.value.radiusMeters as real
    ensures g.TooFar? ==> g.meters == geo.meters && g.radius == office.value.radiusMeters
    ensures g.Proceed? && office.Some? && latitudeGiven && longitudeGiven && geo.Distance? ==> g.suffix == ""
    ensures g.Proceed? && !(office.Some? && latitudeGiven && longitudeGiven && geo.Distance?) ==> |g.suffix| > 0
  {
    if office.Some? && latitudeGiven && longitudeGiven then
      match geo
      case Distance(d) =>
        if d > office.value.radiusMeters as real then TooFar(d, office.value.radiusMeters) else Proceed("")
      case InvalidCoordinates =>
        Proceed(NoteInvalidCoordinates)
      case GeoError(detail) =>
        Proceed(NoteCheckFailed + detail + ").")
    else if office.None? then
      Proceed(NoteNoOffice)
    else
      Proceed(NoteNoDevice)
  }

  /** Python's `int(x)`: truncation toward zero. */
  function Truncate(x: real): (r: int)
    ensures x >= 0.0 ==> r == x.Floor
    ensures x < 0.0 ==> r == -((-x).Floor)
  {
    if x >= 0.0 then x.Floor else -((-x).Floor)
  }

  // ------------------------------------------------------------ messages

  /** The fixed parts of the response messages. */
  const NoteInvalidCoordinates: string := " (Location check skipped: Invalid coordinates provided or configured)."
  const NoteCheckFailed: string := " (Location check failed due to an error: "
  const NoteNoOffice: string := " (No office location set by admin, location check skipped)."
  const NoteNoDevice: string := " (Your device location not available, location check skipped)."
  const InternalErrorText: string := "An internal server error occurred: "
  const TextNoEmployee: string := "No Employee matches the given query."
  const TextWelcome: string := "In Time. Welcome, "
  const TextGoodbye: string := "Out Time. Goodbye, "
  const TextBreakOut: string := " Break Out recorded."
  const TextBreakIn: string := " Break In recorded."
  const TextCheckedOut: string := "You have already checked out for today, "
  const TextNoAction: string := "No attendance action taken."
  const TextInvalidJson: string := "Invalid JSON data."
  const TextUnknown: string := "Unknown person or name missing."
  const TextNotInDatabase: string := "\" not found in database."
  const TextAway: string := "m away from the office. Attendance can only be marked within "
  const TextLeaveNotFound: string := "\" not found."
  const RemarkLate: string := "Late entry."
  const RemarkOnTime: string := "On time."
  const RemarkOut: string := "Out Time."

  // ------------------------------------------------------------ response

  datatype Status = Success | Info | Failure | Error

  /** The `attendance_type` values: 'IN', 'OUT', 'BREAK_OUT', 'BREAK_IN'. */
  datatype Action = MarkedIn | MarkedOut | MarkedBreakOut | MarkedBreakIn

  datatype Response = Response(
    httpStatus: nat,
    status: Status,
    message: string,
    recognizedName: Option<string>,
    attendanceType: Option<Action>,
    isLate: bool)

  /** The 500 answer of the outer `except Exception`; the exception's own
      text is not part of this model. */
  const InternalError: Response :=
    Response(500, Error, InternalErrorText, None, None, false)

  /** `break_type.capitalize()`. */
  function Capitalized(bt: BreakType): string {
    match bt
    case Lunch => "Lunch"
    case Other => "Other"
  }

  /** The response together with the employee and record tables after the
      call. */
  datatype Outcome = Outcome(resp: Response, employees: seq<Employee>, records: seq<AttendanceRecord>)

  /** The attendance action for employee `es[ix]` once the geofence has let
      the request through, with `last_seen` stamped on every path. */
  function Act(es: seq<Employee>, rs: seq<AttendanceRecord>, ix: nat, emotion: Option<string>,
               suffix: string, now: Instant): Outcome
    requires ix < |es|
  {
    var e := es[ix];
    var seen := es[ix := e.(lastSeen := Some(now))];
    var t := now.time;
    var inIx := FindRecord(rs, e.pk, now.date, In);
    var outIx := FindRecord(rs, e.pk, now.date, Out);
    if inIx.None? then
      var late := t > InTimeEnd;
      var remarks := if late then RemarkLate else RemarkOnTime;
      Outcome(Response(200, Success, TextWelcome + e.name + "!" + suffix, Some(e.name), Some(MarkedIn), late),
              seen, rs + [NewRecord(e, In, remarks, emotion, now)])
    else if outIx.None? then
      if t >= OutTimeMin then
        Outcome(Response(200, Success, TextGoodbye + e.name + "!" + suffix, Some(e.name), Some(MarkedOut), false),
                seen, rs + [NewRecord(e, Out, RemarkOut, None, now)])
      else
        var inRec := rs[inIx.value];
        var toggled := ToggleBreak(inRec.breaks, t);
        var rs' := rs[inIx.value := inRec.(breaks := toggled.0)];
        match toggled.1
        case ClosedBreak(bt) =>
          Outcome(Response(200, Success, Capitalized(bt) + TextBreakOut + suffix, Some(e.name),
                           Some(MarkedBreakOut), false), seen, rs')
        case OpenedBreak(bt) =>
          Outcome(Response(200, Success, Capitalized(bt) + TextBreakIn + suffix, Some(e.name),
                           Some(MarkedBreakIn), false), seen, rs')
    else
      Outcome(Response(200, Info, TextCheckedOut + e.name + ".", Some(e.name), None, false),
              seen, rs)
  }

  /** `mark_attendance_with_gesture` as a function of the tables, the office
      setting, the request, the geofence outcome and the clock. */
  function Mark(es: seq<Employee>, rs: seq<AttendanceRecord>, office: Option<LocationSetting>,
                body: Body, geo: GeoOutcome, now: Instant): Outcome
  {
    match body
    case InvalidJson => Outcome(Response(400, Error, TextInvalidJson, None, None, false), es, rs)
    case NotAnObject => Outcome(InternalError, es, rs)
    case Request(name, lat, lon, emotion) =>
      if !Truthy(name) || name.value == "Unknown" then
        Outcome(Response(200, Info, TextUnknown, Some("Unknown"), None, false), es, rs)
      else
        match GetBy(es, NameColumn, name.value)
        case NotFound =>
          Outcome(Response(200, Failure, "Employee \"" + name.value + TextNotInDatabase,
                           Some(name.value), None, false), es, rs)
        case MultipleFound => Outcome(InternalError, es, rs)
        case Found(ix) =>
          match Geofence(office, lat, lon, geo)
          case TooFar(d, radius) =>
            Outcome(Response(200, Info, "You are " + IntText(Truncate(d))
                               + TextAway
                               + IntText(radius) + "m.", Some(es[ix].name), None, false), es, rs)
          case Proceed(suffix) => Act(es, rs, ix, emotion, suffix, now)
  }

  // ------------------------------------------------------------ properties

  /** The request names exactly one employee, `es[ix]`, and the geofence
      lets it through. */
  predicate Admitted(es: seq<Employee>, office: Option<LocationSetting>, body: Body, geo: GeoOutcome, ix: nat) {
    && body.Request?
    && Truthy(body.recognizedName) && body.recognizedName.value != "Unknown"
    && GetBy(es, NameColumn, body.recognizedName.value) == Found(ix)
    && Geofence(office, body.latitudeGiven, body.longitudeGiven, geo).Proceed?
  }

  /** An admitted request is answered by `Act` on the employee it names. */
  lemma MarkAdmitted(es: seq<Employee>, rs: seq<AttendanceRecord>, office: Option<LocationSetting>,
                     body: Body, geo: GeoOutcome, now: Instant, ix: nat)
    requires Admitted(es, office, body, geo, ix)
    ensures ix < |es|
    ensures Mark(es, rs, office, body, geo, now)
      == Act(es, rs, ix, body.emotionalState, Geofence(office, body.latitudeGiven, body.longitudeGiven, geo).suffix, now)
  {
  }

  /** Nothing is written unless the request is admitted: a missing or
      "Unknown" name, an unknown or ambiguous employee, a bad body and a
      position beyond the radius all leave both tables as they were, with a
      status other than 'success'. */
  lemma NoWriteUnlessAdmitted(es: seq<Employee>, rs: seq<AttendanceRecord>, office: Option<LocationSetting>,
                              body: Body, geo: GeoOutcome, now: Instant)
    requires forall ix: nat :: !Admitted(es, office, body, geo, ix)
    ensures var o := Mark(es, rs, office, body, geo, now);
      o.employees == es && o.records == rs && o.resp.status != Success && o.resp.attendanceType.None?
  {
    match body
    case Request(name, lat, lon, emotion) =>
      if Truthy(name) && name.value != "Unknown" {
        match GetBy(es, NameColumn, name.value)
        case Found(ix) =>
          assert !Admitted(es, office, body, geo, ix);
          assert Geofence(office, lat, lon, geo).TooFar?;
        case NotFound =>
        case MultipleFound =>
      }
    case InvalidJson =>
    case NotAnObject =>
  }

  /** `Act` stamps the employee's `last_seen` with the current instant,
      whatever action it takes, including none. */
  lemma ActStampsLastSeen(es: seq<Employee>, rs: seq<AttendanceRecord>, ix: nat, emotion: Option<string>,
                          suffix: string, now: Instant)
    requires ix < |es|
    ensures Act(es, rs, ix, emotion, suffix, now).employees == es[ix := es[ix].(lastSeen := Some(now))]
  {
  }

  /** The status of `Act` is 'success' exactly when the record table
      changed, and exactly when the response names an action. */
  lemma ActSuccessIffRecorded(es: seq<Employee>, rs: seq<AttendanceRecord>, ix: nat, emotion: Option<string>,
                              suffix: string, now: Instant)
    requires ix < |es|
    ensures var o := Act(es, rs, ix, emotion, suffix, now);
      && (o.resp.status == Success <==> o.records != rs)
      && (o.resp.status == Success <==> o.resp.attendanceType.Some?)
  {
    var o := Act(es, rs, ix, emotion, suffix, now);
    var e := es[ix];
    var inIx := FindRecord(rs, e.pk, now.date, In);
    var outIx := FindRecord(rs, e.pk, now.date, Out);
    if inIx.None? || (outIx.None? && now.time >= OutTimeMin) {
      assert |o.records| == |rs| + 1;
    } else if outIx.None? {
      var k := inIx.value;
      var bs := rs[k].breaks;
      var toggled := ToggleBreak(bs, now.time);
      assert o.records[k].breaks == toggled.0;
      if HasOpenBreak(bs) {
        assert toggled.0[|bs| - 1] != bs[|bs| - 1];
      } else {
        assert |toggled.0| != |bs|;
      }
      assert o.records[k] != rs[k];
    }
  }

  /** With no IN today, `Act` writes the IN record: remarks "Late entry."
      and `is_late` exactly when the time is after 11:00, and the emotion
      kept only when given and non-empty. */
  lemma FirstMarkIsIn(es: seq<Employee>, rs: seq<AttendanceRecord>, ix: nat, emotion: Option<string>,
                      suffix: string, now: Instant)
    requires ix < |es|
    requires FindRecord(rs, es[ix].pk, now.date, In).None?
    ensures var o := Act(es, rs, ix, emotion, suffix, now);
      var late := now.time > Clock(11, 0);
      && o.records == rs + [AttendanceRecord(es[ix].pk, now.date, In, now.time,
                                             if late then RemarkLate else RemarkOnTime,
                                             if Truthy(emotion) then emotion else None, [])]
      && o.resp.status == Success && o.resp.attendanceType == Some(MarkedIn)
      && o.resp.isLate == late
  {
  }

  /** From 19:00 on, an employee who is in and not out is checked out; the
      IN record, breaks included, is left as it was. */
  lemma EveningMarkIsOut(es: seq<Employee>, rs: seq<AttendanceRecord>, ix: nat, emotion: Option<string>,
                         suffix: string, now: Instant)
    requires ix < |es|
    requires FindRecord(rs, es[ix].pk, now.date, In).Some? && FindRecord(rs, es[ix].pk, now.date, Out).None?
    requires now.time >= Clock(19, 0)
    ensures var o := Act(es, rs, ix, emotion, suffix, now);
      && o.records == rs + [AttendanceRecord(es[ix].pk, now.date, Out, now.time, RemarkOut, None, [])]
      && o.resp.attendanceType == Some(MarkedOut)
  {
  }

  /** Before 19:00, an employee who is in and not out toggles a break on
      the IN record: every other record and every break but the last stay
      as they were, and the ledger invariant is kept. */
  lemma DaytimeMarkTogglesBreak(es: seq<Employee>, rs: seq<AttendanceRecord>, ix: nat, emotion: Option<string>,
                                suffix: string, now: Instant)
    requires ix < |es|
    requires FindRecord(rs, es[ix].pk, now.date, In).Some? && FindRecord(rs, es[ix].pk, now.date, Out).None?
    requires now.time < Clock(19, 0)
    ensures var o := Act(es, rs, ix, emotion, suffix, now);
      var k := FindRecord(rs, es[ix].pk, now.date, In).value;
      var bs := rs[k].breaks;
      && |o.records| == |rs|
      && (forall j :: 0 <= j < |rs| && j != k ==> o.records[j] == rs[j])
      && (forall i :: 0 <= i < |bs| - 1 ==> o.records[k].breaks[i] == bs[i])
      && (LedgerOk(bs) ==> LedgerOk(o.records[k].breaks))
      && (HasOpenBreak(bs) ==> o.records[k].breaks[|bs| - 1].breakOut == Some(now.time)
                               && o.resp.attendanceType == Some(MarkedBreakOut))
      && (!HasOpenBreak(bs) ==> o.records[k].breaks[|bs|].breakIn == Some(now.time)
                                && o.resp.attendanceType == Some(MarkedBreakIn))
  {
    var k := FindRecord(rs, es[ix].pk, now.date, In).value;
    if LedgerOk(rs[k].breaks) {
      ToggleKeepsLedger(rs[k].breaks, now.time);
    }
  }

  /** Once both IN and OUT exist for today, no record changes and the answer
      is 'info'. */
  lemma CheckedOutChangesNoRecord(es: seq<Employee>, rs: seq<AttendanceRecord>, ix: nat, emotion: Option<string>,
                                  suffix: string, now: Instant)
    requires ix < |es|
    requires FindRecord(rs, es[ix].pk, now.date, In).Some? && FindRecord(rs, es[ix].pk, now.date, Out).Some?
    ensures var o := Act(es, rs, ix, emotion, suffix, now);
      o.records == rs && o.resp.status == Info && o.resp.attendanceType.None?
  {
  }

  /** `Act` keeps the break ledgers of all records in order. */
  lemma ActKeepsLedgers(es: seq<Employee>, rs: seq<AttendanceRecord>, ix: nat, emotion: Option<string>,
                        suffix: string, now: Instant)
    requires ix < |es| && AllLedgersOk(rs)
    ensures AllLedgersOk(Act(es, rs, ix, emotion, suffix, now).records)
  {
    var o := Act(es, rs, ix, emotion, suffix, now);
    var e := es[ix];
    var inIx := FindRecord(rs, e.pk, now.date, In);
    var outIx := FindRecord(rs, e.pk, now.date, Out);
    if inIx.Some? && outIx.None? && now.time < OutTimeMin {
      var k := inIx.value;
      ToggleKeepsLedger(rs[k].breaks, now.time);
      assert forall j :: 0 <= j < |rs| && j != k ==> o.records[j] == rs[j];
    } else if inIx.None? || outIx.None? {
      assert o.records[..|rs|] == rs;
      assert o.records[|rs|].breaks == [];
    }
  }

  /** Every call keeps the break ledgers of all records in order. */
  lemma MarkKeepsLedgers(es: seq<Employee>, rs: seq<AttendanceRecord>, office: Option<LocationSetting>,
                         body: Body, geo: GeoOutcome, now: Instant)
    requires AllLedgersOk(rs)
    ensures AllLedgersOk(Mark(es, rs, office, body, geo, now).records)
  {
    if ix: nat :| Admitted(es, office, body, geo, ix) {
      MarkAdmitted(es, rs, office, body, geo, now, ix);
      ActKeepsLedgers(es, rs, ix, body.emotionalState,
                      Geofence(office, body.latitudeGiven, body.longitudeGiven, geo).suffix, now);
    } else {
      NoWriteUnlessAdmitted(es, rs, office, body, geo, now);
    }
  }

  /** The status of the view is 'success' exactly when the record table
      changed. */
  lemma SuccessIffRecorded(es: seq<Employee>, rs: seq<AttendanceRecord>, office: Option<LocationSetting>,
                           body: Body, geo: GeoOutcome, now: Instant)
    ensures var o := Mark(es, rs, office, body, geo, now);
      o.resp.status == Success <==> o.records != rs
  {
    if ix: nat :| Admitted(es, office, body, geo, ix) {
      MarkAdmitted(es, rs, office, body, geo, now, ix);
      ActSuccessIffRecorded(es, rs, ix, body.emotionalState,
                            Geofence(office, body.latitudeGiven, body.longitudeGiven, geo).suffix, now);
    } else {
      NoWriteUnlessAdmitted(es, rs, office, body, geo, now);
    }
  }

  // ------------------------------------------------------------ the view

  /** Stamping `last_seen` changes no primary key, so the store stays
      consistent. */
  lemma StampKeepsValid(es: seq<Employee>, rs: seq<AttendanceRecord>, ix: nat, now: Instant)
    requires ix < |es| && UniquePks(es) && RecordsOwned(rs, es)
    ensures var es' := es[ix := es[ix].(lastSeen := Some(now))];
      UniquePks(es') && RecordsOwned(rs, es')
  {
    var es' := es[ix := es[ix].(lastSeen := Some(now))];
    forall i | 0 <= i < |rs| ensures FindEmployee(es', rs[i].employee).Some? {
      var k := FindEmployee(es, rs[i].employee).value;
      assert es'[k].pk == rs[i].employee;
    }
  }

  /** Replacing the breaks of one record by a ledger that is still in order
      keeps the store consistent. */
  lemma NewBreaksKeepValid(rs: seq<AttendanceRecord>, es: seq<Employee>, k: nat, bs: seq<Break>)
    requires k < |rs| && UniqueRecordKeys(rs) && RecordsOwned(rs, es) && AllLedgersOk(rs) && LedgerOk(bs)
    ensures var rs' := rs[k := rs[k].(breaks := bs)];
      UniqueRecordKeys(rs') && RecordsOwned(rs', es) && AllLedgersOk(rs')
  {
    var rs' := rs[k := rs[k].(breaks := bs)];
    assert forall i :: 0 <= i < |rs| ==>
      rs'[i].employee == rs[i].employee && rs'[i].date == rs[i].date && rs'[i].kind == rs[i].kind;
  }

  /** Closes or opens a break on the IN record `db.records[k]` and saves
      its `breaks`. */
  method UpdateBreaks(db: AttendanceDb, k: nat, t: Time) returns (event: BreakEvent)
    requires db.Valid() && k < |db.records|
    modifies db
    ensures db.Valid()
    ensures var toggled := ToggleBreak(old(db.records[k]).breaks, t);
      event == toggled.1 && db.records == old(db.records)[k := old(db.records[k]).(breaks := toggled.0)]
    ensures db.employees == old(db.employees) && db.location == old(db.location) && db.leaves == old(db.leaves)
  {
    var inRec := db.records[k];
    var toggled := ToggleBreak(inRec.breaks, t);
    ToggleKeepsLedger(inRec.breaks, t);
    NewBreaksKeepValid(db.records, db.employees, k, toggled.0);
    db.records := db.records[k := inRec.(breaks := toggled.0)];
    event := toggled.1;
  }

  /** The branch of `mark_attendance_with_gesture` after the geofence: the
      IN, OUT or break action, then `last_seen`. */
  method ActFor(db: AttendanceDb, ix: nat, emotion: Option<string>, suffix: string, now: Instant)
    returns (resp: Response)
    requires db.Valid() && ix < |db.employees|
    modifies db
    ensures db.Valid()
    ensures var o := Act(old(db.employees), old(db.records), ix, emotion, suffix, now);
      resp == o.resp && db.employees == o.employees && db.records == o.records
    ensures db.location == old(db.location) && db.leaves == old(db.leaves)
  {
    ghost var o := Act(db.employees, db.records, ix, emotion, suffix, now);
    var employee := db.employees[ix];
    var t := now.time;
    var inIx := FindRecord(db.records, employee.pk, now.date, In);
    var outIx := FindRecord(db.records, employee.pk, now.date, Out);
    var message := TextNoAction;
    var action: Option<Action> := None;
    var isLate := false;
    if inIx.None? {
      isLate := t > InTimeEnd;
      var remarks := if isLate then RemarkLate else RemarkOnTime;
      CreateAttendanceRecord(db, ix, In, remarks, emotion, now);
      action := Some(MarkedIn);
      message := TextWelcome + employee.name + "!";
    } else if outIx.None? {
      if t >= OutTimeMin {
        CreateAttendanceRecord(db, ix, Out, RemarkOut, None, now);
        action := Some(MarkedOut);
        message := TextGoodbye + employee.name + "!";
      } else {
        var event := UpdateBreaks(db, inIx.value, t);
        match event {
          case ClosedBreak(bt) =>
            action := Some(MarkedBreakOut);
            message := Capitalized(bt) + TextBreakOut;
          case OpenedBreak(bt) =>
            action := Some(MarkedBreakIn);
            message := Capitalized(bt) + TextBreakIn;
        }
      }
    } else {
      message := TextCheckedOut + employee.name + ".";
    }
    StampKeepsValid(db.employees, db.records, ix, now);
    db.employees := db.employees[ix := db.employees[ix].(lastSeen := Some(now))];
    if action.Some? {
      resp := Response(200, Success, message + suffix, Some(employee.name), action, isLate);
    } else {
      resp := Response(200, Info, message, Some(employee.name), None, false);
    }
  }

  /** `mark_attendance_with_gesture(request)` against the store. */
  method MarkAttendanceWithGesture(db: AttendanceDb, body: Body, geo: GeoOutcome, now: Instant)
    returns (resp: Response)
    requires db.Valid()
    modifies db
    ensures db.Valid()
    ensures var o := Mark(old(db.employees), old(db.records), old(db.location), body, geo, now);
      resp == o.resp && db.employees == o.employees && db.records == o.records
    ensures db.location == old(db.location) && db.leaves == old(db.leaves)
  {
    if body.InvalidJson? {
      return Response(400, Error, TextInvalidJson, None, None, false);
    }
    if body.NotAnObject? {
      return InternalError;
    }
    var name := body.recognizedName;
    if !Truthy(name) || name.value == "Unknown" {
      return Response(200, Info, TextUnknown, Some("Unknown"), None, false);
    }
    var found := GetBy(db.employees, NameColumn, name.value);
    if found.NotFound? {
      return Response(200, Failure, "Employee \"" + name.value + TextNotInDatabase, Some(name.value), None, false);
    }
    if found.MultipleFound? {
      return InternalError;
    }
    var ix := found.index;
    var check := Geofence(db.location, body.latitudeGiven, body.longitudeGiven, geo);
    if check.TooFar? {
      return Response(200, Info, "You are " + IntText(Truncate(check.meters))
                        + TextAway
                        + IntText(check.radius) + "m.", Some(db.employees[ix].name), None, false);
    }
    resp := ActFor(db, ix, body.emotionalState, check.suffix, now);
  }

  // ------------------------------------------------------------ recent records

  /** `last_seen__gte=cutoff_date`: a `last_seen` on or after the cutoff
      day. */
  predicate SeenSince(e: Employee, cutoff: Date) {
    e.lastSeen.Some? && NotAfter(cutoff, e.lastSeen.value.date)
  }

  function SeenSinceAll(es: seq<Employee>, cutoff: Date): (r: seq<Employee>)
    ensures forall x :: x in r <==> x in es && SeenSince(x, cutoff)
  {
    if es == [] then []
    else (if SeenSince(es[0], cutoff) then [es[0]] else []) + SeenSinceAll(es[1..], cutoff)
  }

  /** Seconds since the start of year 0 on the day-key scale; its order is
      the order of instants. */
  function InstantKey(i: Instant): int {
    DayKey(i.date) * SecondsPerDay + i.time
  }

  function SeenKey(e: Employee): int {
    if e.lastSeen.Some? then InstantKey(e.lastSeen.value) else 0
  }

  /** `order_by('-last_seen')`. */
  predicate SeenLater(a: Employee, b: Employee) {
    SeenKey(a) >= SeenKey(b)
  }

  /** The at most ten employees seen in the seven days up to `today`, most
      recently seen first. */
  function RecentEmployees(es: seq<Employee>, today: Date): seq<Employee> {
    Take(SortBy(SeenSinceAll(es, SubDays(today, 7)), SeenLater), 10)
  }

  /** The order of `order_by('-date', '-time')`: date, then time. */
  function RecordKey(r: AttendanceRecord): int {
    DayKey(r.date) * SecondsPerDay + r.time
  }

  /** `AttendanceRecord.objects.filter(employee=e).order_by('-date',
      '-time').first()`: a latest record of the employee, the first in
      table order among equally late ones. */
  function LatestRecord(rs: seq<AttendanceRecord>, pk: nat): (r: Option<nat>)
    ensures r.None? <==> forall j :: 0 <= j < |rs| ==> rs[j].employee != pk
    ensures r.Some? ==> r.value < |rs| && rs[r.value].employee == pk
    ensures r.Some? ==> forall j :: 0 <= j < |rs| && rs[j].employee == pk ==> RecordKey(rs[j]) <= RecordKey(rs[r.value])
    decreases |rs|
  {
    if rs == [] then None
    else
      var n := |rs| - 1;
      var before := LatestRecord(rs[..n], pk);
      assert forall j :: 0 <= j < n ==> rs[..n][j] == rs[j];
      if rs[n].employee != pk then before
      else if before.Some? && RecordKey(rs[n]) <= RecordKey(rs[before.value]) then before
      else Some(n)
  }

  /** The latest record's date is the latest date the employee has a record
      on. */
  lemma LatestIsLatestDate(rs: seq<AttendanceRecord>, pk: nat, j: nat)
    requires j < |rs| && rs[j].employee == pk
    ensures LatestRecord(rs, pk).Some?
    ensures NotAfter(rs[j].date, rs[LatestRecord(rs, pk).value].date)
  {
    var k := LatestRecord(rs, pk).value;
    BeforeIsKeyOrder(rs[k].date, rs[j].date);
    BeforeIsKeyOrder(rs[j].date, rs[k].date);
  }

  predicate OpenedLunch(b: Break) {
    b.breakType == Lunch && b.breakIn.Some?
  }

  /** `min(b.break_in for b in lunch_breaks)`, `None` without lunch breaks. */
  function FirstLunchIn(bs: seq<Break>): (r: Option<Time>)
    ensures r.None? <==> forall i :: 0 <= i < |bs| ==> !OpenedLunch(bs[i])
    ensures r.Some? ==> exists i :: 0 <= i < |bs| && OpenedLunch(bs[i]) && bs[i].breakIn == r
    ensures r.Some? ==> forall i :: 0 <= i < |bs| && OpenedLunch(bs[i]) ==> r.value <= bs[i].breakIn.value
    decreases |bs|
  {
    if bs == [] then None
    else
      var n := |bs| - 1;
      var before := FirstLunchIn(bs[..n]);
      assert forall i :: 0 <= i < n ==> bs[..n][i] == bs[i];
      if !OpenedLunch(bs[n]) then before
      else if before.Some? && before.value <= bs[n].breakIn.value then before
      else bs[n].breakIn
  }

  /** `max` of the lunch breaks' `break_out`s, `None` when none is closed. */
  function LastLunchOut(bs: seq<Break>): (r: Option<Time>)
    ensures r.None? <==> forall i :: 0 <= i < |bs| ==> !(OpenedLunch(bs[i]) && bs[i].breakOut.Some?)
    ensures r.Some? ==> exists i :: 0 <= i < |bs| && OpenedLunch(bs[i]) && bs[i].breakOut == r
    ensures r.Some? ==> forall i :: 0 <= i < |bs| && OpenedLunch(bs[i]) && bs[i].breakOut.Some? ==>
      bs[i].breakOut.value <= r.value
    decreases |bs|
  {
    if bs == [] then None
    else
      var n := |bs| - 1;
      var before := LastLunchOut(bs[..n]);
      assert forall i :: 0 <= i < n ==> bs[..n][i] == bs[i];
      if !(OpenedLunch(bs[n]) && bs[n].breakOut.Some?) then before
      else if before.Some? && bs[n].breakOut.value <= before.value then before
      else bs[n].breakOut
  }

  /** The day's records of one employee. */
  function DayRecords(rs: seq<AttendanceRecord>, pk: nat, d: Date): (r: seq<AttendanceRecord>)
    ensures forall x :: x in r <==> x in rs && x.employee == pk && x.date == d
  {
    if rs == [] then []
    else (if rs[0].employee == pk && rs[0].date == d then [rs[0]] else []) + DayRecords(rs[1..], pk, d)
  }

  /** The default order of records within a day: latest time first. */
  predicate LaterTime(a: AttendanceRecord, b: AttendanceRecord) {
    a.time >= b.time
  }

  /** The non-empty remarks, in order. */
  function TruthyRemarks(rs: seq<AttendanceRecord>): (r: seq<string>)
    ensures forall x :: x in r ==> x != ""
    ensures forall x :: x in r <==> exists i :: 0 <= i < |rs| && rs[i].remarks == x && x != ""
  {
    if rs == [] then []
    else
      assert forall i :: 1 <= i < |rs| ==> rs[i] == rs[1..][i - 1];
      (if rs[0].remarks != "" then [rs[0].remarks] else []) + TruthyRemarks(rs[1..])
  }

  /** `sep.join(parts)`. */
  function Join(parts: seq<string>, sep: string): string {
    if parts == [] then ""
    else if |parts| == 1 then parts[0]
    else parts[0] + sep + Join(parts[1..], sep)
  }

  /** `"; ".join(...)` of the day's non-empty remarks, latest record first,
      or `None` when there are none. */
  function DayRemarks(rs: seq<AttendanceRecord>, pk: nat, d: Date): Option<string> {
    var parts := TruthyRemarks(SortBy(DayRecords(rs, pk, d), LaterTime));
    if parts == [] then None else Some(Join(parts, "; "))
  }

  /** The path given to `static(...)` for a missing photo; the
      `STATIC_URL` prefix `static` adds is a setting and is left out. */
  const DefaultAvatar: string := "img/default_avatar.png"

  /** One card of `recent_attendance_records`. Times are as displayed, to
      the minute; `None` stands for '-'. `workingSeconds` is `None` for
      'In progress...' and `breakSeconds` for '-'. */
  datatype RecentRow = RecentRow(
    employeeName: string,
    employeeId: string,
    photoUrl: string,
    date: Date,
    inTime: Option<Time>,
    outTime: Option<Time>,
    lunchIn: Option<Time>,
    lunchOut: Option<Time>,
    workingSeconds: Option<int>,
    breakSeconds: Option<int>,
    remarks: Option<string>,
    isLate: bool,
    emotion: Option<string>)

  function MinuteOf(rs: seq<AttendanceRecord>, ix: Option<nat>): Option<Time>
    requires ix.Some? ==> ix.value < |rs|
  {
    if ix.Some? then Some(ToMinute(rs[ix.value].time)) else None
  }

  /** The card for employee `e` given the hours of its latest day. */
  function CardOf(e: Employee, rs: seq<AttendanceRecord>, d: Date, h: WorkingHours.Hours, today: Date): (r: RecentRow)
    ensures r.employeeId == e.employeeId && r.date == d
    ensures r.workingSeconds.None? <==> !h.hasOut && d == today
    ensures r.breakSeconds.Some? ==> r.breakSeconds.value > 0
    ensures r.isLate ==> exists j :: 0 <= j < |rs| && Matches(rs[j], e.pk, d, In) && rs[j].time > Clock(11, 0)
    ensures r.lunchOut.Some? ==> r.lunchIn.Some?
    ensures r.lunchIn.Some? ==> r.lunchIn.value % 60 == 0
    ensures r.lunchOut.Some? ==> r.lunchOut.value % 60 == 0
  {
    var inIx := FindRecord(rs, e.pk, d, In);
    var outIx := FindRecord(rs, e.pk, d, Out);
    var bs := if inIx.Some? then rs[inIx.value].breaks else [];
    var lunchIn := FirstLunchIn(bs);
    var breaks := h.lunch + h.otherBreaks;
    RecentRow(
      e.name, e.employeeId, if e.photo != "" then e.photo else DefaultAvatar, d,
      MinuteOf(rs, inIx), MinuteOf(rs, outIx),
      OptionToMinute(lunchIn), OptionToMinute(if lunchIn.Some? then LastLunchOut(bs) else None),
      if h.hasOut || d != today then Some(h.worked) else None,
      if breaks > 0 then Some(breaks) else None,
      DayRemarks(rs, e.pk, d),
      inIx.Some? && rs[inIx.value].time > InTimeEnd,
      if inIx.Some? then rs[inIx.value].emotion else None)
  }

  /** The card of one recent employee, or `None` when the employee has no
      record at all. */
  function RowFor(e: Employee, rs: seq<AttendanceRecord>, now: Instant): (r: Option<RecentRow>)
    ensures r.None? <==> forall j :: 0 <= j < |rs| ==> rs[j].employee != e.pk
    ensures r.Some? ==> r.value.employeeId == e.employeeId && r.value.date == rs[LatestRecord(rs, e.pk).value].date
    ensures r.Some? ==>
      (r.value.workingSeconds.None? <==>
        !WorkingHours.HoursOf(rs, e.pk, r.value.date, now).hasOut && r.value.date == now.date)
    ensures r.Some? ==>
      (r.value.isLate ==> exists j :: 0 <= j < |rs| && Matches(rs[j], e.pk, r.value.date, In)
                                      && rs[j].time > Clock(11, 0))
  {
    var latest := LatestRecord(rs, e.pk);
    if latest.None? then None
    else
      var d := rs[latest.value].date;
      Some(CardOf(e, rs, d, WorkingHours.HoursOf(rs, e.pk, d, now), now.date))
  }

  /** With one IN record per employee and day, a card is late exactly when
      that day's IN record is after 11:00. */
  lemma CardLateIff(e: Employee, rs: seq<AttendanceRecord>, d: Date, h: WorkingHours.Hours, today: Date)
    requires UniqueRecordKeys(rs)
    ensures CardOf(e, rs, d, h, today).isLate <==>
      exists j :: 0 <= j < |rs| && Matches(rs[j], e.pk, d, In) && rs[j].time > Clock(11, 0)
  {
    var inIx := FindRecord(rs, e.pk, d, In);
    if j :| 0 <= j < |rs| && Matches(rs[j], e.pk, d, In) && rs[j].time > Clock(11, 0) {
      var k := inIx.value;
      assert k <= j;
    }
  }

  function Rows(recent: seq<Employee>, rs: seq<AttendanceRecord>, now: Instant): (r: seq<RecentRow>)
    ensures |r| <= |recent|
    decreases |recent|
  {
    if recent == [] then []
    else
      var n := |recent| - 1;
      var row := RowFor(recent[n], rs, now);
      Rows(recent[..n], rs, now) + (if row.Some? then [row.value] else [])
  }

  /** The sort key `(date, in_time)`, with a missing IN time above every
      time of day, as `time.max` is. */
  function CardKey(r: RecentRow): int {
    DayKey(r.date) * (SecondsPerDay + 1) + (if r.inTime.Some? then r.inTime.value else SecondsPerDay)
  }

  /** `reverse=True`: a card may come first when its key is not smaller. */
  predicate CardFirst(a: RecentRow, b: RecentRow) {
    CardKey(a) >= CardKey(b)
  }

  /** The cards of `recent_attendance_records` before rendering. */
  function RecentCards(es: seq<Employee>, rs: seq<AttendanceRecord>, now: Instant): seq<RecentRow> {
    SortBy(Rows(RecentEmployees(es, now.date), rs, now), CardFirst)
  }

  /** The card of one employee, computing the hours with
      `calculate_working_hours`. */
  method BuildRow(e: Employee, rs: seq<AttendanceRecord>, now: Instant) returns (row: Option<RecentRow>)
    ensures row == RowFor(e, rs, now)
  {
    var latest := LatestRecord(rs, e.pk);
    if latest.None? {
      return None;
    }
    var d := rs[latest.value].date;
    var h := WorkingHours.CalculateWorkingHours(rs, e.pk, d, now);
    row := Some(CardOf(e, rs, d, h, now.date));
  }

  /** One more employee adds its card, if it has one. */
  lemma RowsStep(recent: seq<Employee>, rs: seq<AttendanceRecord>, now: Instant, i: nat, row: Option<RecentRow>)
    requires i < |recent| && row == RowFor(recent[i], rs, now)
    ensures Rows(recent[..i + 1], rs, now) == Rows(recent[..i], rs, now) + (if row.Some? then [row.value] else [])
  {
    assert recent[..i + 1][..i] == recent[..i];
  }

  /** `recent_attendance_records(request)` up to rendering: the loop over
      the recent employees, then the in-place sort. */
  method RecentAttendanceRecords(db: AttendanceDb, now: Instant) returns (cards: seq<RecentRow>)
    ensures cards == RecentCards(db.employees, db.records, now)
  {
    var rs := db.records;
    var recent := RecentEmployees(db.employees, now.date);
    var data: seq<RecentRow> := [];
    for i := 0 to |recent|
      invariant data == Rows(recent[..i], rs, now)
    {
      var row := BuildRow(recent[i], rs, now);
      RowsStep(recent, rs, now, i, row);
      if row.Some? {
        data := data + [row.value];
      }
    }
    assert recent[..|recent|] == recent;
    cards := SortBy(data, CardFirst);
  }

  /** At most ten cards, latest date first and, within a date, latest IN
      first with cards lacking an IN time ahead. */
  lemma RecentCardsOrdered(es: seq<Employee>, rs: seq<AttendanceRecord>, now: Instant)
    ensures var cards := RecentCards(es, rs, now);
      && |cards| <= 10
      && SortedBy(cards, CardFirst)
  {
    assert Total(CardFirst);
    SortBySorted(Rows(RecentEmployees(es, now.date), rs, now), CardFirst);
  }

  /** Every card belongs to an employee seen during the last seven days who
      has at least one record. */
  lemma {:induction false} RowsComeFromRecentEmployees(recent: seq<Employee>, rs: seq<AttendanceRecord>, now: Instant,
                                                       x: RecentRow)
    requires x in Rows(recent, rs, now)
    ensures exists e :: e in recent && RowFor(e, rs, now) == Some(x)
    decreases |recent|
  {
    var n := |recent| - 1;
    var row := RowFor(recent[n], rs, now);
    if x in Rows(recent[..n], rs, now) {
      RowsComeFromRecentEmployees(recent[..n], rs, now, x);
      var e :| e in recent[..n] && RowFor(e, rs, now) == Some(x);
      assert e in recent;
    } else {
      assert RowFor(recent[n], rs, now) == Some(x);
    }
  }

  /** Every recent employee with a record has its card among the rows. */
  lemma {:induction false} RowsCoverRecentEmployees(recent: seq<Employee>, rs: seq<AttendanceRecord>, now: Instant,
                                                     k: nat)
    requires k < |recent| && RowFor(recent[k], rs, now).Some?
    ensures RowFor(recent[k], rs, now).value in Rows(recent, rs, now)
    decreases |recent|
  {
    var n := |recent| - 1;
    var row := RowFor(recent[n], rs, now);
    RowsStep(recent, rs, now, n, row);
    assert recent[..n + 1] == recent;
    if k < n {
      assert recent[..n][k] == recent[k];
      RowsCoverRecentEmployees(recent[..n], rs, now, k);
    } else {
      assert k == n && row.Some?;
    }
  }

  /** The recent employees are at most ten employees of the table seen in
      the last seven days, most recently seen first. */
  lemma RecentEmployeesFacts(es: seq<Employee>, today: Date)
    ensures var r := RecentEmployees(es, today);
      && |r| <= 10
      && SortedBy(r, SeenLater)
      && forall e :: e in r ==> e in es && SeenSince(e, SubDays(today, 7))
  {
    var seen := SeenSinceAll(es, SubDays(today, 7));
    var r := RecentEmployees(es, today);
    assert Total(SeenLater);
    SortBySorted(seen, SeenLater);
    TakeSorted(SortBy(seen, SeenLater), 10, SeenLater);
    forall e | e in r ensures e in es && SeenSince(e, SubDays(today, 7)) {
      SortByMembers(seen, SeenLater, e);
    }
  }

  /** An employee seen in the last seven days is left out only when ten
      others were seen no earlier. */
  lemma RecentEmployeesAreLatestSeen(es: seq<Employee>, today: Date, e: Employee)
    requires e in es && SeenSince(e, SubDays(today, 7)) && e !in RecentEmployees(es, today)
    ensures |RecentEmployees(es, today)| == 10
    ensures forall x :: x in RecentEmployees(es, today) ==> SeenKey(e) <= SeenKey(x)
  {
    var seen := SeenSinceAll(es, SubDays(today, 7));
    var sorted := SortBy(seen, SeenLater);
    var r := RecentEmployees(es, today);
    assert Total(SeenLater) && Transitive(SeenLater);
    SortBySorted(seen, SeenLater);
    SortByMembers(seen, SeenLater, e);
    var k :| 0 <= k < |sorted| && sorted[k] == e;
    assert k >= 10;
    forall x | x in r ensures SeenKey(e) <= SeenKey(x) {
      var i :| 0 <= i < |r| && r[i] == x;
      SortedPairs(sorted, SeenLater, i, k);
    }
  }

  /** Every employee among the recent ones that has a record gets its card. */
  lemma RecentEmployeeHasCard(es: seq<Employee>, rs: seq<AttendanceRecord>, now: Instant, e: Employee)
    requires e in RecentEmployees(es, now.date) && RowFor(e, rs, now).Some?
    ensures RowFor(e, rs, now).value in RecentCards(es, rs, now)
  {
    var recent := RecentEmployees(es, now.date);
    var k :| 0 <= k < |recent| && recent[k] == e;
    RowsCoverRecentEmployees(recent, rs, now, k);
    SortByMembers(Rows(recent, rs, now), CardFirst, RowFor(e, rs, now).value);
  }

  /** Every card is the card of one of the recent employees. */
  lemma CardsComeFromRecentEmployees(es: seq<Employee>, rs: seq<AttendanceRecord>, now: Instant, x: RecentRow)
    requires x in RecentCards(es, rs, now)
    ensures exists e :: e in RecentEmployees(es, now.date) && e in es && SeenSince(e, SubDays(now.date, 7))
                        && RowFor(e, rs, now) == Some(x)
  {
    var recent := RecentEmployees(es, now.date);
    SortByMembers(Rows(recent, rs, now), CardFirst, x);
    RowsComeFromRecentEmployees(recent, rs, now, x);
    var e :| e in recent && RowFor(e, rs, now) == Some(x);
    var sorted := SortBy(SeenSinceAll(es, SubDays(now.date, 7)), SeenLater);
    SortByMembers(SeenSinceAll(es, SubDays(now.date, 7)), SeenLater, e);
    assert e in sorted;
  }

  // ------------------------------------------------------------ leave balance

  /** `Sum('leaves_taken')` over the employee's leave rows whose month
      starts with the year's text (`... or 0`). */
  function TakenThisYear(ls: seq<LeaveHistory>, pk: nat, year: int): int
    decreases |ls|
  {
    if ls == [] then 0
    else
      var n := |ls| - 1;
      TakenThisYear(ls[..n], pk, year)
        + (if ls[n].employee == pk && StartsWith(ls[n].month, IntText(year)) then ls[n].leavesTaken else 0)
  }

  /** `f"{n:02d}"` for a month number. */
  function TwoDigits(n: nat): string
    requires n < 100
  {
    [Digit(n / 10), Digit(n % 10)]
  }

  datatype LeaveReply =
    | LeaveInfo(employeeId: string, employeeName: string, accrued: int, taken: int, remaining: int,
                currentMonth: string)
    | LeaveError(httpStatus: nat, error: string)

  /** The balance of employee `es[ix]` on `today`: one leave accrued per
      month so far this year, less what was taken, never below zero. */
  function Balance(es: seq<Employee>, ls: seq<LeaveHistory>, ix: nat, today: Date): (r: LeaveReply)
    requires ix < |es|
    ensures r.LeaveInfo?
    ensures r.accrued == today.month && 1 <= r.accrued <= 12
    ensures r.taken == TakenThisYear(ls, es[ix].pk, today.year)
    ensures r.remaining >= 0
    ensures r.remaining == if r.accrued > r.taken then r.accrued - r.taken else 0
    ensures r.currentMonth == IntText(today.year) + "-" + TwoDigits(today.month)
  {
    var e := es[ix];
    var taken := TakenThisYear(ls, e.pk, today.year);
    var remaining := today.month - taken;
    LeaveInfo(e.employeeId, e.name, today.month, taken, if remaining < 0 then 0 else remaining,
              IntText(today.year) + "-" + TwoDigits(today.month))
  }

  /** `get_employee_leaves(request, employee_id)` as written:
      `get_object_or_404` raises `Http404`, which the `except Exception`
      clause turns into a 500; the `DoesNotExist` clause is never reached. */
  function EmployeeLeavesAsWritten(es: seq<Employee>, ls: seq<LeaveHistory>, employeeId: string, today: Date): (r: LeaveReply)
    ensures r.LeaveError? <==> !GetBy(es, EmployeeIdColumn, employeeId).Found?
    ensures r.LeaveError? ==> r.httpStatus == 500
  {
    match GetBy(es, EmployeeIdColumn, employeeId)
    case Found(ix) => Balance(es, ls, ix, today)
    case NotFound => LeaveError(500, InternalErrorText + TextNoEmployee)
    case MultipleFound => LeaveError(500, InternalErrorText)
  }

  /** An unknown employee id is answered with 500, not the 404 the handler
      was written for. */
  lemma UnknownEmployeeLeavesIs500(ls: seq<LeaveHistory>, today: Date)
    ensures EmployeeLeavesAsWritten([], ls, "EMP001", today)
      == LeaveError(500, InternalErrorText + TextNoEmployee)
  {
  }

  /** `get_employee_leaves` with the missing employee answered by 404, as
      its `DoesNotExist` clause intends. */
  function EmployeeLeaves(es: seq<Employee>, ls: seq<LeaveHistory>, employeeId: string, today: Date): (r: LeaveReply)
    ensures GetBy(es, EmployeeIdColumn, employeeId).NotFound? ==>
      r == LeaveError(404, "Employee with ID \"" + employeeId + TextLeaveNotFound)
    ensures GetBy(es, EmployeeIdColumn, employeeId).MultipleFound? ==> r.LeaveError? && r.httpStatus == 500
    ensures r.LeaveInfo? ==>
      exists ix :: 0 <= ix < |es| && es[ix].employeeId == employeeId && r == Balance(es, ls, ix, today)
  {
    match GetBy(es, EmployeeIdColumn, employeeId)
    case Found(ix) => Balance(es, ls, ix, today)
    case NotFound => LeaveError(404, "Employee with ID \"" + employeeId + TextLeaveNotFound)
    case MultipleFound => LeaveError(500, InternalErrorText)
  }

  /** Recording more leave this year never raises the balance. */
  lemma MoreLeaveNeverRaisesBalance(es: seq<Employee>, ls: seq<LeaveHistory>, ix: nat, today: Date, row: LeaveHistory)
    requires ix < |es| && row.leavesTaken >= 0
    ensures Balance(es, ls + [row], ix, today).remaining <= Balance(es, ls, ix, today).remaining
  {
    assert (ls + [row])[..|ls|] == ls;
  }

  /** With no negative leave rows, this year's leave taken is never
      negative. */
  lemma {:induction false} TakenNonNegative(ls: seq<LeaveHistory>, pk: nat, year: int)
    requires forall i :: 0 <= i < |ls| ==> ls[i].leavesTaken >= 0
    ensures TakenThisYear(ls, pk, year) >= 0
    decreases |ls|
  {
    if ls != [] {
      TakenNonNegative(ls[..|ls| - 1], pk, year);
    }
  }

  /** With no negative leave rows, the balance never exceeds the leave
      accrued so far. */
  lemma BalanceAtMostAccrued(es: seq<Employee>, ls: seq<LeaveHistory>, ix: nat, today: Date)
    requires ix < |es|
    requires forall i :: 0 <= i < |ls| ==> ls[i].leavesTaken >= 0
    ensures Balance(es, ls, ix, today).remaining <= Balance(es, ls, ix, today).accrued
  {
    TakenNonNegative(ls, es[ix].pk, today.year);
  }
}

/** The persisted entities of the attendance application and the record
    store they live in: employees, attendance records with their embedded
    break list, the office location singleton and the monthly leave
    history. The store is a table of rows; a lookup by
    (employee, date, IN|OUT) returns the first matching row, and the
    store's invariant says there is at most one. */
module Models {
  import opened Common
  import opened Calendar
  import opened Sorting

  datatype Role = Trainee | JuniorDeveloper | SeniorDeveloper | TeamLeader | HR | CEO

  /** The roles that may be a team leader's members. */
  predicate DeveloperRole(r: Role) {
    r == Trainee || r == JuniorDeveloper || r == SeniorDeveloper
  }

  /** What the `face_encoding` column holds: nothing (`None` or empty
      bytes), a pickled encoding, bytes that fail to unpickle, or a value of
      some other type than `bytes`. */
  datatype EncodingField = NoEncoding | Pickled(encoding: seq<int>) | Unpicklable | NotBytes

  datatype Employee = Employee(
    pk: nat,
    employeeId: string,
    name: string,
    photo: string,
    role: Role,
    faceEncoding: EncodingField,
    lastSeen: Option<Instant>)

  datatype BreakType = Lunch | Other

  /** One element of an IN record's `breaks` array. */
  datatype Break = Break(breakType: BreakType, breakIn: Option<Time>, breakOut: Option<Time>)

  datatype Kind = In | Out

  datatype AttendanceRecord = AttendanceRecord(
    employee: nat,
    date: Date,
    kind: Kind,
    time: Time,
    remarks: string,
    emotion: Option<string>,
    breaks: seq<Break>)

  datatype LocationSetting = LocationSetting(latitude: real, longitude: real, radiusMeters: int)

  /** One `LeaveHistory` row; `month` is text of the form YYYY-MM. */
  datatype LeaveHistory = LeaveHistory(employee: nat, month: string, leavesTaken: int)

  predicate Matches(r: AttendanceRecord, e: nat, d: Date, k: Kind) {
    r.employee == e && r.date == d && r.kind == k
  }

  /** `AttendanceRecord.objects.filter(employee=e, date=d, attendance_type=k).first()`,
      as the index of the row. */
  function FindRecord(rs: seq<AttendanceRecord>, e: nat, d: Date, k: Kind): (r: Option<nat>)
    ensures r.Some? ==> r.value < |rs| && Matches(rs[r.value], e, d, k)
    ensures r.Some? ==> forall j :: 0 <= j < r.value ==> !Matches(rs[j], e, d, k)
    ensures r.None? <==> forall j :: 0 <= j < |rs| ==> !Matches(rs[j], e, d, k)
    decreases |rs|
  {
    if rs == [] then None
    else if Matches(rs[0], e, d, k) then Some(0)
    else
      match FindRecord(rs[1..], e, d, k)
      case None => None
      case Some(j) => Some(j + 1)
  }

  /** The `unique_together = ['employee', 'date', 'attendance_type']` constraint. */
  ghost predicate UniqueRecordKeys(rs: seq<AttendanceRecord>) {
    forall i, j :: 0 <= i < j < |rs| ==>
      !Matches(rs[j], rs[i].employee, rs[i].date, rs[i].kind)
  }

  /** The break ledger invariant: every break has been opened, and only the
      last one may still be open. */
  predicate LedgerOk(bs: seq<Break>) {
    && (forall i :: 0 <= i < |bs| ==> bs[i].breakIn.Some?)
    && (forall i :: 0 <= i < |bs| - 1 ==> bs[i].breakOut.Some?)
  }

  ghost predicate AllLedgersOk(rs: seq<AttendanceRecord>) {
    forall i :: 0 <= i < |rs| ==> LedgerOk(rs[i].breaks)
  }

  ghost predicate UniquePks(es: seq<Employee>) {
    forall i, j :: 0 <= i < j < |es| ==> es[i].pk != es[j].pk
  }

  /** Index of the employee with primary key `pk`. */
  function FindEmployee(es: seq<Employee>, pk: nat): (r: Option<nat>)
    ensures r.Some? ==> r.value < |es| && es[r.value].pk == pk
    ensures r.None? <==> forall j :: 0 <= j < |es| ==> es[j].pk != pk
    decreases |es|
  {
    if es == [] then None
    else if es[0].pk == pk then Some(0)
    else
      match FindEmployee(es[1..], pk)
      case None => None
      case Some(j) => Some(j + 1)
  }

  /** Every record belongs to an employee in the table (the foreign key
      with `on_delete=CASCADE`). */
  ghost predicate RecordsOwned(rs: seq<AttendanceRecord>, es: seq<Employee>) {
    forall i :: 0 <= i < |rs| ==> FindEmployee(es, rs[i].employee).Some?
  }

  /** The text column an `Employee.objects.get(...)` lookup filters on. */
  datatype Column = NameColumn | EmployeeIdColumn

  function ColumnOf(e: Employee, c: Column): string {
    match c
    case NameColumn => e.name
    case EmployeeIdColumn => e.employeeId
  }

  function CountWith(es: seq<Employee>, c: Column, v: string): (n: nat)
    ensures n <= |es|
  {
    if es == [] then 0 else (if ColumnOf(es[0], c) == v then 1 else 0) + CountWith(es[1..], c, v)
  }

  function FirstWith(es: seq<Employee>, c: Column, v: string): (r: nat)
    requires CountWith(es, c, v) > 0
    ensures r < |es| && ColumnOf(es[r], c) == v
  {
    if ColumnOf(es[0], c) == v then 0 else 1 + FirstWith(es[1..], c, v)
  }

  datatype Lookup = NotFound | Found(index: nat) | MultipleFound

  /** `Employee.objects.get(<column>=v)`: `DoesNotExist` when no row
      matches, `MultipleObjectsReturned` when two or more do (names are not
      unique). */
  function GetBy(es: seq<Employee>, c: Column, v: string): (r: Lookup)
    ensures r.NotFound? <==> forall i :: 0 <= i < |es| ==> ColumnOf(es[i], c) != v
    ensures r.Found? ==> r.index < |es| && ColumnOf(es[r.index], c) == v
    ensures r.Found? ==> forall i :: 0 <= i < |es| && i != r.index ==> ColumnOf(es[i], c) != v
    ensures r.MultipleFound? ==>
      exists i, j :: 0 <= i < j < |es| && ColumnOf(es[i], c) == v && ColumnOf(es[j], c) == v
  {
    var n := CountWith(es, c, v);
    if n == 0 then
      NoneWith(es, c, v);
      NotFound
    else if n == 1 then
      var i := FirstWith(es, c, v);
      OnlyWith(es, c, v, i);
      Found(i)
    else
      TwoWith(es, c, v);
      MultipleFound
  }

  lemma {:induction false} NoneWith(es: seq<Employee>, c: Column, v: string)
    requires CountWith(es, c, v) == 0
    ensures forall i :: 0 <= i < |es| ==> ColumnOf(es[i], c) != v
  {
    if es != [] {
      NoneWith(es[1..], c, v);
      assert forall i :: 1 <= i < |es| ==> es[i] == es[1..][i - 1];
    }
  }

  lemma {:induction false} TwoWith(es: seq<Employee>, c: Column, v: string)
    requires CountWith(es, c, v) >= 2
    ensures exists i, j :: 0 <= i < j < |es| && ColumnOf(es[i], c) == v && ColumnOf(es[j], c) == v
  {
    if ColumnOf(es[0], c) == v {
      var j := FirstWith(es[1..], c, v);
      assert ColumnOf(es[j + 1], c) == v;
    } else {
      TwoWith(es[1..], c, v);
      var i, j :| 0 <= i < j < |es[1..]| && ColumnOf(es[1..][i], c) == v && ColumnOf(es[1..][j], c) == v;
      assert ColumnOf(es[i + 1], c) == v && ColumnOf(es[j + 1], c) == v;
    }
  }

  lemma {:induction false} OnlyWith(es: seq<Employee>, c: Column, v: string, k: nat)
    requires CountWith(es, c, v) == 1
    requires k == FirstWith(es, c, v)
    ensures forall i :: 0 <= i < |es| && i != k ==> ColumnOf(es[i], c) != v
  {
    if ColumnOf(es[0], c) == v {
      NoneWith(es[1..], c, v);
      assert forall i :: 1 <= i < |es| ==> es[i] == es[1..][i - 1];
    } else {
      OnlyWith(es[1..], c, v, k - 1);
      assert forall i :: 1 <= i < |es| ==> es[i] == es[1..][i - 1];
    }
  }

  /** `Employee.objects.filter(role__in=[TRAINEE, JUNIOR_DEVELOPER,
      SENIOR_DEVELOPER])`, in table order. */
  function Developers(es: seq<Employee>): (r: seq<Employee>)
    ensures forall x :: x in r <==> x in es && DeveloperRole(x.role)
    ensures |r| <= |es|
  {
    if es == [] then []
    else (if DeveloperRole(es[0].role) then [es[0]] else []) + Developers(es[1..])
  }

  /** The `ordering = ['name']` of employees. */
  predicate NameLe(a: Employee, b: Employee) {
    StrLe(a.name, b.name)
  }

  lemma NameLeTotal()
    ensures Total(NameLe)
  {
    forall a: Employee, b: Employee ensures NameLe(a, b) || NameLe(b, a) {
      StrLeTotal(a.name, b.name);
    }
  }

  /** In a list sorted by name, every employee's name is at most every
      later one's. */
  lemma {:induction false} NameLeChain(es: seq<Employee>, i: nat, k: nat)
    requires SortedBy(es, NameLe) && i < k < |es|
    ensures NameLe(es[i], es[k])
    decreases k - i
  {
    if k > i + 1 {
      NameLeChain(es, i, k - 1);
      StrLeTrans(es[i].name, es[k - 1].name, es[k].name);
    }
  }

  /** The database: the tables the attendance engine reads and writes. */
  class AttendanceDb {
    var employees: seq<Employee>
    var records: seq<AttendanceRecord>
    var location: Option<LocationSetting>
    var leaves: seq<LeaveHistory>

    ghost predicate Valid()
      reads this
    {
      && UniquePks(employees)
      && UniqueRecordKeys(records)
      && RecordsOwned(records, employees)
      && AllLedgersOk(records)
    }

    constructor ()
      ensures Valid()
      ensures employees == [] && records == [] && location == None && leaves == []
    {
      employees, records, location, leaves := [], [], None, [];
    }
  }
}

/** The JSON endpoints of the settings page: saving and reading the office
    location used by the geofence, and listing the employees a team leader
    may have as members. */
module ApiViews {
  import opened Common
  import opened Sorting
  import opened Models
  import AttendanceViews

  // ------------------------------------------------------------ JSON input

  /** A JSON number as Python's `json` module reads it: a finite value, or
      one of the `NaN`, `Infinity` and `-Infinity` tokens it accepts. */
  datatype Number = Finite(value: real) | NaN | Infinity | NegInfinity

  /** A JSON value of a request field. A string carries what `float()` and
      `int()` make of its text, `None` standing for their `ValueError`;
      arrays and objects make both conversions raise `TypeError`. */
  datatype Json =
    | Null
    | Bool(b: bool)
    | Num(n: Number)
    | Text(asFloat: Option<Number>, asInt: Option<int>)
    | Composite

  /** The request body: not JSON, JSON other than an object, or an object
      with its three fields (`None`: the key is missing). */
  datatype SaveBody =
    | BadJson
    | NotADict
    | Fields(latitude: Option<Json>, longitude: Option<Json>, radius: Option<Json>)

  /** The result of a conversion: a value, a `ValueError`, or another
      exception (`TypeError`, `OverflowError`). */
  datatype Conversion<T> = Converted(value: T) | ValueErr | OtherErr

  /** Python's `float(v)`. */
  function ToFloat(v: Json): (r: Conversion<Number>)
    ensures v.Num? ==> r == Converted(v.n)
    ensures r.ValueErr? <==> v.Text? && v.asFloat.None?
  {
    match v
    case Null => OtherErr
    case Bool(b) => Converted(Finite(if b then 1.0 else 0.0))
    case Num(n) => Converted(n)
    case Text(f, _) => if f.Some? then Converted(f.value) else ValueErr
    case Composite => OtherErr
  }

  /** Python's `int(v)`: a float is truncated toward zero, `NaN` raises
      `ValueError` and an infinity `OverflowError`. */
  function ToInt(v: Json): (r: Conversion<int>)
    ensures v.Num? && v.n.Finite? ==> r == Converted(AttendanceViews.Truncate(v.n.value))
    ensures r.ValueErr? <==> (v.Num? && v.n.NaN?) || (v.Text? && v.asInt.None?)
  {
    match v
    case Null => OtherErr
    case Bool(b) => Converted(if b then 1 else 0)
    case Num(n) =>
      (match n
       case Finite(x) => Converted(AttendanceViews.Truncate(x))
       case NaN => ValueErr
       case _ => OtherErr)
    case Text(_, i) => if i.Some? then Converted(i.value) else ValueErr
    case Composite => OtherErr
  }

  /** `value is not None` for `data.get(key)`: the key is there and not
      `null`. */
  predicate Present(f: Option<Json>) {
    f.Some? && !f.value.Null?
  }

  // ------------------------------------------------------------ replies

  const TextMissing: string := "Missing location data. All fields are required."
  const TextNotNumeric: string := "Invalid numeric data for latitude, longitude, or radius."
  const TextOutOfRange: string :=
    "Latitude and longitude must be valid finite numbers, and radius must be a positive integer."
  const TextSaved: string := "Location settings saved successfully."
  const TextBadJson: string := "Invalid JSON data."
  const TextInternal: string := "An internal server error occurred: "
  const TextNotFound: string := "Location settings not found."

  /** A JSON reply of `save_location_settings`: the HTTP status, whether
      `status` is 'success', and the message. */
  datatype SaveReply = SaveReply(httpStatus: nat, success: bool, message: string)

  /** The outcome of the checks: the values to store, or the reply that
      refuses them. */
  datatype Checked = Accepted(setting: LocationSetting) | Refused(reply: SaveReply)

  /** The checks of `save_location_settings`, in order: the body parses as
      an object, no field is missing, the three conversions succeed (the
      first exception decides the reply), and the position is finite with a
      positive radius. */
  function Check(body: SaveBody): (r: Checked)
    ensures r.Accepted? ==> r.setting.radiusMeters > 0
    ensures r.Refused? ==> !r.reply.success && r.reply.httpStatus in {400, 500}
    ensures body.Fields? && !(Present(body.latitude) && Present(body.longitude) && Present(body.radius)) ==>
      r == Refused(SaveReply(400, false, TextMissing))
  {
    match body
    case BadJson => Refused(SaveReply(400, false, TextBadJson))
    case NotADict => Refused(SaveReply(500, false, TextInternal))
    case Fields(lat, lon, radius) =>
      if !(Present(lat) && Present(lon) && Present(radius)) then Refused(SaveReply(400, false, TextMissing))
      else
        var x, y, m := ToFloat(lat.value), ToFloat(lon.value), ToInt(radius.value);
        if x.ValueErr? || (x.Converted? && (y.ValueErr? || (y.Converted? && m.ValueErr?))) then
          Refused(SaveReply(400, false, TextNotNumeric))
        else if !x.Converted? || !y.Converted? || !m.Converted? then Refused(SaveReply(500, false, TextInternal))
        else if !x.value.Finite? || !y.value.Finite? || m.value <= 0 then Refused(SaveReply(400, false, TextOutOfRange))
        else Accepted(LocationSetting(x.value.value, y.value.value, m.value))
  }

  /** `save_location_settings(request)`: the checks, then the row with
      pk=1 created if absent and its three fields set. */
  method SaveLocationSettings(db: AttendanceDb, body: SaveBody) returns (reply: SaveReply)
    modifies db
    ensures var c := Check(body);
      && (c.Accepted? ==> db.location == Some(c.setting) && reply == SaveReply(200, true, TextSaved))
      && (c.Refused? ==> db.location == old(db.location) && reply == c.reply)
    ensures db.employees == old(db.employees) && db.records == old(db.records) && db.leaves == old(db.leaves)
    ensures old(db.Valid()) ==> db.Valid()
  {
    var c := Check(body);
    if c.Refused? {
      return c.reply;
    }
    var row := if db.location.Some? then db.location.value else LocationSetting(0.0, 0.0, 500);
    row := row.(latitude := c.setting.latitude, longitude := c.setting.longitude,
                radiusMeters := c.setting.radiusMeters);
    db.location := Some(row);
    reply := SaveReply(200, true, TextSaved);
  }

  /** The reply of `get_location_settings`. */
  datatype LocationReply = LocationFound(latitude: real, longitude: real, radiusMeters: int)
                         | LocationError(httpStatus: nat, message: string)

  /** `get_location_settings(request)` on the stored row. */
  function GetLocationSettings(location: Option<LocationSetting>): (r: LocationReply)
    ensures r.LocationError? <==> location.None?
    ensures r.LocationError? ==> r.httpStatus == 404
    ensures r.LocationFound? ==>
      LocationSetting(r.latitude, r.longitude, r.radiusMeters) == location.value
  {
    if location.Some? then LocationFound(location.value.latitude, location.value.longitude, location.value.radiusMeters)
    else LocationError(404, TextNotFound)
  }

  // ------------------------------------------------------------ properties

  /** Reading after an accepted save gives back exactly the values the
      request carried, the radius truncated toward zero. */
  lemma SaveThenGet(lat: real, lon: real, radius: real)
    requires AttendanceViews.Truncate(radius) > 0
    ensures var body := Fields(Some(Num(Finite(lat))), Some(Num(Finite(lon))), Some(Num(Finite(radius))));
      var c := Check(body);
      && c.Accepted?
      && GetLocationSettings(Some(c.setting)) == LocationFound(lat, lon, radius.Floor)
  {
  }

  /** A radius below one metre is truncated to zero and refused; a
      fractional one above is cut down. */
  lemma RadiusTruncation()
    ensures Check(Fields(Some(Num(Finite(1.0))), Some(Num(Finite(2.0))), Some(Num(Finite(0.9)))))
         == Refused(SaveReply(400, false, TextOutOfRange))
    ensures Check(Fields(Some(Num(Finite(1.0))), Some(Num(Finite(2.0))), Some(Num(Finite(250.7)))))
         == Accepted(LocationSetting(1.0, 2.0, 250))
  {
    assert (0.9).Floor == 0;
    assert (250.7).Floor == 250;
  }

  /** A non-finite latitude or longitude is refused as out of range, and so
      is a radius of zero or less. */
  lemma NonFiniteRefused(body: SaveBody)
    requires body.Fields? && Present(body.latitude) && Present(body.longitude) && Present(body.radius)
    requires ToFloat(body.latitude.value).Converted? && ToFloat(body.longitude.value).Converted?
    requires ToInt(body.radius.value).Converted?
    ensures Check(body).Accepted? <==>
      ToFloat(body.latitude.value).value.Finite? && ToFloat(body.longitude.value).value.Finite?
      && ToInt(body.radius.value).value > 0
    ensures !Check(body).Accepted? ==> Check(body) == Refused(SaveReply(400, false, TextOutOfRange))
  {
  }

  /** A `ValueError` in any conversion reached is a 400; `int()` of an
      infinite radius raises `OverflowError`, which only the catch-all
      turns into a 500. */
  lemma ConversionFailures(lat: Number, lon: Number)
    ensures Check(Fields(Some(Text(None, None)), Some(Num(lon)), Some(Num(Finite(5.0)))))
         == Refused(SaveReply(400, false, TextNotNumeric))
    ensures Check(Fields(Some(Num(Finite(1.0))), Some(Num(Finite(1.0))), Some(Num(NaN))))
         == Refused(SaveReply(400, false, TextNotNumeric))
    ensures Check(Fields(Some(Num(Finite(1.0))), Some(Num(Finite(1.0))), Some(Num(Infinity))))
         == Refused(SaveReply(500, false, TextInternal))
  {
  }

  // ------------------------------------------------------------ team members

  /** One element of the `employees` list: `id` and `name`. */
  datatype EmployeeRef = EmployeeRef(id: nat, name: string)

  function RefsOf(es: seq<Employee>): (r: seq<EmployeeRef>)
    ensures |r| == |es|
    ensures forall i :: 0 <= i < |es| ==> r[i] == EmployeeRef(es[i].pk, es[i].name)
  {
    seq(|es|, i requires 0 <= i < |es| => EmployeeRef(es[i].pk, es[i].name))
  }

  /** `get_eligible_employees(request)`: the trainees and developers, by
      name. */
  function EligibleEmployees(es: seq<Employee>): seq<EmployeeRef> {
    RefsOf(SortBy(Developers(es), NameLe))
  }

  /** The list holds exactly the employees with a developer or trainee
      role, ordered by name. */
  lemma EligibleAreDevelopersByName(es: seq<Employee>)
    ensures var r := EligibleEmployees(es);
      && (forall i :: 0 <= i < |r| ==>
            exists e :: e in es && DeveloperRole(e.role) && r[i] == EmployeeRef(e.pk, e.name))
      && (forall e :: e in es && DeveloperRole(e.role) ==> EmployeeRef(e.pk, e.name) in r)
      && (forall i :: 0 < i < |r| ==> StrLe(r[i - 1].name, r[i].name))
  {
    var devs := Developers(es);
    var sorted := SortBy(devs, NameLe);
    var r := RefsOf(sorted);
    NameLeTotal();
    SortBySorted(devs, NameLe);
    forall i | 0 <= i < |r|
      ensures exists e :: e in es && DeveloperRole(e.role) && r[i] == EmployeeRef(e.pk, e.name)
    {
      SortByMembers(devs, NameLe, sorted[i]);
    }
    forall e | e in es && DeveloperRole(e.role) ensures EmployeeRef(e.pk, e.name) in r {
      SortByMembers(devs, NameLe, e);
      var k :| 0 <= k < |sorted| && sorted[k] == e;
      assert r[k] == EmployeeRef(e.pk, e.name);
    }
  }
}

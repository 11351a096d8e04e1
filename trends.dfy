/** The chart aggregators of `AttendanceManager`: per-bucket emotion counts,
    punctuality counts and presence counts, plus the bucket labels they are
    keyed by. */
module Trends {
  import opened Common
  import opened Calendar
  import opened Models
  import opened Sorting
  import AttendanceManager

  datatype Interval = Daily | Monthly | Yearly

  /** The interval argument: anything other than "daily" or "monthly"
      buckets by year. */
  function IntervalOf(s: string): (iv: Interval)
    ensures iv == Daily <==> s == "daily"
    ensures iv == Monthly <==> s == "monthly"
    ensures iv == Yearly <==> s != "daily" && s != "monthly"
  {
    if s == "daily" then Daily else if s == "monthly" then Monthly else Yearly
  }

  /** The bucket label of a date: `strftime` with '%Y-%m-%d', '%Y-%m' or
      '%Y', as the integer YYYYMMDD, YYYYMM or YYYY whose order is the order
      of those zero-padded labels. */
  function BucketKey(d: Date, iv: Interval): int {
    match iv
    case Daily => DayKey(d)
    case Monthly => MonthKey(d)
    case Yearly => d.year
  }

  /** Later dates never fall in an earlier bucket. */
  lemma BucketKeyMonotone(a: Date, b: Date, iv: Interval)
    requires NotAfter(a, b)
    ensures BucketKey(a, iv) <= BucketKey(b, iv)
  {
    BeforeIsKeyOrder(a, b);
  }

  predicate InWindow(d: Date, start: Date, end: Date) {
    NotAfter(start, d) && NotAfter(d, end)
  }

  function KeyBy(iv: Interval): AttendanceRecord -> int {
    (r: AttendanceRecord) => BucketKey(r.date, iv)
  }

  // ------------------------------------------------ bucketed counting

  /** The counter a `defaultdict` holds for bucket `k` after the records
      that pass `counted` have been folded in with `step`, in table order. */
  function Tally<C>(rs: seq<AttendanceRecord>, counted: AttendanceRecord -> bool, key: AttendanceRecord -> int,
                    step: (C, AttendanceRecord) -> C, zero: C, k: int): C
    decreases |rs|
  {
    if rs == [] then zero
    else
      var n := |rs| - 1;
      var before := Tally(rs[..n], counted, key, step, zero, k);
      if counted(rs[n]) && key(rs[n]) == k then step(before, rs[n]) else before
  }

  /** The buckets some counted record falls in. */
  function Keys(rs: seq<AttendanceRecord>, counted: AttendanceRecord -> bool, key: AttendanceRecord -> int): (ks: set<int>)
    ensures forall k :: k in ks <==> exists i :: 0 <= i < |rs| && counted(rs[i]) && key(rs[i]) == k
    decreases |rs|
  {
    if rs == [] then {}
    else
      var n := |rs| - 1;
      assert forall i :: 0 <= i < n ==> rs[..n][i] == rs[i];
      Keys(rs[..n], counted, key) + (if counted(rs[n]) then {key(rs[n])} else {})
  }

  /** The number of records that satisfy `p` and fall in bucket `k`. */
  function Count(rs: seq<AttendanceRecord>, p: AttendanceRecord -> bool, key: AttendanceRecord -> int, k: int): nat
    decreases |rs|
  {
    if rs == [] then 0
    else
      var n := |rs| - 1;
      Count(rs[..n], p, key, k) + (if p(rs[n]) && key(rs[n]) == k then 1 else 0)
  }

  lemma {:induction false} TallyOutside<C>(rs: seq<AttendanceRecord>, counted: AttendanceRecord -> bool,
                                         key: AttendanceRecord -> int, step: (C, AttendanceRecord) -> C, zero: C, k: int)
    requires k !in Keys(rs, counted, key)
    ensures Tally(rs, counted, key, step, zero, k) == zero
    decreases |rs|
  {
    if rs != [] {
      var n := |rs| - 1;
      TallyOutside(rs[..n], counted, key, step, zero, k);
    }
  }

  /** The dictionary loop shared by the trend functions, followed by
      `sorted(trends_data.keys())`: one counter per bucket that some counted
      record falls in, and the buckets in ascending order. */
  method Tabulate<C>(rs: seq<AttendanceRecord>, counted: AttendanceRecord -> bool, key: AttendanceRecord -> int,
                     step: (C, AttendanceRecord) -> C, zero: C)
    returns (labels: seq<int>, m: map<int, C>)
    ensures m.Keys == Keys(rs, counted, key)
    ensures forall k :: k in m ==> m[k] == Tally(rs, counted, key, step, zero, k)
    ensures StrictlyIncreasing(labels)
    ensures forall k :: k in labels <==> k in Keys(rs, counted, key)
    ensures forall i :: 0 <= i < |labels| ==> labels[i] in m
  {
    m := map[];
    var seen: seq<int> := [];
    for i := 0 to |rs|
      invariant m.Keys == Keys(rs[..i], counted, key)
      invariant forall k :: k in m ==> m[k] == Tally(rs[..i], counted, key, step, zero, k)
      invariant Distinct(seen) && forall k :: k in seen <==> k in m
    {
      var r := rs[i];
      assert rs[..i + 1][..i] == rs[..i];
      if counted(r) {
        var k := key(r);
        var current := if k in m then m[k] else zero;
        if k !in m {
          TallyOutside(rs[..i], counted, key, step, zero, k);
          seen := seen + [k];
        }
        m := m[k := step(current, r)];
      }
    }
    assert rs[..|rs|] == rs;
    labels := SortBy(seen, IntLe);
    SortedKeys(seen);
  }

  /** `[trends_data[label][field] for label in labels]`. */
  function Series<C, R>(labels: seq<int>, m: map<int, C>, field: C -> R): (s: seq<R>)
    requires forall i :: 0 <= i < |labels| ==> labels[i] in m
    ensures |s| == |labels|
    ensures forall i :: 0 <= i < |labels| ==> s[i] == field(m[labels[i]])
  {
    if labels == [] then [] else [field(m[labels[0]])] + Series(labels[1..], m, field)
  }

  // ------------------------------------------------------------ emotions

  const Happy: string := "happy"
  const Sad: string := "sad"
  const Neutral: string := "neutral"
  const TotalWord: string := "total"

  datatype EmotionCounts = EmotionCounts(happy: nat, sad: nat, neutral: nat, total: nat)

  predicate HasEmotion(r: AttendanceRecord, start: Date, end: Date) {
    InWindow(r.date, start, end) && r.emotion.Some?
  }

  /** The lower-cased emotional state, `""` for a record without one. */
  function LoweredEmotion(r: AttendanceRecord): string {
    if r.emotion.Some? then Lower(r.emotion.value) else ""
  }

  /** One record's update of its bucket: the counter named by the
      lower-cased emotion, when the bucket has one by that name, and then
      "total". A lower-cased emotion of "total" therefore adds two to it. */
  function EmotionStep(c: EmotionCounts, r: AttendanceRecord): EmotionCounts {
    var e := LoweredEmotion(r);
    var named :=
      if e == Happy then c.(happy := c.happy + 1)
      else if e == Sad then c.(sad := c.sad + 1)
      else if e == Neutral then c.(neutral := c.neutral + 1)
      else if e == TotalWord then c.(total := c.total + 1)
      else c;
    named.(total := named.total + 1)
  }

  function EmotionCounted(start: Date, end: Date): AttendanceRecord -> bool {
    (r: AttendanceRecord) => HasEmotion(r, start, end)
  }

  function EmotionNamed(start: Date, end: Date, word: string): AttendanceRecord -> bool {
    (r: AttendanceRecord) => HasEmotion(r, start, end) && LoweredEmotion(r) == word
  }

  /** The three emotion series count the records of the bucket whose
      emotion is that word in any letter case; "total" counts every record
      once more when its emotion reads "total". */
  lemma {:induction false} EmotionTallyCounts(rs: seq<AttendanceRecord>, start: Date, end: Date, iv: Interval, k: int)
    ensures var t := Tally(rs, EmotionCounted(start, end), KeyBy(iv), EmotionStep, EmotionCounts(0, 0, 0, 0), k);
      && t.happy == Count(rs, EmotionNamed(start, end, Happy), KeyBy(iv), k)
      && t.sad == Count(rs, EmotionNamed(start, end, Sad), KeyBy(iv), k)
      && t.neutral == Count(rs, EmotionNamed(start, end, Neutral), KeyBy(iv), k)
      && t.total == Count(rs, EmotionCounted(start, end), KeyBy(iv), k)
                    + Count(rs, EmotionNamed(start, end, TotalWord), KeyBy(iv), k)
    decreases |rs|
  {
    if rs != [] {
      EmotionTallyCounts(rs[..|rs| - 1], start, end, iv, k);
    }
  }

  /** `get_emotion_trends`' result; labels are bucket keys. */
  datatype EmotionTrend = EmotionTrend(labels: seq<int>, happy: seq<nat>, sad: seq<nat>, neutral: seq<nat>)

  /** `AttendanceManager.get_emotion_trends(start_date, end_date, interval)`. */
  method EmotionTrends(db: AttendanceDb, start: Date, end: Date, interval: string) returns (t: EmotionTrend)
    ensures StrictlyIncreasing(t.labels)
    ensures forall k :: k in t.labels <==>
      exists i :: 0 <= i < |db.records| && HasEmotion(db.records[i], start, end)
                  && BucketKey(db.records[i].date, IntervalOf(interval)) == k
    ensures |t.happy| == |t.labels| && |t.sad| == |t.labels| && |t.neutral| == |t.labels|
    ensures forall i :: 0 <= i < |t.labels| ==>
      && t.happy[i] == Count(db.records, EmotionNamed(start, end, Happy), KeyBy(IntervalOf(interval)), t.labels[i])
      && t.sad[i] == Count(db.records, EmotionNamed(start, end, Sad), KeyBy(IntervalOf(interval)), t.labels[i])
      && t.neutral[i] == Count(db.records, EmotionNamed(start, end, Neutral), KeyBy(IntervalOf(interval)), t.labels[i])
  {
    var iv := IntervalOf(interval);
    var labels, m := Tabulate(db.records, EmotionCounted(start, end), KeyBy(iv), EmotionStep, EmotionCounts(0, 0, 0, 0));
    t := EmotionTrend(labels,
      Series(labels, m, (c: EmotionCounts) => c.happy),
      Series(labels, m, (c: EmotionCounts) => c.sad),
      Series(labels, m, (c: EmotionCounts) => c.neutral));
    forall i | 0 <= i < |labels|
      ensures t.happy[i] == Count(db.records, EmotionNamed(start, end, Happy), KeyBy(iv), labels[i])
      ensures t.sad[i] == Count(db.records, EmotionNamed(start, end, Sad), KeyBy(iv), labels[i])
      ensures t.neutral[i] == Count(db.records, EmotionNamed(start, end, Neutral), KeyBy(iv), labels[i])
    {
      EmotionTallyCounts(db.records, start, end, iv, labels[i]);
    }
  }

  // --------------------------------------------------------- punctuality

  datatype Punctuality = Punctuality(late: nat, onTime: nat)

  /** An arrival strictly after 11:00 is late. */
  predicate IsLate(r: AttendanceRecord) {
    r.time > AttendanceManager.InTimeEnd
  }

  function PunctualityStep(c: Punctuality, r: AttendanceRecord): Punctuality {
    if IsLate(r) then c.(late := c.late + 1) else c.(onTime := c.onTime + 1)
  }

  predicate InArrival(r: AttendanceRecord, start: Date, end: Date) {
    InWindow(r.date, start, end) && r.kind == In
  }

  function Arrivals(start: Date, end: Date): AttendanceRecord -> bool {
    (r: AttendanceRecord) => InArrival(r, start, end)
  }

  function LateArrivals(start: Date, end: Date): AttendanceRecord -> bool {
    (r: AttendanceRecord) => InArrival(r, start, end) && IsLate(r)
  }

  function OnTimeArrivals(start: Date, end: Date): AttendanceRecord -> bool {
    (r: AttendanceRecord) => InArrival(r, start, end) && !IsLate(r)
  }

  /** Each IN record of a bucket is counted exactly once, as late or as on
      time. */
  lemma {:induction false} PunctualityTallyCounts(rs: seq<AttendanceRecord>, start: Date, end: Date, iv: Interval, k: int)
    ensures var t := Tally(rs, Arrivals(start, end), KeyBy(iv), PunctualityStep, Punctuality(0, 0), k);
      && t.late == Count(rs, LateArrivals(start, end), KeyBy(iv), k)
      && t.onTime == Count(rs, OnTimeArrivals(start, end), KeyBy(iv), k)
      && t.late + t.onTime == Count(rs, Arrivals(start, end), KeyBy(iv), k)
    decreases |rs|
  {
    if rs != [] {
      PunctualityTallyCounts(rs[..|rs| - 1], start, end, iv, k);
    }
  }

  datatype PunctualityTrend = PunctualityTrend(labels: seq<int>, onTime: seq<nat>, late: seq<nat>)

  /** `AttendanceManager.get_late_on_time_trends(start_date, end_date, interval)`. */
  method LateOnTimeTrends(db: AttendanceDb, start: Date, end: Date, interval: string) returns (t: PunctualityTrend)
    ensures StrictlyIncreasing(t.labels)
    ensures forall k :: k in t.labels <==>
      exists i :: 0 <= i < |db.records| && InArrival(db.records[i], start, end)
                  && BucketKey(db.records[i].date, IntervalOf(interval)) == k
    ensures |t.onTime| == |t.labels| && |t.late| == |t.labels|
    ensures forall i :: 0 <= i < |t.labels| ==>
      && t.late[i] == Count(db.records, LateArrivals(start, end), KeyBy(IntervalOf(interval)), t.labels[i])
      && t.onTime[i] == Count(db.records, OnTimeArrivals(start, end), KeyBy(IntervalOf(interval)), t.labels[i])
      && t.late[i] + t.onTime[i] == Count(db.records, Arrivals(start, end), KeyBy(IntervalOf(interval)), t.labels[i])
  {
    var iv := IntervalOf(interval);
    var labels, m := Tabulate(db.records, Arrivals(start, end), KeyBy(iv), PunctualityStep, Punctuality(0, 0));
    t := PunctualityTrend(labels,
      Series(labels, m, (c: Punctuality) => c.onTime),
      Series(labels, m, (c: Punctuality) => c.late));
    forall i | 0 <= i < |labels|
      ensures t.late[i] == Count(db.records, LateArrivals(start, end), KeyBy(iv), labels[i])
      ensures t.onTime[i] == Count(db.records, OnTimeArrivals(start, end), KeyBy(iv), labels[i])
      ensures t.late[i] + t.onTime[i] == Count(db.records, Arrivals(start, end), KeyBy(iv), labels[i])
    {
      PunctualityTallyCounts(db.records, start, end, iv, labels[i]);
    }
  }

  // ------------------------------------------------------------ presence

  /** The start of the bucket after the one starting at `d`: the next day;
      the first of the next month (found as the 28th plus four days); or the
      same day a year on, which does not exist for 29 February, where
      `date.replace` raises. */
  function NextBucket(d: Date, iv: Interval): (r: Option<Date>)
    ensures r.None? <==> iv == Yearly && d.month == 2 && d.day == 29
    ensures r.Some? ==> Before(d, r.value) && BucketKey(d, iv) < BucketKey(r.value, iv)
    ensures r.Some? && iv == Monthly ==> r.value.day == 1
    ensures r.Some? && iv == Yearly ==>
      r.value.year == d.year + 1 && r.value.month == d.month && r.value.day == d.day
  {
    match iv
    case Daily =>
      BeforeIsKeyOrder(d, NextDay(d));
      Some(NextDay(d))
    case Monthly =>
      AttendanceManager.FourDaysAfterThe28th(d);
      var probe := AddDays(Ymd(d.year, d.month, 28), 4);
      var first: Date := Ymd(probe.year, probe.month, 1);
      Some(first)
    case Yearly =>
      if d.month == 2 && d.day == 29 then None
      else
        var same: Date := Ymd(d.year + 1, d.month, d.day);
        Some(same)
  }

  /** How many days a bucket starting at `d` looks at: one day; the number
      of days of `d`'s month; or the length of `d`'s year. */
  function WindowLength(d: Date, iv: Interval): nat {
    match iv
    case Daily => 1
    case Monthly => DaysInMonth(d.year, d.month)
    case Yearly => if IsLeap(d.year) then 366 else 365
  }

  /** `days_to_check`: the first `WindowLength` days from `d` that are not
      after `end`. */
  function Window(d: Date, iv: Interval, end: Date): (w: set<Date>)
    ensures forall x :: x in w ==> NotAfter(d, x) && NotAfter(x, end)
  {
    forall k: nat | k < WindowLength(d, iv) ensures NotAfter(d, AddDays(d, k)) {
      AddDaysNotBefore(d, k);
    }
    set k: nat | k < WindowLength(d, iv) && NotAfter(AddDays(d, k), end) :: AddDays(d, k)
  }

  /** The employees with an IN record on one of the days in `w`. */
  function PresentIn(rs: seq<AttendanceRecord>, w: set<Date>): set<nat> {
    set i | 0 <= i < |rs| && rs[i].kind == In && rs[i].date in w :: rs[i].employee
  }

  /** `len(present_employees_on_interval)` for the bucket starting at `d`. */
  function Attendance(rs: seq<AttendanceRecord>, d: Date, iv: Interval, end: Date): nat {
    |PresentIn(rs, Window(d, iv, end))|
  }

  datatype PresenceTrend =
    | NoEmployees
    | PresenceFailed
    | Presence(labels: seq<int>, present: seq<int>, absent: seq<int>)

  /** The bucket starts visited so far lead, one `NextBucket` at a time,
      from `start` to `cur`, and none of them is after `end`. */
  ghost predicate Walk(starts: seq<Date>, start: Date, end: Date, iv: Interval, cur: Date) {
    && (|starts| == 0 ==> cur == start)
    && (|starts| > 0 ==> starts[0] == start && NextBucket(starts[|starts| - 1], iv) == Some(cur))
    && (forall i :: 0 <= i < |starts| - 1 ==> NextBucket(starts[i], iv) == Some(starts[i + 1]))
    && (forall i :: 0 <= i < |starts| ==> NotAfter(starts[i], end))
  }

  lemma WalkStep(starts: seq<Date>, start: Date, end: Date, iv: Interval, cur: Date, next: Date)
    requires Walk(starts, start, end, iv, cur) && NotAfter(cur, end) && NextBucket(cur, iv) == Some(next)
    ensures Walk(starts + [cur], start, end, iv, next)
  {
  }

  /** `starts` is the whole walk: it begins at `start`, moves one
      `NextBucket` at a time, stays within `end`, and its next step would
      pass `end`. */
  ghost predicate Visited(starts: seq<Date>, start: Date, end: Date, iv: Interval) {
    && (|starts| == 0 ==> Before(end, start))
    && (|starts| > 0 ==>
          && starts[0] == start
          && NextBucket(starts[|starts| - 1], iv).Some?
          && Before(end, NextBucket(starts[|starts| - 1], iv).value))
    && (forall i :: 0 <= i < |starts| - 1 ==> NextBucket(starts[i], iv) == Some(starts[i + 1]))
    && (forall i :: 0 <= i < |starts| ==> NotAfter(starts[i], end))
  }

  lemma WalkDone(starts: seq<Date>, start: Date, end: Date, iv: Interval, cur: Date)
    requires Walk(starts, start, end, iv, cur) && Before(end, cur)
    ensures Visited(starts, start, end, iv)
  {
  }

  /** Entry `i` of the tabulation is the label of bucket `starts[i]`, the
      employees present in its window, and the rest of the staff. */
  ghost predicate Tabled(seen: seq<int>, present: seq<int>, absent: seq<int>, starts: seq<Date>,
                         rs: seq<AttendanceRecord>, es: seq<Employee>, iv: Interval, end: Date) {
    && |seen| == |starts| && |present| == |starts| && |absent| == |starts|
    && (forall i :: 0 <= i < |starts| ==>
          && seen[i] == BucketKey(starts[i], iv)
          && present[i] == Attendance(rs, starts[i], iv, end)
          && present[i] + absent[i] == |es|
          && (RecordsOwned(rs, es) ==> absent[i] >= 0))
  }

  lemma TabledStep(seen: seq<int>, present: seq<int>, absent: seq<int>, starts: seq<Date>,
                   rs: seq<AttendanceRecord>, es: seq<Employee>, iv: Interval, end: Date, cur: Date)
    requires Tabled(seen, present, absent, starts, rs, es, iv, end)
    ensures var p := Attendance(rs, cur, iv, end);
      Tabled(seen + [BucketKey(cur, iv)], present + [p], absent + [|es| - p], starts + [cur], rs, es, iv, end)
  {
    if RecordsOwned(rs, es) {
      PresentAtMostStaff(rs, es, Window(cur, iv, end));
    }
  }

  /** The invariant of the bucket walk at bucket start `cur`. */
  ghost predicate Walking(seen: seq<int>, present: seq<int>, absent: seq<int>, starts: seq<Date>,
                          rs: seq<AttendanceRecord>, es: seq<Employee>, start: Date, end: Date, iv: Interval, cur: Date) {
    && Walk(starts, start, end, iv, cur)
    && Tabled(seen, present, absent, starts, rs, es, iv, end)
    && StrictlyIncreasing(seen)
    && (forall i :: 0 <= i < |seen| ==> seen[i] < BucketKey(cur, iv))
    && (iv == Yearly ==> cur.month == start.month && cur.day == start.day)
  }

  lemma WalkingStep(seen: seq<int>, present: seq<int>, absent: seq<int>, starts: seq<Date>,
                    rs: seq<AttendanceRecord>, es: seq<Employee>, start: Date, end: Date, iv: Interval,
                    cur: Date, next: Date)
    requires Walking(seen, present, absent, starts, rs, es, start, end, iv, cur)
    requires NotAfter(cur, end) && NextBucket(cur, iv) == Some(next)
    ensures var p := Attendance(rs, cur, iv, end);
      Walking(seen + [BucketKey(cur, iv)], present + [p], absent + [|es| - p], starts + [cur],
              rs, es, start, end, iv, next)
  {
    TabledStep(seen, present, absent, starts, rs, es, iv, end, cur);
    WalkStep(starts, start, end, iv, cur, next);
  }

  /** Stepping fails exactly when the walk starts on a 29 February within
      range in yearly mode: later yearly starts keep the start's month and
      day. */
  lemma WalkingFails(seen: seq<int>, present: seq<int>, absent: seq<int>, starts: seq<Date>,
                     rs: seq<AttendanceRecord>, es: seq<Employee>, start: Date, end: Date, iv: Interval, cur: Date)
    requires Walking(seen, present, absent, starts, rs, es, start, end, iv, cur)
    ensures NotAfter(cur, end) && NextBucket(cur, iv).None? ==>
      iv == Yearly && NotAfter(start, end) && start.month == 2 && start.day == 29
    ensures Before(end, cur) ==> !(iv == Yearly && NotAfter(start, end) && start.month == 2 && start.day == 29)
  {
    BeforeIsKeyOrder(start, end);
    BeforeIsKeyOrder(end, cur);
    if |starts| > 0 {
      BeforeIsKeyOrder(starts[0], end);
    }
  }

  /** Once the bucket start passes `end`, the walk is complete and did not
      fail. */
  lemma WalkEnds(seen: seq<int>, present: seq<int>, absent: seq<int>, starts: seq<Date>,
                 rs: seq<AttendanceRecord>, es: seq<Employee>, start: Date, end: Date, iv: Interval, cur: Date)
    requires Walking(seen, present, absent, starts, rs, es, start, end, iv, cur) && !NotAfter(cur, end)
    ensures !(iv == Yearly && NotAfter(start, end) && start.month == 2 && start.day == 29)
    ensures Tabled(seen, present, absent, starts, rs, es, iv, end)
    ensures StrictlyIncreasing(seen)
    ensures Visited(starts, start, end, iv)
  {
    BeforeIsKeyOrder(cur, end);
    WalkDone(starts, start, end, iv, cur);
    WalkingFails(seen, present, absent, starts, rs, es, start, end, iv, cur);
  }

  /** Each step of the walk brings the bucket start closer to `end`. */
  lemma WalkProgress(cur: Date, next: Date, end: Date, iv: Interval)
    requires NotAfter(cur, end) && NextBucket(cur, iv) == Some(next)
    ensures 0 <= DayKey(end) - DayKey(cur)
    ensures DayKey(end) - DayKey(next) < DayKey(end) - DayKey(cur)
  {
    BeforeIsKeyOrder(cur, end);
    BeforeIsKeyOrder(cur, next);
  }

  /** The `while current_date <= end_date` loop of
      `get_attendance_percentage_trends`. Every bucket it visits has a new
      label (labels strictly increase along the walk), so each `defaultdict`
      entry is written once; the entries are kept as parallel sequences in
      visiting order. `failed` is the `ValueError` of stepping a 29 February
      a year on. */
  method WalkBuckets(rs: seq<AttendanceRecord>, es: seq<Employee>, start: Date, end: Date, iv: Interval)
    returns (failed: bool, seen: seq<int>, present: seq<int>, absent: seq<int>, ghost starts: seq<Date>)
    ensures failed <==> iv == Yearly && NotAfter(start, end) && start.month == 2 && start.day == 29
    ensures !failed ==>
      && Tabled(seen, present, absent, starts, rs, es, iv, end)
      && StrictlyIncreasing(seen)
      && Visited(starts, start, end, iv)
  {
    var total := |es|;
    seen, present, absent, starts := [], [], [], [];
    var cur := start;
    while NotAfter(cur, end)
      invariant Walking(seen, present, absent, starts, rs, es, start, end, iv, cur)
      decreases DayKey(end) - DayKey(cur)
    {
      var key := BucketKey(cur, iv);
      var count := Attendance(rs, cur, iv, end);
      var next := NextBucket(cur, iv);
      if next.None? {
        WalkingFails(seen, present, absent, starts, rs, es, start, end, iv, cur);
        return true, seen, present, absent, starts;
      }
      WalkingStep(seen, present, absent, starts, rs, es, start, end, iv, cur, next.value);
      WalkProgress(cur, next.value, end, iv);
      seen, present, absent := seen + [key], present + [count], absent + [total - count];
      starts := starts + [cur];
      cur := next.value;
    }
    WalkEnds(seen, present, absent, starts, rs, es, start, end, iv, cur);
    failed := false;
  }

  /** `get_attendance_percentage_trends(start_date, end_date, interval)`:
      walks the buckets from `start_date` while the bucket start is not after
      `end_date`; for each it counts the distinct employees with an IN record
      in the bucket's window, and the rest of the staff as absent.
      `starts` are the bucket starts visited, in order. */
  method PresenceTrends(db: AttendanceDb, start: Date, end: Date, interval: string)
    returns (t: PresenceTrend, ghost starts: seq<Date>)
    ensures t.NoEmployees? <==> |db.employees| == 0
    ensures t.PresenceFailed? <==>
      |db.employees| > 0 && IntervalOf(interval) == Yearly && NotAfter(start, end)
      && start.month == 2 && start.day == 29
    ensures t.Presence? ==>
      var iv := IntervalOf(interval);
      && |t.labels| == |starts| && |t.present| == |starts| && |t.absent| == |starts|
      && StrictlyIncreasing(t.labels)
      // the visited bucket starts: `start`, then each next bucket while not after `end`
      && (|starts| == 0 ==> Before(end, start))
      && (|starts| > 0 ==>
            && starts[0] == start
            && NextBucket(starts[|starts| - 1], iv).Some?
            && Before(end, NextBucket(starts[|starts| - 1], iv).value))
      && (forall i :: 0 <= i < |starts| - 1 ==> NextBucket(starts[i], iv) == Some(starts[i + 1]))
      && (forall i :: 0 <= i < |starts| ==> NotAfter(starts[i], end))
      // one label and one pair of counts per visited bucket
      && (forall i :: 0 <= i < |starts| ==>
            && t.labels[i] == BucketKey(starts[i], iv)
            && t.present[i] == Attendance(db.records, starts[i], iv, end)
            && t.present[i] + t.absent[i] == |db.employees|
            && (RecordsOwned(db.records, db.employees) ==> t.absent[i] >= 0))
  {
    starts := [];
    if |db.employees| == 0 {
      return NoEmployees, starts;
    }
    var iv := IntervalOf(interval);
    var failed, seen, present, absent;
    failed, seen, present, absent, starts := WalkBuckets(db.records, db.employees, start, end, iv);
    if failed {
      return PresenceFailed, starts;
    }
    // `sorted(trends_data.keys())` gives the keys back in visiting order
    SortIncreasingIdentity(seen);
    var labels := SortBy(seen, IntLe);
    t := Presence(labels, present, absent);
  }

  /** The number of distinct primary keys is at most the number of rows. */
  lemma {:induction false} PksAtMostRows(es: seq<Employee>)
    ensures |set i | 0 <= i < |es| :: es[i].pk| <= |es|
    decreases |es|
  {
    if es != [] {
      var n := |es| - 1;
      PksAtMostRows(es[..n]);
      var before := set i | 0 <= i < n :: es[..n][i].pk;
      assert (set i | 0 <= i < |es| :: es[i].pk) == before + {es[n].pk} by {
        forall p | p in before ensures p in (set i | 0 <= i < |es| :: es[i].pk) {
          var i :| 0 <= i < n && es[..n][i].pk == p;
          assert es[i].pk == p;
        }
      }
    }
  }

  /** With every record owned by an employee, a window never has more
      present employees than the staff, so the absent count is never
      negative. */
  lemma PresentAtMostStaff(rs: seq<AttendanceRecord>, es: seq<Employee>, w: set<Date>)
    requires RecordsOwned(rs, es)
    ensures |PresentIn(rs, w)| <= |es|
  {
    var pks := set i | 0 <= i < |es| :: es[i].pk;
    forall p | p in PresentIn(rs, w) ensures p in pks {
      var i :| 0 <= i < |rs| && rs[i].kind == In && rs[i].date in w && rs[i].employee == p;
      var k := FindEmployee(es, rs[i].employee).value;
      assert es[k].pk == p;
    }
    PksAtMostRows(es);
    assert pks == PresentIn(rs, w) + (pks - PresentIn(rs, w));
  }
}

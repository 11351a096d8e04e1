/** Civil calendar and clock arithmetic in the shape Python's `datetime`
    gives it: a time of day is a number of seconds after midnight, a date is
    a valid (year, month, day) triple of the proleptic Gregorian calendar,
    and dates compare lexicographically, as `datetime.date` does. */
module Calendar {
  import opened Common

  const SecondsPerDay: int := 86400

  /** A `datetime.time`, to the second. */
  type Time = t: int | 0 <= t < 86400

  /** `time(h, m)`. */
  function Clock(h: nat, m: nat): (t: Time)
    requires h < 24 && m < 60
    ensures t == h * 3600 + m * 60
  {
    h * 3600 + m * 60
  }

  /** `time.min`. */
  const Midnight: Time := 0

  /** What `strftime('%I:%M %p')` followed by `strptime` gives back: the
      time truncated to the minute. */
  function ToMinute(t: Time): (r: Time)
    ensures r <= t < r + 60 && r % 60 == 0
  {
    t / 60 * 60
  }

  /** `ToMinute` of an optional time, as a '-'-or-time cell prints it. */
  function OptionToMinute(t: Option<Time>): (r: Option<Time>)
    ensures r.Some? <==> t.Some?
    ensures r.Some? ==> r.value <= t.value < r.value + 60 && r.value % 60 == 0
  {
    if t.Some? then Some(ToMinute(t.value)) else None
  }

  predicate IsLeap(y: int) {
    y % 4 == 0 && (y % 100 != 0 || y % 400 == 0)
  }

  function DaysInMonth(y: int, m: int): (n: int)
    requires 1 <= m <= 12
    ensures 28 <= n <= 31
  {
    if m == 2 then (if IsLeap(y) then 29 else 28)
    else if m == 4 || m == 6 || m == 9 || m == 11 then 30
    else 31
  }

  datatype Ymd = Ymd(year: int, month: int, day: int)

  predicate ValidYmd(d: Ymd) {
    1 <= d.month <= 12 && 1 <= d.day <= DaysInMonth(d.year, d.month)
  }

  /** A `datetime.date`. */
  type Date = d: Ymd | ValidYmd(d) witness Ymd(1970, 1, 1)

  /** A timezone-free `datetime`: one local clock. */
  datatype Instant = At(date: Date, time: Time)

  /** Python's `a < b` on dates. */
  predicate Before(a: Date, b: Date) {
    a.year < b.year
    || (a.year == b.year && a.month < b.month)
    || (a.year == b.year && a.month == b.month && a.day < b.day)
  }

  /** Python's `a <= b` on dates. */
  predicate NotAfter(a: Date, b: Date) {
    Before(a, b) || a == b
  }

  /** The integer YYYYMMDD; its order is the order of dates. */
  function DayKey(d: Date): int {
    d.year * 10000 + d.month * 100 + d.day
  }

  /** The integer YYYYMM of the date's month. */
  function MonthKey(d: Date): int {
    d.year * 100 + d.month
  }

  lemma BeforeIsKeyOrder(a: Date, b: Date)
    ensures Before(a, b) <==> DayKey(a) < DayKey(b)
    ensures NotAfter(a, b) <==> DayKey(a) <= DayKey(b)
  {
  }

  lemma DayKeyInjective(a: Date, b: Date)
    requires DayKey(a) == DayKey(b)
    ensures a == b
  {
    BeforeIsKeyOrder(a, b);
    BeforeIsKeyOrder(b, a);
  }

  /** `d + timedelta(days=1)`. */
  function NextDay(d: Date): (r: Date)
    ensures Before(d, r)
  {
    if d.day < DaysInMonth(d.year, d.month) then Ymd(d.year, d.month, d.day + 1)
    else if d.month < 12 then Ymd(d.year, d.month + 1, 1)
    else Ymd(d.year + 1, 1, 1)
  }

  /** `d - timedelta(days=1)`. */
  function PrevDay(d: Date): (r: Date)
    ensures Before(r, d)
  {
    if d.day > 1 then Ymd(d.year, d.month, d.day - 1)
    else if d.month > 1 then Ymd(d.year, d.month - 1, DaysInMonth(d.year, d.month - 1))
    else Ymd(d.year - 1, 12, 31)
  }

  lemma NextPrev(d: Date)
    ensures NextDay(PrevDay(d)) == d
    ensures PrevDay(NextDay(d)) == d
  {
  }

  /** `d + timedelta(days=n)`. */
  function AddDays(d: Date, n: nat): Date
    decreases n
  {
    if n == 0 then d else AddDays(NextDay(d), n - 1)
  }

  /** `d - timedelta(days=n)`. */
  function SubDays(d: Date, n: nat): Date
    decreases n
  {
    if n == 0 then d else SubDays(PrevDay(d), n - 1)
  }

  lemma {:induction false} AddDaysNotBefore(d: Date, n: nat)
    ensures NotAfter(d, AddDays(d, n))
    ensures n > 0 ==> Before(d, AddDays(d, n))
    decreases n
  {
    if n > 0 {
      AddDaysNotBefore(NextDay(d), n - 1);
      BeforeIsKeyOrder(d, NextDay(d));
      BeforeIsKeyOrder(NextDay(d), AddDays(NextDay(d), n - 1));
      BeforeIsKeyOrder(d, AddDays(d, n));
    }
  }

  lemma {:induction false} AddDaysAdd(d: Date, a: nat, b: nat)
    ensures AddDays(AddDays(d, a), b) == AddDays(d, a + b)
    decreases a
  {
    if a > 0 {
      AddDaysAdd(NextDay(d), a - 1, b);
    }
  }

  lemma {:induction false} AddDaysLast(d: Date, n: nat)
    ensures AddDays(d, n + 1) == NextDay(AddDays(d, n))
  {
    AddDaysAdd(d, n, 1);
  }

  lemma {:induction false} SubDaysLast(d: Date, n: nat)
    ensures SubDays(d, n + 1) == PrevDay(SubDays(d, n))
    decreases n
  {
    if n > 0 {
      SubDaysLast(PrevDay(d), n - 1);
    }
  }

  lemma {:induction false} AddSubDays(d: Date, n: nat)
    ensures AddDays(SubDays(d, n), n) == d
    decreases n
  {
    if n > 0 {
      calc {
        AddDays(SubDays(d, n), n);
        { SubDaysLast(d, n - 1); }
        AddDays(PrevDay(SubDays(d, n - 1)), n);
        AddDays(NextDay(PrevDay(SubDays(d, n - 1))), n - 1);
        { NextPrev(SubDays(d, n - 1)); }
        AddDays(SubDays(d, n - 1), n - 1);
        { AddSubDays(d, n - 1); }
        d;
      }
    }
  }

  // ---- ordinals and weekdays (Python's date.toordinal and date.weekday) ----

  /** Days in the years before `y` (0001-01-01 has ordinal 1). */
  function DaysBeforeYear(y: int): int {
    var p := y - 1;
    p * 365 + p / 4 - p / 100 + p / 400
  }

  function DaysBeforeMonth(y: int, m: int): int
    requires 1 <= m <= 12
  {
    [0, 31, 59, 90, 120, 151, 181, 212, 243, 273, 304, 334][m - 1]
      + (if m > 2 && IsLeap(y) then 1 else 0)
  }

  /** `d.toordinal()`. */
  function Ordinal(d: Date): int {
    DaysBeforeYear(d.year) + DaysBeforeMonth(d.year, d.month) + d.day
  }

  /** `d.weekday()`: Monday is 0 and Sunday is 6. */
  function Weekday(d: Date): (w: nat)
    ensures w < 7
  {
    (Ordinal(d) + 6) % 7
  }

  /** Stepping `y` by one moves `y / k` by one exactly at multiples of `k`,
      for the divisors of the leap-year rule. */
  lemma DivStep(y: int, k: int)
    requires k == 4 || k == 100 || k == 400
    ensures y / k == (y - 1) / k + (if y % k == 0 then 1 else 0)
  {
    if k == 4 {
      assert y / 4 == (y - 1) / 4 + (if y % 4 == 0 then 1 else 0);
    } else if k == 100 {
      assert y / 100 == (y - 1) / 100 + (if y % 100 == 0 then 1 else 0);
    } else {
      assert y / 400 == (y - 1) / 400 + (if y % 400 == 0 then 1 else 0);
    }
  }

  lemma YearLength(y: int)
    ensures DaysBeforeYear(y + 1) == DaysBeforeYear(y) + (if IsLeap(y) then 366 else 365)
  {
    DivStep(y, 4);
    DivStep(y, 100);
    DivStep(y, 400);
    var a, b, c := (if y % 4 == 0 then 1 else 0), (if y % 100 == 0 then 1 else 0), (if y % 400 == 0 then 1 else 0);
    assert DaysBeforeYear(y + 1) == DaysBeforeYear(y) + 365 + a - b + c;
    if IsLeap(y) {
      assert a - b + c == 1;
    } else {
      assert a - b + c == 0;
    }
  }

  lemma OrdinalNext(d: Date)
    ensures Ordinal(NextDay(d)) == Ordinal(d) + 1
  {
    if d.day == DaysInMonth(d.year, d.month) && d.month == 12 {
      YearLength(d.year);
    }
  }

  lemma {:induction false} OrdinalAddDays(d: Date, n: nat)
    ensures Ordinal(AddDays(d, n)) == Ordinal(d) + n
    decreases n
  {
    if n > 0 {
      OrdinalNext(d);
      OrdinalAddDays(NextDay(d), n - 1);
    }
  }

  lemma {:induction false} OrdinalSubDays(d: Date, n: nat)
    ensures Ordinal(SubDays(d, n)) == Ordinal(d) - n
  {
    OrdinalAddDays(SubDays(d, n), n);
    AddSubDays(d, n);
  }

  lemma ModShift(k: int, n: int)
    ensures (k - n) % 7 == (k % 7 - n) % 7
  {
    var q := k / 7;
    assert k == 7 * q + k % 7;
    assert k - n == 7 * q + (k % 7 - n);
  }

  /** Going back `n` days goes back `n` weekdays. */
  lemma WeekdaySubDays(d: Date, n: nat)
    ensures Weekday(SubDays(d, n)) == (Weekday(d) - n) % 7
  {
    OrdinalSubDays(d, n);
    var o := Ordinal(d);
    assert Ordinal(SubDays(d, n)) + 6 == o + 6 - n;
    ModShift(o + 6, n);
  }
}

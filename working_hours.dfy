/** `AttendanceManager.calculate_working_hours`: the worked, lunch and
    other-break durations of one employee's day, in seconds, and whether the
    day has an OUT record. */
module WorkingHours {
  import opened Common
  import opened Calendar
  import opened Models
  import AttendanceManager

  datatype Hours = Hours(worked: int, lunch: int, otherBreaks: int, hasOut: bool)

  /** A point on the local clock as seconds since the ordinal epoch, so that
      instants on different days compare and subtract correctly. */
  function Seconds(i: Instant): int {
    Ordinal(i.date) * SecondsPerDay + i.time
  }

  /** The duration a break contributes to the `t` bucket: `break_out - break_in`
      when both are set and the type matches, else nothing. A break that is
      not LUNCH counts as another break. */
  function Contribution(b: Break, t: BreakType): int {
    if b.breakIn.Some? && b.breakOut.Some? && b.breakType == t then b.breakOut.value - b.breakIn.value else 0
  }

  /** Sum of the closed breaks of type `t`. */
  function BreakSeconds(bs: seq<Break>, t: BreakType): int
    decreases |bs|
  {
    if bs == [] then 0 else BreakSeconds(bs[..|bs| - 1], t) + Contribution(bs[|bs| - 1], t)
  }

  /** The instant the day is taken to end at: the OUT time when there is an
      OUT record; otherwise the default auto-checkout time for a day before
      today; otherwise `now`. */
  function EndInstant(out: Option<nat>, rs: seq<AttendanceRecord>, date: Date, now: Instant): (e: Instant)
    requires out.Some? ==> out.value < |rs|
    ensures out.Some? ==> e == At(date, rs[out.value].time)
    ensures out.None? && Before(date, now.date) ==> e == At(date, AttendanceManager.OutTimeDefault)
    ensures out.None? && !Before(date, now.date) ==> e == now
  {
    if out.Some? then At(date, rs[out.value].time)
    else if Before(date, now.date) then At(date, AttendanceManager.OutTimeDefault)
    else now
  }

  /** The value `calculate_working_hours(employee, date)` returns when the
      clock reads `now`. */
  function HoursOf(rs: seq<AttendanceRecord>, e: nat, date: Date, now: Instant): (h: Hours)
    ensures FindRecord(rs, e, date, In).None? ==> h == Hours(0, 0, 0, false)
    ensures h.hasOut <==> FindRecord(rs, e, date, In).Some? && FindRecord(rs, e, date, Out).Some?
  {
    var inIx := FindRecord(rs, e, date, In);
    if inIx.None? then Hours(0, 0, 0, false)
    else
      var inRec := rs[inIx.value];
      var lunch := BreakSeconds(inRec.breaks, Lunch);
      var other := BreakSeconds(inRec.breaks, Other);
      var outIx := FindRecord(rs, e, date, Out);
      var start := Seconds(At(date, inRec.time));
      var end := Seconds(EndInstant(outIx, rs, date, now));
      var worked := if start < end then end - start - (lunch + other) else 0;
      Hours(worked, lunch, other, outIx.Some?)
  }

  /** The loop of `calculate_working_hours` over the IN record's breaks. */
  method CalculateWorkingHours(rs: seq<AttendanceRecord>, e: nat, date: Date, now: Instant)
    returns (h: Hours)
    ensures h == HoursOf(rs, e, date, now)
  {
    var inIx := FindRecord(rs, e, date, In);
    var outIx := FindRecord(rs, e, date, Out);
    var total, lunch, other, hasOut := 0, 0, 0, false;
    if inIx.Some? {
      var bs := rs[inIx.value].breaks;
      var i := 0;
      while i < |bs|
        invariant 0 <= i <= |bs|
        invariant lunch == BreakSeconds(bs[..i], Lunch)
        invariant other == BreakSeconds(bs[..i], Other)
      {
        var b := bs[i];
        assert bs[..i + 1][..i] == bs[..i];
        if b.breakIn.Some? && b.breakOut.Some? {
          var d := b.breakOut.value - b.breakIn.value;
          if b.breakType == Lunch {
            lunch := lunch + d;
          } else {
            other := other + d;
          }
        }
        i := i + 1;
      }
      assert bs[..|bs|] == bs;
      var start := Seconds(At(date, rs[inIx.value].time));
      var end := Seconds(EndInstant(outIx, rs, date, now));
      hasOut := outIx.Some?;
      if start < end {
        total := end - start;
        total := total - (lunch + other);
      } else {
        total := 0;
      }
    }
    h := Hours(total, lunch, other, hasOut);
  }

  // ------------------------------------------------------------ properties

  /** Break sums distribute over concatenation of break lists. */
  lemma {:induction false} BreakSecondsAppend(a: seq<Break>, b: seq<Break>, t: BreakType)
    ensures BreakSeconds(a + b, t) == BreakSeconds(a, t) + BreakSeconds(b, t)
    decreases |b|
  {
    if b == [] {
      assert a + b == a;
    } else {
      var b' := b[..|b| - 1];
      assert (a + b)[..|a + b| - 1] == a + b';
      assert (a + b)[|a + b| - 1] == b[|b| - 1];
      BreakSecondsAppend(a, b', t);
    }
  }

  /** An open break contributes to neither sum, wherever it sits. */
  lemma OpenBreaksCountNothing(a: seq<Break>, b: Break, c: seq<Break>, t: BreakType)
    requires b.breakIn.None? || b.breakOut.None?
    ensures BreakSeconds(a + [b] + c, t) == BreakSeconds(a + c, t)
  {
    BreakSecondsAppend(a + [b], c, t);
    BreakSecondsAppend(a, c, t);
    assert (a + [b])[..|a + [b]| - 1] == a;
  }

  /** A closed break counts in exactly one of the two sums: LUNCH in the
      lunch sum, anything else in the other-break sum. */
  lemma ClosedBreakCountsOnce(a: seq<Break>, b: Break)
    requires b.breakIn.Some? && b.breakOut.Some?
    ensures b.breakType == Lunch ==>
      BreakSeconds(a + [b], Lunch) == BreakSeconds(a, Lunch) + (b.breakOut.value - b.breakIn.value)
      && BreakSeconds(a + [b], Other) == BreakSeconds(a, Other)
    ensures b.breakType != Lunch ==>
      BreakSeconds(a + [b], Other) == BreakSeconds(a, Other) + (b.breakOut.value - b.breakIn.value)
      && BreakSeconds(a + [b], Lunch) == BreakSeconds(a, Lunch)
  {
    assert (a + [b])[..|a + [b]| - 1] == a;
  }

  /** When the day has an IN record and ends after it, worked time and the
      two break sums add up to the span between IN and the end instant, with
      no clamping: breaks longer than the span make the worked time negative. */
  lemma SpanAccounting(rs: seq<AttendanceRecord>, e: nat, date: Date, now: Instant)
    requires FindRecord(rs, e, date, In).Some?
    ensures var h := HoursOf(rs, e, date, now);
      var inRec := rs[FindRecord(rs, e, date, In).value];
      var start := Seconds(At(date, inRec.time));
      var end := Seconds(EndInstant(FindRecord(rs, e, date, Out), rs, date, now));
      && h.lunch == BreakSeconds(inRec.breaks, Lunch)
      && h.otherBreaks == BreakSeconds(inRec.breaks, Other)
      && (start < end ==> h.worked + h.lunch + h.otherBreaks == end - start)
      && (end <= start ==> h.worked == 0)
  {
  }

  /** For a day before today, the result does not depend on the evaluation
      instant: the default auto-checkout time is used, never `now`. */
  lemma PastDayIgnoresNow(rs: seq<AttendanceRecord>, e: nat, date: Date, now1: Instant, now2: Instant)
    requires Before(date, now1.date) && Before(date, now2.date)
    ensures HoursOf(rs, e, date, now1) == HoursOf(rs, e, date, now2)
  {
  }

  /** For today's open session, worked time never decreases as the clock
      advances past the IN time. */
  lemma OpenDayMonotone(rs: seq<AttendanceRecord>, e: nat, date: Date, now1: Instant, now2: Instant)
    requires FindRecord(rs, e, date, In).Some? && FindRecord(rs, e, date, Out).None?
    requires now1.date == date && now2.date == date
    requires Seconds(At(date, rs[FindRecord(rs, e, date, In).value].time)) < Seconds(now1) <= Seconds(now2)
    ensures HoursOf(rs, e, date, now1).worked <= HoursOf(rs, e, date, now2).worked
  {
  }

  /** Breaks that exceed the span drive the worked time below zero: an IN at
      10:00 and an OUT at 11:00 with a closed two-hour lunch give -1 hour. */
  lemma WorkedIsNotClamped()
    ensures var d: Date := Ymd(2025, 6, 17);
      var lunch := Break(Lunch, Some(Clock(12, 0)), Some(Clock(14, 0)));
      var rs := [AttendanceRecord(1, d, In, Clock(10, 0), "On time.", None, [lunch]),
                 AttendanceRecord(1, d, Out, Clock(11, 0), "Out Time.", None, [])];
      HoursOf(rs, 1, d, At(d, Clock(20, 0))).worked == -3600
  {
    var d: Date := Ymd(2025, 6, 17);
    var lunch := Break(Lunch, Some(Clock(12, 0)), Some(Clock(14, 0)));
    assert BreakSeconds([lunch], Lunch) == 7200 by {
      assert [lunch][..0] == [];
    }
    assert BreakSeconds([lunch], Other) == 0 by {
      assert [lunch][..0] == [];
    }
  }
}

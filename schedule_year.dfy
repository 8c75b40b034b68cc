/**
 * Schedule:Year: each week schedule the object names is laid over a range of
 * ordinal days of a leap year (1 .. 366), wrapping through the end of the year
 * when the range starts after it ends.  Day 60 (29 February) falls back to
 * day 59 when no range covers it, and the object is in error when a week
 * schedule is unknown or some day is covered by no range or by more than one.
 *
 * The week schedules are indices into the registry's list; `None` stands for
 * a name the registry does not know.  The dates arrive as ordinal days, two
 * per week schedule (start, end).
 */
module ScheduleYear {
  import opened Wrappers

  const DaysInLeapYear := 366
  /** Ordinal day of 28 February and 29 February in a leap year. */
  const Feb28 := 59
  const Feb29 := 60

  /** A week schedule laid over the ordinal days first .. last. */
  datatype Range = Range(week: nat, first: int, last: int)

  predicate OrdinalDay(d: int) { 1 <= d <= DaysInLeapYear }

  /** The range covers ordinal day d, wrapping through day 366 when first > last. */
  predicate Covers(r: Range, d: int)
  {
    if r.first <= r.last then r.first <= d <= r.last
    else (r.first <= d <= DaysInLeapYear) || (1 <= d <= r.last)
  }

  /**
   * The ranges of the first n week-schedule fields: an unknown week schedule
   * is skipped and does not consume dates, so the dates of range k are
   * ordinals[2k] and ordinals[2k+1].
   */
  function Ranges(weeks: seq<Option<nat>>, ordinals: seq<int>, n: nat): (rs: seq<Range>)
    requires n <= |weeks| && 2 * |weeks| <= |ordinals|
    ensures |rs| <= n
    ensures forall k :: 0 <= k < |rs| ==> rs[k].first == ordinals[2 * k] && rs[k].last == ordinals[2 * k + 1]
  {
    if n == 0 then []
    else
      var rs := Ranges(weeks, ordinals, n - 1);
      match weeks[n - 1]
      case None => rs
      case Some(w) => rs + [Range(w, ordinals[2 * |rs|], ordinals[2 * |rs| + 1])]
  }

  /** How many of the ranges cover day d. */
  function Count(rs: seq<Range>, d: int): nat
  {
    if rs == [] then 0
    else Count(rs[..|rs| - 1], d) + (if Covers(rs[|rs| - 1], d) then 1 else 0)
  }

  /** The week schedule of day d: that of the last range covering it, else `init`. */
  function WeekOf(rs: seq<Range>, d: int, init: int): int
  {
    if rs == [] then init
    else if Covers(rs[|rs| - 1], d) then rs[|rs| - 1].week
    else WeekOf(rs[..|rs| - 1], d, init)
  }

  /** Day 29 February copies 28 February when no range covers it. */
  predicate LeapDayCopied(rs: seq<Range>, d: int)
  {
    d == Feb29 && Count(rs, Feb29) == 0
  }

  function FinalCount(rs: seq<Range>, d: int): nat
  {
    if LeapDayCopied(rs, d) then Count(rs, Feb28) else Count(rs, d)
  }

  function FinalWeek(rs: seq<Range>, d: int, init: seq<int>): int
    requires |init| == DaysInLeapYear + 1 && 0 <= d <= DaysInLeapYear
  {
    if LeapDayCopied(rs, d) then WeekOf(rs, Feb28, init[Feb28]) else WeekOf(rs, d, init[d])
  }

  /** Some week schedule field names an unknown week schedule. */
  predicate AnyUnknown(weeks: seq<Option<nat>>)
  {
    exists i :: 0 <= i < |weeks| && weeks[i].None?
  }

  /** The object is in error: an unknown week, or a day covered by no range or by several. */
  predicate YearErrors(weeks: seq<Option<nat>>, ordinals: seq<int>)
    requires 2 * |weeks| <= |ordinals|
  {
    var rs := Ranges(weeks, ordinals, |weeks|);
    AnyUnknown(weeks) || exists d :: 1 <= d <= DaysInLeapYear && FinalCount(rs, d) != 1
  }

  /** One more week schedule field: an unknown week adds no range and makes the object unknown. */
  lemma LayStep(weeks: seq<Option<nat>>, ordinals: seq<int>, idx: nat)
    requires idx < |weeks| && 2 * |weeks| <= |ordinals|
    ensures AnyUnknown(weeks[..idx + 1]) == (AnyUnknown(weeks[..idx]) || weeks[idx].None?)
    ensures weeks[idx].None? ==> Ranges(weeks, ordinals, idx + 1) == Ranges(weeks, ordinals, idx)
    ensures weeks[idx].Some? ==>
              var rs := Ranges(weeks, ordinals, idx);
              Ranges(weeks, ordinals, idx + 1) == rs + [Range(weeks[idx].value, ordinals[2 * |rs|], ordinals[2 * |rs| + 1])]
  {
    var pre, ext := weeks[..idx], weeks[..idx + 1];
    if weeks[idx].None? {
      assert ext[idx].None?;
    }
    if AnyUnknown(pre) {
      var i :| 0 <= i < |pre| && pre[i].None?;
      assert ext[i] == pre[i];
    }
    if AnyUnknown(ext) {
      var i :| 0 <= i < |ext| && ext[i].None?;
      if i < idx {
        assert pre[i] == ext[i];
      }
    }
  }

  lemma CountAppend(rs: seq<Range>, r: Range, d: int)
    ensures Count(rs + [r], d) == Count(rs, d) + (if Covers(r, d) then 1 else 0)
  {
    assert (rs + [r])[..|rs|] == rs;
  }

  lemma WeekOfAppend(rs: seq<Range>, r: Range, d: int, init: int)
    ensures WeekOf(rs + [r], d, init) == (if Covers(r, d) then r.week else WeekOf(rs, d, init))
  {
    assert (rs + [r])[..|rs|] == rs;
  }

  /** Counts every day of a .. b once more and gives it week w. */
  method MarkDays(daysInYear: array<int>, weekScheds: array<int>, w: nat, a: int, b: int)
    requires daysInYear.Length == DaysInLeapYear + 1 && weekScheds.Length == DaysInLeapYear + 1
    requires daysInYear != weekScheds
    requires 0 <= a <= b + 1 && b <= DaysInLeapYear
    modifies daysInYear, weekScheds
    ensures forall d :: 0 <= d <= DaysInLeapYear ==>
              daysInYear[d] == old(daysInYear[d]) + (if a <= d <= b then 1 else 0)
    ensures forall d :: 0 <= d <= DaysInLeapYear ==>
              weekScheds[d] == (if a <= d <= b then w else old(weekScheds[d]))
  {
    var count := a;
    while count <= b
      invariant a <= count <= b + 1
      invariant forall d :: 0 <= d <= DaysInLeapYear ==>
                  daysInYear[d] == old(daysInYear[d]) + (if a <= d < count then 1 else 0)
      invariant forall d :: 0 <= d <= DaysInLeapYear ==>
                  weekScheds[d] == (if a <= d < count then w else old(weekScheds[d]))
      decreases b - count
    {
      daysInYear[count] := daysInYear[count] + 1;
      weekScheds[count] := w;
      count := count + 1;
    }
  }

  /** Lays one range over the year, wrapping through day 366 when it starts after it ends. */
  method MarkRange(daysInYear: array<int>, weekScheds: array<int>, r: Range)
    requires daysInYear.Length == DaysInLeapYear + 1 && weekScheds.Length == DaysInLeapYear + 1
    requires daysInYear != weekScheds
    requires OrdinalDay(r.first) && OrdinalDay(r.last)
    modifies daysInYear, weekScheds
    ensures forall d :: 0 <= d <= DaysInLeapYear ==>
              daysInYear[d] == old(daysInYear[d]) + (if Covers(r, d) then 1 else 0)
    ensures forall d :: 0 <= d <= DaysInLeapYear ==>
              weekScheds[d] == (if Covers(r, d) then r.week else old(weekScheds[d]))
  {
    if r.first <= r.last {
      MarkDays(daysInYear, weekScheds, r.week, r.first, r.last);
    } else {
      MarkDays(daysInYear, weekScheds, r.week, r.first, DaysInLeapYear);
      MarkDays(daysInYear, weekScheds, r.week, 1, r.last);
    }
  }

  /**
   * The loop over the week-schedule fields: per day, how many ranges cover it
   * and the week schedule of the last one.
   */
  method LayRanges(weeks: seq<Option<nat>>, ordinals: seq<int>, daysInYear: array<int>, weekScheds: array<int>)
    returns (unknown: bool)
    requires 2 * |weeks| <= |ordinals|
    requires forall i :: 0 <= i < |ordinals| ==> OrdinalDay(ordinals[i])
    requires daysInYear.Length == DaysInLeapYear + 1 && weekScheds.Length == DaysInLeapYear + 1
    requires daysInYear != weekScheds
    requires forall d :: 0 <= d <= DaysInLeapYear ==> daysInYear[d] == 0
    modifies daysInYear, weekScheds
    ensures unknown == AnyUnknown(weeks)
    ensures forall d :: 0 <= d <= DaysInLeapYear ==>
              daysInYear[d] == Count(Ranges(weeks, ordinals, |weeks|), d)
    ensures forall d :: 0 <= d <= DaysInLeapYear ==>
              weekScheds[d] == WeekOf(Ranges(weeks, ordinals, |weeks|), d, old(weekScheds[d]))
  {
    ghost var init := weekScheds[..];
    unknown := false;
    var numPointer := 0;
    for idx := 0 to |weeks|
      invariant numPointer == 2 * |Ranges(weeks, ordinals, idx)|
      invariant unknown == AnyUnknown(weeks[..idx])
      invariant Laid(daysInYear, weekScheds, Ranges(weeks, ordinals, idx), init)
    {
      ghost var rs := Ranges(weeks, ordinals, idx);
      LayStep(weeks, ordinals, idx);
      if weeks[idx].None? {
        unknown := true;
      } else {
        var r := Range(weeks[idx].value, ordinals[numPointer], ordinals[numPointer + 1]);
        numPointer := numPointer + 2;
        AddRange(daysInYear, weekScheds, rs, r, init);
      }
    }
    assert weeks[..|weeks|] == weeks;
  }

  /** Each day is counted once per range of `rs` covering it and has the week of the last one. */
  ghost predicate Laid(daysInYear: array<int>, weekScheds: array<int>, rs: seq<Range>, init: seq<int>)
    reads daysInYear, weekScheds
  {
    daysInYear.Length == DaysInLeapYear + 1 && weekScheds.Length == DaysInLeapYear + 1
    && |init| == DaysInLeapYear + 1
    && forall d :: 0 <= d <= DaysInLeapYear ==>
         daysInYear[d] == Count(rs, d) && weekScheds[d] == WeekOf(rs, d, init[d])
  }

  /** One pass of that loop over a known week schedule: the laid ranges gain `r`. */
  method AddRange(daysInYear: array<int>, weekScheds: array<int>, ghost rs: seq<Range>, r: Range, ghost init: seq<int>)
    requires daysInYear.Length == DaysInLeapYear + 1 && weekScheds.Length == DaysInLeapYear + 1
    requires daysInYear != weekScheds && |init| == DaysInLeapYear + 1
    requires OrdinalDay(r.first) && OrdinalDay(r.last)
    requires Laid(daysInYear, weekScheds, rs, init)
    modifies daysInYear, weekScheds
    ensures Laid(daysInYear, weekScheds, rs + [r], init)
  {
    MarkRange(daysInYear, weekScheds, r);
    forall d | 0 <= d <= DaysInLeapYear
      ensures daysInYear[d] == Count(rs + [r], d)
      ensures weekScheds[d] == WeekOf(rs + [r], d, init[d])
    {
      CountAppend(rs, r, d);
      WeekOfAppend(rs, r, d, init[d]);
    }
  }

  /**
   * The day pointers of one Schedule:Year object, then the check that every
   * day has exactly one week schedule.
   */
  method ProcessYearSchedule(weeks: seq<Option<nat>>, ordinals: seq<int>, weekScheds: array<int>)
    returns (errorsFound: bool)
    requires 2 * |weeks| <= |ordinals|
    requires forall i :: 0 <= i < |ordinals| ==> OrdinalDay(ordinals[i])
    requires weekScheds.Length == DaysInLeapYear + 1
    modifies weekScheds
    ensures errorsFound == YearErrors(weeks, ordinals)
    ensures forall d :: 0 <= d <= DaysInLeapYear ==>
              weekScheds[d] == FinalWeek(Ranges(weeks, ordinals, |weeks|), d, old(weekScheds[..]))
  {
    ghost var init := weekScheds[..];
    ghost var rs := Ranges(weeks, ordinals, |weeks|);
    var daysInYear := new int[DaysInLeapYear + 1](_ => 0);
    errorsFound := LayRanges(weeks, ordinals, daysInYear, weekScheds);
    if daysInYear[Feb29] == 0 {
      daysInYear[Feb29] := daysInYear[Feb28];
      weekScheds[Feb29] := weekScheds[Feb28];
    }
    assert forall d :: 0 <= d <= DaysInLeapYear ==> daysInYear[d] == FinalCount(rs, d);
    var iDay := 1;
    while iDay <= DaysInLeapYear
      invariant 1 <= iDay <= DaysInLeapYear + 1
      invariant forall d :: 1 <= d < iDay ==> FinalCount(rs, d) == 1
    {
      if daysInYear[iDay] == 0 || daysInYear[iDay] > 1 {
        errorsFound := true;
        break;
      }
      iDay := iDay + 1;
    }
  }
}

/** What a Schedule:Year object accepted without error gives each day of the year. */
module ScheduleYearFacts {
  import opened Wrappers
  import opened ScheduleYear

  /** Exactly one of the ranges covers day d. */
  predicate CoveredOnce(rs: seq<Range>, d: int)
  {
    exists i :: 0 <= i < |rs| && Covers(rs[i], d) && forall j :: 0 <= j < |rs| && Covers(rs[j], d) ==> j == i
  }

  /** With every week schedule known, range k is the k-th field's week over the k-th pair of dates. */
  lemma {:induction false} RangesOfKnownWeeks(weeks: seq<Option<nat>>, ordinals: seq<int>, n: nat)
    requires n <= |weeks| && 2 * |weeks| <= |ordinals|
    requires forall i :: 0 <= i < n ==> weeks[i].Some?
    ensures var rs := Ranges(weeks, ordinals, n);
            |rs| == n && forall k :: 0 <= k < n ==> rs[k] == Range(weeks[k].value, ordinals[2 * k], ordinals[2 * k + 1])
  {
    if n > 0 {
      RangesOfKnownWeeks(weeks, ordinals, n - 1);
    }
  }

  lemma {:induction false} CountZeroIff(rs: seq<Range>, d: int)
    ensures Count(rs, d) == 0 <==> forall i :: 0 <= i < |rs| ==> !Covers(rs[i], d)
  {
    if rs != [] {
      var p := rs[..|rs| - 1];
      CountZeroIff(p, d);
      assert forall i :: 0 <= i < |p| ==> p[i] == rs[i];
    }
  }

  /** A count of one names the single covering range, whose week the day takes. */
  lemma {:induction false} UniqueCover(rs: seq<Range>, d: int, init: int) returns (i: nat)
    requires Count(rs, d) == 1
    ensures i < |rs| && Covers(rs[i], d)
    ensures forall j :: 0 <= j < |rs| && Covers(rs[j], d) ==> j == i
    ensures WeekOf(rs, d, init) == rs[i].week
  {
    var p := rs[..|rs| - 1];
    assert forall k :: 0 <= k < |p| ==> p[k] == rs[k];
    if Covers(rs[|rs| - 1], d) {
      CountZeroIff(p, d);
      i := |rs| - 1;
    } else {
      i := UniqueCover(p, d, init);
    }
  }

  /** A single covering range gives a count of one. */
  lemma {:induction false} CountOfUnique(rs: seq<Range>, d: int, i: nat)
    requires i < |rs| && Covers(rs[i], d)
    requires forall j :: 0 <= j < |rs| && Covers(rs[j], d) ==> j == i
    ensures Count(rs, d) == 1
  {
    var p := rs[..|rs| - 1];
    assert forall k :: 0 <= k < |p| ==> p[k] == rs[k];
    if i == |rs| - 1 {
      CountZeroIff(p, d);
    } else {
      CountOfUnique(p, d, i);
    }
  }

  /**
   * Accepted without error: every week schedule is known, and each day of
   * the year is covered by exactly one range (29 February, when no range
   * covers it, by the one covering 28 February), whose week schedule it gets.
   */
  lemma {:induction false} AcceptedYearCoversEachDayOnce(weeks: seq<Option<nat>>, ordinals: seq<int>, init: seq<int>, d: int)
    returns (i: nat)
    requires 2 * |weeks| <= |ordinals| && |init| == DaysInLeapYear + 1 && OrdinalDay(d)
    requires !YearErrors(weeks, ordinals)
    ensures !AnyUnknown(weeks)
    ensures var rs := Ranges(weeks, ordinals, |weeks|);
            var src := if LeapDayCopied(rs, d) then Feb28 else d;
            i < |rs| && Covers(rs[i], src)
            && (forall j :: 0 <= j < |rs| && Covers(rs[j], src) ==> j == i)
            && FinalWeek(rs, d, init) == rs[i].week
  {
    var rs := Ranges(weeks, ordinals, |weeks|);
    var src := if LeapDayCopied(rs, d) then Feb28 else d;
    assert FinalCount(rs, d) == 1;
    i := UniqueCover(rs, src, init[src]);
  }

  /** Conversely, known weeks and every day covered once (29 February at most once) are accepted. */
  lemma {:induction false} WellCoveredYearAccepted(weeks: seq<Option<nat>>, ordinals: seq<int>)
    requires 2 * |weeks| <= |ordinals|
    requires !AnyUnknown(weeks)
    requires var rs := Ranges(weeks, ordinals, |weeks|);
             forall d :: OrdinalDay(d) && d != Feb29 ==> CoveredOnce(rs, d)
    requires var rs := Ranges(weeks, ordinals, |weeks|);
             CoveredOnce(rs, Feb29) || forall i :: 0 <= i < |rs| ==> !Covers(rs[i], Feb29)
    ensures !YearErrors(weeks, ordinals)
  {
    var rs := Ranges(weeks, ordinals, |weeks|);
    forall d | OrdinalDay(d)
      ensures FinalCount(rs, d) == 1
    {
      var src := if d == Feb29 && !CoveredOnce(rs, Feb29) then Feb28 else d;
      assert CoveredOnce(rs, src);
      var i :| 0 <= i < |rs| && Covers(rs[i], src) && forall j :: 0 <= j < |rs| && Covers(rs[j], src) ==> j == i;
      CountOfUnique(rs, src, i);
      if d == Feb29 {
        CountZeroIff(rs, Feb29);
      }
    }
  }

  /** One range that wraps from day 100 round to day 99 covers the whole year. */
  lemma WrappedRangeCoversYear()
    ensures !YearErrors([Some(0)], [100, 99])
  {
    var rs := Ranges([Some(0)], [100, 99], 1);
    assert rs == [Range(0, 100, 99)];
    forall d | OrdinalDay(d)
      ensures CoveredOnce(rs, d)
    {
      assert Covers(rs[0], d);
    }
    WellCoveredYearAccepted([Some(0)], [100, 99]);
  }
}

/**
 * The "Until: HH:MM, value" fields of a Schedule:Day:Interval (and of the
 * day parts of Schedule:Compact): ProcessIntervalFields fills the 1440
 * minute values of one day and flags every minute it sets, reporting
 * malformed, overlapping and incomplete days.  isMinuteMultipleOfTimestep is
 * the check DecodeHHMMField applies to every decoded minute.
 *
 * Minute m of the day (0 <= m < 1440) is hour m / 60, minute m % 60.  The
 * source keeps its cursor as an (hour, minute) pair and fills the first, the
 * middle and the last hour of an interval in three loops; the model keeps the
 * pairs and fills the same minutes through their absolute positions.
 */
module ScheduleIntervals {

  const HoursInDay := 24
  const MinutesInHour := 60
  const MinutesInDay := 1440

  /** True for minute 0 and for every multiple of the timestep length.
    * (C++ `%` truncates, Dafny's is Euclidean; they agree on "== 0".) */
  function IsMinuteMultipleOfTimestep(minute: int, numMinutesPerTimestep: int): (r: bool)
    requires numMinutesPerTimestep > 0
    ensures r <==> minute == (minute / numMinutesPerTimestep) * numMinutesPerTimestep
  {
    if minute != 0 then minute % numMinutesPerTimestep == 0 else true
  }

  /** The cases the unit tests of the source exercise (15- and 12-minute steps). */
  lemma TimestepMultipleExamples()
    ensures IsMinuteMultipleOfTimestep(0, 15) && IsMinuteMultipleOfTimestep(45, 15)
    ensures !IsMinuteMultipleOfTimestep(22, 15) && !IsMinuteMultipleOfTimestep(53, 15)
    ensures IsMinuteMultipleOfTimestep(48, 12) && !IsMinuteMultipleOfTimestep(22, 12)
  {
  }

  /** One decoded "Until" field.  UntilNotFirst is a field that holds the word
    * UNTIL somewhere other than at its start. */
  datatype UntilField = Until(hh: int, mm: int) | UntilNotFirst

  /** The fill cursor (begHr:begMin is the first minute not yet filled) and the
    * end of the last interval (endHr:endMin, -1:-1 before the first one). */
  datatype Cursor = Cursor(begHr: int, begMin: int, endHr: int, endMin: int)

  datatype DayFill = DayFill(cur: Cursor, vals: seq<real>, isSet: seq<bool>, errors: bool, stopped: bool)

  datatype DayResult = DayResult(vals: seq<real>, isSet: seq<bool>, errors: bool)

  function Beg(c: Cursor): int { c.begHr * MinutesInHour + c.begMin }

  /** Absolute minute the last interval ends on (inclusive). */
  function End(c: Cursor): int { c.endHr * MinutesInHour + c.endMin }

  /** s with positions a..b (inclusive) replaced by x. */
  function Fill<T>(s: seq<T>, a: int, b: int, x: T): (r: seq<T>)
    ensures |r| == |s|
    ensures forall m :: 0 <= m < |s| ==> r[m] == (if a <= m <= b then x else s[m])
  {
    seq(|s|, m requires 0 <= m < |s| => if a <= m <= b then x else s[m])
  }

  /** The cursor moved past minute endMin of hour hr. */
  function Advance(c: Cursor, hr: int): Cursor
  {
    if c.endMin + 1 >= MinutesInHour then c.(begHr := hr + 1, begMin := 0)
    else c.(begHr := hr, begMin := c.endMin + 1)
  }

  function Initial(): DayFill
  {
    DayFill(Cursor(0, 0, -1, -1), seq(MinutesInDay, _ => 0.0), seq(MinutesInDay, _ => false), false, false)
  }

  /** The largest minute a field may name: 60 as written, 59 once corrected. */
  function MaxMinute(asWritten: bool): int { if asWritten then MinutesInHour else MinutesInHour - 1 }

  /**
   * One field of the day.  With asWritten the step is the code's; without it
   * two corrections apply: a minute of 60 is rejected like any other
   * out-of-range minute, and a same-hour interval that ends before the cursor
   * (other than a zero-length one) is reported as an overlap.
   */
  function FieldStep(asWritten: bool, s: DayFill, f: UntilField, v: real): (r: DayFill)
    ensures |r.vals| == |s.vals| && |r.isSet| == |s.isSet|
    ensures s.errors ==> r.errors
  {
    match f
    case UntilNotFirst => s.(errors := true)
    case Until(hh, mm0) =>
      if hh < 0 || hh > HoursInDay || mm0 < 0 || mm0 > MaxMinute(asWritten) then s.(errors := true)
      else
        // 24:MM is cut back to 24:00
        var mm := if hh == HoursInDay && 0 < mm0 < MinutesInHour then 0 else mm0;
        var c :=
          if mm == 0 then s.cur.(endHr := hh - 1, endMin := MinutesInHour - 1)
          else if mm < MinutesInHour then s.cur.(endHr := hh, endMin := mm - 1)
          else s.cur;
        if c.begHr > c.endHr then
          if c.begHr == c.endHr + 1 && c.begMin == 0 && c.endMin == MinutesInHour - 1 then s.(cur := c)
          else s.(cur := c, errors := true)
        else if c.begHr == c.endHr then
          if !asWritten && c.endMin < c.begMin - 1 then s.(cur := c, errors := true)
          else if exists m :: Beg(c) <= m <= End(c) && 0 <= m < |s.isSet| && s.isSet[m] then
            s.(cur := c, errors := true, stopped := true)
          else
            DayFill(Advance(c, c.begHr), Fill(s.vals, Beg(c), End(c), v), Fill(s.isSet, Beg(c), End(c), true), s.errors, false)
        else
          DayFill(Advance(c, c.endHr), Fill(s.vals, Beg(c), End(c), v), Fill(s.isSet, Beg(c), End(c), true), s.errors, false)
  }

  /** The first n fields processed; an overlap found inside one hour stops the loop. */
  function Run(asWritten: bool, untils: seq<UntilField>, numbers: seq<real>, n: nat): DayFill
    requires n <= |untils| && n <= |numbers|
  {
    if n == 0 then Initial()
    else
      var s := Run(asWritten, untils, numbers, n - 1);
      if s.stopped then s else FieldStep(asWritten, s, untils[n - 1], numbers[n - 1])
  }

  /** The whole routine: arrays cleared, field counts compared, fields
    * processed, then every unset minute reported as an incomplete day. */
  function ProcessedDayWith(asWritten: bool, untils: seq<UntilField>, numbers: seq<real>): DayResult
  {
    if |untils| != |numbers| then
      DayResult(Initial().vals, Initial().isSet, true)
    else
      var s := Run(asWritten, untils, numbers, |untils|);
      DayResult(s.vals, s.isSet, s.errors || exists m :: 0 <= m < |s.isSet| && !s.isSet[m])
  }

  /** The day as the code fills it. */
  function ProcessedDayAsWritten(untils: seq<UntilField>, numbers: seq<real>): (r: DayResult)
    ensures |r.vals| == MinutesInDay && |r.isSet| == MinutesInDay
  {
    RunLengths(true, untils, numbers, if |untils| == |numbers| then |untils| else 0);
    ProcessedDayWith(true, untils, numbers)
  }

  /** The day once both corrections are applied; the method below implements it. */
  function ProcessedDay(untils: seq<UntilField>, numbers: seq<real>): (r: DayResult)
    ensures |r.vals| == MinutesInDay && |r.isSet| == MinutesInDay
    ensures |untils| != |numbers| ==> r.errors && forall m :: 0 <= m < MinutesInDay ==> r.vals[m] == 0.0 && !r.isSet[m]
    ensures !r.errors ==> forall m :: 0 <= m < MinutesInDay ==> r.isSet[m]
  {
    RunLengths(false, untils, numbers, if |untils| == |numbers| then |untils| else 0);
    ProcessedDayWith(false, untils, numbers)
  }

  lemma {:induction false} RunLengths(asWritten: bool, untils: seq<UntilField>, numbers: seq<real>, n: nat)
    requires n <= |untils| && n <= |numbers|
    ensures |Run(asWritten, untils, numbers, n).vals| == MinutesInDay
    ensures |Run(asWritten, untils, numbers, n).isSet| == MinutesInDay
  {
    if n > 0 {
      RunLengths(asWritten, untils, numbers, n - 1);
    }
  }

  // ---------------------------------------------------------------------------
  // The procedure, on the two arrays the caller passes in.
  // ---------------------------------------------------------------------------

  /** Positions a..b of both arrays set to v and true. */
  method FillMinutes(minuteVals: array<real>, setMinuteVals: array<bool>, a: int, b: int, v: real)
    requires minuteVals.Length == MinutesInDay && setMinuteVals.Length == MinutesInDay
    requires 0 <= a <= b + 1 && b < MinutesInDay
    modifies minuteVals, setMinuteVals
    ensures minuteVals[..] == Fill(old(minuteVals[..]), a, b, v)
    ensures setMinuteVals[..] == Fill(old(setMinuteVals[..]), a, b, true)
  {
    var m := a;
    while m <= b
      invariant a <= m <= b + 1
      invariant forall j :: 0 <= j < MinutesInDay ==> minuteVals[j] == (if a <= j < m then v else old(minuteVals[j]))
      invariant forall j :: 0 <= j < MinutesInDay ==> setMinuteVals[j] == (if a <= j < m then true else old(setMinuteVals[j]))
      decreases b - m
    {
      minuteVals[m] := v;
      setMinuteVals[m] := true;
      m := m + 1;
    }
    assert forall j :: 0 <= j < MinutesInDay ==> minuteVals[..][j] == Fill(old(minuteVals[..]), a, b, v)[j];
    assert forall j :: 0 <= j < MinutesInDay ==> setMinuteVals[..][j] == Fill(old(setMinuteVals[..]), a, b, true)[j];
  }

  /** Whether some minute a..b is already set. */
  method AnySetBetween(setMinuteVals: array<bool>, a: int, b: int) returns (found: bool)
    requires 0 <= a <= b + 1 && b < setMinuteVals.Length
    ensures found <==> exists m :: a <= m <= b && 0 <= m < setMinuteVals.Length && setMinuteVals[m]
  {
    var m := a;
    while m <= b
      invariant a <= m <= b + 1
      invariant forall j :: a <= j < m ==> !setMinuteVals[j]
      decreases b - m
    {
      if setMinuteVals[m] {
        return true;
      }
      m := m + 1;
    }
    return false;
  }

  predicate CursorOk(c: Cursor)
  {
    0 <= c.begHr <= HoursInDay && 0 <= c.begMin < MinutesInHour
    && -1 <= c.endHr < HoursInDay && -1 <= c.endMin < MinutesInHour
  }

  /** Once the loop stops, later fields change nothing. */
  lemma {:induction false} RunStays(untils: seq<UntilField>, numbers: seq<real>, k: nat, n: nat)
    requires k <= n <= |untils| && n <= |numbers|
    requires Run(false, untils, numbers, k).stopped
    ensures Run(false, untils, numbers, n) == Run(false, untils, numbers, k)
    decreases n
  {
    if n > k {
      RunStays(untils, numbers, k, n - 1);
    }
  }

  /** One field, on the arrays; the state it leaves is FieldStep's. */
  method ApplyField(f: UntilField, v: real, cur: Cursor, errorsIn: bool,
                    minuteVals: array<real>, setMinuteVals: array<bool>)
    returns (next: Cursor, error: bool, stop: bool)
    requires minuteVals.Length == MinutesInDay && setMinuteVals.Length == MinutesInDay
    requires CursorOk(cur)
    modifies minuteVals, setMinuteVals
    ensures CursorOk(next)
    ensures FieldStep(false, DayFill(cur, old(minuteVals[..]), old(setMinuteVals[..]), errorsIn, false), f, v)
            == DayFill(next, minuteVals[..], setMinuteVals[..], error, stop)
  {
    next, error, stop := cur, errorsIn, false;
    if f.UntilNotFirst? {
      error := true;
      return;
    }
    var hh, mm := f.hh, f.mm;
    if hh < 0 || hh > HoursInDay || mm < 0 || mm > MinutesInHour - 1 {
      error := true;
      return;
    }
    if hh == HoursInDay && 0 < mm < MinutesInHour {
      mm := 0;
    }
    if mm == 0 {
      next := next.(endHr := hh - 1, endMin := MinutesInHour - 1);
    } else {
      next := next.(endHr := hh, endMin := mm - 1);
    }
    if next.begHr > next.endHr {
      if !(next.begHr == next.endHr + 1 && next.begMin == 0 && next.endMin == MinutesInHour - 1) {
        error := true;
      }
    } else if next.begHr == next.endHr {
      if next.endMin < next.begMin - 1 {
        error := true;
        return;
      }
      var touched := AnySetBetween(setMinuteVals, Beg(next), End(next));
      if touched {
        error, stop := true, true;
        return;
      }
      FillMinutes(minuteVals, setMinuteVals, Beg(next), End(next), v);
      next := Advance(next, next.begHr);
    } else {
      FillMinutes(minuteVals, setMinuteVals, Beg(next), End(next), v);
      next := Advance(next, next.endHr);
    }
  }

  /**
   * ProcessIntervalFields without linear interpolation: every minute of an
   * interval gets that interval's value.  The result says whether this call
   * found an error (the source ors it into the caller's flag).
   */
  method ProcessIntervalFields(untils: seq<UntilField>, numbers: seq<real>,
                               minuteVals: array<real>, setMinuteVals: array<bool>)
    returns (errorsFound: bool)
    requires minuteVals.Length == MinutesInDay && setMinuteVals.Length == MinutesInDay
    modifies minuteVals, setMinuteVals
    ensures ProcessedDay(untils, numbers) == DayResult(minuteVals[..], setMinuteVals[..], errorsFound)
  {
    for i := 0 to MinutesInDay
      invariant forall j :: 0 <= j < i ==> minuteVals[j] == 0.0 && !setMinuteVals[j]
    {
      minuteVals[i] := 0.0;
      setMinuteVals[i] := false;
    }
    assert minuteVals[..] == Initial().vals && setMinuteVals[..] == Initial().isSet;
    errorsFound := false;
    if |untils| != |numbers| {
      errorsFound := true;
      return;
    }
    var cur := Cursor(0, 0, -1, -1);
    var k := 0;
    var stopped := false;
    while k < |untils| && !stopped
      invariant k <= |untils|
      invariant CursorOk(cur)
      invariant Run(false, untils, numbers, k) == DayFill(cur, minuteVals[..], setMinuteVals[..], errorsFound, stopped)
      invariant stopped ==> Run(false, untils, numbers, |untils|) == Run(false, untils, numbers, k)
    {
      cur, errorsFound, stopped := ApplyField(untils[k], numbers[k], cur, errorsFound, minuteVals, setMinuteVals);
      k := k + 1;
      if stopped {
        RunStays(untils, numbers, k, |untils|);
      }
    }
    ghost var s := Run(false, untils, numbers, |untils|);
    assert s == DayFill(cur, minuteVals[..], setMinuteVals[..], errorsFound, stopped);
    ghost var runErrors := errorsFound;
    for m := 0 to MinutesInDay
      invariant errorsFound == (runErrors || exists j :: 0 <= j < m && !setMinuteVals[j])
    {
      if !setMinuteVals[m] {
        errorsFound := true;
      }
    }
  }
}

// ---------------------------------------------------------------------------
// What a day accepted by the corrected routine means.
// ---------------------------------------------------------------------------

module ScheduleIntervalsFacts {
  import opened ScheduleIntervals

  /** A field the routine can use: Until HH:MM with 0 <= HH <= 24, 0 <= MM <= 59. */
  predicate ValidUntil(f: UntilField)
  {
    f.Until? && 0 <= f.hh <= HoursInDay && 0 <= f.mm < MinutesInHour
  }

  /** The last minute of the day a field covers (24:MM counts as 24:00). */
  function UntilEnd(f: UntilField): int
  {
    match f
    case UntilNotFirst => -1
    case Until(hh, mm) => hh * MinutesInHour + (if hh == HoursInDay then 0 else mm) - 1
  }

  /** The first field, from j on, whose time is at or after minute m. */
  function FirstUntilAtOrAfter(untils: seq<UntilField>, m: int, j: nat): (r: nat)
    requires j <= |untils|
    ensures j <= r <= |untils|
    decreases |untils| - j
  {
    if j == |untils| then j
    else if UntilEnd(untils[j]) >= m then j
    else FirstUntilAtOrAfter(untils, m, j + 1)
  }

  /** Fields in ascending order of time, each usable, the last one 24:00. */
  predicate WellFormedDay(untils: seq<UntilField>)
  {
    |untils| > 0
    && (forall j :: 0 <= j < |untils| ==> ValidUntil(untils[j]))
    && (forall i, j :: 0 <= i < j < |untils| ==> UntilEnd(untils[i]) <= UntilEnd(untils[j]))
    && UntilEnd(untils[|untils| - 1]) == MinutesInDay - 1
  }

  /** The corrected fill never stops early and has set exactly the minutes before the cursor. */
  predicate Covers(s: DayFill)
  {
    CursorOk(s.cur) && !s.stopped && |s.vals| == MinutesInDay && |s.isSet| == MinutesInDay
    && forall m :: 0 <= m < MinutesInDay ==> (s.isSet[m] <==> m < Beg(s.cur))
  }

  lemma {:induction false} StepCovers(s: DayFill, f: UntilField, v: real)
    requires Covers(s)
    ensures Covers(FieldStep(false, s, f, v))
  {
  }

  lemma {:induction false} RunCovers(untils: seq<UntilField>, numbers: seq<real>, n: nat)
    requires n <= |untils| && n <= |numbers|
    ensures Covers(Run(false, untils, numbers, n))
  {
    if n > 0 {
      RunCovers(untils, numbers, n - 1);
      StepCovers(Run(false, untils, numbers, n - 1), untils[n - 1], numbers[n - 1]);
    }
  }

  /** A field the corrected step accepts is usable, starts no later than the
    * cursor and fills the minutes from the cursor to its time. */
  lemma {:induction false} StepWithoutError(s: DayFill, f: UntilField, v: real)
    requires Covers(s)
    requires !FieldStep(false, s, f, v).errors
    ensures ValidUntil(f) && Beg(s.cur) - 1 <= UntilEnd(f) < MinutesInDay
    ensures Beg(FieldStep(false, s, f, v).cur) == UntilEnd(f) + 1
    ensures FieldStep(false, s, f, v).vals == Fill(s.vals, Beg(s.cur), UntilEnd(f), v)
  {
  }

  /** A usable field at or after the cursor is accepted. */
  lemma {:induction false} StepAccepts(s: DayFill, f: UntilField, v: real)
    requires Covers(s) && !s.errors
    requires ValidUntil(f) && Beg(s.cur) - 1 <= UntilEnd(f)
    ensures !FieldStep(false, s, f, v).errors
    ensures Beg(FieldStep(false, s, f, v).cur) == UntilEnd(f) + 1
  {
  }

  lemma {:induction false} FirstUntilIs(untils: seq<UntilField>, m: int, k: nat, j: nat)
    requires j <= k < |untils|
    requires forall i :: j <= i < k ==> UntilEnd(untils[i]) < m
    requires UntilEnd(untils[k]) >= m
    ensures FirstUntilAtOrAfter(untils, m, j) == k
    decreases k - j
  {
    if j < k {
      FirstUntilIs(untils, m, k, j + 1);
    }
  }

  /** What an error-free run of the first n fields has done, in terms of the fields alone. */
  predicate Explains(untils: seq<UntilField>, numbers: seq<real>, n: nat, s: DayFill)
    requires n <= |untils| && n <= |numbers| && |s.vals| == MinutesInDay
  {
    (forall j :: 0 <= j < n ==> ValidUntil(untils[j]))
    && (forall i, j :: 0 <= i < j < n ==> UntilEnd(untils[i]) <= UntilEnd(untils[j]))
    && Beg(s.cur) == (if n == 0 then 0 else UntilEnd(untils[n - 1]) + 1)
    && forall m :: 0 <= m < Beg(s.cur) && m < MinutesInDay ==>
         FirstUntilAtOrAfter(untils, m, 0) < n && s.vals[m] == numbers[FirstUntilAtOrAfter(untils, m, 0)]
  }

  lemma {:induction false} ExplainsStep(untils: seq<UntilField>, numbers: seq<real>, n: nat, s: DayFill, r: DayFill)
    requires 0 < n <= |untils| && n <= |numbers| && |s.vals| == MinutesInDay && |r.vals| == MinutesInDay
    requires Explains(untils, numbers, n - 1, s)
    requires ValidUntil(untils[n - 1]) && Beg(s.cur) - 1 <= UntilEnd(untils[n - 1]) < MinutesInDay
    requires Beg(r.cur) == UntilEnd(untils[n - 1]) + 1
    requires r.vals == Fill(s.vals, Beg(s.cur), UntilEnd(untils[n - 1]), numbers[n - 1])
    ensures Explains(untils, numbers, n, r)
  {
    var b := Beg(s.cur);
    forall m | 0 <= m < Beg(r.cur) && m < MinutesInDay
      ensures FirstUntilAtOrAfter(untils, m, 0) < n && r.vals[m] == numbers[FirstUntilAtOrAfter(untils, m, 0)]
    {
      if m >= b {
        forall i | 0 <= i < n - 1
          ensures UntilEnd(untils[i]) < m
        {
          assert UntilEnd(untils[i]) <= UntilEnd(untils[n - 2]);
        }
        FirstUntilIs(untils, m, n - 1, 0);
      }
    }
    forall i, j | 0 <= i < j < n
      ensures UntilEnd(untils[i]) <= UntilEnd(untils[j])
    {
      if j == n - 1 && i < n - 2 {
        assert UntilEnd(untils[i]) <= UntilEnd(untils[n - 2]);
      }
    }
  }

  /** Everything an error-free run of the first n fields implies. */
  lemma {:induction false} RunWithoutError(untils: seq<UntilField>, numbers: seq<real>, n: nat)
    requires n <= |untils| && n <= |numbers|
    requires !Run(false, untils, numbers, n).errors
    ensures Covers(Run(false, untils, numbers, n))
    ensures Explains(untils, numbers, n, Run(false, untils, numbers, n))
  {
    RunCovers(untils, numbers, n);
    if n > 0 {
      var s := Run(false, untils, numbers, n - 1);
      RunCovers(untils, numbers, n - 1);
      RunWithoutError(untils, numbers, n - 1);
      StepWithoutError(s, untils[n - 1], numbers[n - 1]);
      ExplainsStep(untils, numbers, n, s, Run(false, untils, numbers, n));
    }
  }

  /**
   * An accepted day is well formed: its fields are usable, in ascending order
   * of time, and the last one ends the day at 24:00; and each minute holds
   * the value of the first field whose time is at or after it.
   */
  lemma {:induction false} AcceptedDayIsWellFormed(untils: seq<UntilField>, numbers: seq<real>)
    requires !ProcessedDay(untils, numbers).errors
    ensures |untils| == |numbers| && WellFormedDay(untils)
    ensures forall m :: 0 <= m < MinutesInDay ==>
              FirstUntilAtOrAfter(untils, m, 0) < |untils|
              && ProcessedDay(untils, numbers).vals[m] == numbers[FirstUntilAtOrAfter(untils, m, 0)]
  {
    var n := |untils|;
    var s := Run(false, untils, numbers, n);
    RunCovers(untils, numbers, n);
    RunWithoutError(untils, numbers, n);
    assert s.isSet[MinutesInDay - 1];
    if n > 0 {
      StepWithoutError(Run(false, untils, numbers, n - 1), untils[n - 1], numbers[n - 1]) by {
        RunCovers(untils, numbers, n - 1);
      }
    }
  }

  /** A well-formed day with one value per field is accepted. */
  lemma {:induction false} WellFormedDayAccepted(untils: seq<UntilField>, numbers: seq<real>)
    requires |untils| == |numbers| && WellFormedDay(untils)
    ensures !ProcessedDay(untils, numbers).errors
  {
    var n := |untils|;
    RunAccepts(untils, numbers, n);
    RunCovers(untils, numbers, n);
  }

  lemma {:induction false} RunAccepts(untils: seq<UntilField>, numbers: seq<real>, n: nat)
    requires n <= |untils| && n <= |numbers|
    requires forall j :: 0 <= j < n ==> ValidUntil(untils[j])
    requires forall i, j :: 0 <= i < j < n ==> UntilEnd(untils[i]) <= UntilEnd(untils[j])
    ensures !Run(false, untils, numbers, n).errors
    ensures Beg(Run(false, untils, numbers, n).cur) == if n == 0 then 0 else UntilEnd(untils[n - 1]) + 1
  {
    if n > 0 {
      var s := Run(false, untils, numbers, n - 1);
      assert Covers(s) && !s.errors && Beg(s.cur) - 1 <= UntilEnd(untils[n - 1]) by {
        RunAccepts(untils, numbers, n - 1);
        RunCovers(untils, numbers, n - 1);
        if n > 1 {
          assert UntilEnd(untils[n - 2]) <= UntilEnd(untils[n - 1]);
        }
      }
      assert Run(false, untils, numbers, n) == FieldStep(false, s, untils[n - 1], numbers[n - 1]);
      StepAccepts(s, untils[n - 1], numbers[n - 1]);
    }
  }

  /**
   * Until HH:60 as written: the minute passes the range check (which rejects
   * only minutes above 60), but neither end-time branch takes it, so the
   * field reuses the previous interval's end.  "Until 08:00 = 1,
   * Until 10:60 = 2, Until 24:00 = 3" is accepted with no error, value 2 is
   * dropped and 09:00 holds 3.
   */
  lemma HourSixtyAsWrittenDropsInterval()
    ensures var d := ProcessedDayAsWritten([Until(8, 0), Until(10, 60), Until(24, 0)], [1.0, 2.0, 3.0]);
            !d.errors && d.vals[9 * MinutesInHour] == 3.0
  {
    var u, x := [Until(8, 0), Until(10, 60), Until(24, 0)], [1.0, 2.0, 3.0];
    var s1 := Run(true, u, x, 1);
    assert s1.cur == Cursor(8, 0, 7, 59);
    var s2 := Run(true, u, x, 2);
    assert s2 == s1;
    var s3 := Run(true, u, x, 3);
    assert forall m :: 0 <= m < MinutesInDay ==> s3.isSet[m];
  }

  /** Corrected: a field naming minute 60 makes the day an error. */
  lemma {:induction false} HourSixtyRejected(untils: seq<UntilField>, numbers: seq<real>, k: nat)
    requires k < |untils| && untils[k].Until? && untils[k].mm == MinutesInHour
    ensures ProcessedDay(untils, numbers).errors
  {
    if !ProcessedDay(untils, numbers).errors {
      AcceptedDayIsWellFormed(untils, numbers);
    }
  }

  /**
   * A same-hour field ending before the cursor, as written: "Until 10:30 = 1,
   * Until 10:15 = 2, Until 24:00 = 3" is accepted with no error; the second
   * field moves the cursor back to 10:15 and the third overwrites 10:15-10:29,
   * so 10:20 holds 3 although the first field ending at or after it is the
   * first one.
   */
  lemma BackwardUntilAsWrittenOverwrites()
    ensures var d := ProcessedDayAsWritten([Until(10, 30), Until(10, 15), Until(24, 0)], [1.0, 2.0, 3.0]);
            !d.errors && d.vals[10 * MinutesInHour + 20] == 3.0
            && FirstUntilAtOrAfter([Until(10, 30), Until(10, 15), Until(24, 0)], 10 * MinutesInHour + 20, 0) == 0
  {
    var u, x := [Until(10, 30), Until(10, 15), Until(24, 0)], [1.0, 2.0, 3.0];
    var s1 := Run(true, u, x, 1);
    assert s1.cur == Cursor(10, 30, 10, 29);
    var s2 := Run(true, u, x, 2);
    assert s2.cur == Cursor(10, 15, 10, 14);
    var s3 := Run(true, u, x, 3);
    assert forall m :: 0 <= m < MinutesInDay ==> s3.isSet[m];
  }

  /** Corrected: a field ending before an earlier one makes the day an error. */
  lemma {:induction false} BackwardUntilRejected(untils: seq<UntilField>, numbers: seq<real>, i: nat, j: nat)
    requires i < j < |untils| && UntilEnd(untils[j]) < UntilEnd(untils[i])
    ensures ProcessedDay(untils, numbers).errors
  {
    if !ProcessedDay(untils, numbers).errors {
      AcceptedDayIsWellFormed(untils, numbers);
    }
  }
}

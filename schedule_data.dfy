/**
 * The values the schedule manager stores and the pure rules it reads them by:
 * the day-type numbering, the three kinds of schedule record, the moment a
 * lookup resolves to (daylight saving may push hour 24 into the next day),
 * the timestep index within a day, and the minimum and maximum of a day's
 * values.
 *
 * A schedule refers to its week schedules, and a week schedule to its day
 * schedules, by their position in the registry's lists; -1 stands for a
 * missing reference.
 */
module ScheduleData {
  import opened Wrappers

  const SchedNumInvalid := -1
  const SchedNumAlwaysOff := 0
  const SchedNumAlwaysOn := 1

  const HoursInDay := 24
  const MinutesInHour := 60
  /** Week-schedule slots of a year schedule: slot 0 is unused, then days 1 .. 366. */
  const YearSlots := 367
  /** Day-type slots of a week schedule: slot 0 is unused, then the 12 day types. */
  const DayTypeNum := 13

  /** The day types, in the order of their numbers (Invalid, -1, is the absence of one). */
  datatype DayType =
    | Unused | Sunday | Monday | Tuesday | Wednesday | Thursday | Friday | Saturday
    | Holiday | SummerDesignDay | WinterDesignDay | CustomDay1 | CustomDay2

  function DayTypeIndex(d: DayType): (r: int)
    ensures 0 <= r < DayTypeNum
    ensures r == 0 <==> d == Unused
  {
    match d
    case Unused => 0
    case Sunday => 1
    case Monday => 2
    case Tuesday => 3
    case Wednesday => 4
    case Thursday => 5
    case Friday => 6
    case Saturday => 7
    case Holiday => 8
    case SummerDesignDay => 9
    case WinterDesignDay => 10
    case CustomDay1 => 11
    case CustomDay2 => 12
  }

  /** The day type numbered i, or None for -1 (Invalid) and any other number. */
  function DayTypeOf(i: int): (r: Option<DayType>)
    ensures r.Some? <==> 0 <= i < DayTypeNum
  {
    if i == 0 then Some(Unused)
    else if i == 1 then Some(Sunday)
    else if i == 2 then Some(Monday)
    else if i == 3 then Some(Tuesday)
    else if i == 4 then Some(Wednesday)
    else if i == 5 then Some(Thursday)
    else if i == 6 then Some(Friday)
    else if i == 7 then Some(Saturday)
    else if i == 8 then Some(Holiday)
    else if i == 9 then Some(SummerDesignDay)
    else if i == 10 then Some(WinterDesignDay)
    else if i == 11 then Some(CustomDay1)
    else if i == 12 then Some(CustomDay2)
    else None
  }

  /** Day types and their numbers convert both ways. */
  lemma DayTypeRoundTrip(d: DayType, i: int)
    ensures DayTypeOf(DayTypeIndex(d)) == Some(d)
    ensures 0 <= i < DayTypeNum ==> DayTypeIndex(DayTypeOf(i).value) == i
  {
  }

  /** A day schedule: one value per timestep of the day. */
  datatype DaySchedule = DaySchedule(
    name: string, num: int, isUsed: bool,
    tsVals: seq<real>, sumTsVals: real,
    minVal: real, maxVal: real, isMinMaxSet: bool)

  /** A week schedule: a day schedule per day type (slots 0 .. 12). */
  datatype WeekSchedule = WeekSchedule(
    name: string, num: int, isUsed: bool,
    dayScheds: seq<int>,
    minVal: real, maxVal: real, isMinMaxSet: bool)

  /** One of the day types 1 .. upTo - 1 of a week names day schedule d. */
  predicate NamesDay(ds: seq<int>, upTo: int, d: int)
  {
    exists k :: 1 <= k < upTo && k < |ds| && ds[k] == d
  }

  /** A constant schedule, or a detailed one with a week schedule per day of the year (slots 0 .. 366). */
  datatype SchedKind =
    | Constant
    | Detailed(weekScheds: seq<int>, useDaylightSaving: bool)

  datatype Schedule = Schedule(
    name: string, num: int, isUsed: bool, kind: SchedKind,
    emsActuatedOn: bool, emsVal: real, currentVal: real,
    minVal: real, maxVal: real, isMinMaxSet: bool)

  /** A schedule type limits object. */
  datatype ScheduleType = ScheduleType(
    name: string, num: int, isLimited: bool, minVal: real, maxVal: real, isReal: bool)

  /** The schedule's value this timestep: the EMS override when actuated. */
  function CurrentVal(s: Schedule): (r: real)
    ensures s.emsActuatedOn ==> r == s.emsVal
    ensures !s.emsActuatedOn ==> r == s.currentVal
  {
    if s.emsActuatedOn then s.emsVal else s.currentVal
  }

  /** What the environment says about today and tomorrow when a value is looked up. */
  datatype Env = Env(
    dstIndicator: int, dayOfYear: int, dayOfWeek: int, holidayIndex: int,
    dayOfWeekTomorrow: int, holidayIndexTomorrow: int)

  /** The day of the year, day type and hour (1 .. 24) a lookup reads. */
  datatype Moment = Moment(dayOfYear: int, dayType: int, hour: int)

  /**
   * The hour is shifted by daylight saving when the schedule honours it; an
   * hour past 24 belongs to the next day, with tomorrow's weekday and holiday,
   * and the day after day 366 is day 1.  A holiday takes the place of the
   * weekday.
   */
  function ResolveMoment(hr: int, useDaylightSaving: bool, env: Env): Moment
  {
    var thisHr := hr + env.dstIndicator * (if useDaylightSaving then 1 else 0);
    var next := thisHr > HoursInDay;
    var day := if next then env.dayOfYear + 1 else env.dayOfYear;
    var weekday := if next then env.dayOfWeekTomorrow else env.dayOfWeek;
    var holiday := if next then env.holidayIndexTomorrow else env.holidayIndex;
    Moment(
      if day == YearSlots then 1 else day,
      if holiday > 0 then holiday else weekday,
      if next then thisHr - HoursInDay else thisHr)
  }

  /**
   * For an hour 1 .. 24 on a day 1 .. 366, the lookup stays on that day unless
   * daylight saving pushes hour 24 into the next one, which it enters at hour 1.
   */
  lemma {:induction false} MomentFacts(hr: int, useDaylightSaving: bool, env: Env)
    requires 1 <= hr <= HoursInDay && 1 <= env.dayOfYear < YearSlots
    requires env.dstIndicator == 0 || env.dstIndicator == 1
    ensures var m := ResolveMoment(hr, useDaylightSaving, env);
            var rolled := hr == HoursInDay && env.dstIndicator == 1 && useDaylightSaving;
            1 <= m.hour <= HoursInDay && 1 <= m.dayOfYear < YearSlots
            && (rolled ==> m.hour == 1 && m.dayOfYear == env.dayOfYear % (YearSlots - 1) + 1)
            && (!rolled ==> m.dayOfYear == env.dayOfYear
                            && m.hour == hr + (if useDaylightSaving then env.dstIndicator else 0))
            && (m.dayOfYear != env.dayOfYear <==> rolled)
  {
    if useDaylightSaving && env.dstIndicator == 1 {
      assert hr + env.dstIndicator * 1 == hr + 1;
    } else {
      assert hr + env.dstIndicator * (if useDaylightSaving then 1 else 0) == hr + (if useDaylightSaving then env.dstIndicator else 0);
    }
  }

  /** The timestep an unspecified (zero or negative) timestep stands for: the last of the hour. */
  function EffectiveTs(ts: int, timeStepsInHour: nat): (r: int)
    ensures ts <= 0 ==> r == timeStepsInHour
    ensures ts > 0 ==> r == ts
    ensures 1 <= timeStepsInHour && ts <= timeStepsInHour ==> 1 <= r <= timeStepsInHour
  {
    if ts <= 0 then timeStepsInHour else ts
  }

  /** Position of timestep ts (1-based) of hour hr (1-based) in a day's values. */
  function TsIndex(hr: int, ts: int, timeStepsInHour: nat): int
  {
    (hr - 1) * timeStepsInHour + (ts - 1)
  }

  /** Multiplying by a non-negative n keeps the order. */
  lemma {:induction false} MulMono(a: int, b: int, n: nat)
    requires a <= b
    ensures a * n <= b * n
    decreases b - a
  {
    if a < b {
      MulMono(a + 1, b, n);
      assert (a + 1) * n == a * n + n;
    }
  }

  /**
   * Hours 1 .. 24 and timesteps 1 .. TS map one-to-one onto the positions
   * 0 .. 24 * TS - 1 of a day's values: every position is reached, and by
   * only one hour and timestep.
   */
  lemma {:induction false} TsIndexRoundTrip(hr: int, ts: int, timeStepsInHour: nat)
    requires 1 <= hr <= HoursInDay && 1 <= ts <= timeStepsInHour
    ensures 0 <= TsIndex(hr, ts, timeStepsInHour) < HoursInDay * timeStepsInHour
    ensures forall hr2, ts2 ::
              (1 <= hr2 <= HoursInDay && 1 <= ts2 <= timeStepsInHour
               && TsIndex(hr2, ts2, timeStepsInHour) == TsIndex(hr, ts, timeStepsInHour)) ==> hr2 == hr && ts2 == ts
  {
    var n := timeStepsInHour;
    MulMono(0, hr - 1, n);
    MulMono(hr, HoursInDay, n);
    assert hr * n == (hr - 1) * n + n;
    forall hr2, ts2 | 1 <= hr2 <= HoursInDay && 1 <= ts2 <= n && TsIndex(hr2, ts2, n) == TsIndex(hr, ts, n)
      ensures hr2 == hr && ts2 == ts
    {
      if hr2 > hr {
        MulMono(hr, hr2 - 1, n);
      } else if hr2 < hr {
        MulMono(hr2, hr - 1, n);
      }
    }
  }

  /** The quotient and remainder of q * n + r by n, for 0 <= r < n, are q and r. */
  lemma {:induction false} DivModUnique(k: int, q: int, r: int, n: int)
    requires n > 0 && 0 <= r < n && k == q * n + r
    ensures k / n == q && k % n == r
  {
    var q', r' := k / n, k % n;
    assert k == q' * n + r' && 0 <= r' < n;
    if q' > q {
      assert (q + 1) * n == q * n + n;
      MulMono(q + 1, q', n);
    } else if q' < q {
      assert (q' + 1) * n == q' * n + n;
      MulMono(q' + 1, q, n);
    }
  }

  /** Every position of a day's values is some hour's timestep. */
  lemma {:induction false} TsIndexOnto(k: int, timeStepsInHour: nat)
    requires 0 <= k < HoursInDay * timeStepsInHour
    ensures 1 <= k / timeStepsInHour + 1 <= HoursInDay && 1 <= k % timeStepsInHour + 1 <= timeStepsInHour
    ensures TsIndex(k / timeStepsInHour + 1, k % timeStepsInHour + 1, timeStepsInHour) == k
  {
  }

  /**
   * The minute of the day (counting from 0) whose value timestep ts of hour
   * hr (both counting from 1) takes when a day is sampled without
   * interpolation: the last minute of the timestep.
   */
  function SampleMinute(hr: int, ts: int, minutesInTimeStep: nat): int
  {
    (hr - 1) * MinutesInHour + ts * minutesInTimeStep - 1
  }

  /**
   * When the timesteps divide the hour, the sampled minute lies inside its
   * own timestep, and the last timestep of an hour samples the hour's last
   * minute.
   */
  lemma {:induction false} SampleMinuteInTimestep(hr: int, ts: int, timeStepsInHour: nat, minutesInTimeStep: nat)
    requires 1 <= hr <= HoursInDay && 1 <= ts <= timeStepsInHour
    requires timeStepsInHour * minutesInTimeStep == MinutesInHour
    ensures (hr - 1) * MinutesInHour + (ts - 1) * minutesInTimeStep <= SampleMinute(hr, ts, minutesInTimeStep)
    ensures SampleMinute(hr, ts, minutesInTimeStep) < (hr - 1) * MinutesInHour + ts * minutesInTimeStep
    ensures 0 <= SampleMinute(hr, ts, minutesInTimeStep) < HoursInDay * MinutesInHour
    ensures ts == timeStepsInHour ==> SampleMinute(hr, ts, minutesInTimeStep) == hr * MinutesInHour - 1
  {
    MulMono(ts, timeStepsInHour, minutesInTimeStep);
    MulMono(1, ts, minutesInTimeStep);
    assert ts * minutesInTimeStep == (ts - 1) * minutesInTimeStep + minutesInTimeStep;
  }

  /** The smallest of a non-empty sequence of values. */
  function SeqMin(s: seq<real>): real
    requires |s| > 0
  {
    if |s| == 1 then s[0]
    else
      var m := SeqMin(s[..|s| - 1]);
      if s[|s| - 1] < m then s[|s| - 1] else m
  }

  /** The largest of a non-empty sequence of values. */
  function SeqMax(s: seq<real>): real
    requires |s| > 0
  {
    if |s| == 1 then s[0]
    else
      var m := SeqMax(s[..|s| - 1]);
      if s[|s| - 1] > m then s[|s| - 1] else m
  }

  /** SeqMin and SeqMax bound every value and are values of the sequence. */
  lemma {:induction false} SeqMinMaxBounds(s: seq<real>)
    requires |s| > 0
    ensures forall i :: 0 <= i < |s| ==> SeqMin(s) <= s[i] <= SeqMax(s)
    ensures SeqMin(s) in s && SeqMax(s) in s
  {
    if |s| > 1 {
      var p := s[..|s| - 1];
      SeqMinMaxBounds(p);
      assert forall i :: 0 <= i < |p| ==> p[i] == s[i];
      assert SeqMin(p) in s && SeqMax(p) in s;
    }
  }

  /** The last value of a sequence lies between its minimum and its maximum. */
  lemma SeqMinMaxLast(s: seq<real>)
    requires |s| > 0
    ensures SeqMin(s) <= s[|s| - 1] <= SeqMax(s)
  {
  }

  /** The minimum and maximum of a longer prefix take in its last value. */
  lemma SeqMinMaxSnoc(s: seq<real>, k: nat)
    requires 1 <= k < |s|
    ensures SeqMin(s[..k + 1]) == (if s[k] < SeqMin(s[..k]) then s[k] else SeqMin(s[..k]))
    ensures SeqMax(s[..k + 1]) == (if s[k] > SeqMax(s[..k]) then s[k] else SeqMax(s[..k]))
  {
    assert s[..k + 1][..k] == s[..k];
  }

  /** A prefix that grows by repeating its last value keeps its minimum and maximum. */
  lemma SeqMinMaxRepeat(s: seq<real>, k: nat)
    requires 1 <= k < |s| && s[k] == s[k - 1]
    ensures SeqMin(s[..k + 1]) == SeqMin(s[..k]) && SeqMax(s[..k + 1]) == SeqMax(s[..k])
  {
    SeqMinMaxSnoc(s, k);
    SeqMinMaxLast(s[..k]);
    assert s[..k][k - 1] == s[k - 1];
  }

  /** Sum of a sequence of values. */
  function SeqSum(s: seq<real>): real
  {
    if s == [] then 0.0 else SeqSum(s[..|s| - 1]) + s[|s| - 1]
  }
}

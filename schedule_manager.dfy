/**
 * The schedule manager's registry: the lists of schedule types, schedules,
 * week schedules and day schedules with their name maps, the operations that
 * add to them, clear them and look them up by name, and the value lookups
 * and summaries the rest of the program asks of a schedule.
 *
 * The number of timesteps per hour, the timestep length and the calendar
 * (daylight saving, day of year, weekday, holiday) are set outside the
 * schedule manager; they arrive here as a constant of the registry and as
 * parameters.
 */
module ScheduleManager {
  import opened Wrappers
  import opened ScheduleData
  import IdfParser
  import opened ScheduleSummaries

  /** A schedule record and its number; a detailed schedule's slots name existing week schedules or -1. */
  predicate ScheduleOk(s: Schedule, i: int, nWeeks: int)
  {
    s.num == i
    && (s.kind.Detailed? ==>
          |s.kind.weekScheds| == YearSlots
          && forall d :: 0 <= d < YearSlots ==> -1 <= s.kind.weekScheds[d] < nWeeks)
  }

  predicate WeekOk(w: WeekSchedule, i: int, nDays: int)
  {
    w.num == i
    && |w.dayScheds| == DayTypeNum
    && forall k :: 0 <= k < DayTypeNum ==> -1 <= w.dayScheds[k] < nDays
  }

  predicate DayOk(d: DaySchedule, i: int, timeStepsInHour: nat)
  {
    d.num == i && |d.tsVals| == HoursInDay * timeStepsInHour
  }

  predicate MapInto(m: map<string, int>, n: int)
  {
    forall k :: k in m ==> 0 <= m[k] < n
  }

  /** A fresh detailed schedule: every day slot still empty, daylight saving honoured. */
  function NewDetailed(): SchedKind
  {
    Detailed(seq(YearSlots, _ => -1), true)
  }

  /** Some day slot in 1 .. upTo - 1 names week w. */
  predicate WeekReached(ws: seq<int>, upTo: int, w: int)
  {
    exists day :: 1 <= day < upTo && day < |ws| && ws[day] == w
  }

  /** Some day slot in 1 .. upTo - 1 names a week, unused before, that holds day schedule d. */
  predicate DayReached(ws: seq<int>, weeks: seq<WeekSchedule>, upTo: int, d: int)
  {
    exists day :: 1 <= day < upTo && day < |ws| && 0 <= ws[day] < |weeks|
                  && !weeks[ws[day]].isUsed && NamesDay(weeks[ws[day]].dayScheds, DayTypeNum, d)
  }

  /** Caching minima and maxima along a year's walk leaves every week and day record well formed. */
  lemma {:induction false} WalkKeepsRecordsOk(ws: seq<int>, weeks0: seq<WeekSchedule>, days0: seq<DaySchedule>,
                                              weeks: seq<WeekSchedule>, days: seq<DaySchedule>, timeStepsInHour: nat)
    requires DaysHaveVals(days0) && YearWalked(ws, weeks0, days0, YearSlots, weeks, days)
    requires forall i :: 0 <= i < |weeks0| ==> WeekOk(weeks0[i], i, |days0|)
    requires forall i :: 0 <= i < |days0| ==> DayOk(days0[i], i, timeStepsInHour)
    ensures forall i :: 0 <= i < |weeks| ==> WeekOk(weeks[i], i, |days|)
    ensures forall i :: 0 <= i < |days| ==> DayOk(days[i], i, timeStepsInHour)
  {
    forall i | 0 <= i < |weeks|
      ensures WeekOk(weeks[i], i, |days|)
    {
      assert weeks[i] == SettledWeek(weeks0, days0, i) || weeks[i] == weeks0[i];
    }
    forall i | 0 <= i < |days|
      ensures DayOk(days[i], i, timeStepsInHour)
    {
      assert days[i] == SettledDay(days0[i]) || days[i] == days0[i];
    }
  }

  /** Overwrites each timestep value of a day, hour by hour, with `value`. */
  method FillTimesteps(vals0: seq<real>, value: real, timeStepsInHour: nat) returns (vals: seq<real>)
    requires |vals0| == HoursInDay * timeStepsInHour
    ensures vals == seq(HoursInDay * timeStepsInHour, _ => value)
  {
    vals := vals0;
    ghost var k := 0;
    for hr := 0 to HoursInDay
      invariant k == hr * timeStepsInHour && |vals| == HoursInDay * timeStepsInHour
      invariant forall j :: 0 <= j < |vals| ==> vals[j] == if j < k then value else vals0[j]
    {
      MulMono(hr + 1, HoursInDay, timeStepsInHour);
      for ts := 0 to timeStepsInHour
        invariant k == hr * timeStepsInHour + ts && |vals| == HoursInDay * timeStepsInHour
        invariant forall j :: 0 <= j < |vals| ==> vals[j] == if j < k then value else vals0[j]
      {
        vals := vals[hr * timeStepsInHour + ts := value];
        k := k + 1;
      }
    }
  }

  /**
   * The value position k of a day takes when sampled from minute values
   * without interpolation: the value of the last minute of its timestep.
   */
  function SampleAt(minuteVals: seq<real>, k: int, timeStepsInHour: nat, minutesInTimeStep: nat): real
    requires |minuteVals| == HoursInDay * MinutesInHour && timeStepsInHour * minutesInTimeStep == MinutesInHour
    requires 0 <= k < HoursInDay * timeStepsInHour
  {
    TsIndexOnto(k, timeStepsInHour);
    SampleMinuteInTimestep(k / timeStepsInHour + 1, k % timeStepsInHour + 1, timeStepsInHour, minutesInTimeStep);
    minuteVals[SampleMinute(k / timeStepsInHour + 1, k % timeStepsInHour + 1, minutesInTimeStep)]
  }

  /** Timestep ts of hour hr (both from 1) is sampled at its last minute. */
  lemma {:induction false} SampleAtTimestep(minuteVals: seq<real>, hr: int, ts: int,
                                            timeStepsInHour: nat, minutesInTimeStep: nat)
    requires |minuteVals| == HoursInDay * MinutesInHour && timeStepsInHour * minutesInTimeStep == MinutesInHour
    requires 1 <= hr <= HoursInDay && 1 <= ts <= timeStepsInHour
    ensures 0 <= TsIndex(hr, ts, timeStepsInHour) < HoursInDay * timeStepsInHour
    ensures 0 <= SampleMinute(hr, ts, minutesInTimeStep) < HoursInDay * MinutesInHour
    ensures SampleAt(minuteVals, TsIndex(hr, ts, timeStepsInHour), timeStepsInHour, minutesInTimeStep)
            == minuteVals[SampleMinute(hr, ts, minutesInTimeStep)]
  {
    TsIndexRoundTrip(hr, ts, timeStepsInHour);
    SampleMinuteInTimestep(hr, ts, timeStepsInHour, minutesInTimeStep);
    DivModUnique(TsIndex(hr, ts, timeStepsInHour), hr - 1, ts - 1, timeStepsInHour);
  }

  /** The timestep values populateFromMinuteVals gives a day without interpolation. */
  function SampledDay(minuteVals: seq<real>, timeStepsInHour: nat, minutesInTimeStep: nat): (r: seq<real>)
    requires |minuteVals| == HoursInDay * MinutesInHour && timeStepsInHour * minutesInTimeStep == MinutesInHour
    ensures |r| == HoursInDay * timeStepsInHour
  {
    seq(HoursInDay * timeStepsInHour,
        k requires 0 <= k < HoursInDay * timeStepsInHour => SampleAt(minuteVals, k, timeStepsInHour, minutesInTimeStep))
  }

  /**
   * The last timestep of each hour takes the value of the hour's last minute,
   * and every timestep a value from one of its own minutes.
   */
  lemma {:induction false} SampledDayReadsOwnMinutes(minuteVals: seq<real>, hr: int, ts: int,
                                                     timeStepsInHour: nat, minutesInTimeStep: nat)
    requires |minuteVals| == HoursInDay * MinutesInHour && timeStepsInHour * minutesInTimeStep == MinutesInHour
    requires 1 <= hr <= HoursInDay && 1 <= ts <= timeStepsInHour
    ensures 0 <= TsIndex(hr, ts, timeStepsInHour) < HoursInDay * timeStepsInHour
    ensures exists m :: (hr - 1) * MinutesInHour + (ts - 1) * minutesInTimeStep <= m < (hr - 1) * MinutesInHour + ts * minutesInTimeStep
                        && 0 <= m < |minuteVals|
                        && SampledDay(minuteVals, timeStepsInHour, minutesInTimeStep)[TsIndex(hr, ts, timeStepsInHour)] == minuteVals[m]
    ensures ts == timeStepsInHour ==>
              SampledDay(minuteVals, timeStepsInHour, minutesInTimeStep)[TsIndex(hr, ts, timeStepsInHour)]
              == minuteVals[hr * MinutesInHour - 1]
  {
    SampleAtTimestep(minuteVals, hr, ts, timeStepsInHour, minutesInTimeStep);
    SampleMinuteInTimestep(hr, ts, timeStepsInHour, minutesInTimeStep);
    var m := SampleMinute(hr, ts, minutesInTimeStep);
    assert SampledDay(minuteVals, timeStepsInHour, minutesInTimeStep)[TsIndex(hr, ts, timeStepsInHour)] == minuteVals[m];
  }

  /** A day whose minutes all hold one value samples to that value at every timestep, as the external interface writes it. */
  lemma {:induction false} SampledConstantDay(minuteVals: seq<real>, value: real, timeStepsInHour: nat, minutesInTimeStep: nat)
    requires |minuteVals| == HoursInDay * MinutesInHour && timeStepsInHour * minutesInTimeStep == MinutesInHour
    requires forall i :: 0 <= i < |minuteVals| ==> minuteVals[i] == value
    ensures SampledDay(minuteVals, timeStepsInHour, minutesInTimeStep) == seq(HoursInDay * timeStepsInHour, _ => value)
  {
    var r := SampledDay(minuteVals, timeStepsInHour, minutesInTimeStep);
    forall k | 0 <= k < |r|
      ensures r[k] == value
    {
      TsIndexOnto(k, timeStepsInHour);
      SampleMinuteInTimestep(k / timeStepsInHour + 1, k % timeStepsInHour + 1, timeStepsInHour, minutesInTimeStep);
    }
  }

  /** One timestep of populateFromMinuteVals's sampling loop: position k is timestep ts of hour hr (both from 0). */
  method SampleStep(vals0: seq<real>, minuteVals: seq<real>, timeStepsInHour: nat, minutesInTimeStep: nat,
                    ghost k: int, hr: int, ts: int, endMinute: int, added0: real)
    returns (vals: seq<real>, added: real)
    requires |vals0| == HoursInDay * timeStepsInHour && |minuteVals| == HoursInDay * MinutesInHour
    requires timeStepsInHour * minutesInTimeStep == MinutesInHour
    requires 0 <= hr < HoursInDay && 0 <= ts < timeStepsInHour && k == hr * timeStepsInHour + ts && k < |vals0|
    requires endMinute == (ts + 1) * minutesInTimeStep - 1
    requires forall j :: 0 <= j < k ==> vals0[j] == SampleAt(minuteVals, j, timeStepsInHour, minutesInTimeStep)
    requires added0 == SeqSum(vals0[..k])
    ensures |vals| == |vals0|
    ensures forall j :: 0 <= j < k + 1 ==> vals[j] == SampleAt(minuteVals, j, timeStepsInHour, minutesInTimeStep)
    ensures added == SeqSum(vals[..k + 1])
  {
    SampleAtTimestep(minuteVals, hr + 1, ts + 1, timeStepsInHour, minutesInTimeStep);
    var i := hr * timeStepsInHour + ts;
    vals := vals0[i := minuteVals[hr * MinutesInHour + endMinute]];
    added := added0 + vals[i];
    assert vals[..k + 1][..k] == vals[..k] == vals0[..k];
  }

  /** The timesteps of hour hr (from 0) of populateFromMinuteVals's sampling loop; k is the hour's first position. */
  method SampleHour(vals0: seq<real>, minuteVals: seq<real>, timeStepsInHour: nat, minutesInTimeStep: nat,
                    hr: int, ghost k: int, added0: real)
    returns (vals: seq<real>, added: real)
    requires |vals0| == HoursInDay * timeStepsInHour && |minuteVals| == HoursInDay * MinutesInHour
    requires timeStepsInHour * minutesInTimeStep == MinutesInHour
    requires 0 <= hr < HoursInDay && k == hr * timeStepsInHour && 0 <= k && k + timeStepsInHour <= |vals0|
    requires forall j :: 0 <= j < k ==> vals0[j] == SampleAt(minuteVals, j, timeStepsInHour, minutesInTimeStep)
    requires added0 == SeqSum(vals0[..k])
    ensures |vals| == |vals0|
    ensures forall j :: 0 <= j < k + timeStepsInHour ==> vals[j] == SampleAt(minuteVals, j, timeStepsInHour, minutesInTimeStep)
    ensures added == SeqSum(vals[..k + timeStepsInHour])
  {
    vals, added := vals0, added0;
    var endMinute := minutesInTimeStep - 1;
    for ts := 0 to timeStepsInHour
      invariant |vals| == |vals0|
      invariant endMinute == (ts + 1) * minutesInTimeStep - 1
      invariant forall j :: 0 <= j < k + ts ==> vals[j] == SampleAt(minuteVals, j, timeStepsInHour, minutesInTimeStep)
      invariant added == SeqSum(vals[..k + ts])
    {
      vals, added := SampleStep(vals, minuteVals, timeStepsInHour, minutesInTimeStep, k + ts, hr, ts, endMinute, added);
      assert (ts + 2) * minutesInTimeStep == (ts + 1) * minutesInTimeStep + minutesInTimeStep;
      endMinute := endMinute + minutesInTimeStep;
    }
  }

  /**
   * DaySchedule::populateFromMinuteVals without interpolation: each
   * timestep takes the value of its last minute; `added` is the sum of the
   * new values, in order.
   */
  method SampleMinutes(vals0: seq<real>, minuteVals: seq<real>, timeStepsInHour: nat, minutesInTimeStep: nat)
    returns (vals: seq<real>, added: real)
    requires |vals0| == HoursInDay * timeStepsInHour && |minuteVals| == HoursInDay * MinutesInHour
    requires timeStepsInHour * minutesInTimeStep == MinutesInHour
    ensures vals == SampledDay(minuteVals, timeStepsInHour, minutesInTimeStep)
    ensures added == SeqSum(vals)
  {
    vals, added := vals0, 0.0;
    for hr := 0 to HoursInDay
      invariant |vals| == |vals0|
      invariant forall j :: 0 <= j < hr * timeStepsInHour ==> vals[j] == SampleAt(minuteVals, j, timeStepsInHour, minutesInTimeStep)
      invariant added == SeqSum(vals[..hr * timeStepsInHour])
    {
      MulMono(hr + 1, HoursInDay, timeStepsInHour);
      assert (hr + 1) * timeStepsInHour == hr * timeStepsInHour + timeStepsInHour;
      vals, added := SampleHour(vals, minuteVals, timeStepsInHour, minutesInTimeStep, hr, hr * timeStepsInHour, added);
    }
    assert vals[..HoursInDay * timeStepsInHour] == vals;
    assert vals == SampledDay(minuteVals, timeStepsInHour, minutesInTimeStep);
  }

  /** The registry (ScheduleManagerData). */
  class ScheduleManagerData {
    /** Timesteps per hour of the run. */
    const timeStepsInHour: nat

    var checkScheduleValMinMaxRunOnceOnly: bool
    var doScheduleReportingSetup: bool
    var scheduleInputProcessed: bool
    var scheduleFileShadingProcessed: bool

    var scheduleTypes: seq<ScheduleType>
    var schedules: seq<Schedule>
    var daySchedules: seq<DaySchedule>
    var weekSchedules: seq<WeekSchedule>

    var scheduleTypeMap: map<string, int>
    var scheduleMap: map<string, int>
    var dayScheduleMap: map<string, int>
    var weekScheduleMap: map<string, int>

    /** Every record carries its own position as its number, every reference and map entry is in range. */
    ghost predicate Valid()
      reads this
    {
      timeStepsInHour >= 1
      && (forall i :: 0 <= i < |schedules| ==> ScheduleOk(schedules[i], i, |weekSchedules|))
      && (forall i :: 0 <= i < |weekSchedules| ==> WeekOk(weekSchedules[i], i, |daySchedules|))
      && (forall i :: 0 <= i < |daySchedules| ==> DayOk(daySchedules[i], i, timeStepsInHour))
      && MapInto(scheduleTypeMap, |scheduleTypes|)
      && MapInto(scheduleMap, |schedules|)
      && MapInto(dayScheduleMap, |daySchedules|)
      && MapInto(weekScheduleMap, |weekSchedules|)
    }

    /** All lists and maps empty, all flags at their initial values. */
    ghost predicate Cleared()
      reads this
    {
      checkScheduleValMinMaxRunOnceOnly && doScheduleReportingSetup
      && !scheduleInputProcessed && !scheduleFileShadingProcessed
      && scheduleTypes == [] && schedules == [] && daySchedules == [] && weekSchedules == []
      && scheduleTypeMap == map[] && scheduleMap == map[] && dayScheduleMap == map[] && weekScheduleMap == map[]
    }

    /** An empty registry is well formed. */
    lemma ClearedIsValid()
      ensures timeStepsInHour >= 1 && Cleared() ==> Valid()
    {
    }

    constructor (timeStepsInHour: nat)
      requires timeStepsInHour >= 1
      ensures this.timeStepsInHour == timeStepsInHour
      ensures Cleared() && Valid()
    {
      this.timeStepsInHour := timeStepsInHour;
      checkScheduleValMinMaxRunOnceOnly := true;
      doScheduleReportingSetup := true;
      scheduleInputProcessed := false;
      scheduleFileShadingProcessed := false;
      scheduleTypes, schedules, daySchedules, weekSchedules := [], [], [], [];
      scheduleTypeMap, scheduleMap, dayScheduleMap, weekScheduleMap := map[], map[], map[], map[];
    }

    /** clear_state: every list and map emptied, the flags reset. */
    method ClearState()
      requires timeStepsInHour >= 1
      modifies this
      ensures Cleared() && Valid()
    {
      ClearedIsValid();
      checkScheduleValMinMaxRunOnceOnly, doScheduleReportingSetup := true, true;
      scheduleInputProcessed, scheduleFileShadingProcessed := false, false;
      scheduleTypes, scheduleTypeMap := [], map[];
      schedules, scheduleMap := [], map[];
      daySchedules, dayScheduleMap := [], map[];
      weekSchedules, weekScheduleMap := [], map[];
    }

    /** Appends a schedule of the given kind and maps its upper-cased name to its number. */
    method AddSchedule(name: string, kind: SchedKind) returns (num: nat)
      requires Valid()
      requires kind == Constant || kind == NewDetailed()
      modifies this`schedules, this`scheduleMap
      ensures Valid()
      ensures num == |old(schedules)|
      ensures schedules == old(schedules) + [Schedule(name, num, false, kind, false, 0.0, 0.0, 0.0, 0.0, false)]
      ensures scheduleMap == old(scheduleMap)[IdfParser.ToUpper(name) := num]
    {
      num := |schedules|;
      schedules := schedules + [Schedule(name, num, false, kind, false, 0.0, 0.0, 0.0, 0.0, false)];
      scheduleMap := scheduleMap[IdfParser.ToUpper(name) := num];
    }

    /** AddScheduleConstant. */
    method AddScheduleConstant(name: string) returns (num: nat)
      requires Valid()
      modifies this`schedules, this`scheduleMap
      ensures Valid()
      ensures num == |old(schedules)|
      ensures schedules == old(schedules) + [Schedule(name, num, false, Constant, false, 0.0, 0.0, 0.0, 0.0, false)]
      ensures scheduleMap == old(scheduleMap)[IdfParser.ToUpper(name) := num]
    {
      num := AddSchedule(name, Constant);
    }

    /** AddScheduleDetailed: a year schedule with every day slot empty. */
    method AddScheduleDetailed(name: string) returns (num: nat)
      requires Valid()
      modifies this`schedules, this`scheduleMap
      ensures Valid()
      ensures num == |old(schedules)|
      ensures schedules == old(schedules) + [Schedule(name, num, false, NewDetailed(), false, 0.0, 0.0, 0.0, 0.0, false)]
      ensures scheduleMap == old(scheduleMap)[IdfParser.ToUpper(name) := num]
    {
      num := AddSchedule(name, NewDetailed());
    }

    /** AddDaySchedule: 24 * TS values, all zero. */
    method AddDaySchedule(name: string) returns (num: nat)
      requires Valid()
      modifies this`daySchedules, this`dayScheduleMap
      ensures Valid()
      ensures num == |old(daySchedules)|
      ensures daySchedules == old(daySchedules)
                + [DaySchedule(name, num, false, seq(HoursInDay * timeStepsInHour, _ => 0.0), 0.0, 0.0, 0.0, false)]
      ensures dayScheduleMap == old(dayScheduleMap)[IdfParser.ToUpper(name) := num]
    {
      num := |daySchedules|;
      daySchedules := daySchedules + [DaySchedule(name, num, false, seq(HoursInDay * timeStepsInHour, _ => 0.0), 0.0, 0.0, 0.0, false)];
      dayScheduleMap := dayScheduleMap[IdfParser.ToUpper(name) := num];
    }

    /** AddWeekSchedule: every day-type slot still empty. */
    method AddWeekSchedule(name: string) returns (num: nat)
      requires Valid()
      modifies this`weekSchedules, this`weekScheduleMap
      ensures Valid()
      ensures num == |old(weekSchedules)|
      ensures weekSchedules == old(weekSchedules) + [WeekSchedule(name, num, false, seq(DayTypeNum, _ => -1), 0.0, 0.0, false)]
      ensures weekScheduleMap == old(weekScheduleMap)[IdfParser.ToUpper(name) := num]
    {
      num := |weekSchedules|;
      weekSchedules := weekSchedules + [WeekSchedule(name, num, false, seq(DayTypeNum, _ => -1), 0.0, 0.0, false)];
      weekScheduleMap := weekScheduleMap[IdfParser.ToUpper(name) := num];
    }

    /**
     * InitConstantScheduleData: on an empty schedule list, "Constant-0.0" becomes
     * schedule 0 (always off, value 0) and "Constant-1.0" schedule 1 (always
     * on, value 1); both are marked used.
     */
    method InitConstantScheduleData()
      requires Valid() && schedules == []
      modifies this`schedules, this`scheduleMap
      ensures Valid()
      ensures |schedules| == 2
      ensures schedules[SchedNumAlwaysOff] == Schedule("Constant-0.0", SchedNumAlwaysOff, true, Constant, false, 0.0, 0.0, 0.0, 0.0, false)
      ensures schedules[SchedNumAlwaysOn] == Schedule("Constant-1.0", SchedNumAlwaysOn, true, Constant, false, 0.0, 1.0, 0.0, 0.0, false)
      ensures scheduleMap == old(scheduleMap)[IdfParser.ToUpper("Constant-0.0") := SchedNumAlwaysOff][IdfParser.ToUpper("Constant-1.0") := SchedNumAlwaysOn]
    {
      var off := AddScheduleConstant("Constant-0.0");
      schedules := schedules[off := schedules[off].(currentVal := 0.0, isUsed := true)];
      var on := AddScheduleConstant("Constant-1.0");
      schedules := schedules[on := schedules[on].(currentVal := 1.0, isUsed := true)];
    }

    /** A week schedule and the day schedules it holds, marked used (GetWeekSchedule's marking). */
    method MarkWeekUsed(w: nat)
      requires Valid() && w < |weekSchedules|
      modifies this`weekSchedules, this`daySchedules
      ensures Valid()
      ensures weekSchedules == old(weekSchedules)[w := old(weekSchedules[w]).(isUsed := true)]
      ensures |daySchedules| == |old(daySchedules)|
      ensures forall d :: 0 <= d < |daySchedules| ==>
                daySchedules[d] == old(daySchedules[d]).(isUsed := old(daySchedules[d].isUsed) || NamesDay(old(weekSchedules[w]).dayScheds, DayTypeNum, d))
    {
      var week := weekSchedules[w];
      weekSchedules := weekSchedules[w := week.(isUsed := true)];
      for iDayType := 1 to DayTypeNum
        invariant Valid()
        invariant weekSchedules == old(weekSchedules)[w := week.(isUsed := true)]
        invariant |daySchedules| == |old(daySchedules)|
        invariant forall d :: 0 <= d < |daySchedules| ==>
                    daySchedules[d] == old(daySchedules[d]).(isUsed := old(daySchedules[d].isUsed)
                      || exists k :: 1 <= k < iDayType && week.dayScheds[k] == d)
      {
        var d := week.dayScheds[iDayType];
        if d == -1 {
          continue;
        }
        daySchedules := daySchedules[d := daySchedules[d].(isUsed := true)];
      }
    }

    /** GetDaySchedule: the day schedule of that name, marked used; None when there is none. */
    method GetDaySchedule(name: string) returns (r: Option<nat>)
      requires Valid()
      modifies this`daySchedules
      ensures Valid()
      ensures name !in dayScheduleMap ==> r == None && daySchedules == old(daySchedules)
      ensures name in dayScheduleMap ==>
                r == Some(dayScheduleMap[name])
                && daySchedules == old(daySchedules)[r.value := old(daySchedules[r.value]).(isUsed := true)]
    {
      if name !in dayScheduleMap {
        return None;
      }
      var n := dayScheduleMap[name];
      daySchedules := daySchedules[n := daySchedules[n].(isUsed := true)];
      r := Some(n);
    }

    /** GetWeekSchedule: the week schedule of that name; the first lookup marks it and its day schedules used. */
    method GetWeekSchedule(name: string) returns (r: Option<nat>)
      requires Valid()
      modifies this`weekSchedules, this`daySchedules
      ensures Valid()
      ensures name !in weekScheduleMap ==>
                r == None && weekSchedules == old(weekSchedules) && daySchedules == old(daySchedules)
      ensures name in weekScheduleMap ==> r == Some(weekScheduleMap[name])
      ensures r.Some? && old(weekSchedules[r.value].isUsed) ==>
                weekSchedules == old(weekSchedules) && daySchedules == old(daySchedules)
      ensures r.Some? && !old(weekSchedules[r.value].isUsed) ==>
                weekSchedules == old(weekSchedules)[r.value := old(weekSchedules[r.value]).(isUsed := true)]
                && |daySchedules| == |old(daySchedules)|
                && forall d :: 0 <= d < |daySchedules| ==>
                     daySchedules[d] == old(daySchedules[d]).(isUsed := old(daySchedules[d].isUsed) || NamesDay(old(weekSchedules[r.value]).dayScheds, DayTypeNum, d))
    {
      if name !in weekScheduleMap {
        return None;
      }
      var n := weekScheduleMap[name];
      if !weekSchedules[n].isUsed {
        MarkWeekUsed(n);
      }
      r := Some(n);
    }

    /** A first lookup of schedule n reaches, through its day slots, only day types that exist. */
    ghost predicate CascadeSafe(n: nat)
      reads this
      requires Valid() && n < |schedules|
    {
      !schedules[n].isUsed && schedules[n].kind.Detailed? ==>
        forall day :: 1 <= day < YearSlots ==>
          var w := schedules[n].kind.weekScheds[day];
          w != -1 && !weekSchedules[w].isUsed ==>
            forall k :: 1 <= k < DayTypeNum ==> weekSchedules[w].dayScheds[k] != -1
    }

    /**
     * GetSchedule: the schedule of that name, None when there is none.  The
     * first lookup marks it used and, for a detailed schedule, every week
     * schedule its days name and the day schedules of each such week that
     * was not yet used.
     */
    method GetSchedule(name: string) returns (r: Option<nat>)
      requires Valid()
      requires name in scheduleMap ==> CascadeSafe(scheduleMap[name])
      modifies this`schedules, this`weekSchedules, this`daySchedules
      ensures Valid()
      ensures name !in scheduleMap ==>
                r == None && schedules == old(schedules)
                && weekSchedules == old(weekSchedules) && daySchedules == old(daySchedules)
      ensures name in scheduleMap ==> r == Some(scheduleMap[name])
      ensures r.Some? ==> schedules == old(schedules)[r.value := old(schedules[r.value]).(isUsed := true)]
      ensures r.Some? && (old(schedules[r.value].isUsed) || old(schedules[r.value].kind.Constant?)) ==>
                weekSchedules == old(weekSchedules) && daySchedules == old(daySchedules)
      ensures r.Some? && !old(schedules[r.value].isUsed) && old(schedules[r.value].kind.Detailed?) ==>
                var ws := old(schedules[r.value].kind.weekScheds);
                |weekSchedules| == |old(weekSchedules)| && |daySchedules| == |old(daySchedules)|
                && (forall w :: 0 <= w < |weekSchedules| ==>
                      weekSchedules[w] == old(weekSchedules[w]).(isUsed := old(weekSchedules[w].isUsed) || WeekReached(ws, YearSlots, w)))
                && (forall d :: 0 <= d < |daySchedules| ==>
                      daySchedules[d] == old(daySchedules[d]).(isUsed := old(daySchedules[d].isUsed) || DayReached(ws, old(weekSchedules), YearSlots, d)))
    {
      if name !in scheduleMap {
        return None;
      }
      var n := scheduleMap[name];
      r := Some(n);
      var sched := schedules[n];
      if sched.isUsed {
        return;
      }
      schedules := schedules[n := sched.(isUsed := true)];
      if sched.kind.Constant? {
        return;
      }
      MarkReachedWeeks(sched.kind.weekScheds);
    }

    /** GetSchedule's marking loop over the day slots 1 .. 366 of a detailed schedule. */
    method MarkReachedWeeks(ws: seq<int>)
      requires Valid()
      requires |ws| == YearSlots && forall day :: 0 <= day < YearSlots ==> -1 <= ws[day] < |weekSchedules|
      requires forall day :: 1 <= day < YearSlots && ws[day] != -1 && !weekSchedules[ws[day]].isUsed ==>
                 forall k :: 1 <= k < DayTypeNum ==> weekSchedules[ws[day]].dayScheds[k] != -1
      modifies this`weekSchedules, this`daySchedules
      ensures Valid()
      ensures |weekSchedules| == |old(weekSchedules)| && |daySchedules| == |old(daySchedules)|
      ensures forall w :: 0 <= w < |weekSchedules| ==>
                weekSchedules[w] == old(weekSchedules[w]).(isUsed := old(weekSchedules[w].isUsed) || WeekReached(ws, YearSlots, w))
      ensures forall d :: 0 <= d < |daySchedules| ==>
                daySchedules[d] == old(daySchedules[d]).(isUsed := old(daySchedules[d].isUsed) || DayReached(ws, old(weekSchedules), YearSlots, d))
    {
      ghost var weeks0, days0 := weekSchedules, daySchedules;
      for iWeek := 1 to YearSlots
        invariant Valid()
        invariant |weekSchedules| == |weeks0| && |daySchedules| == |days0|
        invariant forall w :: 0 <= w < |weekSchedules| ==>
                    weekSchedules[w] == weeks0[w].(isUsed := weeks0[w].isUsed || WeekReached(ws, iWeek, w))
        invariant forall d :: 0 <= d < |daySchedules| ==>
                    daySchedules[d] == days0[d].(isUsed := days0[d].isUsed || DayReached(ws, weeks0, iWeek, d))
      {
        var w := ws[iWeek];
        if w == -1 {
          continue;
        }
        if weekSchedules[w].isUsed {
          continue;
        }
        MarkWeekUsed(w);
      }
    }

    /** GetScheduleNum: the schedule's number, or -1 when there is no schedule of that name. */
    method GetScheduleNum(name: string) returns (num: int)
      requires Valid()
      requires name in scheduleMap ==> CascadeSafe(scheduleMap[name])
      modifies this`schedules, this`weekSchedules, this`daySchedules
      ensures Valid()
      ensures name in scheduleMap ==> num == scheduleMap[name] && 0 <= num < |schedules|
      ensures name !in scheduleMap ==> num == SchedNumInvalid
    {
      var r := GetSchedule(name);
      num := if r.Some? then schedules[r.value].num else SchedNumInvalid;
    }

    /**
     * ExternalInterfaceSetSchedule: every timestep value of day schedule n
     * becomes `value` (the external interface writes its inputs this way).
     */
    method ExternalInterfaceSetSchedule(n: nat, value: real)
      requires Valid() && n < |daySchedules|
      modifies this`daySchedules
      ensures Valid()
      ensures daySchedules == old(daySchedules)[n := old(daySchedules[n]).(tsVals := seq(HoursInDay * timeStepsInHour, _ => value))]
    {
      var vals := FillTimesteps(daySchedules[n].tsVals, value, timeStepsInHour);
      daySchedules := daySchedules[n := daySchedules[n].(tsVals := vals)];
    }

    /** The lookup of schedule n at hour hr, timestep ts indexes only slots and values that exist. */
    ghost predicate LookupSafe(n: nat, hr: int, ts: int, env: Env)
      reads this
      requires Valid() && n < |schedules|
    {
      var s := schedules[n];
      s.kind.Detailed? && !s.emsActuatedOn && hr <= HoursInDay ==>
        var m := ResolveMoment(hr, s.kind.useDaylightSaving, env);
        1 <= m.dayOfYear < YearSlots && 0 <= m.dayType < DayTypeNum
        && 1 <= m.hour <= HoursInDay && 1 <= EffectiveTs(ts, timeStepsInHour) <= timeStepsInHour
        && s.kind.weekScheds[m.dayOfYear] != -1
        && weekSchedules[s.kind.weekScheds[m.dayOfYear]].dayScheds[m.dayType] != -1
    }

    /** The day schedule a detailed schedule reads on day `day` of the year for day type `dayType`. */
    function DayOn(n: nat, day: int, dayType: int): (d: int)
      reads this
      requires Valid() && n < |schedules| && schedules[n].kind.Detailed?
      requires 1 <= day < YearSlots && 0 <= dayType < DayTypeNum && schedules[n].kind.weekScheds[day] != -1
      ensures -1 <= d < |daySchedules|
    {
      weekSchedules[schedules[n].kind.weekScheds[day]].dayScheds[dayType]
    }

    /**
     * getHrTsVal: the value of schedule n at hour hr (1 .. 24) and timestep ts
     * of the current day; None where the source stops with a fatal error
     * (an hour past 24).  A constant schedule answers its current value, an
     * EMS-actuated detailed schedule its EMS value.
     */
    function HrTsVal(n: nat, hr: int, ts: int, env: Env): (r: Option<real>)
      reads this
      requires Valid() && n < |schedules|
      requires LookupSafe(n, hr, ts, env)
      ensures schedules[n].kind.Constant? ==> r == Some(schedules[n].currentVal)
      ensures schedules[n].kind.Detailed? && schedules[n].emsActuatedOn ==> r == Some(schedules[n].emsVal)
      ensures schedules[n].kind.Detailed? && !schedules[n].emsActuatedOn ==> (r.None? <==> hr > HoursInDay)
      ensures schedules[n].kind.Detailed? && schedules[n].emsActuatedOn ==> r == Some(CurrentVal(schedules[n]))
      ensures schedules[n].kind.Constant? && !schedules[n].emsActuatedOn ==> r == Some(CurrentVal(schedules[n]))
    {
      var s := schedules[n];
      if s.kind.Constant? then Some(s.currentVal)
      else if s.emsActuatedOn then Some(s.emsVal)
      else if hr > HoursInDay then None
      else
        var m := ResolveMoment(hr, s.kind.useDaylightSaving, env);
        var t := EffectiveTs(ts, timeStepsInHour);
        var d := DayOn(n, m.dayOfYear, m.dayType);
        TsIndexRoundTrip(m.hour, t, timeStepsInHour);
        Some(daySchedules[d].tsVals[TsIndex(m.hour, t, timeStepsInHour)])
    }

    /**
     * A lookup landing on a day schedule whose every timestep holds one value
     * (as ExternalInterfaceSetSchedule leaves it) answers that value.
     */
    lemma {:induction false} HrTsValOfFilledDay(n: nat, hr: int, ts: int, env: Env, value: real)
      requires Valid() && n < |schedules| && schedules[n].kind.Detailed? && !schedules[n].emsActuatedOn
      requires hr <= HoursInDay && LookupSafe(n, hr, ts, env)
      requires var m := ResolveMoment(hr, schedules[n].kind.useDaylightSaving, env);
               daySchedules[DayOn(n, m.dayOfYear, m.dayType)].tsVals == seq(HoursInDay * timeStepsInHour, _ => value)
      ensures HrTsVal(n, hr, ts, env) == Some(value)
    {
      var m := ResolveMoment(hr, schedules[n].kind.useDaylightSaving, env);
      TsIndexRoundTrip(m.hour, EffectiveTs(ts, timeStepsInHour), timeStepsInHour);
    }

    /**
     * Without daylight saving in force and on a day that is not a holiday, the
     * lookup reads today's week schedule for today's weekday, at hour hr and
     * timestep ts (the last timestep of the hour when ts is not given).
     */
    lemma {:induction false} HrTsValOrdinaryDay(n: nat, hr: int, ts: int, env: Env)
      requires Valid() && n < |schedules| && schedules[n].kind.Detailed? && !schedules[n].emsActuatedOn
      requires 1 <= hr <= HoursInDay && env.dstIndicator == 0 && env.holidayIndex == 0
      requires 1 <= env.dayOfYear < YearSlots && 1 <= env.dayOfWeek < DayTypeNum
      requires ts <= timeStepsInHour
      requires schedules[n].kind.weekScheds[env.dayOfYear] != -1
      requires DayOn(n, env.dayOfYear, env.dayOfWeek) != -1
      ensures LookupSafe(n, hr, ts, env)
      ensures 0 <= TsIndex(hr, if ts <= 0 then timeStepsInHour else ts, timeStepsInHour) < HoursInDay * timeStepsInHour
      ensures HrTsVal(n, hr, ts, env) ==
                Some(daySchedules[DayOn(n, env.dayOfYear, env.dayOfWeek)].tsVals[
                  TsIndex(hr, if ts <= 0 then timeStepsInHour else ts, timeStepsInHour)])
    {
      MomentFacts(hr, schedules[n].kind.useDaylightSaving, env);
      TsIndexRoundTrip(hr, if ts <= 0 then timeStepsInHour else ts, timeStepsInHour);
    }

    /**
     * With daylight saving in force, hour 24 is read as hour 1 of the next day
     * (day 1 after day 366), with tomorrow's weekday or holiday.
     */
    lemma {:induction false} HrTsValDaylightRollover(n: nat, ts: int, env: Env)
      requires Valid() && n < |schedules| && schedules[n].kind.Detailed? && !schedules[n].emsActuatedOn
      requires schedules[n].kind.useDaylightSaving && env.dstIndicator == 1
      requires 1 <= env.dayOfYear < YearSlots
      requires 1 <= env.dayOfWeekTomorrow < DayTypeNum && 0 <= env.holidayIndexTomorrow < DayTypeNum
      requires 1 <= ts <= timeStepsInHour
      requires var next := env.dayOfYear % (YearSlots - 1) + 1;
               var dt := if env.holidayIndexTomorrow > 0 then env.holidayIndexTomorrow else env.dayOfWeekTomorrow;
               schedules[n].kind.weekScheds[next] != -1 && DayOn(n, next, dt) != -1
      ensures LookupSafe(n, HoursInDay, ts, env)
      ensures var next := env.dayOfYear % (YearSlots - 1) + 1;
              var dt := if env.holidayIndexTomorrow > 0 then env.holidayIndexTomorrow else env.dayOfWeekTomorrow;
              HrTsVal(n, HoursInDay, ts, env) == Some(daySchedules[DayOn(n, next, dt)].tsVals[ts - 1])
    {
      MomentFacts(HoursInDay, true, env);
    }
  
    /**
     * DaySchedule::populateFromMinuteVals without interpolation: day schedule
     * d takes, at each timestep, the value of the timestep's last minute, and
     * the new values are added to its running sum.
     */
    method PopulateFromMinuteVals(d: nat, minuteVals: seq<real>, minutesInTimeStep: nat)
      requires Valid() && d < |daySchedules|
      requires |minuteVals| == HoursInDay * MinutesInHour && timeStepsInHour * minutesInTimeStep == MinutesInHour
      modifies this`daySchedules
      ensures Valid()
      ensures var vals := SampledDay(minuteVals, timeStepsInHour, minutesInTimeStep);
              daySchedules == old(daySchedules)[d := old(daySchedules[d]).(
                tsVals := vals, sumTsVals := old(daySchedules[d].sumTsVals) + SeqSum(vals))]
    {
      var vals, added := SampleMinutes(daySchedules[d].tsVals, minuteVals, timeStepsInHour, minutesInTimeStep);
      daySchedules := daySchedules[d := daySchedules[d].(tsVals := vals, sumTsVals := daySchedules[d].sumTsVals + added)];
    }

    /** DaySchedule::setMinMaxVals: caches the least and the greatest value of day schedule d. */
    method DaySetMinMaxVals(d: nat)
      requires Valid() && d < |daySchedules| && !daySchedules[d].isMinMaxSet
      modifies this`daySchedules
      ensures Valid()
      ensures daySchedules == old(daySchedules)[d := SettledDay(old(daySchedules[d]))]
      ensures daySchedules[d].minVal == SeqMin(daySchedules[d].tsVals)
      ensures daySchedules[d].maxVal == SeqMax(daySchedules[d].tsVals)
    {
      daySchedules := SetDayMinMax(daySchedules, d);
    }

    /**
     * WeekSchedule::setMinMaxVals: caches week w's least and greatest value
     * over its day types 1 .. 12, caching on the way those of its day
     * schedules not cached yet.
     */
    method WeekSetMinMaxVals(w: nat)
      requires Valid() && WeekFilled(weekSchedules, daySchedules, w) && !weekSchedules[w].isMinMaxSet
      modifies this`weekSchedules, this`daySchedules
      ensures Valid()
      ensures |daySchedules| == old(|daySchedules|)
      ensures weekSchedules == old(weekSchedules)[w := old(SettledWeek(weekSchedules, daySchedules, w))]
      ensures DaysSettledBy(old(daySchedules), daySchedules, old(weekSchedules[w].dayScheds), DayTypeNum)
    {
      weekSchedules, daySchedules := SetWeekMinMax(weekSchedules, daySchedules, w);
    }

    /** The schedule's minimum and maximum can be worked out: a detailed schedule's slots 1 .. 365 (and 366 unless empty) name filled weeks. */
    ghost predicate MinMaxReady(n: nat)
      reads this
      requires Valid() && n < |schedules|
    {
      schedules[n].kind.Detailed? ==> YearReady(schedules[n].kind.weekScheds, weekSchedules, daySchedules)
    }

    /**
     * setMinMaxVals of schedule n: a constant schedule's minimum and maximum
     * are its current value; a detailed one's are the least and greatest over
     * the weeks of day slots 1 .. 366 (366 skipped when empty), which caches
     * on the way the weeks and days it reaches.
     */
    method ScheduleSetMinMaxVals(n: nat)
      requires Valid() && n < |schedules| && !schedules[n].isMinMaxSet && MinMaxReady(n)
      modifies this`schedules, this`weekSchedules, this`daySchedules
      ensures Valid()
      ensures old(schedules[n].kind.Constant?) ==>
                schedules == old(schedules)[n := old(schedules[n]).(
                  minVal := old(schedules[n].currentVal), maxVal := old(schedules[n].currentVal), isMinMaxSet := true)]
                && weekSchedules == old(weekSchedules) && daySchedules == old(daySchedules)
      ensures old(schedules[n].kind.Detailed?) ==>
                var ws := old(schedules[n].kind.weekScheds);
                schedules == old(schedules)[n := old(schedules[n]).(
                  minVal := old(SeqMin(YearLos(ws, weekSchedules, daySchedules))),
                  maxVal := old(SeqMax(YearHis(ws, weekSchedules, daySchedules))), isMinMaxSet := true)]
                && YearWalked(ws, old(weekSchedules), old(daySchedules), YearSlots, weekSchedules, daySchedules)
    {
      var s := schedules[n];
      if s.kind.Constant? {
        schedules := schedules[n := s.(minVal := s.currentVal, maxVal := s.currentVal, isMinMaxSet := true)];
      } else {
        var weeks, days, lo, hi := YearMinMax(s.kind.weekScheds, weekSchedules, daySchedules);
        WalkKeepsRecordsOk(s.kind.weekScheds, weekSchedules, daySchedules, weeks, days, timeStepsInHour);
        weekSchedules, daySchedules := weeks, days;
        schedules := schedules[n := s.(minVal := lo, maxVal := hi, isMinMaxSet := true)];
      }
    }

    /** getMinVal: the schedule's minimum, worked out and cached on first use. */
    method GetMinVal(n: nat) returns (r: real)
      requires Valid() && n < |schedules| && MinMaxReady(n)
      modifies this`schedules, this`weekSchedules, this`daySchedules
      ensures Valid() && n < |schedules|
      ensures schedules[n].isMinMaxSet && r == schedules[n].minVal
      ensures old(schedules[n].isMinMaxSet) ==>
                r == old(schedules[n].minVal) && schedules == old(schedules)
                && weekSchedules == old(weekSchedules) && daySchedules == old(daySchedules)
      ensures !old(schedules[n].isMinMaxSet) && old(schedules[n].kind.Constant?) ==> r == old(schedules[n].currentVal)
      ensures !old(schedules[n].isMinMaxSet) && old(schedules[n].kind.Detailed?) ==>
                r == old(SeqMin(YearLos(schedules[n].kind.weekScheds, weekSchedules, daySchedules)))
    {
      if !schedules[n].isMinMaxSet {
        ScheduleSetMinMaxVals(n);
      }
      r := schedules[n].minVal;
    }

    /** getMaxVal: the schedule's maximum, worked out and cached on first use. */
    method GetMaxVal(n: nat) returns (r: real)
      requires Valid() && n < |schedules| && MinMaxReady(n)
      modifies this`schedules, this`weekSchedules, this`daySchedules
      ensures Valid() && n < |schedules|
      ensures schedules[n].isMinMaxSet && r == schedules[n].maxVal
      ensures old(schedules[n].isMinMaxSet) ==>
                r == old(schedules[n].maxVal) && schedules == old(schedules)
                && weekSchedules == old(weekSchedules) && daySchedules == old(daySchedules)
      ensures !old(schedules[n].isMinMaxSet) && old(schedules[n].kind.Constant?) ==> r == old(schedules[n].currentVal)
      ensures !old(schedules[n].isMinMaxSet) && old(schedules[n].kind.Detailed?) ==>
                r == old(SeqMax(YearHis(schedules[n].kind.weekScheds, weekSchedules, daySchedules)))
    {
      if !schedules[n].isMinMaxSet {
        ScheduleSetMinMaxVals(n);
      }
      r := schedules[n].maxVal;
    }

    /**
     * hasVal: a constant schedule holds exactly its current value; a detailed
     * one holds a value when some timestep of some day type of the week of
     * some day slot 1 .. 366 does.
     */
    method ScheduleHasVal(n: nat, value: real) returns (r: bool)
      requires Valid() && n < |schedules|
      requires schedules[n].kind.Detailed? ==> YearFilled(schedules[n].kind.weekScheds, weekSchedules, daySchedules, YearSlots - 1)
      ensures schedules[n].kind.Constant? ==> (r <==> value == schedules[n].currentVal)
      ensures schedules[n].kind.Detailed? ==> (r <==> YearHas(schedules[n].kind.weekScheds, weekSchedules, daySchedules, YearSlots, value))
    {
      var s := schedules[n];
      if s.kind.Constant? {
        r := value == s.currentVal;
      } else {
        r := HasVal(s.kind.weekScheds, weekSchedules, daySchedules, value);
      }
    }

    /**
     * getAnnualHoursGreaterThan1Percent: the hours of the year in which the
     * schedule is above zero, the year starting on day type `start`; none
     * when `start` is not Sunday .. Saturday.
     */
    method AnnualHours(n: nat, start: int, isLeap: bool, timeStepZone: real) returns (r: real)
      requires Valid() && n < |schedules|
      requires schedules[n].kind.Detailed? ==> SlotsFilled(schedules[n].kind.weekScheds, weekSchedules, daySchedules, CalendarSlots(isLeap))
      ensures !(ScheduleSummaries.Sunday <= start <= ScheduleSummaries.Saturday) ==> r == 0.0
      ensures schedules[n].kind.Constant? ==> r == ConstantAnnualHours(schedules[n].currentVal, start, isLeap)
      ensures schedules[n].kind.Detailed? && ScheduleSummaries.Sunday <= start <= ScheduleSummaries.Saturday ==>
                r == HoursAbove(schedules[n].kind.weekScheds, weekSchedules, daySchedules, CalendarSlots(isLeap), start, timeStepZone)
    {
      var s := schedules[n];
      if s.kind.Constant? {
        r := ConstantAnnualHours(s.currentVal, start, isLeap);
      } else {
        r := AnnualHoursGreaterThan1Percent(s.kind.weekScheds, weekSchedules, daySchedules, start, isLeap, timeStepZone);
      }
    }
  }
}

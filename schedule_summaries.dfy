/**
 * What the schedule manager derives from a detailed schedule by walking its
 * year: the minimum and maximum over its day, week and year schedules (each
 * level caching its own answer), whether a value occurs anywhere in it, and
 * the annual hours in which it is above zero.
 *
 * The registry's lists are passed as values: `days` and `weeks` are the day
 * and week schedule lists, `ws` the 367 week slots of one schedule; a method
 * that caches minima and maxima returns the updated lists.
 */
module ScheduleSummaries {
  import opened ScheduleData

  /** Week w exists and names an existing day schedule for every day type 1 .. 12. */
  predicate WeekFilled(weeks: seq<WeekSchedule>, days: seq<DaySchedule>, w: int)
  {
    0 <= w < |weeks| && |weeks[w].dayScheds| == DayTypeNum
    && forall k :: 1 <= k < DayTypeNum ==> 0 <= weeks[w].dayScheds[k] < |days|
  }

  /** Every day schedule has at least one value. */
  predicate DaysHaveVals(days: seq<DaySchedule>)
  {
    forall d :: 0 <= d < |days| ==> |days[d].tsVals| > 0
  }

  /** Day slots 1 .. last of the year name filled weeks. */
  predicate YearFilled(ws: seq<int>, weeks: seq<WeekSchedule>, days: seq<DaySchedule>, last: int)
  {
    |ws| == YearSlots && last < YearSlots
    && forall slot :: 1 <= slot <= last ==> WeekFilled(weeks, days, ws[slot])
  }

  // ---------------------------------------------------------------------
  // Minimum and maximum

  /** A day's minimum: the cached one once set, otherwise the least of its values. */
  function DayLo(d: DaySchedule): real
    requires |d.tsVals| > 0
  {
    if d.isMinMaxSet then d.minVal else SeqMin(d.tsVals)
  }

  function DayHi(d: DaySchedule): real
    requires |d.tsVals| > 0
  {
    if d.isMinMaxSet then d.maxVal else SeqMax(d.tsVals)
  }

  /** The day with its minimum and maximum cached; caching never changes what DayLo and DayHi answer. */
  function SettledDay(d: DaySchedule): (r: DaySchedule)
    requires |d.tsVals| > 0
    ensures r == d.(minVal := r.minVal, maxVal := r.maxVal, isMinMaxSet := true)
    ensures DayLo(r) == DayLo(d) && DayHi(r) == DayHi(d)
    ensures d.isMinMaxSet ==> r == d
  {
    if d.isMinMaxSet then d
    else d.(minVal := SeqMin(d.tsVals), maxVal := SeqMax(d.tsVals), isMinMaxSet := true)
  }

  /**
   * DaySchedule::setMinMaxVals's scan: the least and the greatest value of
   * the day, each bounding every value and each one of the values.
   */
  method DayMinMax(vals: seq<real>) returns (lo: real, hi: real)
    requires |vals| > 0
    ensures lo == SeqMin(vals) && hi == SeqMax(vals)
    ensures forall i :: 0 <= i < |vals| ==> lo <= vals[i] <= hi
    ensures lo in vals && hi in vals
  {
    lo, hi := vals[0], vals[0];
    for i := 0 to |vals|
      invariant lo <= hi
      invariant i == 0 ==> lo == vals[0] && hi == vals[0]
      invariant i > 0 ==> lo == SeqMin(vals[..i]) && hi == SeqMax(vals[..i])
    {
      var value := vals[i];
      if value < lo {
        lo := value;
      } else if value > hi {
        hi := value;
      }
      assert vals[..i + 1][..i] == vals[..i];
    }
    assert vals[..|vals|] == vals;
    SeqMinMaxBounds(vals);
  }

  /** Caches day d's minimum and maximum unless they are cached already. */
  method SetDayMinMax(days0: seq<DaySchedule>, d: int) returns (days: seq<DaySchedule>)
    requires 0 <= d < |days0| && |days0[d].tsVals| > 0
    ensures days == days0[d := SettledDay(days0[d])]
  {
    days := days0;
    if !days[d].isMinMaxSet {
      var lo, hi := DayMinMax(days[d].tsVals);
      days := days[d := days[d].(minVal := lo, maxVal := hi, isMinMaxSet := true)];
    }
  }

  /** The minima of the day schedules of day types 1 .. 12, in that order. */
  function WeekLos(days: seq<DaySchedule>, ds: seq<int>): (r: seq<real>)
    requires DaysHaveVals(days) && |ds| == DayTypeNum
    requires forall k :: 1 <= k < DayTypeNum ==> 0 <= ds[k] < |days|
    ensures |r| == DayTypeNum - 1
  {
    seq(DayTypeNum - 1, k requires 0 <= k < DayTypeNum - 1 => DayLo(days[ds[k + 1]]))
  }

  function WeekHis(days: seq<DaySchedule>, ds: seq<int>): (r: seq<real>)
    requires DaysHaveVals(days) && |ds| == DayTypeNum
    requires forall k :: 1 <= k < DayTypeNum ==> 0 <= ds[k] < |days|
    ensures |r| == DayTypeNum - 1
  {
    seq(DayTypeNum - 1, k requires 0 <= k < DayTypeNum - 1 => DayHi(days[ds[k + 1]]))
  }

  /** Day lists that answer DayLo and DayHi alike give every week the same minima and maxima. */
  lemma {:induction false} WeekLosAgree(days: seq<DaySchedule>, days': seq<DaySchedule>, ds: seq<int>)
    requires DaysHaveVals(days) && DaysHaveVals(days') && |days'| == |days| && |ds| == DayTypeNum
    requires forall k :: 1 <= k < DayTypeNum ==> 0 <= ds[k] < |days|
    requires forall d :: 0 <= d < |days| ==> DayLo(days'[d]) == DayLo(days[d]) && DayHi(days'[d]) == DayHi(days[d])
    ensures WeekLos(days', ds) == WeekLos(days, ds) && WeekHis(days', ds) == WeekHis(days, ds)
  {
    assert forall k :: 0 <= k < DayTypeNum - 1 ==> WeekLos(days', ds)[k] == WeekLos(days, ds)[k];
    assert forall k :: 0 <= k < DayTypeNum - 1 ==> WeekHis(days', ds)[k] == WeekHis(days, ds)[k];
  }

  /** Each day schedule of the week settled when a day type before upTo names it. */
  predicate DaysSettledBy(days0: seq<DaySchedule>, days: seq<DaySchedule>, ds: seq<int>, upTo: int)
    requires DaysHaveVals(days0) && |days| == |days0|
  {
    forall d :: 0 <= d < |days| ==> days[d] == if NamesDay(ds, upTo, d) then SettledDay(days0[d]) else days0[d]
  }

  /** Settling the day schedule of day type upTo extends the settled days to upTo + 1. */
  lemma {:induction false} SettledByStep(days0: seq<DaySchedule>, days: seq<DaySchedule>, ds: seq<int>, upTo: int)
    requires DaysHaveVals(days0) && |days| == |days0| && |ds| == DayTypeNum && 1 <= upTo < DayTypeNum
    requires 0 <= ds[upTo] < |days0|
    requires DaysSettledBy(days0, days, ds, upTo)
    ensures DaysSettledBy(days0, days[ds[upTo] := SettledDay(days[ds[upTo]])], ds, upTo + 1)
  {
    var days' := days[ds[upTo] := SettledDay(days[ds[upTo]])];
    forall d | 0 <= d < |days'|
      ensures days'[d] == if NamesDay(ds, upTo + 1, d) then SettledDay(days0[d]) else days0[d]
    {
      if d == ds[upTo] {
        assert NamesDay(ds, upTo + 1, d);
      } else if NamesDay(ds, upTo + 1, d) {
        var k :| 1 <= k < upTo + 1 && k < |ds| && ds[k] == d;
        assert NamesDay(ds, upTo, d);
      }
    }
  }

  /** A day type naming a day schedule already named before it settles nothing new. */
  lemma {:induction false} SettledBySkip(days0: seq<DaySchedule>, days: seq<DaySchedule>, ds: seq<int>, upTo: int)
    requires DaysHaveVals(days0) && |days| == |days0| && |ds| == DayTypeNum && 2 <= upTo < DayTypeNum
    requires ds[upTo] == ds[upTo - 1]
    requires DaysSettledBy(days0, days, ds, upTo)
    ensures DaysSettledBy(days0, days, ds, upTo + 1)
  {
    forall d | 0 <= d < |days| && NamesDay(ds, upTo + 1, d)
      ensures NamesDay(ds, upTo, d)
    {
      var k :| 1 <= k < upTo + 1 && k < |ds| && ds[k] == d;
      if k == upTo {
        assert ds[upTo - 1] == d;
      }
    }
  }

  /** One day type of WeekSchedule::setMinMaxVals's loop. */
  method WeekMinMaxStep(days0: seq<DaySchedule>, ds: seq<int>, iDay: int,
                        days: seq<DaySchedule>, lo: real, hi: real, prev: int)
    returns (days': seq<DaySchedule>, lo': real, hi': real, prev': int)
    requires DaysHaveVals(days0) && |ds| == DayTypeNum && 2 <= iDay < DayTypeNum
    requires forall k :: 1 <= k < DayTypeNum ==> 0 <= ds[k] < |days0|
    requires |days| == |days0| && DaysHaveVals(days) && prev == ds[iDay - 1]
    requires DaysSettledBy(days0, days, ds, iDay)
    requires lo == SeqMin(WeekLos(days0, ds)[..iDay - 1]) && hi == SeqMax(WeekHis(days0, ds)[..iDay - 1])
    ensures |days'| == |days0| && DaysHaveVals(days') && prev' == ds[iDay]
    ensures DaysSettledBy(days0, days', ds, iDay + 1)
    ensures lo' == SeqMin(WeekLos(days0, ds)[..iDay]) && hi' == SeqMax(WeekHis(days0, ds)[..iDay])
  {
    var los, his := WeekLos(days0, ds), WeekHis(days0, ds);
    assert los[..iDay][..iDay - 1] == los[..iDay - 1] && his[..iDay][..iDay - 1] == his[..iDay - 1];
    days', lo', hi', prev' := days, lo, hi, prev;
    var d := ds[iDay];
    if d == prev {
      SeqMinMaxLast(los[..iDay - 1]);
      SeqMinMaxLast(his[..iDay - 1]);
      SettledBySkip(days0, days, ds, iDay);
      return;
    }
    SettledByStep(days0, days, ds, iDay);
    days' := SetDayMinMax(days, d);
    if days'[d].minVal < lo' {
      lo' := days'[d].minVal;
    }
    if days'[d].maxVal > hi' {
      hi' := days'[d].maxVal;
    }
    prev' := d;
  }

  /**
   * WeekSchedule::setMinMaxVals: the week's minimum and maximum over its day
   * types 1 .. 12, caching each day schedule's own on the way (a day type
   * naming the same day schedule as the one before it is skipped).
   */
  method WeekMinMax(days0: seq<DaySchedule>, ds: seq<int>) returns (days: seq<DaySchedule>, lo: real, hi: real)
    requires DaysHaveVals(days0) && |ds| == DayTypeNum
    requires forall k :: 1 <= k < DayTypeNum ==> 0 <= ds[k] < |days0|
    ensures |days| == |days0| && DaysHaveVals(days)
    ensures DaysSettledBy(days0, days, ds, DayTypeNum)
    ensures lo == SeqMin(WeekLos(days0, ds)) && hi == SeqMax(WeekHis(days0, ds))
  {
    var los, his := WeekLos(days0, ds), WeekHis(days0, ds);
    var d1 := ds[1];
    SettledByStep(days0, days0, ds, 1);
    days := SetDayMinMax(days0, d1);
    lo, hi := days[d1].minVal, days[d1].maxVal;
    assert los[..1] == [los[0]] && his[..1] == [his[0]];
    var prev := d1;
    for iDay := 2 to DayTypeNum
      invariant |days| == |days0| && DaysHaveVals(days)
      invariant prev == ds[iDay - 1]
      invariant DaysSettledBy(days0, days, ds, iDay)
      invariant lo == SeqMin(los[..iDay - 1]) && hi == SeqMax(his[..iDay - 1])
    {
      days, lo, hi, prev := WeekMinMaxStep(days0, ds, iDay, days, lo, hi, prev);
    }
    assert los[..DayTypeNum - 1] == los && his[..DayTypeNum - 1] == his;
  }

  /** A week's minimum: the cached one once set, otherwise the least of its day types' minima. */
  function WeekLo(weeks: seq<WeekSchedule>, days: seq<DaySchedule>, w: int): real
    requires DaysHaveVals(days) && WeekFilled(weeks, days, w)
  {
    if weeks[w].isMinMaxSet then weeks[w].minVal else SeqMin(WeekLos(days, weeks[w].dayScheds))
  }

  function WeekHi(weeks: seq<WeekSchedule>, days: seq<DaySchedule>, w: int): real
    requires DaysHaveVals(days) && WeekFilled(weeks, days, w)
  {
    if weeks[w].isMinMaxSet then weeks[w].maxVal else SeqMax(WeekHis(days, weeks[w].dayScheds))
  }

  /** Week w with its minimum and maximum cached (a week that is not filled is left as it is). */
  function SettledWeek(weeks: seq<WeekSchedule>, days: seq<DaySchedule>, w: int): (r: WeekSchedule)
    requires DaysHaveVals(days) && 0 <= w < |weeks|
    ensures r == weeks[w].(minVal := r.minVal, maxVal := r.maxVal, isMinMaxSet := r.isMinMaxSet)
    ensures WeekFilled(weeks, days, w) ==>
              r.isMinMaxSet && r.minVal == WeekLo(weeks, days, w) && r.maxVal == WeekHi(weeks, days, w)
  {
    if !WeekFilled(weeks, days, w) || weeks[w].isMinMaxSet then weeks[w]
    else
      var ds := weeks[w].dayScheds;
      weeks[w].(minVal := SeqMin(WeekLos(days, ds)), maxVal := SeqMax(WeekHis(days, ds)), isMinMaxSet := true)
  }

  /** Caches week w's minimum and maximum, and those of its day schedules, unless the week's are cached already. */
  method SetWeekMinMax(weeks0: seq<WeekSchedule>, days0: seq<DaySchedule>, w: int)
    returns (weeks: seq<WeekSchedule>, days: seq<DaySchedule>)
    requires DaysHaveVals(days0) && WeekFilled(weeks0, days0, w)
    ensures |days| == |days0| && DaysHaveVals(days)
    ensures weeks == weeks0[w := SettledWeek(weeks0, days0, w)]
    ensures weeks0[w].isMinMaxSet ==> days == days0
    ensures !weeks0[w].isMinMaxSet ==> DaysSettledBy(days0, days, weeks0[w].dayScheds, DayTypeNum)
  {
    weeks, days := weeks0, days0;
    if !weeks[w].isMinMaxSet {
      var lo, hi;
      days, lo, hi := WeekMinMax(days, weeks[w].dayScheds);
      weeks := weeks[w := weeks[w].(minVal := lo, maxVal := hi, isMinMaxSet := true)];
    }
  }

  /** Slot 366 may be empty; every other day slot names a filled week. */
  predicate YearReady(ws: seq<int>, weeks: seq<WeekSchedule>, days: seq<DaySchedule>)
  {
    YearFilled(ws, weeks, days, YearSlots - 2)
    && (ws[YearSlots - 1] == -1 || WeekFilled(weeks, days, ws[YearSlots - 1]))
  }

  /** The number of leading day slots that name a week: 365 when slot 366 is empty, else 366. */
  function FilledSlots(ws: seq<int>): nat
    requires |ws| == YearSlots
  {
    if ws[YearSlots - 1] == -1 then YearSlots - 2 else YearSlots - 1
  }

  /** The minima of the weeks of day slots 1, 2, ... (slot 366 left out when empty). */
  function YearLos(ws: seq<int>, weeks: seq<WeekSchedule>, days: seq<DaySchedule>): (r: seq<real>)
    requires DaysHaveVals(days) && YearReady(ws, weeks, days)
    ensures |r| == FilledSlots(ws)
  {
    seq(FilledSlots(ws), i requires 0 <= i < FilledSlots(ws) => WeekLo(weeks, days, ws[i + 1]))
  }

  function YearHis(ws: seq<int>, weeks: seq<WeekSchedule>, days: seq<DaySchedule>): (r: seq<real>)
    requires DaysHaveVals(days) && YearReady(ws, weeks, days)
    ensures |r| == FilledSlots(ws)
  {
    seq(FilledSlots(ws), i requires 0 <= i < FilledSlots(ws) => WeekHi(weeks, days, ws[i + 1]))
  }

  /** Some day slot before upTo names week w. */
  predicate WeekNamed(ws: seq<int>, upTo: int, w: int)
  {
    exists slot :: 1 <= slot < upTo && slot < |ws| && ws[slot] == w
  }

  /** Some day slot before upTo names a week, not cached at the start, that holds day schedule d. */
  predicate DayTouched(ws: seq<int>, weeks0: seq<WeekSchedule>, upTo: int, d: int)
  {
    exists slot :: 1 <= slot < upTo && slot < |ws| && 0 <= ws[slot] < |weeks0|
                   && !weeks0[ws[slot]].isMinMaxSet && NamesDay(weeks0[ws[slot]].dayScheds, DayTypeNum, d)
  }

  /** The lists after the slots before upTo have been walked: exactly the weeks named and the days touched are settled. */
  ghost predicate YearWalked(ws: seq<int>, weeks0: seq<WeekSchedule>, days0: seq<DaySchedule>, upTo: int,
                             weeks: seq<WeekSchedule>, days: seq<DaySchedule>)
    requires DaysHaveVals(days0)
  {
    |weeks| == |weeks0| && |days| == |days0| && DaysHaveVals(days)
    && (forall w :: 0 <= w < |weeks| ==>
          weeks[w] == if WeekNamed(ws, upTo, w) then SettledWeek(weeks0, days0, w) else weeks0[w])
    && (forall d :: 0 <= d < |days| ==>
          days[d] == if DayTouched(ws, weeks0, upTo, d) then SettledDay(days0[d]) else days0[d])
  }

  /** Walking keeps every day's DayLo and DayHi, and every week's day types. */
  lemma {:induction false} YearWalkedKeeps(ws: seq<int>, weeks0: seq<WeekSchedule>, days0: seq<DaySchedule>, upTo: int,
                                           weeks: seq<WeekSchedule>, days: seq<DaySchedule>)
    requires DaysHaveVals(days0) && YearWalked(ws, weeks0, days0, upTo, weeks, days)
    ensures forall d :: 0 <= d < |days| ==> DayLo(days[d]) == DayLo(days0[d]) && DayHi(days[d]) == DayHi(days0[d])
    ensures forall w :: 0 <= w < |weeks| ==> weeks[w].dayScheds == weeks0[w].dayScheds
  {
  }

  /** Walking slot upTo: its week settled against the current lists is the week settled against the initial ones. */
  lemma {:induction false} YearWalkWeeks(ws: seq<int>, weeks0: seq<WeekSchedule>, days0: seq<DaySchedule>, upTo: int,
                                         weeks: seq<WeekSchedule>, days: seq<DaySchedule>)
    requires DaysHaveVals(days0) && YearWalked(ws, weeks0, days0, upTo, weeks, days)
    requires 1 <= upTo < |ws| && WeekFilled(weeks0, days0, ws[upTo])
    ensures WeekFilled(weeks, days, ws[upTo])
    ensures SettledWeek(weeks, days, ws[upTo]) == SettledWeek(weeks0, days0, ws[upTo])
    ensures forall w :: 0 <= w < |weeks| ==>
              weeks[ws[upTo] := SettledWeek(weeks, days, ws[upTo])][w]
                == if WeekNamed(ws, upTo + 1, w) then SettledWeek(weeks0, days0, w) else weeks0[w]
  {
    var w := ws[upTo];
    YearWalkedKeeps(ws, weeks0, days0, upTo, weeks, days);
    WeekLosAgree(days0, days, weeks0[w].dayScheds);
    assert WeekNamed(ws, upTo + 1, w);
    forall w' | 0 <= w' < |weeks| && w' != w && WeekNamed(ws, upTo + 1, w')
      ensures WeekNamed(ws, upTo, w')
    {
      var slot :| 1 <= slot < upTo + 1 && slot < |ws| && ws[slot] == w';
    }
  }

  /** Walking slot upTo: the days settled are those the slot's week touches when it was not cached at the start. */
  lemma {:induction false} YearWalkDays(ws: seq<int>, weeks0: seq<WeekSchedule>, days0: seq<DaySchedule>, upTo: int,
                                        weeks: seq<WeekSchedule>, days: seq<DaySchedule>, days': seq<DaySchedule>)
    requires DaysHaveVals(days0) && YearWalked(ws, weeks0, days0, upTo, weeks, days)
    requires 1 <= upTo < |ws| && WeekFilled(weeks0, days0, ws[upTo])
    requires weeks[ws[upTo]].isMinMaxSet ==> days' == days
    requires !weeks[ws[upTo]].isMinMaxSet ==>
               |days'| == |days| && DaysSettledBy(days, days', weeks[ws[upTo]].dayScheds, DayTypeNum)
    ensures forall d :: 0 <= d < |days'| ==>
              days'[d] == if DayTouched(ws, weeks0, upTo + 1, d) then SettledDay(days0[d]) else days0[d]
  {
    var w := ws[upTo];
    forall d | 0 <= d < |days'|
      ensures days'[d] == if DayTouched(ws, weeks0, upTo + 1, d) then SettledDay(days0[d]) else days0[d]
    {
      var here := !weeks0[w].isMinMaxSet && NamesDay(weeks0[w].dayScheds, DayTypeNum, d);
      if here {
        assert DayTouched(ws, weeks0, upTo + 1, d);
      }
      if DayTouched(ws, weeks0, upTo + 1, d) && !here {
        var slot :| 1 <= slot < upTo + 1 && slot < |ws| && 0 <= ws[slot] < |weeks0|
                    && !weeks0[ws[slot]].isMinMaxSet && NamesDay(weeks0[ws[slot]].dayScheds, DayTypeNum, d);
        assert DayTouched(ws, weeks0, upTo, d);
      }
      if weeks[w].isMinMaxSet && here {
        // the week was settled on an earlier slot, which touched d then
        assert WeekNamed(ws, upTo, w);
        var slot :| 1 <= slot < upTo && slot < |ws| && ws[slot] == w;
        assert DayTouched(ws, weeks0, upTo, d);
      }
    }
  }

  /** An empty slot, or a slot naming the same week as the one before it, settles nothing new. */
  lemma {:induction false} YearWalkSame(ws: seq<int>, weeks0: seq<WeekSchedule>, days0: seq<DaySchedule>, upTo: int,
                                        weeks: seq<WeekSchedule>, days: seq<DaySchedule>)
    requires DaysHaveVals(days0) && YearWalked(ws, weeks0, days0, upTo, weeks, days)
    requires 2 <= upTo < |ws| && (ws[upTo] == -1 || ws[upTo] == ws[upTo - 1])
    ensures YearWalked(ws, weeks0, days0, upTo + 1, weeks, days)
  {
    forall w | 0 <= w && WeekNamed(ws, upTo + 1, w)
      ensures WeekNamed(ws, upTo, w)
    {
      var slot :| 1 <= slot < upTo + 1 && slot < |ws| && ws[slot] == w;
      if slot == upTo {
        assert ws[upTo - 1] == w;
      }
    }
    forall d | DayTouched(ws, weeks0, upTo + 1, d)
      ensures DayTouched(ws, weeks0, upTo, d)
    {
      var slot :| 1 <= slot < upTo + 1 && slot < |ws| && 0 <= ws[slot] < |weeks0|
                  && !weeks0[ws[slot]].isMinMaxSet && NamesDay(weeks0[ws[slot]].dayScheds, DayTypeNum, d);
      if slot == upTo {
        assert ws[upTo - 1] == ws[slot];
      }
    }
  }

  /** Walks day slot upTo: settles its week (and that week's days) unless already done. */
  method WalkSlot(ws: seq<int>, weeks0: seq<WeekSchedule>, days0: seq<DaySchedule>, upTo: int,
                  weeks: seq<WeekSchedule>, days: seq<DaySchedule>)
    returns (weeks': seq<WeekSchedule>, days': seq<DaySchedule>)
    requires DaysHaveVals(days0) && YearWalked(ws, weeks0, days0, upTo, weeks, days)
    requires 1 <= upTo < |ws| && WeekFilled(weeks0, days0, ws[upTo])
    ensures YearWalked(ws, weeks0, days0, upTo + 1, weeks', days')
    ensures weeks'[ws[upTo]].minVal == WeekLo(weeks0, days0, ws[upTo])
    ensures weeks'[ws[upTo]].maxVal == WeekHi(weeks0, days0, ws[upTo])
  {
    YearWalkWeeks(ws, weeks0, days0, upTo, weeks, days);
    weeks', days' := SetWeekMinMax(weeks, days, ws[upTo]);
    YearWalkDays(ws, weeks0, days0, upTo, weeks, days, days');
  }

  /** Upto(i, n) = the smaller of i and n. */
  function Upto(i: int, n: int): int
  {
    if i < n then i else n
  }

  /** One day slot of ScheduleDetailed::setMinMaxVals's loop. */
  method YearMinMaxStep(ws: seq<int>, weeks0: seq<WeekSchedule>, days0: seq<DaySchedule>, iWeek: int,
                        weeks: seq<WeekSchedule>, days: seq<DaySchedule>, lo: real, hi: real, prev: int)
    returns (weeks': seq<WeekSchedule>, days': seq<DaySchedule>, lo': real, hi': real, prev': int)
    requires DaysHaveVals(days0) && YearReady(ws, weeks0, days0) && 2 <= iWeek < YearSlots
    requires YearWalked(ws, weeks0, days0, iWeek, weeks, days) && prev == ws[iWeek - 1]
    requires lo == SeqMin(YearLos(ws, weeks0, days0)[..iWeek - 1])
    requires hi == SeqMax(YearHis(ws, weeks0, days0)[..iWeek - 1])
    ensures YearWalked(ws, weeks0, days0, iWeek + 1, weeks', days')
    ensures iWeek + 1 < YearSlots ==> prev' == ws[iWeek]
    ensures lo' == SeqMin(YearLos(ws, weeks0, days0)[..Upto(iWeek, FilledSlots(ws))])
    ensures hi' == SeqMax(YearHis(ws, weeks0, days0)[..Upto(iWeek, FilledSlots(ws))])
  {
    var w := ws[iWeek];
    var skipped := (iWeek == YearSlots - 1 && w == -1) || w == prev;
    weeks', days' := YearWalkStep(ws, weeks0, days0, iWeek, weeks, days, skipped);
    lo', hi', prev' := lo, hi, prev;
    if skipped {
      YearBoundsSkip(ws, weeks0, days0, iWeek, lo, hi, prev);
      return;
    }
    YearBoundsNew(ws, weeks0, days0, iWeek, lo, hi);
    if weeks'[w].minVal < lo' {
      lo' := weeks'[w].minVal;
    }
    if weeks'[w].maxVal > hi' {
      hi' := weeks'[w].maxVal;
    }
    prev' := w;
  }

  /** The walk of day slot iWeek: a skipped slot settles nothing new, any other settles its week. */
  method YearWalkStep(ws: seq<int>, weeks0: seq<WeekSchedule>, days0: seq<DaySchedule>, iWeek: int,
                      weeks: seq<WeekSchedule>, days: seq<DaySchedule>, skipped: bool)
    returns (weeks': seq<WeekSchedule>, days': seq<DaySchedule>)
    requires DaysHaveVals(days0) && YearReady(ws, weeks0, days0) && 2 <= iWeek < YearSlots
    requires YearWalked(ws, weeks0, days0, iWeek, weeks, days)
    requires skipped == ((iWeek == YearSlots - 1 && ws[iWeek] == -1) || ws[iWeek] == ws[iWeek - 1])
    ensures YearWalked(ws, weeks0, days0, iWeek + 1, weeks', days')
    ensures !skipped ==> 0 <= ws[iWeek] < |weeks'|
                         && weeks'[ws[iWeek]].minVal == WeekLo(weeks0, days0, ws[iWeek])
                         && weeks'[ws[iWeek]].maxVal == WeekHi(weeks0, days0, ws[iWeek])
  {
    if skipped {
      YearWalkSame(ws, weeks0, days0, iWeek, weeks, days);
      weeks', days' := weeks, days;
    } else {
      weeks', days' := WalkSlot(ws, weeks0, days0, iWeek, weeks, days);
    }
  }

  /** A skipped slot leaves the bounds as they were, over one more slot when it names a week. */
  lemma YearBoundsSkip(ws: seq<int>, weeks0: seq<WeekSchedule>, days0: seq<DaySchedule>, iWeek: int,
                       lo: real, hi: real, prev: int)
    requires DaysHaveVals(days0) && YearReady(ws, weeks0, days0) && 2 <= iWeek < YearSlots
    requires prev == ws[iWeek - 1] && ((iWeek == YearSlots - 1 && ws[iWeek] == -1) || ws[iWeek] == prev)
    requires lo == SeqMin(YearLos(ws, weeks0, days0)[..iWeek - 1])
    requires hi == SeqMax(YearHis(ws, weeks0, days0)[..iWeek - 1])
    ensures lo == SeqMin(YearLos(ws, weeks0, days0)[..Upto(iWeek, FilledSlots(ws))])
    ensures hi == SeqMax(YearHis(ws, weeks0, days0)[..Upto(iWeek, FilledSlots(ws))])
  {
    var los, his := YearLos(ws, weeks0, days0), YearHis(ws, weeks0, days0);
    if iWeek == YearSlots - 1 && ws[iWeek] == -1 {
      assert Upto(iWeek, FilledSlots(ws)) == iWeek - 1;
    } else {
      assert Upto(iWeek, FilledSlots(ws)) == iWeek;
      assert los[iWeek - 1] == los[iWeek - 2] && his[iWeek - 1] == his[iWeek - 2];
      SeqMinMaxRepeat(los, iWeek - 1);
      SeqMinMaxRepeat(his, iWeek - 1);
    }
  }

  /** A slot naming a new week takes that week's minimum and maximum into the bounds. */
  lemma YearBoundsNew(ws: seq<int>, weeks0: seq<WeekSchedule>, days0: seq<DaySchedule>, iWeek: int,
                      lo: real, hi: real)
    requires DaysHaveVals(days0) && YearReady(ws, weeks0, days0) && 2 <= iWeek < YearSlots
    requires !(iWeek == YearSlots - 1 && ws[iWeek] == -1)
    requires lo == SeqMin(YearLos(ws, weeks0, days0)[..iWeek - 1])
    requires hi == SeqMax(YearHis(ws, weeks0, days0)[..iWeek - 1])
    ensures WeekFilled(weeks0, days0, ws[iWeek])
    ensures var x := WeekLo(weeks0, days0, ws[iWeek]);
            SeqMin(YearLos(ws, weeks0, days0)[..Upto(iWeek, FilledSlots(ws))]) == if x < lo then x else lo
    ensures var y := WeekHi(weeks0, days0, ws[iWeek]);
            SeqMax(YearHis(ws, weeks0, days0)[..Upto(iWeek, FilledSlots(ws))]) == if y > hi then y else hi
  {
    var los, his := YearLos(ws, weeks0, days0), YearHis(ws, weeks0, days0);
    assert Upto(iWeek, FilledSlots(ws)) == iWeek;
    SeqMinMaxSnoc(los, iWeek - 1);
    SeqMinMaxSnoc(his, iWeek - 1);
    assert los[iWeek - 1] == WeekLo(weeks0, days0, ws[iWeek]) && his[iWeek - 1] == WeekHi(weeks0, days0, ws[iWeek]);
  }

  /** Day slot 1 of ScheduleDetailed::setMinMaxVals: its week's minimum and maximum start the search. */
  method YearMinMaxFirst(ws: seq<int>, weeks0: seq<WeekSchedule>, days0: seq<DaySchedule>)
    returns (weeks: seq<WeekSchedule>, days: seq<DaySchedule>, lo: real, hi: real, prev: int)
    requires DaysHaveVals(days0) && YearReady(ws, weeks0, days0)
    ensures YearWalked(ws, weeks0, days0, 2, weeks, days) && prev == ws[1]
    ensures lo == SeqMin(YearLos(ws, weeks0, days0)[..1]) && hi == SeqMax(YearHis(ws, weeks0, days0)[..1])
  {
    var los, his := YearLos(ws, weeks0, days0), YearHis(ws, weeks0, days0);
    weeks, days := WalkSlot(ws, weeks0, days0, 1, weeks0, days0);
    prev := ws[1];
    lo, hi := weeks[prev].minVal, weeks[prev].maxVal;
    assert los[..1] == [los[0]] && his[..1] == [his[0]];
  }

  /**
   * ScheduleDetailed::setMinMaxVals: the schedule's minimum and maximum over
   * the weeks of day slots 1 .. 366 (an empty slot 366 skipped, a slot naming
   * the same week as the one before it skipped), caching each week's and
   * each day's own on the way.  Exactly the weeks the year names, and the day
   * schedules of those among them not cached before, end up cached.
   */
  method YearMinMax(ws: seq<int>, weeks0: seq<WeekSchedule>, days0: seq<DaySchedule>)
    returns (weeks: seq<WeekSchedule>, days: seq<DaySchedule>, lo: real, hi: real)
    requires DaysHaveVals(days0) && YearReady(ws, weeks0, days0)
    ensures YearWalked(ws, weeks0, days0, YearSlots, weeks, days)
    ensures lo == SeqMin(YearLos(ws, weeks0, days0)) && hi == SeqMax(YearHis(ws, weeks0, days0))
  {
    var los, his := YearLos(ws, weeks0, days0), YearHis(ws, weeks0, days0);
    var prev;
    weeks, days, lo, hi, prev := YearMinMaxFirst(ws, weeks0, days0);
    for iWeek := 2 to YearSlots
      invariant YearWalked(ws, weeks0, days0, iWeek, weeks, days)
      invariant iWeek < YearSlots ==> prev == ws[iWeek - 1]
      invariant lo == SeqMin(los[..Upto(iWeek - 1, FilledSlots(ws))])
      invariant hi == SeqMax(his[..Upto(iWeek - 1, FilledSlots(ws))])
    {
      weeks, days, lo, hi, prev := YearMinMaxStep(ws, weeks0, days0, iWeek, weeks, days, lo, hi, prev);
    }
    assert los[..FilledSlots(ws)] == los && his[..FilledSlots(ws)] == his;
  }

  /** Every cached day minimum and maximum is the one the day's values give. */
  ghost predicate DaysHonest(days: seq<DaySchedule>)
  {
    DaysHaveVals(days)
    && forall d :: 0 <= d < |days| && days[d].isMinMaxSet ==>
         days[d].minVal == SeqMin(days[d].tsVals) && days[d].maxVal == SeqMax(days[d].tsVals)
  }

  /** Every cached week minimum and maximum is the one its day types give. */
  ghost predicate WeeksHonest(weeks: seq<WeekSchedule>, days: seq<DaySchedule>)
    requires DaysHaveVals(days)
  {
    forall w :: WeekFilled(weeks, days, w) && weeks[w].isMinMaxSet ==>
      weeks[w].minVal == SeqMin(WeekLos(days, weeks[w].dayScheds))
      && weeks[w].maxVal == SeqMax(WeekHis(days, weeks[w].dayScheds))
  }

  /** Walking the year keeps honest caches honest. */
  lemma {:induction false} YearWalkedHonest(ws: seq<int>, weeks0: seq<WeekSchedule>, days0: seq<DaySchedule>, upTo: int,
                                            weeks: seq<WeekSchedule>, days: seq<DaySchedule>)
    requires DaysHonest(days0) && WeeksHonest(weeks0, days0) && YearWalked(ws, weeks0, days0, upTo, weeks, days)
    ensures DaysHonest(days) && WeeksHonest(weeks, days)
  {
    YearWalkedKeeps(ws, weeks0, days0, upTo, weeks, days);
    forall w | WeekFilled(weeks, days, w) && weeks[w].isMinMaxSet
      ensures weeks[w].minVal == SeqMin(WeekLos(days, weeks[w].dayScheds))
      ensures weeks[w].maxVal == SeqMax(WeekHis(days, weeks[w].dayScheds))
    {
      assert WeekFilled(weeks0, days0, w);
      WeekLosAgree(days0, days, weeks0[w].dayScheds);
    }
  }

  /** With honest caches, a week's minimum and maximum bound every value of every day type's day schedule. */
  lemma {:induction false} WeekBoundsValues(weeks: seq<WeekSchedule>, days: seq<DaySchedule>, w: int, k: int, i: int)
    requires DaysHonest(days) && WeeksHonest(weeks, days) && WeekFilled(weeks, days, w) && 1 <= k < DayTypeNum
    requires 0 <= i < |days[weeks[w].dayScheds[k]].tsVals|
    ensures WeekLo(weeks, days, w) <= days[weeks[w].dayScheds[k]].tsVals[i] <= WeekHi(weeks, days, w)
  {
    var ds := weeks[w].dayScheds;
    var d := ds[k];
    var los, his := WeekLos(days, ds), WeekHis(days, ds);
    SeqMinMaxBounds(los);
    SeqMinMaxBounds(his);
    assert los[k - 1] == DayLo(days[d]) && his[k - 1] == DayHi(days[d]);
    SeqMinMaxBounds(days[d].tsVals);
  }

  /** The schedule's minimum and maximum bound the minimum and maximum of every day slot's week. */
  lemma {:induction false} YearBoundsWeeks(ws: seq<int>, weeks: seq<WeekSchedule>, days: seq<DaySchedule>, slot: int)
    requires DaysHaveVals(days) && YearReady(ws, weeks, days) && 1 <= slot <= FilledSlots(ws)
    ensures SeqMin(YearLos(ws, weeks, days)) <= WeekLo(weeks, days, ws[slot])
    ensures WeekHi(weeks, days, ws[slot]) <= SeqMax(YearHis(ws, weeks, days))
  {
    var los, his := YearLos(ws, weeks, days), YearHis(ws, weeks, days);
    SeqMinMaxBounds(los);
    SeqMinMaxBounds(his);
    assert los[slot - 1] == WeekLo(weeks, days, ws[slot]) && his[slot - 1] == WeekHi(weeks, days, ws[slot]);
  }

  /**
   * With honest caches, the schedule's minimum and maximum bound every value
   * of every day schedule that any day slot's week names for any day type.
   */
  lemma {:induction false} YearMinMaxBoundValues(ws: seq<int>, weeks: seq<WeekSchedule>, days: seq<DaySchedule>,
                                                 slot: int, k: int, i: int)
    requires DaysHonest(days) && WeeksHonest(weeks, days) && YearReady(ws, weeks, days)
    requires 1 <= slot <= FilledSlots(ws) && 1 <= k < DayTypeNum
    requires 0 <= i < |days[weeks[ws[slot]].dayScheds[k]].tsVals|
    ensures SeqMin(YearLos(ws, weeks, days)) <= days[weeks[ws[slot]].dayScheds[k]].tsVals[i]
    ensures days[weeks[ws[slot]].dayScheds[k]].tsVals[i] <= SeqMax(YearHis(ws, weeks, days))
  {
    YearBoundsWeeks(ws, weeks, days, slot);
    WeekBoundsValues(weeks, days, ws[slot], k, i);
  }

  /** With honest caches, a week's minimum is a value one of its day types' day schedules holds. */
  lemma {:induction false} WeekMinAttained(weeks: seq<WeekSchedule>, days: seq<DaySchedule>, w: int)
    returns (k: int, i: int)
    requires DaysHonest(days) && WeeksHonest(weeks, days) && WeekFilled(weeks, days, w)
    ensures 1 <= k < DayTypeNum && 0 <= i < |days[weeks[w].dayScheds[k]].tsVals|
    ensures days[weeks[w].dayScheds[k]].tsVals[i] == WeekLo(weeks, days, w)
  {
    var ds := weeks[w].dayScheds;
    var wl := WeekLos(days, ds);
    SeqMinMaxBounds(wl);
    var k' :| 0 <= k' < |wl| && wl[k'] == SeqMin(wl);
    k := k' + 1;
    var vals := days[ds[k]].tsVals;
    SeqMinMaxBounds(vals);
    i :| 0 <= i < |vals| && vals[i] == SeqMin(vals);
  }

  /** With honest caches, the schedule's minimum is a value some day slot, day type and timestep holds. */
  lemma {:induction false} YearMinAttained(ws: seq<int>, weeks: seq<WeekSchedule>, days: seq<DaySchedule>)
    returns (slot: int, k: int, i: int)
    requires DaysHonest(days) && WeeksHonest(weeks, days) && YearReady(ws, weeks, days)
    ensures 1 <= slot <= FilledSlots(ws) && 1 <= k < DayTypeNum
    ensures 0 <= i < |days[weeks[ws[slot]].dayScheds[k]].tsVals|
    ensures days[weeks[ws[slot]].dayScheds[k]].tsVals[i] == SeqMin(YearLos(ws, weeks, days))
  {
    var los := YearLos(ws, weeks, days);
    SeqMinMaxBounds(los);
    var j :| 0 <= j < |los| && los[j] == SeqMin(los);
    slot := j + 1;
    k, i := WeekMinAttained(weeks, days, ws[slot]);
  }

  // ---------------------------------------------------------------------
  // Whether a value occurs

  /** Some timestep of day schedule d, of some day type of week w, holds value. */
  ghost predicate WeekHas(weeks: seq<WeekSchedule>, days: seq<DaySchedule>, w: int, value: real)
  {
    0 <= w < |weeks|
    && exists k :: 1 <= k < DayTypeNum && k < |weeks[w].dayScheds|
                   && 0 <= weeks[w].dayScheds[k] < |days| && value in days[weeks[w].dayScheds[k]].tsVals
  }

  /** The week of some day slot before upTo holds value. */
  ghost predicate YearHas(ws: seq<int>, weeks: seq<WeekSchedule>, days: seq<DaySchedule>, upTo: int, value: real)
  {
    exists slot :: 1 <= slot < upTo && slot < |ws| && WeekHas(weeks, days, ws[slot], value)
  }

  /** Scans one day's values for `value`. */
  method DayHasVal(vals: seq<real>, value: real) returns (found: bool)
    ensures found <==> value in vals
  {
    for i := 0 to |vals|
      invariant value !in vals[..i]
    {
      if vals[i] == value {
        return true;
      }
    }
    assert vals[..|vals|] == vals;
    return false;
  }

  /**
   * ScheduleDetailed::hasVal: whether any timestep of any day type of the
   * week of any day slot 1 .. 366 holds `value`.  Week and day schedules
   * already scanned are remembered and not scanned again.
   */
  method HasVal(ws: seq<int>, weeks: seq<WeekSchedule>, days: seq<DaySchedule>, value: real) returns (r: bool)
    requires YearFilled(ws, weeks, days, YearSlots - 1)
    ensures r <==> YearHas(ws, weeks, days, YearSlots, value)
  {
    var weekSchedChecked := new bool[|weeks|](_ => false);
    var daySchedChecked := new bool[|days|](_ => false);
    for iWeek := 1 to YearSlots
      invariant forall w :: 0 <= w < |weeks| && weekSchedChecked[w] ==> !WeekHas(weeks, days, w, value)
      invariant forall d :: 0 <= d < |days| && daySchedChecked[d] ==> value !in days[d].tsVals
      invariant !YearHas(ws, weeks, days, iWeek, value)
    {
      var w := ws[iWeek];
      if weekSchedChecked[w] {
        continue;
      }
      for iDay := 1 to DayTypeNum
        invariant forall w :: 0 <= w < |weeks| && weekSchedChecked[w] ==> !WeekHas(weeks, days, w, value)
        invariant forall d :: 0 <= d < |days| && daySchedChecked[d] ==> value !in days[d].tsVals
        invariant forall k :: 1 <= k < iDay ==> value !in days[weeks[w].dayScheds[k]].tsVals
      {
        var d := weeks[w].dayScheds[iDay];
        if daySchedChecked[d] {
          continue;
        }
        var found := DayHasVal(days[d].tsVals, value);
        if found {
          assert WeekHas(weeks, days, w, value);
          assert YearHas(ws, weeks, days, YearSlots, value);
          return true;
        }
        daySchedChecked[d] := true;
      }
      assert !WeekHas(weeks, days, w, value);
      weekSchedChecked[w] := true;
    }
    return false;
  }

  // ---------------------------------------------------------------------
  // Annual hours above zero

  /** The number of values above zero. */
  function PositiveCount(vals: seq<real>): (n: nat)
    ensures n <= |vals|
  {
    if vals == [] then 0
    else PositiveCount(vals[..|vals| - 1]) + if vals[|vals| - 1] > 0.0 then 1 else 0
  }

  /** No value counts exactly when none is above zero, and all do exactly when every one is. */
  lemma {:induction false} PositiveCountExtremes(vals: seq<real>)
    ensures PositiveCount(vals) == 0 <==> forall i :: 0 <= i < |vals| ==> vals[i] <= 0.0
    ensures PositiveCount(vals) == |vals| <==> forall i :: 0 <= i < |vals| ==> vals[i] > 0.0
  {
    if vals != [] {
      var init := vals[..|vals| - 1];
      PositiveCountExtremes(init);
      assert forall i :: 0 <= i < |init| ==> init[i] == vals[i];
    }
  }

  /** Sunday is day type 1 and Saturday day type 7. */
  const Sunday := 1
  const Saturday := 7

  /** The day type of day j (counting from 0) of a year whose first day has day type `start`. */
  function WeekdayOf(start: int, j: nat): (t: int)
    requires Sunday <= start <= Saturday
    ensures Sunday <= t <= Saturday
  {
    (start - 1 + j) % 7 + 1
  }

  /** The day after a Saturday is a Sunday; any other day is followed by the next day type. */
  lemma WeekdayNext(start: int, j: nat)
    requires Sunday <= start <= Saturday
    ensures WeekdayOf(start, j + 1) == if WeekdayOf(start, j) == Saturday then Sunday else WeekdayOf(start, j) + 1
  {
  }

  /** The weekday pattern repeats every seven days; day 364 of a year (31 December, or 30 December in a leap year) has the first day's type. */
  lemma {:induction false} WeekdayPeriod(start: int, j: nat)
    requires Sunday <= start <= Saturday
    ensures WeekdayOf(start, j + 7) == WeekdayOf(start, j)
    ensures WeekdayOf(start, 364) == start
  {
  }

  function DaysInYear(isLeap: bool): nat
  {
    if isLeap then YearSlots - 1 else YearSlots - 2
  }

  /** Day slot 60 is 29 February: the slots are numbered as in a leap year. */
  const LeapDaySlot := 60

  /**
   * The day slot of day iDay (1-based) of the year: in a year without 29
   * February, the days from 1 March on skip slot 60.
   */
  function CalendarSlot(iDay: int, isLeap: bool): (slot: int)
    ensures isLeap ==> slot == iDay
    ensures !isLeap ==> slot != LeapDaySlot
    ensures 1 <= iDay <= DaysInYear(isLeap) ==> 1 <= slot < YearSlots
  {
    if !isLeap && iDay >= LeapDaySlot then iDay + 1 else iDay
  }

  /** The day slots a year's days read, in order, when each day reads its own date. */
  function CalendarSlots(isLeap: bool): (slots: seq<int>)
    ensures |slots| == DaysInYear(isLeap)
  {
    seq(DaysInYear(isLeap), i => CalendarSlot(i + 1, isLeap))
  }

  /** The day slots getAnnualHoursGreaterThan1Percent reads as written: 1 .. 365 or 1 .. 366. */
  function AsWrittenSlots(isLeap: bool): (slots: seq<int>)
    ensures |slots| == DaysInYear(isLeap)
  {
    seq(DaysInYear(isLeap), i => i + 1)
  }

  /** Every slot listed names a filled week. */
  predicate SlotsFilled(ws: seq<int>, weeks: seq<WeekSchedule>, days: seq<DaySchedule>, slots: seq<int>)
  {
    forall j :: 0 <= j < |slots| ==> 0 <= slots[j] < |ws| && WeekFilled(weeks, days, ws[slots[j]])
  }

  /** A timestep's length for each value above zero, added up in order. */
  function HoursOfVals(vals: seq<real>, timeStepZone: real): real
  {
    if vals == [] then 0.0
    else HoursOfVals(vals[..|vals| - 1], timeStepZone) + if vals[|vals| - 1] > 0.0 then timeStepZone else 0.0
  }

  /** One more value above zero adds one more timestep's length. */
  lemma AddOneTimestep(h: real, timeStepZone: real, c: nat, c': nat)
    requires h == timeStepZone * c as real && c' == c + 1
    ensures h + timeStepZone == timeStepZone * c' as real
  {
  }

  /** The hours are the timestep length times the number of values above zero. */
  lemma {:induction false} HoursOfValsCount(vals: seq<real>, timeStepZone: real)
    ensures HoursOfVals(vals, timeStepZone) == timeStepZone * PositiveCount(vals) as real
  {
    if vals == [] {
      assert PositiveCount(vals) == 0;
    } else {
      var init := vals[..|vals| - 1];
      HoursOfValsCount(init, timeStepZone);
      var h, c, c' := HoursOfVals(init, timeStepZone), PositiveCount(init), PositiveCount(vals);
      if vals[|vals| - 1] > 0.0 {
        assert HoursOfVals(vals, timeStepZone) == h + timeStepZone;
        AddOneTimestep(h, timeStepZone, c, c');
      } else {
        assert HoursOfVals(vals, timeStepZone) == h && c' == c;
      }
    }
  }

  /** The hours of one day with a value above zero. */
  function DayHoursAbove(ws: seq<int>, weeks: seq<WeekSchedule>, days: seq<DaySchedule>,
                         slot: int, dayType: int, timeStepZone: real): real
    requires 0 <= slot < |ws| && WeekFilled(weeks, days, ws[slot]) && 1 <= dayType < DayTypeNum
  {
    HoursOfVals(days[weeks[ws[slot]].dayScheds[dayType]].tsVals, timeStepZone)
  }

  /** The hours above zero of the days reading `slots` in turn, the first on day type `start`. */
  function HoursAbove(ws: seq<int>, weeks: seq<WeekSchedule>, days: seq<DaySchedule>,
                      slots: seq<int>, start: int, timeStepZone: real): real
    requires SlotsFilled(ws, weeks, days, slots) && Sunday <= start <= Saturday
  {
    if slots == [] then 0.0
    else
      HoursAbove(ws, weeks, days, slots[..|slots| - 1], start, timeStepZone)
      + DayHoursAbove(ws, weeks, days, slots[|slots| - 1], WeekdayOf(start, |slots| - 1), timeStepZone)
  }

  /** Adds a timestep's length for each value above zero. */
  method AddHoursAbove(total0: real, vals: seq<real>, timeStepZone: real) returns (total: real)
    ensures total == total0 + HoursOfVals(vals, timeStepZone)
  {
    total := total0;
    for i := 0 to |vals|
      invariant total == total0 + HoursOfVals(vals[..i], timeStepZone)
    {
      assert vals[..i + 1][..i] == vals[..i];
      if vals[i] > 0.0 {
        total := total + timeStepZone;
      }
    }
    assert vals[..|vals|] == vals;
  }

  /**
   * ScheduleDetailed::getAnnualHoursGreaterThan1Percent: the hours of the
   * year in which the schedule is above zero, the first day falling on day
   * type `start` (Sunday .. Saturday, otherwise no hours), each day reading
   * the day slot of its own date.
   */
  method AnnualHoursGreaterThan1Percent(ws: seq<int>, weeks: seq<WeekSchedule>, days: seq<DaySchedule>,
                                        start: int, isLeap: bool, timeStepZone: real)
    returns (total: real)
    requires SlotsFilled(ws, weeks, days, CalendarSlots(isLeap))
    ensures !(Sunday <= start <= Saturday) ==> total == 0.0
    ensures Sunday <= start <= Saturday ==> total == HoursAbove(ws, weeks, days, CalendarSlots(isLeap), start, timeStepZone)
  {
    var daysInYear := DaysInYear(isLeap);
    var dayT := start;
    total := 0.0;
    if dayT < Sunday || dayT > Saturday {
      return;
    }
    ghost var slots := CalendarSlots(isLeap);
    for iDay := 1 to daysInYear + 1
      invariant dayT == WeekdayOf(start, iDay - 1)
      invariant total == HoursAbove(ws, weeks, days, slots[..iDay - 1], start, timeStepZone)
    {
      assert slots[..iDay][..iDay - 1] == slots[..iDay - 1];
      assert slots[iDay - 1] == CalendarSlot(iDay, isLeap);
      var week := weeks[ws[CalendarSlot(iDay, isLeap)]];
      var daySched := days[week.dayScheds[dayT]];
      total := AddHoursAbove(total, daySched.tsVals, timeStepZone);
      WeekdayNext(start, iDay - 1);
      dayT := dayT + 1;
      if dayT > Saturday {
        dayT := Sunday;
      }
    }
    assert slots[..daysInYear] == slots;
  }

  /** Schedules whose day slots agree on every slot read have the same annual hours. */
  lemma {:induction false} HoursAboveAgree(ws: seq<int>, ws': seq<int>, weeks: seq<WeekSchedule>, days: seq<DaySchedule>,
                                           slots: seq<int>, start: int, timeStepZone: real)
    requires SlotsFilled(ws, weeks, days, slots) && |ws'| == |ws| && Sunday <= start <= Saturday
    requires forall j :: 0 <= j < |slots| ==> ws'[slots[j]] == ws[slots[j]]
    ensures SlotsFilled(ws', weeks, days, slots)
    ensures HoursAbove(ws', weeks, days, slots, start, timeStepZone) == HoursAbove(ws, weeks, days, slots, start, timeStepZone)
  {
    if slots != [] {
      HoursAboveAgree(ws, ws', weeks, days, slots[..|slots| - 1], start, timeStepZone);
    }
  }

  /**
   * As written, a year without 29 February reads day slot 60 (29 February,
   * a copy of 28 February) and never slot 366 (31 December): two schedules
   * that differ only in the week of 31 December get the same hours.
   */
  lemma {:induction false} AsWrittenIgnoresDecember31(ws: seq<int>, ws': seq<int>, weeks: seq<WeekSchedule>,
                                                     days: seq<DaySchedule>, start: int, timeStepZone: real)
    requires SlotsFilled(ws, weeks, days, AsWrittenSlots(false)) && |ws'| == |ws| == YearSlots
    requires Sunday <= start <= Saturday
    requires forall slot :: 0 <= slot < YearSlots - 1 ==> ws'[slot] == ws[slot]
    ensures LeapDaySlot in AsWrittenSlots(false) && YearSlots - 1 !in AsWrittenSlots(false)
    ensures SlotsFilled(ws', weeks, days, AsWrittenSlots(false))
    ensures HoursAbove(ws', weeks, days, AsWrittenSlots(false), start, timeStepZone)
            == HoursAbove(ws, weeks, days, AsWrittenSlots(false), start, timeStepZone)
  {
    assert AsWrittenSlots(false)[LeapDaySlot - 1] == LeapDaySlot;
    HoursAboveAgree(ws, ws', weeks, days, AsWrittenSlots(false), start, timeStepZone);
  }

  /**
   * Reading each day's own date: a leap year reads every slot 1 .. 366 in
   * order; any other year reads every slot but 60, in order, and its last
   * day, 31 December, reads slot 366 on the first day's type.
   */
  lemma {:induction false} CalendarSlotsReadEachDate(isLeap: bool)
    ensures forall i, j :: 0 <= i < j < |CalendarSlots(isLeap)| ==> CalendarSlots(isLeap)[i] < CalendarSlots(isLeap)[j]
    ensures forall slot :: 1 <= slot < YearSlots ==>
              (slot in CalendarSlots(isLeap) <==> isLeap || slot != LeapDaySlot)
    ensures CalendarSlots(isLeap)[|CalendarSlots(isLeap)| - 1] == YearSlots - 1
  {
    var slots := CalendarSlots(isLeap);
    forall slot | 1 <= slot < YearSlots && (isLeap || slot != LeapDaySlot)
      ensures slot in slots
    {
      var i := if !isLeap && slot > LeapDaySlot then slot - 2 else slot - 1;
      assert slots[i] == slot;
    }
  }

  /** Reading each day's own date, the week of 29 February is not read in a year without it. */
  lemma {:induction false} CalendarIgnoresLeapDaySlot(ws: seq<int>, ws': seq<int>, weeks: seq<WeekSchedule>,
                                                     days: seq<DaySchedule>, start: int, timeStepZone: real)
    requires SlotsFilled(ws, weeks, days, CalendarSlots(false)) && |ws'| == |ws| == YearSlots
    requires Sunday <= start <= Saturday
    requires forall slot :: 0 <= slot < YearSlots && slot != LeapDaySlot ==> ws'[slot] == ws[slot]
    ensures SlotsFilled(ws', weeks, days, CalendarSlots(false))
    ensures HoursAbove(ws', weeks, days, CalendarSlots(false), start, timeStepZone)
            == HoursAbove(ws, weeks, days, CalendarSlots(false), start, timeStepZone)
  {
    HoursAboveAgree(ws, ws', weeks, days, CalendarSlots(false), start, timeStepZone);
  }

  /** ScheduleConstant::getAnnualHoursGreaterThan1Percent: every hour of the year when the value is above zero. */
  function ConstantAnnualHours(currentVal: real, start: int, isLeap: bool): (r: real)
    ensures !(Sunday <= start <= Saturday) ==> r == 0.0
    ensures Sunday <= start <= Saturday ==> (r > 0.0 <==> currentVal > 0.0)
  {
    if start < Sunday || start > Saturday then 0.0
    else if currentVal > 0.0 then (HoursInDay * DaysInYear(isLeap)) as real
    else 0.0
  }

  /** A day whose values are all above zero adds a timestep's length per value. */
  lemma {:induction false} HoursOfValsAllPositive(vals: seq<real>, timeStepZone: real)
    requires forall i :: 0 <= i < |vals| ==> vals[i] > 0.0
    ensures HoursOfVals(vals, timeStepZone) == timeStepZone * |vals| as real
  {
    if vals != [] {
      HoursOfValsAllPositive(vals[..|vals| - 1], timeStepZone);
      assert timeStepZone * |vals| as real == timeStepZone * (|vals| - 1) as real + timeStepZone;
    }
  }

  /** When every day read has `len` values, all above zero, and they make 24 hours, each day adds 24 hours. */
  lemma {:induction false} HoursAboveAllPositive(ws: seq<int>, weeks: seq<WeekSchedule>, days: seq<DaySchedule>,
                                                 slots: seq<int>, start: int, timeStepZone: real, len: nat)
    requires SlotsFilled(ws, weeks, days, slots) && Sunday <= start <= Saturday
    requires forall d :: 0 <= d < |days| ==> |days[d].tsVals| == len && forall i :: 0 <= i < len ==> days[d].tsVals[i] > 0.0
    requires timeStepZone * len as real == HoursInDay as real
    ensures HoursAbove(ws, weeks, days, slots, start, timeStepZone) == (HoursInDay * |slots|) as real
  {
    if slots != [] {
      var prefix, last := slots[..|slots| - 1], slots[|slots| - 1];
      assert SlotsFilled(ws, weeks, days, prefix) by {
        forall j | 0 <= j < |prefix| ensures 0 <= prefix[j] < |ws| && WeekFilled(weeks, days, ws[prefix[j]]) {
          assert prefix[j] == slots[j];
        }
      }
      assert HoursAbove(ws, weeks, days, prefix, start, timeStepZone) == (HoursInDay * |prefix|) as real by {
        HoursAboveAllPositive(ws, weeks, days, prefix, start, timeStepZone, len);
      }
      assert DayHoursAbove(ws, weeks, days, last, WeekdayOf(start, |slots| - 1), timeStepZone) == HoursInDay as real by {
        var d := weeks[ws[last]].dayScheds[WeekdayOf(start, |slots| - 1)];
        HoursOfValsAllPositive(days[d].tsVals, timeStepZone);
      }
      assert (HoursInDay * |slots|) as real == (HoursInDay * |prefix|) as real + HoursInDay as real;
    }
  }

  /**
   * A detailed schedule above zero at every timestep gets the hours a
   * constant schedule above zero gets, 24 per day, when its timesteps add up
   * to 24 hours a day.
   */
  lemma {:induction false} DetailedAgreesWithConstant(ws: seq<int>, weeks: seq<WeekSchedule>, days: seq<DaySchedule>,
                                                     start: int, isLeap: bool, timeStepZone: real, len: nat)
    requires SlotsFilled(ws, weeks, days, CalendarSlots(isLeap)) && Sunday <= start <= Saturday
    requires forall d :: 0 <= d < |days| ==> |days[d].tsVals| == len && forall i :: 0 <= i < len ==> days[d].tsVals[i] > 0.0
    requires timeStepZone * len as real == HoursInDay as real
    ensures HoursAbove(ws, weeks, days, CalendarSlots(isLeap), start, timeStepZone) == ConstantAnnualHours(1.0, start, isLeap)
  {
    HoursAboveAllPositive(ws, weeks, days, CalendarSlots(isLeap), start, timeStepZone, len);
  }
}

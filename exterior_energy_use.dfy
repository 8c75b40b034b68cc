/**
 * ExteriorEnergyUse: exterior lights (schedule-only or astronomical-clock control, demand limit,
 * EMS override) and exterior equipment, per zone time step, with the input defaults and the
 * schedule minimum check of GetExteriorEnergyUseInput.
 */
module ExteriorEnergyUse {
  import IdfParser

  datatype LightControlType = LightControlInvalid | ScheduleOnly | AstroClockOverride

  // ---------------------------------------------------------------------------
  // Input defaults

  /** C++ `int` conversion of a real: truncation toward zero. */
  function TruncToInt(x: real): (n: int)
    ensures x >= 0.0 ==> 0 <= n && n as real <= x < n as real + 1.0
    ensures x < 0.0 ==> n <= 0 && n as real - 1.0 < x <= n as real
  {
    if x >= 0.0 then x.Floor else -((-x).Floor)
  }

  /** The schedule minimum check as written: the minimum is first stored in an `int`. */
  predicate ScheduleMinRejectedAsWritten(schedMin: real)
  {
    TruncToInt(schedMin) < 0
  }

  /** As written, only minima of -1 or below are rejected; a minimum of -0.5 passes. */
  lemma AsWrittenAcceptsNegativeFraction()
    ensures !ScheduleMinRejectedAsWritten(-0.5)
    ensures forall m: real :: ScheduleMinRejectedAsWritten(m) <==> m <= -1.0
  {
  }

  /** The intended check: every negative minimum is rejected. */
  predicate ScheduleMinRejected(schedMin: real)
  {
    schedMin < 0.0
  }

  /** The input of one Exterior:Lights object that the defaults and checks read. */
  datatype LightsInput = LightsInput(
    scheduleBlank: bool,
    scheduleFound: bool,
    scheduleMin: real,
    controlBlank: bool,
    controlKey: string,
    numAlphas: nat,
    subcategoryField: string)

  datatype LightsConfig = LightsConfig(controlMode: LightControlType, endUseSubcategory: string, errorsFound: bool)

  /**
   * The defaults of GetExteriorEnergyUseInput: a blank control mode is schedule-only, a missing
   * subcategory is "General"; a blank or unknown schedule or one with a negative minimum is an error.
   * An unrecognised control keyword is reported without stopping the run or counting as an error,
   * and leaves the mode the light already had (`priorMode`).
   */
  function ExteriorLightsConfig(inp: LightsInput, priorMode: LightControlType): (c: LightsConfig)
    ensures inp.controlBlank ==> c.controlMode == ScheduleOnly
    ensures IdfParser.SameString(inp.controlKey, "ScheduleNameOnly") ==> c.controlMode == ScheduleOnly
    ensures (!inp.controlBlank && IdfParser.SameString(inp.controlKey, "AstronomicalClock")
             && !IdfParser.SameString(inp.controlKey, "ScheduleNameOnly")) ==> c.controlMode == AstroClockOverride
    ensures (!inp.controlBlank && !IdfParser.SameString(inp.controlKey, "ScheduleNameOnly")
             && !IdfParser.SameString(inp.controlKey, "AstronomicalClock")) ==> c.controlMode == priorMode
    ensures inp.numAlphas <= 3 ==> c.endUseSubcategory == "General"
    ensures inp.numAlphas > 3 ==> c.endUseSubcategory == inp.subcategoryField
    ensures c.errorsFound <==> inp.scheduleBlank || !inp.scheduleFound || ScheduleMinRejected(inp.scheduleMin)
  {
    var errors :=
      if inp.scheduleBlank then true
      else if !inp.scheduleFound then true
      else ScheduleMinRejected(inp.scheduleMin);
    var mode :=
      if inp.controlBlank then ScheduleOnly
      else if IdfParser.SameString(inp.controlKey, "ScheduleNameOnly") then ScheduleOnly
      else if IdfParser.SameString(inp.controlKey, "AstronomicalClock") then AstroClockOverride
      else priorMode;
    LightsConfig(mode, if inp.numAlphas > 3 then inp.subcategoryField else "General", errors)
  }

  // ---------------------------------------------------------------------------
  // ReportExteriorEnergyUse

  datatype ExteriorLight = ExteriorLight(
    controlMode: LightControlType,
    designLevel: real,
    manageDemand: bool,
    demandLimit: real,
    powerActuatorOn: bool,
    powerActuatorValue: real,
    power: real,
    currentUse: real,
    sumConsumption: real,
    sumTimeNotZeroCons: real)

  datatype ExteriorEquipment = ExteriorEquipment(designLevel: real, power: real, currentUse: real)

  /** The simulation globals the report reads. */
  datatype ReportContext = ReportContext(
    sunIsUp: bool,
    timeStepZone: real,
    timeStepZoneSec: real,
    warmupFlag: bool,
    doOutputReporting: bool,
    runPeriodWeather: bool)

  /** Power from the control mode alone; an invalid mode leaves the previous power. */
  function ControlledPower(l: ExteriorLight, schedVal: real, sunIsUp: bool): real
  {
    match l.controlMode
    case ScheduleOnly => l.designLevel * schedVal
    case AstroClockOverride => if sunIsUp then 0.0 else l.designLevel * schedVal
    case LightControlInvalid => l.power
  }

  /** The light after one report: control, demand cap, EMS override, use over the step, tabular sums. */
  function ReportedLight(l: ExteriorLight, schedVal: real, ctx: ReportContext): ExteriorLight
  {
    var p0 := ControlledPower(l, schedVal, ctx.sunIsUp);
    var p1 := if l.manageDemand && p0 > l.demandLimit then l.demandLimit else p0;
    var p := if l.powerActuatorOn then l.powerActuatorValue else p1;
    var use := p * ctx.timeStepZoneSec;
    var gather := !ctx.warmupFlag && ctx.doOutputReporting && ctx.runPeriodWeather;
    l.(power := p, currentUse := use,
       sumConsumption := if gather then l.sumConsumption + use else l.sumConsumption,
       sumTimeNotZeroCons := if gather && use > 0.01 then l.sumTimeNotZeroCons + ctx.timeStepZone else l.sumTimeNotZeroCons)
  }

  /** Without EMS, a demand-managed light never draws more than its demand limit. */
  lemma DemandLimitCapsPower(l: ExteriorLight, schedVal: real, ctx: ReportContext)
    requires l.manageDemand && !l.powerActuatorOn
    ensures ReportedLight(l, schedVal, ctx).power <= l.demandLimit
  {
  }

  /** The EMS actuator is applied after the cap, so it may exceed the demand limit. */
  lemma EmsOverridesDemandLimit()
    ensures var l := ExteriorLight(ScheduleOnly, 100.0, true, 50.0, true, 80.0, 0.0, 0.0, 0.0, 0.0);
            ReportedLight(l, 1.0, ReportContext(false, 0.25, 900.0, false, true, true)).power == 80.0 > l.demandLimit
  {
  }

  /** Whatever sets the power, the energy of the step is power times the zone step in seconds. */
  lemma CurrentUseIsPowerTimesStep(l: ExteriorLight, schedVal: real, ctx: ReportContext)
    ensures var r := ReportedLight(l, schedVal, ctx);
            r.currentUse == r.power * ctx.timeStepZoneSec
  {
  }

  /** An astronomical-clock light is dark while the sun is up, unless EMS sets it or the demand limit is negative. */
  lemma AstroClockDarkWhileSunUp(l: ExteriorLight, schedVal: real, ctx: ReportContext)
    requires l.controlMode == AstroClockOverride && ctx.sunIsUp && !l.powerActuatorOn
    requires !l.manageDemand || l.demandLimit >= 0.0
    ensures ReportedLight(l, schedVal, ctx).power == 0.0
  {
  }

  /**
   * With an accepted schedule (minimum not negative) and a non-negative design level, a
   * schedule-only light without demand limit or EMS never reports negative power or use.
   */
  lemma AcceptedScheduleGivesNonNegativeUse(inp: LightsInput, priorMode: LightControlType, l: ExteriorLight, schedVal: real, ctx: ReportContext)
    requires !ExteriorLightsConfig(inp, priorMode).errorsFound && inp.scheduleMin <= schedVal
    requires l.controlMode == ScheduleOnly && l.designLevel >= 0.0 && !l.manageDemand && !l.powerActuatorOn
    requires ctx.timeStepZoneSec >= 0.0
    ensures ReportedLight(l, schedVal, ctx).power >= 0.0
    ensures ReportedLight(l, schedVal, ctx).currentUse >= 0.0
  {
    assert schedVal >= 0.0;
    assert l.designLevel * schedVal >= 0.0;
  }

  /** The tabular sums grow only outside warm-up, with reporting on, in a weather run period. */
  lemma SumsGatheredOnlyInWeatherRuns(l: ExteriorLight, schedVal: real, ctx: ReportContext)
    requires ctx.warmupFlag || !ctx.doOutputReporting || !ctx.runPeriodWeather
    ensures ReportedLight(l, schedVal, ctx).sumConsumption == l.sumConsumption
    ensures ReportedLight(l, schedVal, ctx).sumTimeNotZeroCons == l.sumTimeNotZeroCons
  {
  }

  /** One light, overwritten step by step as in the loop body of ReportExteriorEnergyUse. */
  method ReportLight(l: ExteriorLight, schedVal: real, ctx: ReportContext) returns (r: ExteriorLight)
    ensures r == ReportedLight(l, schedVal, ctx)
  {
    ghost var p0 := ControlledPower(l, schedVal, ctx.sunIsUp);
    ghost var p1 := if l.manageDemand && p0 > l.demandLimit then l.demandLimit else p0;
    ghost var p := if l.powerActuatorOn then l.powerActuatorValue else p1;
    r := l;
    match r.controlMode {
      case ScheduleOnly =>
        r := r.(power := r.designLevel * schedVal);
        r := r.(currentUse := r.power * ctx.timeStepZoneSec);
      case AstroClockOverride =>
        if ctx.sunIsUp {
          r := r.(power := 0.0, currentUse := 0.0);
        } else {
          r := r.(power := r.designLevel * schedVal);
          r := r.(currentUse := r.power * ctx.timeStepZoneSec);
        }
      case LightControlInvalid =>
    }
    assert r.power == p0 && r.(currentUse := l.currentUse) == l.(power := p0);
    if r.manageDemand && r.power > r.demandLimit {
      r := r.(power := r.demandLimit);
      r := r.(currentUse := r.power * ctx.timeStepZoneSec);
    }
    assert r.power == p1 && r.(currentUse := l.currentUse) == l.(power := p1);
    if r.powerActuatorOn {
      r := r.(power := r.powerActuatorValue);
    }
    assert r.(currentUse := l.currentUse) == l.(power := p);
    r := r.(currentUse := r.power * ctx.timeStepZoneSec);
    ghost var use := p * ctx.timeStepZoneSec;
    ghost var gather := !ctx.warmupFlag && ctx.doOutputReporting && ctx.runPeriodWeather;
    assert r == l.(power := p, currentUse := use);
    assert ReportedLight(l, schedVal, ctx)
        == l.(power := p, currentUse := use,
              sumConsumption := if gather then l.sumConsumption + use else l.sumConsumption,
              sumTimeNotZeroCons := if gather && use > 0.01 then l.sumTimeNotZeroCons + ctx.timeStepZone else l.sumTimeNotZeroCons);
    if !ctx.warmupFlag {
      if ctx.doOutputReporting && ctx.runPeriodWeather {
        r := r.(sumConsumption := r.sumConsumption + r.currentUse);
        if r.currentUse > 0.01 {
          r := r.(sumTimeNotZeroCons := r.sumTimeNotZeroCons + ctx.timeStepZone);
        }
      }
    }
  }

  /** Exterior equipment: design level times schedule, and its use over the step. */
  function ReportedEquipment(e: ExteriorEquipment, schedVal: real, timeStepZoneSec: real): (r: ExteriorEquipment)
    ensures r.designLevel == e.designLevel
    ensures r.currentUse == r.power * timeStepZoneSec
    ensures schedVal == 0.0 ==> r.power == 0.0 && r.currentUse == 0.0
  {
    var p := e.designLevel * schedVal;
    e.(power := p, currentUse := p * timeStepZoneSec)
  }

  /**
   * ReportExteriorEnergyUse: every light and every piece of equipment is updated from its current
   * schedule value (given here, one per object) and nothing else changes.
   */
  method ReportExteriorEnergyUse(lights: array<ExteriorLight>, lightSchedVals: seq<real>,
                                 equipment: array<ExteriorEquipment>, equipSchedVals: seq<real>, ctx: ReportContext)
    requires |lightSchedVals| == lights.Length && |equipSchedVals| == equipment.Length
    modifies lights, equipment
    ensures forall i :: 0 <= i < lights.Length ==> lights[i] == ReportedLight(old(lights[i]), lightSchedVals[i], ctx)
    ensures forall i :: 0 <= i < equipment.Length ==>
              equipment[i] == ReportedEquipment(old(equipment[i]), equipSchedVals[i], ctx.timeStepZoneSec)
  {
    for item := 0 to lights.Length
      invariant forall i :: 0 <= i < item ==> lights[i] == ReportedLight(old(lights[i]), lightSchedVals[i], ctx)
      invariant forall i :: item <= i < lights.Length ==> lights[i] == old(lights[i])
      invariant equipment[..] == old(equipment[..])
    {
      lights[item] := ReportLight(lights[item], lightSchedVals[item], ctx);
    }
    for item := 0 to equipment.Length
      invariant forall i :: 0 <= i < lights.Length ==> lights[i] == ReportedLight(old(lights[i]), lightSchedVals[i], ctx)
      invariant forall i :: 0 <= i < item ==>
                  equipment[i] == ReportedEquipment(old(equipment[i]), equipSchedVals[i], ctx.timeStepZoneSec)
      invariant forall i :: item <= i < equipment.Length ==> equipment[i] == old(equipment[i])
    {
      var e := equipment[item];
      e := e.(power := e.designLevel * equipSchedVals[item]);
      e := e.(currentUse := e.power * ctx.timeStepZoneSec);
      equipment[item] := e;
    }
  }
}

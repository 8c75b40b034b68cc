/**
 * HybridModel: which unknown the inverse zone model solves for (internal thermal mass,
 * infiltration or people count, each from temperature, humidity ratio or CO2 measurements), the
 * input errors of that choice, and the start and end days of the measurement period.
 */
module HybridModel {
  import ExternalInterface

  /** Which of the three measured-condition schedules exist. */
  datatype Measured = Measured(temp: bool, humRat: bool, co2: bool)
  {
    predicate Any() { temp || humRat || co2 }
  }

  /** The seven calculation flags of a hybrid-model zone. */
  datatype CalcFlags = CalcFlags(
    internalThermalMassCalcT: bool,
    infiltrationCalcT: bool,
    infiltrationCalcH: bool,
    infiltrationCalcC: bool,
    peopleCountCalcT: bool,
    peopleCountCalcH: bool,
    peopleCountCalcC: bool)
  {
    /** FlagHybridModel: some calculation is enabled. */
    predicate AnySet()
    {
      internalThermalMassCalcT || infiltrationCalcT || infiltrationCalcH || infiltrationCalcC
      || peopleCountCalcT || peopleCountCalcH || peopleCountCalcC
    }
  }

  predicate AtMostOne(a: bool, b: bool, c: bool)
  {
    !(a && b) && !(a && c) && !(b && c)
  }

  /**
   * The source for an infiltration or people-count calculation: temperature (unless thermal mass is
   * also requested), else humidity ratio, else CO2; nothing without a measurement.
   */
  function SourceFlags(requested: bool, thermalMass: bool, m: Measured): (r: (bool, bool, bool))
    ensures AtMostOne(r.0, r.1, r.2)
    ensures r.0 ==> requested && m.temp && !thermalMass
    ensures r.1 ==> requested && m.humRat && !m.temp
    ensures r.2 ==> requested && m.co2 && !m.temp && !m.humRat
  {
    if requested && m.Any() then
      (m.temp && !thermalMass, m.humRat && !m.temp, m.co2 && !m.temp && !m.humRat)
    else (false, false, false)
  }

  /** The calculation flags chosen for the three Yes/No options and the available measurements. */
  function SelectCalcFlags(flagTM: bool, flagAI: bool, flagPC: bool, m: Measured): (f: CalcFlags)
    ensures f.internalThermalMassCalcT <==> flagTM && m.temp
    ensures AtMostOne(f.infiltrationCalcT, f.infiltrationCalcH, f.infiltrationCalcC)
    ensures AtMostOne(f.peopleCountCalcT, f.peopleCountCalcH, f.peopleCountCalcC)
    ensures f.internalThermalMassCalcT ==> !f.infiltrationCalcT && !f.peopleCountCalcT
    ensures (f.infiltrationCalcT || f.infiltrationCalcH || f.infiltrationCalcC) ==> flagAI
    ensures (f.peopleCountCalcT || f.peopleCountCalcH || f.peopleCountCalcC) ==> flagPC
  {
    var infil := SourceFlags(flagAI, flagTM, m);
    var people := SourceFlags(flagPC, flagTM, m);
    CalcFlags(flagTM && m.temp, infil.0, infil.1, infil.2, people.0, people.1, people.2)
  }

  /**
   * The input errors: two options set together, thermal mass without a measured temperature, or
   * infiltration or people count without any measurement.
   */
  function HybridInputErrors(flagTM: bool, flagAI: bool, flagPC: bool, m: Measured): (e: bool)
    ensures e <==> (flagTM && flagAI) || (flagTM && flagPC) || (flagAI && flagPC)
                   || (flagTM && !m.temp) || ((flagAI || flagPC) && !m.Any())
  {
    var tmErrors := flagTM && (flagAI || flagPC || !m.temp);
    var aiErrors := flagAI && (flagPC || !m.Any());
    var pcErrors := flagPC && !m.Any();
    tmErrors || aiErrors || pcErrors
  }

  /** When infiltration is requested with some measurement and no thermal mass, exactly one source is chosen. */
  lemma InfiltrationSourceChosen(flagTM: bool, flagAI: bool, flagPC: bool, m: Measured)
    requires flagAI && !flagTM && m.Any()
    ensures var f := SelectCalcFlags(flagTM, flagAI, flagPC, m);
            f.infiltrationCalcT || f.infiltrationCalcH || f.infiltrationCalcC
  {
  }

  /**
   * An input without errors enables a calculation exactly when one of the three options is Yes,
   * and then at most one option is Yes.
   */
  lemma ValidInputSolvesOneUnknown(flagTM: bool, flagAI: bool, flagPC: bool, m: Measured)
    requires !HybridInputErrors(flagTM, flagAI, flagPC, m)
    ensures AtMostOne(flagTM, flagAI, flagPC)
    ensures SelectCalcFlags(flagTM, flagAI, flagPC, m).AnySet() <==> flagTM || flagAI || flagPC
  {
    var f := SelectCalcFlags(flagTM, flagAI, flagPC, m);
    if flagAI {
      InfiltrationSourceChosen(flagTM, flagAI, flagPC, m);
    }
    if flagPC {
      assert f.peopleCountCalcT || f.peopleCountCalcH || f.peopleCountCalcC;
    }
  }

  /** The non-leap cumulative days before each month (HMDayArr). */
  const HMDayArr: seq<int> := [0, 31, 59, 90, 120, 151, 181, 212, 243, 273, 304, 334]

  /** Day of year of a month and date; a month outside 1..12 contributes 0. */
  function HybridDayOfYear(month: int, date: int): (d: int)
    ensures !(1 <= month <= 12) ==> d == date
  {
    (if 1 <= month <= 12 then HMDayArr[month - 1] else 0) + date
  }

  /** The table agrees with the calendar of a non-leap year, so every date of such a year lands in 1..365. */
  lemma HybridDayOfYearIsCalendarDay(month: int, date: int)
    requires 1 <= month <= 12 && 1 <= date <= ExternalInterface.MonthDays(month, false)
    ensures HybridDayOfYear(month, date) == ExternalInterface.DaysBefore(month, false) + date
    ensures 1 <= HybridDayOfYear(month, date) <= 365
  {
    ExternalInterface.CumDaysAreMonthSums(month, false);
    assert HMDayArr[month - 1] == ExternalInterface.CumDays(month, false);
  }

  /**
   * One "solve for infiltration" or "solve for people count" scenario: the measurement source
   * chosen, and the error of a requested calculation without any measurement.
   */
  method ChooseSource(requested: bool, flagTM: bool, m: Measured) returns (calcT: bool, calcH: bool, calcC: bool, noMeasurement: bool)
    ensures (calcT, calcH, calcC) == SourceFlags(requested, flagTM, m)
    ensures noMeasurement <==> requested && !m.Any()
  {
    calcT, calcH, calcC, noMeasurement := false, false, false, false;
    if requested {
      if !m.temp && !m.humRat && !m.co2 {
        noMeasurement := true;
      } else {
        if m.temp && !flagTM { calcT := true; }
        if m.humRat && !m.temp { calcH := true; }
        if m.co2 && !m.temp && !m.humRat { calcC := true; }
      }
    }
  }

  /** Scenarios 1-1 to 1-3 of GetHybridModelZone: the seven flags, set step by step, and the input errors. */
  method ChooseCalculations(flagTM: bool, flagAI: bool, flagPC: bool, m: Measured) returns (f: CalcFlags, errorsFound: bool)
    ensures f == SelectCalcFlags(flagTM, flagAI, flagPC, m)
    ensures errorsFound == HybridInputErrors(flagTM, flagAI, flagPC, m)
  {
    errorsFound := false;
    var itm := false;
    // Scenario 1-1: thermal mass
    if flagTM {
      if flagAI { errorsFound := true; }
      if flagPC { errorsFound := true; }
      if !m.temp { errorsFound := true; } else { itm := true; }
    }
    // Scenario 1-2: infiltration
    if flagAI && flagPC { errorsFound := true; }
    var iT, iH, iC, infilError := ChooseSource(flagAI, flagTM, m);
    // Scenario 1-3: people count
    var pT, pH, pC, peopleError := ChooseSource(flagPC, flagTM, m);
    errorsFound := errorsFound || infilError || peopleError;
    f := CalcFlags(itm, iT, iH, iC, pT, pH, pC);
  }

  /** The per-zone results of GetHybridModelZone. */
  class HybridModelZone {
    var flags: CalcFlags
    var includeSystemSupplyParameters: bool
    var hybridStartDayOfYear: int
    var hybridEndDayOfYear: int

    constructor ()
      ensures !flags.AnySet() && !includeSystemSupplyParameters
      ensures hybridStartDayOfYear == 0 && hybridEndDayOfYear == 0
    {
      flags := CalcFlags(false, false, false, false, false, false, false);
      includeSystemSupplyParameters := false;
      hybridStartDayOfYear := 0;
      hybridEndDayOfYear := 0;
    }

    /**
     * The flag-setting steps of GetHybridModelZone for one zone: reset the seven flags, set them
     * scenario by scenario, decide whether the supply-air terms are used, and, when some
     * calculation is enabled, compute the day-of-year range. Returns FlagHybridModel and whether
     * an input error was found.
     */
    method SetCalculationFlags(flagTM: bool, flagAI: bool, flagPC: bool, m: Measured,
                               supplyTemp: bool, supplyMassFlow: bool, supplyHumRat: bool, supplyCO2: bool,
                               startMonth: int, startDate: int, endMonth: int, endDate: int)
      returns (flagHybridModel: bool, errorsFound: bool)
      modifies this
      ensures flags == SelectCalcFlags(flagTM, flagAI, flagPC, m)
      ensures errorsFound == HybridInputErrors(flagTM, flagAI, flagPC, m)
      ensures flagHybridModel == flags.AnySet()
      ensures includeSystemSupplyParameters <==>
                old(includeSystemSupplyParameters)
                || (supplyTemp && supplyMassFlow && supplyHumRat && (flags.infiltrationCalcT || flags.peopleCountCalcT))
                || (supplyHumRat && supplyMassFlow && (flags.infiltrationCalcH || flags.peopleCountCalcH))
                || (supplyCO2 && supplyMassFlow && (flags.infiltrationCalcC || flags.peopleCountCalcC))
      ensures flagHybridModel ==> hybridStartDayOfYear == HybridDayOfYear(startMonth, startDate)
                                  && hybridEndDayOfYear == HybridDayOfYear(endMonth, endDate)
      ensures !flagHybridModel ==> hybridStartDayOfYear == old(hybridStartDayOfYear)
                                   && hybridEndDayOfYear == old(hybridEndDayOfYear)
    {
      var f;
      f, errorsFound := ChooseCalculations(flagTM, flagAI, flagPC, m);
      flags := f;
      var iT, iH, iC, pT, pH, pC := f.infiltrationCalcT, f.infiltrationCalcH, f.infiltrationCalcC,
                                    f.peopleCountCalcT, f.peopleCountCalcH, f.peopleCountCalcC;
      if supplyTemp && supplyMassFlow && supplyHumRat && (iT || pT) {
        includeSystemSupplyParameters := true;
      }
      if supplyHumRat && supplyMassFlow && (iH || pH) {
        includeSystemSupplyParameters := true;
      }
      if supplyCO2 && supplyMassFlow && (iC || pC) {
        includeSystemSupplyParameters := true;
      }
      flagHybridModel := f.internalThermalMassCalcT || iT || iH || iC || pT || pH || pC;
      if flagHybridModel {
        var hmStartDay := 0;
        var hmEndDay := 0;
        if 1 <= startMonth <= 12 { hmStartDay := HMDayArr[startMonth - 1]; }
        if 1 <= endMonth <= 12 { hmEndDay := HMDayArr[endMonth - 1]; }
        hybridStartDayOfYear := hmStartDay + startDate;
        hybridEndDayOfYear := hmEndDay + endDate;
      }
    }
  }
}

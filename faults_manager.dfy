/**
 * FaultsManager: counting the operational-fault objects of a model, the schedule-driven fault
 * factors, the faulty chiller supply-water-temperature sensor and the coil SAT sensor lookup.
 */
module FaultsManager {
  import opened Wrappers
  import IdfParser

  /** The sixteen fault object types, in the order of the cFaults table; the first five are economizer sensor offsets. */
  const NumFaultTypes: nat := 16

  function Sum(s: seq<nat>): (r: nat)
  {
    if s == [] then 0 else Sum(s[..|s| - 1]) + s[|s| - 1]
  }

  /** The model has a fault exactly when some fault type has at least one object. */
  lemma {:induction false} SumPositiveIffSomeCount(s: seq<nat>)
    ensures Sum(s) > 0 <==> exists i :: 0 <= i < |s| && s[i] > 0
  {
    if s != [] {
      SumPositiveIffSomeCount(s[..|s| - 1]);
      if Sum(s[..|s| - 1]) > 0 {
        var i :| 0 <= i < |s| - 1 && s[..|s| - 1][i] > 0;
        assert s[i] > 0;
      }
      if exists i :: 0 <= i < |s| && s[i] > 0 {
        var i :| 0 <= i < |s| && s[i] > 0;
        if i < |s| - 1 {
          assert s[..|s| - 1][i] > 0;
        }
      }
    }
  }

  /** A prefix never sums to more than the whole. */
  lemma {:induction false} SumPrefixAtMost(s: seq<nat>, k: nat)
    requires k <= |s|
    ensures Sum(s[..k]) <= Sum(s)
    decreases |s|
  {
    if k < |s| {
      assert s[..|s| - 1][..k] == s[..k];
      SumPrefixAtMost(s[..|s| - 1], k);
    } else {
      assert s[..k] == s;
    }
  }

  /** The fault counters kept by FaultsManagerData. */
  class FaultsManagerData {
    var runFaultMgrOnceFlag: bool
    var anyFaultsInModel: bool
    var numFaults: nat
    var numFaultyEconomizer: nat
    /** The counts of fault types 6 to 16 (coil fouling ... evaporative cooler fouling), in cFaults order. */
    var numPerType: seq<nat>

    constructor ()
      ensures !runFaultMgrOnceFlag && !anyFaultsInModel && numFaults == 0 && numFaultyEconomizer == 0
      ensures numPerType == seq(NumFaultTypes - 5, _ => 0)
    {
      runFaultMgrOnceFlag := false;
      anyFaultsInModel := false;
      numFaults := 0;
      numFaultyEconomizer := 0;
      numPerType := seq(NumFaultTypes - 5, _ => 0);
    }

    /**
     * The counting part of CheckAndReadFaults: once per simulation, adds up the objects of all
     * sixteen types, the first five into the economizer count, and records whether the model has
     * any fault. Reading the fault objects themselves is not part of this model.
     */
    method CheckAndCountFaults(objectCounts: seq<nat>)
      requires |objectCounts| == NumFaultTypes
      modifies this
      ensures old(runFaultMgrOnceFlag) ==>
                runFaultMgrOnceFlag && anyFaultsInModel == old(anyFaultsInModel) && numFaults == old(numFaults)
                && numFaultyEconomizer == old(numFaultyEconomizer) && numPerType == old(numPerType)
      ensures !old(runFaultMgrOnceFlag) ==>
                runFaultMgrOnceFlag
                && numFaults == Sum(objectCounts)
                && numFaultyEconomizer == Sum(objectCounts[..5])
                && numPerType == objectCounts[5..]
                && (anyFaultsInModel <==> exists i :: 0 <= i < NumFaultTypes && objectCounts[i] > 0)
    {
      if runFaultMgrOnceFlag {
        return;
      }
      numFaults := 0;
      numFaultyEconomizer := 0;
      numPerType := [];
      for i := 0 to NumFaultTypes
        invariant numFaults == Sum(objectCounts[..i])
        invariant numFaultyEconomizer == Sum(objectCounts[..if i <= 5 then i else 5])
        invariant numPerType == if i <= 5 then [] else objectCounts[5..i]
      {
        var numFaultsTemp := objectCounts[i];
        assert objectCounts[..i + 1][..i] == objectCounts[..i];
        numFaults := numFaults + numFaultsTemp;
        if i <= 4 {
          numFaultyEconomizer := numFaultyEconomizer + numFaultsTemp;
        } else {
          numPerType := numPerType + [numFaultsTemp];
        }
      }
      assert objectCounts[..NumFaultTypes] == objectCounts;
      SumPositiveIffSomeCount(objectCounts);
      anyFaultsInModel := numFaults > 0;
      runFaultMgrOnceFlag := true;
    }
  }

  // ---------------------------------------------------------------------------
  // Schedule-driven fault factors

  /** The fault modification factor: the severity (1 without a severity schedule) while the fault is available, else 0. */
  function FaultFac(availVal: real, severityVal: Option<real>): (f: real)
    ensures availVal <= 0.0 ==> f == 0.0
  {
    if availVal > 0.0 then (if severityVal.Some? then severityVal.value else 1.0) else 0.0
  }

  /** CalFaultOffsetAct: the sensor offset scaled by the fault factor. */
  function CalFaultOffsetAct(availVal: real, severityVal: Option<real>, offset: real): (r: real)
    ensures availVal <= 0.0 ==> r == 0.0
    ensures availVal > 0.0 && severityVal.None? ==> r == offset
  {
    FaultFac(availVal, severityVal) * offset
  }

  /** With a severity between 0 and 1 the actual offset never exceeds the nominal one in magnitude and keeps its sign. */
  lemma OffsetActWithinNominal(availVal: real, severityVal: Option<real>, offset: real)
    requires severityVal.Some? ==> 0.0 <= severityVal.value <= 1.0
    ensures var r := CalFaultOffsetAct(availVal, severityVal, offset);
            (offset >= 0.0 ==> 0.0 <= r <= offset) && (offset <= 0.0 ==> offset <= r <= 0.0)
  {
    var f := FaultFac(availVal, severityVal);
    assert 0.0 <= f <= 1.0;
    assert CalFaultOffsetAct(availVal, severityVal, offset) == f * offset;
    ScaledWithin(f, offset);
  }

  /** A factor between 0 and 1 scales a number towards zero without changing its sign. */
  lemma ScaledWithin(f: real, x: real)
    requires 0.0 <= f <= 1.0
    ensures x >= 0.0 ==> 0.0 <= f * x <= x
    ensures x <= 0.0 ==> x <= f * x <= 0.0
  {
    assert x - f * x == (1.0 - f) * x;
    if x >= 0.0 {
      NonNegativeProduct(f, x);
      NonNegativeProduct(1.0 - f, x);
    } else {
      NonNegativeProduct(f, -x);
      NonNegativeProduct(1.0 - f, -x);
      assert f * -x == -(f * x);
      assert (1.0 - f) * -x == -((1.0 - f) * x);
    }
  }

  lemma NonNegativeProduct(a: real, b: real)
    requires a >= 0.0 && b >= 0.0
    ensures a * b >= 0.0
  {
  }

  /** The nominal reduction factor divided by the fault factor, capped at 1; 1 when the fault factor is not positive. */
  function ReducedFactor(faultFac: real, nominal: real): (r: real)
    ensures r <= 1.0
    ensures faultFac <= 0.0 ==> r == 1.0
    ensures faultFac > 0.0 && nominal / faultFac < 1.0 ==> r == nominal / faultFac
    ensures faultFac > 0.0 && nominal / faultFac >= 1.0 ==> r == 1.0
  {
    if faultFac > 0.0 then (if nominal / faultFac < 1.0 then nominal / faultFac else 1.0) else 1.0
  }

  /** CalFoulingFactor: the capacity or efficiency ratio of a fouled component. */
  function CalFoulingFactor(availVal: real, severityVal: Option<real>, foulingFactor: real): (r: real)
    ensures r <= 1.0
    ensures availVal <= 0.0 ==> r == 1.0
  {
    ReducedFactor(FaultFac(availVal, severityVal), foulingFactor)
  }

  /** CalFaultyTowerFoulingFactor: the UA ratio of a scaled cooling tower. */
  function CalFaultyTowerFoulingFactor(availVal: real, severityVal: Option<real>, uaReductionFactor: real): (r: real)
    ensures r <= 1.0
    ensures availVal <= 0.0 ==> r == 1.0
  {
    ReducedFactor(FaultFac(availVal, severityVal), uaReductionFactor)
  }

  /** The more severe the fouling, the smaller (or equal) the factor, for a non-negative nominal factor. */
  lemma MoreSevereFoulsMore(fac1: real, fac2: real, nominal: real)
    requires 0.0 < fac1 <= fac2 && nominal >= 0.0
    ensures ReducedFactor(fac2, nominal) <= ReducedFactor(fac1, nominal)
  {
    assert nominal / fac2 <= nominal / fac1 by {
      assert nominal / fac2 * fac2 == nominal;
      assert nominal / fac1 * fac1 == nominal;
      assert (nominal / fac1) * fac2 >= (nominal / fac1) * fac1;
    }
  }

  /** FaultFraction of a fouled coil: the severity value while available, else 0. */
  function FaultFraction(availVal: real, severityVal: real): (r: real)
    ensures availVal > 0.0 ==> r == severityVal
    ensures availVal <= 0.0 ==> r == 0.0
    ensures r == FaultFac(availVal, Some(severityVal))
    ensures 0.0 <= severityVal <= 1.0 ==> 0.0 <= r <= 1.0
  {
    if availVal > 0.0 then severityVal else 0.0
  }

  /** CheckFaultyAirFilterFanCurve: the curve's pressure rise lies strictly within 5% of the fan's design value. */
  function FanCurveCoversRatedPoint(deltaPressCal: real, fanDeltaPress: real): (ok: bool)
  {
    deltaPressCal > 0.95 * fanDeltaPress && deltaPressCal < 1.05 * fanDeltaPress
  }

  /** For a positive design rise the check accepts exactly the curve values within 5% of it. */
  lemma FanCurveWithinFivePercent(deltaPressCal: real, fanDeltaPress: real)
    requires fanDeltaPress > 0.0
    ensures FanCurveCoversRatedPoint(deltaPressCal, fanDeltaPress) <==>
              -0.05 * fanDeltaPress < deltaPressCal - fanDeltaPress < 0.05 * fanDeltaPress
    ensures FanCurveCoversRatedPoint(deltaPressCal, fanDeltaPress) ==> deltaPressCal > 0.0
  {
  }

  // ---------------------------------------------------------------------------
  // Faulty chiller supply water temperature sensor

  /** The guard of the variable-flow branch as written: it checks the faulty outlet temperature only. */
  predicate VariableFlowGuardAsWritten(cp: real, evapInletTemp: real, evapOutletTempFF: real, offset: real, evapMassFlowRateFF: real)
  {
    evapInletTemp > evapOutletTempFF - offset && cp > 0.0 && evapMassFlowRateFF > 0.0
  }

  /**
   * The guard as written admits a zero divisor: with a positive offset and an inlet temperature
   * equal to the fault-free outlet temperature the flow is recomputed as a division by zero.
   */
  lemma VariableFlowGuardAdmitsZeroDivisor()
    ensures VariableFlowGuardAsWritten(4180.0, 7.0, 7.0, 1.0, 2.0) && 7.0 - 7.0 == 0.0
  {
  }

  /** The corrected guard also requires the fault-free temperature difference, the divisor, to be positive. */
  predicate VariableFlowGuard(cp: real, evapInletTemp: real, evapOutletTempFF: real, offset: real, evapMassFlowRateFF: real)
  {
    VariableFlowGuardAsWritten(cp, evapInletTemp, evapOutletTempFF, offset, evapMassFlowRateFF)
    && evapInletTemp > evapOutletTempFF
  }

  /**
   * CalFaultChillerSWT: the faulty outlet temperature is the fault-free one minus the offset; the
   * flow is kept (constant flow) or recomputed from the fault-free load (variable flow); both flow
   * and load are zero when the water would not be cooled or there is no flow.
   */
  method CalFaultChillerSWT(flagVariableFlow: bool, faultyChillerSWTOffset: real, cp: real, evapInletTemp: real,
                            evapOutletTemp: real, evapMassFlowRate: real, qEvaporator: real)
    returns (evapOutletTempOut: real, evapMassFlowRateOut: real, qEvaporatorOut: real)
    ensures evapOutletTempOut == evapOutletTemp - faultyChillerSWTOffset
    ensures !flagVariableFlow ==>
              if evapInletTemp > evapOutletTempOut && evapMassFlowRate > 0.0 then
                evapMassFlowRateOut == evapMassFlowRate
                && qEvaporatorOut == evapMassFlowRate * cp * (evapInletTemp - evapOutletTempOut)
              else evapMassFlowRateOut == 0.0 && qEvaporatorOut == 0.0
    ensures flagVariableFlow ==>
              if VariableFlowGuard(cp, evapInletTemp, evapOutletTemp, faultyChillerSWTOffset, evapMassFlowRate) then
                evapMassFlowRateOut * cp * (evapInletTemp - evapOutletTemp) == qEvaporator
                && qEvaporatorOut == evapMassFlowRateOut * cp * (evapInletTemp - evapOutletTempOut)
              else evapMassFlowRateOut == 0.0 && qEvaporatorOut == 0.0
  {
    var evapOutletTempFF := evapOutletTemp;
    var evapMassFlowRateFF := evapMassFlowRate;
    var qEvaporatorFF := qEvaporator;
    evapMassFlowRateOut := evapMassFlowRateFF;
    evapOutletTempOut := evapOutletTempFF - faultyChillerSWTOffset;
    if !flagVariableFlow {
      if evapInletTemp > evapOutletTempOut && evapMassFlowRateFF > 0.0 {
        qEvaporatorOut := evapMassFlowRateFF * cp * (evapInletTemp - evapOutletTempOut);
      } else {
        evapMassFlowRateOut := 0.0;
        qEvaporatorOut := 0.0;
      }
    } else {
      if VariableFlowGuard(cp, evapInletTemp, evapOutletTempFF, faultyChillerSWTOffset, evapMassFlowRateFF) {
        evapMassFlowRateOut := qEvaporatorFF / cp / (evapInletTemp - evapOutletTempFF);
        qEvaporatorOut := evapMassFlowRateOut * cp * (evapInletTemp - evapOutletTempOut);
      } else {
        evapMassFlowRateOut := 0.0;
        qEvaporatorOut := 0.0;
      }
    }
  }

  /**
   * A sensor reading too high (positive offset) makes the chiller cool further: in variable-flow
   * mode with a positive fault-free load the recomputed flow is positive and the faulty load is
   * larger than the fault-free one.
   */
  lemma PositiveOffsetRaisesLoad(cp: real, evapInletTemp: real, evapOutletTemp: real, offset: real,
                                 evapMassFlowRate: real, qEvaporator: real)
    requires offset > 0.0 && qEvaporator > 0.0
    requires VariableFlowGuard(cp, evapInletTemp, evapOutletTemp, offset, evapMassFlowRate)
    ensures var flow := qEvaporator / cp / (evapInletTemp - evapOutletTemp);
            flow > 0.0 && flow * cp * (evapInletTemp - (evapOutletTemp - offset)) > qEvaporator
  {
    var d := evapInletTemp - evapOutletTemp;
    var flow := qEvaporator / cp / d;
    assert flow * cp * d == qEvaporator;
    assert flow > 0.0;
    assert flow * cp * (d + offset) == qEvaporator + flow * cp * offset;
    assert flow * cp * offset > 0.0;
  }

  // ---------------------------------------------------------------------------
  // Coil supply air temperature sensor lookup

  datatype CoilSATFault = CoilSATFault(coilType: string, coilName: string)

  predicate FaultMatches(f: CoilSATFault, compType: string, compName: string)
  {
    IdfParser.SameString(f.coilType, compType) && IdfParser.SameString(f.coilName, compName)
  }

  /**
   * SetFaultyCoilSATSensor: finds the first coil-SAT fault (1-based index) whose coil type and name
   * match the component case-insensitively; no match gives false and 0.
   */
  method SetFaultyCoilSATSensor(faults: seq<CoilSATFault>, compType: string, compName: string)
    returns (faultyCoilSATFlag: bool, faultyCoilSATIndex: nat)
    ensures faultyCoilSATFlag <==> exists j :: 0 <= j < |faults| && FaultMatches(faults[j], compType, compName)
    ensures !faultyCoilSATFlag ==> faultyCoilSATIndex == 0
    ensures faultyCoilSATFlag ==>
              1 <= faultyCoilSATIndex <= |faults|
              && FaultMatches(faults[faultyCoilSATIndex - 1], compType, compName)
              && forall j :: 0 <= j < faultyCoilSATIndex - 1 ==> !FaultMatches(faults[j], compType, compName)
  {
    faultyCoilSATFlag := false;
    faultyCoilSATIndex := 0;
    if |faults| == 0 {
      return;
    }
    for jFault := 1 to |faults| + 1
      invariant !faultyCoilSATFlag && faultyCoilSATIndex == 0
      invariant forall j :: 0 <= j < jFault - 1 ==> !FaultMatches(faults[j], compType, compName)
    {
      if FaultMatches(faults[jFault - 1], compType, compName) {
        faultyCoilSATFlag := true;
        faultyCoilSATIndex := jFault;
        break;
      }
    }
  }
}

/**
 * ExhaustAirSystemManager: the zone exhaust control (flow fraction from schedules, availability
 * and a minimum zone temperature, split into balanced and unbalanced flow), its pass-through
 * outlet node, its design flow sizing and the zone exhaust totals.
 */
module ExhaustAirSystemManager {
  import opened DataLoopNode
  import opened Wrappers

  datatype FlowControlType = Scheduled | FollowSupply | FlowControlInvalid

  /** A ZoneHVAC:ExhaustControl object; node and zone numbers are 0-based indices. */
  datatype ZoneExhaustControl = ZoneExhaustControl(
    inletNodeNum: nat,
    outletNodeNum: nat,
    controlledZoneNum: nat,
    flowControlOption: FlowControlType,
    suppNodeNums: seq<nat>,
    designExhaustFlowRate: real,
    balancedFlow: real,
    unbalancedFlow: real)

  /**
   * The current values of the control's schedules. The exhaust flow fraction schedule always
   * exists (it defaults to always-on); the other three are optional.
   */
  datatype ExhaustScheduleVals = ExhaustScheduleVals(
    avail: real,
    exhaustFlowFraction: real,
    minExhFlowFrac: Option<real>,
    minZoneTempLimit: Option<real>,
    balancedExhFrac: Option<real>)

  function NonNegative(x: real): (r: real)
    ensures r >= 0.0 && r >= x
    ensures x >= 0.0 ==> r == x
  {
    if x < 0.0 then 0.0 else x
  }

  /** The minimum flow fraction: the schedule value reset to 0 when negative, 0 without a schedule. */
  function MinFlowFraction(s: ExhaustScheduleVals): (r: real)
    ensures r >= 0.0
  {
    if s.minExhFlowFrac.Some? then NonNegative(s.minExhFlowFrac.value) else 0.0
  }

  /**
   * The scheduled flow fraction as written: the exhaust fraction is read only when a minimum
   * fraction schedule exists (the guard tests the wrong schedule), then raised to the minimum.
   */
  function ScheduledFractionAsWritten(s: ExhaustScheduleVals): (r: real)
  {
    var frac := if s.minExhFlowFrac.Some? then NonNegative(s.exhaustFlowFraction) else 0.0;
    if frac < MinFlowFraction(s) then MinFlowFraction(s) else frac
  }

  /** As written, a control without a minimum-fraction schedule exhausts nothing even at a fraction of 1. */
  lemma AsWrittenIgnoresExhaustFraction()
    ensures ScheduledFractionAsWritten(ExhaustScheduleVals(1.0, 1.0, None, None, None)) == 0.0
  {
  }

  /** The intended scheduled fraction: the exhaust fraction (not below 0), raised to the minimum fraction. */
  function ScheduledFraction(s: ExhaustScheduleVals): (r: real)
    ensures r >= MinFlowFraction(s) && r >= NonNegative(s.exhaustFlowFraction) && r >= 0.0
    ensures r == NonNegative(s.exhaustFlowFraction) || r == MinFlowFraction(s)
  {
    var frac := NonNegative(s.exhaustFlowFraction);
    if frac < MinFlowFraction(s) then MinFlowFraction(s) else frac
  }

  /** The fraction after availability and the minimum zone temperature limit. */
  function FlowFraction(s: ExhaustScheduleVals, zoneTemp: real): (r: real)
    ensures s.avail <= 0.0 ==> r == 0.0
    ensures s.avail > 0.0 && s.minZoneTempLimit.Some? && zoneTemp < s.minZoneTempLimit.value ==> r == MinFlowFraction(s)
    ensures s.avail > 0.0 && (s.minZoneTempLimit.None? || zoneTemp >= s.minZoneTempLimit.value) ==> r == ScheduledFraction(s)
    ensures r >= 0.0
  {
    if s.avail > 0.0 then
      if s.minZoneTempLimit.Some? && zoneTemp < s.minZoneTempLimit.value then MinFlowFraction(s)
      else ScheduledFraction(s)
    else 0.0
  }

  /** With the intended rule an available control with the default schedule (1.0) and no limits runs at design flow. */
  lemma DefaultScheduleRunsAtDesignFlow(s: ExhaustScheduleVals, zoneTemp: real)
    requires s.avail > 0.0 && s.exhaustFlowFraction == 1.0 && s.minExhFlowFrac.None? && s.minZoneTempLimit.None?
    ensures FlowFraction(s, zoneTemp) == 1.0
  {
  }

  function SumFlows(nodes: seq<NodeData>, nums: seq<nat>): real
    requires forall i :: 0 <= i < |nums| ==> nums[i] < |nodes|
  {
    if nums == [] then 0.0 else SumFlows(nodes, nums[..|nums| - 1]) + nodes[nums[|nums| - 1]].massFlowRate
  }

  function SumMaxFlows(nodes: seq<NodeData>, nums: seq<nat>): real
    requires forall i :: 0 <= i < |nums| ==> nums[i] < |nodes|
  {
    if nums == [] then 0.0 else SumMaxFlows(nodes, nums[..|nums| - 1]) + nodes[nums[|nums| - 1]].massFlowRateMax
  }

  /** The exhaust mass flow: the supply flow (FollowSupply) or the design flow, times the fraction. */
  function ExhaustMassFlow(c: ZoneExhaustControl, nodes: seq<NodeData>, s: ExhaustScheduleVals, zoneTemp: real): (m: real)
    requires forall i :: 0 <= i < |c.suppNodeNums| ==> c.suppNodeNums[i] < |nodes|
    ensures s.avail <= 0.0 ==> m == 0.0
  {
    var base := if c.flowControlOption == FollowSupply then SumFlows(nodes, c.suppNodeNums) else c.designExhaustFlowRate;
    base * FlowFraction(s, zoneTemp)
  }

  /** The outlet node after the pass-through of CalcZoneHVACExhaustControl. */
  function PassedThrough(outlet: NodeData, inlet: NodeData, co2Simulation: bool, genericContamSimulation: bool): NodeData
  {
    outlet.(massFlowRate := inlet.massFlowRate, temp := inlet.temp, humRat := inlet.humRat, enthalpy := inlet.enthalpy,
            quality := inlet.quality, press := inlet.press, massFlowRateMax := inlet.massFlowRateMax,
            massFlowRateMaxAvail := inlet.massFlowRateMaxAvail, massFlowRateMinAvail := inlet.massFlowRateMinAvail,
            co2 := if co2Simulation then inlet.co2 else outlet.co2,
            genContam := if genericContamSimulation then inlet.genContam else outlet.genContam)
  }

  predicate NodesValid(c: ZoneExhaustControl, numNodes: nat)
  {
    c.inletNodeNum < numNodes && c.outletNodeNum < numNodes
    && forall i :: 0 <= i < |c.suppNodeNums| ==> c.suppNodeNums[i] < numNodes
  }

  /** The supply-node flow loop of the FollowSupply branch. */
  method SupplyFlowRate(nodes: array<NodeData>, nums: seq<nat>) returns (supplyFlowRate: real)
    requires forall i :: 0 <= i < |nums| ==> nums[i] < nodes.Length
    ensures supplyFlowRate == SumFlows(nodes[..], nums)
  {
    supplyFlowRate := 0.0;
    for i := 0 to |nums|
      invariant supplyFlowRate == SumFlows(nodes[..], nums[..i])
    {
      assert nums[..i + 1][..i] == nums[..i];
      supplyFlowRate := supplyFlowRate + nodes[nums[i]].massFlowRate;
    }
    assert nums[..|nums|] == nums;
  }

  /** The recomputing branch of CalcZoneHVACExhaustControl: the mass flow and its balanced/unbalanced split. */
  method ComputeExhaustFlows(c: ZoneExhaustControl, nodes: array<NodeData>, s: ExhaustScheduleVals, zoneTemp: real)
    returns (massFlow: real, balancedFlow: real, unbalancedFlow: real)
    requires NodesValid(c, nodes.Length)
    ensures massFlow == ExhaustMassFlow(c, nodes[..], s, zoneTemp)
    ensures balancedFlow + unbalancedFlow == massFlow
    ensures s.balancedExhFrac.None? ==> balancedFlow == 0.0
    ensures s.balancedExhFrac.Some? ==> balancedFlow == massFlow * s.balancedExhFrac.value
  {
    var flowFrac := FlowFraction(s, zoneTemp);
    if c.flowControlOption == FollowSupply {
      var supplyFlowRate := SupplyFlowRate(nodes, c.suppNodeNums);
      massFlow := supplyFlowRate * flowFrac;
    } else {
      massFlow := c.designExhaustFlowRate * flowFrac;
    }
    if s.balancedExhFrac.Some? {
      balancedFlow := massFlow * s.balancedExhFrac.value;
      unbalancedFlow := massFlow - balancedFlow;
    } else {
      balancedFlow := 0.0;
      unbalancedFlow := massFlow;
    }
  }

  /**
   * CalcZoneHVACExhaustControl: a non-negative FlowRatio only scales the previous flows; otherwise
   * the flow is recomputed from the schedules and split into balanced and unbalanced parts. Either
   * way the outlet node copies the inlet node, and no other node or control changes.
   */
  method CalcZoneHVACExhaustControl(controls: array<ZoneExhaustControl>, num: nat, nodes: array<NodeData>,
                                    s: ExhaustScheduleVals, zoneTemp: real, flowRatio: real,
                                    co2Simulation: bool, genericContamSimulation: bool)
    requires num < controls.Length && NodesValid(controls[num], nodes.Length)
    modifies controls, nodes
    ensures flowRatio >= 0.0 ==>
              controls[num] == old(controls[num]).(balancedFlow := old(controls[num]).balancedFlow * flowRatio,
                                                   unbalancedFlow := old(controls[num]).unbalancedFlow * flowRatio)
    ensures flowRatio >= 0.0 ==>
              nodes[old(controls[num]).inletNodeNum]
              == old(nodes[controls[num].inletNodeNum]).(massFlowRate := old(nodes[controls[num].inletNodeNum]).massFlowRate * flowRatio)
    ensures flowRatio < 0.0 ==>
              nodes[old(controls[num]).inletNodeNum]
              == old(nodes[controls[num].inletNodeNum]).(massFlowRate := ExhaustMassFlow(old(controls[num]), old(nodes[..]), s, zoneTemp))
    ensures flowRatio < 0.0 ==>
              controls[num] == old(controls[num]).(balancedFlow := controls[num].balancedFlow, unbalancedFlow := controls[num].unbalancedFlow)
              && controls[num].balancedFlow + controls[num].unbalancedFlow == ExhaustMassFlow(old(controls[num]), old(nodes[..]), s, zoneTemp)
              && (s.balancedExhFrac.None? ==> controls[num].balancedFlow == 0.0)
              && (s.balancedExhFrac.Some? ==>
                    controls[num].balancedFlow == ExhaustMassFlow(old(controls[num]), old(nodes[..]), s, zoneTemp) * s.balancedExhFrac.value)
    ensures nodes[old(controls[num]).outletNodeNum]
            == PassedThrough(old(nodes[controls[num].outletNodeNum]), nodes[old(controls[num]).inletNodeNum], co2Simulation, genericContamSimulation)
    ensures forall k :: 0 <= k < controls.Length && k != num ==> controls[k] == old(controls[k])
    ensures forall n :: 0 <= n < nodes.Length && n != old(controls[num]).inletNodeNum && n != old(controls[num]).outletNodeNum
              ==> nodes[n] == old(nodes[n])
  {
    var c := controls[num];
    var inletNode := c.inletNodeNum;
    var outletNode := c.outletNodeNum;
    if flowRatio >= 0.0 {
      controls[num] := c.(balancedFlow := c.balancedFlow * flowRatio, unbalancedFlow := c.unbalancedFlow * flowRatio);
      nodes[inletNode] := nodes[inletNode].(massFlowRate := nodes[inletNode].massFlowRate * flowRatio);
    } else {
      var massFlow, balancedFlow, unbalancedFlow := ComputeExhaustFlows(c, nodes, s, zoneTemp);
      controls[num] := c.(balancedFlow := balancedFlow, unbalancedFlow := unbalancedFlow);
      nodes[inletNode] := nodes[inletNode].(massFlowRate := massFlow);
    }
    nodes[outletNode] := PassedThrough(nodes[outletNode], nodes[inletNode], co2Simulation, genericContamSimulation);
  }

  /** SizeExhaustControlFlow: FollowSupply sums the supply nodes' maximum flows, otherwise the zone's minimum outdoor air. */
  method SizeExhaustControlFlow(controls: array<ZoneExhaustControl>, num: nat, nodes: array<NodeData>,
                                nodeNums: seq<nat>, zoneMinOA: real)
    requires num < controls.Length
    requires forall i :: 0 <= i < |nodeNums| ==> nodeNums[i] < nodes.Length
    modifies controls
    ensures controls[num] == old(controls[num]).(designExhaustFlowRate :=
              if old(controls[num]).flowControlOption == FollowSupply then SumMaxFlows(nodes[..], nodeNums) else zoneMinOA)
    ensures forall k :: 0 <= k < controls.Length && k != num ==> controls[k] == old(controls[k])
  {
    var designFlow := 0.0;
    if controls[num].flowControlOption == FollowSupply {
      for i := 0 to |nodeNums|
        invariant designFlow == SumMaxFlows(nodes[..], nodeNums[..i])
      {
        assert nodeNums[..i + 1][..i] == nodeNums[..i];
        designFlow := designFlow + nodes[nodeNums[i]].massFlowRateMax;
      }
      assert nodeNums[..|nodeNums|] == nodeNums;
    } else {
      designFlow := zoneMinOA;
    }
    controls[num] := controls[num].(designExhaustFlowRate := designFlow);
  }

  /** The exhaust totals of one zone's equipment configuration. */
  datatype ZoneExhaustTotals = ZoneExhaustTotals(zoneExh: real, zoneExhBalanced: real)

  /** Total exhaust (balanced + unbalanced) of the controls serving `zone`. */
  function ZoneExhaustOf(controls: seq<ZoneExhaustControl>, zone: nat): real
  {
    if controls == [] then 0.0
    else
      var c := controls[|controls| - 1];
      ZoneExhaustOf(controls[..|controls| - 1], zone)
      + (if c.controlledZoneNum == zone then c.balancedFlow + c.unbalancedFlow else 0.0)
  }

  /** Balanced exhaust of the controls serving `zone`. */
  function ZoneBalancedOf(controls: seq<ZoneExhaustControl>, zone: nat): real
  {
    if controls == [] then 0.0
    else
      var c := controls[|controls| - 1];
      ZoneBalancedOf(controls[..|controls| - 1], zone) + (if c.controlledZoneNum == zone then c.balancedFlow else 0.0)
  }

  /** UpdateZoneExhaustControl: every zone's exhaust grows by the flows of the controls that serve it. */
  method UpdateZoneExhaustControl(controls: seq<ZoneExhaustControl>, zoneEquip: array<ZoneExhaustTotals>)
    requires forall i :: 0 <= i < |controls| ==> controls[i].controlledZoneNum < zoneEquip.Length
    modifies zoneEquip
    ensures forall z :: 0 <= z < zoneEquip.Length ==>
              zoneEquip[z].zoneExh == old(zoneEquip[z]).zoneExh + ZoneExhaustOf(controls, z)
              && zoneEquip[z].zoneExhBalanced == old(zoneEquip[z]).zoneExhBalanced + ZoneBalancedOf(controls, z)
  {
    for i := 0 to |controls|
      invariant forall z :: 0 <= z < zoneEquip.Length ==>
                  zoneEquip[z].zoneExh == old(zoneEquip[z]).zoneExh + ZoneExhaustOf(controls[..i], z)
                  && zoneEquip[z].zoneExhBalanced == old(zoneEquip[z]).zoneExhBalanced + ZoneBalancedOf(controls[..i], z)
    {
      assert controls[..i + 1][..i] == controls[..i];
      var zone := controls[i].controlledZoneNum;
      zoneEquip[zone] := zoneEquip[zone].(zoneExh := zoneEquip[zone].zoneExh + controls[i].balancedFlow + controls[i].unbalancedFlow);
      zoneEquip[zone] := zoneEquip[zone].(zoneExhBalanced := zoneEquip[zone].zoneExhBalanced + controls[i].balancedFlow);
    }
    assert controls[..|controls|] == controls;
  }

  /** The balanced part of a zone's exhaust never exceeds the total when every control's unbalanced flow is non-negative. */
  lemma {:induction false} BalancedWithinTotal(controls: seq<ZoneExhaustControl>, zone: nat)
    requires forall i :: 0 <= i < |controls| ==> controls[i].unbalancedFlow >= 0.0
    ensures ZoneBalancedOf(controls, zone) <= ZoneExhaustOf(controls, zone)
  {
    if controls != [] {
      BalancedWithinTotal(controls[..|controls| - 1], zone);
    }
  }
}

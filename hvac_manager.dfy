/**
 * HVACManager: the zone-inlet convergence logs, the monotonic-trend scans over them, the
 * air-loop flag rules (economizer lockout, control reset, terminal-unit limits, zonal-only
 * and heat-to-return-air) and the number of adaptive system time steps.
 */
module HVACManager {
  import opened DataLoopNode
  import opened Wrappers
  import HVACInterfaceManager

  // ---------------------------------------------------------------------------
  // Convergence logs (newest value first)

  /** The log after one push: the new value in slot 0, every old value one slot later, the oldest dropped. */
  function PushedFront(s: seq<real>, v: real): (r: seq<real>)
    requires |s| > 0
    ensures |r| == |s|
  {
    [v] + s[..|s| - 1]
  }

  /** A push is rshift1 followed by overwriting slot 0. */
  lemma PushIsRotationThenSet(s: seq<real>, v: real)
    requires |s| > 0
    ensures PushedFront(s, v) == HVACInterfaceManager.RotatedRight(s)[0 := v]
  {
  }

  /** The log after pushing `vs` in order (oldest first). */
  function PushAll(s: seq<real>, vs: seq<real>): (r: seq<real>)
    requires |s| > 0
    ensures |r| == |s|
    decreases |vs|
  {
    if vs == [] then s else PushedFront(PushAll(s, vs[..|vs| - 1]), vs[|vs| - 1])
  }

  function Reverse(vs: seq<real>): (r: seq<real>)
    ensures |r| == |vs|
  {
    if vs == [] then [] else [vs[|vs| - 1]] + Reverse(vs[..|vs| - 1])
  }

  /** After up to depth pushes the log holds the pushed values newest first, then the oldest surviving entries. */
  lemma {:induction false} PushAllContents(s: seq<real>, vs: seq<real>)
    requires 0 < |s| && |vs| <= |s|
    ensures PushAll(s, vs) == Reverse(vs) + s[..|s| - |vs|]
    decreases |vs|
  {
    if vs != [] {
      var init := vs[..|vs| - 1];
      PushAllContents(s, init);
      var p := PushAll(s, init);
      assert p[..|p| - 1] == Reverse(init) + s[..|s| - |vs|] by {
        assert p == Reverse(init) + s[..|s| - |init|];
        assert s[..|s| - |init|][..|s| - |vs|] == s[..|s| - |vs|];
      }
    }
  }

  /** One log array pushed in place, as UpdateZoneInletConvergenceLog does it through a temporary copy. */
  method PushFrontLog(a: array<real>, v: real)
    requires a.Length > 0
    modifies a
    ensures a[..] == PushedFront(old(a[..]), v)
  {
    var tmp := a[..];
    a[0] := v;
    for logIndex := 1 to a.Length
      invariant a[0] == v
      invariant forall k :: 1 <= k < logIndex ==> a[k] == tmp[k - 1]
      invariant forall k :: logIndex <= k < a.Length ==> a[k] == tmp[k]
    {
      a[logIndex] := tmp[logIndex - 1];
    }
    assert a[..] == PushedFront(tmp, v) by {
      forall k | 0 <= k < a.Length ensures a[k] == PushedFront(tmp, v)[k] { }
    }
  }

  /** The convergence logs of one zone inlet node. */
  class InletNodeLog {
    const nodeNum: nat
    const humidityRatio: array<real>
    const massFlowRate: array<real>
    const temperature: array<real>

    ghost function Arrays(): set<array<real>> { {humidityRatio, massFlowRate, temperature} }

    ghost predicate Valid()
    {
      humidityRatio.Length == HVACInterfaceManager.ConvergLogStackDepth
      && massFlowRate.Length == HVACInterfaceManager.ConvergLogStackDepth
      && temperature.Length == HVACInterfaceManager.ConvergLogStackDepth
      && humidityRatio != massFlowRate && humidityRatio != temperature && massFlowRate != temperature
    }

    constructor (nodeNum: nat)
      ensures this.nodeNum == nodeNum && Valid()
      ensures fresh(humidityRatio) && fresh(massFlowRate) && fresh(temperature)
    {
      this.nodeNum := nodeNum;
      humidityRatio := new real[HVACInterfaceManager.ConvergLogStackDepth](_ => 0.0);
      massFlowRate := new real[HVACInterfaceManager.ConvergLogStackDepth](_ => 0.0);
      temperature := new real[HVACInterfaceManager.ConvergLogStackDepth](_ => 0.0);
    }
  }

  ghost function LogArrays(logs: seq<InletNodeLog>): set<array<real>>
  {
    set i, a | 0 <= i < |logs| && a in logs[i].Arrays() :: a
  }

  ghost predicate DisjointLogs(logs: seq<InletNodeLog>)
  {
    forall i, j :: 0 <= i < |logs| && 0 <= j < |logs| && i != j ==> logs[i].Arrays() !! logs[j].Arrays()
  }

  /** The three logs of `log` each received one push of the node's current value. */
  twostate predicate LogPushed(log: InletNodeLog, node: NodeData)
    reads log.Arrays()
  {
    log.Valid()
    && log.humidityRatio[..] == PushedFront(old(log.humidityRatio[..]), node.humRat)
    && log.massFlowRate[..] == PushedFront(old(log.massFlowRate[..]), node.massFlowRate)
    && log.temperature[..] == PushedFront(old(log.temperature[..]), node.temp)
  }

  /**
   * UpdateZoneInletConvergenceLog: every zone inlet node (all zones, one after another) pushes
   * its node's current humidity ratio, mass flow rate and temperature onto its three logs.
   */
  method UpdateZoneInletConvergenceLog(logs: seq<InletNodeLog>, nodes: array<NodeData>)
    requires forall i :: 0 <= i < |logs| ==> logs[i].Valid()
    requires forall i :: 0 <= i < |logs| ==> logs[i].nodeNum < nodes.Length
    requires DisjointLogs(logs)
    modifies LogArrays(logs)
    ensures forall i :: 0 <= i < |logs| ==> LogPushed(logs[i], nodes[logs[i].nodeNum])
  {
    for i := 0 to |logs|
      invariant forall k :: 0 <= k < i ==> LogPushed(logs[k], nodes[logs[k].nodeNum])
      invariant forall k :: i <= k < |logs| ==> unchanged(logs[k].Arrays())
    {
      var log := logs[i];
      assert forall k :: 0 <= k < |logs| && k != i ==> logs[k].Arrays() !! log.Arrays();
      assert log.Arrays() <= LogArrays(logs) by {
        forall a | a in log.Arrays() ensures a in LogArrays(logs) { }
      }
      PushNodeValues(log, nodes[log.nodeNum]);
    }
  }

  /** One inlet node's three pushes. */
  method PushNodeValues(log: InletNodeLog, node: NodeData)
    requires log.Valid()
    modifies log.Arrays()
    ensures LogPushed(log, node)
  {
    PushFrontLog(log.humidityRatio, node.humRat);
    PushFrontLog(log.massFlowRate, node.massFlowRate);
    PushFrontLog(log.temperature, node.temp);
  }

  // ---------------------------------------------------------------------------
  // Monotonic-trend scans over a newest-first log

  /** Every newer entry is at most the older one after it: the value fell (or held) at each iteration. */
  predicate FallingNewestFirst(h: seq<real>)
  {
    forall k :: 1 <= k < |h| ==> h[k - 1] <= h[k]
  }

  /** Every newer entry is at least the older one after it. */
  predicate RisingNewestFirst(h: seq<real>)
  {
    forall k :: 1 <= k < |h| ==> h[k - 1] >= h[k]
  }

  /** The "check for monotonic decrease" loop: cleared at the first newer entry above its predecessor. */
  method MonotonicDecreaseFound(h: array<real>) returns (found: bool)
    requires h.Length == HVACInterfaceManager.ConvergLogStackDepth
    ensures found <==> FallingNewestFirst(h[..])
  {
    found := true;
    for stackDepth := 1 to h.Length
      invariant found && forall k :: 1 <= k < stackDepth ==> h[k - 1] <= h[k]
    {
      if h[stackDepth - 1] > h[stackDepth] {
        found := false;
        break;
      }
    }
  }

  /** The "check for monotonic increase" loop: cleared at the first newer entry below its predecessor. */
  method MonotonicIncreaseFound(h: array<real>) returns (found: bool)
    requires h.Length == HVACInterfaceManager.ConvergLogStackDepth
    ensures found <==> RisingNewestFirst(h[..])
  {
    found := true;
    for stackDepth := 1 to h.Length
      invariant found && forall k :: 1 <= k < stackDepth ==> h[k - 1] >= h[k]
    {
      if h[stackDepth - 1] < h[stackDepth] {
        found := false;
        break;
      }
    }
  }

  /** A full log of pushes that never rose over time is reported as a monotonic decrease. */
  lemma FallingPushesAreFlagged(s: seq<real>, vs: seq<real>)
    requires 0 < |s| && |vs| == |s|
    requires forall i, j :: 0 <= i < j < |vs| ==> vs[i] >= vs[j]
    ensures FallingNewestFirst(PushAll(s, vs))
  {
    PushAllContents(s, vs);
    var h := PushAll(s, vs);
    assert h == Reverse(vs) + s[..0];
    forall k | 1 <= k < |h| ensures h[k - 1] <= h[k] {
      ReverseAt(vs, k - 1);
      ReverseAt(vs, k);
    }
  }

  lemma {:induction false} ReverseAt(vs: seq<real>, k: nat)
    requires k < |vs|
    ensures Reverse(vs)[k] == vs[|vs| - 1 - k]
    decreases |vs|
  {
    if k > 0 {
      ReverseAt(vs[..|vs| - 1], k - 1);
    }
  }

  // ---------------------------------------------------------------------------
  // Air-loop flag rules

  datatype FanOp = FanOpInvalid | Cycling | Continuous

  /** The two values of an air loop's cycling-fan schedule that the flag rules read. */
  datatype FanSchedule = FanSchedule(maxVal: real, currentVal: real)

  datatype AirLoopControlInfo = AirLoopControlInfo(
    unitarySys: bool,
    cycFanSched: Option<FanSchedule>,
    anyContFan: bool,
    fanOp: FanOp,
    econoActive: bool,
    reqstEconoLockoutWithCompressor: bool,
    reqstEconoLockoutWithHeating: bool,
    econoLockout: bool,
    nightVent: bool,
    loopFlowRateSet: bool)

  datatype AirLoopFlowData = AirLoopFlowData(reqSupplyFrac: real, designSupplyMassFlow: real)

  /** An economizer that is running while a compressor or heating lockout is requested. */
  predicate LockoutRequested(c: AirLoopControlInfo)
  {
    c.econoActive && (c.reqstEconoLockoutWithCompressor || c.reqstEconoLockoutWithHeating)
  }

  /**
   * ResolveLockoutFlags: locks out the economizer of every loop with a lockout request and asks
   * for the air loops to be simulated again; no flag is ever cleared.
   */
  method ResolveLockoutFlags(airLoops: array<AirLoopControlInfo>, simAir: bool) returns (simAirOut: bool)
    modifies airLoops
    ensures forall i :: 0 <= i < airLoops.Length ==>
              airLoops[i] == if LockoutRequested(old(airLoops[i])) then old(airLoops[i]).(econoLockout := true) else old(airLoops[i])
    ensures simAirOut <==> simAir || exists i :: 0 <= i < airLoops.Length && LockoutRequested(old(airLoops[i]))
  {
    simAirOut := simAir;
    for i := 0 to airLoops.Length
      invariant forall k :: 0 <= k < i ==>
                  airLoops[k] == if LockoutRequested(old(airLoops[k])) then old(airLoops[k]).(econoLockout := true) else old(airLoops[k])
      invariant forall k :: i <= k < airLoops.Length ==> airLoops[k] == old(airLoops[k])
      invariant simAirOut <==> simAir || exists k :: 0 <= k < i && LockoutRequested(old(airLoops[k]))
    {
      if LockoutRequested(airLoops[i]) {
        airLoops[i] := airLoops[i].(econoLockout := true);
        simAirOut := true;
      }
    }
  }

  /**
   * ResetHVACControl: with no primary air system nothing changes; otherwise every loop's
   * night-ventilation and flow-rate-set flags are cleared and every requested supply fraction is 1.
   */
  method ResetHVACControl(numPrimaryAirSys: nat, airLoops: array<AirLoopControlInfo>, airLoopFlow: array<AirLoopFlowData>)
    modifies airLoops, airLoopFlow
    ensures numPrimaryAirSys == 0 ==> airLoops[..] == old(airLoops[..]) && airLoopFlow[..] == old(airLoopFlow[..])
    ensures numPrimaryAirSys > 0 ==>
              (forall i :: 0 <= i < airLoops.Length ==> airLoops[i] == old(airLoops[i]).(nightVent := false, loopFlowRateSet := false))
              && (forall i :: 0 <= i < airLoopFlow.Length ==> airLoopFlow[i] == old(airLoopFlow[i]).(reqSupplyFrac := 1.0))
  {
    if numPrimaryAirSys == 0 {
      return;
    }
    for i := 0 to airLoops.Length
      invariant forall k :: 0 <= k < i ==> airLoops[k] == old(airLoops[k]).(nightVent := false, loopFlowRateSet := false)
      invariant forall k :: i <= k < airLoops.Length ==> airLoops[k] == old(airLoops[k])
      invariant airLoopFlow[..] == old(airLoopFlow[..])
    {
      airLoops[i] := airLoops[i].(nightVent := false, loopFlowRateSet := false);
    }
    for i := 0 to airLoopFlow.Length
      invariant forall k :: 0 <= k < airLoops.Length ==> airLoops[k] == old(airLoops[k]).(nightVent := false, loopFlowRateSet := false)
      invariant forall k :: 0 <= k < i ==> airLoopFlow[k] == old(airLoopFlow[k]).(reqSupplyFrac := 1.0)
      invariant forall k :: i <= k < airLoopFlow.Length ==> airLoopFlow[k] == old(airLoopFlow[k])
    {
      airLoopFlow[i] := airLoopFlow[i].(reqSupplyFrac := 1.0);
    }
  }

  /** The terminal-unit inlet nodes of one air loop (AirToZoneNodeInfo). */
  datatype AirToZoneNodeInfo = AirToZoneNodeInfo(termUnitCoolInletNodes: seq<nat>, termUnitHeatInletNodes: seq<nat>)

  /** The node with its available-flow limits reset to its hard limits. */
  function WithHardLimits(n: NodeData): NodeData
  {
    n.(massFlowRateMaxAvail := n.massFlowRateMax, massFlowRateMinAvail := n.massFlowRateMin)
  }

  /** Node `n` is a cooled or heated terminal inlet of one of the first `upTo` air loops. */
  predicate IsTerminalInlet(info: seq<AirToZoneNodeInfo>, upTo: nat, n: nat)
    requires upTo <= |info|
  {
    exists a :: 0 <= a < upTo && (n in info[a].termUnitCoolInletNodes || n in info[a].termUnitHeatInletNodes)
  }

  /**
   * ResetTerminalUnitFlowLimits: every cooled and heated terminal-unit inlet node of every air
   * loop gets MaxAvail = Max and MinAvail = Min; every other node is left alone.
   */
  method ResetTerminalUnitFlowLimits(info: seq<AirToZoneNodeInfo>, nodes: array<NodeData>)
    requires forall a, n :: 0 <= a < |info| && (n in info[a].termUnitCoolInletNodes || n in info[a].termUnitHeatInletNodes)
               ==> n < nodes.Length
    modifies nodes
    ensures forall n :: 0 <= n < nodes.Length ==>
              nodes[n] == if IsTerminalInlet(info, |info|, n) then WithHardLimits(old(nodes[n])) else old(nodes[n])
  {
    for a := 0 to |info|
      invariant forall n :: 0 <= n < nodes.Length ==>
                  nodes[n] == if IsTerminalInlet(info, a, n) then WithHardLimits(old(nodes[n])) else old(nodes[n])
    {
      ghost var before := nodes[..];
      var cool := info[a].termUnitCoolInletNodes;
      for z := 0 to |cool|
        invariant forall n :: 0 <= n < nodes.Length ==>
                    nodes[n] == if n in cool[..z] then WithHardLimits(before[n]) else before[n]
      {
        var t := cool[z];
        assert t in info[a].termUnitCoolInletNodes;
        nodes[t] := nodes[t].(massFlowRateMaxAvail := nodes[t].massFlowRateMax, massFlowRateMinAvail := nodes[t].massFlowRateMin);
        assert cool[..z + 1] == cool[..z] + [t];
      }
      assert cool[..|cool|] == cool;
      ghost var mid := nodes[..];
      var heat := info[a].termUnitHeatInletNodes;
      for z := 0 to |heat|
        invariant forall n :: 0 <= n < nodes.Length ==>
                    nodes[n] == if n in heat[..z] then WithHardLimits(mid[n]) else mid[n]
      {
        var t := heat[z];
        assert t in info[a].termUnitHeatInletNodes;
        nodes[t] := nodes[t].(massFlowRateMaxAvail := nodes[t].massFlowRateMax, massFlowRateMinAvail := nodes[t].massFlowRateMin);
        assert heat[..z + 1] == heat[..z] + [t];
      }
      assert heat[..|heat|] == heat;
      forall n | 0 <= n < nodes.Length
        ensures nodes[n] == if IsTerminalInlet(info, a + 1, n) then WithHardLimits(old(nodes[n])) else old(nodes[n])
      {
        if IsTerminalInlet(info, a, n) {
          assert IsTerminalInlet(info, a + 1, n);
        } else if n in cool || n in heat {
          assert IsTerminalInlet(info, a + 1, n);
        } else {
          assert !IsTerminalInlet(info, a + 1, n);
        }
      }
    }
  }

  // ---------------------------------------------------------------------------
  // SetHeatToReturnAirFlag

  /** Zone equipment connections of one controlled zone (ZoneEquipConfig). */
  datatype ZoneEquipConfig = ZoneEquipConfig(
    isControlled: bool,
    inletNodeAirLoopNum: seq<int>,
    numExhaustNodes: nat,
    zonalSystemOnly: bool)

  /** Air-loop numbers are 1-based; a number of 0 or less means "no air loop". */
  predicate AirLoopNumsValid(zoneEquip: seq<ZoneEquipConfig>, numAirLoops: nat)
  {
    forall z, i :: 0 <= z < |zoneEquip| && 0 <= i < |zoneEquip[z].inletNodeAirLoopNum|
      ==> zoneEquip[z].inletNodeAirLoopNum[i] <= numAirLoops
  }

  /** The one-time AnyContFan rule: central systems run the fan continuously; unitary ones when the schedule can be positive. */
  function AnyContFanRule(c: AirLoopControlInfo): bool
  {
    if !c.unitarySys then true
    else if c.cycFanSched.Some? then c.cycFanSched.value.maxVal > 0.0
    else false
  }

  /** Some inlet node of the zone is fed by an air loop. */
  predicate HasAirLoopInlet(cfg: ZoneEquipConfig)
  {
    exists i :: 0 <= i < |cfg.inletNodeAirLoopNum| && cfg.inletNodeAirLoopNum[i] > 0
  }

  /** The zonal-only rule: no air-loop inlet and as many inlet nodes as exhaust nodes (never cleared). */
  function ZonalOnlyRule(cfg: ZoneEquipConfig): bool
  {
    cfg.zonalSystemOnly || (!HasAirLoopInlet(cfg) && |cfg.inletNodeAirLoopNum| == cfg.numExhaustNodes)
  }

  /** The fan-operation rule: a zero current value of the cycling-fan schedule means cycling. */
  function FanOpRule(c: AirLoopControlInfo): FanOp
  {
    if c.cycFanSched.Some? then (if c.cycFanSched.value.currentVal == 0.0 then Cycling else Continuous)
    else c.fanOp
  }

  /** Some inlet of the zone is fed by an air loop whose fan runs continuously. */
  predicate FedByContinuousFan(cfg: ZoneEquipConfig, airLoops: seq<AirLoopControlInfo>)
    requires forall i :: 0 <= i < |cfg.inletNodeAirLoopNum| ==> cfg.inletNodeAirLoopNum[i] <= |airLoops|
  {
    exists i :: 0 <= i < |cfg.inletNodeAirLoopNum| && cfg.inletNodeAirLoopNum[i] > 0
                && airLoops[cfg.inletNodeAirLoopNum[i] - 1].fanOp == Continuous
  }

  /** The one-time pass over the air loops: sets AnyContFan on each. */
  method SetAnyContFan(airLoops: array<AirLoopControlInfo>)
    modifies airLoops
    ensures forall i :: 0 <= i < airLoops.Length ==> airLoops[i] == old(airLoops[i]).(anyContFan := AnyContFanRule(old(airLoops[i])))
  {
    for i := 0 to airLoops.Length
      invariant forall k :: 0 <= k < i ==> airLoops[k] == old(airLoops[k]).(anyContFan := AnyContFanRule(old(airLoops[k])))
      invariant forall k :: i <= k < airLoops.Length ==> airLoops[k] == old(airLoops[k])
    {
      var c := airLoops[i];
      if !c.unitarySys {
        airLoops[i] := c.(anyContFan := true);
      } else if c.cycFanSched.Some? {
        airLoops[i] := c.(anyContFan := c.cycFanSched.value.maxVal > 0.0);
      } else {
        airLoops[i] := c.(anyContFan := false);
      }
    }
  }

  /** The one-time pass over the zones: marks a zone served by zonal equipment only. */
  method SetZonalSystemOnly(zoneEquip: array<ZoneEquipConfig>)
    modifies zoneEquip
    ensures forall z :: 0 <= z < zoneEquip.Length ==> zoneEquip[z] == old(zoneEquip[z]).(zonalSystemOnly := ZonalOnlyRule(old(zoneEquip[z])))
  {
    for z := 0 to zoneEquip.Length
      invariant forall k :: 0 <= k < z ==> zoneEquip[k] == old(zoneEquip[k]).(zonalSystemOnly := ZonalOnlyRule(old(zoneEquip[k])))
      invariant forall k :: z <= k < zoneEquip.Length ==> zoneEquip[k] == old(zoneEquip[k])
    {
      var cfg := zoneEquip[z];
      var airLoopFound := false;
      for zoneInNode := 0 to |cfg.inletNodeAirLoopNum|
        invariant airLoopFound <==> exists i :: 0 <= i < zoneInNode && cfg.inletNodeAirLoopNum[i] > 0
      {
        if cfg.inletNodeAirLoopNum[zoneInNode] > 0 {
          airLoopFound := true;
        }
      }
      if !airLoopFound && |cfg.inletNodeAirLoopNum| == cfg.numExhaustNodes {
        zoneEquip[z] := cfg.(zonalSystemOnly := true);
      }
    }
  }

  /** Sets each air loop's fan operation from its cycling-fan schedule, when it has one. */
  method SetFanOperation(airLoops: array<AirLoopControlInfo>)
    modifies airLoops
    ensures forall i :: 0 <= i < airLoops.Length ==> airLoops[i] == old(airLoops[i]).(fanOp := FanOpRule(old(airLoops[i])))
  {
    for i := 0 to airLoops.Length
      invariant forall k :: 0 <= k < i ==> airLoops[k] == old(airLoops[k]).(fanOp := FanOpRule(old(airLoops[k])))
      invariant forall k :: i <= k < airLoops.Length ==> airLoops[k] == old(airLoops[k])
    {
      var c := airLoops[i];
      if c.cycFanSched.Some? {
        airLoops[i] := c.(fanOp := if c.cycFanSched.value.currentVal == 0.0 then Cycling else Continuous);
      }
    }
  }

  /**
   * Sets NoHeatToReturnAir on every controlled zone: true, unless the zone is not zonal-only and
   * one of its inlets is fed by a continuous-fan air loop. Uncontrolled zones are skipped.
   */
  method SetNoHeatToReturnAir(zoneEquip: array<ZoneEquipConfig>, airLoops: array<AirLoopControlInfo>, noHeatToReturnAir: array<bool>)
    requires zoneEquip.Length == noHeatToReturnAir.Length
    requires AirLoopNumsValid(zoneEquip[..], airLoops.Length)
    modifies noHeatToReturnAir
    ensures forall z :: 0 <= z < zoneEquip.Length ==>
              noHeatToReturnAir[z] == if !zoneEquip[z].isControlled then old(noHeatToReturnAir[z])
                                      else !(!zoneEquip[z].zonalSystemOnly && FedByContinuousFan(zoneEquip[z], airLoops[..]))
  {
    for z := 0 to zoneEquip.Length
      invariant forall k :: 0 <= k < z ==>
                  noHeatToReturnAir[k] == if !zoneEquip[k].isControlled then old(noHeatToReturnAir[k])
                                          else !(!zoneEquip[k].zonalSystemOnly && FedByContinuousFan(zoneEquip[k], airLoops[..]))
      invariant forall k :: z <= k < zoneEquip.Length ==> noHeatToReturnAir[k] == old(noHeatToReturnAir[k])
    {
      var cfg := zoneEquip[z];
      if !cfg.isControlled {
        continue;
      }
      assert forall i :: 0 <= i < |cfg.inletNodeAirLoopNum| ==> cfg.inletNodeAirLoopNum[i] <= airLoops.Length by {
        assert zoneEquip[..][z] == cfg;
      }
      noHeatToReturnAir[z] := true;
      if !cfg.zonalSystemOnly {
        for zoneInNode := 0 to |cfg.inletNodeAirLoopNum|
          invariant noHeatToReturnAir[z] <==> !exists i :: 0 <= i < zoneInNode && cfg.inletNodeAirLoopNum[i] > 0
                                                 && airLoops[cfg.inletNodeAirLoopNum[i] - 1].fanOp == Continuous
          invariant forall k :: 0 <= k < noHeatToReturnAir.Length && k != z ==> noHeatToReturnAir[k] == old(noHeatToReturnAir[k]) || k < z
          invariant forall k :: 0 <= k < z ==>
                      noHeatToReturnAir[k] == if !zoneEquip[k].isControlled then old(noHeatToReturnAir[k])
                                              else !(!zoneEquip[k].zonalSystemOnly && FedByContinuousFan(zoneEquip[k], airLoops[..]))
          invariant forall k :: z < k < zoneEquip.Length ==> noHeatToReturnAir[k] == old(noHeatToReturnAir[k])
        {
          var airLoopNum := cfg.inletNodeAirLoopNum[zoneInNode];
          if airLoopNum > 0 {
            if airLoops[airLoopNum - 1].fanOp == Continuous {
              noHeatToReturnAir[z] := false;
              break;
            }
          }
        }
      }
    }
  }

  /**
   * SetHeatToReturnAirFlag: nothing happens before the air loops were simulated once; the first
   * time after that the AnyContFan and zonal-only flags are set; every call then sets the fan
   * operation of each loop and the NoHeatToReturnAir flag of each controlled zone.
   */
  method SetHeatToReturnAirFlag(airLoopsSimOnce: bool, myOneTimeFlag: bool,
                                airLoops: array<AirLoopControlInfo>, zoneEquip: array<ZoneEquipConfig>,
                                noHeatToReturnAir: array<bool>)
    returns (myOneTimeFlagOut: bool)
    requires zoneEquip.Length == noHeatToReturnAir.Length
    requires AirLoopNumsValid(zoneEquip[..], airLoops.Length)
    modifies airLoops, zoneEquip, noHeatToReturnAir
    ensures !airLoopsSimOnce ==>
              myOneTimeFlagOut == myOneTimeFlag && airLoops[..] == old(airLoops[..])
              && zoneEquip[..] == old(zoneEquip[..]) && noHeatToReturnAir[..] == old(noHeatToReturnAir[..])
    ensures airLoopsSimOnce ==> !myOneTimeFlagOut
    ensures airLoopsSimOnce ==> forall i :: 0 <= i < airLoops.Length ==>
              airLoops[i] == (var c := if myOneTimeFlag then old(airLoops[i]).(anyContFan := AnyContFanRule(old(airLoops[i])))
                                       else old(airLoops[i]);
                              c.(fanOp := FanOpRule(c)))
    ensures airLoopsSimOnce ==> forall z :: 0 <= z < zoneEquip.Length ==>
              zoneEquip[z] == if myOneTimeFlag then old(zoneEquip[z]).(zonalSystemOnly := ZonalOnlyRule(old(zoneEquip[z])))
                              else old(zoneEquip[z])
    ensures airLoopsSimOnce ==> forall z :: 0 <= z < zoneEquip.Length ==>
              noHeatToReturnAir[z] == if !zoneEquip[z].isControlled then old(noHeatToReturnAir[z])
                                      else !(!zoneEquip[z].zonalSystemOnly && FedByContinuousFan(zoneEquip[z], airLoops[..]))
  {
    myOneTimeFlagOut := myOneTimeFlag;
    if !airLoopsSimOnce {
      return;
    }
    if myOneTimeFlag {
      SetAnyContFan(airLoops);
      SetZonalSystemOnly(zoneEquip);
      myOneTimeFlagOut := false;
    }
    assert forall z :: 0 <= z < zoneEquip.Length ==> zoneEquip[z].inletNodeAirLoopNum == old(zoneEquip[z]).inletNodeAirLoopNum;
    assert AirLoopNumsValid(zoneEquip[..], airLoops.Length) by {
      forall z, i | 0 <= z < zoneEquip.Length && 0 <= i < |zoneEquip[..][z].inletNodeAirLoopNum|
        ensures zoneEquip[..][z].inletNodeAirLoopNum[i] <= airLoops.Length
      {
        assert old(zoneEquip[..])[z] == old(zoneEquip[z]);
      }
    }
    SetFanOperation(airLoops);
    SetNoHeatToReturnAir(zoneEquip, airLoops, noHeatToReturnAir);
  }

  /**
   * On the first pass a zone that was not yet marked zonal-only gets NoHeatToReturnAir = false
   * exactly when a continuous-fan air loop feeds it: the zonal-only test can never hide such a loop,
   * because a zone with an air-loop inlet is never made zonal-only.
   */
  lemma FirstPassNoHeatRule(cfg: ZoneEquipConfig, airLoops: seq<AirLoopControlInfo>)
    requires !cfg.zonalSystemOnly
    requires forall i :: 0 <= i < |cfg.inletNodeAirLoopNum| ==> cfg.inletNodeAirLoopNum[i] <= |airLoops|
    ensures var after := cfg.(zonalSystemOnly := ZonalOnlyRule(cfg));
            !(!after.zonalSystemOnly && FedByContinuousFan(after, airLoops)) <==> !FedByContinuousFan(cfg, airLoops)
  {
    var after := cfg.(zonalSystemOnly := ZonalOnlyRule(cfg));
    if FedByContinuousFan(cfg, airLoops) {
      var i :| 0 <= i < |cfg.inletNodeAirLoopNum| && cfg.inletNodeAirLoopNum[i] > 0
               && airLoops[cfg.inletNodeAirLoopNum[i] - 1].fanOp == Continuous;
      assert HasAirLoopInlet(cfg);
      assert FedByContinuousFan(after, airLoops);
    }
  }

  // ---------------------------------------------------------------------------
  // Adaptive system time step (ManageHVAC)

  /** The system-time-step globals that ManageHVAC sets. */
  datatype SysStepState = SysStepState(
    numOfSysTimeSteps: int,
    timeStepSys: real,
    timeStepSysSec: real,
    useZoneTimeStepHistory: bool,
    shortenTimeStepSys: bool)

  function Max(a: real, b: real): real { if a >= b then a else b }

  function Min(a: int, b: int): int { if a <= b then a else b }

  /**
   * The adaptive time step: when the zone temperature changed by more than MaxZoneTempDiff (and
   * the simulation is not kicking off), the zone step is split into
   * min(int(change / limit + 1), LimitNumSysSteps) system steps of at least MinTimeStepSys hours;
   * otherwise one system step is used. `int` truncation is `Floor` here because the argument is positive.
   */
  function AdaptSysTimeStep(prev: SysStepState, zoneTempChange: real, maxZoneTempDiff: real, kickOffSimulation: bool,
                            limitNumSysSteps: int, timeStepZone: real, minTimeStepSys: real): (r: SysStepState)
    requires maxZoneTempDiff > 0.0
    ensures !(zoneTempChange > maxZoneTempDiff && !kickOffSimulation) ==>
              r == prev.(numOfSysTimeSteps := 1, useZoneTimeStepHistory := true)
    ensures zoneTempChange > maxZoneTempDiff && !kickOffSimulation ==>
              r.numOfSysTimeSteps <= limitNumSysSteps
              && (r.numOfSysTimeSteps == limitNumSysSteps || r.numOfSysTimeSteps >= 2)
              && r.timeStepSys >= minTimeStepSys
              && (r.numOfSysTimeSteps > 0 ==>
                    r.timeStepSys == Max(timeStepZone / (r.numOfSysTimeSteps as real), minTimeStepSys))
              && (r.numOfSysTimeSteps <= 0 ==> r.timeStepSys == Max(prev.timeStepSys, minTimeStepSys))
              && r.timeStepSysSec == r.timeStepSys * 3600.0
              && !r.useZoneTimeStepHistory && r.shortenTimeStepSys
  {
    if zoneTempChange > maxZoneTempDiff && !kickOffSimulation then
      var zTempTrendsNumSysSteps := (zoneTempChange / maxZoneTempDiff + 1.0).Floor;
      var n := Min(zTempTrendsNumSysSteps, limitNumSysSteps);
      var tsys := if n > 0 then timeStepZone / (n as real) else prev.timeStepSys;
      var tsys' := Max(tsys, minTimeStepSys);
      SysStepState(n, tsys', tsys' * 3600.0, false, true)
    else
      prev.(numOfSysTimeSteps := 1, useZoneTimeStepHistory := true)
  }

  /**
   * Unless the count hits LimitNumSysSteps, the zone temperature change per system step stays
   * below MaxZoneTempDiff: the count is the truncation of change / limit plus one.
   */
  lemma PerStepChangeBelowLimit(prev: SysStepState, zoneTempChange: real, maxZoneTempDiff: real,
                                limitNumSysSteps: int, timeStepZone: real, minTimeStepSys: real)
    requires maxZoneTempDiff > 0.0 && zoneTempChange > maxZoneTempDiff
    ensures var r := AdaptSysTimeStep(prev, zoneTempChange, maxZoneTempDiff, false, limitNumSysSteps, timeStepZone, minTimeStepSys);
            r.numOfSysTimeSteps < limitNumSysSteps ==> zoneTempChange < (r.numOfSysTimeSteps as real) * maxZoneTempDiff
  {
    var q := zoneTempChange / maxZoneTempDiff;
    var n := (q + 1.0).Floor;
    assert q < n as real;
    assert zoneTempChange == q * maxZoneTempDiff;
  }

  /**
   * The count is the fewest that does the job: it never exceeds LimitNumSysSteps, and one system
   * step fewer would leave a change per step of at least MaxZoneTempDiff. Together with
   * PerStepChangeBelowLimit this pins the count to min(least sufficient count, LimitNumSysSteps).
   */
  lemma NoFewerStepsSuffice(prev: SysStepState, zoneTempChange: real, maxZoneTempDiff: real,
                            limitNumSysSteps: int, timeStepZone: real, minTimeStepSys: real)
    requires maxZoneTempDiff > 0.0 && zoneTempChange > maxZoneTempDiff
    ensures var r := AdaptSysTimeStep(prev, zoneTempChange, maxZoneTempDiff, false, limitNumSysSteps, timeStepZone, minTimeStepSys);
            r.numOfSysTimeSteps <= limitNumSysSteps
            && ((r.numOfSysTimeSteps - 1) as real) * maxZoneTempDiff <= zoneTempChange
  {
    var q := zoneTempChange / maxZoneTempDiff;
    var m := (q + 1.0).Floor;
    var n := Min(m, limitNumSysSteps);
    assert (m - 1) as real <= q;
    assert zoneTempChange == q * maxZoneTempDiff;
    assert ((m - 1) as real) * maxZoneTempDiff <= q * maxZoneTempDiff;
    assert ((n - 1) as real) * maxZoneTempDiff <= ((m - 1) as real) * maxZoneTempDiff;
  }

  /** When the even split is not below MinTimeStepSys, the system steps tile the zone step exactly. */
  lemma StepsTileZoneStep(prev: SysStepState, zoneTempChange: real, maxZoneTempDiff: real,
                          limitNumSysSteps: int, timeStepZone: real, minTimeStepSys: real)
    requires maxZoneTempDiff > 0.0 && zoneTempChange > maxZoneTempDiff && limitNumSysSteps > 0
    requires var r := AdaptSysTimeStep(prev, zoneTempChange, maxZoneTempDiff, false, limitNumSysSteps, timeStepZone, minTimeStepSys);
             timeStepZone / (r.numOfSysTimeSteps as real) >= minTimeStepSys
    ensures var r := AdaptSysTimeStep(prev, zoneTempChange, maxZoneTempDiff, false, limitNumSysSteps, timeStepZone, minTimeStepSys);
            r.numOfSysTimeSteps > 0 && r.timeStepSys * (r.numOfSysTimeSteps as real) == timeStepZone
  {
    var q := zoneTempChange / maxZoneTempDiff;
    assert q > 1.0 by {
      assert zoneTempChange == q * maxZoneTempDiff;
    }
  }
}

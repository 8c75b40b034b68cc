/**
 * WaterUse: the hot/cold split of a water use equipment at its tap, the sums of a water use
 * connection over its equipment (with the proportional cut when the plant supplies less hot water
 * than requested), the connection's drain temperature and the heat-recovery iteration cap.
 */
module WaterUse {
  import opened Wrappers

  /** Temperature band (C) within which two water temperatures count as equal. */
  const EPSILON: real := 0.001
  /** Heat-recovery iteration limit and convergence tolerance of SimulateWaterUse. */
  const MaxIterations: nat := 100
  const Tolerance: real := 0.1

  /** The fields of WaterEquipmentType that the flow and drain calculations read or write. */
  datatype WaterEquipment = WaterEquipment(
    coldTemp: real,
    hotTemp: real,
    targetTemp: real,
    totalMassFlowRate: real,
    hotMassFlowRate: real,
    coldMassFlowRate: real,
    mixedTemp: real,
    drainMassFlowRate: real,
    drainTemp: real,
    gains: ZoneGains)

  /** The heat and moisture an equipment gives to its zone, as rates and as amounts over the system time step. */
  datatype ZoneGains = ZoneGains(
    sensibleRate: real,
    sensibleEnergy: real,
    latentRate: real,
    latentEnergy: real,
    moistureMass: real,
    moistureRate: real)

  /**
   * What CalcEquipmentFlowRates reads besides the equipment: its water temperatures (already taken
   * from the connection or its schedules), the target schedule, the hot-control option, the peak
   * flow, the zone multipliers (when it is in a zone), the flow fraction schedule and the water density.
   */
  datatype EquipmentConditions = EquipmentConditions(
    coldTemp: real,
    hotTemp: real,
    targetTempSched: Option<real>,
    allowHotControl: bool,
    peakVolFlowRate: real,
    zoneMultipliers: Option<real>,
    flowRateFracSched: Option<real>,
    density: real)

  /** The target temperature: the schedule value, else the hot temperature under hot control, else the cold temperature. */
  function TargetTemp(c: EquipmentConditions): real
  {
    if c.targetTempSched.Some? then c.targetTempSched.value
    else if c.allowHotControl then c.hotTemp
    else c.coldTemp
  }

  /** The requested mass flow: peak volume flow times zone multipliers and flow fraction, times density. */
  function TotalMassFlow(c: EquipmentConditions): real
  {
    var v0 := c.peakVolFlowRate;
    var v1 := if c.zoneMultipliers.Some? then v0 * c.zoneMultipliers.value else v0;
    var v2 := if c.flowRateFracSched.Some? then v1 * c.flowRateFracSched.value else v1;
    v2 * c.density
  }

  /** The hot share of a positive total flow at the tap: none, all, or the proportion that meets the target. */
  function HotFlowRate(total: real, target: real, cold: real, hot: real): (h: real)
    requires total > 0.0
    ensures 0.0 <= h <= total
    ensures target <= cold + EPSILON ==> h == 0.0
    ensures target > cold + EPSILON && (target >= hot || hot <= cold + EPSILON) ==> h == total
  {
    if target <= cold + EPSILON then 0.0
    else if target >= hot then total
    else if hot <= cold + EPSILON then total
    else
      ProportionWithin(total, target - cold, hot - cold);
      total * (target - cold) / (hot - cold)
  }

  /** total·n/d lies in [0, total] when 0 < n < d. */
  lemma ProportionWithin(total: real, n: real, d: real)
    requires total > 0.0 && 0.0 < n < d
    ensures 0.0 <= total * n / d <= total
  {
    var q := total * n / d;
    assert q * d == total * n;
    assert total * n < total * d;
  }

  function MixedTemp(coldFlow: real, coldTemp: real, hotFlow: real, hotTemp: real, total: real): real
    requires total != 0.0
  {
    (coldFlow * coldTemp + hotFlow * hotTemp) / total
  }

  /** The equipment after CalcEquipmentFlowRates. */
  function EquipmentFlowRates(e: WaterEquipment, c: EquipmentConditions): (r: WaterEquipment)
    ensures r.totalMassFlowRate == TotalMassFlow(c) && r.targetTemp == TargetTemp(c)
    ensures r.hotMassFlowRate + r.coldMassFlowRate == r.totalMassFlowRate
    ensures r.coldTemp == c.coldTemp && r.hotTemp == c.hotTemp
    ensures r.drainMassFlowRate == e.drainMassFlowRate && r.drainTemp == e.drainTemp
  {
    var target := TargetTemp(c);
    var total := TotalMassFlow(c);
    if total > 0.0 && c.allowHotControl then
      var hotFlow := HotFlowRate(total, target, c.coldTemp, c.hotTemp);
      var coldFlow := total - hotFlow;
      e.(coldTemp := c.coldTemp, hotTemp := c.hotTemp, targetTemp := target, totalMassFlowRate := total,
         hotMassFlowRate := hotFlow, coldMassFlowRate := coldFlow,
         mixedTemp := MixedTemp(coldFlow, c.coldTemp, hotFlow, c.hotTemp, total))
    else
      e.(coldTemp := c.coldTemp, hotTemp := c.hotTemp, targetTemp := target, totalMassFlowRate := total,
         hotMassFlowRate := 0.0, coldMassFlowRate := total, mixedTemp := target)
  }

  /** The asserted bounds of CalcEquipmentFlowRates: with flow and hot control both parts lie within the total. */
  lemma SplitWithinTotal(e: WaterEquipment, c: EquipmentConditions)
    requires TotalMassFlow(c) > 0.0 && c.allowHotControl
    ensures var r := EquipmentFlowRates(e, c);
            0.0 <= r.hotMassFlowRate <= r.totalMassFlowRate && 0.0 <= r.coldMassFlowRate <= r.totalMassFlowRate
  {
  }

  /** Without flow or without hot control all water is cold and the mixed temperature is the target. */
  lemma NoHotWithoutControl(e: WaterEquipment, c: EquipmentConditions)
    requires !(TotalMassFlow(c) > 0.0 && c.allowHotControl)
    ensures var r := EquipmentFlowRates(e, c);
            r.hotMassFlowRate == 0.0 && r.coldMassFlowRate == r.totalMassFlowRate && r.mixedTemp == r.targetTemp
  {
  }

  /** When the target lies strictly inside the usable band, mixing hits the target exactly. */
  lemma MixedTempMeetsTarget(e: WaterEquipment, c: EquipmentConditions)
    requires TotalMassFlow(c) > 0.0 && c.allowHotControl
    requires TargetTemp(c) > c.coldTemp + EPSILON && TargetTemp(c) < c.hotTemp && c.hotTemp > c.coldTemp + EPSILON
    ensures EquipmentFlowRates(e, c).mixedTemp == TargetTemp(c)
  {
    var total := TotalMassFlow(c);
    var t := TargetTemp(c);
    var n := t - c.coldTemp;
    var d := c.hotTemp - c.coldTemp;
    var hf := HotFlowRate(total, t, c.coldTemp, c.hotTemp);
    assert hf == total * n / d;
    assert hf * d == total * n;
    var cf := total - hf;
    calc {
      cf * c.coldTemp + hf * c.hotTemp;
      total * c.coldTemp + hf * d;
      total * c.coldTemp + total * n;
      total * t;
    }
    assert MixedTemp(cf, c.coldTemp, hf, c.hotTemp, total) * total == total * t;
  }

  /** CalcEquipmentFlowRates: the branches of the tap mixing, step by step. */
  method CalcEquipmentFlowRates(e: WaterEquipment, c: EquipmentConditions) returns (r: WaterEquipment)
    ensures r == EquipmentFlowRates(e, c)
  {
    var targetTemp: real;
    if c.targetTempSched.Some? {
      targetTemp := c.targetTempSched.value;
    } else if c.allowHotControl {
      targetTemp := c.hotTemp;
    } else {
      targetTemp := c.coldTemp;
    }
    var totalVolFlowRate := c.peakVolFlowRate;
    if c.zoneMultipliers.Some? {
      totalVolFlowRate := totalVolFlowRate * c.zoneMultipliers.value;
    }
    if c.flowRateFracSched.Some? {
      totalVolFlowRate := totalVolFlowRate * c.flowRateFracSched.value;
    }
    var totalMassFlowRate := totalVolFlowRate * c.density;
    assert targetTemp == TargetTemp(c) && totalMassFlowRate == TotalMassFlow(c);
    var hotMassFlowRate, coldMassFlowRate, mixedTemp;
    if totalMassFlowRate > 0.0 && c.allowHotControl {
      hotMassFlowRate := HotShare(totalMassFlowRate, targetTemp, c.coldTemp, c.hotTemp);
      coldMassFlowRate := totalMassFlowRate - hotMassFlowRate;
      mixedTemp := (coldMassFlowRate * c.coldTemp + hotMassFlowRate * c.hotTemp) / totalMassFlowRate;
    } else {
      hotMassFlowRate, coldMassFlowRate, mixedTemp := 0.0, totalMassFlowRate, targetTemp;
    }
    r := e.(coldTemp := c.coldTemp, hotTemp := c.hotTemp, targetTemp := targetTemp, totalMassFlowRate := totalMassFlowRate,
            hotMassFlowRate := hotMassFlowRate, coldMassFlowRate := coldMassFlowRate, mixedTemp := mixedTemp);
  }

  /** The branch ladder of CalcEquipmentFlowRates that chooses the hot share. */
  method HotShare(total: real, target: real, cold: real, hot: real) returns (h: real)
    requires total > 0.0
    ensures h == HotFlowRate(total, target, cold, hot)
  {
    if target <= cold + EPSILON {
      h := 0.0;
    } else if target >= hot {
      h := total;
    } else if hot <= cold + EPSILON {
      h := total;
    } else {
      h := total * (target - cold) / (hot - cold);
    }
  }

  // ---------------------------------------------------------------------------
  // Drain water of one equipment

  /**
   * The zone air an equipment in a zone gives heat and moisture to, as CalcEquipmentDrainTemp
   * reads it: the mean air temperature, the most water the air can still take up (saturation
   * humidity ratio less the zone's, times dry-air density and zone volume) and the latent heat of
   * vaporisation at the zone's state.
   */
  datatype ZoneAir = ZoneAir(mat: real, zoneMassMax: real, hfg: real)

  /** What CalcEquipmentDrainTemp reads besides the equipment: its zone (None for zone 0) and the gain fraction schedules. */
  datatype DrainConditions = DrainConditions(zone: Option<ZoneAir>, sensibleFracSched: Option<real>, latentFracSched: Option<real>)

  function Min(a: real, b: real): real
  {
    if a <= b then a else b
  }

  /**
   * The gains of CalcEquipmentDrainTemp, for the specific heat of water cpw and the system time
   * step dt (seconds): none outside a zone or without flow; in a zone, the sensible fraction of the
   * flow's heat above the zone temperature and the latent heat of the evaporated fraction of the
   * water (no more than the zone air or the flow can hold). The moisture mass and rate keep their
   * last values when there is no latent schedule.
   */
  function Gains(e: WaterEquipment, c: DrainConditions, cpw: real, dt: real): (g: ZoneGains)
    requires dt > 0.0
    ensures c.zone.None? || e.totalMassFlowRate == 0.0 || c.sensibleFracSched.None? ==> g.sensibleRate == 0.0
    ensures c.zone.None? || e.totalMassFlowRate == 0.0 || c.latentFracSched.None? ==>
              g.latentRate == 0.0 && g.moistureMass == e.gains.moistureMass && g.moistureRate == e.gains.moistureRate
    ensures g.sensibleEnergy == g.sensibleRate * dt && g.latentEnergy == g.latentRate * dt
    ensures g.moistureRate * dt == g.moistureMass || g.moistureRate == e.gains.moistureRate
  {
    var g0 := e.gains.(sensibleRate := 0.0, sensibleEnergy := 0.0, latentRate := 0.0, latentEnergy := 0.0);
    if c.zone.None? || e.totalMassFlowRate == 0.0 then g0
    else
      var z := c.zone.value;
      var total := e.totalMassFlowRate;
      var sensible := if c.sensibleFracSched.Some? then c.sensibleFracSched.value * total * cpw * (e.mixedTemp - z.mat) else 0.0;
      var g1 := g0.(sensibleRate := sensible, sensibleEnergy := sensible * dt);
      if c.latentFracSched.None? then g1
      else
        var mass := c.latentFracSched.value * Min(z.zoneMassMax, total * dt);
        var rate := mass / dt;
        g1.(moistureMass := mass, moistureRate := rate, latentRate := rate * z.hfg, latentEnergy := rate * z.hfg * dt)
  }

  /**
   * The equipment after CalcEquipmentDrainTemp. Outside a zone, or without flow, all the water
   * drains at the mixed temperature. In a zone, the water not evaporated drains, carrying the heat
   * not given to the zone.
   */
  function EquipmentDrain(e: WaterEquipment, c: DrainConditions, cpw: real, dt: real): (r: WaterEquipment)
    requires cpw > 0.0 && dt > 0.0
    ensures r.(drainMassFlowRate := e.drainMassFlowRate, drainTemp := e.drainTemp, gains := e.gains) == e
    ensures r.gains == Gains(e, c, cpw, dt)
    ensures c.zone.None? || e.totalMassFlowRate == 0.0 ==>
              r.drainMassFlowRate == e.totalMassFlowRate && r.drainTemp == e.mixedTemp
    ensures c.zone.Some? && e.totalMassFlowRate != 0.0 ==> r.drainMassFlowRate + r.gains.moistureRate == e.totalMassFlowRate
  {
    var g := Gains(e, c, cpw, dt);
    if c.zone.None? || e.totalMassFlowRate == 0.0 then
      e.(gains := g, drainTemp := e.mixedTemp, drainMassFlowRate := e.totalMassFlowRate)
    else
      var total := e.totalMassFlowRate;
      var drain := total - g.moistureRate;
      e.(gains := g, drainMassFlowRate := drain,
         drainTemp := if drain == 0.0 then e.mixedTemp
                      else (total * cpw * e.mixedTemp - g.sensibleRate - g.latentRate) / (drain * cpw))
  }

  /**
   * Heat balance of the drain: in a zone, the heat the drain carries plus the sensible and latent
   * gains to the zone is the heat of the water used (unless nothing drains).
   */
  lemma DrainHeatBalance(e: WaterEquipment, c: DrainConditions, cpw: real, dt: real)
    requires cpw > 0.0 && dt > 0.0
    requires c.zone.Some? && e.totalMassFlowRate != 0.0
    ensures var r := EquipmentDrain(e, c, cpw, dt);
            r.drainMassFlowRate != 0.0 ==>
              r.drainMassFlowRate * cpw * r.drainTemp + r.gains.sensibleRate + r.gains.latentRate == e.totalMassFlowRate * cpw * e.mixedTemp
  {
    var r := EquipmentDrain(e, c, cpw, dt);
    var g := r.gains;
    var d := r.drainMassFlowRate;
    if d != 0.0 {
      var heat := e.totalMassFlowRate * cpw * e.mixedTemp - g.sensibleRate - g.latentRate;
      var k := d * cpw;
      assert k != 0.0;
      assert r.drainTemp == heat / k;
      QuotientTimes(heat, k);
    }
  }

  lemma QuotientTimes(x: real, k: real)
    requires k != 0.0
    ensures k * (x / k) == x
  {
  }

  /**
   * With a latent fraction in [0, 1] and zone air that can still take up water, the water
   * evaporated is never more than the flow, so the drain flow lies between 0 and the flow.
   */
  lemma MoistureWithinFlow(e: WaterEquipment, c: DrainConditions, cpw: real, dt: real)
    requires cpw > 0.0 && dt > 0.0
    requires c.zone.Some? && e.totalMassFlowRate > 0.0 && c.zone.value.zoneMassMax >= 0.0
    requires c.latentFracSched.Some? && 0.0 <= c.latentFracSched.value <= 1.0
    ensures var r := EquipmentDrain(e, c, cpw, dt);
            0.0 <= r.gains.moistureRate <= e.totalMassFlowRate && 0.0 <= r.drainMassFlowRate <= e.totalMassFlowRate
  {
    var total := e.totalMassFlowRate;
    var m := Min(c.zone.value.zoneMassMax, total * dt);
    var mass := c.latentFracSched.value * m;
    FractionWithin(c.latentFracSched.value, m, total * dt);
    RateWithin(mass, dt, total);
    assert Gains(e, c, cpw, dt).moistureRate == mass / dt;
  }

  lemma FractionWithin(f: real, m: real, cap: real)
    requires 0.0 <= f <= 1.0 && 0.0 <= m <= cap
    ensures 0.0 <= f * m <= cap
  {
    assert f * m <= 1.0 * m;
  }

  lemma RateWithin(mass: real, dt: real, total: real)
    requires dt > 0.0 && 0.0 <= mass <= total * dt
    ensures 0.0 <= mass / dt <= total
  {
    var rate := mass / dt;
    assert rate * dt == mass;
    if rate > total {
      assert rate * dt > total * dt;
    }
  }

  /** The gain part of CalcEquipmentDrainTemp: the gains are reset, then the zone branch computes them field by field. */
  method CalcGains(e: WaterEquipment, c: DrainConditions, cpw: real, dt: real) returns (g: ZoneGains)
    requires dt > 0.0
    ensures g == Gains(e, c, cpw, dt)
  {
    g := e.gains.(sensibleRate := 0.0, sensibleEnergy := 0.0, latentRate := 0.0, latentEnergy := 0.0);
    if c.zone.Some? && e.totalMassFlowRate != 0.0 {
      var z := c.zone.value;
      if c.sensibleFracSched.Some? {
        var rate := c.sensibleFracSched.value * e.totalMassFlowRate * cpw * (e.mixedTemp - z.mat);
        g := g.(sensibleRate := rate, sensibleEnergy := rate * dt);
      }
      if c.latentFracSched.Some? {
        var flowMassMax := e.totalMassFlowRate * dt;
        var moistureMassMax := if z.zoneMassMax <= flowMassMax then z.zoneMassMax else flowMassMax;
        var mass := c.latentFracSched.value * moistureMassMax;
        g := g.(moistureMass := mass, moistureRate := mass / dt);
        g := g.(latentRate := g.moistureRate * z.hfg);
        g := g.(latentEnergy := g.latentRate * dt);
      }
    }
  }

  /** CalcEquipmentDrainTemp: the gains, then the drain flow and temperature. */
  method CalcEquipmentDrainTemp(e: WaterEquipment, c: DrainConditions, cpw: real, dt: real) returns (r: WaterEquipment)
    requires cpw > 0.0 && dt > 0.0
    ensures r == EquipmentDrain(e, c, cpw, dt)
  {
    var g := CalcGains(e, c, cpw, dt);
    if c.zone.None? || e.totalMassFlowRate == 0.0 {
      r := e.(gains := g, drainTemp := e.mixedTemp, drainMassFlowRate := e.totalMassFlowRate);
    } else {
      var drain := e.totalMassFlowRate - g.moistureRate;
      var drainTemp;
      if drain == 0.0 {
        drainTemp := e.mixedTemp;
      } else {
        drainTemp := (e.totalMassFlowRate * cpw * e.mixedTemp - g.sensibleRate - g.latentRate) / (drain * cpw);
      }
      r := e.(gains := g, drainMassFlowRate := drain, drainTemp := drainTemp);
    }
  }

  // ---------------------------------------------------------------------------
  // Sums over a connection's equipment

  predicate IndicesValid(idxs: seq<nat>, n: nat)
  {
    (forall k :: 0 <= k < |idxs| ==> idxs[k] < n)
    && (forall k, l :: 0 <= k < l < |idxs| ==> idxs[k] != idxs[l])
  }

  /** The sum of `f` over the equipment listed in `idxs`. */
  function SumOf(eqs: seq<WaterEquipment>, idxs: seq<nat>, f: WaterEquipment -> real): real
    requires forall k :: 0 <= k < |idxs| ==> idxs[k] < |eqs|
  {
    if idxs == [] then 0.0 else SumOf(eqs, idxs[..|idxs| - 1], f) + f(eqs[idxs[|idxs| - 1]])
  }

  /** Every equipment as CalcEquipmentFlowRates leaves it, before any cut for the plant supply. */
  function Requested(eqs: seq<WaterEquipment>, conds: seq<EquipmentConditions>): (r: seq<WaterEquipment>)
    requires |conds| == |eqs|
    ensures |r| == |eqs| && forall j :: 0 <= j < |eqs| ==> r[j] == EquipmentFlowRates(eqs[j], conds[j])
  {
    seq(|eqs|, j requires 0 <= j < |eqs| => EquipmentFlowRates(eqs[j], conds[j]))
  }

  /** Every equipment as CalcEquipmentDrainTemp leaves it. */
  function Drained(eqs: seq<WaterEquipment>, dconds: seq<DrainConditions>, cpw: real, dt: real): (r: seq<WaterEquipment>)
    requires |dconds| == |eqs| && cpw > 0.0 && dt > 0.0
    ensures |r| == |eqs| && forall j :: 0 <= j < |eqs| ==> r[j] == EquipmentDrain(eqs[j], dconds[j], cpw, dt)
  {
    seq(|eqs|, j requires 0 <= j < |eqs| => EquipmentDrain(eqs[j], dconds[j], cpw, dt))
  }

  function Cold(e: WaterEquipment): real { e.coldMassFlowRate }
  function Hot(e: WaterEquipment): real { e.hotMassFlowRate }
  function Total(e: WaterEquipment): real { e.totalMassFlowRate }
  function Drain(e: WaterEquipment): real { e.drainMassFlowRate }
  function DrainHeat(e: WaterEquipment): real { e.drainMassFlowRate * e.drainTemp }

  /** Sums only look at the listed entries. */
  lemma {:induction false} SumOfFrame(a: seq<WaterEquipment>, b: seq<WaterEquipment>, idxs: seq<nat>, f: WaterEquipment -> real)
    requires |a| == |b| && forall k :: 0 <= k < |idxs| ==> idxs[k] < |a| && f(a[idxs[k]]) == f(b[idxs[k]])
    ensures SumOf(a, idxs, f) == SumOf(b, idxs, f)
  {
    if idxs != [] {
      SumOfFrame(a, b, idxs[..|idxs| - 1], f);
    }
  }

  /**
   * Cutting every listed equipment's hot flow by the same fraction scales the hot sum by that
   * fraction and keeps the sum of the totals.
   */
  lemma {:induction false} HotCutSums(a: seq<WaterEquipment>, b: seq<WaterEquipment>, idxs: seq<nat>, fraction: real)
    requires |a| == |b| && forall k :: 0 <= k < |idxs| ==> idxs[k] < |a| && b[idxs[k]] == HotCut(a[idxs[k]], fraction)
    ensures SumOf(b, idxs, Hot) == SumOf(a, idxs, Hot) * fraction
    ensures SumOf(b, idxs, Total) == SumOf(a, idxs, Total)
  {
    if idxs != [] {
      HotCutSums(a, b, idxs[..|idxs| - 1], fraction);
    }
  }

  /** When every listed equipment's hot and cold flows add up to its total, so do the sums. */
  lemma {:induction false} SumOfSplit(a: seq<WaterEquipment>, idxs: seq<nat>)
    requires forall k :: 0 <= k < |idxs| ==> idxs[k] < |a| && a[idxs[k]].hotMassFlowRate + a[idxs[k]].coldMassFlowRate == a[idxs[k]].totalMassFlowRate
    ensures SumOf(a, idxs, Hot) + SumOf(a, idxs, Cold) == SumOf(a, idxs, Total)
  {
    if idxs != [] {
      SumOfSplit(a, idxs[..|idxs| - 1]);
    }
  }

  /** lo·m <= m·t when the flow m is not negative and lo <= t. */
  lemma ScaledBelow(m: real, t: real, lo: real)
    requires m >= 0.0 && lo <= t
    ensures lo * m <= m * t
  {
    assert m * t - lo * m == (t - lo) * m;
  }

  /** Every listed drain flow is non-negative and every listed drain temperature lies in [lo, hi]. */
  predicate DrainsWithin(a: seq<WaterEquipment>, idxs: seq<nat>, lo: real, hi: real)
  {
    forall k :: 0 <= k < |idxs| ==>
      idxs[k] < |a| && a[idxs[k]].drainMassFlowRate >= 0.0 && lo <= a[idxs[k]].drainTemp <= hi
  }

  /** The heat sum of the drains is at least the lowest drain temperature times the drain flow. */
  lemma {:induction false} DrainHeatAbove(a: seq<WaterEquipment>, idxs: seq<nat>, lo: real, hi: real)
    requires DrainsWithin(a, idxs, lo, hi)
    ensures lo * SumOf(a, idxs, Drain) <= SumOf(a, idxs, DrainHeat)
  {
    if idxs != [] {
      var rest := idxs[..|idxs| - 1];
      DrainHeatAbove(a, rest, lo, hi);
      var e := a[idxs[|idxs| - 1]];
      var s0, h0 := SumOf(a, rest, Drain), SumOf(a, rest, DrainHeat);
      assert SumOf(a, idxs, Drain) == s0 + Drain(e);
      assert SumOf(a, idxs, DrainHeat) == h0 + DrainHeat(e);
      StepAbove(lo, s0, h0, e);
    }
  }

  /** The heat sum of the drains is at most the highest drain temperature times the drain flow. */
  lemma {:induction false} DrainHeatBelow(a: seq<WaterEquipment>, idxs: seq<nat>, lo: real, hi: real)
    requires DrainsWithin(a, idxs, lo, hi)
    ensures SumOf(a, idxs, DrainHeat) <= hi * SumOf(a, idxs, Drain)
  {
    if idxs != [] {
      var rest := idxs[..|idxs| - 1];
      DrainHeatBelow(a, rest, lo, hi);
      var e := a[idxs[|idxs| - 1]];
      var s0, h0 := SumOf(a, rest, Drain), SumOf(a, rest, DrainHeat);
      assert SumOf(a, idxs, Drain) == s0 + Drain(e);
      assert SumOf(a, idxs, DrainHeat) == h0 + DrainHeat(e);
      StepBelow(hi, s0, h0, e);
    }
  }

  /** One more drain keeps the heat sum above lo times the flow sum. */
  lemma StepAbove(lo: real, s0: real, h0: real, e: WaterEquipment)
    requires lo * s0 <= h0 && e.drainMassFlowRate >= 0.0 && lo <= e.drainTemp
    ensures lo * (s0 + Drain(e)) <= h0 + DrainHeat(e)
  {
    var m, t := e.drainMassFlowRate, e.drainTemp;
    ScaledBelow(m, t, lo);
    assert lo * (s0 + m) == lo * s0 + lo * m;
  }

  /** One more drain keeps the heat sum below hi times the flow sum. */
  lemma StepBelow(hi: real, s0: real, h0: real, e: WaterEquipment)
    requires h0 <= hi * s0 && e.drainMassFlowRate >= 0.0 && e.drainTemp <= hi
    ensures h0 + DrainHeat(e) <= hi * (s0 + Drain(e))
  {
    var m, t := e.drainMassFlowRate, e.drainTemp;
    ScaledBelow(m, hi, t);
    assert hi * (s0 + m) == hi * s0 + hi * m;
    assert t * m == m * t && hi * m == m * hi;
  }

  /** The connection's drain volume flow as written: the mass flow multiplied by the density. */
  function DrainVolFlowRateAsWritten(drainMassFlowRate: real, density: real): real
  {
    drainMassFlowRate * density
  }

  /** As written, 1 kg/s of drain water at 1000 kg/m3 is reported as 1000 m3/s rather than 0.001 m3/s. */
  lemma DrainVolumeAsWrittenIsNotAVolume()
    ensures DrainVolFlowRateAsWritten(1.0, 1000.0) == 1000.0 != 1.0 / 1000.0
  {
  }

  /**
   * A volume flow from a mass flow: divided by the water density, as the cold-water volume
   * requested from a supply tank is computed, and as the drain volume is meant to be.
   */
  function VolFlowRate(massFlowRate: real, density: real): (v: real)
    requires density > 0.0
    ensures v * density == massFlowRate
    ensures massFlowRate >= 0.0 ==> v >= 0.0
  {
    massFlowRate / density
  }

  /** The connection values written when the plant supplies less hot water, as written: the hot flow keeps the request. */
  function PlantCutConnectionAsWritten(hotMassFlowRate: real, totalMassFlowRate: real, desiredHot: real): (r: (real, real))
  {
    (hotMassFlowRate, totalMassFlowRate - hotMassFlowRate)
  }

  /**
   * As written, when one equipment requests 1 kg/s of hot water (2 kg/s in total) and the plant
   * gives 0.5 kg/s, the equipment's hot flow is cut to 0.5 kg/s but the connection still reports
   * 1 kg/s hot and 1 kg/s cold.
   */
  lemma PlantCutAsWrittenDisagreesWithEquipment()
    ensures var e := WaterEquipment(10.0, 60.0, 40.0, 2.0, 1.0, 1.0, 35.0, 0.0, 0.0, ZoneGains(0.0, 0.0, 0.0, 0.0, 0.0, 0.0));
            var after := [HotCut(e, 0.5 / 1.0)];
            SumOf(after, [0], Hot) == 0.5 && PlantCutConnectionAsWritten(1.0, 2.0, 0.5) == (1.0, 1.0)
  {
  }

  /** The equipment after the proportional cut of its hot flow. */
  function HotCut(e: WaterEquipment, fraction: real): (r: WaterEquipment)
    ensures r.hotMassFlowRate == e.hotMassFlowRate * fraction
    ensures r.hotMassFlowRate + r.coldMassFlowRate == r.totalMassFlowRate
    ensures r.totalMassFlowRate == e.totalMassFlowRate && r.drainMassFlowRate == e.drainMassFlowRate && r.drainTemp == e.drainTemp
  {
    var hot := e.hotMassFlowRate * fraction;
    var cold := e.totalMassFlowRate - hot;
    e.(hotMassFlowRate := hot, coldMassFlowRate := cold,
       mixedTemp := if e.totalMassFlowRate > 0.0 then MixedTemp(cold, e.coldTemp, hot, e.hotTemp, e.totalMassFlowRate) else e.targetTemp)
  }

  lemma MulDivCancels(x: real, y: real)
    requires x != 0.0
    ensures x * (y / x) == y
  {
  }

  /**
   * The corrected plant cut: when the requested hot flows sum to a positive amount and every
   * listed equipment's hot flow is cut by granted/requested, the hot flows sum to the granted
   * flow, the cold flows take up the rest, and the sum of the totals is kept.
   */
  lemma PlantCutMatchesGrant(before: seq<WaterEquipment>, after: seq<WaterEquipment>, idxs: seq<nat>,
                             fraction: real, granted: real)
    requires |before| == |after| && forall k :: 0 <= k < |idxs| ==> idxs[k] < |before|
    requires forall k :: 0 <= k < |idxs| ==>
               before[idxs[k]].hotMassFlowRate + before[idxs[k]].coldMassFlowRate == before[idxs[k]].totalMassFlowRate
    requires SumOf(before, idxs, Hot) * fraction == granted
    requires forall k :: 0 <= k < |idxs| ==> after[idxs[k]] == HotCut(before[idxs[k]], fraction)
    ensures SumOf(after, idxs, Hot) == granted
    ensures SumOf(after, idxs, Total) == SumOf(before, idxs, Total)
    ensures SumOf(after, idxs, Cold) == SumOf(before, idxs, Cold) + SumOf(before, idxs, Hot) - granted
  {
    HotCutSums(before, after, idxs, fraction);
    SumOfSplit(before, idxs);
    SumOfSplit(after, idxs);
  }

  /** The connection's drain temperature: the flow-weighted mean of its drains, or the hot temperature without drain flow. */
  function ConnectionDrainTemp(eqs: seq<WaterEquipment>, idxs: seq<nat>, hotTemp: real): real
    requires forall k :: 0 <= k < |idxs| ==> idxs[k] < |eqs|
  {
    var flow := SumOf(eqs, idxs, Drain);
    if flow > 0.0 then SumOf(eqs, idxs, DrainHeat) / flow else hotTemp
  }

  /** With drain flow, the connection's drain temperature lies between the coldest and the warmest equipment drain. */
  lemma DrainTempWithinDrains(eqs: seq<WaterEquipment>, idxs: seq<nat>, hotTemp: real, lo: real, hi: real)
    requires DrainsWithin(eqs, idxs, lo, hi)
    requires SumOf(eqs, idxs, Drain) > 0.0
    ensures lo <= ConnectionDrainTemp(eqs, idxs, hotTemp) <= hi
  {
    var flow := SumOf(eqs, idxs, Drain);
    var heat := SumOf(eqs, idxs, DrainHeat);
    DrainHeatBelow(eqs, idxs, lo, hi);
    DrainHeatAbove(eqs, idxs, lo, hi);
    QuotientWithin(heat, flow, lo, hi);
  }

  lemma QuotientWithin(heat: real, flow: real, lo: real, hi: real)
    requires flow > 0.0 && lo * flow <= heat <= hi * flow
    ensures lo <= heat / flow <= hi
  {
  }

  /**
   * The heat-recovery loop of SimulateWaterUse for one stand-alone connection: iterate until the
   * temperature error falls below the tolerance, or give up once the iteration count exceeds the
   * limit. `tempErrorAt(n)` is the error after the n-th pass (the flow, drain and heat-recovery
   * calculations are not repeated here).
   */
  method HeatRecoveryIterations(tempErrorAt: nat -> real) returns (numIteration: nat, converged: bool)
    ensures 1 <= numIteration <= MaxIterations + 1
    ensures converged <==> tempErrorAt(numIteration) < Tolerance
    ensures !converged ==> numIteration == MaxIterations + 1
    ensures forall k :: 1 <= k < numIteration ==> tempErrorAt(k) >= Tolerance
  {
    numIteration := 0;
    while true
      invariant 0 <= numIteration <= MaxIterations
      invariant forall k :: 1 <= k <= numIteration ==> tempErrorAt(k) >= Tolerance
      decreases MaxIterations - numIteration
    {
      numIteration := numIteration + 1;
      if tempErrorAt(numIteration) < Tolerance {
        converged := true;
        return;
      } else if numIteration > MaxIterations {
        converged := false;
        return;
      }
    }
  }

  // ---------------------------------------------------------------------------
  // WaterConnectionsType

  class WaterConnection {
    const myWaterEquipArr: seq<nat>
    const standAlone: bool
    const hasInletNode: bool
    const hasSupplyTank: bool
    var coldMassFlowRate: real
    var hotMassFlowRate: real
    var totalMassFlowRate: real
    var coldVolFlowRate: real
    var tankVolFlowRate: real
    var tankMassFlowRate: real
    var hotTemp: real
    var drainMassFlowRate: real
    var drainTemp: real
    var drainVolFlowRate: real

    constructor (myWaterEquipArr: seq<nat>, standAlone: bool, hasInletNode: bool, hasSupplyTank: bool)
      ensures this.myWaterEquipArr == myWaterEquipArr && this.standAlone == standAlone && this.hasInletNode == hasInletNode
      ensures this.hasSupplyTank == hasSupplyTank
      ensures coldMassFlowRate == 0.0 && hotMassFlowRate == 0.0 && totalMassFlowRate == 0.0
    {
      this.myWaterEquipArr := myWaterEquipArr;
      this.standAlone := standAlone;
      this.hasInletNode := hasInletNode;
      this.hasSupplyTank := hasSupplyTank;
      coldMassFlowRate, hotMassFlowRate, totalMassFlowRate := 0.0, 0.0, 0.0;
      coldVolFlowRate, tankVolFlowRate, tankMassFlowRate := 0.0, 0.0, 0.0;
      hotTemp, drainMassFlowRate, drainTemp, drainVolFlowRate := 0.0, 0.0, 0.0, 0.0;
    }

    /** The connection takes its hot water from a plant loop: it is not stand-alone and has an inlet node. */
    predicate ServedByPlant()
    {
      !standAlone && hasInletNode
    }

    /** The first loop of CalcConnectionsFlowRates: each listed equipment computes its flows and they are summed. */
    method SumEquipmentFlows(equip: array<WaterEquipment>, conds: seq<EquipmentConditions>)
      returns (coldSum: real, hotSum: real)
      requires |conds| == equip.Length && IndicesValid(myWaterEquipArr, equip.Length)
      modifies equip
      ensures forall k :: 0 <= k < |myWaterEquipArr| ==>
                equip[myWaterEquipArr[k]] == EquipmentFlowRates(old(equip[myWaterEquipArr[k]]), conds[myWaterEquipArr[k]])
      ensures forall j :: 0 <= j < equip.Length && j !in myWaterEquipArr ==> equip[j] == old(equip[j])
      ensures coldSum == SumOf(equip[..], myWaterEquipArr, Cold) && hotSum == SumOf(equip[..], myWaterEquipArr, Hot)
    {
      var idxs := myWaterEquipArr;
      ghost var target := Requested(equip[..], conds);
      coldSum, hotSum := 0.0, 0.0;
      for loop := 0 to |idxs|
        invariant forall k :: 0 <= k < loop ==> equip[idxs[k]] == target[idxs[k]]
        invariant forall j :: 0 <= j < equip.Length && j !in idxs[..loop] ==> equip[j] == old(equip[j])
        invariant coldSum == SumOf(target, idxs[..loop], Cold) && hotSum == SumOf(target, idxs[..loop], Hot)
      {
        var n := idxs[loop];
        assert n !in idxs[..loop];
        assert idxs[..loop + 1][..loop] == idxs[..loop];
        var e := CalcEquipmentFlowRates(equip[n], conds[n]);
        equip[n] := e;
        coldSum := coldSum + e.coldMassFlowRate;
        hotSum := hotSum + e.hotMassFlowRate;
      }
      assert idxs[..|idxs|] == idxs;
      SumOfFrame(target, equip[..], idxs, Cold);
      SumOfFrame(target, equip[..], idxs, Hot);
    }

    /** The proportional cut loop: every listed equipment's hot flow is multiplied by the same fraction. */
    method CutHotFlows(equip: array<WaterEquipment>, fraction: real, ghost granted: real)
      requires IndicesValid(myWaterEquipArr, equip.Length)
      requires forall k :: 0 <= k < |myWaterEquipArr| ==>
                 equip[myWaterEquipArr[k]].hotMassFlowRate + equip[myWaterEquipArr[k]].coldMassFlowRate == equip[myWaterEquipArr[k]].totalMassFlowRate
      requires SumOf(equip[..], myWaterEquipArr, Hot) * fraction == granted
      modifies equip
      ensures forall k :: 0 <= k < |myWaterEquipArr| ==> equip[myWaterEquipArr[k]] == HotCut(old(equip[myWaterEquipArr[k]]), fraction)
      ensures forall j :: 0 <= j < equip.Length && j !in myWaterEquipArr ==> equip[j] == old(equip[j])
      ensures SumOf(equip[..], myWaterEquipArr, Hot) == granted
      ensures SumOf(equip[..], myWaterEquipArr, Total) == SumOf(old(equip[..]), myWaterEquipArr, Total)
      ensures SumOf(equip[..], myWaterEquipArr, Cold) == SumOf(old(equip[..]), myWaterEquipArr, Cold) + SumOf(old(equip[..]), myWaterEquipArr, Hot) - granted
    {
      var idxs := myWaterEquipArr;
      for loop := 0 to |idxs|
        invariant forall k :: 0 <= k < loop ==> equip[idxs[k]] == HotCut(old(equip[idxs[k]]), fraction)
        invariant forall j :: 0 <= j < equip.Length && j !in idxs[..loop] ==> equip[j] == old(equip[j])
      {
        var n := idxs[loop];
        assert n !in idxs[..loop];
        assert idxs[..loop + 1] == idxs[..loop] + [n];
        equip[n] := HotCut(equip[n], fraction);
      }
      assert idxs[..|idxs|] == idxs;
      PlantCutMatchesGrant(old(equip[..]), equip[..], idxs, fraction, granted);
    }

    /**
     * CalcConnectionsFlowRates: sums the equipment flows, lets the plant answer the hot-water
     * request of a plant connection (cutting every equipment's hot flow on a later HVAC iteration
     * when the plant gives a different flow than a positive request), then asks the supply tank,
     * if any, for the cold water. On the first HVAC iteration of a plant connection the hot flow
     * is what the plant gives while the equipment keeps its request; otherwise the connection's
     * flows are the sums over its equipment. The total is the requested total throughout.
     */
    method CalcConnectionsFlowRates(equip: array<WaterEquipment>, conds: seq<EquipmentConditions>,
                                    firstHVACIteration: bool, plantHotFlow: real, density: real, tankVolAvail: real)
      returns (tankRequest: Option<real>)
      requires |conds| == equip.Length && IndicesValid(myWaterEquipArr, equip.Length) && density > 0.0
      modifies this`coldMassFlowRate, this`hotMassFlowRate, this`totalMassFlowRate, equip
      modifies this`coldVolFlowRate, this`tankVolFlowRate, this`tankMassFlowRate
      ensures coldMassFlowRate == SumOf(equip[..], myWaterEquipArr, Cold)
      ensures totalMassFlowRate == coldMassFlowRate + SumOf(equip[..], myWaterEquipArr, Hot)
      ensures totalMassFlowRate == SumOf(equip[..], myWaterEquipArr, Total)
      ensures !(ServedByPlant() && firstHVACIteration) ==> hotMassFlowRate == SumOf(equip[..], myWaterEquipArr, Hot)
      ensures forall k :: 0 <= k < |myWaterEquipArr| ==>
                equip[myWaterEquipArr[k]].totalMassFlowRate == TotalMassFlow(conds[myWaterEquipArr[k]])
      ensures ServedByPlant() && firstHVACIteration ==>
                forall k :: 0 <= k < |myWaterEquipArr| ==>
                  equip[myWaterEquipArr[k]] == EquipmentFlowRates(old(equip[myWaterEquipArr[k]]), conds[myWaterEquipArr[k]])
      ensures forall j :: 0 <= j < equip.Length && j !in myWaterEquipArr ==> equip[j] == old(equip[j])
      ensures totalMassFlowRate == SumOf(Requested(old(equip[..]), conds), myWaterEquipArr, Total)
      ensures var requested := SumOf(Requested(old(equip[..]), conds), myWaterEquipArr, Hot);
              if ServedByPlant() && (firstHVACIteration || requested > 0.0) then hotMassFlowRate == plantHotFlow
              else hotMassFlowRate == requested
      ensures hasSupplyTank ==> coldVolFlowRate == VolFlowRate(coldMassFlowRate, density) && tankRequest == Some(coldVolFlowRate)
      ensures hasSupplyTank ==> tankVolFlowRate == tankVolAvail && tankMassFlowRate == tankVolAvail * density
      ensures hasSupplyTank && tankVolAvail == coldVolFlowRate ==> tankMassFlowRate == coldMassFlowRate
      ensures !hasSupplyTank ==> tankRequest.None? && coldVolFlowRate == old(coldVolFlowRate)
      ensures !hasSupplyTank ==> tankVolFlowRate == old(tankVolFlowRate) && tankMassFlowRate == old(tankMassFlowRate)
    {
      ghost var requested := Requested(equip[..], conds);
      var c, h := SumEquipmentFlows(equip, conds);
      SumOfFrame(requested, equip[..], myWaterEquipArr, Hot);
      SumOfFrame(requested, equip[..], myWaterEquipArr, Total);
      SumOfSplit(equip[..], myWaterEquipArr);
      coldMassFlowRate := c;
      hotMassFlowRate := h;
      totalMassFlowRate := coldMassFlowRate + hotMassFlowRate;
      CutForPlantSupply(equip, firstHVACIteration, plantHotFlow);
      tankRequest := RequestFromTank(density, tankVolAvail);
    }

    /**
     * The plant part of CalcConnectionsFlowRates (corrected). On the first HVAC iteration the
     * plant overwrites the connection's hot flow with what it gives, and the equipment keeps its
     * request. On a later iteration, when the plant gives a different flow than a positive
     * request, every equipment's hot flow is cut by the same fraction and the connection's hot
     * flow becomes the granted flow, so that it stays the sum over the equipment. Totals are kept.
     */
    method CutForPlantSupply(equip: array<WaterEquipment>, firstHVACIteration: bool, plantHotFlow: real)
      requires IndicesValid(myWaterEquipArr, equip.Length)
      requires hotMassFlowRate == SumOf(equip[..], myWaterEquipArr, Hot)
      requires coldMassFlowRate == SumOf(equip[..], myWaterEquipArr, Cold)
      requires totalMassFlowRate == coldMassFlowRate + hotMassFlowRate
      requires forall k :: 0 <= k < |myWaterEquipArr| ==>
                 equip[myWaterEquipArr[k]].hotMassFlowRate + equip[myWaterEquipArr[k]].coldMassFlowRate == equip[myWaterEquipArr[k]].totalMassFlowRate
      modifies this`coldMassFlowRate, this`hotMassFlowRate, equip
      ensures coldMassFlowRate == SumOf(equip[..], myWaterEquipArr, Cold)
      ensures totalMassFlowRate == coldMassFlowRate + SumOf(equip[..], myWaterEquipArr, Hot)
      ensures !(ServedByPlant() && firstHVACIteration) ==> hotMassFlowRate == SumOf(equip[..], myWaterEquipArr, Hot)
      ensures ServedByPlant() && firstHVACIteration ==> equip[..] == old(equip[..])
      ensures SumOf(equip[..], myWaterEquipArr, Total) == SumOf(old(equip[..]), myWaterEquipArr, Total)
      ensures forall k :: 0 <= k < |myWaterEquipArr| ==>
                equip[myWaterEquipArr[k]].totalMassFlowRate == old(equip[myWaterEquipArr[k]].totalMassFlowRate)
      ensures forall j :: 0 <= j < equip.Length && j !in myWaterEquipArr ==> equip[j] == old(equip[j])
      ensures if ServedByPlant() && (firstHVACIteration || old(hotMassFlowRate) > 0.0) then hotMassFlowRate == plantHotFlow
              else hotMassFlowRate == old(hotMassFlowRate)
    {
      if ServedByPlant() {
        if firstHVACIteration {
          hotMassFlowRate := plantHotFlow;
        } else {
          var desiredHotWaterMassFlow := plantHotFlow;
          if hotMassFlowRate != desiredHotWaterMassFlow && hotMassFlowRate > 0.0 {
            var availableFraction := desiredHotWaterMassFlow / hotMassFlowRate;
            MulDivCancels(hotMassFlowRate, desiredHotWaterMassFlow);
            CutHotFlows(equip, availableFraction, desiredHotWaterMassFlow);
            hotMassFlowRate := desiredHotWaterMassFlow;
            coldMassFlowRate := totalMassFlowRate - hotMassFlowRate;
          }
        }
      }
    }

    /**
     * The supply-tank part of CalcConnectionsFlowRates: the cold flow, as a volume, is requested
     * from the tank (the returned request), and the tank's answer is recorded as a volume and as a
     * mass. The tank does not starve the cold flow.
     */
    method RequestFromTank(density: real, tankVolAvail: real) returns (tankRequest: Option<real>)
      requires density > 0.0
      modifies this`coldVolFlowRate, this`tankVolFlowRate, this`tankMassFlowRate
      ensures hasSupplyTank ==> coldVolFlowRate == VolFlowRate(coldMassFlowRate, density) && tankRequest == Some(coldVolFlowRate)
      ensures hasSupplyTank ==> tankVolFlowRate == tankVolAvail && tankMassFlowRate == tankVolAvail * density
      ensures hasSupplyTank && tankVolAvail == coldVolFlowRate ==> tankMassFlowRate == coldMassFlowRate
      ensures !hasSupplyTank ==> tankRequest.None? && coldVolFlowRate == old(coldVolFlowRate)
      ensures !hasSupplyTank ==> tankVolFlowRate == old(tankVolFlowRate) && tankMassFlowRate == old(tankMassFlowRate)
    {
      tankRequest := None;
      if hasSupplyTank {
        coldVolFlowRate := coldMassFlowRate / density;
        tankRequest := Some(coldVolFlowRate);
        tankVolFlowRate := tankVolAvail;
        tankMassFlowRate := tankVolFlowRate * density;
      }
    }

    /** The loop of CalcConnectionsDrainTemp: each listed equipment computes its drain, and the drain flows and heats are summed. */
    method DrainEquipment(equip: array<WaterEquipment>, dconds: seq<DrainConditions>, cpw: real, dt: real)
      returns (drainSum: real, heatSum: real)
      requires |dconds| == equip.Length && IndicesValid(myWaterEquipArr, equip.Length)
      requires cpw > 0.0 && dt > 0.0
      modifies equip
      ensures forall k :: 0 <= k < |myWaterEquipArr| ==>
                equip[myWaterEquipArr[k]] == EquipmentDrain(old(equip[myWaterEquipArr[k]]), dconds[myWaterEquipArr[k]], cpw, dt)
      ensures forall j :: 0 <= j < equip.Length && j !in myWaterEquipArr ==> equip[j] == old(equip[j])
      ensures drainSum == SumOf(equip[..], myWaterEquipArr, Drain) && heatSum == SumOf(equip[..], myWaterEquipArr, DrainHeat)
    {
      var idxs := myWaterEquipArr;
      ghost var target := Drained(equip[..], dconds, cpw, dt);
      drainSum, heatSum := 0.0, 0.0;
      for loop := 0 to |idxs|
        invariant forall k :: 0 <= k < loop ==> equip[idxs[k]] == target[idxs[k]]
        invariant forall j :: 0 <= j < equip.Length && j !in idxs[..loop] ==> equip[j] == old(equip[j])
        invariant drainSum == SumOf(target, idxs[..loop], Drain) && heatSum == SumOf(target, idxs[..loop], DrainHeat)
      {
        var n := idxs[loop];
        assert n !in idxs[..loop];
        assert idxs[..loop + 1][..loop] == idxs[..loop];
        var e := CalcEquipmentDrainTemp(equip[n], dconds[n], cpw, dt);
        equip[n] := e;
        drainSum := drainSum + Drain(e);
        heatSum := heatSum + DrainHeat(e);
      }
      assert idxs[..|idxs|] == idxs;
      SumOfFrame(target, equip[..], idxs, Drain);
      SumOfFrame(target, equip[..], idxs, DrainHeat);
    }

    /**
     * CalcConnectionsDrainTemp (corrected volume): every listed equipment computes its drain, the
     * drain flows are summed, the drain temperature is their flow-weighted mean (the hot water
     * temperature without drain flow), and the drain mass flow is converted to volume by dividing
     * by the water density.
     */
    method CalcConnectionsDrainTemp(equip: array<WaterEquipment>, dconds: seq<DrainConditions>, cpw: real, dt: real, density: real)
      requires |dconds| == equip.Length && IndicesValid(myWaterEquipArr, equip.Length)
      requires cpw > 0.0 && dt > 0.0 && density > 0.0
      modifies this`drainMassFlowRate, this`drainTemp, this`drainVolFlowRate, equip
      ensures forall k :: 0 <= k < |myWaterEquipArr| ==>
                equip[myWaterEquipArr[k]] == EquipmentDrain(old(equip[myWaterEquipArr[k]]), dconds[myWaterEquipArr[k]], cpw, dt)
      ensures forall j :: 0 <= j < equip.Length && j !in myWaterEquipArr ==> equip[j] == old(equip[j])
      ensures drainMassFlowRate == SumOf(equip[..], myWaterEquipArr, Drain)
      ensures drainTemp == ConnectionDrainTemp(equip[..], myWaterEquipArr, hotTemp)
      ensures drainVolFlowRate == VolFlowRate(drainMassFlowRate, density)
    {
      var massFlowTempSum;
      drainMassFlowRate, massFlowTempSum := DrainEquipment(equip, dconds, cpw, dt);
      if drainMassFlowRate > 0.0 {
        drainTemp := massFlowTempSum / drainMassFlowRate;
      } else {
        drainTemp := hotTemp;
      }
      drainVolFlowRate := drainMassFlowRate / density;
    }
  }
}

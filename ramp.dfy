/** The trapezoid ramp of the tick: every `ISR_TICKS_PER_ACCELERATION_TICK`
    ticks the inverse-time rate `delta_d` moves by `rate_delta`, up while
    accelerating (clamped at the nominal rate) and down while decelerating
    (halving once it would cross zero), and `d_per_tick` is re-floored at the
    minimum step rate. */
module Ramp {
  import opened StepperTypes

  /** Rate adjustment under RAMP_ACCEL: add `rate_delta`; on reaching the nominal
      rate, cruise at exactly the nominal rate. */
  function AccelAdjust(deltaD: u32, d: SegData): (r: (u32, RampType))
    requires deltaD <= MAX_RATE && ValidSegData(d)
    ensures r.0 <= d.nominalRate
    ensures r.1 == RampNoopCruise <==> deltaD + d.rateDelta >= d.nominalRate
    ensures r.1 == RampNoopCruise ==> r.0 == d.nominalRate
    ensures r.1 != RampNoopCruise ==> r.1 == RampAccel && r.0 == deltaD + d.rateDelta
    ensures deltaD <= d.nominalRate ==> deltaD <= r.0
  {
    var sum := deltaD + d.rateDelta;
    if sum >= d.nominalRate then (d.nominalRate, RampNoopCruise) else (sum, RampAccel)
  }

  /** Rate adjustment under RAMP_DECEL: subtract `rate_delta` only while the rate
      is larger than it, otherwise halve, so the rate never increases and never
      passes below zero. */
  function DecelAdjust(deltaD: u32, rateDelta: u32): (r: u32)
    ensures r <= deltaD
    ensures rateDelta > 0 && deltaD > 0 ==> r < deltaD
    ensures deltaD > rateDelta ==> r == deltaD - rateDelta
    ensures deltaD <= rateDelta ==> r == deltaD / 2
  {
    if deltaD > rateDelta then deltaD - rateDelta else deltaD / 2
  }

  /** The ramp part of one tick, on the registers and the current block's
      segment data. */
  function RampTick(st: St, d: SegData, cfg: Config): (r: St)
    requires ValidConfig(cfg) && st.deltaD <= MAX_RATE && ValidSegData(d)
    // only the ramp registers and the rate can change
    ensures r == st.(rampType := r.rampType, rampCount := r.rampCount,
                     deltaD := r.deltaD, dPerTick := r.dPerTick)
    ensures r.deltaD <= MAX_RATE
    // no ramping at all while cruising
    ensures st.rampType == RampNoopCruise ==> r == st
    // otherwise the counter ticks down and reloads to the full period at zero
    ensures st.rampType != RampNoopCruise ==>
              r.rampCount == if Dec8(st.rampCount) == 0 then cfg.accelTicks else Dec8(st.rampCount)
    // the rate and the ramp type change only on a reload, and a reload re-floors
    ensures (r.deltaD != st.deltaD || r.rampType != st.rampType) ==> Dec8(st.rampCount) == 0
    ensures st.rampType != RampNoopCruise && Dec8(st.rampCount) == 0 ==>
              r.dPerTick == RateFloor(r.deltaD, cfg)
    ensures st.rampType != RampNoopCruise && Dec8(st.rampCount) != 0 ==> r.dPerTick == st.dPerTick
    // deceleration is final for the block and never raises the rate
    ensures st.rampType == RampDecel ==> r.rampType == RampDecel && r.deltaD <= st.deltaD
    // acceleration never lowers the rate nor overshoots the nominal rate
    ensures st.rampType == RampAccel && st.deltaD <= d.nominalRate ==>
              st.deltaD <= r.deltaD <= d.nominalRate && r.rampType != RampDecel
    ensures st.rampType == RampAccel && r.rampType == RampNoopCruise ==> r.deltaD == d.nominalRate
  {
    if st.rampType == RampNoopCruise then st
    else
      var count := Dec8(st.rampCount);
      if count != 0 then st.(rampCount := count)
      else
        var adj := if st.rampType == RampAccel then AccelAdjust(st.deltaD, d)
                   else (DecelAdjust(st.deltaD, d.rateDelta), RampDecel);
        st.(rampCount := cfg.accelTicks, deltaD := adj.0, rampType := adj.1,
            dPerTick := RateFloor(adj.0, cfg))
  }

  /** The ramp registers after `k` ticks with the same segment data. */
  function RampRun(st: St, d: SegData, cfg: Config, k: nat): (r: St)
    requires ValidConfig(cfg) && st.deltaD <= MAX_RATE && ValidSegData(d)
    ensures r.deltaD <= MAX_RATE
    decreases k
  {
    if k == 0 then st else RampTick(RampRun(st, d, cfg, k - 1), d, cfg)
  }

  /** Within an acceleration phase the rate never decreases and never exceeds the
      nominal rate; once cruising it stays cruising at exactly the nominal rate;
      the ramp never turns to deceleration by itself. */
  lemma {:induction false} AccelPhaseMonotone(st: St, d: SegData, cfg: Config, k: nat)
    requires ValidConfig(cfg) && st.deltaD <= MAX_RATE && ValidSegData(d)
    requires st.rampType == RampAccel && st.deltaD <= d.nominalRate
    ensures RampRun(st, d, cfg, k).rampType != RampDecel
    ensures st.deltaD <= RampRun(st, d, cfg, k).deltaD <= d.nominalRate
    ensures RampRun(st, d, cfg, k).rampType == RampNoopCruise ==>
              RampRun(st, d, cfg, k).deltaD == d.nominalRate
    ensures forall j | k <= j :: RampRun(st, d, cfg, k).rampType == RampNoopCruise ==>
              RampRun(st, d, cfg, j) == RampRun(st, d, cfg, k)
  {
    if k > 0 {
      AccelPhaseMonotone(st, d, cfg, k - 1);
    }
    forall j | k <= j
      ensures RampRun(st, d, cfg, k).rampType == RampNoopCruise ==>
                RampRun(st, d, cfg, j) == RampRun(st, d, cfg, k)
    {
      CruiseIsFixed(st, d, cfg, k, j);
    }
  }

  /** Cruise is absorbing: once the ramp reaches RAMP_NOOP_CRUISE, later ticks
      leave the ramp registers and the rate untouched. */
  lemma {:induction false} CruiseIsFixed(st: St, d: SegData, cfg: Config, k: nat, j: nat)
    requires ValidConfig(cfg) && st.deltaD <= MAX_RATE && ValidSegData(d)
    requires k <= j
    ensures RampRun(st, d, cfg, k).rampType == RampNoopCruise ==>
              RampRun(st, d, cfg, j) == RampRun(st, d, cfg, k)
    decreases j - k
  {
    if k < j {
      CruiseIsFixed(st, d, cfg, k, j - 1);
    }
  }

  /** Within a deceleration phase the rate never increases, `d_per_tick` stays
      at or above the minimum step rate after the first reload, and the ramp
      stays in deceleration. */
  lemma {:induction false} DecelPhaseMonotone(st: St, d: SegData, cfg: Config, k: nat)
    requires ValidConfig(cfg) && st.deltaD <= MAX_RATE && ValidSegData(d)
    requires st.rampType == RampDecel
    requires st.dPerTick == RateFloor(st.deltaD, cfg)
    ensures RampRun(st, d, cfg, k).rampType == RampDecel
    ensures RampRun(st, d, cfg, k).deltaD <= st.deltaD
    ensures RampRun(st, d, cfg, k).dPerTick == RateFloor(RampRun(st, d, cfg, k).deltaD, cfg)
    ensures RampRun(st, d, cfg, k).dPerTick >= cfg.minStepRate
  {
    if k > 0 {
      DecelPhaseMonotone(st, d, cfg, k - 1);
    }
  }

  /** Running `a + b` ticks is running `a` ticks, then `b`. */
  lemma {:induction false} RampRunAdd(st: St, d: SegData, cfg: Config, a: nat, b: nat)
    requires ValidConfig(cfg) && st.deltaD <= MAX_RATE && ValidSegData(d)
    ensures RampRun(st, d, cfg, a + b) == RampRun(RampRun(st, d, cfg, a), d, cfg, b)
    decreases b
  {
    if b > 0 {
      RampRunAdd(st, d, cfg, a, b - 1);
    }
  }

  /** Under RAMP_DECEL, the ticks before the counter runs out only count down. */
  lemma {:induction false} DecelCountdown(st: St, d: SegData, cfg: Config, j: nat)
    requires ValidConfig(cfg) && st.deltaD <= MAX_RATE && ValidSegData(d)
    requires st.rampType == RampDecel && j < st.rampCount
    ensures RampRun(st, d, cfg, j) == st.(rampCount := st.rampCount - j)
    decreases j
  {
    if j > 0 {
      DecelCountdown(st, d, cfg, j - 1);
    }
  }

  /** Under RAMP_DECEL, one full period of ticks from a fresh reload applies
      one deceleration adjustment and reloads the counter; the ticks after it
      run from there. */
  lemma DecelPeriod(st: St, d: SegData, cfg: Config, m: nat)
    requires ValidConfig(cfg) && st.deltaD <= MAX_RATE && ValidSegData(d)
    requires st.rampType == RampDecel && st.rampCount == cfg.accelTicks
    ensures var r := DecelAdjust(st.deltaD, d.rateDelta);
      RampRun(st, d, cfg, cfg.accelTicks + m)
        == RampRun(st.(deltaD := r, dPerTick := RateFloor(r, cfg)), d, cfg, m)
  {
    var last := st.(rampCount := 1);
    DecelCountdown(st, d, cfg, cfg.accelTicks - 1);
    assert RampRun(st, d, cfg, cfg.accelTicks) == RampTick(last, d, cfg);
    RampRunAdd(st, d, cfg, cfg.accelTicks, m);
  }

  /** The rate after `n` successive deceleration adjustments, on
      `DecelAdjust` alone; `DecelRunIsIterate` ties it to the tick. */
  function DecelIterate(deltaD: u32, rateDelta: u32, n: nat): (r: u32)
    ensures r <= deltaD
    decreases n
  {
    if n == 0 then deltaD else DecelIterate(DecelAdjust(deltaD, rateDelta), rateDelta, n - 1)
  }

  /** The tick's deceleration phase is the iterated adjustment: from a fresh
      reload under RAMP_DECEL, `n` full periods of ticks leave the rate at
      `DecelIterate(delta_d, rate_delta, n)`, floored into `d_per_tick`, with
      the ramp still decelerating and its counter reloaded. */
  lemma {:induction false} DecelRunIsIterate(st: St, d: SegData, cfg: Config, n: nat)
    requires ValidConfig(cfg) && st.deltaD <= MAX_RATE && ValidSegData(d)
    requires st.rampType == RampDecel && st.rampCount == cfg.accelTicks
    requires st.dPerTick == RateFloor(st.deltaD, cfg)
    ensures var r := DecelIterate(st.deltaD, d.rateDelta, n);
      RampRun(st, d, cfg, n * cfg.accelTicks) == st.(deltaD := r, dPerTick := RateFloor(r, cfg))
    decreases n
  {
    if n > 0 {
      var a := DecelAdjust(st.deltaD, d.rateDelta);
      DecelPeriod(st, d, cfg, (n - 1) * cfg.accelTicks);
      assert n * cfg.accelTicks == cfg.accelTicks + (n - 1) * cfg.accelTicks;
      DecelRunIsIterate(st.(deltaD := a, dPerTick := RateFloor(a, cfg)), d, cfg, n - 1);
    }
  }

  /** Deceleration, on `DecelAdjust` alone, is a graceful approach to zero:
      with a positive `rate_delta`, each adjustment lowers a positive rate, so
      `n` adjustments leave at most `delta_d - n`, and the rate reaches zero
      and stays there. */
  lemma {:induction false} DecelReachesZero(deltaD: u32, rateDelta: u32, n: nat)
    requires rateDelta > 0
    ensures DecelIterate(deltaD, rateDelta, n) <= if n <= deltaD then deltaD - n else 0
    ensures n >= deltaD ==> DecelIterate(deltaD, rateDelta, n) == 0
    decreases n
  {
    if n > 0 {
      DecelReachesZero(DecelAdjust(deltaD, rateDelta), rateDelta, n - 1);
    }
  }

  /** The tick's deceleration reaches a standstill: with a positive
      `rate_delta`, `delta_d` full periods from a fresh reload bring the rate
      to zero. */
  lemma DecelRunReachesZero(st: St, d: SegData, cfg: Config, n: nat)
    requires ValidConfig(cfg) && st.deltaD <= MAX_RATE && ValidSegData(d)
    requires st.rampType == RampDecel && st.rampCount == cfg.accelTicks
    requires st.dPerTick == RateFloor(st.deltaD, cfg)
    requires d.rateDelta > 0 && n >= st.deltaD
    ensures RampRun(st, d, cfg, n * cfg.accelTicks).deltaD == 0
    ensures RampRun(st, d, cfg, n * cfg.accelTicks).rampType == RampDecel
  {
    DecelRunIsIterate(st, d, cfg, n);
    DecelReachesZero(st.deltaD, d.rateDelta, n);
  }
}

/** The consumer: one tick of the stepper interrupt on the engine state. */
module Consumer {
  import opened StepperTypes
  import opened SegmentRing
  import opened Bresenham
  import opened Ramp
  import opened PlannerModel
  import opened EngineState

  /** A change of registers that keeps the Bresenham counters, the load request
      and the steps remaining, and keeps `d_per_tick` the floored rate, keeps
      the invariant. */
  lemma RegistersOnlyInv(e: Engine, st: St, cfg: Config)
    requires Inv(e, cfg)
    requires st.counterX == e.st.counterX && st.counterY == e.st.counterY && st.counterZ == e.st.counterZ
    requires st.loadFlag == e.st.loadFlag && st.segmentStepsRemaining == e.st.segmentStepsRemaining
    requires st.deltaD <= MAX_RATE
    requires e.currentBlock.Some? ==> st.dPerTick == RateFloor(st.deltaD, cfg)
    ensures Inv(e.(st := st), cfg)
  {
    var r := e.(st := st);
    assert Shape(r);
    assert RingInv(r);
    assert PrepInv(r);
    assert ConsumerInv(r, cfg);
  }

  /** Registers set when a segment starts a new planner block: direction bits
      (inverted by the mask) staged for output on the next tick, the three
      Bresenham counters seeded at half the step-event count, the inverse-time
      counter at `d_next`, the initial rate floored, and the ramp in
      acceleration with the counter at half a period. */
  function LoadBlockRegisters(e: Engine, cfg: Config): (r: Engine)
    requires ValidConfig(cfg) && Shape(e) && CurrentBlock(e.planner).Some?
    ensures Shape(r)
    ensures r.currentBlock == CurrentBlock(e.planner)
    ensures r.currentData == e.segmentBuffer[e.tail].dataIndex
    ensures var b := r.currentBlock.value;
      && r.st.counterX == r.st.counterY == r.st.counterZ == b.stepEventCount / 2
      && CountersInRange(r.st, b)
    ensures r.st.rampType == RampAccel && r.st.rampCount == cfg.accelTicks / 2
    ensures r.st.deltaD == e.segmentData[r.currentData].initialRate
    ensures r.st.dPerTick == RateFloor(r.st.deltaD, cfg)
    ensures r.st.counterD == e.segmentData[r.currentData].dNext
    ensures r.st.executeStep
    ensures r.st.outBits == Xor(r.currentBlock.value.directionBits, cfg.invertMask)
    // nothing else changes: not the rings, the pointers, the position or the planner
    ensures r == e.(st := r.st, currentBlock := r.currentBlock, currentData := r.currentData)
    ensures r.st == e.st.(outBits := r.st.outBits, executeStep := r.st.executeStep,
                          counterX := r.st.counterX, counterY := r.st.counterY, counterZ := r.st.counterZ,
                          counterD := r.st.counterD, deltaD := r.st.deltaD, dPerTick := r.st.dPerTick,
                          rampType := r.st.rampType, rampCount := r.st.rampCount)
  {
    var b := CurrentBlock(e.planner).value;
    var di := e.segmentBuffer[e.tail].dataIndex;
    var d := e.segmentData[di];
    var half := b.stepEventCount / 2;
    e.(currentBlock := Some(b), currentData := di,
       st := e.st.(outBits := Xor(b.directionBits, cfg.invertMask), executeStep := true,
                   counterX := half, counterY := half, counterZ := half,
                   counterD := d.dNext,
                   deltaD := d.initialRate, rampType := RampAccel, rampCount := cfg.accelTicks / 2,
                   dPerTick := RateFloor(d.initialRate, cfg)))
  }

  /** The ramp registers when a DECEL or DECEL_EOB segment is loaded: forced
      to deceleration, with the counter at half a period from cruise or
      mirrored (`period - count`, reduced modulo 256) from acceleration. */
  function DecelOnLoad(st: St, flag: SegFlag, cfg: Config): (r: St)
    requires ValidConfig(cfg)
    ensures r == st.(rampType := r.rampType, rampCount := r.rampCount)
    ensures !IsDecel(flag) ==> r == st
    ensures IsDecel(flag) ==> r.rampType == RampDecel
    // from cruise: half a period
    ensures IsDecel(flag) && st.rampType == RampNoopCruise ==> r.rampCount == cfg.accelTicks / 2
    // from acceleration or deceleration: the count mirrored within the period, wrapping below 0
    ensures IsDecel(flag) && st.rampType != RampNoopCruise && st.rampCount <= cfg.accelTicks ==>
              r.rampCount == cfg.accelTicks - st.rampCount
    ensures IsDecel(flag) && st.rampType != RampNoopCruise && st.rampCount > cfg.accelTicks ==>
              r.rampCount == cfg.accelTicks + 0x100 - st.rampCount
  {
    if IsDecel(flag) then
      st.(rampCount := if st.rampType == RampNoopCruise then cfg.accelTicks / 2
                       else Sub8(cfg.accelTicks, st.rampCount),
          rampType := RampDecel)
    else st
  }

  /** Loading the segment at `tail`: its step count becomes the steps
      remaining; a new block's registers are set when a block load was
      requested; a deceleration segment forces the ramp to deceleration; then
      nothing more is to load. Only the registers and the current segment,
      block and data pointers change. */
  function LoadSegment(e: Engine, cfg: Config): (r: Engine)
    requires ValidConfig(cfg) && Inv(e, cfg) && BlockAvailable(e)
    requires e.st.loadFlag != LoadNoop && e.head != e.tail
    ensures r == e.(st := r.st, currentSegment := e.tail, currentBlock := r.currentBlock,
                    currentData := r.currentData)
    ensures r.st.loadFlag == LoadNoop
  {
    var seg := e.segmentBuffer[e.tail];
    var e1 := e.(currentSegment := e.tail, st := e.st.(segmentStepsRemaining := seg.nStep));
    var e2 := if e.st.loadFlag == LoadBlock then LoadBlockRegisters(e1, cfg) else e1;
    e2.(st := DecelOnLoad(e2.st, seg.flag, cfg).(loadFlag := LoadNoop))
  }

  /** Loading keeps the invariant: the loaded segment is the queued one at
      `tail`, so it has at least one step. */
  lemma LoadSegmentInv(e: Engine, cfg: Config)
    requires ValidConfig(cfg) && Inv(e, cfg) && BlockAvailable(e)
    requires e.st.loadFlag != LoadNoop && e.head != e.tail
    ensures Inv(LoadSegment(e, cfg), cfg)
  {
    var r := LoadSegment(e, cfg);
    TailQueuedIffNonEmpty(e.tail, e.head);
    assert Shape(r);
    assert RingInv(r);
    assert PrepInv(r);
    assert ConsumerInv(r, cfg);
  }

  /** Whether the direction bit of axis `a` is set in the block. */
  predicate Negative(b: Block, cfg: Config, a: nat)
    requires ValidConfig(cfg) && a < 3
  {
    cfg.dirBits[a] in b.directionBits
  }

  /** The staged bits carry the block's direction bit for every axis. */
  predicate DirectionsIntact(out: Bits, b: Block, cfg: Config)
    requires ValidConfig(cfg)
  {
    forall a | 0 <= a < 3 :: cfg.dirBits[a] in out <==> cfg.dirBits[a] in b.directionBits
  }

  /** One axis of the step event on the staged port bits: step that axis when
      its counter goes negative, setting its step bit and moving its position
      by one in the direction read back from the staged bits. Setting a step
      bit keeps every direction bit, as step and direction bits are distinct
      positions, so the direction read back is the block's. */
  function AxisEvent(counter: int, position: int, out: Bits, b: Block, cfg: Config, a: nat)
    : (r: (int, int, Bits))
    requires ValidConfig(cfg) && ValidBlock(b) && a < 3
    requires 0 <= counter < b.stepEventCount
    requires DirectionsIntact(out, b, cfg)
    ensures var s := AxisStep(counter, b.steps[a], b.stepEventCount);
      && r.0 == s.0
      && r.1 == Move(position, s.1, Negative(b, cfg, a))
      && r.2 == if s.1 then out + {cfg.stepBits[a]} else out
    ensures DirectionsIntact(r.2, b, cfg)
  {
    var s := AxisStep(counter, b.steps[a], b.stepEventCount);
    var out' := if s.1 then out + {cfg.stepBits[a]} else out;
    (s.0, Move(position, s.1, cfg.dirBits[a] in out'), out')
  }

  /** The port bits a step event stages: the block's direction bits, plus the
      step bit of every axis whose Bresenham counter steps. */
  function StagedBits(st: St, b: Block, cfg: Config): Bits
    requires ValidConfig(cfg) && ValidBlock(b) && CountersInRange(st, b)
  {
    var x := AxisStep(st.counterX, b.steps[0], b.stepEventCount);
    var y := AxisStep(st.counterY, b.steps[1], b.stepEventCount);
    var z := AxisStep(st.counterZ, b.steps[2], b.stepEventCount);
    b.directionBits + (if x.1 then {cfg.stepBits[0]} else {})
                    + (if y.1 then {cfg.stepBits[1]} else {})
                    + (if z.1 then {cfg.stepBits[2]} else {})
  }

  /** The three axes of a step event, in order X, Y, Z, on the registers and
      the position, starting from the block's direction bits: the Bresenham
      counters step and the position moves in the direction of the block. */
  function AxesEvent(st: St, position: seq<int>, b: Block, cfg: Config): (r: (St, seq<int>))
    requires ValidConfig(cfg) && ValidBlock(b) && CountersInRange(st, b) && |position| == 3
    ensures CountersInRange(r.0, b) && |r.1| == 3
    ensures r.0 == st.(counterX := r.0.counterX, counterY := r.0.counterY,
                       counterZ := r.0.counterZ, outBits := r.0.outBits)
    ensures var x := AxisStep(st.counterX, b.steps[0], b.stepEventCount);
      && var y := AxisStep(st.counterY, b.steps[1], b.stepEventCount);
      && var z := AxisStep(st.counterZ, b.steps[2], b.stepEventCount);
      && r.0.counterX == x.0 && r.1[0] == Move(position[0], x.1, Negative(b, cfg, 0))
      && r.0.counterY == y.0 && r.1[1] == Move(position[1], y.1, Negative(b, cfg, 1))
      && r.0.counterZ == z.0 && r.1[2] == Move(position[2], z.1, Negative(b, cfg, 2))
      // the staged bits: the block's directions and the step bit of each stepping axis
      && r.0.outBits == b.directionBits + (if x.1 then {cfg.stepBits[0]} else {})
                                        + (if y.1 then {cfg.stepBits[1]} else {})
                                        + (if z.1 then {cfg.stepBits[2]} else {})
    ensures r.0.outBits == StagedBits(st, b, cfg)
  {
    assert DirectionsIntact(b.directionBits, b, cfg);
    var x := AxisEvent(st.counterX, position[0], b.directionBits, b, cfg, 0);
    var y := AxisEvent(st.counterY, position[1], x.2, b, cfg, 1);
    var z := AxisEvent(st.counterZ, position[2], y.2, b, cfg, 2);
    (st.(counterX := x.0, counterY := y.0, counterZ := z.0, outBits := z.2), [x.1, y.1, z.1])
  }

  /** The end of a step event: one step of the loaded segment is consumed;
      when it was the last, the segment is retired (the tail advances one
      slot) and the next load is a new line, or a new block after releasing
      the planner block when the segment ended its block; finally the staged
      bits are inverted by the mask. */
  function StepDone(e: Engine, cfg: Config): (r: Engine)
    requires |e.segmentBuffer| == SEGMENT_BUFFER_SIZE && e.currentSegment < SEGMENT_BUFFER_SIZE
    requires e.tail < SEGMENT_BUFFER_SIZE && ValidPlanner(e.planner)
    ensures r == e.(st := r.st, planner := r.planner, tail := r.tail)
    ensures r.st == e.st.(outBits := r.st.outBits, segmentStepsRemaining := r.st.segmentStepsRemaining,
                          loadFlag := r.st.loadFlag)
    // one step of the segment is consumed, and the staged bits are inverted by the mask
    ensures r.st.segmentStepsRemaining == Dec8(e.st.segmentStepsRemaining)
    ensures r.st.outBits == Xor(e.st.outBits, cfg.invertMask)
    // a segment with steps left stays loaded
    ensures r.st.segmentStepsRemaining != 0 ==>
              r.st.loadFlag == e.st.loadFlag && r.planner == e.planner && r.tail == e.tail
    // a finished segment is retired; it releases its planner block and requests a
    // block load when it ends its block, and requests a line load otherwise
    ensures r.st.segmentStepsRemaining == 0 ==> r.tail == NextBlockIndex(e.tail)
    ensures r.st.segmentStepsRemaining == 0 && IsEndOfBlock(e.segmentBuffer[e.currentSegment].flag) ==>
              r.st.loadFlag == LoadBlock && r.planner == DiscardCurrentBlock(e.planner)
    ensures r.st.segmentStepsRemaining == 0 && !IsEndOfBlock(e.segmentBuffer[e.currentSegment].flag) ==>
              r.st.loadFlag == LoadLine && r.planner == e.planner
  {
    var remaining := Dec8(e.st.segmentStepsRemaining);
    var done := remaining == 0;
    var eob := done && IsEndOfBlock(e.segmentBuffer[e.currentSegment].flag);
    var load := if !done then e.st.loadFlag else if eob then LoadBlock else LoadLine;
    e.(st := e.st.(outBits := Xor(e.st.outBits, cfg.invertMask), segmentStepsRemaining := remaining, loadFlag := load),
       planner := if eob then DiscardCurrentBlock(e.planner) else e.planner,
       tail := if done then NextBlockIndex(e.tail) else e.tail)
  }

  /** The step event: the three axes step on the block's direction bits, then
      the segment's step is consumed. Only the registers, the position, the
      tail and the planner change. */
  function StepEvent(e: Engine, cfg: Config): (r: Engine)
    requires ValidConfig(cfg) && Inv(e, cfg) && e.st.loadFlag == LoadNoop
    ensures r == e.(st := r.st, position := r.position, planner := r.planner, tail := r.tail)
    // the port gets the staged bits, inverted by the mask, and one step of the segment is consumed
    ensures r.st.executeStep
    ensures r.st.outBits == Xor(StagedBits(e.st, e.currentBlock.value, cfg), cfg.invertMask)
    ensures r.st.segmentStepsRemaining == e.st.segmentStepsRemaining - 1
  {
    var ax := AxesEvent(e.st, e.position, e.currentBlock.value, cfg);
    StepDone(e.(st := ax.0.(executeStep := true), position := ax.1), cfg)
  }

  /** The step event keeps the invariant: retiring the tail slot only removes
      it from the queued slots, the counters stay in range, and the loaded
      segment keeps at least one step unless it is retired. */
  lemma StepEventInv(e: Engine, cfg: Config)
    requires ValidConfig(cfg) && Inv(e, cfg) && e.st.loadFlag == LoadNoop
    ensures Inv(StepEvent(e, cfg), cfg)
  {
    var r := StepEvent(e, cfg);
    forall i | 0 <= i < SEGMENT_BUFFER_SIZE && Queued(r.tail, r.head, i)
      ensures Queued(e.tail, e.head, i)
    {
      if r.tail != e.tail { QueuedAfterRetire(e.tail, e.head, i); }
    }
    assert Shape(r);
    assert RingInv(r);
    assert PrepInv(r);
    assert ConsumerInv(r, cfg);
  }

  /** The distance counter loses the step rate (32-bit signed arithmetic). */
  function CountDown(e: Engine): (r: Engine)
    requires Shape(e)
    ensures r == e.(st := r.st) && r.st == e.st.(counterD := r.st.counterD)
  {
    e.(st := e.st.(counterD := Wrap32(e.st.counterD - e.st.dPerTick)))
  }

  /** The distance counter regains the loaded block's `d_next`. */
  function Reload(e: Engine): (r: Engine)
    requires Shape(e) && e.currentData < SEGMENT_BUFFER_SIZE
    ensures r == e.(st := r.st) && r.st == e.st.(counterD := r.st.counterD)
  {
    e.(st := e.st.(counterD := Wrap32(e.st.counterD + e.segmentData[e.currentData].dNext)))
  }

  lemma CounterOnlyInv(e: Engine, r: Engine, cfg: Config)
    requires Inv(e, cfg) && r == e.(st := r.st) && r.st == e.st.(counterD := r.st.counterD)
    ensures Inv(r, cfg)
  {
    RegistersOnlyInv(e, r.st, cfg);
  }

  /** Inverse-time part of a tick: subtract the rate from the distance counter;
      when it goes negative, add `d_next` back and run a step event. */
  function InverseTimeTick(e: Engine, cfg: Config): (r: Engine)
    requires ValidConfig(cfg) && Inv(e, cfg) && e.st.loadFlag == LoadNoop
    ensures r == e.(st := r.st, position := r.position, planner := r.planner, tail := r.tail)
  {
    var e1 := CountDown(e);
    CounterOnlyInv(e, e1, cfg);
    if e1.st.counterD >= 0 then e1
    else
      var e2 := Reload(e1);
      CounterOnlyInv(e1, e2, cfg);
      StepEvent(e2, cfg)
  }

  lemma InverseTimeTickInv(e: Engine, cfg: Config)
    requires ValidConfig(cfg) && Inv(e, cfg) && e.st.loadFlag == LoadNoop
    ensures Inv(InverseTimeTick(e, cfg), cfg)
  {
    var e1 := CountDown(e);
    CounterOnlyInv(e, e1, cfg);
    if e1.st.counterD < 0 {
      var e2 := Reload(e1);
      CounterOnlyInv(e1, e2, cfg);
      StepEventInv(e2, cfg);
    }
  }

  /** The int32 arithmetic of the distance counter under the source's
      assumption that `d_next` is at least the rate (stepper.c:256): with the
      counter in `[0, d_next]`, the countdown never wraps, and when it goes
      negative the reload brings it back into `[0, d_next]`, again without
      wrapping. */
  lemma CounterDStep(c: int, dpt: int, dn: int)
    requires 0 <= dpt <= dn <= MAX_RATE && 0 <= c <= dn
    ensures Wrap32(c - dpt) == c - dpt
    ensures c - dpt >= 0 ==> c - dpt <= dn
    ensures c - dpt < 0 ==> Wrap32(c - dpt + dn) == c - dpt + dn && 0 <= c - dpt + dn < dn
  {
  }

  /** When a step event fires: with `d_per_tick` and the distance counter
      within `[0, d_next]`, a tick's inverse-time part fires a step event
      exactly when the counter is below `d_per_tick`. Otherwise only the
      counter drops by `d_per_tick`; if so, the counter is reloaded to
      `counter_d - d_per_tick + d_next`, the port is staged and one step of
      the segment is consumed. Either way the counter stays in `[0, d_next]`. */
  lemma InverseTimeTickCounter(e: Engine, cfg: Config)
    requires ValidConfig(cfg) && Inv(e, cfg) && e.st.loadFlag == LoadNoop
    requires var dn := e.segmentData[e.currentData].dNext;
      0 <= e.st.dPerTick <= dn && 0 <= e.st.counterD <= dn
    ensures var r := InverseTimeTick(e, cfg);
      var dn := e.segmentData[e.currentData].dNext;
      && 0 <= r.st.counterD <= dn
      && (e.st.counterD >= e.st.dPerTick ==>
            r == e.(st := e.st.(counterD := e.st.counterD - e.st.dPerTick)))
      && (e.st.counterD < e.st.dPerTick ==>
            && r.st.counterD == e.st.counterD - e.st.dPerTick + dn
            && r.st.executeStep
            && r.st.segmentStepsRemaining == e.st.segmentStepsRemaining - 1)
  {
    var dn := e.segmentData[e.currentData].dNext;
    CounterDStep(e.st.counterD, e.st.dPerTick, dn);
    var e1 := CountDown(e);
    CounterOnlyInv(e, e1, cfg);
    if e1.st.counterD < 0 {
      var e2 := Reload(e1);
      CounterOnlyInv(e1, e2, cfg);
      assert e2.st.counterD == e.st.counterD - e.st.dPerTick + dn;
    }
  }

  /** The ramp keeps the rate under a bound that the block's initial and
      nominal rates and the minimum step rate respect, so a `d_next` that
      bounds them keeps the assumption of stepper.c:256 through the block. */
  lemma RampKeepsRateBelow(st: St, d: SegData, cfg: Config, bound: int)
    requires ValidConfig(cfg) && st.deltaD <= MAX_RATE && ValidSegData(d)
    requires st.deltaD <= bound && st.dPerTick <= bound
    requires d.nominalRate <= bound && cfg.minStepRate <= bound
    ensures RampTick(st, d, cfg).deltaD <= bound && RampTick(st, d, cfg).dPerTick <= bound
  {
  }

  /** The ramp part of a tick on the engine: the loaded block's segment data
      drives the ramp registers. */
  function RampStep(e: Engine, cfg: Config): (r: Engine)
    requires ValidConfig(cfg) && Inv(e, cfg) && e.st.loadFlag == LoadNoop
    ensures r == e.(st := r.st)
  {
    e.(st := RampTick(e.st, e.segmentData[e.currentData], cfg))
  }

  lemma RampStepInv(e: Engine, cfg: Config)
    requires ValidConfig(cfg) && Inv(e, cfg) && e.st.loadFlag == LoadNoop
    ensures Inv(RampStep(e, cfg), cfg) && RampStep(e, cfg).st.loadFlag == LoadNoop
  {
    RegistersOnlyInv(e, RampTick(e.st, e.segmentData[e.currentData], cfg), cfg);
  }

  /** The idle transition (`st_go_idle` without its hardware side): the tick
      source stops and the busy guard is released. */
  function GoIdleState(e: Engine): (r: Engine)
    ensures !r.ticking && !r.busy
    ensures r == e.(ticking := r.ticking, busy := r.busy)
  {
    e.(ticking := false, busy := false)
  }

  /** The first thing a tick does: the staged bits go out and the execute flag
      drops. */
  function Output(e: Engine): (r: Engine)
    ensures !r.st.executeStep
    ensures r == e.(st := r.st) && r.st == e.st.(executeStep := r.st.executeStep)
  {
    e.(st := e.st.(executeStep := false))
  }

  lemma OutputInv(e: Engine, cfg: Config)
    requires Inv(e, cfg)
    ensures Inv(Output(e), cfg)
  {
    RegistersOnlyInv(e, e.st.(executeStep := false), cfg);
  }

  /** The segment the tick runs on: the one loaded, or the one at `tail`
      loaded now. */
  function Loaded(e: Engine, cfg: Config): (r: Engine)
    requires ValidConfig(cfg) && Inv(e, cfg) && BlockAvailable(e)
    requires e.st.loadFlag == LoadNoop || e.head != e.tail
    ensures r.st.loadFlag == LoadNoop
    ensures r == e.(st := r.st, currentBlock := r.currentBlock,
                    currentSegment := r.currentSegment, currentData := r.currentData)
  {
    if e.st.loadFlag != LoadNoop then LoadSegment(e, cfg) else e
  }

  lemma LoadedInv(e: Engine, cfg: Config)
    requires ValidConfig(cfg) && Inv(e, cfg) && BlockAvailable(e)
    requires e.st.loadFlag == LoadNoop || e.head != e.tail
    ensures Inv(Loaded(e, cfg), cfg)
  {
    if e.st.loadFlag != LoadNoop { LoadSegmentInv(e, cfg); }
  }

  /** The running part of a tick: load if needed, run the ramp, then the
      inverse-time counter. */
  function Run(e: Engine, cfg: Config): (r: Engine)
    requires ValidConfig(cfg) && Inv(e, cfg) && BlockAvailable(e)
    requires e.st.loadFlag == LoadNoop || e.head != e.tail
    ensures r == e.(st := r.st, tail := r.tail, currentBlock := r.currentBlock,
                    currentSegment := r.currentSegment, currentData := r.currentData,
                    position := r.position, planner := r.planner)
  {
    var e1 := Loaded(e, cfg);
    LoadedInv(e, cfg);
    RampStepInv(e1, cfg);
    InverseTimeTick(RampStep(e1, cfg), cfg)
  }

  lemma RunInv(e: Engine, cfg: Config)
    requires ValidConfig(cfg) && Inv(e, cfg) && BlockAvailable(e)
    requires e.st.loadFlag == LoadNoop || e.head != e.tail
    ensures Inv(Run(e, cfg), cfg)
  {
    var e1 := Loaded(e, cfg);
    LoadedInv(e, cfg);
    RampStepInv(e1, cfg);
    InverseTimeTickInv(RampStep(e1, cfg), cfg);
  }

  /** One tick of the stepper interrupt. A busy tick does nothing. Otherwise
      the staged bits go out; a pending load from an empty ring idles the
      engine and raises cycle stop; else the tick runs. The tick never writes
      either ring, `head`, `next_head` or the producer's state. */
  function TickSpec(e: Engine, cfg: Config): (r: Engine)
    requires ValidConfig(cfg) && Inv(e, cfg) && BlockAvailable(e)
    ensures e.busy ==> r == e
    ensures r == e.(st := r.st, tail := r.tail, currentBlock := r.currentBlock,
                    currentSegment := r.currentSegment, currentData := r.currentData,
                    position := r.position, planner := r.planner, ticking := r.ticking,
                    cycleStop := r.cycleStop)
  {
    if e.busy then e
    else
      var e1 := Output(e);
      OutputInv(e, cfg);
      if e1.st.loadFlag != LoadNoop && e1.head == e1.tail then
        GoIdleState(e1).(cycleStop := true)
      else
        Run(e1, cfg)
  }

  /** A tick keeps the engine invariant. */
  lemma TickInv(e: Engine, cfg: Config)
    requires ValidConfig(cfg) && Inv(e, cfg) && BlockAvailable(e)
    ensures Inv(TickSpec(e, cfg), cfg)
  {
    if !e.busy {
      var e1 := Output(e);
      OutputInv(e, cfg);
      if e1.st.loadFlag != LoadNoop && e1.head == e1.tail {
        var r := GoIdleState(e1).(cycleStop := true);
        assert Shape(r) && RingInv(r) && PrepInv(r);
        assert ConsumerInv(r, cfg);
      } else {
        RunInv(e1, cfg);
      }
    }
  }

  // ---------------------------------------------------------------- properties

  /** What loading the first segment of a block sets up: the planner's current
      block and the data slot the segment names, the three Bresenham counters
      seeded at half the step-event count (the seed under which the Bresenham
      module proves each axis takes exactly its step count), the distance
      counter at `d_next`, the rate at the block's initial rate, the block's
      direction bits staged for output, and the ramp accelerating from half a
      period unless the segment is a deceleration segment. */
  lemma LoadNewBlock(e: Engine, cfg: Config)
    requires ValidConfig(cfg) && Inv(e, cfg) && BlockAvailable(e)
    requires e.st.loadFlag == LoadBlock && e.head != e.tail
    ensures var r := LoadSegment(e, cfg);
      var seg := e.segmentBuffer[e.tail];
      var d := e.segmentData[seg.dataIndex];
      && r.st.segmentStepsRemaining == seg.nStep
      && r.currentBlock == CurrentBlock(e.planner)
      && r.currentData == seg.dataIndex
      && r.st.counterX == r.st.counterY == r.st.counterZ == r.currentBlock.value.stepEventCount / 2
      && r.st.counterD == d.dNext
      && r.st.deltaD == d.initialRate && r.st.dPerTick == RateFloor(d.initialRate, cfg)
      && r.st.outBits == Xor(r.currentBlock.value.directionBits, cfg.invertMask) && r.st.executeStep
      && (IsDecel(seg.flag) ==> r.st.rampType == RampDecel && r.st.rampCount == cfg.accelTicks - cfg.accelTicks / 2)
      && (!IsDecel(seg.flag) ==> r.st.rampType == RampAccel && r.st.rampCount == cfg.accelTicks / 2)
  {
    var seg := e.segmentBuffer[e.tail];
    var e1 := e.(currentSegment := e.tail, st := e.st.(segmentStepsRemaining := seg.nStep));
    var e2 := LoadBlockRegisters(e1, cfg);
    var r := LoadSegment(e, cfg);
    assert r == e2.(st := DecelOnLoad(e2.st, seg.flag, cfg).(loadFlag := LoadNoop));
    assert r.currentBlock == e2.currentBlock && r.currentData == e2.currentData;
    assert r.st == e2.st.(rampType := r.st.rampType, rampCount := r.st.rampCount, loadFlag := LoadNoop);
  }

  /** Loading a further segment of the same block only sets the steps to run
      and, for a deceleration segment, the ramp: the block, its data slot, the
      Bresenham counters, the distance counter and the rate carry over, so
      the block's trace continues across segments. */
  lemma LoadNewLine(e: Engine, cfg: Config)
    requires ValidConfig(cfg) && Inv(e, cfg) && BlockAvailable(e)
    requires e.st.loadFlag == LoadLine && e.head != e.tail
    ensures var r := LoadSegment(e, cfg);
      var seg := e.segmentBuffer[e.tail];
      && r.currentBlock == e.currentBlock && r.currentData == e.currentData
      && r.st == DecelOnLoad(e.st, seg.flag, cfg).(segmentStepsRemaining := seg.nStep, loadFlag := LoadNoop)
      && (IsDecel(seg.flag) ==> r.st.rampType == RampDecel)
      && (IsDecel(seg.flag) && e.st.rampType == RampNoopCruise ==> r.st.rampCount == cfg.accelTicks / 2)
      && (IsDecel(seg.flag) && e.st.rampType != RampNoopCruise && e.st.rampCount <= cfg.accelTicks ==>
            r.st.rampCount == cfg.accelTicks - e.st.rampCount)
      && (!IsDecel(seg.flag) ==> r.st.rampType == e.st.rampType && r.st.rampCount == e.st.rampCount)
  {
    var seg := e.segmentBuffer[e.tail];
    var e1 := e.(currentSegment := e.tail, st := e.st.(segmentStepsRemaining := seg.nStep));
    assert LoadSegment(e, cfg) == e1.(st := DecelOnLoad(e1.st, seg.flag, cfg).(loadFlag := LoadNoop));
  }

  /** The triangle-profile reload wraps: a deceleration segment loaded on the
      tick right after an acceleration reload (counter at the full period)
      mirrors the counter to 0, and the next tick's decrement takes it to 255,
      so the first deceleration step waits 255 ticks instead of up to one
      period. */
  lemma DecelMirrorWraps(st: St, cfg: Config)
    requires ValidConfig(cfg) && st.rampType == RampAccel && st.rampCount == cfg.accelTicks
    ensures DecelOnLoad(st, StDecel, cfg).rampCount == 0
    ensures Dec8(DecelOnLoad(st, StDecel, cfg).rampCount) == 255
  {
  }

  /** `r` keeps the segment at `e`'s tail and the planner's block. */
  predicate TailKept(e: Engine, r: Engine) {
    r.tail == e.tail && r.planner == e.planner
  }

  /** `r` has retired the segment at `e`'s tail with its last step taken: a
      segment ending its block releases the planner's block and requests a
      block load, any other requests a line load of the same block. */
  predicate TailRetired(e: Engine, r: Engine)
    requires Shape(e)
  {
    && r.tail == NextBlockIndex(e.tail) && r.st.segmentStepsRemaining == 0
    && (IsEndOfBlock(e.segmentBuffer[e.tail].flag) ==>
          r.st.loadFlag == LoadBlock && r.planner == DiscardCurrentBlock(e.planner))
    && (!IsEndOfBlock(e.segmentBuffer[e.tail].flag) ==>
          r.st.loadFlag == LoadLine && r.planner == e.planner)
  }

  /** A step event retires the loaded segment exactly when it took its last
      step, and then requests the load its end-of-block flag calls for. */
  lemma StepEventTail(e: Engine, cfg: Config)
    requires ValidConfig(cfg) && Inv(e, cfg) && e.st.loadFlag == LoadNoop
    ensures var r := StepEvent(e, cfg);
      || (TailKept(e, r) && r.st.loadFlag == LoadNoop && r.st.segmentStepsRemaining >= 1)
      || TailRetired(e, r)
  {
  }

  lemma InverseTimeTickTail(e: Engine, cfg: Config)
    requires ValidConfig(cfg) && Inv(e, cfg) && e.st.loadFlag == LoadNoop
    ensures var r := InverseTimeTick(e, cfg);
      TailKept(e, r) || TailRetired(e, r)
  {
    var e1 := CountDown(e);
    CounterOnlyInv(e, e1, cfg);
    if e1.st.counterD < 0 {
      var e2 := Reload(e1);
      CounterOnlyInv(e1, e2, cfg);
      StepEventTail(e2, cfg);
    }
  }

  lemma RunTail(e: Engine, cfg: Config)
    requires ValidConfig(cfg) && Inv(e, cfg) && BlockAvailable(e)
    requires e.st.loadFlag == LoadNoop || e.head != e.tail
    ensures var r := Run(e, cfg);
      TailKept(e, r) || (e.head != e.tail && TailRetired(e, r))
  {
    var e1 := Loaded(e, cfg);
    LoadedInv(e, cfg);
    RampStepInv(e1, cfg);
    InverseTimeTickTail(RampStep(e1, cfg), cfg);
  }

  /** The consumer retires at most one segment per tick: the tail either stays
      with the planner's block, or advances one slot exactly when the loaded
      segment's last step was taken, leaving one segment fewer queued, the
      planner's block released when that segment ended it, and a block or
      line load pending accordingly. */
  lemma TickTailAdvance(e: Engine, cfg: Config)
    requires ValidConfig(cfg) && Inv(e, cfg) && BlockAvailable(e)
    ensures var r := TickSpec(e, cfg);
      || TailKept(e, r)
      || (&& e.head != e.tail && TailRetired(e, r)
          && Count(r.tail, r.head) + 1 == Count(e.tail, e.head))
  {
    if !e.busy {
      var e1 := Output(e);
      OutputInv(e, cfg);
      if !(e1.st.loadFlag != LoadNoop && e1.head == e1.tail) {
        RunTail(e1, cfg);
      }
    }
  }

  /** A pending load with an empty ring stops the engine: the tick source stops,
      cycle stop is raised, and no counter, position, pointer or block
      changes. */
  lemma TickIdlesOnEmptyRing(e: Engine, cfg: Config)
    requires ValidConfig(cfg) && Inv(e, cfg) && BlockAvailable(e)
    requires !e.busy && e.st.loadFlag != LoadNoop && e.head == e.tail
    ensures TickSpec(e, cfg) == e.(st := e.st.(executeStep := false), ticking := false, cycleStop := true)
  {
  }
}

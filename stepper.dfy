/** The stepper subsystem as the C module keeps it: static registers, two
    fixed-size rings updated in place, ring indices and block pointers. Every
    method is proved to do to the engine state what the matching function of
    the Consumer, Producer and Lifecycle modules says, so the properties
    proved there hold of the class. */
module Stepper {
  import opened StepperTypes
  import opened SegmentRing
  import opened Bresenham
  import opened BlockSlicing
  import opened PlannerModel
  import opened EngineState
  import opened Consumer
  import opened Producer
  import opened Lifecycle

  /** The guards a tick sets and clears (busy, the tick source, the cycle-stop
      request) are outside the invariant. */
  lemma InvIgnoresGuards(e: Engine, cfg: Config, busy: bool, ticking: bool, cycleStop: bool)
    requires Inv(e, cfg)
    ensures Inv(e.(busy := busy, ticking := ticking, cycleStop := cycleStop), cfg)
  {
    var r := e.(busy := busy, ticking := ticking, cycleStop := cycleStop);
    assert Shape(r);
    assert RingInv(r);
    assert PrepInv(r);
    assert ConsumerInv(r, cfg);
  }

  class Stepper {
    /** Compile-time constants and settings the core reads. */
    const cfg: Config
    /** `segment_buffer`: the ring of prepared segments. */
    const segmentBuffer: array<Segment>
    /** `segment_data`: per-block data shared by the segments of a block. */
    const segmentData: array<SegData>

    /** `st`: the interrupt's working registers. */
    var st: St
    /** `segment_buffer_tail`, `segment_buffer_head`, `segment_next_head`. */
    var tail: nat
    var head: nat
    var nextHead: nat
    /** Re-entrancy guard of the tick. */
    var busy: bool
    /** `pl_current_block`, and `st_current_segment` / `st_current_data` as
        ring indices. */
    var currentBlock: Option<Block>
    var currentSegment: nat
    var currentData: nat
    /** `pl_prep_block`, `pl_prep_index`, `st_data_prep_index`. */
    var prepBlock: Option<Block>
    var prepIndex: nat
    var dataPrepIndex: nat
    /** `sys.position`, `sys.state`, the cycle-stop bit of `sys.execute`,
        `sys.auto_start`. */
    var position: seq<int>
    var state: SysState
    var cycleStop: bool
    var autoStart: bool
    /** Whether the tick interrupt is enabled. */
    var ticking: bool
    /** The planner's block ring. */
    var planner: Planner

    /** The whole state as an engine value. */
    function Snapshot(): Engine
      reads this, segmentBuffer, segmentData
    {
      Engine(st, segmentBuffer[..], segmentData[..], tail, head, nextHead, busy,
             currentBlock, currentSegment, currentData, prepBlock, prepIndex, dataPrepIndex,
             position, state, cycleStop, autoStart, ticking, planner)
    }

    /** The state inside a tick, with the busy guard set aside. */
    function Core(): Engine
      reads this, segmentBuffer, segmentData
    {
      Snapshot().(busy := false)
    }

    predicate Valid()
      reads this, segmentBuffer, segmentData
    {
      ValidConfig(cfg) && Inv(Snapshot(), cfg)
    }

    /** `st_init` followed by `st_reset` (with `head` cleared): zeroed rings,
        the given planner and run state, the tick source stopped. */
    constructor(cfg: Config, planner: Planner, state: SysState)
      requires ValidConfig(cfg) && ValidPlanner(planner)
      ensures Valid() && fresh(segmentBuffer) && fresh(segmentData)
      ensures Snapshot() == ResetCleared(
                Engine(ZERO_ST, seq(SEGMENT_BUFFER_SIZE, _ => ZERO_SEGMENT), seq(SEGMENT_BUFFER_SIZE, _ => ZERO_DATA),
                       0, 0, 0, false, None, 0, 0, None, 0, 0, [0, 0, 0], state, false, false, false, planner))
    {
      this.cfg := cfg;
      this.planner := planner;
      this.state := state;
      segmentBuffer := new Segment[SEGMENT_BUFFER_SIZE](_ => ZERO_SEGMENT);
      segmentData := new SegData[SEGMENT_BUFFER_SIZE](_ => ZERO_DATA);
      st := ZERO_ST;
      tail, head, nextHead := 0, 0, 0;
      busy := false;
      currentBlock, currentSegment, currentData := None, 0, 0;
      prepBlock, prepIndex, dataPrepIndex := None, 0, 0;
      position := [0, 0, 0];
      cycleStop, autoStart, ticking := false, false, false;
      new;
      Reset();
    }

    /** `st_reset`, with `segment_buffer_head` cleared along with the other
        indices so that the ring comes out empty. */
    method Reset()
      requires ValidConfig(cfg) && Shape(Snapshot())
      modifies this`st, this`currentBlock, this`prepBlock, this`prepIndex, this`dataPrepIndex
      modifies this`busy, this`tail, this`head, this`nextHead
      ensures Valid()
      ensures Snapshot() == ResetCleared(old(Snapshot()))
    {
      ResetClearedInv(Snapshot(), cfg);
      ClearRegisters();
      ClearBlocks();
      tail, head, nextHead := 0, 0, 1;
    }

    /** The reset of the registers: zeroed, with a block load pending. */
    method ClearRegisters()
      modifies this`st, this`busy
      ensures Snapshot() == old(Snapshot()).(st := ZERO_ST.(loadFlag := LoadBlock), busy := false)
    {
      st, busy := ZERO_ST.(loadFlag := LoadBlock), false;
    }

    /** The reset of the block pointers and the preparation indices. */
    method ClearBlocks()
      modifies this`currentBlock, this`prepBlock, this`prepIndex, this`dataPrepIndex
      ensures Snapshot() == old(Snapshot()).(currentBlock := None, prepBlock := None,
                                             prepIndex := 0, dataPrepIndex := 0)
    {
      currentBlock, prepBlock := None, None;
      prepIndex, dataPrepIndex := 0, 0;
    }

    /** `st_wake_up` without the enable pin. */
    method WakeUp()
      requires Valid()
      modifies this
      ensures Valid()
      ensures Snapshot() == WakeUpState(old(Snapshot()), cfg)
    {
      WakeUpInv(Snapshot(), cfg);
      if state == StateCycle {
        st := st.(outBits := cfg.invertMask);
        st := st.(executeStep := false, loadFlag := LoadBlock);
        ticking := true;
      }
    }

    /** `st_go_idle` without the idle dwell and the enable pin. */
    method GoIdle()
      requires Valid()
      modifies this
      ensures Valid()
      ensures Snapshot() == GoIdleState(old(Snapshot()))
    {
      InvIgnoresGuards(Snapshot(), cfg, false, false, cycleStop);
      ticking := false;
      busy := false;
    }

    /** `st_cycle_start`. */
    method CycleStart()
      requires Valid()
      modifies this
      ensures Valid()
      ensures Snapshot() == CycleStartState(old(Snapshot()), cfg)
    {
      if state == StateQueued {
        RunStateInv(Snapshot(), cfg, StateCycle, autoStart);
        state := StateCycle;
        WakeUp();
      }
    }

    /** `st_feed_hold`. */
    method FeedHold()
      requires Valid()
      modifies this
      ensures Valid()
      ensures Snapshot() == FeedHoldState(old(Snapshot()))
    {
      if state == StateCycle {
        RunStateInv(Snapshot(), cfg, StateHold, false);
        state := StateHold;
        autoStart := false;
      }
    }

    /** `st_cycle_reinitialize`. */
    method CycleReinitialize()
      requires Valid()
      modifies this
      ensures Valid()
      ensures Snapshot() == CycleReinitializeState(old(Snapshot()))
    {
      RunStateInv(Snapshot(), cfg, StateIdle, autoStart);
      state := StateIdle;
    }

    // ------------------------------------------------------------- the tick

    /** The block part of a segment load: read the planner's current block
        and the segment's data slot, stage the direction bits, seed the
        Bresenham counters at half the step-event count, load `d_next` and the
        initial rate, start the acceleration ramp at half a period and floor
        the step rate. */
    method LoadBlockFromPlanner()
      requires busy && ValidConfig(cfg) && Shape(Core()) && CurrentBlock(planner).Some?
      modifies this`st, this`currentBlock, this`currentData
      ensures busy && Core() == LoadBlockRegisters(old(Core()), cfg)
    {
      ghost var r := LoadBlockRegisters(Core(), cfg);
      currentBlock := CurrentBlock(planner);
      currentData := segmentBuffer[tail].dataIndex as nat;
      var b := currentBlock.value;
      st := st.(outBits := Xor(b.directionBits, cfg.invertMask), executeStep := true);
      st := st.(counterX := b.stepEventCount / 2);
      st := st.(counterY := st.counterX, counterZ := st.counterX);
      st := st.(counterD := segmentData[currentData].dNext);
      st := st.(deltaD := segmentData[currentData].initialRate);
      st := st.(rampType := RampAccel, rampCount := cfg.accelTicks / 2);
      if st.deltaD < cfg.minStepRate {
        st := st.(dPerTick := cfg.minStepRate);
      } else {
        st := st.(dPerTick := st.deltaD);
      }
    }

    /** Load the segment at `tail`: its step count, the block registers when a
        new block starts, the forced deceleration ramp for a DECEL or
        DECEL_EOB segment, then clear the load request. */
    method LoadSegmentFromTail()
      requires busy && ValidConfig(cfg) && Inv(Core(), cfg) && BlockAvailable(Core())
      requires st.loadFlag != LoadNoop && head != tail
      modifies this`st, this`currentSegment, this`currentBlock, this`currentData
      ensures busy && Core() == LoadSegment(old(Core()), cfg)
    {
      currentSegment := tail;
      st := st.(segmentStepsRemaining := segmentBuffer[currentSegment].nStep);
      if st.loadFlag == LoadBlock {
        LoadBlockFromPlanner();
      }
      var flag := segmentBuffer[currentSegment].flag;
      if flag == StDecel || flag == StDecelEob {
        if st.rampType == RampNoopCruise {
          st := st.(rampCount := cfg.accelTicks / 2);
        } else {
          st := st.(rampCount := Sub8(cfg.accelTicks, st.rampCount));
        }
        st := st.(rampType := RampDecel);
      }
      st := st.(loadFlag := LoadNoop);
    }

    /** The ramp: every `accelTicks` ticks, raise the rate towards the nominal
        rate or lower it towards zero, and re-floor the step rate. */
    method RampStepInPlace()
      requires busy && ValidConfig(cfg) && Inv(Core(), cfg) && st.loadFlag == LoadNoop
      modifies this`st
      ensures busy && Core() == RampStep(old(Core()), cfg)
    {
      if st.rampType != RampNoopCruise {
        st := st.(rampCount := Dec8(st.rampCount));
        if st.rampCount == 0 {
          st := st.(rampCount := cfg.accelTicks);
          var d := segmentData[currentData];
          if st.rampType == RampAccel {
            st := st.(deltaD := st.deltaD + d.rateDelta);
            if st.deltaD >= d.nominalRate {
              st := st.(deltaD := d.nominalRate, rampType := RampNoopCruise);
            }
          } else {
            if st.deltaD > d.rateDelta {
              st := st.(deltaD := st.deltaD - d.rateDelta);
            } else {
              st := st.(deltaD := st.deltaD / 2);
            }
          }
          if st.deltaD < cfg.minStepRate {
            st := st.(dPerTick := cfg.minStepRate);
          } else {
            st := st.(dPerTick := st.deltaD);
          }
        }
      }
    }

    /** One axis of a step event, on its counter, its position and the staged
        bits. */
    method StepAxis(counter: int, pos: int, out: Bits, b: Block, a: nat)
      returns (counter': int, pos': int, out': Bits)
      requires ValidConfig(cfg) && ValidBlock(b) && a < 3
      requires 0 <= counter < b.stepEventCount && DirectionsIntact(out, b, cfg)
      ensures (counter', pos', out') == AxisEvent(counter, pos, out, b, cfg, a)
    {
      counter', pos', out' := counter - b.steps[a], pos, out;
      if counter' < 0 {
        out' := out' + {cfg.stepBits[a]};
        counter' := counter' + b.stepEventCount;
        if cfg.dirBits[a] in out' {
          pos' := pos' - 1;
        } else {
          pos' := pos' + 1;
        }
      }
    }

    /** The three axes of a step event, X, Y and Z in order, on the block's
        direction bits. */
    method StepAxes()
      requires ValidConfig(cfg) && currentBlock.Some? && ValidBlock(currentBlock.value)
      requires CountersInRange(st, currentBlock.value) && |position| == 3
      modifies this`st, this`position
      ensures var ax := AxesEvent(old(st), old(position), currentBlock.value, cfg);
        st == ax.0.(executeStep := true) && position == ax.1
    {
      var b := currentBlock.value;
      st := st.(outBits := b.directionBits, executeStep := true);
      assert DirectionsIntact(st.outBits, b, cfg);
      var c, p, out := StepAxis(st.counterX, position[0], st.outBits, b, 0);
      st := st.(counterX := c, outBits := out);
      position := position[0 := p];
      c, p, out := StepAxis(st.counterY, position[1], st.outBits, b, 1);
      st := st.(counterY := c, outBits := out);
      position := position[1 := p];
      c, p, out := StepAxis(st.counterZ, position[2], st.outBits, b, 2);
      st := st.(counterZ := c, outBits := out);
      position := position[2 := p];
    }

    /** The end of a step event: consume a step of the segment, retire the
        segment after its last step (releasing the planner block at the end of
        a block), and apply the invert mask. */
    method StepDoneInPlace()
      requires busy && segmentBuffer.Length == SEGMENT_BUFFER_SIZE && currentSegment < SEGMENT_BUFFER_SIZE
      requires tail < SEGMENT_BUFFER_SIZE && ValidPlanner(planner)
      modifies this`st, this`planner, this`tail
      ensures busy && Core() == StepDone(old(Core()), cfg)
    {
      var remaining := Dec8(st.segmentStepsRemaining);
      var load := st.loadFlag;
      if remaining == 0 {
        var flag := segmentBuffer[currentSegment].flag;
        if flag == StEndOfBlock || flag == StDecelEob {
          planner := DiscardCurrentBlock(planner);
          load := LoadBlock;
        } else {
          load := LoadLine;
        }
        tail := NextBlockIndex(tail);
      }
      st := st.(outBits := Xor(st.outBits, cfg.invertMask), segmentStepsRemaining := remaining, loadFlag := load);
    }

    /** The step event. */
    method StepEventInPlace()
      requires busy && ValidConfig(cfg) && Inv(Core(), cfg) && st.loadFlag == LoadNoop
      modifies this`st, this`position, this`planner, this`tail
      ensures busy && Core() == StepEvent(old(Core()), cfg)
    {
      ghost var e0 := Core();
      StepAxes();
      ghost var ax := AxesEvent(e0.st, e0.position, e0.currentBlock.value, cfg);
      assert Core() == e0.(st := ax.0.(executeStep := true), position := ax.1);
      StepDoneInPlace();
    }

    /** The inverse-time counter: lose the step rate; when it goes negative,
        regain `d_next` and run a step event. */
    method InverseTimeInPlace()
      requires busy && ValidConfig(cfg) && Inv(Core(), cfg) && st.loadFlag == LoadNoop
      modifies this`st, this`position, this`planner, this`tail
      ensures busy && Core() == InverseTimeTick(old(Core()), cfg)
    {
      ghost var e0 := Core();
      st := st.(counterD := Wrap32(st.counterD - st.dPerTick));
      ghost var e1 := Core();
      assert e1 == CountDown(e0);
      CounterOnlyInv(e0, e1, cfg);
      if st.counterD < 0 {
        st := st.(counterD := Wrap32(st.counterD + segmentData[currentData].dNext));
        ghost var e2 := Core();
        assert e2 == Reload(e1);
        CounterOnlyInv(e1, e2, cfg);
        StepEventInPlace();
        assert Core() == StepEvent(e2, cfg);
      }
    }

    /** The running part of a tick, under the busy guard: load the segment at
        `tail` when a load is due, step the ramp, then the inverse-time
        counter. */
    method RunInPlace()
      requires busy && ValidConfig(cfg) && Inv(Core(), cfg) && BlockAvailable(Core())
      requires st.loadFlag == LoadNoop || head != tail
      modifies this`st, this`tail, this`currentBlock, this`currentSegment, this`currentData
      modifies this`position, this`planner
      ensures busy && Core() == Run(old(Core()), cfg)
    {
      ghost var e := Core();
      if st.loadFlag != LoadNoop {
        LoadSegmentFromTail();
      }
      ghost var e1 := Core();
      assert e1 == Loaded(e, cfg);
      LoadedInv(e, cfg);
      RampStepInPlace();
      RampStepInv(e1, cfg);
      InverseTimeInPlace();
    }

    /** A running tick outside the guard: set `busy`, run, release `busy`. */
    method GuardedRun()
      requires Valid() && !busy && BlockAvailable(Snapshot())
      requires st.loadFlag == LoadNoop || head != tail
      modifies this
      ensures Valid()
      ensures Snapshot() == Run(old(Snapshot()), cfg)
    {
      ghost var e := Snapshot();
      RunInv(e, cfg);
      busy := true;
      assert Core() == e;
      RunInPlace();
      busy := false;
    }

    /** The staged output bits go out: `execute_step` is cleared. */
    method OutputInPlace()
      requires Valid()
      modifies this`st
      ensures Valid()
      ensures Snapshot() == Output(old(Snapshot()))
    {
      OutputInv(Snapshot(), cfg);
      if st.executeStep {
        st := st.(executeStep := false);
      }
    }

    /** `ISR(TIMER2_COMPA_vect)`: one tick of the stepper interrupt, proved
        against `TickSpec`. */
    method Tick()
      requires Valid() && BlockAvailable(Snapshot())
      modifies this
      ensures Valid()
      ensures Snapshot() == TickSpec(old(Snapshot()), cfg)
    {
      if busy {
        return;
      }
      OutputInPlace();
      if st.loadFlag != LoadNoop && head == tail {
        GoIdle();
        cycleStop := true;
      } else {
        GuardedRun();
      }
    }

    // ---------------------------------------------------------- the producer

    /** A new block enters preparation: the next segment data slot receives its
        step-event count, rates and deceleration point. */
    method StartBlockInPlace(b: Block)
      requires Valid() && ValidBlock(b)
      modifies this`prepBlock, this`dataPrepIndex, segmentData
      ensures Valid()
      ensures Snapshot() == StartBlock(old(Snapshot()), cfg, b)
    {
      ghost var r := StartBlock(Snapshot(), cfg, b);
      prepBlock := Some(b);
      dataPrepIndex := NextBlockIndex(dataPrepIndex);
      segmentData[dataPrepIndex] := SegData(b.stepEventCount, b.dNext, b.initialRate, b.nominalRate,
                                            b.rateDelta, b.decelerateAfter);
      assert segmentData[..] == r.segmentData;
    }

    /** The step count and flag of the next segment of a block with
        `remaining` step events left and deceleration point `decelerateAfter`:
        at most 250 steps, cut to the remaining steps and to the deceleration
        point while it lies ahead; the flag records whether the segment ends
        the block and whether deceleration starts with it. */
    static method SliceNext(remaining: int, decelerateAfter: int) returns (n: u8, flag: SegFlag)
      requires remaining > 0
      ensures 1 <= n <= remaining && (decelerateAfter > 0 ==> n <= decelerateAfter)
      ensures Slice(n, flag) == Slicing(remaining, decelerateAfter)[0]
    {
      n := SEGMENT_STEP_CAP;
      if n > remaining {
        n := remaining;
      }
      if decelerateAfter > 0 {
        if n > decelerateAfter {
          n := decelerateAfter;
        }
      }
      if remaining - n == 0 {
        if decelerateAfter == 0 {
          flag := StDecelEob;
        } else {
          flag := StEndOfBlock;
        }
      } else {
        if decelerateAfter == 0 {
          flag := StDecel;
        } else {
          flag := StNoop;
        }
      }
    }

    /** One segment of the block in preparation is written at `head` and
        published; the data slot's remaining steps and deceleration point drop
        by its step count; a finished block leaves preparation and the planner
        index moves on; `head` moves to `next_head`. */
    method EmitSegmentInPlace()
      requires Valid() && prepBlock.Some? && tail != nextHead
      modifies segmentBuffer, segmentData, this`prepIndex, this`prepBlock, this`head, this`nextHead
      ensures Valid()
      ensures Snapshot() == EmitSegment(old(Snapshot()), cfg)
    {
      EmitSegmentInv(Snapshot(), cfg);
      WriteSegment();
      head := nextHead;
      nextHead := NextBlockIndex(head);
    }

    /** The writing half of a segment emission: everything but the move of
        `head`. */
    method WriteSegment()
      requires Valid() && prepBlock.Some? && tail != nextHead
      modifies segmentBuffer, segmentData, this`prepIndex, this`prepBlock
      ensures Snapshot() == EmitSegment(old(Snapshot()), cfg).(head := head, nextHead := nextHead)
    {
      ghost var r := EmitSegment(Snapshot(), cfg);
      var di := dataPrepIndex;
      var d := segmentData[di];
      var n, flag := SliceNext(d.stepEventsRemaining, d.decelerateAfter);
      d := d.(stepEventsRemaining := d.stepEventsRemaining - n);
      if d.stepEventsRemaining == 0 {
        prepIndex := NextBlockPlIndex(prepIndex);
        prepBlock := None;
      }
      d := d.(decelerateAfter := d.decelerateAfter - n);
      WriteSlots(Segment(n, di as u8, flag), d);
      assert segmentBuffer[..] == r.segmentBuffer && segmentData[..] == r.segmentData;
    }

    /** The two ring writes of a published segment: the segment at `head` and
        its block's data at the preparation slot. */
    method WriteSlots(seg: Segment, d: SegData)
      requires head < segmentBuffer.Length && dataPrepIndex < segmentData.Length
      modifies segmentBuffer, segmentData
      ensures segmentBuffer[..] == old(segmentBuffer[..])[head := seg]
      ensures segmentData[..] == old(segmentData[..])[dataPrepIndex := d]
    {
      segmentBuffer[head] := seg;
      segmentData[dataPrepIndex] := d;
    }

    /** `st_prep_buffer`: fill the segment ring until it is full or the planner
        has no block to prepare, proved against `PrepSpec`. */
    method PrepBuffer()
      requires Valid()
      modifies this, segmentBuffer, segmentData
      ensures Valid()
      ensures Snapshot() == PrepSpec(old(Snapshot()), cfg)
    {
      while tail != nextHead
        invariant Valid()
        invariant PrepSpec(Snapshot(), cfg) == PrepSpec(old(Snapshot()), cfg)
        decreases Free(tail, nextHead)
      {
        ghost var e := Snapshot();
        PrepIterationInv(e, cfg);
        if prepBlock.None? {
          var b := BlockByIndex(planner, prepIndex);
          if b.None? {
            return;
          }
          StartBlockInPlace(b.value);
        }
        EmitSegmentInPlace();
        assert Snapshot() == PrepIteration(e, cfg).value;
      }
    }
  }
}

/** The stepper's lifecycle gates on the engine state: reset, wake-up,
    cycle start, feed hold and cycle re-initialisation. The hardware side of
    each (timer and port registers, the enable pin, the idle dwell) is not
    part of this model; only the state the core reads back is. */
module Lifecycle {
  import opened StepperTypes
  import opened SegmentRing
  import opened PlannerModel
  import opened EngineState
  import opened Consumer

  /** `st_reset` as written: the registers are zeroed with a block load
      pending, both block pointers are cleared, the preparation indices and
      `tail` go to 0 and `next_head` to 1; `head` keeps its old value. */
  function ResetState(e: Engine): (r: Engine)
    ensures r.head == e.head && r.tail == 0 && r.nextHead == 1
    ensures r.st == ZERO_ST.(loadFlag := LoadBlock)
    ensures r.currentBlock.None? && r.prepBlock.None? && r.prepIndex == 0 && r.dataPrepIndex == 0
    ensures !r.busy
    // the segment rings, the position, the planner and the run state are untouched
    ensures r == e.(st := r.st, currentBlock := r.currentBlock, prepBlock := r.prepBlock,
                    prepIndex := r.prepIndex, dataPrepIndex := r.dataPrepIndex, busy := r.busy,
                    tail := r.tail, nextHead := r.nextHead)
  {
    e.(st := ZERO_ST.(loadFlag := LoadBlock), currentBlock := None, prepBlock := None,
       prepIndex := 0, dataPrepIndex := 0, busy := false, tail := 0, nextHead := 1)
  }

  /** `st_reset` with `head` cleared as well, so that the ring comes out
      empty. This is the reset the stepper class performs. */
  function ResetCleared(e: Engine): (r: Engine)
    ensures r.head == 0 && r.tail == 0 && r.nextHead == 1 && Count(r.tail, r.head) == 0
    ensures r.st == ZERO_ST.(loadFlag := LoadBlock)
    ensures r.currentBlock.None? && r.prepBlock.None? && r.prepIndex == 0 && r.dataPrepIndex == 0
    ensures !r.busy
    // it differs from the reset as written in `head` alone
    ensures r == ResetState(e).(head := r.head)
  {
    ResetState(e).(head := 0)
  }

  /** The reset as written re-establishes the invariant exactly when `head`
      was already 0. */
  lemma ResetStateInvIffHeadZero(e: Engine, cfg: Config)
    requires Shape(e)
    ensures Inv(ResetState(e), cfg) <==> e.head == 0
  {
    var r := ResetState(e);
    if e.head == 0 {
      assert Shape(r);
      assert RingInv(r);
      assert PrepInv(r);
      assert ConsumerInv(r, cfg);
    } else {
      assert r.nextHead != NextBlockIndex(r.head);
    }
  }

  /** The counterexample: a reset while `head` is 5 leaves a ring whose
      `next_head` is not one past `head`, and in which the five stale slots 0
      to 4 count as queued segments although nothing was prepared, so the next
      tick loads the stale segment in slot 0. */
  lemma ResetStateStaleHead(e: Engine, cfg: Config)
    requires Shape(e) && e.head == 5
    ensures var r := ResetState(e);
      && !Inv(r, cfg)
      && r.nextHead != NextBlockIndex(r.head)
      && Count(r.tail, r.head) == 5
      && (forall i | 0 <= i < SEGMENT_BUFFER_SIZE :: Queued(r.tail, r.head, i) <==> i < 5)
      && r.st.loadFlag == LoadBlock
  {
    ResetStateInvIffHeadZero(e, cfg);
  }

  /** The corrected reset always leaves an empty ring with a block load
      pending, no block loaded or in preparation, and the invariant
      established, whatever state it starts from. */
  lemma ResetClearedInv(e: Engine, cfg: Config)
    requires Shape(e)
    ensures var r := ResetCleared(e);
      && Inv(r, cfg)
      && Count(r.tail, r.head) == 0 && Free(r.tail, r.nextHead) == SEGMENT_BUFFER_SIZE - 1
      && r.st.loadFlag == LoadBlock && r.currentBlock.None? && r.prepBlock.None? && !r.busy
  {
    var r := ResetCleared(e);
    assert Shape(r);
    assert RingInv(r);
    assert PrepInv(r);
    assert ConsumerInv(r, cfg);
  }

  /** The reset as written is idempotent too: a second reset finds `head`
      unchanged and everything else already cleared. */
  lemma ResetStateIdempotent(e: Engine)
    ensures ResetState(ResetState(e)) == ResetState(e)
  {
  }

  /** Resetting twice is resetting once. */
  lemma ResetClearedIdempotent(e: Engine)
    ensures ResetCleared(ResetCleared(e)) == ResetCleared(e)
  {
  }

  /** `st_wake_up` without the enable pin: only in the cycle state are the
      staged bits set to the invert mask, the execute flag dropped, a block
      load requested and the tick source started. */
  function WakeUpState(e: Engine, cfg: Config): (r: Engine)
    ensures e.state != StateCycle ==> r == e
    ensures e.state == StateCycle ==>
              && r.ticking && r.st.loadFlag == LoadBlock && !r.st.executeStep && r.st.outBits == cfg.invertMask
              && r == e.(st := r.st, ticking := r.ticking)
              && r.st == e.st.(outBits := r.st.outBits, executeStep := r.st.executeStep, loadFlag := r.st.loadFlag)
  {
    if e.state == StateCycle then
      e.(st := e.st.(outBits := cfg.invertMask, executeStep := false, loadFlag := LoadBlock), ticking := true)
    else e
  }

  /** `st_cycle_start`: from the queued state only, enter the cycle state and
      wake up. */
  function CycleStartState(e: Engine, cfg: Config): (r: Engine)
    ensures e.state != StateQueued ==> r == e
    ensures e.state == StateQueued ==>
              && r.state == StateCycle && r.ticking
              && r.st.loadFlag == LoadBlock && !r.st.executeStep && r.st.outBits == cfg.invertMask
              && r == e.(st := r.st, state := r.state, ticking := r.ticking)
              && r.st == e.st.(outBits := r.st.outBits, executeStep := r.st.executeStep, loadFlag := r.st.loadFlag)
  {
    if e.state == StateQueued then WakeUpState(e.(state := StateCycle), cfg) else e
  }

  /** `st_feed_hold`: from the cycle state only, enter the hold state and turn
      planner auto-start off. */
  function FeedHoldState(e: Engine): (r: Engine)
    ensures e.state != StateCycle ==> r == e
    ensures e.state == StateCycle ==> r.state == StateHold && !r.autoStart
    ensures r == e.(state := r.state, autoStart := r.autoStart)
  {
    if e.state == StateCycle then e.(state := StateHold, autoStart := false) else e
  }

  /** `st_cycle_reinitialize`: the re-planning it sketches is disabled in the
      source; what remains sets the run state to idle. */
  function CycleReinitializeState(e: Engine): (r: Engine)
    ensures r.state == StateIdle && r == e.(state := r.state)
  {
    e.(state := StateIdle)
  }

  /** Waking up keeps the invariant: a pending block load constrains nothing
      that was not already constrained. */
  lemma WakeUpInv(e: Engine, cfg: Config)
    requires Inv(e, cfg)
    ensures Inv(WakeUpState(e, cfg), cfg)
  {
    var r := WakeUpState(e, cfg);
    assert Shape(r);
    assert RingInv(r);
    assert PrepInv(r);
    assert ConsumerInv(r, cfg);
  }

  /** Cycle start is gated on the queued state: from it, the engine is in the
      cycle state, ticking, with a block load pending; from any other state
      nothing changes. It keeps the invariant. */
  lemma CycleStartGate(e: Engine, cfg: Config)
    requires Inv(e, cfg)
    ensures var r := CycleStartState(e, cfg);
      && Inv(r, cfg)
      && (e.state == StateQueued ==>
            r.state == StateCycle && r.ticking && r.st.loadFlag == LoadBlock && !r.st.executeStep
            && r.st.outBits == cfg.invertMask)
      && (e.state != StateQueued ==> r == e)
  {
    if e.state == StateQueued {
      var e1 := e.(state := StateCycle);
      assert Shape(e1) && RingInv(e1) && PrepInv(e1) && ConsumerInv(e1, cfg);
      WakeUpInv(e1, cfg);
    }
  }

  /** Feed hold is gated on the cycle state, touches only the run state and
      auto-start, and so keeps the invariant. */
  lemma FeedHoldGate(e: Engine, cfg: Config)
    requires Inv(e, cfg)
    ensures var r := FeedHoldState(e);
      && Inv(r, cfg)
      && (e.state == StateCycle ==> r.state == StateHold && !r.autoStart)
      && (e.state != StateCycle ==> r == e)
  {
    RunStateInv(e, cfg, StateHold, false);
  }

  /** The run state and auto-start are outside the invariant. */
  lemma RunStateInv(e: Engine, cfg: Config, s: SysState, a: bool)
    requires Inv(e, cfg)
    ensures Inv(e.(state := s, autoStart := a), cfg)
  {
    var h := e.(state := s, autoStart := a);
    assert Shape(h) && RingInv(h) && PrepInv(h) && ConsumerInv(h, cfg);
  }

  lemma LoadBlockRegistersIgnoresRunState(e: Engine, cfg: Config, s: SysState, a: bool)
    requires ValidConfig(cfg) && Shape(e) && CurrentBlock(e.planner).Some?
    ensures LoadBlockRegisters(e.(state := s, autoStart := a), cfg)
            == LoadBlockRegisters(e, cfg).(state := s, autoStart := a)
  {
  }

  lemma LoadSegmentIgnoresRunState(e: Engine, cfg: Config, s: SysState, a: bool)
    requires ValidConfig(cfg) && Inv(e, cfg) && BlockAvailable(e)
    requires e.st.loadFlag != LoadNoop && e.head != e.tail
    requires Inv(e.(state := s, autoStart := a), cfg)
    ensures LoadSegment(e.(state := s, autoStart := a), cfg) == LoadSegment(e, cfg).(state := s, autoStart := a)
  {
    var h := e.(state := s, autoStart := a);
    var seg := e.segmentBuffer[e.tail];
    var e1 := e.(currentSegment := e.tail, st := e.st.(segmentStepsRemaining := seg.nStep));
    var h1 := h.(currentSegment := h.tail, st := h.st.(segmentStepsRemaining := seg.nStep));
    assert h1 == e1.(state := s, autoStart := a);
    if e.st.loadFlag == LoadBlock {
      LoadBlockRegistersIgnoresRunState(e1, cfg, s, a);
    }
  }

  lemma LoadedIgnoresRunState(e: Engine, cfg: Config, s: SysState, a: bool)
    requires ValidConfig(cfg) && Inv(e, cfg) && BlockAvailable(e)
    requires e.st.loadFlag == LoadNoop || e.head != e.tail
    requires Inv(e.(state := s, autoStart := a), cfg)
    ensures Loaded(e.(state := s, autoStart := a), cfg) == Loaded(e, cfg).(state := s, autoStart := a)
  {
    if e.st.loadFlag != LoadNoop {
      LoadSegmentIgnoresRunState(e, cfg, s, a);
    }
  }

  lemma StepEventIgnoresRunState(e: Engine, cfg: Config, s: SysState, a: bool)
    requires ValidConfig(cfg) && Inv(e, cfg) && e.st.loadFlag == LoadNoop
    requires Inv(e.(state := s, autoStart := a), cfg)
    ensures StepEvent(e.(state := s, autoStart := a), cfg) == StepEvent(e, cfg).(state := s, autoStart := a)
  {
  }

  lemma InverseTimeTickIgnoresRunState(e: Engine, cfg: Config, s: SysState, a: bool)
    requires ValidConfig(cfg) && Inv(e, cfg) && e.st.loadFlag == LoadNoop
    requires Inv(e.(state := s, autoStart := a), cfg)
    ensures InverseTimeTick(e.(state := s, autoStart := a), cfg) == InverseTimeTick(e, cfg).(state := s, autoStart := a)
  {
    var h := e.(state := s, autoStart := a);
    var e1 := CountDown(e);
    CounterOnlyInv(e, e1, cfg);
    assert CountDown(h) == e1.(state := s, autoStart := a);
    if e1.st.counterD < 0 {
      var e2 := Reload(e1);
      CounterOnlyInv(e1, e2, cfg);
      assert Reload(CountDown(h)) == e2.(state := s, autoStart := a);
      RunStateInv(e2, cfg, s, a);
      StepEventIgnoresRunState(e2, cfg, s, a);
    }
  }

  lemma RunIgnoresRunState(e: Engine, cfg: Config, s: SysState, a: bool)
    requires ValidConfig(cfg) && Inv(e, cfg) && BlockAvailable(e)
    requires e.st.loadFlag == LoadNoop || e.head != e.tail
    ensures Inv(e.(state := s, autoStart := a), cfg)
    ensures Run(e.(state := s, autoStart := a), cfg) == Run(e, cfg).(state := s, autoStart := a)
  {
    RunStateInv(e, cfg, s, a);
    LoadedIgnoresRunState(e, cfg, s, a);
    var l := Loaded(e, cfg);
    LoadedInv(e, cfg);
    RampStepInv(l, cfg);
    var g := RampStep(l, cfg);
    RunStateInv(g, cfg, s, a);
    assert RampStep(l.(state := s, autoStart := a), cfg) == g.(state := s, autoStart := a);
    InverseTimeTickIgnoresRunState(g, cfg, s, a);
  }

  /** The tick never reads the run state nor auto-start: changing them before
      a tick or after it gives the same engine. */
  lemma TickIgnoresRunState(e: Engine, cfg: Config, s: SysState, a: bool)
    requires ValidConfig(cfg) && Inv(e, cfg) && BlockAvailable(e)
    ensures Inv(e.(state := s, autoStart := a), cfg)
    ensures TickSpec(e.(state := s, autoStart := a), cfg) == TickSpec(e, cfg).(state := s, autoStart := a)
  {
    RunStateInv(e, cfg, s, a);
    if !e.busy {
      var e1 := Output(e);
      OutputInv(e, cfg);
      if !(e1.st.loadFlag != LoadNoop && e1.head == e1.tail) {
        RunIgnoresRunState(e1, cfg, s, a);
      }
    }
  }

  /** A feed hold does not affect the stepping: the tick never reads the run
      state nor auto-start, so holding before or after a tick gives the same
      engine. */
  lemma FeedHoldCommutesWithTick(e: Engine, cfg: Config)
    requires ValidConfig(cfg) && Inv(e, cfg) && BlockAvailable(e)
    ensures Inv(FeedHoldState(e), cfg) && BlockAvailable(FeedHoldState(e))
    ensures TickSpec(FeedHoldState(e), cfg) == FeedHoldState(TickSpec(e, cfg))
  {
    if e.state == StateCycle {
      TickIgnoresRunState(e, cfg, StateHold, false);
    }
  }
}

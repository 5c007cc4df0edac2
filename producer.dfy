/** The producer: the segment buffer preparation on the engine state. */
module Producer {
  import opened StepperTypes
  import opened SegmentRing
  import opened BlockSlicing
  import opened PlannerModel
  import opened EngineState


  /** The segment data of a block when its preparation starts. */
  function InitData(b: Block): (d: SegData)
    requires ValidBlock(b)
    ensures ValidSegData(d)
    ensures d.stepEventsRemaining == b.stepEventCount && d.decelerateAfter == b.decelerateAfter
    ensures d.initialRate == b.initialRate && d.nominalRate == b.nominalRate
    ensures d.rateDelta == b.rateDelta && d.dNext == b.dNext
  {
    SegData(b.stepEventCount, b.dNext, b.initialRate, b.nominalRate, b.rateDelta, b.decelerateAfter)
  }

  /** Starting a new block: it claims the next segment data slot, which holds
      the block's step-event count, rates and deceleration point. */
  function StartBlock(e: Engine, cfg: Config, b: Block): (r: Engine)
    requires Inv(e, cfg) && ValidBlock(b)
    ensures Inv(r, cfg)
    ensures r.prepBlock == Some(b) && r.dataPrepIndex == NextBlockIndex(e.dataPrepIndex)
    ensures r.segmentData[r.dataPrepIndex] == InitData(b)
    ensures forall i | 0 <= i < SEGMENT_BUFFER_SIZE && i != r.dataPrepIndex ::
              r.segmentData[i] == e.segmentData[i]
    ensures r == e.(prepBlock := r.prepBlock, dataPrepIndex := r.dataPrepIndex, segmentData := r.segmentData)
  {
    var di := NextBlockIndex(e.dataPrepIndex);
    e.(prepBlock := Some(b), dataPrepIndex := di, segmentData := e.segmentData[di := InitData(b)])
  }

  /** Emitting one segment of the block in preparation at `head`: its step
      count and flag follow the block slicing, both remaining counts drop by
      the step count, a block whose steps are exhausted is released (the
      planner index advances modulo 18), and `head` moves to `next_head`. Only
      the producer's state and the written slots change. */
  function EmitSegment(e: Engine, cfg: Config): (r: Engine)
    requires Inv(e, cfg) && e.prepBlock.Some? && e.tail != e.nextHead
    ensures r == e.(segmentBuffer := r.segmentBuffer, segmentData := r.segmentData,
                    prepIndex := r.prepIndex, prepBlock := r.prepBlock,
                    head := e.nextHead, nextHead := r.nextHead)
  {
    var di := e.dataPrepIndex;
    var d := e.segmentData[di];
    var n := SegmentSteps(d.stepEventsRemaining, d.decelerateAfter);
    var remaining := d.stepEventsRemaining - n;
    var flag := SegmentFlag(remaining, d.decelerateAfter);
    var eob := remaining == 0;
    e.(segmentBuffer := e.segmentBuffer[e.head := Segment(n, di, flag)],
       segmentData := e.segmentData[di := d.(stepEventsRemaining := remaining,
                                             decelerateAfter := d.decelerateAfter - n)],
       prepIndex := if eob then NextBlockPlIndex(e.prepIndex) else e.prepIndex,
       prepBlock := if eob then None else e.prepBlock,
       head := e.nextHead,
       nextHead := NextBlockIndex(e.nextHead))
  }

  /** Emitting keeps the invariant: the published slot has at least one step,
      and the block stays in preparation only while it has steps left. */
  lemma EmitSegmentInv(e: Engine, cfg: Config)
    requires Inv(e, cfg) && e.prepBlock.Some? && e.tail != e.nextHead
    ensures Inv(EmitSegment(e, cfg), cfg)
  {
    var r := EmitSegment(e, cfg);
    forall i | 0 <= i < SEGMENT_BUFFER_SIZE && Queued(r.tail, r.head, i)
      ensures r.segmentBuffer[i].nStep >= 1
    {
      QueuedAfterPublish(e.tail, e.head, i);
    }
    assert Shape(r);
    assert RingInv(r);
    assert PrepInv(r);
    assert ConsumerInv(r, cfg);
  }

  /** One pass of the producer's loop, run only while `next_head != tail`.
      None: no block is in preparation and the planner has none at the
      preparation index, so the producer returns without writing. Otherwise a
      segment is published at `head`, and nothing but the producer's state and
      that slot changes. */
  function PrepIteration(e: Engine, cfg: Config): (r: Option<Engine>)
    requires Inv(e, cfg) && e.tail != e.nextHead
    ensures r.None? <==> e.prepBlock.None? && BlockByIndex(e.planner, e.prepIndex).None?
    ensures r.Some? ==> r.value.head == e.nextHead
    ensures r.Some? ==> r.value == e.(segmentBuffer := r.value.segmentBuffer, segmentData := r.value.segmentData,
                                     prepIndex := r.value.prepIndex, prepBlock := r.value.prepBlock,
                                     dataPrepIndex := r.value.dataPrepIndex,
                                     head := r.value.head, nextHead := r.value.nextHead)
    ensures r.Some? ==> |r.value.segmentBuffer| == SEGMENT_BUFFER_SIZE
    ensures r.Some? ==> r.value.segmentBuffer == e.segmentBuffer[e.head := r.value.segmentBuffer[e.head]]
  {
    if e.prepBlock.None? then
      match BlockByIndex(e.planner, e.prepIndex)
      case None => None
      case Some(b) => Some(EmitSegment(StartBlock(e, cfg, b), cfg))
    else Some(EmitSegment(e, cfg))
  }

  lemma PrepIterationInv(e: Engine, cfg: Config)
    requires Inv(e, cfg) && e.tail != e.nextHead
    ensures PrepIteration(e, cfg).Some? ==> Inv(PrepIteration(e, cfg).value, cfg)
  {
    if e.prepBlock.None? {
      match BlockByIndex(e.planner, e.prepIndex)
      case None =>
      case Some(b) => EmitSegmentInv(StartBlock(e, cfg, b), cfg);
    } else {
      EmitSegmentInv(e, cfg);
    }
  }

  /** A whole call of the producer: loop until the ring is full or the planner
      has nothing more to prepare. */
  function PrepSpec(e: Engine, cfg: Config): (r: Engine)
    requires Inv(e, cfg)
    ensures Inv(r, cfg)
    decreases Free(e.tail, e.nextHead)
  {
    if e.tail == e.nextHead then e
    else
      PrepIterationInv(e, cfg);
      match PrepIteration(e, cfg)
      case None => e
      case Some(e1) => PrepSpec(e1, cfg)
  }

  // ---------------------------------------------------------------- properties

  /** The producer follows the block slicing: the segment it publishes at
      `head` is the first segment of the slicing of what is left of the block
      in preparation, and what is left afterwards slices into exactly the
      remaining segments. The block stays in preparation exactly while it has
      step events left; when it has none, the planner index moves on. The
      rates of the data slot are untouched. */
  lemma EmitFollowsSlicing(e: Engine, cfg: Config)
    requires Inv(e, cfg) && e.prepBlock.Some? && e.tail != e.nextHead
    ensures var d := e.segmentData[e.dataPrepIndex];
      var s := Slicing(d.stepEventsRemaining, d.decelerateAfter);
      var r := EmitSegment(e, cfg);
      var d' := r.segmentData[e.dataPrepIndex];
      && Slice(r.segmentBuffer[e.head].nStep, r.segmentBuffer[e.head].flag) == s[0]
      && r.segmentBuffer[e.head].dataIndex == e.dataPrepIndex
      && d' == d.(stepEventsRemaining := d'.stepEventsRemaining, decelerateAfter := d'.decelerateAfter)
      && (d'.stepEventsRemaining == 0 <==> |s| == 1)
      && (d'.stepEventsRemaining > 0 ==>
            && Slicing(d'.stepEventsRemaining, d'.decelerateAfter) == s[1..]
            && r.prepBlock == e.prepBlock && r.prepIndex == e.prepIndex)
      && (d'.stepEventsRemaining == 0 ==>
            r.prepBlock.None? && r.prepIndex == NextBlockPlIndex(e.prepIndex))
  {
  }

  /** The whole producer call stops only on a full ring or on a missing
      planner block. */
  lemma {:induction false} PrepSpecStops(e: Engine, cfg: Config)
    requires Inv(e, cfg)
    ensures var r := PrepSpec(e, cfg);
      r.nextHead == r.tail || (r.prepBlock.None? && BlockByIndex(r.planner, r.prepIndex).None?)
    decreases Free(e.tail, e.nextHead)
  {
    if e.tail != e.nextHead {
      PrepIterationInv(e, cfg);
      match PrepIteration(e, cfg)
      case None =>
      case Some(e1) => PrepSpecStops(e1, cfg);
    }
  }

  /** The whole producer call changes nothing but the rings, `head`,
      `next_head` and the producer's own state: the consumer's registers and
      pointers, `tail`, the position, the planner and the run state are
      untouched. */
  lemma {:induction false} PrepSpecFrame(e: Engine, cfg: Config)
    requires Inv(e, cfg)
    ensures ProducerOnly(e, PrepSpec(e, cfg))
    decreases Free(e.tail, e.nextHead)
  {
    if e.tail != e.nextHead {
      PrepIterationInv(e, cfg);
      match PrepIteration(e, cfg)
      case None =>
      case Some(e1) =>
        PrepSpecFrame(e1, cfg);
        ProducerOnlyTrans(e, e1, PrepSpec(e1, cfg));
    }
  }

  /** `r` differs from `e` only in the rings, `head`, `next_head` and the
      producer's own state. */
  predicate ProducerOnly(e: Engine, r: Engine) {
    r == e.(segmentBuffer := r.segmentBuffer, segmentData := r.segmentData,
            head := r.head, nextHead := r.nextHead, prepBlock := r.prepBlock,
            prepIndex := r.prepIndex, dataPrepIndex := r.dataPrepIndex)
  }

  lemma ProducerOnlyTrans(e: Engine, e1: Engine, r: Engine)
    requires ProducerOnly(e, e1) && ProducerOnly(e1, r)
    ensures ProducerOnly(e, r)
  {
  }

  /** The producer never overwrites a queued segment and never shrinks the
      queue: it only publishes behind `head`. */
  lemma {:induction false} PrepSpecKeepsQueued(e: Engine, cfg: Config)
    requires Inv(e, cfg)
    ensures var r := PrepSpec(e, cfg);
      && r.tail == e.tail
      && (forall i | 0 <= i < SEGMENT_BUFFER_SIZE && Queued(e.tail, e.head, i) ::
            r.segmentBuffer[i] == e.segmentBuffer[i])
      && Count(r.tail, r.head) >= Count(e.tail, e.head)
    decreases Free(e.tail, e.nextHead)
  {
    if e.tail != e.nextHead {
      PrepIterationInv(e, cfg);
      match PrepIteration(e, cfg)
      case None =>
      case Some(e1) =>
        PrepSpecKeepsQueued(e1, cfg);
        forall i | 0 <= i < SEGMENT_BUFFER_SIZE && Queued(e.tail, e.head, i)
          ensures Queued(e1.tail, e1.head, i) && e1.segmentBuffer[i] == e.segmentBuffer[i]
        {
          QueuedAfterPublish(e.tail, e.head, i);
        }
        CountPlusFree(e.tail, e.head);
        CountPlusFree(e1.tail, e1.head);
    }
  }
}

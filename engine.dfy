/** The state of the whole segment pipeline as one value, and its invariant.
    The class in stepper.dfy is proved to implement the operations on this
    value defined in consumer.dfy, producer.dfy and lifecycle.dfy. */
module EngineState {
  import opened StepperTypes
  import opened SegmentRing
  import opened PlannerModel

  /** Everything the stepper reads or writes: its registers `st`, the two rings
      and their indices, the busy guard, the current and prepared block
      pointers (segment and data pointers as ring indices), the machine
      position, the run state, the cycle-stop request, the auto-start flag,
      whether the tick source runs, and the planner. */
  datatype Engine = Engine(
    st: St,
    segmentBuffer: seq<Segment>,
    segmentData: seq<SegData>,
    tail: nat,
    head: nat,
    nextHead: nat,
    busy: bool,
    currentBlock: Option<Block>,
    currentSegment: nat,
    currentData: nat,
    prepBlock: Option<Block>,
    prepIndex: nat,
    dataPrepIndex: nat,
    position: seq<int>,
    state: SysState,
    cycleStop: bool,
    autoStart: bool,
    ticking: bool,
    planner: Planner)

  /** The parts that no operation ever breaks: sizes, index ranges of the
      stored data indices, rates that fit, a valid planner. */
  predicate Shape(e: Engine) {
    && |e.segmentBuffer| == SEGMENT_BUFFER_SIZE && |e.segmentData| == SEGMENT_BUFFER_SIZE
    && e.tail < SEGMENT_BUFFER_SIZE && e.head < SEGMENT_BUFFER_SIZE
    && e.dataPrepIndex < SEGMENT_BUFFER_SIZE && e.prepIndex < BLOCK_BUFFER_SIZE
    && (forall i | 0 <= i < SEGMENT_BUFFER_SIZE :: e.segmentBuffer[i].dataIndex < SEGMENT_BUFFER_SIZE)
    && (forall i | 0 <= i < SEGMENT_BUFFER_SIZE :: ValidSegData(e.segmentData[i]))
    && ValidPlanner(e.planner)
    && |e.position| == 3
    && e.st.deltaD <= MAX_RATE
  }

  /** Bresenham counters of the executing block stay in [0, step_event_count). */
  predicate CountersInRange(st: St, b: Block)
    requires ValidBlock(b)
  {
    && 0 <= st.counterX < b.stepEventCount
    && 0 <= st.counterY < b.stepEventCount
    && 0 <= st.counterZ < b.stepEventCount
  }

  /** The engine invariant. Ring: `next_head` is one past `head`, and every
      queued segment has at least one step. Producer: a block in preparation
      still has steps left. Consumer: once a block was loaded, its Bresenham
      counters are in range and `d_per_tick` is the floored rate; a loaded
      segment is the one at `tail`, still queued, with steps left. */
  predicate Inv(e: Engine, cfg: Config) {
    Shape(e) && RingInv(e) && PrepInv(e) && ConsumerInv(e, cfg)
  }

  /** Ring part of the invariant. */
  predicate RingInv(e: Engine)
    requires Shape(e)
  {
    && e.nextHead == NextBlockIndex(e.head)
    && (forall i | 0 <= i < SEGMENT_BUFFER_SIZE && Queued(e.tail, e.head, i) :: e.segmentBuffer[i].nStep >= 1)
  }

  /** Producer part of the invariant. */
  predicate PrepInv(e: Engine)
    requires Shape(e)
  {
    e.prepBlock.Some? ==>
      ValidBlock(e.prepBlock.value) && e.segmentData[e.dataPrepIndex].stepEventsRemaining > 0
  }

  /** Consumer part of the invariant. */
  predicate ConsumerInv(e: Engine, cfg: Config)
    requires Shape(e)
  {
    && (e.currentBlock.Some? ==>
          && ValidBlock(e.currentBlock.value)
          && e.currentData < SEGMENT_BUFFER_SIZE
          && CountersInRange(e.st, e.currentBlock.value)
          && e.st.dPerTick == RateFloor(e.st.deltaD, cfg))
    && (e.st.loadFlag != LoadBlock ==> e.currentBlock.Some?)
    && (e.st.loadFlag == LoadNoop ==>
          e.currentSegment == e.tail && e.head != e.tail && e.st.segmentStepsRemaining >= 1)
  }

  /** What the tick relies on from the planner: when a block load is due and a
      segment is queued, the planner still holds that block (the tick uses the
      current block without checking for its absence). */
  predicate BlockAvailable(e: Engine)
    requires ValidPlanner(e.planner)
  {
    e.st.loadFlag == LoadBlock && e.head != e.tail ==> CurrentBlock(e.planner).Some?
  }
}

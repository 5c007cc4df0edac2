/** Machine-width integers, constants and records shared by the stepper
    segment pipeline: planner blocks, segment descriptors, per-block segment
    data and the engine configuration taken from config.h and settings. */
module StepperTypes {

  /** Capacity of both the segment ring and the segment data ring. */
  const SEGMENT_BUFFER_SIZE: nat := 10

  /** Capacity of the planner's block ring (hard-coded in the block index step). */
  const BLOCK_BUFFER_SIZE: nat := 18

  /** Fixed step count the producer starts every segment with. */
  const SEGMENT_STEP_CAP: nat := 250

  /** Upper bound on the planner's integer rates and step counts: they are
      produced from floats by the rate conversion and stay well below 2^31. */
  const MAX_RATE: nat := 0x7FFF_FFFF

  type u8 = x: int | 0 <= x < 0x100
  type u32 = x: int | 0 <= x < 0x1_0000_0000
  type i32 = x: int | -0x8000_0000 <= x < 0x8000_0000

  /** Two's-complement truncation to 32 signed bits of the exact result of an
      int32 and uint32 mixed addition or subtraction, as the arithmetic on
      `counter_d` behaves: the operands' ranges keep the exact result within
      one wrap of the int32 range. */
  function Wrap32(x: int): (r: i32)
    requires -0x1_8000_0000 <= x < 0x1_8000_0000
    ensures -0x8000_0000 <= x < 0x8000_0000 ==> r == x
    ensures r == x || r == x + 0x1_0000_0000 || r == x - 0x1_0000_0000
  {
    if x < -0x8000_0000 then x + 0x1_0000_0000
    else if x >= 0x8000_0000 then x - 0x1_0000_0000
    else x
  }

  /** `x--` on a uint8: 0 wraps to 255. */
  function Dec8(x: u8): (r: u8)
    ensures x > 0 ==> r == x - 1
    ensures x == 0 ==> r == 255
  {
    if x == 0 then 255 else x - 1
  }

  /** Assignment of the integer `a - b` to a uint8 (reduction modulo 256). */
  function Sub8(a: int, b: int): (r: u8)
    ensures 0 <= a - b < 0x100 ==> r == a - b
    ensures (r - (a - b)) % 0x100 == 0
  {
    (a - b) % 0x100
  }

  datatype Option<T> = None | Some(value: T)

  /** `ramp_type`: 0 means no ramping (cruise), which the tick tests as false. */
  datatype RampType = RampNoopCruise | RampAccel | RampDecel

  /** `load_flag`: what the tick must load before running. */
  datatype LoadFlag = LoadNoop | LoadLine | LoadBlock

  /** Segment flag set by the producer. */
  datatype SegFlag = StNoop | StEndOfBlock | StDecel | StDecelEob

  predicate IsEndOfBlock(f: SegFlag) { f == StEndOfBlock || f == StDecelEob }
  predicate IsDecel(f: SegFlag) { f == StDecel || f == StDecelEob }

  /** Run state of the surrounding controller (`sys.state`), restricted to the
      states the stepper reads or writes. */
  datatype SysState = StateIdle | StateQueued | StateCycle | StateHold

  /** A planner block as the stepper sees it. The rates are already integer
      (the floating-point conversion is outside this model) and
      `decelerateAfter` is what the trapezoid calculator returns for the block. */
  datatype Block = Block(
    steps: seq<nat>,
    stepEventCount: nat,
    directionBits: Bits,
    initialRate: nat,
    nominalRate: nat,
    rateDelta: nat,
    dNext: nat,
    decelerateAfter: nat)

  /** What the planner guarantees of a block it hands out: three axes, a positive
      step-event count that is at least every axis count, and rates that fit. */
  predicate ValidBlock(b: Block) {
    && |b.steps| == 3
    && 0 < b.stepEventCount <= MAX_RATE
    && (forall a | 0 <= a < 3 :: b.steps[a] <= b.stepEventCount)
    && b.initialRate <= MAX_RATE
    && b.nominalRate <= MAX_RATE
    && b.rateDelta <= MAX_RATE
    && b.dNext <= MAX_RATE
    && b.decelerateAfter <= MAX_RATE
  }

  /** One `segment_data` entry: parameters shared by every segment of a block. */
  datatype SegData = SegData(
    stepEventsRemaining: int,
    dNext: u32,
    initialRate: u32,
    nominalRate: u32,
    rateDelta: u32,
    decelerateAfter: int)

  predicate ValidSegData(d: SegData) {
    && d.dNext <= MAX_RATE
    && d.initialRate <= MAX_RATE
    && d.nominalRate <= MAX_RATE
    && d.rateDelta <= MAX_RATE
  }

  /** A zero-initialised `segment_data` entry. */
  const ZERO_DATA: SegData := SegData(0, 0, 0, 0, 0, 0)

  /** One `segment_buffer` entry. */
  datatype Segment = Segment(nStep: u8, dataIndex: u8, flag: SegFlag)

  /** A zero-initialised `segment_buffer` entry. */
  const ZERO_SEGMENT: Segment := Segment(0, 0, StNoop)

  /** Compile-time constants of config.h and the settings the core reads:
      `ISR_TICKS_PER_ACCELERATION_TICK`, `MINIMUM_STEP_RATE`,
      `settings.invert_mask`, and the step and direction bit positions
      of the three axes on the stepping port. */
  datatype Config = Config(
    accelTicks: nat,
    minStepRate: nat,
    invertMask: Bits,
    stepBits: seq<nat>,
    dirBits: seq<nat>)

  predicate ValidConfig(c: Config) {
    && 2 <= c.accelTicks <= 255
    && c.minStepRate <= MAX_RATE
    && |c.stepBits| == 3 && |c.dirBits| == 3
    && (forall a | 0 <= a < 3 :: c.stepBits[a] < 8 && c.dirBits[a] < 8)
    && (forall a, a' | 0 <= a < 3 && 0 <= a' < 3 :: c.stepBits[a] != c.dirBits[a'])
  }

  /** The stepper's working registers (`stepper_t st`): the three Bresenham
      counters, the steps left in the loaded segment, the inverse-time counter
      and rate, the staged port bits, the load request and the ramp state.
      `step_pulse_time` is a timer reload value and is not part of this model. */
  datatype St = St(
    counterX: int,
    counterY: int,
    counterZ: int,
    segmentStepsRemaining: u8,
    counterD: i32,
    deltaD: u32,
    dPerTick: u32,
    executeStep: bool,
    outBits: Bits,
    loadFlag: LoadFlag,
    rampCount: u8,
    rampType: RampType)

  /** `memset(&st, 0, sizeof(st))`: every register zero, ramp type 0 is cruise,
      load flag 0 is no-op. */
  const ZERO_ST: St := St(0, 0, 0, 0, 0, 0, 0, false, {}, LoadNoop, 0, RampNoopCruise)

  /** A uint8 port value or mask, as the set of the positions (0 to 7) of its
      1-bits: `x | (1 << k)` is `x + {k}` and `x & (1 << k) != 0` is `k in x`. */
  type Bits = set<nat>

  /** `a ^ b` on bytes: the bits set in exactly one of the two. */
  function Xor(a: Bits, b: Bits): (r: Bits)
    ensures forall k :: k in r <==> (k in a) != (k in b)
  {
    (a - b) + (b - a)
  }

  /** The step rate the tick runs at: the rate, raised to the minimum step rate
      when it is below it. */
  function RateFloor(deltaD: nat, cfg: Config): (r: nat)
    ensures r >= deltaD && r >= cfg.minStepRate
    ensures r == deltaD || r == cfg.minStepRate
  {
    if deltaD < cfg.minStepRate then cfg.minStepRate else deltaD
  }
}

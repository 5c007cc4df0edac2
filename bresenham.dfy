/** The per-axis Bresenham counters of the step event: the inverse-time
    counter decides when a step event happens, these counters decide which
    axes step at that event. */
module Bresenham {

  /** One step event on one axis: subtract the axis' step count from its
      counter; when the counter goes negative the axis steps and the block's
      step-event count is added back. Returns the new counter and whether the
      axis stepped. */
  function AxisStep(counter: int, steps: nat, events: nat): (r: (int, bool))
    requires 0 <= counter < events && steps <= events
    ensures 0 <= r.0 < events
    ensures r.1 <==> counter < steps
    ensures r.0 - counter == (if r.1 then events else 0) - steps
  {
    var c := counter - steps;
    if c < 0 then (c + events, true) else (c, false)
  }

  /** Position update for one axis at a step event: -1 when the axis steps with
      its direction bit set, +1 when it steps with the bit clear. */
  function Move(position: int, stepped: bool, negative: bool): (r: int)
    ensures !stepped ==> r == position
    ensures stepped ==> r == position + (if negative then -1 else 1)
  {
    if !stepped then position else if negative then position - 1 else position + 1
  }

  /** A step count as a displacement: negative when the direction bit is set. */
  function Signed(n: nat, negative: bool): int {
    if negative then -(n as int) else n
  }

  /** Counter, number of steps and position of one axis after `k` step events
      starting from counter `c` and position `pos`. */
  function AxisRun(c: int, pos: int, steps: nat, events: nat, negative: bool, k: nat): (r: (int, nat, int))
    requires 0 <= c < events && steps <= events
    ensures 0 <= r.0 < events && r.1 <= k
    decreases k
  {
    if k == 0 then (c, 0, pos)
    else
      var p := AxisRun(c, pos, steps, events, negative, k - 1);
      var s := AxisStep(p.0, steps, events);
      (s.0, p.1 + (if s.1 then 1 else 0), Move(p.2, s.1, negative))
  }

  /** `(a + 1) * b == a * b + b`, the one product identity the balance needs. */
  lemma MulSucc(a: int, b: int)
    ensures (a + 1) * b == a * b + b
  {
  }

  /** After `k` events the counter has lost `k * steps` and regained `events` per
      step taken, and the position has moved by one per step taken. */
  lemma {:induction false} AxisRunBalance(c: int, pos: int, steps: nat, events: nat, negative: bool, k: nat)
    requires 0 <= c < events && steps <= events
    ensures AxisRun(c, pos, steps, events, negative, k).0
            == c - k * steps + AxisRun(c, pos, steps, events, negative, k).1 * events
    ensures AxisRun(c, pos, steps, events, negative, k).2
            == pos + Signed(AxisRun(c, pos, steps, events, negative, k).1, negative)
  {
    if k > 0 {
      AxisRunBalance(c, pos, steps, events, negative, k - 1);
      var p := AxisRun(c, pos, steps, events, negative, k - 1);
      var s := AxisStep(p.0, steps, events);
      var n := p.1 + (if s.1 then 1 else 0);
      assert AxisRun(c, pos, steps, events, negative, k) == (s.0, n, Move(p.2, s.1, negative));
      MulSucc(k - 1, steps);
      MulSucc(p.1, events);
    }
  }

  /** `(a - b) * e == a * e - b * e`. */
  lemma MulSubDistrib(a: int, b: int, e: int)
    ensures (a - b) * e == a * e - b * e
  {
  }

  /** A product with a positive factor keeps at least that factor's size when the
      other factor is non-zero. */
  lemma MulAwayFromZero(d: int, events: int)
    requires events > 0
    ensures d >= 1 ==> d * events >= events
    ensures d <= -1 ==> d * events <= -events
  {
    if d >= 1 {
      MulSucc(d - 1, events);
      assert (d - 1) * events >= 0;
    } else if d <= -1 {
      MulSucc(d, events);
      assert (d + 1) * events <= 0;
    }
  }

  /** An integer multiple of a positive `events` strictly between `-events` and
      `events` is zero. */
  lemma MultipleInOpenRange(d: int, events: int)
    requires events > 0
    requires -events < d * events < events
    ensures d == 0
  {
    MulAwayFromZero(d, events);
  }

  /** Bresenham exactness: seeded with `events >> 1`, over exactly `events` step
      events an axis steps exactly `steps` times and its position moves by
      exactly `steps` in the direction of its direction bit. */
  lemma {:induction false} BresenhamExact(pos: int, steps: nat, events: nat, negative: bool)
    requires 0 < events && steps <= events
    ensures AxisRun(events / 2, pos, steps, events, negative, events).1 == steps
    ensures AxisRun(events / 2, pos, steps, events, negative, events).2
            == pos + Signed(steps, negative)
  {
    var c := events / 2;
    var r := AxisRun(c, pos, steps, events, negative, events);
    AxisRunBalance(c, pos, steps, events, negative, events);
    MulSubDistrib(r.1, steps, events);
    MultipleInOpenRange(r.1 - steps, events);
  }
}

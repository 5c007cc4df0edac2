# grbl stepper segment pipeline, modelled in Dafny

This project models the integer core of grbl's `stepper.c`. That core is a segment pipeline between the motion planner and the stepper interrupt.

- **Producer.** `st_prep_buffer` cuts each planner block into segments of at most 250 step events. It writes them into a 10-slot ring (`segment_buffer`). Each block's step count, rates and deceleration point go into a parallel 10-slot ring (`segment_data`).
- **Consumer.** The Timer2 compare interrupt is the tick. Each tick it:
  - loads the segment at `tail`, and the planner block's registers when a new block starts;
  - steps a trapezoid ramp on the inverse-time rate `delta_d`;
  - counts the inverse-time distance counter `counter_d` down;
  - on each step event, runs three Bresenham counters that decide which axes step;
  - moves `sys.position` by one step per stepped axis;
  - retires the segment when its steps are done.
- **Lifecycle gates.** `st_reset`, `st_wake_up`, `st_go_idle`, `st_cycle_start`, `st_feed_hold` and `st_cycle_reinitialize`.

## Layout

- `types.dfy` (`StepperTypes`): the machine-width types and records.
  - `int32` wrap, and the `uint8` decrement and subtraction, are spelled out.
  - A `uint8` port byte is the set of its 1-bit positions. An OR with `1 << k` is adding `k`, a bit test is membership, and xor is symmetric difference.
- `ring.dfy` (`SegmentRing`):
  - `next_block_index` (wraps at 10) and `next_block_pl_index` (wraps at a hard-coded 18);
  - which slots are queued;
  - the queued count and the free count.
- `bresenham.dfy`, `ramp.dfy`, `slicing.dfy`: the three arithmetic kernels with their properties.
  - Bresenham exactness.
  - Ramp monotonicity, the cruise clamp and the approach to zero.
  - Slicing a block into segments: completeness, flags and the exact deceleration point.
- `planner.dfy` (`PlannerModel`): the planner's block ring as the stepper sees it.
  - `plan_get_block_by_index`, `plan_get_current_block` and `plan_discard_current_block`.
  - planner.c is not part of this model.
- `engine.dfy` (`EngineState`): all the state the subsystem reads or writes, as one value `Engine`, and its invariant `Inv`.
- `consumer.dfy`, `producer.dfy`, `lifecycle.dfy`: the operations as functions on `Engine`.
  - `TickSpec`, `PrepSpec`, the reset and the gates.
  - Lemmas stating what the source promises of each.
- `stepper.dfy` (`Stepper`): the class `Stepper`.
  - It holds the registers, the two rings as arrays, the ring indices, the block pointers, the position, the run state and the planner.
  - Its methods (`Tick`, `PrepBuffer`, `Reset`, `WakeUp`, `GoIdle`, `CycleStart`, `FeedHold`, `CycleReinitialize` and their step-by-step helpers) change those fields in place.
  - Each method is proved to leave `Snapshot()` equal to the matching function of the old snapshot, and to keep `Valid()`.

Pointers of the source become ring indices: the current and prepared segment data, and the current segment. A planner block pointer becomes an `Option<Block>`.

## Model

| member | source | states |
|---|---|---|
| `StepperTypes.Wrap32` | stepper.c:324-328 | `counter_d` arithmetic in int32: the exact result when it fits, otherwise that result shifted by 2^32 |
| `StepperTypes.Dec8` | stepper.c:357 | a uint8 decrement: one less, except 0, which wraps to 255 |
| `StepperTypes.Sub8` | stepper.c:278 | assigning `period - ramp_count` to a uint8: the difference itself when in 0..255, otherwise congruent to it modulo 256 |
| `StepperTypes.Xor` | stepper.c:378 | applying the invert mask: a bit is set exactly when it is set in one operand and not the other |
| `StepperTypes.RateFloor` | stepper.c:268-269 | `d_per_tick` is the rate raised to the minimum step rate: at least both, and equal to one of them |
| `SegmentRing.NextBlockIndex` | stepper.c:108-113 | the next segment ring slot is `(i + 1) mod 10` and stays below 10 |
| `SegmentRing.NextBlockPlIndex` | stepper.c:115-120 | the next planner ring slot is `(i + 1) mod 18`, not mod the segment ring size |
| `SegmentRing.Count` | stepper.c:227 | the number of queued segments is below 10, and zero exactly when `head == tail` |
| `SegmentRing.Free` | stepper.c:515 | the writes left before the ring is full: zero exactly when `next_head == tail` |
| `SegmentRing.CountPlusFree` | stepper.c:515 | queued plus free is always 9: one slot stays empty so that full and empty differ |
| `SegmentRing.TailQueuedIffNonEmpty` | stepper.c:227 | the slot at `tail` is queued exactly when the ring is not empty; the slot at `head` never is |
| `SegmentRing.QueuedAfterPublish` | stepper.c:631-632 | publishing at `head` while `next_head != tail` adds exactly the head slot to the queued slots |
| `SegmentRing.QueuedAfterRetire` | stepper.c:370 | retiring the tail of a non-empty ring removes exactly the tail slot from the queued slots |
| `Bresenham.AxisStep` | stepper.c:334-340 | one step event on one axis: the counter stays in `[0, step_event_count)`, the axis steps exactly when the counter was below its step count, and the counter changes by `step_event_count` on a step minus the axis' steps |
| `Bresenham.Move` | stepper.c:338-339 | an axis that does not step keeps its position; a stepping axis moves by -1 when its direction bit is set and +1 otherwise |
| `Bresenham.AxisRun` | stepper.c:334-354 | over any number of step events an axis' counter stays in range, and it steps at most once per event |
| `Bresenham.AxisRunBalance` | stepper.c:334-354 | after k step events the counter has lost k times the axis' steps and regained the event count once per step taken, and the position has moved by one per step in the direction of the direction bit |
| `Bresenham.BresenhamExact` | stepper.c:252-254 | seeded with `step_event_count >> 1`, over `step_event_count` events an axis steps exactly `steps[a]` times and its position moves by exactly `steps[a]` in its direction |
| `Ramp.AccelAdjust` | stepper.c:299-305 | an acceleration adjustment adds `rate_delta`; it switches to cruise exactly when the sum reaches the nominal rate, and then the rate is exactly the nominal rate; it never passes the nominal rate |
| `Ramp.DecelAdjust` | stepper.c:306-316 | a deceleration adjustment subtracts `rate_delta` when the rate exceeds it, otherwise halves; the rate never increases, never wraps below zero, and strictly drops while positive |
| `Ramp.RampTick` | stepper.c:295-321 | no ramping while cruising; otherwise the counter ticks down and reloads to the full period at zero; only a reload changes the rate or ramp type, and every reload re-floors `d_per_tick`; deceleration never raises the rate; acceleration never lowers it nor passes the nominal rate |
| `Ramp.RampRun` | stepper.c:295-321 | the rate stays within the 31-bit bound over any number of ticks |
| `Ramp.AccelPhaseMonotone` | stepper.c:299-305 | through an acceleration phase the rate never decreases and never exceeds the nominal rate, the ramp never turns to deceleration by itself, and once cruising it stays cruising at exactly the nominal rate |
| `Ramp.CruiseIsFixed` | stepper.c:295 | cruise absorbs: later ticks leave the ramp registers and the rate as they are |
| `Ramp.DecelPhaseMonotone` | stepper.c:306-320 | through a deceleration phase the ramp stays in deceleration, the rate never increases, and `d_per_tick` stays the floored rate, at least the minimum step rate |
| `Ramp.DecelIterate` | stepper.c:306-316 | a fact about `DecelAdjust` alone: repeated deceleration adjustments never raise the rate |
| `Ramp.DecelReachesZero` | stepper.c:306-316 | a fact about `DecelAdjust` alone: with a positive `rate_delta`, n adjustments leave at most `delta_d - n`, so the rate reaches zero and stays there |
| `Ramp.RampRunAdd` | stepper.c:295-321 | running `a + b` ramp ticks is running `a` ticks and then `b` |
| `Ramp.DecelCountdown` | stepper.c:295-297 | under RAMP_DECEL, the ticks before the ramp counter runs out only count it down; rate and ramp type stay |
| `Ramp.DecelPeriod` | stepper.c:295-321 | under RAMP_DECEL, one full period of ticks from a fresh reload applies exactly one deceleration adjustment, re-floors `d_per_tick` and reloads the counter |
| `Ramp.DecelRunIsIterate` | stepper.c:295-321 | the tick's deceleration phase is the iterated adjustment: n full periods from a fresh reload leave the rate at `DecelIterate(delta_d, rate_delta, n)`, floored into `d_per_tick`, with the ramp still decelerating |
| `Ramp.DecelRunReachesZero` | stepper.c:306-316 | with a positive `rate_delta`, `delta_d` full periods of the tick's deceleration bring the rate to zero |
| `BlockSlicing.SegmentSteps` | stepper.c:571-587 | the segment step count is between 1 and 250, never exceeds the block's remaining steps, never passes a deceleration point still ahead, and equals one of those three bounds |
| `BlockSlicing.SegmentFlag` | stepper.c:609-627 | the flag marks end of block exactly when no step events remain after the segment, and deceleration exactly when `decelerate_after` was 0 before the segment's own decrement |
| `BlockSlicing.Slicing` | stepper.c:567-628 | the segments the producer emits for a block from a given point form a non-empty sequence |
| `BlockSlicing.SlicingComplete` | stepper.c:609-618 | a block's segments add up to exactly its remaining step events, each has 1 to 250 steps, and only the last one ends the block |
| `BlockSlicing.SlicingDecelPoint` | stepper.c:583-628 | a segment is flagged DECEL or DECEL_EOB exactly when the steps before it equal the initial `decelerate_after`, and no segment straddles that point |
| `BlockSlicing.SlicingExampleDecelAfter800` | stepper.c:571-628 | 1000 steps decelerating after 800 give segments of 250, 250, 250 and 50 steps, then one DECEL_EOB segment of 200 steps |
| `BlockSlicing.SlicingExampleDecelAfter100` | stepper.c:612-628 | when deceleration starts after 100 steps, only the first segment after that point is DECEL, since `decelerate_after` goes negative; the last segment is END_OF_BLOCK, not DECEL_EOB |
| `PlannerModel.BlockByIndex` | stepper.c:519-520 | the planner block at an index, absent at the planner's head; a block returned is well formed |
| `PlannerModel.CurrentBlock` | stepper.c:244 | the planner block being executed, absent when the planner is empty; a block returned is well formed |
| `PlannerModel.DiscardCurrentBlock` | stepper.c:363 | releasing the current block of a non-empty planner advances its tail one slot mod 18; an empty planner is unchanged; the planner stays valid and neither its blocks nor its head change |
| `Consumer.LoadBlockRegisters` | stepper.c:243-269 | loading a new block sets: the planner's current block; the data slot the tail segment names; three Bresenham counters at half the event count, hence in range; `counter_d` at `d_next`; the initial rate, floored; RAMP_ACCEL at half a period; the step flag; the block's direction bits xor the invert mask as the staged bits. Nothing else changes: not the rings, `tail`, `head`, the current segment, the position, the planner, the prep state, nor the other registers |
| `Consumer.DecelOnLoad` | stepper.c:274-281 | a DECEL or DECEL_EOB segment forces RAMP_DECEL; the counter goes to half a period from cruise, and otherwise to `period - ramp_count`, plus 256 when that is negative (the uint8 wrap); other segments leave the ramp untouched; only the ramp registers ever change |
| `Consumer.LoadSegment` | stepper.c:237-283 | loading at `tail` sets the current segment to `tail` and clears the load request; only registers and current pointers change |
| `Consumer.LoadSegmentInv` | stepper.c:224-283 | loading keeps the engine invariant |
| `Consumer.AxisEvent` | stepper.c:334-340 | one axis on the staged bits: the counter follows `AxisStep`; the position moves in the block's direction; the step bit is added only when the axis steps; all three direction bits stay the block's |
| `Consumer.AxesEvent` | stepper.c:330-354 | the X, Y and Z events in order, from the block's direction bits: each counter follows `AxisStep` and stays in range, and each position follows `Move` with the block's direction; the staged bits are the block's direction bits plus the step bit of exactly the axes that step; only counters and staged bits change |
| `Consumer.StepDone` | stepper.c:357-378 | the end of a step event decrements the uint8 steps remaining and xors the staged bits with the invert mask. While steps remain, the load request, planner and tail are kept. At 0 the tail advances one slot; an END_OF_BLOCK or DECEL_EOB segment discards the planner's current block and requests a block load, any other requests a line load and keeps the planner. Nothing else changes |
| `Consumer.StepEvent` | stepper.c:330-378 | a step event sets `execute_step`, stages for the port the block's direction bits plus the step bits of the stepping axes, inverted by the mask, and consumes one step of the segment; it changes only the registers, the position, the planner and the tail |
| `Consumer.StepEventInv` | stepper.c:330-378 | a step event keeps the engine invariant: the retired slot leaves the queue, counters stay in range |
| `Consumer.CountDown` | stepper.c:324 | the countdown changes only `counter_d` |
| `Consumer.Reload` | stepper.c:328 | the reload changes only `counter_d` |
| `Consumer.InverseTimeTick` | stepper.c:324-379 | the inverse-time part of the tick changes only registers, position, planner and tail |
| `Consumer.InverseTimeTickInv` | stepper.c:324-379 | it keeps the engine invariant |
| `Consumer.CounterDStep` | stepper.c:256-328 | with `0 <= d_per_tick <= d_next` and `counter_d` in `[0, d_next]`, the int32 countdown never wraps, and after a negative countdown the reload lands back in `[0, d_next)` without wrapping |
| `Consumer.InverseTimeTickCounter` | stepper.c:324-330 | under that assumption, a step event fires exactly when `counter_d < d_per_tick`: otherwise only `counter_d` drops by `d_per_tick`; if so, `counter_d` becomes `counter_d - d_per_tick + d_next`, `execute_step` is set and one segment step is consumed; either way `counter_d` stays in `[0, d_next]` |
| `Consumer.RampKeepsRateBelow` | stepper.c:295-321 | a ramp tick keeps `delta_d` and `d_per_tick` under any bound that the nominal rate and the minimum step rate respect, so a `d_next` above them keeps the assumption of stepper.c:256 through the block |
| `Consumer.RampStep` | stepper.c:295-321 | the ramp part of the tick changes only the registers |
| `Consumer.RampStepInv` | stepper.c:295-321 | it keeps the engine invariant and the loaded state |
| `Consumer.GoIdleState` | stepper.c:168-173 | going idle stops the tick source and clears `busy`, and nothing else |
| `Consumer.Output` | stepper.c:212-217 | emitting the staged bits clears `execute_step` and nothing else |
| `Consumer.OutputInv` | stepper.c:212-217 | emitting keeps the engine invariant |
| `Consumer.Loaded` | stepper.c:224-292 | after the load step no load is pending; only registers and current pointers changed |
| `Consumer.LoadedInv` | stepper.c:224-292 | the load step keeps the engine invariant |
| `Consumer.Run` | stepper.c:224-379 | a running tick changes only registers, tail, current pointers, position and planner |
| `Consumer.RunInv` | stepper.c:224-379 | a running tick keeps the engine invariant |
| `Consumer.TickSpec` | stepper.c:205-382 | a busy tick changes nothing; any tick leaves both rings, `head`, `next_head`, the producer state and the run state untouched |
| `Consumer.TickInv` | stepper.c:205-382 | every tick keeps the engine invariant |
| `Consumer.LoadNewBlock` | stepper.c:237-283 | the first segment of a block sets up: its steps; the current block; its data slot; counters at half the event count; `counter_d = d_next`; the initial rate floored; the block's direction bits xor the mask, staged. The ramp is RAMP_ACCEL at half a period, or for a deceleration segment RAMP_DECEL at `period - period/2` (the mirror of the half period just set) |
| `Consumer.LoadNewLine` | stepper.c:237-283 | a further segment of the same block sets only the steps and, for a deceleration segment, the ramp: RAMP_DECEL at half a period from cruise, or at `period - ramp_count` otherwise; block, data slot, counters and rate carry over |
| `Consumer.DecelMirrorWraps` | stepper.c:278 | mirroring a counter that was just reloaded to the full period gives 0, and the next tick's decrement wraps it to 255 |
| `Consumer.StepEventTail` | stepper.c:357-370 | a step event either keeps the tail segment (with steps left, no load pending, planner kept) or retires it after its last step: the tail advances one slot, and an END_OF_BLOCK or DECEL_EOB segment discards the planner's block with a block load requested, any other a line load with the planner kept |
| `Consumer.InverseTimeTickTail` | stepper.c:324-379 | the inverse-time part either keeps `tail` and the planner, or retires the tail segment as in `StepEventTail` |
| `Consumer.RunTail` | stepper.c:224-379 | a running tick either keeps `tail` and the planner, or retires the tail segment of a non-empty ring as in `StepEventTail` |
| `Consumer.TickTailAdvance` | stepper.c:357-370 | a tick retires at most one segment. The tail stays with the planner unchanged, or advances one slot mod 10 with one fewer segment queued and the steps remaining at 0; the retired segment's flag decides: END_OF_BLOCK or DECEL_EOB discards the planner's block and requests a block load, any other requests a line load |
| `Consumer.TickIdlesOnEmptyRing` | stepper.c:285-290 | a pending load with an empty ring stops the tick source and raises cycle stop; no counter, position, pointer or block changes |
| `Producer.InitData` | stepper.c:527-548 | a new block's data slot starts with its full step-event count, its rates, `d_next` and its deceleration point |
| `Producer.StartBlock` | stepper.c:518-548 | starting a block claims the next data slot, fills only that slot, and keeps the engine invariant |
| `Producer.EmitSegment` | stepper.c:567-632 | emitting changes only the rings, the prep state and the ring head; `head` becomes `next_head` |
| `Producer.EmitSegmentInv` | stepper.c:567-632 | emitting keeps the engine invariant: the published slot has at least one step |
| `Producer.PrepIteration` | stepper.c:515-632 | one pass returns without writing exactly when no block is in preparation and the planner has none at the prep index; otherwise it writes only the head slot and moves `head` to `next_head` |
| `Producer.PrepIterationInv` | stepper.c:515-632 | one pass keeps the engine invariant |
| `Producer.PrepSpec` | stepper.c:513-640 | a whole producer call keeps the engine invariant |
| `Producer.EmitFollowsSlicing` | stepper.c:567-632 | the emitted segment is the first of the slicing of what is left of the block, and what is left afterwards slices into exactly the rest; the block stays in preparation while it has steps, otherwise the prep index advances mod 18 |
| `Producer.PrepSpecStops` | stepper.c:515-520 | a producer call stops only on a full ring or a missing planner block |
| `Producer.PrepSpecFrame` | stepper.c:513-640 | a producer call changes nothing but the rings, `head`, `next_head` and its own prep state |
| `Producer.PrepSpecKeepsQueued` | stepper.c:567-632 | a producer call never moves `tail`, never overwrites a queued segment, and never shrinks the queue |
| `Lifecycle.ResetState` | stepper.c:396-407 | the reset as written: `tail = 0`, `next_head = 1`, registers zero with a block load pending, no current or prepared block, both prep indices 0, `busy` false; `head` is unchanged, and so are the rings, the position, the planner and the run state |
| `Lifecycle.ResetStateIdempotent` | stepper.c:396-407 | the reset as written, applied twice, is applied once |
| `Lifecycle.ResetCleared` | stepper.c:395-407 | the corrected reset: `head = tail = 0` and `next_head = 1`, so no segment is queued; registers, block pointers, prep indices and `busy` as in the reset as written, from which it differs in `head` alone |
| `Lifecycle.ResetStateInvIffHeadZero` | stepper.c:396-407 | the reset as written establishes the engine invariant exactly when `head` was already 0 |
| `Lifecycle.ResetStateStaleHead` | stepper.c:405-406 | a reset with `head == 5` breaks the invariant: `next_head` is not one past `head`, and the stale slots 0 to 4 count as five queued segments |
| `Lifecycle.ResetClearedInv` | stepper.c:396-407 | the corrected reset always leaves an empty ring with nine free slots, a block load pending, no block loaded or in preparation, and the invariant established |
| `Lifecycle.ResetClearedIdempotent` | stepper.c:396-407 | resetting twice is resetting once |
| `Lifecycle.WakeUpState` | stepper.c:150-158 | outside the cycle state, waking up changes nothing. In it, the staged bits become the invert mask, `execute_step` is cleared, a block load is requested and the tick source starts |
| `Lifecycle.CycleStartState` | stepper.c:439-445 | from the queued state, cycle start enters the cycle state, starts the tick source, requests a block load, clears `execute_step` and stages the invert mask, changing nothing else; from any other state nothing changes |
| `Lifecycle.FeedHoldState` | stepper.c:449-455 | from the cycle state, feed hold enters the hold state and clears auto-start; otherwise nothing changes; only those two fields ever change |
| `Lifecycle.CycleReinitializeState` | stepper.c:463-485 | the run state becomes idle and nothing else changes |
| `Lifecycle.WakeUpInv` | stepper.c:141-158 | waking up keeps the engine invariant |
| `Lifecycle.CycleStartGate` | stepper.c:439-445 | from the queued state, cycle start enters the cycle state, ticking, with a block load pending; from any other state nothing changes; the invariant is kept |
| `Lifecycle.FeedHoldGate` | stepper.c:449-455 | from the cycle state, feed hold enters the hold state and clears auto-start; otherwise nothing changes; the invariant is kept |
| `Lifecycle.TickIgnoresRunState` | stepper.c:205-382 | the tick never reads the run state or auto-start |
| `Lifecycle.FeedHoldCommutesWithTick` | stepper.c:449-455 | holding before or after a tick gives the same engine: the hold has no effect on stepping in this version |
| `Stepper.Stepper.constructor` | stepper.c:396-407 | a new stepper is the reset of an all-zero state and satisfies the invariant |
| `Stepper.Stepper.Reset` | stepper.c:396-407 | `st_reset` in place (with `head` cleared) gives the corrected reset of the old state and the invariant |
| `Stepper.Stepper.WakeUp` | stepper.c:141-158 | `st_wake_up` in place gives `WakeUpState` of the old state and keeps the invariant |
| `Stepper.Stepper.GoIdle` | stepper.c:168-186 | `st_go_idle` in place gives `GoIdleState` of the old state and keeps the invariant |
| `Stepper.Stepper.CycleStart` | stepper.c:439-445 | `st_cycle_start` in place gives `CycleStartState` of the old state and keeps the invariant |
| `Stepper.Stepper.FeedHold` | stepper.c:449-455 | `st_feed_hold` in place gives `FeedHoldState` of the old state and keeps the invariant |
| `Stepper.Stepper.CycleReinitialize` | stepper.c:463-485 | `st_cycle_reinitialize` in place gives `CycleReinitializeState` of the old state and keeps the invariant |
| `Stepper.Stepper.LoadBlockFromPlanner` | stepper.c:243-269 | the block load in place gives `LoadBlockRegisters` of the old state |
| `Stepper.Stepper.LoadSegmentFromTail` | stepper.c:237-283 | the segment load in place gives `LoadSegment` of the old state |
| `Stepper.Stepper.RampStepInPlace` | stepper.c:295-321 | the ramp in place gives `RampStep` of the old state |
| `Stepper.Stepper.StepAxis` | stepper.c:334-340 | one axis in place gives `AxisEvent` of its inputs |
| `Stepper.Stepper.StepAxes` | stepper.c:330-354 | the three axes in place give `AxesEvent` of the old registers and position |
| `Stepper.Stepper.StepDoneInPlace` | stepper.c:357-378 | the end of a step event in place gives `StepDone` of the old state |
| `Stepper.Stepper.StepEventInPlace` | stepper.c:330-378 | the step event in place gives `StepEvent` of the old state |
| `Stepper.Stepper.InverseTimeInPlace` | stepper.c:324-379 | the inverse-time part in place gives `InverseTimeTick` of the old state |
| `Stepper.Stepper.RunInPlace` | stepper.c:224-379 | the running part in place gives `Run` of the old state |
| `Stepper.Stepper.GuardedRun` | stepper.c:219-380 | setting `busy`, running and clearing `busy` gives `Run` of the old state and keeps the invariant |
| `Stepper.Stepper.OutputInPlace` | stepper.c:212-217 | the output step in place gives `Output` of the old state and keeps the invariant |
| `Stepper.Stepper.Tick` | stepper.c:205-382 | the interrupt in place gives `TickSpec` of the old state and keeps the invariant, so every lemma about `TickSpec` holds of it |
| `Stepper.Stepper.StartBlockInPlace` | stepper.c:518-548 | starting a block in place gives `StartBlock` of the old state and keeps the invariant |
| `Stepper.Stepper.SliceNext` | stepper.c:571-627 | the step count and flag the producer computes are the first segment of the block's slicing; the count is between 1 and the remaining steps and never passes a deceleration point ahead |
| `Stepper.Stepper.EmitSegmentInPlace` | stepper.c:567-632 | emitting a segment in place gives `EmitSegment` of the old state and keeps the invariant |
| `Stepper.Stepper.WriteSegment` | stepper.c:567-628 | the writes of an emission in place give `EmitSegment` of the old state, except the move of `head` |
| `Stepper.Stepper.PrepBuffer` | stepper.c:513-640 | `st_prep_buffer` in place gives `PrepSpec` of the old state and keeps the invariant. Every lemma about `PrepSpec` therefore holds of it: it stops only on a full ring or a missing block, and never overwrites a queued segment |

## Left out

- The float rate conversion (stepper.c:534-544) is not modelled: `sqrt`, `ceil` and `mm_per_step`. A block carries its integer `initial_rate`, `nominal_rate`, `rate_delta`, `d_next` and `decelerate_after`, each at most 2^31 - 1.
- `calculate_trapezoid_for_block` and the rest of planner.c are not part of this model. The planner is an 18-slot ring of ready blocks that the stepper reads and whose tail it advances. No block is ever added to it.
- Hardware is not modelled: the stepping port, the enable pin, timers and interrupt masks. This covers the Timer0 pulse reset interrupt and `st_init`. The port output is the staged `out_bits` plus `execute_step`.
- `step_pulse_time` is left out. It is a timer reload value computed from the settings.
- `delay_ms` and the idle-lock and alarm branch of `st_go_idle` are left out. `GoIdle` only stops the tick source and clears `busy`.
- Interrupt nesting (`sei()`) and `volatile` are left out. A tick runs atomically, and `busy` is an ordinary guard.
- `sys.execute` is reduced to the one bit the tick sets (`EXEC_CYCLE_STOP`), as `cycleStop`.
- The debug output (`printString`, `printInteger`) and the commented-out code are left out.
- `sys.position` is an unbounded integer, so its int32 wrap is not modelled. One step per event cannot overflow it before any realistic machine travel. The Bresenham counters are proved to stay in `[0, step_event_count)`, so they need no wrap.
- `Consumer.InverseTimeTickCounter`: assumes `d_per_tick <= d_next` and `counter_d` in `[0, d_next]`, as stepper.c:256 does ("d_next always greater than delta_d"). The engine invariant does not carry these bounds, because `d_next` and the rates come from planner.c, which is not part of this model; `RampKeepsRateBelow` shows the ramp preserves the rate half once the block's data satisfies it.
- `Producer.InitData`: `step_events_remaining` and `decelerate_after` (both int32 in the source, stepper.c:73) are unbounded integers in the model. No bound on either is proved: `step_events_remaining` is only proved to stay positive while a block is in preparation, and `decelerate_after` goes negative after the deceleration point. Each segment lowers both by its step count, at most the block's step-event count in all, but no int32 bound is proved for either, so an overflow would not show in the model.
- `PlannerModel.ValidPlanner`: every one of the 18 planner slots, stale ones included, holds a well-formed block (`ValidBlock`). The planner keeps only the slots from its tail to its head meaningful; the model needs the rest well formed because `plan_get_block_by_index` reads any slot but the head.
- `StepperTypes.ValidBlock` excludes blocks the planner never produces: a `step_event_count` of 0, whose single segment would have 0 steps so that the uint8 decrement at stepper.c:357 wraps to 255, and an axis with more steps than `step_event_count`, for which the Bresenham exactness does not hold.
- `Stepper.Stepper.Tick`: requires that the planner still holds a current block whenever a block load is due and a segment is queued (`BlockAvailable`). The source dereferences `plan_get_current_block()` without a NULL check. This is what the producer/planner protocol guarantees; it is not proved here.
- `Stepper.Stepper.Reset`: clears `head` as well; see Findings. The as-written reset is `Lifecycle.ResetState`.

## Findings

`st_reset` is headed "Reset and clear stepper subsystem variables" (stepper.c:395), and it clears every other index of both rings and of the planner side: `tail = 0`, `next_head = 1`, `pl_prep_index = 0`, `st_data_prep_index = 0`. It does not assign `segment_buffer_head`, so `head` keeps its old value and `next_head` need not be one past it.

| source | as written | input that shows it | evidently intended | confidence | as-written member | corrected member |
|---|---|---|---|---|---|---|
| stepper.c:396-407 | `st_reset` sets `segment_buffer_tail = 0` and `segment_next_head = 1` but leaves `segment_buffer_head` unchanged | a reset while `head == 5`: `next_head` is not one past `head`, and slots 0 to 4 count as five queued stale segments that the next tick would load | `segment_buffer_head = 0` as well, leaving an empty ring | medium, not executed | `Lifecycle.ResetStateStaleHead` | `Lifecycle.ResetClearedInv` |

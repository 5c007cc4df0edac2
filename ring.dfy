/** Index arithmetic of the segment ring (10 slots) and of the planner ring
    (18 slots), and which segment ring slots hold queued segments. */
module SegmentRing {
  import opened StepperTypes

  /** `next_block_index`: the following slot of the segment ring. */
  function NextBlockIndex(i: nat): (r: nat)
    requires i < SEGMENT_BUFFER_SIZE
    ensures r < SEGMENT_BUFFER_SIZE
    ensures r == (i + 1) % SEGMENT_BUFFER_SIZE
  {
    if i + 1 == SEGMENT_BUFFER_SIZE then 0 else i + 1
  }

  /** `next_block_pl_index`: the following slot of the planner ring, which wraps
      at 18 and not at the segment ring's size. */
  function NextBlockPlIndex(i: nat): (r: nat)
    requires i < BLOCK_BUFFER_SIZE
    ensures r < BLOCK_BUFFER_SIZE
    ensures r == (i + 1) % BLOCK_BUFFER_SIZE
  {
    if i + 1 == BLOCK_BUFFER_SIZE then 0 else i + 1
  }

  /** Slot `i` lies in the circular interval [tail, head): it holds a segment
      that the producer has published and the consumer has not yet retired. */
  predicate Queued(tail: nat, head: nat, i: nat) {
    if tail <= head then tail <= i < head else i >= tail || i < head
  }

  /** Number of queued segments, `(head - tail) mod 10`. */
  function Count(tail: nat, head: nat): (r: nat)
    requires tail < SEGMENT_BUFFER_SIZE && head < SEGMENT_BUFFER_SIZE
    ensures r < SEGMENT_BUFFER_SIZE
    ensures r == 0 <==> head == tail
  {
    if tail <= head then head - tail else head + SEGMENT_BUFFER_SIZE - tail
  }

  /** Writes the producer can still make before `next_head` meets `tail`. */
  function Free(tail: nat, nextHead: nat): (r: nat)
    requires tail < SEGMENT_BUFFER_SIZE && nextHead < SEGMENT_BUFFER_SIZE
    ensures r < SEGMENT_BUFFER_SIZE
    ensures r == 0 <==> nextHead == tail
  {
    if nextHead <= tail then tail - nextHead else tail + SEGMENT_BUFFER_SIZE - nextHead
  }

  /** Queued slots and free writes always add up to 9: one slot is kept empty
      so that a full ring (`next_head == tail`) differs from an empty one
      (`head == tail`). */
  lemma CountPlusFree(tail: nat, head: nat)
    requires tail < SEGMENT_BUFFER_SIZE && head < SEGMENT_BUFFER_SIZE
    ensures Count(tail, head) + Free(tail, NextBlockIndex(head)) == SEGMENT_BUFFER_SIZE - 1
  {
  }

  /** The tail slot is queued exactly when the ring is not empty, and the head
      slot never is. */
  lemma TailQueuedIffNonEmpty(tail: nat, head: nat)
    requires tail < SEGMENT_BUFFER_SIZE && head < SEGMENT_BUFFER_SIZE
    ensures Queued(tail, head, tail) <==> head != tail
    ensures !Queued(tail, head, head)
  {
  }

  /** Publishing at `head` (allowed only when `next_head != tail`) adds exactly
      the head slot to the queued slots. */
  lemma QueuedAfterPublish(tail: nat, head: nat, i: nat)
    requires tail < SEGMENT_BUFFER_SIZE && head < SEGMENT_BUFFER_SIZE
    requires NextBlockIndex(head) != tail && i < SEGMENT_BUFFER_SIZE
    ensures Queued(tail, NextBlockIndex(head), i) <==> Queued(tail, head, i) || i == head
  {
  }

  /** Retiring the tail slot (allowed only when the ring is not empty) removes
      exactly that slot from the queued slots. */
  lemma QueuedAfterRetire(tail: nat, head: nat, i: nat)
    requires tail < SEGMENT_BUFFER_SIZE && head < SEGMENT_BUFFER_SIZE
    requires head != tail && i < SEGMENT_BUFFER_SIZE
    ensures Queued(NextBlockIndex(tail), head, i) <==> Queued(tail, head, i) && i != tail
  {
  }
}

/** The planner's block ring as the stepper sees it. planner.c is not part
    of this model: its three queries the stepper calls are defined here on a
    ring of 18 blocks. */
module PlannerModel {
  import opened StepperTypes
  import opened SegmentRing

  /** The planner's block ring as the stepper uses it: 18 blocks, the block the
      engine executes (`tail`) and the first free slot (`head`). planner.c is
      not part of this model; its three queries are defined below. */
  datatype Planner = Planner(blocks: seq<Block>, tail: nat, head: nat)

  predicate ValidPlanner(p: Planner) {
    && |p.blocks| == BLOCK_BUFFER_SIZE && p.tail < BLOCK_BUFFER_SIZE && p.head < BLOCK_BUFFER_SIZE
    && forall i | 0 <= i < BLOCK_BUFFER_SIZE :: ValidBlock(p.blocks[i])
  }

  /** `plan_get_block_by_index`: no block at the planner's head slot. */
  function BlockByIndex(p: Planner, i: nat): (r: Option<Block>)
    requires ValidPlanner(p) && i < BLOCK_BUFFER_SIZE
    ensures r.Some? ==> ValidBlock(r.value)
  {
    if i == p.head then None else Some(p.blocks[i])
  }

  /** `plan_get_current_block`: the block at the planner's tail, if any. */
  function CurrentBlock(p: Planner): (r: Option<Block>)
    requires ValidPlanner(p)
    ensures r.Some? ==> ValidBlock(r.value)
  {
    if p.head == p.tail then None else Some(p.blocks[p.tail])
  }

  /** `plan_discard_current_block`: release the block at the planner's tail. */
  function DiscardCurrentBlock(p: Planner): (r: Planner)
    requires ValidPlanner(p)
    ensures ValidPlanner(r) && r.blocks == p.blocks && r.head == p.head
    ensures p.head != p.tail ==> r.tail == NextBlockPlIndex(p.tail)
    ensures p.head == p.tail ==> r == p
  {
    if p.head != p.tail then p.(tail := NextBlockPlIndex(p.tail)) else p
  }
}

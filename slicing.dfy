/** How the producer cuts one planner block into segments: the step count of
    each segment, its flag, and the whole sequence of segments a block yields. */
module BlockSlicing {
  import opened StepperTypes

  /** Step count of the next segment: the fixed cap of 250, cut down to the
      block's remaining step events, and cut down further to the deceleration
      point while that point is still ahead. */
  function SegmentSteps(remaining: int, decelerateAfter: int): (n: u8)
    requires remaining > 0
    ensures 1 <= n <= SEGMENT_STEP_CAP && n <= remaining
    ensures decelerateAfter > 0 ==> n <= decelerateAfter
    // and no smaller than the three bounds force
    ensures n == SEGMENT_STEP_CAP || n == remaining || (decelerateAfter > 0 && n == decelerateAfter)
  {
    var n := SEGMENT_STEP_CAP;
    var n := if n > remaining then remaining else n;
    if decelerateAfter > 0 && n > decelerateAfter then decelerateAfter else n
  }

  /** Flag of a segment, from the remaining step events after the segment and
      from `decelerate_after` BEFORE the segment's own decrement. */
  function SegmentFlag(remainingAfter: int, decelerateAfter: int): (f: SegFlag)
    ensures IsEndOfBlock(f) <==> remainingAfter == 0
    ensures IsDecel(f) <==> decelerateAfter == 0
  {
    if remainingAfter == 0 then
      if decelerateAfter == 0 then StDecelEob else StEndOfBlock
    else
      if decelerateAfter == 0 then StDecel else StNoop
  }

  /** A segment as the block slicing sees it: its step count and flag. */
  datatype Slice = Slice(nStep: nat, flag: SegFlag)

  /** Every segment the producer emits for a block from the point where
      `remaining` step events are left and `decelerate_after` is `da`. */
  function Slicing(remaining: nat, da: int): (r: seq<Slice>)
    requires remaining > 0
    ensures |r| >= 1
    decreases remaining
  {
    var n := SegmentSteps(remaining, da);
    var s := Slice(n, SegmentFlag(remaining - n, da));
    if n == remaining then [s] else [s] + Slicing(remaining - n, da - n)
  }

  function SumSteps(s: seq<Slice>): nat {
    if |s| == 0 then 0 else s[0].nStep + SumSteps(s[1..])
  }

  lemma SumStepsCons(s: Slice, t: seq<Slice>)
    ensures SumSteps([s] + t) == s.nStep + SumSteps(t)
  {
    assert ([s] + t)[1..] == t;
  }

  /** Block completeness: the segments of a block add up to exactly its
      remaining step events, each has between 1 and 250 steps, the last one and
      only the last one carries an end-of-block flag. */
  lemma {:induction false} SlicingComplete(remaining: nat, da: int)
    requires remaining > 0
    ensures SumSteps(Slicing(remaining, da)) == remaining
    ensures forall k | 0 <= k < |Slicing(remaining, da)| ::
              1 <= Slicing(remaining, da)[k].nStep <= SEGMENT_STEP_CAP
    ensures forall k | 0 <= k < |Slicing(remaining, da)| ::
              IsEndOfBlock(Slicing(remaining, da)[k].flag) <==> k == |Slicing(remaining, da)| - 1
    decreases remaining
  {
    var n := SegmentSteps(remaining, da);
    var s := Slice(n, SegmentFlag(remaining - n, da));
    if n < remaining {
      var t := Slicing(remaining - n, da - n);
      SlicingComplete(remaining - n, da - n);
      SumStepsCons(s, t);
      assert Slicing(remaining, da) == [s] + t;
    }
  }

  /** The deceleration point is hit exactly: a segment is DECEL or DECEL_EOB
      exactly when the steps before it equal the initial `decelerate_after`, and
      no segment starts before that point and ends after it. */
  lemma {:induction false} SlicingDecelPoint(remaining: nat, da: int)
    requires remaining > 0
    ensures forall k | 0 <= k < |Slicing(remaining, da)| ::
              IsDecel(Slicing(remaining, da)[k].flag) <==> SumSteps(Slicing(remaining, da)[..k]) == da
    ensures forall k | 0 <= k < |Slicing(remaining, da)| ::
              SumSteps(Slicing(remaining, da)[..k]) < da ==> SumSteps(Slicing(remaining, da)[..k + 1]) <= da
    decreases remaining
  {
    var r := Slicing(remaining, da);
    var n := SegmentSteps(remaining, da);
    var s := Slice(n, SegmentFlag(remaining - n, da));
    assert r[..0] == [];
    assert r[..1] == [s];
    SumStepsCons(s, []);
    if n < remaining {
      var t := Slicing(remaining - n, da - n);
      SlicingDecelPoint(remaining - n, da - n);
      assert r == [s] + t;
      forall k | 1 <= k < |r|
        ensures IsDecel(r[k].flag) <==> SumSteps(r[..k]) == da
        ensures SumSteps(r[..k]) < da ==> SumSteps(r[..k + 1]) <= da
      {
        assert r[..k] == [s] + t[..k - 1];
        assert r[..k + 1] == [s] + t[..k];
        SumStepsCons(s, t[..k - 1]);
        SumStepsCons(s, t[..k]);
      }
    }
  }

  /** The example of a 1000-step block whose deceleration starts after 800
      steps: four segments of 250, 250, 250 and 50 steps, then one deceleration
      segment of 200 steps that ends the block. */
  lemma SlicingExampleDecelAfter800()
    ensures Slicing(1000, 800) == [Slice(250, StNoop), Slice(250, StNoop), Slice(250, StNoop),
                                   Slice(50, StNoop), Slice(200, StDecelEob)]
  {
  }

  /** When deceleration starts early, only the first segment after the
      deceleration point is flagged DECEL: `decelerate_after` is negative for the
      rest of the block, so the later segments are plain and the last one is
      END_OF_BLOCK rather than DECEL_EOB. */
  lemma SlicingExampleDecelAfter100()
    ensures Slicing(1000, 100) == [Slice(100, StNoop), Slice(250, StDecel), Slice(250, StNoop),
                                   Slice(250, StNoop), Slice(150, StEndOfBlock)]
  {
  }
}

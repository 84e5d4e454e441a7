/** Closed intervals of date.py and `gen_time_bounds` of sacct_backfill.py, in whole seconds. */
module TimeBounds {
  import opened Wrappers

  datatype Error = LowerAboveUpper | StepTooSmall

  /** `ClosedInterval`: either bound may be missing. */
  datatype ClosedInterval = ClosedInterval(lower: Option<int>, upper: Option<int>)

  /** The dataclass constructor with its `__post_init__` check. */
  function MakeClosed(lower: Option<int>, upper: Option<int>): (r: Result<ClosedInterval, Error>)
    ensures r == Ok(ClosedInterval(lower, upper)) || r == Err(LowerAboveUpper)
    ensures r.Err? <==> lower.Some? && upper.Some? && lower.value > upper.value
  {
    if lower.None? || upper.None? then Ok(ClosedInterval(lower, upper))
    else if lower.value > upper.value then Err(LowerAboveUpper)
    else Ok(ClosedInterval(lower, upper))
  }

  /** `x in interval`, branch by branch. */
  predicate InClosed(iv: ClosedInterval, x: int): (r: bool)
    ensures r <==> (iv.lower.Some? ==> iv.lower.value <= x) && (iv.upper.Some? ==> x <= iv.upper.value)
  {
    if iv.lower.None? then
      if iv.upper.None? then true else x <= iv.upper.value
    else if iv.upper.None? then iv.lower.value <= x
    else iv.lower.value <= x <= iv.upper.value
  }

  /** The constructor refuses exactly the pairs of bounds between which there is nothing. */
  lemma ConstructorRefusesEmpty(lower: Option<int>, upper: Option<int>)
    ensures MakeClosed(lower, upper).Ok? <==> exists x :: InClosed(ClosedInterval(lower, upper), x)
  {
    var x := if lower.Some? then lower.value else if upper.Some? then upper.value else 0;
    if MakeClosed(lower, upper).Ok? {
      assert InClosed(ClosedInterval(lower, upper), x);
    }
  }

  /** `BoundedClosedInterval`: both bounds are present. */
  datatype Interval = Interval(lower: int, upper: int)

  function MakeBounded(lower: int, upper: int): Result<Interval, Error> {
    if lower > upper then Err(LowerAboveUpper) else Ok(Interval(lower, upper))
  }

  predicate Contains(iv: Interval, x: int) {
    iv.lower <= x <= iv.upper
  }

  /** How many of the intervals hold `x`. */
  function Hits(ivs: seq<Interval>, x: int): nat {
    if ivs == [] then 0 else (if Contains(ivs[0], x) then 1 else 0) + Hits(ivs[1..], x)
  }

  /** The intervals yielded for [lower, upper]. */
  function Bounds(lower: int, upper: int, step: int): seq<Interval>
    requires step > 1
    decreases upper - lower
  {
    if lower + step < upper then [Interval(lower, lower + step - 1)] + Bounds(lower + step, upper, step)
    else [Interval(lower, upper)]
  }

  /** Every second of the range is in exactly one interval, and no other second is in any. */
  lemma {:induction false} CoveredExactlyOnce(lower: int, upper: int, step: int, x: int)
    requires step > 1 && lower <= upper
    ensures Hits(Bounds(lower, upper, step), x) == if lower <= x <= upper then 1 else 0
    decreases upper - lower
  {
    if lower + step < upper {
      CoveredExactlyOnce(lower + step, upper, step, x);
    } else {
      assert Bounds(lower, upper, step)[1..] == [];
    }
  }

  /** `n` is max(1, ceil(d / step)), said without dividing. */
  predicate IsStepCount(n: int, d: int, step: int) {
    n >= 1 && d <= n * step && (n > 1 ==> (n - 1) * step < d)
  }

  lemma {:induction false} CountIsCeiling(lower: int, upper: int, step: int)
    requires step > 1 && lower <= upper
    ensures IsStepCount(|Bounds(lower, upper, step)|, upper - lower, step)
    decreases upper - lower
  {
    if lower + step < upper {
      CountIsCeiling(lower + step, upper, step);
      var n := |Bounds(lower + step, upper, step)|;
      assert (n + 1) * step == n * step + step;
      assert n * step == (n - 1) * step + step;
      assert |Bounds(lower, upper, step)| == n + 1;
    } else {
      assert |Bounds(lower, upper, step)| == 1;
    }
  }

  /** Interval `i` starts `i` steps after the range does; the last one ends with the range, the others a step later. */
  predicate StepByStep(ivs: seq<Interval>, lower: int, upper: int, step: int) {
    forall i :: 0 <= i < |ivs| ==>
      && ivs[i].lower == lower + i * step
      && ivs[i].upper == if i < |ivs| - 1 then lower + (i + 1) * step - 1 else upper
  }

  lemma BoundsStepByStep(lower: int, upper: int, step: int)
    requires step > 1 && lower <= upper
    ensures StepByStep(Bounds(lower, upper, step), lower, upper, step)
  {
    hide Bounds;
    forall i | 0 <= i < |Bounds(lower, upper, step)| {
      IntervalAt(lower, upper, step, i);
    }
  }

  lemma {:induction false} IntervalAt(lower: int, upper: int, step: int, i: nat)
    requires step > 1 && lower <= upper && i < |Bounds(lower, upper, step)|
    ensures var n := |Bounds(lower, upper, step)|;
            Bounds(lower, upper, step)[i] ==
            Interval(lower + i * step, if i < n - 1 then lower + (i + 1) * step - 1 else upper)
    decreases i
  {
    if i > 0 {
      IntervalAt(lower + step, upper, step, i - 1);
      assert lower + step + (i - 1) * step == lower + i * step;
      assert lower + step + i * step == lower + (i + 1) * step;
    }
  }

  lemma CoversExactly(lower: int, upper: int, step: int)
    requires step > 1 && lower <= upper
    ensures forall x :: Hits(Bounds(lower, upper, step), x) == if lower <= x <= upper then 1 else 0
  {
    forall x {
      CoveredExactlyOnce(lower, upper, step, x);
    }
  }

  /**
   * `gen_time_bounds`, drained.  An error is the generator's exception; the constructor check of
   * a yielded interval is made each time and never fails.
   */
  method GenTimeBounds(interval: Interval, step: int) returns (r: Result<seq<Interval>, Error>)
    requires interval.lower <= interval.upper
    ensures step <= 1 ==> r == Err(StepTooSmall)
    ensures step > 1 ==> r == Ok(Bounds(interval.lower, interval.upper, step))
    ensures r.Ok? ==> forall x :: Hits(r.value, x) == if Contains(interval, x) then 1 else 0
    ensures r.Ok? ==> IsStepCount(|r.value|, interval.upper - interval.lower, step)
    ensures r.Ok? ==> StepByStep(r.value, interval.lower, interval.upper, step)
  {
    hide StepByStep, IsStepCount, Hits;
    if step <= 1 {
      return Err(StepTooSmall);
    }
    var start, end := interval.lower, interval.upper;
    var yielded: seq<Interval> := [];
    while start + step < end
      invariant start <= end
      invariant yielded + Bounds(start, end, step) == Bounds(interval.lower, end, step)
      decreases end - start
    {
      var iv := MakeBounded(start, start + step - 1);
      if iv.Err? {
        return Err(LowerAboveUpper);
      }
      assert Bounds(start, end, step) == [iv.value] + Bounds(start + step, end, step);
      assert yielded + ([iv.value] + Bounds(start + step, end, step)) ==
             yielded + [iv.value] + Bounds(start + step, end, step);
      yielded := yielded + [iv.value];
      start := start + step;
    }
    var iv := MakeBounded(start, end);
    if iv.Err? {
      return Err(LowerAboveUpper);
    }
    assert Bounds(start, end, step) == [iv.value];
    r := Ok(yielded + [iv.value]);
    CoversExactly(interval.lower, interval.upper, step);
    CountIsCeiling(interval.lower, interval.upper, step);
    BoundsStepByStep(interval.lower, interval.upper, step);
  }
}

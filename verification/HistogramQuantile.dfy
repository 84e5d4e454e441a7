/** `histogram_quantile` of prometheus.py against the curve it inverts; floats are reals. */
module HistogramQuantile {
  import opened Wrappers
  import opened Sorting

  /** The `le` label of a bucket. */
  datatype Bound = Finite(le: real) | Infinite

  /** A finite bucket: bound and cumulative count. */
  type Point = (real, real)

  /** Tuple comparison. */
  predicate PointLe(a: Point, b: Point) {
    a.0 < b.0 || (a.0 == b.0 && a.1 <= b.1)
  }

  function Finites(buckets: seq<(Bound, real)>): seq<Point> {
    if buckets == [] then []
    else (if buckets[0].0.Finite? then [(buckets[0].0.le, buckets[0].1)] else []) + Finites(buckets[1..])
  }

  function Points(buckets: seq<(Bound, real)>): seq<Point> {
    Sort(Finites(buckets), PointLe)
  }

  /** The value `n / d` of the way from `a` to `b`. */
  function Between(a: real, b: real, n: real, d: real): real
    requires d != 0.0
  {
    a + (b - a) * n / d
  }

  /** The interpolation loop from a previous point. */
  function Walk(bs: seq<Point>, prev: Point, target: real): real {
    if bs == [] then prev.0
    else if bs[0].1 >= target then
      if bs[0].1 == prev.1 then prev.0
      else Between(prev.0, bs[0].0, target - prev.1, bs[0].1 - prev.1)
    else Walk(bs[1..], bs[0], target)
  }

  function Quantile(buckets: seq<(Bound, real)>, count: real, quantile: real): Option<real> {
    if count == 0.0 || Points(buckets) == [] then None
    else Some(Walk(Points(buckets), (0.0, 0.0), quantile * count))
  }

  lemma {:induction false} NoFinitesExactlyWhen(buckets: seq<(Bound, real)>)
    ensures Finites(buckets) == [] <==> forall i :: 0 <= i < |buckets| ==> buckets[i].0.Infinite?
  {
    if buckets != [] {
      NoFinitesExactlyWhen(buckets[1..]);
      assert forall i :: 0 < i < |buckets| ==> buckets[i] == buckets[1..][i - 1];
    }
  }

  lemma NoFiniteBucketExactlyWhen(buckets: seq<(Bound, real)>)
    ensures Points(buckets) == [] <==> forall i :: 0 <= i < |buckets| ==> buckets[i].0.Infinite?
  {
    NoFinitesExactlyWhen(buckets);
    SortPermutes(Finites(buckets), PointLe);
  }

  method Estimate(buckets: seq<(Bound, real)>, count: real, quantile: real) returns (r: Option<real>)
    ensures r == Quantile(buckets, count, quantile)
    ensures r.None? <==> count == 0.0 || forall i :: 0 <= i < |buckets| ==> buckets[i].0.Infinite?
  {
    NoFiniteBucketExactlyWhen(buckets);
    if count == 0.0 {
      return None;
    }
    var finite := Points(buckets);
    if finite == [] {
      return None;
    }
    var target := quantile * count;
    var prev := (0.0, 0.0);
    var i := 0;
    while i < |finite|
      invariant i <= |finite|
      invariant i > 0 ==> prev == finite[i - 1]
      invariant Walk(finite, (0.0, 0.0), target) == Walk(finite[i..], prev, target)
    {
      var (le, cumCount) := finite[i];
      if cumCount >= target {
        if cumCount == prev.1 {
          return Some(prev.0);
        }
        return Some(Between(prev.0, le, target - prev.1, cumCount - prev.1));
      }
      prev := (le, cumCount);
      i := i + 1;
    }
    return Some(finite[|finite| - 1].0);
  }

  // ---------- The cumulative curve ----------

  /**
   * The piecewise-linear curve from `start` through the points, flat after the last; where two
   * points have one bound it takes the later count.
   */
  function Curve(bs: seq<Point>, start: Point, x: real): real
    requires start.0 <= x
  {
    if bs == [] then start.1
    else if bs[0].0 <= x then Curve(bs[1..], bs[0], x)
    else Between(start.1, bs[0].1, x - start.0, bs[0].0 - start.0)
  }

  /** From `start` on, bounds and counts never fall. */
  predicate Rising(bs: seq<Point>, start: Point) {
    bs != [] ==> start.0 <= bs[0].0 && start.1 <= bs[0].1 && Rising(bs[1..], bs[0])
  }

  /** The last of the points, or `start`. */
  function Last(bs: seq<Point>, start: Point): Point {
    if bs == [] then start else bs[|bs| - 1]
  }

  // Products are named, so that the proofs about segments can leave them unexpanded.
  function Times(x: real, y: real): real { x * y }

  lemma TimesCommutes(x: real, y: real)
    ensures Times(x, y) == Times(y, x)
  {
  }

  lemma TimesSign(x: real, y: real)
    requires y > 0.0
    ensures Times(x, y) >= 0.0 <==> x >= 0.0
    ensures Times(x, y) == 0.0 <==> x == 0.0
  {
  }

  lemma TimesOfDifference(x: real, x': real, y: real)
    ensures Times(x - x', y) == Times(x, y) - Times(x', y)
  {
  }

  lemma QuotientTimes(x: real, y: real)
    requires y != 0.0
    ensures Times(x / y, y) == x
  {
  }

  /** Comparing a quotient by comparing products. */
  lemma CrossMultiply(x: real, y: real, d: real)
    requires d > 0.0
    ensures x / d >= y <==> x >= Times(y, d)
    ensures x / d == y <==> x == Times(y, d)
  {
    hide Times;
    QuotientTimes(x, d);
    TimesOfDifference(x / d, y, d);
    TimesSign(x / d - y, d);
  }

  lemma BetweenReaches(a: real, b: real, n: real, d: real, t: real)
    requires d > 0.0
    ensures Between(a, b, n, d) >= t <==> Times(b - a, n) >= Times(t - a, d)
    ensures Between(a, b, n, d) == t <==> Times(b - a, n) == Times(t - a, d)
  {
    var product := (b - a) * n;
    assert Times(b - a, n) == product;
    CrossMultiply(product, t - a, d);
  }

  lemma BetweenBounds(a: real, b: real, n: real, d: real)
    requires a <= b && 0.0 <= n <= d && 0.0 < d
    ensures a <= Between(a, b, n, d) <= b
  {
    hide Times, Between;
    BetweenReaches(a, b, n, d, a);
    BetweenReaches(a, b, n, d, b);
    assert Times(a - a, d) == 0.0 && Times(b - a, n) >= 0.0 && Times(b - a, d) >= Times(b - a, n) by {
      TimesSign(a - a, d);
      ProductsGrow(b - a, n, d);
    }
  }

  lemma ProductsGrow(w: real, n: real, d: real)
    requires 0.0 <= w && 0.0 <= n <= d
    ensures 0.0 <= Times(w, n) <= Times(w, d)
  {
    assert w * (d - n) >= 0.0;
    assert w * d == w * n + w * (d - n);
  }

  lemma BetweenEnds(a: real, b: real, d: real)
    requires 0.0 < d
    ensures Between(a, b, 0.0, d) == a && Between(a, b, d, d) == b
  {
    hide Between;
    BetweenReaches(a, b, 0.0, d, a);
    BetweenReaches(a, b, d, d, b);
  }

  /** On one segment the interpolated bound is where the segment reaches the target. */
  lemma SegmentInverse(p: Point, q: Point, x: real, t: real)
    requires p.0 <= x < q.0 && p.1 < t <= q.1
    ensures Between(p.1, q.1, x - p.0, q.0 - p.0) >= t <==> x >= Between(p.0, q.0, t - p.1, q.1 - p.1)
    ensures Between(p.1, q.1, x - p.0, q.0 - p.0) == t <==> x == Between(p.0, q.0, t - p.1, q.1 - p.1)
  {
    hide Times, Between;
    var w, h := q.0 - p.0, q.1 - p.1;
    BetweenReaches(p.1, q.1, x - p.0, w, t);
    BetweenReaches(p.0, q.0, t - p.1, h, x);
    TimesCommutes(h, x - p.0);
    TimesCommutes(w, t - p.1);
  }

  /** Interpolating gives the far end of the segment only for the far end's count. */
  lemma OnlyEndReachesEnd(p: Point, q: Point, t: real)
    requires p.0 < q.0 && p.1 < t <= q.1
    ensures Between(p.0, q.0, t - p.1, q.1 - p.1) >= q.0 ==> t == q.1
  {
    hide Times, Between;
    var w, h := q.0 - p.0, q.1 - p.1;
    BetweenReaches(p.0, q.0, t - p.1, h, q.0);
    TimesCommutes(w, t - p.1);
    TimesCommutes(w, h);
    TimesOfDifference(t - p.1, h, w);
    TimesSign(t - p.1 - h, w);
  }

  lemma {:induction false} CurveAtLeastStart(bs: seq<Point>, start: Point, x: real)
    requires Rising(bs, start) && start.0 <= x
    ensures Curve(bs, start, x) >= start.1
  {
    if bs != [] {
      if bs[0].0 <= x {
        CurveAtLeastStart(bs[1..], bs[0], x);
      } else {
        BetweenBounds(start.1, bs[0].1, x - start.0, bs[0].0 - start.0);
      }
    }
  }

  /** The estimate lies between the start and the last bound. */
  lemma {:induction false} WalkInRange(bs: seq<Point>, start: Point, t: real)
    requires Rising(bs, start) && start.1 <= t
    ensures start.0 <= Walk(bs, start, t) <= Last(bs, start).0
    ensures Last(bs, start).1 < t ==> Walk(bs, start, t) == Last(bs, start).0
  {
    if bs != [] {
      LastIsHighest(bs[1..], bs[0]);
      assert Last(bs, start) == Last(bs[1..], bs[0]);
      if bs[0].1 >= t {
        if bs[0].1 != start.1 {
          BetweenBounds(start.0, bs[0].0, t - start.1, bs[0].1 - start.1);
        }
      } else {
        WalkInRange(bs[1..], bs[0], t);
      }
    }
  }

  lemma {:induction false} LastIsHighest(bs: seq<Point>, start: Point)
    requires Rising(bs, start)
    ensures start.0 <= Last(bs, start).0 && start.1 <= Last(bs, start).1
  {
    if bs != [] {
      LastIsHighest(bs[1..], bs[0]);
      assert Last(bs, start) == Last(bs[1..], bs[0]);
    }
  }

  /** The curve has reached the target exactly from the estimate on. */
  lemma {:induction false} WalkIsLeastPreimage(bs: seq<Point>, start: Point, t: real, x: real)
    requires Rising(bs, start) && start.1 < t <= Last(bs, start).1 && start.0 <= x
    ensures Curve(bs, start, x) >= t <==> x >= Walk(bs, start, t)
  {
    var p := bs[0];
    assert Last(bs, start) == Last(bs[1..], p);
    if p.1 >= t {
      BetweenBounds(start.0, p.0, t - start.1, p.1 - start.1);
      if p.0 <= x {
        CurveAtLeastStart(bs[1..], p, x);
      } else {
        SegmentInverse(start, p, x, t);
      }
    } else {
      WalkInRange(bs[1..], p, t);
      if p.0 <= x {
        WalkIsLeastPreimage(bs[1..], p, t, x);
      } else {
        BetweenBounds(start.1, p.1, x - start.0, p.0 - start.0);
      }
    }
  }

  // ---------- Where the estimate inverts the curve ----------

  /** Between `a` and `b` the curve jumps over `t`, which it has not reached at any lower bound. */
  ghost predicate JumpsOver(points: seq<Point>, a: Point, b: Point, t: real) {
    && a in points && b in points && a.0 == b.0 && a.1 <= t < b.1
    && forall p :: p in points && p.0 < a.0 ==> p.1 < t
  }

  /** The curve jumps over `t` at some bound. */
  ghost predicate InJump(points: seq<Point>, t: real) {
    exists a, b :: JumpsOver(points, a, b, t)
  }

  lemma {:induction false} RisesAbove(bs: seq<Point>, start: Point)
    requires Rising(bs, start)
    ensures forall b :: b in bs ==> start.0 <= b.0 && start.1 <= b.1
  {
    if bs != [] {
      RisesAbove(bs[1..], bs[0]);
      assert bs == [bs[0]] + bs[1..];
    }
  }

  ghost predicate TopIsAtMost(points: seq<Point>, bound: real, t: real) {
    forall b :: b in points && b.0 == bound ==> b.1 <= t
  }

  /** At the start's own bound the curve is at the highest count there. */
  lemma {:induction false} CurveAtStart(bs: seq<Point>, start: Point, t: real)
    requires Rising(bs, start) && start.1 >= t
    ensures Curve(bs, start, start.0) == t <==> TopIsAtMost([start] + bs, start.0, t)
  {
    hide Between;
    RisesAbove(bs, start);
    assert start in [start] + bs;
    if bs != [] {
      assert bs == [bs[0]] + bs[1..];
      if bs[0].0 == start.0 {
        CurveAtStart(bs[1..], bs[0], t);
        assert bs[0] in [start] + bs;
      } else {
        BetweenEnds(start.1, bs[0].1, bs[0].0 - start.0);
        RisesAbove(bs[1..], bs[0]);
      }
    }
  }

  /** Where the curve has come to the first point without reaching the target, the start is no matter. */
  lemma StartIsNoMatter(bs: seq<Point>, start: Point, t: real)
    requires bs != [] && Rising(bs, start) && bs[0].1 < t
    ensures InJump([start] + bs, t) <==> InJump(bs, t)
  {
    var all := [start] + bs;
    RisesAbove(bs, start);
    if a, b :| JumpsOver(all, a, b, t) {
      assert b in bs;
      if a == start && a !in bs {
        RisesAbove(bs[1..], bs[0]);
        assert bs == [bs[0]] + bs[1..];
        assert JumpsOver(bs, bs[0], b, t);
      } else {
        assert JumpsOver(bs, a, b, t);
      }
    }
    if a, b :| JumpsOver(bs, a, b, t) {
      assert JumpsOver(all, a, b, t);
    }
  }

  /** The first point reaches the target, and lies at the start's own bound. */
  lemma VerticalInverts(bs: seq<Point>, start: Point, t: real)
    requires bs != [] && Rising(bs, start) && start.1 < t <= bs[0].1 && bs[0].0 == start.0
    ensures Walk(bs, start, t) == start.0
    ensures Curve(bs, start, start.0) == t <==> !InJump([start] + bs, t)
  {
    var p, all := bs[0], [start] + bs;
    BetweenBounds(start.0, p.0, t - start.1, p.1 - start.1);
    CurveAtStart(bs[1..], p, t);
    assert bs == [p] + bs[1..];
    RisesAbove(bs, start);
    if b :| b in bs && b.0 == p.0 && b.1 > t {
      assert JumpsOver(all, start, b, t);
    }
    if a, b :| JumpsOver(all, a, b, t) {
      assert p in all;
      assert b in bs && b.0 == p.0;
    }
  }

  /** The first point reaches the target, at a higher bound. */
  lemma SlopeInverts(bs: seq<Point>, start: Point, t: real)
    requires bs != [] && Rising(bs, start) && start.1 < t <= bs[0].1 && start.0 < bs[0].0
    ensures start.0 <= Walk(bs, start, t)
    ensures Curve(bs, start, Walk(bs, start, t)) == t <==> !InJump([start] + bs, t)
  {
    hide Between, Rising;
    var p, r := bs[0], Walk(bs, start, t);
    BetweenBounds(start.0, p.0, t - start.1, p.1 - start.1);
    RisesAbove(bs, start);
    RestRises(bs, start);
    RisesAbove(bs[1..], p);
    assert bs == [p] + bs[1..];
    if t < p.1 {
      OnlyEndReachesEnd(start, p, t);
      SegmentInverse(start, p, r, t);
      NoJumpBefore(bs, start, t);
    } else {
      BetweenEnds(start.0, p.0, p.1 - start.1);
      CurveAtStart(bs[1..], p, t);
      JumpAtFirst(bs, start, t);
    }
  }

  lemma RestRises(bs: seq<Point>, start: Point)
    requires bs != [] && Rising(bs, start)
    ensures Rising(bs[1..], bs[0])
  {
  }

  lemma NoJumpBefore(bs: seq<Point>, start: Point, t: real)
    requires bs != [] && start.1 < t < bs[0].1 && start.0 < bs[0].0
    requires forall b :: b in bs ==> bs[0].0 <= b.0 && bs[0].1 <= b.1
    ensures !InJump([start] + bs, t)
  {
    var all := [start] + bs;
    assert forall p :: p in all <==> p == start || p in bs;
  }

  lemma JumpAtFirst(bs: seq<Point>, start: Point, t: real)
    requires bs != [] && start.1 < t == bs[0].1 && start.0 < bs[0].0
    requires forall b :: b in bs ==> bs[0].0 <= b.0 && bs[0].1 <= b.1
    ensures InJump([start] + bs, t) <==> !TopIsAtMost(bs, bs[0].0, t)
  {
    var all, p := [start] + bs, bs[0];
    assert p in all;
    if a, b :| JumpsOver(all, a, b, t) {
      assert b in bs && b.0 == p.0;
    }
    if b :| b in bs && b.0 == p.0 && b.1 > t {
      assert JumpsOver(all, p, b, t);
    }
  }

  /** The curve at the estimate is the target exactly when it does not jump over it. */
  lemma {:induction false} WalkInvertsExactlyWhen(bs: seq<Point>, start: Point, t: real)
    requires Rising(bs, start) && start.1 < t <= Last(bs, start).1
    ensures start.0 <= Walk(bs, start, t)
    ensures Curve(bs, start, Walk(bs, start, t)) == t <==> !InJump([start] + bs, t)
  {
    hide Between, InJump;
    var p := bs[0];
    if p.1 < t {
      assert Last(bs, start) == Last(bs[1..], p);
      assert [p] + bs[1..] == bs;
      StartIsNoMatter(bs, start, t);
      WalkInvertsExactlyWhen(bs[1..], p, t);
    } else if p.0 == start.0 {
      VerticalInverts(bs, start, t);
    } else {
      SlopeInverts(bs, start, t);
    }
  }

  // ---------- From buckets to points ----------

  /** What a scraped histogram promises: bounds and counts from zero up, counts rising with bounds. */
  ghost predicate Cumulative(buckets: seq<(Bound, real)>) { CumulativePoints(Finites(buckets)) }

  ghost predicate CumulativePoints(ps: seq<Point>) {
    && (forall i :: 0 <= i < |ps| ==> ps[i].0 >= 0.0 && ps[i].1 >= 0.0)
    && (forall i, j :: 0 <= i < |ps| && 0 <= j < |ps| && ps[i].0 < ps[j].0 ==> ps[i].1 <= ps[j].1)
  }

  ghost predicate DistinctBounds(ps: seq<Point>) {
    forall i, j :: 0 <= i < j < |ps| ==> ps[i].0 != ps[j].0
  }

  lemma PointLeIsTotal()
    ensures TotalOrder(PointLe)
  {
  }

  lemma {:induction false} SortedRises(ps: seq<Point>, start: Point)
    requires forall i :: 0 <= i < |ps| ==> start.0 <= ps[i].0 && start.1 <= ps[i].1
    requires forall i, j :: 0 <= i < j < |ps| ==> ps[i].0 <= ps[j].0 && ps[i].1 <= ps[j].1
    ensures Rising(ps, start)
  {
    if ps != [] {
      SortedRises(ps[1..], ps[0]);
    }
  }

  /** Sorted points of which each is one of the given. */
  lemma CumulativePointsRise(raw: seq<Point>, ps: seq<Point>, i: nat, j: nat)
    requires CumulativePoints(raw) && SortedBy(ps, PointLe) && i < j < |ps| && ps[i] in raw && ps[j] in raw
    ensures ps[i].0 <= ps[j].0 && ps[i].1 <= ps[j].1
  {
    assert PointLe(ps[i], ps[j]);
    var k :| 0 <= k < |raw| && raw[k] == ps[i];
    var l :| 0 <= l < |raw| && raw[l] == ps[j];
    if ps[i].0 < ps[j].0 {
      assert raw[k].0 < raw[l].0;
    }
  }

  lemma PointsRise(buckets: seq<(Bound, real)>)
    requires Cumulative(buckets)
    ensures Rising(Points(buckets), (0.0, 0.0))
  {
    var raw, ps := Finites(buckets), Points(buckets);
    PointLeIsTotal();
    SortSorts(raw, PointLe);
    SortPermutes(raw, PointLe);
    SameElements(raw, ps);
    hide SortedBy, Sort, Finites, Points, PointLe;
    forall i | 0 <= i < |ps|
      ensures ps[i] in raw && 0.0 <= ps[i].0 && 0.0 <= ps[i].1
    {
      assert ps[i] in ps;
    }
    hide CumulativePoints;
    forall i, j | 0 <= i < j < |ps|
      ensures ps[i].0 <= ps[j].0 && ps[i].1 <= ps[j].1
    {
      CumulativePointsRise(raw, ps, i, j);
    }
    SortedRises(ps, (0.0, 0.0));
  }

  // ---------- Main results ----------

  /** The highest cumulative count of a finite bucket, 0 if there is none. */
  function LastCount(buckets: seq<(Bound, real)>): real {
    Last(Points(buckets), (0.0, 0.0)).1
  }

  function LastBound(buckets: seq<(Bound, real)>): real {
    Last(Points(buckets), (0.0, 0.0)).0
  }

  /** The estimated number of observations at or below `x`. */
  function CumulativeAt(buckets: seq<(Bound, real)>, x: real): real
    requires x >= 0.0
  {
    Curve(Points(buckets), (0.0, 0.0), x)
  }

  lemma OrderOfBucketsIsIrrelevant(a: seq<(Bound, real)>, b: seq<(Bound, real)>, count: real, q: real)
    requires multiset(a) == multiset(b)
    ensures Quantile(a, count, q) == Quantile(b, count, q)
  {
    forall p
      ensures multiset(Finites(a))[p] == multiset(Finites(b))[p]
    {
      FinitesCount(a, p);
      FinitesCount(b, p);
    }
    assert multiset(Finites(a)) == multiset(Finites(b));
    PointLeIsTotal();
    SortIgnoresOrder(Finites(a), Finites(b), PointLe);
  }

  lemma FinitesNext(a: seq<(Bound, real)>)
    requires a != []
    ensures Finites(a) == (if a[0].0.Finite? then [(a[0].0.le, a[0].1)] else []) + Finites(a[1..])
  {
  }

  lemma HeadCounts<T>(head: T, rest: seq<T>, x: T)
    ensures multiset([head] + rest)[x] == multiset(rest)[x] + if head == x then 1 else 0
  {
  }

  lemma {:induction false} FinitesCount(a: seq<(Bound, real)>, p: Point)
    ensures multiset(Finites(a))[p] == multiset(a)[(Finite(p.0), p.1)]
  {
    if a != [] {
      hide Finites;
      FinitesCount(a[1..], p);
      FinitesNext(a);
      assert a == [a[0]] + a[1..];
      HeadCounts(a[0], a[1..], (Finite(p.0), p.1));
      if a[0].0.Finite? {
        HeadCounts((a[0].0.le, a[0].1), Finites(a[1..]), p);
      } else {
        assert [] + Finites(a[1..]) == Finites(a[1..]);
      }
    }
  }

  lemma NoPoints()
    ensures forall start :: Last([], start) == start
  {
  }

  /** For a positive target the estimate is the least bound at which the curve has reached it. */
  lemma QuantileIsLeastPreimage(buckets: seq<(Bound, real)>, count: real, q: real, x: real)
    requires Cumulative(buckets) && count != 0.0 && 0.0 < q * count <= LastCount(buckets) && x >= 0.0
    ensures Quantile(buckets, count, q).Some?
    ensures CumulativeAt(buckets, x) >= q * count <==> x >= Quantile(buckets, count, q).value
  {
    hide Points, Walk, Curve, Last, Rising, Cumulative;
    PointsRise(buckets);
    NoPoints();
    WalkIsLeastPreimage(Points(buckets), (0.0, 0.0), q * count, x);
  }

  /**
   * The estimate inverts the curve exactly when the curve does not jump over the target: two finite
   * buckets of one bound, or one of bound 0, between whose counts the target lies.
   */
  lemma QuantileInvertsExactlyWhen(buckets: seq<(Bound, real)>, count: real, q: real)
    requires Cumulative(buckets)
    requires count != 0.0 && 0.0 < q * count <= LastCount(buckets)
    ensures Quantile(buckets, count, q).Some? && Quantile(buckets, count, q).value >= 0.0
    ensures CumulativeAt(buckets, Quantile(buckets, count, q).value) == q * count <==>
            !InJump([(0.0, 0.0)] + Finites(buckets), q * count)
  {
    hide Points, Cumulative, Walk, Curve, Last, Rising, InJump;
    PointsRise(buckets);
    NoPoints();
    WalkInvertsExactlyWhen(Points(buckets), (0.0, 0.0), q * count);
    JumpsIgnoreOrder(buckets, q * count);
  }

  lemma SameJumps(s: seq<Point>, s': seq<Point>, t: real)
    requires forall p :: p in s <==> p in s'
    ensures InJump(s, t) <==> InJump(s', t)
  {
    forall a, b
      ensures JumpsOver(s, a, b, t) <==> JumpsOver(s', a, b, t)
    {
    }
  }

  lemma JumpsIgnoreOrder(buckets: seq<(Bound, real)>, t: real)
    ensures InJump([(0.0, 0.0)] + Points(buckets), t) <==> InJump([(0.0, 0.0)] + Finites(buckets), t)
  {
    var raw, ps := Finites(buckets), Points(buckets);
    SortPermutes(raw, PointLe);
    SameElements(raw, ps);
    hide Points, Finites;
    var zero := (0.0, 0.0);
    forall p
      ensures p in [zero] + raw <==> p in [zero] + ps
    {
      assert p in [zero] + raw <==> p == zero || p in raw;
      assert p in [zero] + ps <==> p == zero || p in ps;
    }
    SameJumps([zero] + raw, [zero] + ps, t);
  }

  /** Where no two buckets have one bound, the only jump is that of a bucket of bound 0. */
  lemma DistinctBoundsJumpAtZero(ps: seq<Point>, t: real)
    requires CumulativePoints(ps) && t > 0.0
    requires forall i, j :: 0 <= i < j < |ps| ==> ps[i].0 != ps[j].0
    ensures InJump([(0.0, 0.0)] + ps, t) <==> exists b :: b in ps && b.0 == 0.0 && b.1 > t
  {
    var zero, all := (0.0, 0.0), [(0.0, 0.0)] + ps;
    if a, b :| JumpsOver(all, a, b, t) {
      assert b in ps;
      assert a == zero || a in ps;
    }
    if b :| b in ps && b.0 == 0.0 && b.1 > t {
      assert JumpsOver(all, zero, b, t);
    }
  }

  /** Estimates lie between 0 and the last finite bound, and do not fall as the quantile rises. */
  lemma QuantileIsMonotone(buckets: seq<(Bound, real)>, count: real, q1: real, q2: real)
    requires Cumulative(buckets) && count > 0.0 && 0.0 <= q1 <= q2 && Points(buckets) != []
    ensures Quantile(buckets, count, q1).Some? && Quantile(buckets, count, q2).Some?
    ensures 0.0 <= Quantile(buckets, count, q1).value <= Quantile(buckets, count, q2).value <= LastBound(buckets)
  {
    var ps := Points(buckets);
    PointsRise(buckets);
    var t1, t2 := q1 * count, q2 * count;
    assert 0.0 <= t1;
    assert (q2 - q1) * count >= 0.0;
    assert t1 <= t2;
    WalkInRange(ps, (0.0, 0.0), t1);
    WalkInRange(ps, (0.0, 0.0), t2);
    WalkIsMonotone(ps, (0.0, 0.0), t1, t2);
  }

  lemma WalkIsMonotone(ps: seq<Point>, start: Point, t1: real, t2: real)
    requires Rising(ps, start) && start.1 <= t1 <= t2
    ensures Walk(ps, start, t1) <= Walk(ps, start, t2)
  {
    WalkInRange(ps, start, t1);
    WalkInRange(ps, start, t2);
    if start.1 < t1 && t2 <= Last(ps, start).1 {
      var x := Walk(ps, start, t2);
      WalkIsLeastPreimage(ps, start, t2, x);
      WalkIsLeastPreimage(ps, start, t1, x);
    } else if t1 == start.1 {
      WalkAtStart(ps, start);
    }
  }

  lemma WalkAtStart(ps: seq<Point>, start: Point)
    requires Rising(ps, start)
    ensures Walk(ps, start, start.1) == start.0
  {
    if ps != [] && ps[0].1 != start.1 {
      BetweenEnds(start.0, ps[0].0, ps[0].1 - start.1);
    }
  }

  /** The point before point `i`. */
  function Before(ps: seq<Point>, start: Point, i: nat): Point
    requires i < |ps|
  {
    if i == 0 then start else ps[i - 1]
  }

  /**
   * A target above the start's count is interpolated in a segment that rises from below it to it:
   * the equal-count branch is left to a target of zero, and nothing is divided by zero.
   */
  lemma {:induction false} PositiveTargetInterpolates(ps: seq<Point>, start: Point, t: real) returns (i: nat)
    requires start.1 < t <= Last(ps, start).1
    ensures i < |ps| && Before(ps, start, i).1 < t <= ps[i].1
    ensures var p, q := Before(ps, start, i), ps[i];
            Walk(ps, start, t) == Between(p.0, q.0, t - p.1, q.1 - p.1)
  {
    if ps[0].1 >= t {
      i := 0;
    } else {
      assert Last(ps, start) == Last(ps[1..], ps[0]);
      var k := PositiveTargetInterpolates(ps[1..], ps[0], t);
      i := k + 1;
    }
  }

  /** The curve jumps to 5 at bound 0, so no bound has the target 2. */
  lemma JumpAtZeroIsNotInverted()
    ensures var buckets := [(Finite(0.0), 5.0), (Finite(1.0), 10.0)];
            Quantile(buckets, 10.0, 0.2) == Some(0.0) && CumulativeAt(buckets, 0.0) == 5.0
  {
    var buckets := [(Finite(0.0), 5.0), (Finite(1.0), 10.0)];
    var ps := [(0.0, 5.0), (1.0, 10.0)];
    var rest := buckets[1..];
    assert rest == [(Finite(1.0), 10.0)] && |rest[1..]| == 0;
    assert Finites(rest) == [(1.0, 10.0)];
    assert Finites(buckets) == ps;
    var last := ps[1..];
    assert last == [(1.0, 10.0)] && |last[1..]| == 0;
    assert Sort(last, PointLe) == [(1.0, 10.0)];
    assert Sort(ps, PointLe) == ps;
    assert Points(buckets) == ps;
    assert Walk(ps, (0.0, 0.0), 2.0) == 0.0;
    assert Curve(last, (0.0, 5.0), 0.0) == 5.0;
  }

  /** Two buckets of bound 1 with counts 3 and 7: the target 3 is met at bound 1, where the curve is at 7. */
  lemma RepeatedBoundIsNotInverted()
    ensures InJump([(0.0, 0.0), (1.0, 3.0), (1.0, 7.0)], 3.0)
    ensures Walk([(1.0, 3.0), (1.0, 7.0)], (0.0, 0.0), 3.0) == 1.0
    ensures Curve([(1.0, 3.0), (1.0, 7.0)], (0.0, 0.0), 1.0) == 7.0
  {
    assert JumpsOver([(0.0, 0.0), (1.0, 3.0), (1.0, 7.0)], (1.0, 3.0), (1.0, 7.0), 3.0);
    var last := [(1.0, 3.0), (1.0, 7.0)][1..];
    assert last == [(1.0, 7.0)] && |last[1..]| == 0;
  }

  /** For a target of zero or less the first bucket decides: on its line from the origin, or 0 if it is empty. */
  lemma NonPositiveTarget(ps: seq<Point>, t: real)
    requires ps != [] && Rising(ps, (0.0, 0.0)) && t <= 0.0
    ensures ps[0].1 == 0.0 ==> Walk(ps, (0.0, 0.0), t) == 0.0
    ensures ps[0].1 > 0.0 ==> Times(Walk(ps, (0.0, 0.0), t), ps[0].1) == Times(ps[0].0, t)
  {
    if ps[0].1 != 0.0 {
      var product := ps[0].0 * t;
      QuotientTimes(product, ps[0].1);
      assert Walk(ps, (0.0, 0.0), t) == product / ps[0].1;
    }
  }

  lemma BetweenTimes(a: real, b: real, n: real, d: real)
    requires d != 0.0
    ensures Times(Between(a, b, n, d) - a, d) == Times(b - a, n)
  {
    QuotientTimes(Times(b - a, n), d);
  }

  /**
   * For any buckets at all: the first one whose count reaches the target is interpolated from the one before,
   * whose bound is returned if the counts are equal.
   */
  lemma {:induction false} FirstReachingDecides(ps: seq<Point>, start: Point, t: real, i: nat)
    requires i < |ps| && ps[i].1 >= t && forall j :: 0 <= j < i ==> ps[j].1 < t
    ensures var p, q, x := Before(ps, start, i), ps[i], Walk(ps, start, t);
            if q.1 == p.1 then x == p.0 else Times(x - p.0, q.1 - p.1) == Times(q.0 - p.0, t - p.1)
  {
    if i == 0 {
      if ps[0].1 != start.1 {
        BetweenTimes(start.0, ps[0].0, t - start.1, ps[0].1 - start.1);
      }
      hide Times, Between;
    } else {
      FirstReachingDecides(ps[1..], ps[0], t, i - 1);
    }
  }

  /** A target that no bucket reaches gives the last bound. */
  lemma {:induction false} LastBoundBeyondAll(ps: seq<Point>, start: Point, t: real)
    requires ps != [] && forall j :: 0 <= j < |ps| ==> ps[j].1 < t
    ensures Walk(ps, start, t) == ps[|ps| - 1].0
  {
    if |ps| > 1 {
      LastBoundBeyondAll(ps[1..], ps[0], t);
    } else {
      assert ps[1..] == [];
    }
  }

  /** The finite buckets in ascending order of bound and count, from a walk that begins at the origin. */
  lemma QuantileWalks(buckets: seq<(Bound, real)>, count: real, q: real)
    requires Quantile(buckets, count, q).Some?
    ensures Quantile(buckets, count, q).value == Walk(Points(buckets), (0.0, 0.0), q * count)
    ensures forall i, j :: 0 <= i < j < |Points(buckets)| ==>
              var a, b := Points(buckets)[i], Points(buckets)[j];
              a.0 < b.0 || (a.0 == b.0 && a.1 <= b.1)
    ensures multiset(Points(buckets)) == multiset(Finites(buckets))
    ensures forall p :: multiset(Points(buckets))[p] == multiset(buckets)[(Finite(p.0), p.1)]
  {
    var raw := Finites(buckets);
    PointLeIsTotal();
    SortSorts(raw, PointLe);
    SortPermutes(raw, PointLe);
    forall p {
      FinitesCount(buckets, p);
    }
    hide Sort;
    var ps := Points(buckets);
    forall i, j | 0 <= i < j < |ps|
      ensures ps[i].0 < ps[j].0 || (ps[i].0 == ps[j].0 && ps[i].1 <= ps[j].1)
    {
      assert PointLe(ps[i], ps[j]);
    }
  }
}

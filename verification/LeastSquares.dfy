/** What the isotonic fit is for: among all non-decreasing functions of the confidence, the pooled
    knots have the least squared error on the samples, and no other function has as little. */
module LeastSquares {
  import opened Samples
  import opened Isotonic

  // ---- Applying knots ----

  /** The value of the first knot at or above `p`, or of the last knot. */
  function Calibrated(p: real, knots: seq<Knot>): real {
    if knots == [] then p
    else if p <= knots[0].threshold || |knots| == 1 then knots[0].value
    else Calibrated(p, knots[1..])
  }

  function Fitted(knots: seq<Knot>): real -> real {
    p => Calibrated(p, knots)
  }

  lemma {:induction false} CalibratedAt(p: real, knots: seq<Knot>, k: nat)
    requires k < |knots|
    requires forall j :: 0 <= j < k ==> knots[j].threshold < p
    requires p <= knots[k].threshold || k == |knots| - 1
    ensures Calibrated(p, knots) == knots[k].value
  {
    if k > 0 {
      CalibratedAt(p, knots[1..], k - 1);
    }
  }

  method ApplyIsotonic(p: real, knots: seq<Knot>) returns (value: real)
    ensures value == Calibrated(p, knots)
  {
    if knots == [] {
      return p;
    }
    for k := 0 to |knots|
      invariant forall j :: 0 <= j < k ==> knots[j].threshold < p
    {
      if p <= knots[k].threshold {
        CalibratedAt(p, knots, k);
        return knots[k].value;
      }
    }
    CalibratedAt(p, knots, |knots| - 1);
    return knots[|knots| - 1].value;
  }

  ghost predicate Monotone(g: real -> real) {
    forall p, q :: p <= q ==> g(p) <= g(q)
  }

  predicate ValuesAscend(knots: seq<Knot>) {
    forall i, j :: 0 <= i < j < |knots| ==> knots[i].value <= knots[j].value
  }

  predicate ThresholdsStrict(knots: seq<Knot>) {
    forall i, j :: 0 <= i < j < |knots| ==> knots[i].threshold < knots[j].threshold
  }

  lemma {:induction false} CalibratedMonotone(p: real, q: real, knots: seq<Knot>)
    requires ValuesAscend(knots) && p <= q
    ensures Calibrated(p, knots) <= Calibrated(q, knots)
    ensures knots != [] ==> knots[0].value <= Calibrated(q, knots)
  {
    if |knots| > 1 {
      CalibratedMonotone(p, q, knots[1..]);
    }
  }

  // ---- Shape of a pooled fit ----

  lemma {:induction false} MeansAscendApart(blocks: seq<Block>, i: nat, j: nat)
    requires MeansAscend(blocks, |blocks|) && Weighted(blocks)
    requires i < j < |blocks|
    ensures blocks[i].Mean() <= blocks[j].Mean()
  {
    assert MeanNotAbove(blocks[j - 1], blocks[j]);
    if i + 1 < j {
      MeansAscendApart(blocks, i, j - 1);
    }
  }

  lemma {:induction false} SumWithinCount(part: seq<Block>)
    requires forall k :: 0 <= k < |part| ==> 0.0 <= part[k].sum <= part[k].count
    ensures 0.0 <= SumOf(part) <= CountOf(part)
  {
    if part != [] {
      SumWithinCount(part[..|part| - 1]);
    }
  }

  lemma MeanIsRate(block: Block)
    requires 0.0 <= block.sum <= block.count && block.count > 0.0
    ensures 0.0 <= block.Mean() <= 1.0
  {
    MeanTimesCount(block);
    SignOfFactor(block.Mean(), block.count);
    var miss := 1.0 - block.Mean();
    assert miss * block.count == block.count - block.sum;
    SignOfFactor(miss, block.count);
  }

  lemma BlockShape(samples: seq<Sample>, points: seq<Block>, from: nat, upTo: nat, block: Block)
    requires Aggregates(samples, points) && PoolsBetween(points, from, upTo, block)
    ensures 0.0 <= block.Mean() <= 1.0
    ensures CountAt(samples, block.threshold) > 0.0
  {
    var part := points[from..upTo];
    assert part[|part| - 1] == points[upTo - 1];
    forall k | 0 <= k < |part|
      ensures 0.0 <= part[k].sum <= part[k].count
    {
      assert part[k] == points[from + k];
    }
    SumWithinCount(part);
    MeanIsRate(block);
  }

  /** The knots have strictly rising thresholds and non-decreasing values in [0, 1], and every
      threshold is the confidence of some sample. */
  lemma PooledShape(samples: seq<Sample>, knots: seq<Knot>)
    requires PooledFit(samples, knots)
    ensures ThresholdsStrict(knots) && ValuesAscend(knots)
    ensures forall k :: 0 <= k < |knots| ==> 0.0 <= knots[k].value <= 1.0 && CountAt(samples, knots[k].threshold) > 0.0
    ensures knots == [] <==> samples == []
  {
    var points: seq<Block>, cuts: seq<nat>, blocks: seq<Block> :|
      Aggregates(samples, points) && KnotsPool(knots, points, cuts, blocks);
    BlocksWeighted(points, cuts, blocks);
    forall i, j | 0 <= i < j < |knots|
      ensures knots[i].threshold < knots[j].threshold && knots[i].value <= knots[j].value
    {
      ThresholdsAscend(points, cuts, blocks, i, j);
      MeansAscendApart(blocks, i, j);
    }
    forall k | 0 <= k < |knots|
      ensures 0.0 <= knots[k].value <= 1.0 && CountAt(samples, knots[k].threshold) > 0.0
    {
      BlockShape(samples, points, cuts[k], cuts[k + 1], blocks[k]);
    }
    if samples != [] {
      assert samples[0] in samples;
      assert CountAt(samples, samples[0].conf) > 0.0;
    }
    assert knots != [] ==> CountAt(samples, knots[0].threshold) > 0.0;
  }

  /** Applied to any confidence, fitted knots are monotone. */
  lemma FittedMonotone(samples: seq<Sample>, knots: seq<Knot>)
    requires PooledFit(samples, knots)
    ensures Monotone(Fitted(knots))
  {
    PooledShape(samples, knots);
    forall p, q | p <= q
      ensures Fitted(knots)(p) <= Fitted(knots)(q)
    {
      CalibratedMonotone(p, q, knots);
    }
  }

  /** Every point of block `k` is mapped to that block's mean. */
  lemma FittedOnBlock(samples: seq<Sample>, knots: seq<Knot>, points: seq<Block>, cuts: seq<nat>, blocks: seq<Block>,
                      k: nat, m: nat)
    requires Aggregates(samples, points) && KnotsPool(knots, points, cuts, blocks)
    requires k < |blocks| && PoolsBetween(points, cuts[k], cuts[k + 1], blocks[k]) && cuts[k] <= m < cuts[k + 1]
    ensures Fitted(knots)(points[m].threshold) == blocks[k].Mean()
  {
    forall j | 0 <= j < k
      ensures knots[j].threshold < points[m].threshold
    {
      ThresholdsAscend(points, cuts, blocks, j, k);
      assert PoolsBetween(points, cuts[j], cuts[j + 1], blocks[j]);
      assert blocks[j].threshold == points[cuts[j + 1] - 1].threshold;
    }
    assert blocks[k].threshold == points[cuts[k + 1] - 1].threshold;
    CalibratedAt(points[m].threshold, knots, k);
  }

  // ---- Totals over aggregated points ----

  ghost function PointTotal(points: seq<Block>, w: Block -> real): real {
    if points == [] then 0.0
    else PointTotal(points[..|points| - 1], w) + w(points[|points| - 1])
  }

  /** What a point contributes to the total of `f` over the samples. */
  function Spread(f: Sample -> real): Block -> real {
    (p: Block) => Weighed(p.sum, p.count, f(Sample(p.threshold, true)), f(Sample(p.threshold, false)))
  }

  lemma {:induction false} PointTotalExtend(points: seq<Block>, from: nat, upTo: nat, w: Block -> real)
    requires from <= upTo <= |points|
    ensures PointTotal(points[..upTo], w) == PointTotal(points[..from], w) + PointTotal(points[from..upTo], w)
  {
    if from < upTo {
      PointTotalExtend(points, from, upTo - 1, w);
      assert points[..upTo][..upTo - 1] == points[..upTo - 1];
      assert points[from..upTo][..upTo - 1 - from] == points[from..upTo - 1];
    }
  }

  lemma {:induction false} PointTotalCombine(part: seq<Block>, a: Block -> real, b: Block -> real, c: Block -> real,
                                             d: Block -> real)
    requires forall k :: 0 <= k < |part| ==> a(part[k]) == b(part[k]) + c(part[k]) - 2.0 * d(part[k])
    ensures PointTotal(part, a) == PointTotal(part, b) + PointTotal(part, c) - 2.0 * PointTotal(part, d)
  {
    if part != [] {
      PointTotalCombine(part[..|part| - 1], a, b, c, d);
    }
  }

  function Thresholds(points: seq<Block>): (xs: seq<real>)
    ensures |xs| == |points| && forall k :: 0 <= k < |xs| ==> xs[k] == points[k].threshold
  {
    seq(|points|, k requires 0 <= k < |points| => points[k].threshold)
  }

  lemma SpreadIsTotalAt(samples: seq<Sample>, p: Block, f: Sample -> real)
    requires p.count == CountAt(samples, p.threshold) && p.sum == CorrectAt(samples, p.threshold)
    ensures Spread(f)(p) == TotalAt(samples, f, p.threshold)
  {
  }

  lemma {:induction false} GroupedIsPointTotal(samples: seq<Sample>, points: seq<Block>, f: Sample -> real,
                                               w: Block -> real, n: nat)
    requires n <= |points|
    requires forall k :: 0 <= k < |points| ==> w(points[k]) == TotalAt(samples, f, points[k].threshold)
    ensures GroupedTotal(samples, f, Thresholds(points)[..n]) == PointTotal(points[..n], w)
  {
    if n > 0 {
      GroupedIsPointTotal(samples, points, f, w, n - 1);
      assert Thresholds(points)[..n][..n - 1] == Thresholds(points)[..n - 1];
      assert points[..n][..n - 1] == points[..n - 1];
    }
  }

  /** A total over samples is the total over their aggregated points. */
  lemma TotalIsPointTotal(samples: seq<Sample>, points: seq<Block>, f: Sample -> real)
    requires Aggregates(samples, points)
    ensures Total(samples, f) == PointTotal(points, Spread(f))
  {
    var xs := Thresholds(points);
    forall s | s in samples
      ensures s.conf in xs
    {
      assert CountAt(samples, s.conf) > 0.0;
      var k :| 0 <= k < |points| && points[k].threshold == s.conf;
      assert xs[k] == s.conf;
    }
    TotalByConfidence(samples, f, xs);
    forall k | 0 <= k < |points|
      ensures Spread(f)(points[k]) == TotalAt(samples, f, points[k].threshold)
    {
      SpreadIsTotalAt(samples, points[k], f);
    }
    GroupedIsPointTotal(samples, points, f, Spread(f), |points|);
    assert xs[..|points|] == xs && points[..|points|] == points;
  }

  // ---- Least squares ----

  function Square(x: real): real {
    x * x
  }

  function SquaredError(g: real -> real): Sample -> real {
    (s: Sample) => Square(s.Y() - g(s.conf))
  }

  function SquaredGap(g: real -> real, h: real -> real): Sample -> real {
    (s: Sample) => Square(g(s.conf) - h(s.conf))
  }

  /** Total squared error of predicting each label by `g` of its confidence. */
  function SSE(samples: seq<Sample>, g: real -> real): real {
    Total(samples, SquaredError(g))
  }

  /** (correct - v * count) * (g - v) at a point. */
  function CrossAt(g: real -> real, v: real): Block -> real {
    (p: Block) => (p.sum - v * p.count) * (g(p.threshold) - v)
  }

  lemma CrossStep(w: real, e: real, d: real, y: real, z: real)
    requires w <= e * y && e >= 0.0 && y <= z
    ensures w + d * z <= (e + d) * z
  {
    assert e * (z - y) >= 0.0;
    assert (e + d) * z == e * z + d * z;
  }

  /** Summation by parts: with non-negative partial excesses, a non-decreasing `g` weighs the total
      excess at most by its last value. */
  lemma {:induction false} CrossBound(part: seq<Block>, g: real -> real, v: real)
    requires part != [] && Ascending(part) && Monotone(g) && PrefixesDominate(part, v)
    ensures PointTotal(part, CrossAt(g, v)) <= Excess(part, v) * (g(part[|part| - 1].threshold) - v)
  {
    var init, p := part[..|part| - 1], part[|part| - 1];
    var before := if init == [] then g(p.threshold) - v else g(init[|init| - 1].threshold) - v;
    if init != [] {
      forall j | 0 <= j <= |init|
        ensures Excess(init[..j], v) >= 0.0
      {
        assert init[..j] == part[..j];
      }
      CrossBound(init, g, v);
    }
    assert part[..|init|] == init;
    CrossStep(PointTotal(init, CrossAt(g, v)), Excess(init, v), p.sum - v * p.count, before, g(p.threshold) - v);
  }

  lemma OnePointLoss(s: real, n: real, g: real, v: real)
    ensures Weighed(s, n, Square(1.0 - g), Square(0.0 - g))
            == Weighed(s, n, Square(1.0 - v), Square(0.0 - v)) + Weighed(s, n, Square(g - v), Square(g - v))
               - 2.0 * ((s - v * n) * (g - v))
  {
    assert s * Square(1.0 - g) + (n - s) * Square(0.0 - g) == s - 2.0 * (s * g) + n * (g * g);
    assert s * Square(1.0 - v) + (n - s) * Square(0.0 - v) == s - 2.0 * (s * v) + n * (v * v);
    assert s * Square(g - v) + (n - s) * Square(g - v) == n * (g * g) - 2.0 * (n * (g * v)) + n * (v * v);
    assert (s - v * n) * (g - v) == s * g - s * v - n * (g * v) + n * (v * v);
  }

  lemma LossAtPoint(p: Block, g: real -> real, h: real -> real, v: real)
    requires h(p.threshold) == v
    ensures Spread(SquaredError(g))(p)
            == Spread(SquaredError(h))(p) + Spread(SquaredGap(g, h))(p) - 2.0 * CrossAt(g, v)(p)
  {
    OnePointLoss(p.sum, p.count, g(p.threshold), v);
  }

  lemma LossOnRun(part: seq<Block>, g: real -> real, h: real -> real, v: real)
    requires forall k :: 0 <= k < |part| ==> h(part[k].threshold) == v
    ensures PointTotal(part, Spread(SquaredError(g)))
            == PointTotal(part, Spread(SquaredError(h))) + PointTotal(part, Spread(SquaredGap(g, h)))
               - 2.0 * PointTotal(part, CrossAt(g, v))
  {
    var a, b, c, d := Spread(SquaredError(g)), Spread(SquaredError(h)), Spread(SquaredGap(g, h)), CrossAt(g, v);
    forall k | 0 <= k < |part|
      ensures a(part[k]) == b(part[k]) + c(part[k]) - 2.0 * d(part[k])
    {
      LossAtPoint(part[k], g, h, v);
    }
    PointTotalCombine(part, a, b, c, d);
  }

  /** On `part` the loss of `g` exceeds that of `h` by their squared gap at least. */
  ghost predicate LosesTo(part: seq<Block>, g: real -> real, h: real -> real) {
    PointTotal(part, Spread(SquaredError(h))) + PointTotal(part, Spread(SquaredGap(g, h)))
    <= PointTotal(part, Spread(SquaredError(g)))
  }

  lemma LosesOnBlock(part: seq<Block>, block: Block, g: real -> real, h: real -> real)
    requires Pools(block, part) && Ascending(part) && Monotone(g)
    requires forall k :: 0 <= k < |part| ==> h(part[k].threshold) == block.Mean()
    ensures LosesTo(part, g, h)
  {
    LossOnRun(part, g, h, block.Mean());
    CrossBound(part, g, block.Mean());
    PooledHasNoExcess(block, part);
  }

  lemma LosesExtend(points: seq<Block>, from: nat, upTo: nat, g: real -> real, h: real -> real)
    requires from <= upTo <= |points|
    requires LosesTo(points[..from], g, h) && LosesTo(points[from..upTo], g, h)
    ensures LosesTo(points[..upTo], g, h)
  {
    PointTotalExtend(points, from, upTo, Spread(SquaredError(h)));
    PointTotalExtend(points, from, upTo, Spread(SquaredGap(g, h)));
    PointTotalExtend(points, from, upTo, Spread(SquaredError(g)));
  }

  lemma LosesOnNthBlock(samples: seq<Sample>, knots: seq<Knot>, points: seq<Block>, cuts: seq<nat>,
                        blocks: seq<Block>, g: real -> real, k: nat)
    requires Aggregates(samples, points) && KnotsPool(knots, points, cuts, blocks) && Monotone(g)
    requires k < |blocks|
    ensures cuts[k] < cuts[k + 1] <= |points| && LosesTo(points[cuts[k]..cuts[k + 1]], g, Fitted(knots))
  {
    assert PoolsBetween(points, cuts[k], cuts[k + 1], blocks[k]);
    var part := points[cuts[k]..cuts[k + 1]];
    forall m | 0 <= m < |part|
      ensures Fitted(knots)(part[m].threshold) == blocks[k].Mean()
    {
      FittedOnBlock(samples, knots, points, cuts, blocks, k, cuts[k] + m);
    }
    LosesOnBlock(part, blocks[k], g, Fitted(knots));
  }

  ghost predicate LosesBetween(points: seq<Block>, from: nat, upTo: nat, g: real -> real, h: real -> real) {
    from <= upTo <= |points| && LosesTo(points[from..upTo], g, h)
  }

  lemma {:induction false} LosesUpTo(points: seq<Block>, cuts: seq<nat>, g: real -> real, h: real -> real, n: nat)
    requires n < |cuts| && cuts[0] == 0
    requires forall k :: 0 <= k < n ==> LosesBetween(points, cuts[k], cuts[k + 1], g, h)
    ensures cuts[n] <= |points| && LosesTo(points[..cuts[n]], g, h)
  {
    if n > 0 {
      assert LosesBetween(points, cuts[n - 1], cuts[n - 1 + 1], g, h);
      LosesUpTo(points, cuts, g, h, n - 1);
      LosesExtend(points, cuts[n - 1], cuts[n], g, h);
    }
  }

  lemma SquareSign(x: real)
    ensures Square(x) >= 0.0
    ensures Square(x) == 0.0 ==> x == 0.0
  {
    if x != 0.0 {
      assert Square(x) / x == x;
    }
  }

  lemma {:induction false} GapNonNegative(samples: seq<Sample>, g: real -> real, h: real -> real)
    ensures Total(samples, SquaredGap(g, h)) >= 0.0
    ensures Total(samples, SquaredGap(g, h)) == 0.0 ==> forall s :: s in samples ==> g(s.conf) == h(s.conf)
  {
    if samples != [] {
      var init, last := samples[..|samples| - 1], samples[|samples| - 1];
      GapNonNegative(init, g, h);
      SquareSign(g(last.conf) - h(last.conf));
      assert samples == init + [last];
    }
  }

  /** The pooled knots minimise the squared error over all non-decreasing functions, and any other
      such function loses at least its squared distance from them. */
  lemma PooledIsLeastSquares(samples: seq<Sample>, knots: seq<Knot>, g: real -> real)
    requires PooledFit(samples, knots) && Monotone(g)
    ensures SSE(samples, Fitted(knots)) + Total(samples, SquaredGap(g, Fitted(knots))) <= SSE(samples, g)
    ensures SSE(samples, Fitted(knots)) <= SSE(samples, g)
  {
    var points: seq<Block>, cuts: seq<nat>, blocks: seq<Block> :|
      Aggregates(samples, points) && KnotsPool(knots, points, cuts, blocks);
    var h := Fitted(knots);
    forall k | 0 <= k < |blocks|
      ensures LosesBetween(points, cuts[k], cuts[k + 1], g, h)
    {
      LosesOnNthBlock(samples, knots, points, cuts, blocks, g, k);
    }
    LosesUpTo(points, cuts, g, h, |blocks|);
    assert points[..|points|] == points;
    TotalIsPointTotal(samples, points, SquaredError(h));
    TotalIsPointTotal(samples, points, SquaredGap(g, h));
    TotalIsPointTotal(samples, points, SquaredError(g));
    GapNonNegative(samples, g, h);
  }

  lemma {:induction false} SameOnSamples(samples: seq<Sample>, f: Sample -> real, f': Sample -> real)
    requires forall s :: s in samples ==> f(s) == f'(s)
    ensures Total(samples, f) == Total(samples, f')
  {
    if samples != [] {
      var init, last := samples[..|samples| - 1], samples[|samples| - 1];
      assert samples == init + [last];
      SameOnSamples(init, f, f');
    }
  }

  /** A monotone function does as well as the fit exactly when it agrees with it on every sample. */
  lemma LeastSquaresUnique(samples: seq<Sample>, knots: seq<Knot>, g: real -> real)
    requires PooledFit(samples, knots) && Monotone(g)
    ensures SSE(samples, g) == SSE(samples, Fitted(knots))
            <==> forall s :: s in samples ==> g(s.conf) == Fitted(knots)(s.conf)
  {
    PooledIsLeastSquares(samples, knots, g);
    GapNonNegative(samples, g, Fitted(knots));
    if forall s :: s in samples ==> g(s.conf) == Fitted(knots)(s.conf) {
      SameOnSamples(samples, SquaredError(g), SquaredError(Fitted(knots)));
    }
  }
}

/** Ten-bucket reliability scoring (`_bucket` and `_ece_brier_on_buckets`), and what it must say
    about the samples the isotonic calibrator was fitted on. */
module BucketScore {
  import opened Samples
  import opened Isotonic
  import opened LeastSquares

  const N_BUCKETS: nat := 10

  /** The confidence is a probability. */
  predicate InUnit(conf: real) {
    0.0 <= conf <= 1.0
  }

  predicate AllInUnit(samples: seq<Sample>) {
    forall s :: s in samples ==> InUnit(s.conf)
  }

  /** The confidence has a bucket; for a lower one the list index fails. */
  predicate Scorable(conf: real) {
    conf > -1.1
  }

  predicate AllScorable(samples: seq<Sample>) {
    forall s :: s in samples ==> Scorable(s.conf)
  }

  /** Cuts off the fraction, towards zero. */
  function Truncated(x: real): int {
    if x >= 0.0 then x.Floor else -(-x).Floor
  }

  /** Probabilities fall into ten buckets of equal width.  Beyond one the last bucket takes them; just below zero the
      first does, and further below a negative index counts from the last. */
  function BucketOf(conf: real): (b: nat)
    requires Scorable(conf)
    ensures b < N_BUCKETS
    ensures 0.0 <= conf < 1.0 ==> b as real <= 10.0 * conf < b as real + 1.0
    ensures conf >= 1.0 ==> b == 9
    ensures -0.1 < conf < 0.0 ==> b == 0
    ensures conf <= -0.1 ==> (b - 11) as real < 10.0 * conf <= (b - 10) as real
  {
    if conf >= 1.0 then N_BUCKETS - 1
    else
      var index := Truncated(conf * 10.0);
      if index >= 0 then index else index + N_BUCKETS
  }

  predicate Lands(conf: real, b: nat) {
    Scorable(conf) && BucketOf(conf) == b
  }

  /** The counters of one bucket. */
  datatype Tallies = Tallies(n: real, correct: real, confSum: real)

  function Hits(b: nat): Sample -> real {
    (s: Sample) => if Lands(s.conf, b) then 1.0 else 0.0
  }

  function CorrectHits(b: nat): Sample -> real {
    (s: Sample) => if Lands(s.conf, b) then s.Y() else 0.0
  }

  function ConfHits(b: nat): Sample -> real {
    (s: Sample) => if Lands(s.conf, b) then s.conf else 0.0
  }

  function TalliesOf(samples: seq<Sample>, b: nat): Tallies {
    Tallies(Total(samples, Hits(b)), Total(samples, CorrectHits(b)), Total(samples, ConfHits(b)))
  }

  function Abs(x: real): real {
    if x < 0.0 then -x else x
  }

  /** max(total, 1) */
  function Denominator(total: nat): (d: real)
    ensures d >= 1.0
  {
    if total == 0 then 1.0 else total as real
  }

  /** The weighted gap between accuracy and mean confidence in one bucket. */
  function Gap(t: Tallies, total: nat): real {
    if t.n == 0.0 then 0.0 else (t.n / Denominator(total)) * Abs(t.correct / t.n - t.confSum / t.n)
  }

  function GapSum(buckets: seq<Tallies>, total: nat): real {
    if buckets == [] then 0.0
    else GapSum(buckets[..|buckets| - 1], total) + Gap(buckets[|buckets| - 1], total)
  }

  function Buckets(samples: seq<Sample>): seq<Tallies> {
    seq(N_BUCKETS, b requires 0 <= b => TalliesOf(samples, b))
  }

  /** Expected calibration error. */
  function ECE(samples: seq<Sample>): real {
    GapSum(Buckets(samples), |samples|)
  }

  function Identity(): real -> real {
    p => p
  }

  function Brier(samples: seq<Sample>): real {
    SSE(samples, Identity()) / Denominator(|samples|)
  }

  lemma TalliesNext(samples: seq<Sample>, i: nat, b: nat)
    requires i < |samples| && Scorable(samples[i].conf)
    ensures var s, t := samples[i], TalliesOf(samples[..i], b);
            TalliesOf(samples[..i + 1], b)
            == if b == BucketOf(s.conf) then Tallies(t.n + 1.0, t.correct + s.Y(), t.confSum + s.conf) else t
  {
    assert samples[..i + 1][..i] == samples[..i];
  }

  /** The pass over the samples. */
  method CountBuckets(samples: seq<Sample>) returns (buckets: seq<Tallies>, brierSum: real)
    requires AllScorable(samples)
    ensures buckets == Buckets(samples) && brierSum == SSE(samples, Identity())
  {
    var counters := new Tallies[N_BUCKETS](_ => Tallies(0.0, 0.0, 0.0));
    brierSum := 0.0;
    for i := 0 to |samples|
      invariant forall b :: 0 <= b < N_BUCKETS ==> counters[b] == TalliesOf(samples[..i], b)
      invariant brierSum == SSE(samples[..i], Identity())
    {
      var s := samples[i];
      assert samples[..i + 1][..i] == samples[..i];
      assert s in samples;
      var at := BucketOf(s.conf);
      forall b | 0 <= b < N_BUCKETS
        ensures TalliesOf(samples[..i + 1], b)
             == if b == at then Tallies(counters[b].n + 1.0, counters[b].correct + s.Y(), counters[b].confSum + s.conf)
                else counters[b]
      {
        TalliesNext(samples, i, b);
      }
      counters[at] := Tallies(counters[at].n + 1.0, counters[at].correct + s.Y(), counters[at].confSum + s.conf);
      brierSum := brierSum + Square(s.Y() - s.conf);
    }
    assert samples[..|samples|] == samples;
    buckets := counters[..];
    assert buckets == Buckets(samples);
  }

  /** The pass over the buckets. */
  method WeighGaps(buckets: seq<Tallies>, total: nat) returns (ece: real)
    ensures ece == GapSum(buckets, total)
  {
    ece := 0.0;
    for b := 0 to |buckets|
      invariant ece == GapSum(buckets[..b], total)
    {
      assert buckets[..b + 1][..b] == buckets[..b];
      if buckets[b].n != 0.0 {
        var accuracy, meanConf := buckets[b].correct / buckets[b].n, buckets[b].confSum / buckets[b].n;
        ece := ece + (buckets[b].n / Denominator(total)) * Abs(accuracy - meanConf);
      }
    }
    assert buckets[..|buckets|] == buckets;
  }

  method EceBrierOnBuckets(samples: seq<Sample>) returns (ece: real, brier: real, buckets: seq<Tallies>)
    requires AllScorable(samples)
    ensures ece == ECE(samples)
    ensures brier == Brier(samples)
    ensures buckets == Buckets(samples)
  {
    var brierSum;
    buckets, brierSum := CountBuckets(samples);
    ece := WeighGaps(buckets, |samples|);
    brier := brierSum / Denominator(|samples|);
  }

  // ---- When the calibration error vanishes ----

  predicate Balanced(t: Tallies) {
    t.n == 0.0 || t.correct == t.confSum
  }

  lemma ProductSign(x: real, y: real)
    requires x > 0.0 && y >= 0.0
    ensures x * y >= 0.0
    ensures x * y == 0.0 <==> y == 0.0
  {
    if y != 0.0 {
      assert x * y / y == x;
    }
  }

  lemma GapZeroIff(t: Tallies, total: nat)
    requires t.n >= 0.0
    ensures Gap(t, total) >= 0.0
    ensures Gap(t, total) == 0.0 <==> Balanced(t)
  {
    if t.n > 0.0 {
      var weight, gap := t.n / Denominator(total), Abs(t.correct / t.n - t.confSum / t.n);
      assert weight * Denominator(total) == t.n;
      assert weight > 0.0;
      ProductSign(weight, gap);
      assert t.correct / t.n * t.n == t.correct && t.confSum / t.n * t.n == t.confSum;
    }
  }

  lemma {:induction false} GapSumZeroIff(buckets: seq<Tallies>, total: nat)
    requires forall b :: 0 <= b < |buckets| ==> buckets[b].n >= 0.0
    ensures GapSum(buckets, total) >= 0.0
    ensures GapSum(buckets, total) == 0.0 <==> forall b :: 0 <= b < |buckets| ==> Balanced(buckets[b])
  {
    if buckets != [] {
      GapSumZeroIff(buckets[..|buckets| - 1], total);
      GapZeroIff(buckets[|buckets| - 1], total);
    }
  }

  lemma {:induction false} HitsNonNegative(samples: seq<Sample>, b: nat)
    ensures Total(samples, Hits(b)) >= 0.0
  {
    if samples != [] {
      HitsNonNegative(samples[..|samples| - 1], b);
    }
  }

  /** The error is zero exactly when every bucket's confidences sum to its number of correct samples. */
  lemma ECEZeroIff(samples: seq<Sample>)
    ensures ECE(samples) >= 0.0
    ensures ECE(samples) == 0.0 <==> forall b :: 0 <= b < N_BUCKETS ==> Balanced(TalliesOf(samples, b))
  {
    forall b | 0 <= b < N_BUCKETS
      ensures Buckets(samples)[b] == TalliesOf(samples, b) && TalliesOf(samples, b).n >= 0.0
    {
      HitsNonNegative(samples, b);
    }
    GapSumZeroIff(Buckets(samples), |samples|);
  }

  // ---- Scoring the samples the knots were fitted on ----

  function CalibrateOne(s: Sample, knots: seq<Knot>): Sample {
    Sample(Calibrated(s.conf, knots), s.correct)
  }

  function Calibrate(samples: seq<Sample>, knots: seq<Knot>): seq<Sample> {
    seq(|samples|, i requires 0 <= i < |samples| => CalibrateOne(samples[i], knots))
  }

  function AfterCalibration(f: Sample -> real, knots: seq<Knot>): Sample -> real {
    (s: Sample) => f(CalibrateOne(s, knots))
  }

  lemma {:induction false} TotalOfCalibrated(samples: seq<Sample>, knots: seq<Knot>, f: Sample -> real)
    ensures Total(Calibrate(samples, knots), f) == Total(samples, AfterCalibration(f, knots))
  {
    if samples != [] {
      assert Calibrate(samples, knots)[..|samples| - 1] == Calibrate(samples[..|samples| - 1], knots);
      TotalOfCalibrated(samples[..|samples| - 1], knots, f);
    }
  }

  /** Label minus confidence of a sample that lands in bucket `b`. */
  function Residual(b: nat): Sample -> real {
    (s: Sample) => if Lands(s.conf, b) then s.Y() - s.conf else 0.0
  }

  lemma {:induction false} ResidualIs(samples: seq<Sample>, b: nat)
    ensures Total(samples, Residual(b)) == Total(samples, CorrectHits(b)) - Total(samples, ConfHits(b))
  {
    if samples != [] {
      ResidualIs(samples[..|samples| - 1], b);
    }
  }

  lemma WeighResidual(c: real, n: real, v: real)
    ensures Weighed(c, n, 1.0 - v, 0.0 - v) == c - v * n
  {
    assert c * (1.0 - v) == c - c * v;
    assert (n - c) * (0.0 - v) == c * v - n * v;
  }

  lemma ResidualAtPoint(p: Block, knots: seq<Knot>, b: nat, v: real)
    requires Calibrated(p.threshold, knots) == v
    ensures Spread(AfterCalibration(Residual(b), knots))(p) == if Lands(v, b) then p.sum - v * p.count else 0.0
  {
    var f := AfterCalibration(Residual(b), knots);
    assert CalibrateOne(Sample(p.threshold, true), knots) == Sample(v, true);
    assert CalibrateOne(Sample(p.threshold, false), knots) == Sample(v, false);
    assert f(Sample(p.threshold, true)) == Residual(b)(Sample(v, true));
    assert f(Sample(p.threshold, false)) == Residual(b)(Sample(v, false));
    if Lands(v, b) {
      assert f(Sample(p.threshold, true)) == 1.0 - v && f(Sample(p.threshold, false)) == 0.0 - v;
      WeighResidual(p.sum, p.count, v);
    } else {
      assert f(Sample(p.threshold, true)) == 0.0 && f(Sample(p.threshold, false)) == 0.0;
    }
  }

  lemma {:induction false} ResidualOnRun(part: seq<Block>, knots: seq<Knot>, b: nat, v: real)
    requires forall k :: 0 <= k < |part| ==> Calibrated(part[k].threshold, knots) == v
    ensures PointTotal(part, Spread(AfterCalibration(Residual(b), knots)))
            == if Lands(v, b) then Excess(part, v) else 0.0
  {
    if part != [] {
      ResidualOnRun(part[..|part| - 1], knots, b, v);
      ResidualAtPoint(part[|part| - 1], knots, b, v);
    }
  }

  ghost predicate ZeroBetween(points: seq<Block>, from: nat, upTo: nat, w: Block -> real) {
    from <= upTo <= |points| && PointTotal(points[from..upTo], w) == 0.0
  }

  lemma {:induction false} ZeroUpTo(points: seq<Block>, cuts: seq<nat>, w: Block -> real, n: nat)
    requires n < |cuts| && cuts[0] == 0
    requires forall k :: 0 <= k < n ==> ZeroBetween(points, cuts[k], cuts[k + 1], w)
    ensures cuts[n] <= |points| && PointTotal(points[..cuts[n]], w) == 0.0
  {
    if n > 0 {
      assert ZeroBetween(points, cuts[n - 1], cuts[n - 1 + 1], w);
      ZeroUpTo(points, cuts, w, n - 1);
      PointTotalExtend(points, cuts[n - 1], cuts[n], w);
    }
  }

  lemma ResidualOnNthBlock(samples: seq<Sample>, knots: seq<Knot>, points: seq<Block>, cuts: seq<nat>,
                           blocks: seq<Block>, b: nat, k: nat)
    requires Aggregates(samples, points) && KnotsPool(knots, points, cuts, blocks) && k < |blocks|
    ensures ZeroBetween(points, cuts[k], cuts[k + 1], Spread(AfterCalibration(Residual(b), knots)))
  {
    assert PoolsBetween(points, cuts[k], cuts[k + 1], blocks[k]);
    var part := points[cuts[k]..cuts[k + 1]];
    forall m | 0 <= m < |part|
      ensures Calibrated(part[m].threshold, knots) == blocks[k].Mean()
    {
      FittedOnBlock(samples, knots, points, cuts, blocks, k, cuts[k] + m);
    }
    ResidualOnRun(part, knots, b, blocks[k].Mean());
    PooledHasNoExcess(blocks[k], part);
  }

  /** Each bucket of the calibrated training set is balanced: the pooled blocks that land in it have
      no excess. */
  lemma TrainingBucketBalanced(samples: seq<Sample>, knots: seq<Knot>, b: nat)
    requires PooledFit(samples, knots)
    ensures Balanced(TalliesOf(Calibrate(samples, knots), b))
  {
    var points: seq<Block>, cuts: seq<nat>, blocks: seq<Block> :|
      Aggregates(samples, points) && KnotsPool(knots, points, cuts, blocks);
    var f := AfterCalibration(Residual(b), knots);
    forall k | 0 <= k < |blocks|
      ensures ZeroBetween(points, cuts[k], cuts[k + 1], Spread(f))
    {
      ResidualOnNthBlock(samples, knots, points, cuts, blocks, b, k);
    }
    ZeroUpTo(points, cuts, Spread(f), |blocks|);
    assert points[..|points|] == points;
    TotalIsPointTotal(samples, points, f);
    TotalOfCalibrated(samples, knots, Residual(b));
    ResidualIs(Calibrate(samples, knots), b);
  }

  lemma {:induction false} CalibratedInUnit(p: real, knots: seq<Knot>)
    requires knots != [] && forall k :: 0 <= k < |knots| ==> InUnit(knots[k].value)
    ensures InUnit(Calibrated(p, knots))
  {
    if |knots| > 1 {
      CalibratedInUnit(p, knots[1..]);
    }
  }

  /** In exact arithmetic the expected calibration error on the training set is zero. */
  lemma TrainingECEIsZero(samples: seq<Sample>, knots: seq<Knot>)
    requires PooledFit(samples, knots)
    ensures AllInUnit(Calibrate(samples, knots)) && ECE(Calibrate(samples, knots)) == 0.0
  {
    PooledShape(samples, knots);
    forall b | 0 <= b < N_BUCKETS
      ensures Balanced(TalliesOf(Calibrate(samples, knots), b))
    {
      TrainingBucketBalanced(samples, knots, b);
    }
    ECEZeroIff(Calibrate(samples, knots));
    forall s | s in samples && knots != []
      ensures InUnit(Calibrated(s.conf, knots))
    {
      CalibratedInUnit(s.conf, knots);
    }
  }

  lemma SquaredErrorOfCalibrated(samples: seq<Sample>, knots: seq<Knot>)
    ensures SSE(Calibrate(samples, knots), Identity()) == SSE(samples, Fitted(knots))
  {
    TotalOfCalibrated(samples, knots, SquaredError(Identity()));
    var f, f' := AfterCalibration(SquaredError(Identity()), knots), SquaredError(Fitted(knots));
    forall s | s in samples
      ensures f(s) == f'(s)
    {
      assert CalibrateOne(s, knots).Y() == s.Y() && Fitted(knots)(s.conf) == Calibrated(s.conf, knots);
    }
    SameOnSamples(samples, f, f');
  }

  lemma QuotientOrder(x: real, y: real, d: real)
    requires x <= y && d >= 1.0
    ensures x / d <= y / d
  {
  }

  /** Calibrating the training set never raises its Brier score. */
  lemma TrainingBrierImproves(samples: seq<Sample>, knots: seq<Knot>)
    requires PooledFit(samples, knots)
    ensures Brier(Calibrate(samples, knots)) <= Brier(samples)
  {
    PooledIsLeastSquares(samples, knots, Identity());
    SquaredErrorOfCalibrated(samples, knots);
    QuotientOrder(SSE(Calibrate(samples, knots), Identity()), SSE(samples, Identity()), Denominator(|samples|));
  }
}

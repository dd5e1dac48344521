/** How large the scores of `BucketScore` are, in terms of the samples alone. */
module ScoreSize {
  import opened Samples
  import opened LeastSquares
  import opened BucketScore
  import opened Filters

  // ---- The tallies ----

  function Landing(b: nat): Sample -> bool {
    (s: Sample) => Lands(s.conf, b)
  }

  function LandingCorrect(b: nat): Sample -> bool {
    (s: Sample) => Lands(s.conf, b) && s.correct
  }

  /** A bucket counts the samples that land in it, the correct ones among them, and sums their confidences. */
  lemma {:induction false} TalliesAre(samples: seq<Sample>, b: nat)
    ensures var t := TalliesOf(samples, b);
            && t.n == |Keep(samples, Landing(b))| as real
            && t.correct == |Keep(samples, LandingCorrect(b))| as real
            && t.confSum == Total(Keep(samples, Landing(b)), (s: Sample) => s.conf)
  {
    if samples != [] {
      var init, last := samples[..|samples| - 1], samples[|samples| - 1];
      TalliesAre(init, b);
      TotalAdds(Keep(init, Landing(b)), [last], (s: Sample) => s.conf);
      assert Keep(init, Landing(b)) + [] == Keep(init, Landing(b));
    }
  }

  // ---- The calibration error ----

  /** The residuals of the first `n` buckets, without their signs. */
  function Distances(samples: seq<Sample>, n: nat): real {
    if n == 0 then 0.0
    else
      var residual := Total(samples, Residual(n - 1));
      Distances(samples, n - 1) + if residual >= 0.0 then residual else 0.0 - residual
  }

  lemma ScaledAbs(gap: real, n: real)
    requires n > 0.0
    ensures Abs(gap) * n == Abs(gap * n)
  {
    if gap >= 0.0 {
      assert gap * n >= 0.0;
    } else {
      assert (0.0 - gap) * n > 0.0;
    }
  }

  lemma Reweigh(n: real, d: real, x: real)
    requires d > 0.0
    ensures ((n / d) * x) * d == x * n
  {
    var w := n / d;
    assert w * d == n;
    assert (w * x) * d == x * (w * d);
  }

  lemma DifferenceTimes(c: real, f: real, n: real)
    requires n > 0.0
    ensures (c / n - f / n) * n == c - f
  {
    assert c / n * n == c && f / n * n == f;
  }

  /** In one bucket the weight cancels out. */
  lemma GapTimes(t: Tallies, total: nat)
    requires t.n > 0.0 && total > 0
    ensures Gap(t, total) * (total as real) == Abs(t.correct - t.confSum)
  {
    var gap := t.correct / t.n - t.confSum / t.n;
    Reweigh(t.n, total as real, Abs(gap));
    ScaledAbs(gap, t.n);
    DifferenceTimes(t.correct, t.confSum, t.n);
  }

  lemma {:induction false} EmptyBucket(samples: seq<Sample>, b: nat)
    requires Total(samples, Hits(b)) == 0.0
    ensures Total(samples, Residual(b)) == 0.0
  {
    if samples != [] {
      var init, last := samples[..|samples| - 1], samples[|samples| - 1];
      HitsNonNegative(init, b);
      assert Hits(b)(last) >= 0.0;
      EmptyBucket(init, b);
    }
  }

  lemma {:induction false} GapIs(samples: seq<Sample>, b: nat)
    requires samples != []
    ensures Gap(TalliesOf(samples, b), |samples|) * (|samples| as real) == Abs(Total(samples, Residual(b)))
  {
    HitsNonNegative(samples, b);
    ResidualIs(samples, b);
    if TalliesOf(samples, b).n == 0.0 {
      EmptyBucket(samples, b);
    } else {
      GapTimes(TalliesOf(samples, b), |samples|);
    }
  }

  function SumOf(xs: seq<real>): real {
    if xs == [] then 0.0 else SumOf(xs[..|xs| - 1]) + xs[|xs| - 1]
  }

  /** `x` taken `n` times. */
  function Repeated(x: real, n: nat): real {
    if n == 0 then 0.0 else Repeated(x, n - 1) + x
  }

  lemma {:induction false} RepeatedIs(x: real, n: nat)
    ensures Repeated(x, n) == x * (n as real)
  {
    if n > 0 {
      RepeatedIs(x, n - 1);
      assert x * (n as real) == x * ((n - 1) as real) + x;
    }
  }

  lemma {:induction false} RepeatedAdds(x: real, y: real, n: nat)
    ensures Repeated(x + y, n) == Repeated(x, n) + Repeated(y, n)
  {
    if n > 0 {
      RepeatedAdds(x, y, n - 1);
    }
  }

  lemma {:induction false} SumRepeated(xs: seq<real>, ys: seq<real>, n: nat)
    requires |xs| == |ys| && forall i :: 0 <= i < |xs| ==> Repeated(xs[i], n) == ys[i]
    ensures Repeated(SumOf(xs), n) == SumOf(ys)
  {
    if xs == [] {
      RepeatedIs(0.0, n);
    } else {
      var m := |xs| - 1;
      SumRepeated(xs[..m], ys[..m], n);
      RepeatedAdds(SumOf(xs[..m]), xs[m], n);
    }
  }

  function GapsOf(buckets: seq<Tallies>, total: nat): seq<real> {
    seq(|buckets|, b requires 0 <= b < |buckets| => Gap(buckets[b], total))
  }

  lemma {:induction false} GapSumIs(buckets: seq<Tallies>, total: nat)
    ensures GapSum(buckets, total) == SumOf(GapsOf(buckets, total))
  {
    if buckets != [] {
      var n := |buckets| - 1;
      GapSumIs(buckets[..n], total);
      assert GapsOf(buckets, total)[..n] == GapsOf(buckets[..n], total);
    }
  }

  function DistancesOf(samples: seq<Sample>, n: nat): seq<real> {
    seq(n, b requires 0 <= b < n => Abs(Total(samples, Residual(b))))
  }

  lemma {:induction false} DistancesAre(samples: seq<Sample>, n: nat)
    ensures Distances(samples, n) == SumOf(DistancesOf(samples, n))
  {
    if n > 0 {
      DistancesAre(samples, n - 1);
      assert DistancesOf(samples, n)[..n - 1] == DistancesOf(samples, n - 1);
    }
  }

  lemma {:induction false} GapAt(samples: seq<Sample>, b: nat)
    requires samples != [] && b < N_BUCKETS
    ensures Repeated(GapsOf(Buckets(samples), |samples|)[b], |samples|) == DistancesOf(samples, N_BUCKETS)[b]
  {
    GapIs(samples, b);
    RepeatedIs(Gap(TalliesOf(samples, b), |samples|), |samples|);
  }

  lemma {:induction false} GapsAre(samples: seq<Sample>)
    requires samples != []
    ensures Repeated(ECE(samples), |samples|) == Distances(samples, N_BUCKETS)
  {
    var gaps, distances := GapsOf(Buckets(samples), |samples|), DistancesOf(samples, N_BUCKETS);
    GapSumIs(Buckets(samples), |samples|);
    DistancesAre(samples, N_BUCKETS);
    forall b | 0 <= b < N_BUCKETS
      ensures Repeated(gaps[b], |samples|) == distances[b]
    {
      GapAt(samples, b);
    }
    SumRepeated(gaps, distances, |samples|);
  }

  lemma {:induction false} NoDistance(n: nat)
    ensures Distances([], n) == 0.0
  {
    if n > 0 {
      NoDistance(n - 1);
    }
  }

  /** The error is the sum of the ten buckets' distances between correct samples and confidence, per sample. */
  lemma {:induction false} ECEIs(samples: seq<Sample>)
    ensures ECE(samples) * (|samples| as real) == Distances(samples, 10)
    ensures samples == [] ==> ECE(samples) == 0.0
  {
    if samples == [] {
      ECEZeroIff(samples);
      forall b | 0 <= b < N_BUCKETS
        ensures Balanced(TalliesOf(samples, b))
      {
      }
      NoDistance(10);
    } else {
      GapsAre(samples);
      RepeatedIs(ECE(samples), |samples|);
    }
  }

  lemma {:induction false} DistanceSnoc(samples: seq<Sample>, n: nat)
    requires samples != [] && InUnit(samples[|samples| - 1].conf)
    ensures var init, last := samples[..|samples| - 1], samples[|samples| - 1];
            Distances(samples, n) <= Distances(init, n) + if BucketOf(last.conf) < n then 1.0 else 0.0
  {
    if n > 0 {
      DistanceSnoc(samples, n - 1);
    }
  }

  lemma {:induction false} DistancesBounded(samples: seq<Sample>)
    requires AllInUnit(samples)
    ensures Distances(samples, 10) <= |samples| as real
  {
    if samples == [] {
      NoDistance(10);
    } else {
      var init, last := samples[..|samples| - 1], samples[|samples| - 1];
      assert last in samples && samples == init + [last];
      DistancesBounded(init);
      DistanceSnoc(samples, 10);
    }
  }

  lemma AtMostOne(x: real, d: real)
    requires d > 0.0 && x * d <= d
    ensures x <= 1.0
  {
    assert x * d / d == x;
  }

  /** On probabilities it is at most one. */
  lemma {:induction false} ECEAtMostOne(samples: seq<Sample>)
    requires AllInUnit(samples)
    ensures 0.0 <= ECE(samples) <= 1.0
  {
    ECEZeroIff(samples);
    ECEIs(samples);
    DistancesBounded(samples);
    if samples != [] {
      AtMostOne(ECE(samples), |samples| as real);
    }
  }

  // ---- The Brier score ----

  function SquaredMiss(): Sample -> real {
    (s: Sample) => if s.correct then (1.0 - s.conf) * (1.0 - s.conf) else s.conf * s.conf
  }

  lemma MissInUnit(s: Sample)
    requires InUnit(s.conf)
    ensures 0.0 <= SquaredMiss()(s) <= 1.0
  {
    var x := s.conf;
    if x > 0.0 {
      ProductSign(x, 1.0 - x);
      ProductSign(x, x);
    }
    if x < 1.0 {
      ProductSign(1.0 - x, 1.0 - x);
    }
    assert x * x == x - x * (1.0 - x) && (1.0 - x) * (1.0 - x) == (1.0 - x) - x * (1.0 - x);
  }

  lemma {:induction false} MissesBounded(samples: seq<Sample>)
    requires AllInUnit(samples)
    ensures 0.0 <= Total(samples, SquaredMiss()) <= |samples| as real
  {
    if samples != [] {
      var init, last := samples[..|samples| - 1], samples[|samples| - 1];
      assert last in samples && samples == init + [last];
      MissesBounded(init);
      MissInUnit(last);
    }
  }

  lemma MeanInUnit(x: real, d: real)
    requires 0.0 <= x <= d && d > 0.0
    ensures 0.0 <= x / d <= 1.0
  {
  }

  /** It is the mean squared distance of the confidences from the labels; on probabilities it is at most one. */
  lemma {:induction false} BrierIs(samples: seq<Sample>)
    ensures Brier(samples) * (|samples| as real) == Total(samples, SquaredMiss())
    ensures samples == [] ==> Brier(samples) == 0.0
    ensures AllInUnit(samples) ==> 0.0 <= Brier(samples) <= 1.0
  {
    SameOnSamples(samples, SquaredError(Identity()), SquaredMiss());
    if samples != [] && AllInUnit(samples) {
      MissesBounded(samples);
      MeanInUnit(Total(samples, SquaredMiss()), |samples| as real);
    }
  }
}

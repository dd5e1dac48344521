/** Out-of-fold scoring (`_kfold_cv_metrics`) and the evaluation that fits on one set and scores on two.
    The shuffled order is a parameter. */
module CrossValidation {
  import opened Samples
  import opened Isotonic
  import opened LeastSquares
  import opened BucketScore
  import opened Folds

  /** Every position of the sample list, once. */
  ghost predicate Shuffles(indices: seq<nat>, n: nat) {
    && |indices| == n
    && (forall j :: 0 <= j < n ==> indices[j] < n)
    && forall i, j :: 0 <= i < j < n ==> indices[i] != indices[j]
  }

  ghost predicate Within(indices: seq<nat>, samples: seq<Sample>) {
    forall j :: 0 <= j < |indices| ==> indices[j] < |samples|
  }

  function Pick(samples: seq<Sample>, indices: seq<nat>): seq<Sample>
    requires Within(indices, samples)
  {
    seq(|indices|, j requires 0 <= j < |indices| => samples[indices[j]])
  }

  // ---- Out-of-fold predictions ----

  lemma FoldWithin(samples: seq<Sample>, indices: seq<nat>, k: FoldCount, f: nat)
    requires Within(indices, samples)
    ensures Within(Fold(indices, k, f), samples)
    ensures Within(Others(indices, SetOf(Fold(indices, k, f))), samples)
  {
    FoldEntries(indices, k, f);
  }

  function HeldOut(samples: seq<Sample>, indices: seq<nat>, k: FoldCount, f: nat): seq<Sample>
    requires Within(indices, samples)
  {
    FoldWithin(samples, indices, k, f);
    Pick(samples, Fold(indices, k, f))
  }

  function Train(samples: seq<Sample>, indices: seq<nat>, k: FoldCount, f: nat): seq<Sample>
    requires Within(indices, samples)
  {
    FoldWithin(samples, indices, k, f);
    Pick(samples, Others(indices, SetOf(Fold(indices, k, f))))
  }

  /** The held-out samples of the fitted folds, each calibrated by the knots of its own fold. */
  function OutOfFoldBy(samples: seq<Sample>, indices: seq<nat>, k: FoldCount, fits: seq<seq<Knot>>): seq<Sample>
    requires Within(indices, samples)
  {
    if fits == [] then []
    else
      var f := |fits| - 1;
      OutOfFoldBy(samples, indices, k, fits[..f]) + Calibrate(HeldOut(samples, indices, k, f), fits[f])
  }

  ghost predicate Each<T(!new)>(s: seq<T>, ok: (int, T) -> bool) {
    forall i :: 0 <= i < |s| ==> ok(i, s[i])
  }

  lemma EachSnoc<T(!new)>(s: seq<T>, x: T, ok: (int, T) -> bool)
    ensures Each(s + [x], ok) <==> Each(s, ok) && ok(|s|, x)
  {
    assert forall i :: 0 <= i < |s| ==> (s + [x])[i] == s[i];
    assert (s + [x])[|s|] == x;
  }

  /** The knots of a fold are fitted on exactly the samples outside it. */
  ghost function Honest(samples: seq<Sample>, indices: seq<nat>, k: FoldCount): (int, seq<Knot>) -> bool
    requires Within(indices, samples)
  {
    (f, knots) => f >= 0 && Within(indices, samples) && PooledFit(Train(samples, indices, k, f), knots)
  }

  ghost predicate HonestFits(samples: seq<Sample>, indices: seq<nat>, k: FoldCount, fits: seq<seq<Knot>>)
    requires Within(indices, samples)
  {
    Each(fits, Honest(samples, indices, k))
  }

  method TrainOn(samples: seq<Sample>, indices: seq<nat>, holdout: set<nat>) returns (train: seq<Sample>)
    requires Within(indices, samples)
    ensures train == Pick(samples, Others(indices, holdout))
  {
    train := [];
    for j := 0 to |indices|
      invariant train == Pick(samples, Others(indices[..j], holdout))
    {
      assert indices[..j + 1][..j] == indices[..j];
      if indices[j] !in holdout {
        train := train + [samples[indices[j]]];
      }
    }
    assert indices[..|indices|] == indices;
  }

  method Predict(samples: seq<Sample>, fold: seq<nat>, knots: seq<Knot>) returns (predicted: seq<Sample>)
    requires Within(fold, samples)
    ensures predicted == Calibrate(Pick(samples, fold), knots)
  {
    predicted := [];
    for j := 0 to |fold|
      invariant predicted == Calibrate(Pick(samples, fold), knots)[..j]
    {
      var s := samples[fold[j]];
      var p := ApplyIsotonic(s.conf, knots);
      predicted := predicted + [Sample(p, s.correct)];
    }
  }

  lemma {:induction false} FitsExtend(samples: seq<Sample>, indices: seq<nat>, k: FoldCount, fits: seq<seq<Knot>>,
                                      knots: seq<Knot>)
    requires Within(indices, samples) && HonestFits(samples, indices, k, fits)
    requires PooledFit(Train(samples, indices, k, |fits|), knots)
    ensures HonestFits(samples, indices, k, fits + [knots])
    ensures OutOfFoldBy(samples, indices, k, fits + [knots])
         == OutOfFoldBy(samples, indices, k, fits) + Calibrate(HeldOut(samples, indices, k, |fits|), knots)
  {
    assert (fits + [knots])[..|fits|] == fits;
    EachSnoc(fits, knots, Honest(samples, indices, k));
  }

  method FitFold(samples: seq<Sample>, indices: seq<nat>, k: FoldCount, f: nat)
    returns (knots: seq<Knot>, predicted: seq<Sample>)
    requires Within(indices, samples)
    ensures PooledFit(Train(samples, indices, k, f), knots)
    ensures predicted == Calibrate(HeldOut(samples, indices, k, f), knots)
  {
    var fold := Fold(indices, k, f);
    FoldWithin(samples, indices, k, f);
    var train := TrainOn(samples, indices, SetOf(fold));
    knots := PavFit(train);
    predicted := Predict(samples, fold, knots);
  }

  method OutOfFold(samples: seq<Sample>, indices: seq<nat>, k: FoldCount)
    returns (oof: seq<Sample>, fits: seq<seq<Knot>>)
    requires Within(indices, samples)
    ensures |fits| == k && HonestFits(samples, indices, k, fits)
    ensures oof == OutOfFoldBy(samples, indices, k, fits)
  {
    oof, fits := [], [];
    for f := 0 to k
      invariant |fits| == f && HonestFits(samples, indices, k, fits)
      invariant oof == OutOfFoldBy(samples, indices, k, fits)
    {
      var knots, predicted := FitFold(samples, indices, k, f);
      var more := fits + [knots];
      FitsExtend(samples, indices, k, fits, knots);
      oof, fits := oof + predicted, more;
    }
  }

  // ---- Every sample is scored once ----

  /** Position `j` of the scored order belongs to fold `f`. */
  predicate ScoredIn(indices: seq<nat>, k: FoldCount, f: nat, j: nat) {
    |Scored(indices, k, f)| <= j < |Scored(indices, k, f + 1)|
  }

  /** The prediction is for this sample, keeps its label, and is calibrated by these knots. */
  predicate PredictionFor(prediction: Sample, s: Sample, knots: seq<Knot>) {
    prediction.correct == s.correct && prediction.conf == Calibrated(s.conf, knots)
  }

  lemma {:induction false} PredictionCount(samples: seq<Sample>, indices: seq<nat>, k: FoldCount, fits: seq<seq<Knot>>)
    requires Within(indices, samples)
    ensures |Scored(indices, k, |fits|)| == |OutOfFoldBy(samples, indices, k, fits)|
    ensures Within(Scored(indices, k, |fits|), samples)
  {
    if fits != [] {
      var f := |fits| - 1;
      PredictionCount(samples, indices, k, fits[..f]);
      FoldWithin(samples, indices, k, f);
    }
  }

  /** What is said of position `j`, scored in fold `f`. */
  ghost predicate Predicted(samples: seq<Sample>, indices: seq<nat>, k: FoldCount, fits: seq<seq<Knot>>, f: nat, j: nat)
    requires Within(indices, samples) && f < |fits|
  {
    var order, oof := Scored(indices, k, |fits|), OutOfFoldBy(samples, indices, k, fits);
    && |order| == |oof| && j < |order| && Within(order, samples)
    && order[j] in Fold(indices, k, f) && PredictionFor(oof[j], samples[order[j]], fits[f])
  }

  lemma {:induction false} LastFoldPredicted(samples: seq<Sample>, indices: seq<nat>, k: FoldCount,
                                             fits: seq<seq<Knot>>, j: nat)
    requires Within(indices, samples) && fits != [] && ScoredIn(indices, k, |fits| - 1, j)
    ensures Predicted(samples, indices, k, fits, |fits| - 1, j)
  {
    var f := |fits| - 1;
    var fold, i := Fold(indices, k, f), j - |Scored(indices, k, f)|;
    PredictionCount(samples, indices, k, fits);
    PredictionCount(samples, indices, k, fits[..f]);
    FoldWithin(samples, indices, k, f);
    assert Scored(indices, k, |fits|)[j] == fold[i];
    assert OutOfFoldBy(samples, indices, k, fits)[j] == CalibrateOne(samples[fold[i]], fits[f]);
  }

  lemma {:induction false} EarlierFoldPredicted(samples: seq<Sample>, indices: seq<nat>, k: FoldCount,
                                                fits: seq<seq<Knot>>, f: nat, j: nat)
    requires Within(indices, samples) && f < |fits| - 1
    requires Predicted(samples, indices, k, fits[..|fits| - 1], f, j)
    ensures Predicted(samples, indices, k, fits, f, j)
  {
    PredictionCount(samples, indices, k, fits);
  }

  /** The j-th prediction is for the j-th scored position: it keeps that sample's label and is calibrated by the
      knots of the fold that position is held out in. */
  lemma {:induction false} PredictionsAreScored(samples: seq<Sample>, indices: seq<nat>, k: FoldCount,
                                                fits: seq<seq<Knot>>, f: nat, j: nat)
    requires Within(indices, samples) && f < |fits| && ScoredIn(indices, k, f, j)
    ensures Predicted(samples, indices, k, fits, f, j)
  {
    if f == |fits| - 1 {
      LastFoldPredicted(samples, indices, k, fits, j);
    } else {
      PredictionsAreScored(samples, indices, k, fits[..|fits| - 1], f, j);
      EarlierFoldPredicted(samples, indices, k, fits, f, j);
    }
  }

  /** Cross-validation scores each sample exactly once, by knots that never saw it: each fold's training and
      held-out positions share nothing and make up all of them. */
  lemma {:induction false} CrossValidationIsHonest(samples: seq<Sample>, indices: seq<nat>, k: FoldCount,
                                                   fits: seq<seq<Knot>>)
    requires Shuffles(indices, |samples|) && |fits| == k
    ensures multiset(Scored(indices, k, k)) == multiset(indices)
    ensures |OutOfFoldBy(samples, indices, k, fits)| == |samples|
    ensures forall f, x :: 0 <= f < k && x in indices ==>
              (x in Others(indices, SetOf(Fold(indices, k, f))) <==> x !in Fold(indices, k, f))
  {
    FoldsDealAll(indices, k);
    PredictionCount(samples, indices, k, fits);
  }

  // ---- The scores ----

  lemma PickScorable(samples: seq<Sample>, indices: seq<nat>)
    requires Within(indices, samples) && AllScorable(samples)
    ensures AllScorable(Pick(samples, indices))
  {
    forall j | 0 <= j < |indices|
      ensures Scorable(Pick(samples, indices)[j].conf)
    {
      assert samples[indices[j]] in samples;
    }
  }

  /** Knots map confidences to probabilities; without knots they stay as they are. */
  lemma {:induction false} CalibrateScorable(train: seq<Sample>, samples: seq<Sample>, knots: seq<Knot>)
    requires PooledFit(train, knots) && AllScorable(samples)
    ensures AllScorable(Calibrate(samples, knots))
  {
    PooledShape(train, knots);
    forall s | s in samples && knots != []
      ensures InUnit(Calibrated(s.conf, knots))
    {
      CalibratedInUnit(s.conf, knots);
    }
  }

  lemma {:induction false} OutOfFoldScorable(samples: seq<Sample>, indices: seq<nat>, k: FoldCount,
                                             fits: seq<seq<Knot>>)
    requires Within(indices, samples) && AllScorable(samples) && HonestFits(samples, indices, k, fits)
    ensures AllScorable(OutOfFoldBy(samples, indices, k, fits))
  {
    if fits != [] {
      var f := |fits| - 1;
      var before, held := fits[..f], HeldOut(samples, indices, k, f);
      assert fits == before + [fits[f]];
      EachSnoc(before, fits[f], Honest(samples, indices, k));
      OutOfFoldScorable(samples, indices, k, before);
      FoldWithin(samples, indices, k, f);
      PickScorable(samples, Fold(indices, k, f));
      CalibrateScorable(Train(samples, indices, k, f), held, fits[f]);
    }
  }

  /** Without samples or with fewer than two folds nothing is scored; otherwise the out-of-fold predictions are. */
  method KFoldCvMetrics(samples: seq<Sample>, indices: seq<nat>, k: int)
    returns (ece: real, brier: real, buckets: seq<Tallies>, oof: seq<Sample>, fits: seq<seq<Knot>>)
    requires AllScorable(samples) && Shuffles(indices, |samples|)
    ensures ece == ECE(oof) && brier == Brier(oof) && buckets == Buckets(oof)
    ensures samples == [] || k < 2 ==> oof == []
    ensures samples != [] && k >= 2 ==> |fits| == k && HonestFits(samples, indices, k, fits)
    ensures samples != [] && k >= 2 ==> oof == OutOfFoldBy(samples, indices, k, fits)
  {
    oof, fits := [], [];
    if samples != [] && k >= 2 {
      oof, fits := OutOfFold(samples, indices, k);
      OutOfFoldScorable(samples, indices, k, fits);
    }
    ece, brier, buckets := EceBrierOnBuckets(oof);
  }

  /** ECE and Brier score of one set, raw or calibrated. */
  datatype Score = Score(ece: real, brier: real)

  method ScoreCalibrated(samples: seq<Sample>, knots: seq<Knot>, ghost train: seq<Sample>) returns (score: Score)
    requires AllScorable(samples) && PooledFit(train, knots)
    ensures score == Score(ECE(Calibrate(samples, knots)), Brier(Calibrate(samples, knots)))
  {
    var calibrated := Calibrate(samples, knots);
    CalibrateScorable(train, samples, knots);
    var ece, brier, buckets := EceBrierOnBuckets(calibrated);
    score := Score(ece, brier);
  }

  /** Fit on the training set and score both sets.  The training score is a sanity check that cannot fail: its
      ECE is zero and its Brier score is no worse than the raw one. */
  method Evaluate(train: seq<Sample>, test: seq<Sample>)
    returns (knots: seq<Knot>, raw: Score, onTrain: Score, onTest: Score)
    requires AllScorable(train) && AllScorable(test)
    ensures PooledFit(train, knots)
    ensures raw == Score(ECE(test), Brier(test))
    ensures onTrain.ece == 0.0 && onTrain.brier == Brier(Calibrate(train, knots)) <= Brier(train)
    ensures onTest == Score(ECE(Calibrate(test, knots)), Brier(Calibrate(test, knots)))
  {
    var ece, brier, buckets := EceBrierOnBuckets(test);
    raw := Score(ece, brier);
    knots := PavFit(train);
    onTrain := ScoreCalibrated(train, knots, train);
    TrainingECEIsZero(train, knots);
    TrainingBrierImproves(train, knots);
    onTest := ScoreCalibrated(test, knots, train);
  }
}

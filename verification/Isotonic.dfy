/** Pool-adjacent-violators isotonic regression (`_pav_fit` and `_apply_isotonic` of the calibration
    tool): the fitted step function is the least-squares monotone fit of the samples. */
module Isotonic {
  import opened Samples

  /** One aggregated confidence, or a run of neighbouring ones pooled together. */
  datatype Block = Block(threshold: real, sum: real, count: real) {
    function Mean(): real
      requires count > 0.0
    {
      sum / count
    }
  }

  datatype Knot = Knot(threshold: real, value: real)

  // ---- Aggregated points ----

  predicate Ascending(points: seq<Block>) {
    forall i, j :: 0 <= i < j < |points| ==> points[i].threshold < points[j].threshold
  }

  /** `points` holds one weighted point per distinct confidence, in ascending order. */
  ghost predicate Aggregates(samples: seq<Sample>, points: seq<Block>) {
    && Ascending(points)
    && (forall k :: 0 <= k < |points| ==>
          && points[k].count == CountAt(samples, points[k].threshold) > 0.0
          && points[k].sum == CorrectAt(samples, points[k].threshold))
    && (forall x :: CountAt(samples, x) > 0.0 ==> exists k :: 0 <= k < |points| && points[k].threshold == x)
  }

  ghost function SumOf(part: seq<Block>): real {
    if part == [] then 0.0 else SumOf(part[..|part| - 1]) + part[|part| - 1].sum
  }

  ghost function CountOf(part: seq<Block>): real {
    if part == [] then 0.0 else CountOf(part[..|part| - 1]) + part[|part| - 1].count
  }

  ghost predicate Weighted(part: seq<Block>) {
    forall k :: 0 <= k < |part| ==> part[k].count > 0.0
  }

  /** How far the correct total of `part` exceeds what a constant rate `v` predicts. */
  ghost function Excess(part: seq<Block>, v: real): real {
    if part == [] then 0.0
    else Excess(part[..|part| - 1], v) + (part[|part| - 1].sum - v * part[|part| - 1].count)
  }

  /** Every prefix of `part` has mean `v` or more. */
  ghost predicate PrefixesDominate(part: seq<Block>, v: real) {
    forall j :: 0 <= j <= |part| ==> Excess(part[..j], v) >= 0.0
  }

  /** `block` is `part` pooled. */
  ghost predicate Pools(block: Block, part: seq<Block>) {
    && part != [] && Weighted(part)
    && block.threshold == part[|part| - 1].threshold
    && block.sum == SumOf(part)
    && block.count == CountOf(part) > 0.0
    && PrefixesDominate(part, block.Mean())
  }

  lemma {:induction false} SumsOfConcat(p: seq<Block>, q: seq<Block>)
    ensures SumOf(p + q) == SumOf(p) + SumOf(q)
    ensures CountOf(p + q) == CountOf(p) + CountOf(q)
  {
    if q == [] {
      assert p + q == p;
    } else {
      assert (p + q)[..|p + q| - 1] == p + q[..|q| - 1];
      SumsOfConcat(p, q[..|q| - 1]);
    }
  }

  lemma {:induction false} ExcessOfConcat(p: seq<Block>, q: seq<Block>, v: real)
    ensures Excess(p + q, v) == Excess(p, v) + Excess(q, v)
  {
    if q == [] {
      assert p + q == p;
    } else {
      assert (p + q)[..|p + q| - 1] == p + q[..|q| - 1];
      ExcessOfConcat(p, q[..|q| - 1], v);
    }
  }

  lemma {:induction false} ExcessIs(part: seq<Block>, v: real)
    ensures Excess(part, v) == SumOf(part) - v * CountOf(part)
  {
    if part != [] {
      ExcessIs(part[..|part| - 1], v);
      assert v * CountOf(part) == v * CountOf(part[..|part| - 1]) + v * part[|part| - 1].count;
    }
  }

  /** A lower rate leaves a larger excess. */
  lemma {:induction false} ExcessFalls(part: seq<Block>, v: real, w: real)
    requires Weighted(part) && v <= w
    ensures Excess(part, v) >= Excess(part, w)
  {
    if part != [] {
      ExcessFalls(part[..|part| - 1], v, w);
      assert (w - v) * part[|part| - 1].count >= 0.0;
    }
  }

  lemma SignOfFactor(x: real, y: real)
    requires x * y >= 0.0 && y > 0.0
    ensures x >= 0.0
  {
  }

  /** The mean of two pooled runs lies between their means. */
  lemma MeanBetween(a: real, m: real, b: real, n: real, c: real)
    requires m > 0.0 && n > 0.0 && a > b
    requires c * (m + n) == a * m + b * n
    ensures b <= c <= a
  {
    var above, below, total := c - b, a - c, m + n;
    assert above * total == (a - b) * m >= 0.0;
    assert below * total == (a - b) * n >= 0.0;
    SignOfFactor(above, total);
    SignOfFactor(below, total);
  }

  lemma MeanTimesCount(block: Block)
    requires block.count > 0.0
    ensures block.Mean() * block.count == block.sum
  {
  }

  lemma PooledHasNoExcess(block: Block, part: seq<Block>)
    requires Pools(block, part)
    ensures Excess(part, block.Mean()) == 0.0
  {
    ExcessIs(part, block.Mean());
    MeanTimesCount(block);
  }

  function Together(left: Block, right: Block): Block {
    Block(right.threshold, left.sum + right.sum, left.count + right.count)
  }

  lemma PooledMean(left: Block, right: Block)
    requires left.count > 0.0 && right.count > 0.0
    requires left.Mean() > right.Mean()
    ensures right.Mean() <= Together(left, right).Mean() <= left.Mean()
  {
    MeanTimesCount(left);
    MeanTimesCount(right);
    MeanTimesCount(Together(left, right));
    MeanBetween(left.Mean(), left.count, right.Mean(), right.count, Together(left, right).Mean());
  }

  /** `p` has mean `a`, `q` the lower mean `b`, and both together the mean `c` in between. */
  lemma PrefixesOfConcat(p: seq<Block>, a: real, q: seq<Block>, b: real, c: real)
    requires Weighted(p) && PrefixesDominate(p, a)
    requires Weighted(q) && PrefixesDominate(q, b) && Excess(q, b) == 0.0
    requires b <= c <= a && Excess(p + q, c) == 0.0
    ensures PrefixesDominate(p + q, c)
  {
    forall j | 0 <= j <= |p + q|
      ensures Excess((p + q)[..j], c) >= 0.0
    {
      if j <= |p| {
        assert (p + q)[..j] == p[..j];
        ExcessFalls(p[..j], c, a);
      } else {
        // What the prefix has is what the rest of `q` lacks.
        var head, tail := q[..j - |p|], q[j - |p|..];
        assert (p + q)[..j] + tail == p + q;
        ExcessOfConcat((p + q)[..j], tail, c);
        assert head + tail == q;
        ExcessOfConcat(head, tail, b);
        ExcessFalls(tail, b, c);
      }
    }
  }

  /** Pooling a violating neighbour keeps every prefix mean at or above the new mean. */
  lemma PoolViolators(left: Block, p: seq<Block>, right: Block, q: seq<Block>)
    requires Pools(left, p) && Pools(right, q)
    requires left.Mean() > right.Mean()
    ensures Pools(Together(left, right), p + q)
  {
    var both := Together(left, right);
    SumsOfConcat(p, q);
    PooledMean(left, right);
    PooledHasNoExcess(right, q);
    assert Excess(p + q, both.Mean()) == 0.0 by {
      ExcessIs(p + q, both.Mean());
      MeanTimesCount(both);
    }
    PrefixesOfConcat(p, left.Mean(), q, right.Mean(), both.Mean());
  }

  lemma PoolOne(point: Block)
    requires point.count > 0.0
    ensures Pools(point, [point])
  {
    var one := [point];
    assert one[..|one| - 1] == [] && one[..1] == one;
    assert SumOf(one) == SumOf([]) + point.sum && CountOf(one) == CountOf([]) + point.count;
    ExcessIs(one, point.Mean());
    MeanTimesCount(point);
  }

  // ---- The fit ----

  ghost predicate PoolsBetween(points: seq<Block>, from: nat, upTo: nat, block: Block) {
    from < upTo <= |points| && Pools(block, points[from..upTo])
  }

  /** Block `k` pools the points from `cuts[k]` up to `cuts[k + 1]`, and the blocks leave none out. */
  ghost predicate Partition(points: seq<Block>, cuts: seq<nat>, blocks: seq<Block>) {
    && |cuts| == |blocks| + 1
    && cuts[0] == 0 && cuts[|blocks|] == |points|
    && (forall k {:trigger blocks[k]} :: 0 <= k < |blocks| ==> PoolsBetween(points, cuts[k], cuts[k + 1], blocks[k]))
  }

  predicate MeanNotAbove(left: Block, right: Block) {
    left.count > 0.0 && right.count > 0.0 && left.Mean() <= right.Mean()
  }

  ghost predicate MeansAscend(blocks: seq<Block>, upTo: nat)
    requires upTo <= |blocks|
  {
    forall k, m :: 0 <= k && m == k + 1 < upTo ==> MeanNotAbove(blocks[k], blocks[m])
  }

  /** `knots` reads off blocks that partition the aggregated samples and whose means never fall. */
  ghost predicate KnotsPool(knots: seq<Knot>, points: seq<Block>, cuts: seq<nat>, blocks: seq<Block>) {
    && Partition(points, cuts, blocks)
    && MeansAscend(blocks, |blocks|)
    && |knots| == |blocks|
    && (forall k :: 0 <= k < |knots| ==> knots[k] == Knot(blocks[k].threshold, blocks[k].Mean()))
  }

  ghost predicate PooledFit(samples: seq<Sample>, knots: seq<Knot>) {
    exists points: seq<Block>, cuts: seq<nat>, blocks: seq<Block> ::
      Aggregates(samples, points) && KnotsPool(knots, points, cuts, blocks)
  }

  ghost predicate Tallied(samples: seq<Sample>, totals: map<real, (real, real)>) {
    forall x ::
      && (x in totals <==> CountAt(samples, x) > 0.0)
      && (x in totals ==> totals[x] == (CorrectAt(samples, x), CountAt(samples, x)))
  }

  /** Count one more sample under its confidence. */
  function Tally(totals: map<real, (real, real)>, s: Sample): map<real, (real, real)> {
    var bucket := if s.conf in totals then totals[s.conf] else (0.0, 0.0);
    totals[s.conf := (bucket.0 + s.Y(), bucket.1 + 1.0)]
  }

  lemma TallyOne(samples: seq<Sample>, totals: map<real, (real, real)>, s: Sample)
    requires Tallied(samples, totals)
    ensures Tallied(samples + [s], Tally(totals, s))
  {
    assert (samples + [s])[..|samples|] == samples;
    forall x
      ensures CountAt(samples + [s], x) == CountAt(samples, x) + if s.conf == x then 1.0 else 0.0
      ensures CorrectAt(samples + [s], x) == CorrectAt(samples, x) + if s.conf == x then s.Y() else 0.0
    {
    }
  }

  lemma PointsAggregate(samples: seq<Sample>, totals: map<real, (real, real)>, points: seq<Block>)
    requires Tallied(samples, totals) && Ascending(points)
    requires forall k :: 0 <= k < |points| ==>
      points[k].threshold in totals && totals[points[k].threshold] == (points[k].sum, points[k].count)
    requires forall x :: x in totals ==> exists k :: 0 <= k < |points| && points[k].threshold == x
    ensures Aggregates(samples, points)
  {
  }

  /** `sorted` on distinct keys, by insertion. */
  method Sorted(keys: seq<real>) returns (xs: seq<real>)
    requires Distinct(keys)
    ensures forall x :: x in xs <==> x in keys
    ensures forall i, j :: 0 <= i < j < |xs| ==> xs[i] < xs[j]
  {
    xs := [];
    for n := 0 to |keys|
      invariant forall x :: x in xs <==> x in keys[..n]
      invariant forall i, j :: 0 <= i < j < |xs| ==> xs[i] < xs[j]
    {
      var k := 0;
      while k < |xs| && xs[k] < keys[n]
        invariant k <= |xs|
        invariant forall i :: 0 <= i < k ==> xs[i] < keys[n]
      {
        k := k + 1;
      }
      assert keys[..n + 1] == keys[..n] + [keys[n]];
      assert k < |xs| ==> xs[k] in keys[..n];
      xs := xs[..k] + [keys[n]] + xs[k..];
    }
  }

  /** One dictionary entry per distinct confidence, then sorted by confidence. */
  method Aggregate(samples: seq<Sample>) returns (points: seq<Block>)
    ensures Aggregates(samples, points)
  {
    var keys: seq<real>, totals: map<real, (real, real)> := [], map[];
    for i := 0 to |samples|
      invariant forall x :: x in keys <==> x in totals
      invariant Tallied(samples[..i], totals)
      invariant Distinct(keys)
    {
      TallyOne(samples[..i], totals, samples[i]);
      assert samples[..i + 1] == samples[..i] + [samples[i]];
      if samples[i].conf !in totals {
        keys := keys + [samples[i].conf];
      }
      totals := Tally(totals, samples[i]);
    }
    assert samples[..|samples|] == samples;
    var xs := Sorted(keys);
    points := seq(|xs|, k requires 0 <= k < |xs| && xs[k] in totals => Block(xs[k], totals[xs[k]].0, totals[xs[k]].1));
    forall x | x in totals
      ensures exists k :: 0 <= k < |points| && points[k].threshold == x
    {
      assert x in xs;
      var k :| 0 <= k < |xs| && xs[k] == x;
      assert points[k].threshold == x;
    }
    PointsAggregate(samples, totals, points);
  }

  /** Merging block `i + 1` into block `i`. */
  function Merged(blocks: seq<Block>, i: nat): seq<Block>
    requires i + 1 < |blocks|
  {
    var threshold := if blocks[i].threshold >= blocks[i + 1].threshold
                     then blocks[i].threshold else blocks[i + 1].threshold;
    var pooled := Block(threshold, blocks[i].sum + blocks[i + 1].sum, blocks[i].count + blocks[i + 1].count);
    blocks[..i] + [pooled] + blocks[i + 2..]
  }

  lemma ThresholdsAscend(points: seq<Block>, cuts: seq<nat>, blocks: seq<Block>, i: nat, j: nat)
    requires Partition(points, cuts, blocks) && Ascending(points)
    requires i < j < |blocks|
    ensures cuts[i + 1] <= cuts[j] && blocks[i].threshold < blocks[j].threshold
  {
    assert PoolsBetween(points, cuts[i], cuts[i + 1], blocks[i]);
    assert PoolsBetween(points, cuts[j], cuts[j + 1], blocks[j]);
    if i + 1 < j {
      ThresholdsAscend(points, cuts, blocks, i, j - 1);
      assert PoolsBetween(points, cuts[j - 1], cuts[j], blocks[j - 1]);
    }
    assert blocks[i].threshold == points[cuts[i + 1] - 1].threshold;
    assert blocks[j].threshold == points[cuts[j + 1] - 1].threshold;
  }

  lemma MergeKeepsPartition(points: seq<Block>, cuts: seq<nat>, blocks: seq<Block>, i: nat)
    requires Partition(points, cuts, blocks) && Ascending(points)
    requires i + 1 < |blocks| && blocks[i].count > 0.0 && blocks[i + 1].count > 0.0
    requires blocks[i].Mean() > blocks[i + 1].Mean()
    ensures Partition(points, cuts[..i + 1] + cuts[i + 2..], Merged(blocks, i))
  {
    var cuts', blocks' := cuts[..i + 1] + cuts[i + 2..], Merged(blocks, i);
    var p, q := points[cuts[i]..cuts[i + 1]], points[cuts[i + 1]..cuts[i + 2]];
    assert PoolsBetween(points, cuts[i], cuts[i + 1], blocks[i]);
    assert PoolsBetween(points, cuts[i + 1], cuts[i + 2], blocks[i + 1]);
    PoolViolators(blocks[i], p, blocks[i + 1], q);
    assert p + q == points[cuts[i]..cuts[i + 2]];
    ThresholdsAscend(points, cuts, blocks, i, i + 1);
    forall k | 0 <= k < |blocks'|
      ensures PoolsBetween(points, cuts'[k], cuts'[k + 1], blocks'[k])
    {
      if k < i {
        assert PoolsBetween(points, cuts[k], cuts[k + 1], blocks[k]);
      } else if k > i {
        assert PoolsBetween(points, cuts[k + 1], cuts[k + 2], blocks[k + 1]);
      }
    }
  }

  lemma PointsPartition(points: seq<Block>, cuts: seq<nat>)
    requires Weighted(points)
    requires |cuts| == |points| + 1 && forall k :: 0 <= k < |cuts| ==> cuts[k] == k
    ensures Partition(points, cuts, points)
  {
    forall k | 0 <= k < |points|
      ensures PoolsBetween(points, cuts[k], cuts[k + 1], points[k])
    {
      assert points[k..k + 1] == [points[k]];
      PoolOne(points[k]);
    }
  }

  lemma MergeKeepsAscent(blocks: seq<Block>, i: nat)
    requires i + 1 < |blocks| && MeansAscend(blocks, i + 1)
    ensures MeansAscend(Merged(blocks, i), if i > 0 then i else 1)
  {
    var merged := Merged(blocks, i);
    forall k, m | 0 <= k && m == k + 1 < (if i > 0 then i else 1)
      ensures MeanNotAbove(merged[k], merged[m])
    {
      assert merged[k] == blocks[k] && merged[m] == blocks[m];
    }
  }

  lemma AscentGrows(blocks: seq<Block>, i: nat)
    requires i + 1 < |blocks| && MeansAscend(blocks, i + 1)
    requires blocks[i].count > 0.0 && blocks[i + 1].count > 0.0 && blocks[i].Mean() <= blocks[i + 1].Mean()
    ensures MeansAscend(blocks, i + 2)
  {
  }

  lemma BlocksWeighted(points: seq<Block>, cuts: seq<nat>, blocks: seq<Block>)
    requires Partition(points, cuts, blocks)
    ensures Weighted(blocks)
  {
  }

  /** The pooling loop: merge a violating pair in place and step back, else step on. */
  method PavFit(samples: seq<Sample>) returns (knots: seq<Knot>)
    ensures PooledFit(samples, knots)
  {
    var points := Aggregate(samples);
    var blocks := points;
    ghost var cuts: seq<nat> := seq(|points| + 1, k requires 0 <= k => k);
    PointsPartition(points, cuts);
    var i := 0;
    while i + 1 < |blocks|
      invariant Partition(points, cuts, blocks)
      invariant 0 <= i && (blocks == [] || i < |blocks|)
      invariant MeansAscend(blocks, if blocks == [] then 0 else i + 1)
      decreases 2 * |blocks| - i
    {
      BlocksWeighted(points, cuts, blocks);
      if blocks[i].Mean() > blocks[i + 1].Mean() {
        MergeKeepsPartition(points, cuts, blocks, i);
        MergeKeepsAscent(blocks, i);
        blocks, cuts := Merged(blocks, i), cuts[..i + 1] + cuts[i + 2..];
        if i > 0 {
          i := i - 1;
        }
      } else {
        AscentGrows(blocks, i);
        i := i + 1;
      }
    }
    BlocksWeighted(points, cuts, blocks);
    knots := seq(|blocks|, k requires 0 <= k < |blocks| && blocks[k].count > 0.0 =>
                   Knot(blocks[k].threshold, blocks[k].Mean()));
    assert KnotsPool(knots, points, cuts, blocks);
  }
}

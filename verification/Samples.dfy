/** Labelled confidences and sums over them: the common ground of the isotonic fitter and the
    bucket scorer.  Confidences are exact reals. */
module Samples {

  datatype Sample = Sample(conf: real, correct: bool) {
    function Y(): real {
      if correct then 1.0 else 0.0
    }
  }

  /** Sum of `f` over all samples. */
  function Total(samples: seq<Sample>, f: Sample -> real): real {
    if samples == [] then 0.0
    else Total(samples[..|samples| - 1], f) + f(samples[|samples| - 1])
  }

  function CountAt(samples: seq<Sample>, x: real): (n: real)
    ensures n >= 0.0
    ensures n > 0.0 <==> exists s :: s in samples && s.conf == x
  {
    if samples == [] then 0.0
    else
      var last := samples[|samples| - 1];
      assert samples == samples[..|samples| - 1] + [last];
      CountAt(samples[..|samples| - 1], x) + if last.conf == x then 1.0 else 0.0
  }

  function CorrectAt(samples: seq<Sample>, x: real): (n: real)
    ensures 0.0 <= n <= CountAt(samples, x)
  {
    if samples == [] then 0.0
    else
      var last := samples[|samples| - 1];
      CorrectAt(samples[..|samples| - 1], x) + if last.conf == x then last.Y() else 0.0
  }

  predicate Distinct(xs: seq<real>) {
    forall i, j :: 0 <= i < j < |xs| ==> xs[i] != xs[j]
  }

  /** `c` times `t` and `n - c` times `u`. */
  function Weighed(c: real, n: real, t: real, u: real): real {
    c * t + (n - c) * u
  }

  /** The part of `Total(samples, f)` that comes from confidence `x`. */
  function TotalAt(samples: seq<Sample>, f: Sample -> real, x: real): real {
    Weighed(CorrectAt(samples, x), CountAt(samples, x), f(Sample(x, true)), f(Sample(x, false)))
  }

  function GroupedTotal(samples: seq<Sample>, f: Sample -> real, xs: seq<real>): real {
    if xs == [] then 0.0
    else GroupedTotal(samples, f, xs[..|xs| - 1]) + TotalAt(samples, f, xs[|xs| - 1])
  }

  lemma WeighOneMore(c: real, n: real, t: real, u: real)
    ensures Weighed(c + 1.0, n + 1.0, t, u) == Weighed(c, n, t, u) + t
    ensures Weighed(c + 0.0, n + 1.0, t, u) == Weighed(c, n, t, u) + u
  {
    assert (n + 1.0) - (c + 1.0) == n - c;
    assert (n + 1.0) - (c + 0.0) == (n - c) + 1.0;
  }

  lemma TotalAtSnoc(samples: seq<Sample>, f: Sample -> real, x: real)
    requires samples != []
    ensures var last := samples[|samples| - 1];
            TotalAt(samples, f, x) == TotalAt(samples[..|samples| - 1], f, x) + if last.conf == x then f(last) else 0.0
  {
    var init, last := samples[..|samples| - 1], samples[|samples| - 1];
    if last.conf == x {
      assert last == Sample(x, last.correct);
      var c, n := CorrectAt(init, x), CountAt(init, x);
      assert CountAt(samples, x) == n + 1.0 && CorrectAt(samples, x) == c + last.Y();
      WeighOneMore(c, n, f(Sample(x, true)), f(Sample(x, false)));
    }
  }

  lemma {:induction false} GroupedTotalSnoc(samples: seq<Sample>, f: Sample -> real, xs: seq<real>)
    requires samples != [] && Distinct(xs)
    ensures var last := samples[|samples| - 1];
            GroupedTotal(samples, f, xs)
            == GroupedTotal(samples[..|samples| - 1], f, xs) + if last.conf in xs then f(last) else 0.0
  {
    if xs != [] {
      var init, x := xs[..|xs| - 1], xs[|xs| - 1];
      assert xs == init + [x];
      GroupedTotalSnoc(samples, f, init);
      TotalAtSnoc(samples, f, x);
    }
  }

  lemma {:induction false} GroupedTotalEmpty(f: Sample -> real, xs: seq<real>)
    ensures GroupedTotal([], f, xs) == 0.0
  {
    if xs != [] {
      GroupedTotalEmpty(f, xs[..|xs| - 1]);
    }
  }

  /** Summing sample by sample equals summing confidence by confidence. */
  lemma {:induction false} TotalByConfidence(samples: seq<Sample>, f: Sample -> real, xs: seq<real>)
    requires Distinct(xs)
    requires forall s :: s in samples ==> s.conf in xs
    ensures Total(samples, f) == GroupedTotal(samples, f, xs)
  {
    if samples == [] {
      GroupedTotalEmpty(f, xs);
    } else {
      TotalByConfidence(samples[..|samples| - 1], f, xs);
      GroupedTotalSnoc(samples, f, xs);
    }
  }

  /** The sum of one sample is its value, and sums add up. */
  lemma {:induction false} TotalAdds(a: seq<Sample>, b: seq<Sample>, f: Sample -> real)
    ensures Total([], f) == 0.0 && Total(a + b, f) == Total(a, f) + Total(b, f)
    ensures forall s :: Total([s], f) == f(s)
  {
    forall s
      ensures Total([s], f) == f(s)
    {
      assert [s][..0] == [];
    }
    if b == [] {
      assert a + b == a;
    } else {
      var n := |b| - 1;
      TotalAdds(a, b[..n], f);
      assert (a + b)[..|a + b| - 1] == a + b[..n];
    }
  }
}

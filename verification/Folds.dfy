/** Dealing a shuffled order into folds: every `k`-th entry from the fold's number on. */
module Folds {

  /** The number of folds. */
  type FoldCount = k: nat | k > 0 witness 1

  /** The fold of position `n`: folds take turns. */
  function Slot(k: FoldCount, n: nat): (f: nat)
    ensures f < k
  {
    if n < k then n else Slot(k, n - k)
  }

  /** Fold `f` gets the positions f, f + k, f + 2k and so on. */
  lemma {:induction false} StrideHas(k: FoldCount, f: nat, m: nat)
    requires f < k
    ensures f + m * k >= 0 && Slot(k, f + m * k) == f
  {
    if m > 0 {
      assert f + m * k - k == f + (m - 1) * k;
      StrideHas(k, f, m - 1);
    }
  }

  function Fold(indices: seq<nat>, k: FoldCount, f: nat): seq<nat> {
    if indices == [] then []
    else
      var n := |indices| - 1;
      if Slot(k, n) == f then Fold(indices[..n], k, f) + [indices[n]] else Fold(indices[..n], k, f)
  }

  /** The entries that are not held out. */
  function Others(indices: seq<nat>, holdout: set<nat>): (others: seq<nat>)
    ensures forall i :: 0 <= i < |others| ==> others[i] in indices && others[i] !in holdout
    ensures forall x :: x in indices && x !in holdout ==> x in others
  {
    if indices == [] then []
    else
      var n := |indices| - 1;
      assert indices == indices[..n] + [indices[n]];
      if indices[n] in holdout then Others(indices[..n], holdout) else Others(indices[..n], holdout) + [indices[n]]
  }

  function SetOf(s: seq<nat>): set<nat> {
    set i | i in s
  }

  /** The first `n` folds, one after the other. */
  function Scored(indices: seq<nat>, k: FoldCount, n: nat): seq<nat> {
    if n == 0 then [] else Scored(indices, k, n - 1) + Fold(indices, k, n - 1)
  }

  lemma {:induction false} FoldEntries(indices: seq<nat>, k: FoldCount, f: nat)
    ensures forall x :: x in Fold(indices, k, f) ==> x in indices
  {
    if indices != [] {
      FoldEntries(indices[..|indices| - 1], k, f);
    }
  }

  // ---- Counting ----

  function Count(s: seq<nat>, x: nat): nat {
    if s == [] then 0 else Count(s[..|s| - 1], x) + if s[|s| - 1] == x then 1 else 0
  }

  lemma CountSnoc(s: seq<nat>, y: nat, x: nat)
    ensures Count(s + [y], x) == Count(s, x) + if y == x then 1 else 0
  {
    assert (s + [y])[..|s|] == s;
  }

  lemma {:induction false} CountConcat(s: seq<nat>, t: seq<nat>, x: nat)
    ensures Count(s + t, x) == Count(s, x) + Count(t, x)
  {
    if t == [] {
      assert s + t == s;
    } else {
      var n := |t| - 1;
      CountConcat(s, t[..n], x);
      CountSnoc(s + t[..n], t[n], x);
      assert s + t == (s + t[..n]) + [t[n]];
    }
  }

  lemma {:induction false} CountIsMultiplicity(s: seq<nat>, x: nat)
    ensures multiset(s)[x] == Count(s, x)
  {
    if s != [] {
      CountIsMultiplicity(s[..|s| - 1], x);
      assert s == s[..|s| - 1] + [s[|s| - 1]];
    }
  }

  lemma FoldSnoc(indices: seq<nat>, k: FoldCount, f: nat, x: nat)
    requires indices != []
    ensures var p := |indices| - 1;
            Count(Fold(indices, k, f), x)
            == Count(Fold(indices[..p], k, f), x) + if Slot(k, p) == f && indices[p] == x then 1 else 0
  {
    var p := |indices| - 1;
    CountSnoc(Fold(indices[..p], k, f), indices[p], x);
  }

  lemma ScoredCount(indices: seq<nat>, k: FoldCount, n: nat, x: nat)
    requires n > 0
    ensures Count(Scored(indices, k, n), x) == Count(Scored(indices, k, n - 1), x) + Count(Fold(indices, k, n - 1), x)
  {
    CountConcat(Scored(indices, k, n - 1), Fold(indices, k, n - 1), x);
  }

  lemma {:induction false} ScoredSnoc(indices: seq<nat>, k: FoldCount, n: nat, x: nat)
    requires indices != []
    ensures var p := |indices| - 1;
            Count(Scored(indices, k, n), x)
            == Count(Scored(indices[..p], k, n), x) + if Slot(k, p) < n && indices[p] == x then 1 else 0
  {
    if n > 0 {
      var init := indices[..|indices| - 1];
      ScoredSnoc(indices, k, n - 1, x);
      FoldSnoc(indices, k, n - 1, x);
      ScoredCount(indices, k, n, x);
      ScoredCount(init, k, n, x);
    }
  }

  lemma {:induction false} NothingScored(k: FoldCount, n: nat)
    ensures Scored([], k, n) == []
  {
    if n > 0 {
      NothingScored(k, n - 1);
    }
  }

  lemma {:induction false} EachScoredOnce(indices: seq<nat>, k: FoldCount, x: nat)
    ensures Count(Scored(indices, k, k), x) == Count(indices, x)
  {
    if indices == [] {
      NothingScored(k, k);
    } else {
      EachScoredOnce(indices[..|indices| - 1], k, x);
      ScoredSnoc(indices, k, k, x);
    }
  }

  /** The folds together are the order, rearranged. */
  lemma {:induction false} FoldsDealAll(indices: seq<nat>, k: FoldCount)
    ensures multiset(Scored(indices, k, k)) == multiset(indices)
    ensures |Scored(indices, k, k)| == |indices|
  {
    forall x
      ensures multiset(Scored(indices, k, k))[x] == multiset(indices)[x]
    {
      EachScoredOnce(indices, k, x);
      CountIsMultiplicity(Scored(indices, k, k), x);
      CountIsMultiplicity(indices, x);
    }
    assert multiset(Scored(indices, k, k)) == multiset(indices);
    assert |multiset(Scored(indices, k, k))| == |multiset(indices)|;
  }

  /** Outside a fold every entry is left as often as it was. */
  lemma {:induction false} OthersCount(indices: seq<nat>, holdout: set<nat>, x: nat)
    ensures Count(Others(indices, holdout), x) == if x in holdout then 0 else Count(indices, x)
  {
    if indices != [] {
      var n := |indices| - 1;
      OthersCount(indices[..n], holdout, x);
      if indices[n] !in holdout {
        CountSnoc(Others(indices[..n], holdout), indices[n], x);
      }
    }
  }

  lemma {:induction false} SlotOf(k: FoldCount, n: nat) returns (q: nat)
    ensures n == Slot(k, n) + q * k
  {
    if n < k {
      q := 0;
    } else {
      var p := SlotOf(k, n - k);
      q := p + 1;
      assert q * k == p * k + k;
    }
  }

  lemma Later(f: nat, k: FoldCount, q: nat, m: nat)
    requires m < q
    ensures f + m * k < f + q * k
  {
    assert q * k == m * k + (q - m) * k;
    assert (q - m) * k >= k by {
      assert (q - m - 1) * k >= 0;
      assert (q - m) * k == (q - m - 1) * k + k;
    }
  }

  /** Entry `m` of fold `f` is the one at position f + m * k of the order, as long as there is one. */
  lemma {:induction false} FoldAt(indices: seq<nat>, k: FoldCount, f: nat, m: nat)
    requires f < k
    ensures m < |Fold(indices, k, f)| <==> f + m * k < |indices|
    ensures f + m * k >= 0
    ensures m < |Fold(indices, k, f)| ==> Fold(indices, k, f)[m] == indices[f + m * k]
    decreases |indices|, 0
  {
    assert m * k >= 0;
    if indices != [] {
      var n := |indices| - 1;
      FoldAt(indices[..n], k, f, m);
      if f + m * k == n {
        StrideHas(k, f, m);
      }
      if Slot(k, n) == f {
        var q := SlotOf(k, n);
        LengthBefore(indices[..n], k, f, q);
        if m < q {
          Later(f, k, q, m);
        } else if m > q {
          Later(f, k, m, q);
        }
      }
    }
  }

  lemma {:induction false} LengthBefore(indices: seq<nat>, k: FoldCount, f: nat, q: nat)
    requires f < k && |indices| == f + q * k
    ensures |Fold(indices, k, f)| == q
    decreases |indices|, 1
  {
    FoldAt(indices, k, f, q);
    if q > 0 {
      Later(f, k, q, q - 1);
      FoldAt(indices, k, f, q - 1);
    }
  }
}

/** Rows sent in batches: collected until there are enough, flushed, and flushed once more at the end. */
module Batches {

  function Flat<Row>(batches: seq<seq<Row>>): seq<Row> {
    if batches == [] then [] else Flat(batches[..|batches| - 1]) + batches[|batches| - 1]
  }

  /** Rows at which a batch is flushed; a size below one flushes after each row. */
  function Limit(size: int): nat {
    if size < 1 then 1 else size
  }

  ghost predicate AllFull<Row>(size: int, batches: seq<seq<Row>>) {
    forall i :: 0 <= i < |batches| ==> |batches[i]| == Limit(size)
  }

  /** Every batch is full, except that the last may be shorter; none is empty. */
  ghost predicate Cut<Row>(size: int, batches: seq<seq<Row>>) {
    && (forall i :: 0 <= i < |batches| ==> 1 <= |batches[i]| <= Limit(size))
    && forall i :: 0 <= i < |batches| - 1 ==> |batches[i]| == Limit(size)
  }

  lemma {:induction false} FullLength<Row>(size: int, batches: seq<seq<Row>>)
    requires AllFull(size, batches)
    ensures |Flat(batches)| == |batches| * Limit(size)
  {
    if batches != [] {
      var n := |batches| - 1;
      FullLength(size, batches[..n]);
      assert (n + 1) * Limit(size) == n * Limit(size) + Limit(size);
    }
  }

  lemma {:induction false} FlatLength<Row>(size: int, batches: seq<seq<Row>>)
    requires Cut(size, batches)
    ensures batches == [] ==> |Flat(batches)| == 0
    ensures batches != []
        ==> (|batches| - 1) * Limit(size) < |Flat(batches)| <= (|batches| - 1) * Limit(size) + Limit(size)
  {
    if batches != [] {
      FullLength(size, batches[..|batches| - 1]);
    }
  }

  lemma {:induction false} ProductGrows(m: nat, n: nat, limit: nat)
    requires m < n
    ensures m * limit + limit <= n * limit
  {
    assert n * limit == (n - 1) * limit + limit;
    if m < n - 1 {
      ProductGrows(m, n - 1, limit);
    }
  }

  lemma {:induction false} SameQuotient(m: nat, n: nat, limit: nat, total: nat)
    requires m * limit < total <= m * limit + limit && n * limit < total <= n * limit + limit
    ensures m == n
  {
    if m < n {
      ProductGrows(m, n, limit);
    } else if n < m {
      ProductGrows(n, m, limit);
    }
  }

  lemma PrefixesEqual<Row>(a: seq<Row>, x: seq<Row>, b: seq<Row>, y: seq<Row>)
    requires a + x == b + y && |a| == |b|
    ensures a == b && x == y
  {
    assert a == (a + x)[..|a|] && b == (b + y)[..|b|];
    assert x == (a + x)[|a|..] && y == (b + y)[|b|..];
  }

  lemma FullIsCut<Row>(size: int, batches: seq<seq<Row>>)
    requires AllFull(size, batches)
    ensures Cut(size, batches)
  {
  }

  /** How rows are cut depends on the rows and the size alone. */
  lemma {:induction false} CutIsUnique<Row>(size: int, a: seq<seq<Row>>, b: seq<seq<Row>>)
    requires Cut(size, a) && Cut(size, b) && Flat(a) == Flat(b)
    ensures a == b
  {
    FlatLength(size, a);
    FlatLength(size, b);
    if a != [] && b != [] {
      var n := |a| - 1;
      SameQuotient(n, |b| - 1, Limit(size), |Flat(a)|);
      FullLength(size, a[..n]);
      FullLength(size, b[..n]);
      PrefixesEqual(Flat(a[..n]), a[n], Flat(b[..n]), b[n]);
      FullIsCut(size, a[..n]);
      FullIsCut(size, b[..n]);
      CutIsUnique(size, a[..n], b[..n]);
      assert a == a[..n] + [a[n]] && b == b[..n] + [b[n]];
    }
  }

  /** The rows waiting, the batches sent, and the count the flush keeps. */
  class Outbox<Row> {
    const size: int
    var batch: seq<Row>
    var sent: seq<seq<Row>>
    var count: nat

    /** Between rows: whatever was sent was full, and less than a batch waits. */
    ghost predicate Valid()
      reads this
    {
      AllFull(size, sent) && |batch| < Limit(size) && count == |Flat(sent)|
    }

    ghost function Rows(): seq<Row>
      reads this
    {
      Flat(sent) + batch
    }

    constructor (size: int)
      ensures Valid() && this.size == size && Rows() == []
    {
      this.size, batch, sent, count := size, [], [], 0;
    }

    /** Send what waits, if anything does. */
    method Flush()
      requires count == |Flat(sent)|
      modifies this
      ensures batch == [] && count == |Flat(sent)|
      ensures Rows() == old(Rows())
      ensures sent == if old(batch) == [] then old(sent) else old(sent) + [old(batch)]
    {
      if batch != [] {
        ghost var before := sent;
        sent, count, batch := sent + [batch], count + |batch|, [];
        assert sent[..|sent| - 1] == before;
      }
    }

    method Add(row: Row)
      requires Valid()
      modifies this
      ensures Valid() && Rows() == old(Rows()) + [row]
    {
      batch := batch + [row];
      if |batch| >= size {
        Flush();
      }
    }

    method Close()
      requires Valid()
      modifies this
      ensures batch == [] && Cut(size, sent) && Flat(sent) == old(Rows()) && count == |Flat(sent)|
    {
      Flush();
    }
  }
}

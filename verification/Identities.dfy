/** Which claims of a run share a slot.  Among claims that are identified in one way, by QID, by IdRef or by name,
    exactly those that agree; and two IdRefs never share one unless a QID brings them together. */
module Identities {
  import opened Names
  import opened Options
  import opened Edges
  import opened MergeRuns

  // ---- Claims identified in one way ----

  type EdgeTest = Edge -> bool

  /** Claims that pass denote one advisor exactly if they have one mark. */
  predicate Splits<T(==)>(p: EdgeTest, mark: Edge -> T, a: Edge, b: Edge) {
    p(a) && p(b) ==> (SameAdvisor(a, b) <==> mark(a) == mark(b))
  }

  predicate OpensWell<T(==)>(p: EdgeTest, mark: Edge -> T, e: Edge) {
    p(e) ==> p(Opened(e)) && p(OnRecord(e)) && mark(Opened(e)) == mark(OnRecord(e)) == mark(e)
  }

  /** A slot keeps the mark of what it absorbs. */
  predicate FusesWell<T(==)>(p: EdgeTest, mark: Edge -> T, cur: Edge, inc: Edge) {
    p(cur) && p(inc) && mark(cur) == mark(inc) ==> p(Absorb(cur, inc)) && mark(Absorb(cur, inc)) == mark(cur)
  }

  ghost predicate Marks<T(!new)>(p: EdgeTest, mark: Edge -> T) {
    && (forall a, b :: Splits(p, mark, a, b))
    && (forall e :: OpensWell(p, mark, e))
    && forall cur, inc :: FusesWell(p, mark, cur, inc)
  }

  ghost predicate AllPass(p: EdgeTest, edges: seq<Edge>) {
    forall i :: 0 <= i < |edges| ==> p(edges[i])
  }

  /** Slots have different marks, and each has that of its claims. */
  ghost predicate Sorted<T(!new)>(p: EdgeTest, mark: Edge -> T, slots: seq<Edge>, history: History) {
    && |slots| == |history| && AllPass(p, slots)
    && (forall i, j :: 0 <= i < j < |slots| ==> mark(slots[i]) != mark(slots[j]))
    && forall i, m :: 0 <= i < |slots| && 0 <= m < |history[i]| ==> mark(history[i][m]) == mark(slots[i])
  }

  lemma {:induction false} SortNew<T(!new)>(p: EdgeTest, mark: Edge -> T, slots: seq<Edge>, history: History, inc: Edge)
    requires Marks(p, mark) && Sorted(p, mark, slots, history) && p(inc) && FirstMatch(slots, inc) == |slots|
    ensures Sorted(p, mark, slots + [Opened(inc)], history + [[inc]])
  {
    assert OpensWell(p, mark, inc);
    forall i | 0 <= i < |slots|
      ensures mark(slots[i]) != mark(inc)
    {
      assert Splits(p, mark, slots[i], inc);
    }
  }

  lemma {:induction false} SortIn<T(!new)>(p: EdgeTest, mark: Edge -> T, slots: seq<Edge>, history: History, inc: Edge,
                                           at: nat)
    requires Marks(p, mark) && Sorted(p, mark, slots, history) && p(inc)
    requires at < |slots| && SameAdvisor(slots[at], inc)
    ensures Sorted(p, mark, slots[at := Absorb(slots[at], inc)], history[at := history[at] + [inc]])
  {
    assert Splits(p, mark, slots[at], inc) && FusesWell(p, mark, slots[at], inc);
    var slots', after := slots[at := Absorb(slots[at], inc)], history[at := history[at] + [inc]];
    assert forall i :: 0 <= i < |slots| ==> mark(slots'[i]) == mark(slots[i]);
    forall i, m | 0 <= i < |after| && 0 <= m < |after[i]|
      ensures mark(after[i][m]) == mark(slots'[i])
    {
      if m < |history[i]| {
        assert after[i][m] == history[i][m];
      }
    }
  }

  lemma {:induction false} SortOne<T(!new)>(p: EdgeTest, mark: Edge -> T, slots: seq<Edge>, history: History, inc: Edge)
    requires Marks(p, mark) && Sorted(p, mark, slots, history) && p(inc)
    ensures Sorted(p, mark, MergeOne(slots, inc), DealOne(slots, history, inc))
  {
    var at := FirstMatch(slots, inc);
    if at == |slots| {
      SortNew(p, mark, slots, history, inc);
    } else {
      SortIn(p, mark, slots, history, inc, at);
    }
  }

  lemma {:induction false} SortAll<T(!new)>(p: EdgeTest, mark: Edge -> T, slots: seq<Edge>, history: History,
                                            incoming: seq<Edge>)
    requires Marks(p, mark) && Sorted(p, mark, slots, history) && AllPass(p, incoming)
    ensures Sorted(p, mark, MergeAll(slots, incoming), DealAll(slots, history, incoming))
    decreases |incoming|
  {
    if incoming != [] {
      var n := |incoming| - 1;
      SortAll(p, mark, slots, history, incoming[..n]);
      SortOne(p, mark, MergeAll(slots, incoming[..n]), DealAll(slots, history, incoming[..n]), incoming[n]);
    }
  }

  lemma {:induction false} RecordedSorted<T(!new)>(p: EdgeTest, mark: Edge -> T, slots: seq<Edge>, history: History)
    requires Marks(p, mark) && Sorted(p, mark, slots, history)
    ensures Sorted(p, mark, AllOnRecord(slots), history)
  {
    forall i | 0 <= i < |slots|
      ensures p(AllOnRecord(slots)[i]) && mark(AllOnRecord(slots)[i]) == mark(slots[i])
    {
      assert OpensWell(p, mark, slots[i]);
    }
  }

  ghost predicate AllClaimsPass(p: EdgeTest, batches: seq<seq<Edge>>) {
    forall b :: 0 <= b < |batches| ==> AllPass(p, batches[b])
  }

  lemma {:induction false} RunSorted<T(!new)>(p: EdgeTest, mark: Edge -> T, batches: seq<seq<Edge>>)
    requires Marks(p, mark) && AllClaimsPass(p, batches)
    ensures Sorted(p, mark, Run(batches), Histories(batches))
  {
    if batches != [] {
      var init := batches[..|batches| - 1];
      RunSorted(p, mark, init);
      RecordedSorted(p, mark, Run(init), Histories(init));
      SortAll(p, mark, AllOnRecord(Run(init)), Histories(init), batches[|batches| - 1]);
    }
  }

  /** After a run, claims share a slot exactly if they have one mark. */
  ghost predicate SharedByMark<T(!new)>(mark: Edge -> T, history: History) {
    forall i, j, m, n :: 0 <= i < |history| && 0 <= j < |history| && 0 <= m < |history[i]| && 0 <= n < |history[j]| ==>
      (i == j <==> mark(history[i][m]) == mark(history[j][n]))
  }

  lemma {:induction false} SortedShares<T(!new)>(p: EdgeTest, mark: Edge -> T, slots: seq<Edge>, history: History)
    requires Sorted(p, mark, slots, history)
    ensures SharedByMark(mark, history)
  {
    forall i, j, m, n | 0 <= i < |history| && 0 <= j < |history| && 0 <= m < |history[i]| && 0 <= n < |history[j]|
      ensures i == j <==> mark(history[i][m]) == mark(history[j][n])
    {
      assert mark(history[i][m]) == mark(slots[i]) && mark(history[j][n]) == mark(slots[j]);
    }
  }

  function HasQid(): EdgeTest {
    (e: Edge) => e.qid.Some?
  }

  function QidOf(): Edge -> Option<string> {
    (e: Edge) => e.qid
  }

  lemma {:induction false} QidMarks()
    ensures Marks(HasQid(), QidOf())
  {
    forall a, b
      ensures Splits(HasQid(), QidOf(), a, b) && OpensWell(HasQid(), QidOf(), a) && FusesWell(HasQid(), QidOf(), a, b)
    {
    }
  }

  /** Claims with QIDs share a slot exactly if they have one QID, whatever their IdRefs and names. */
  lemma {:induction false} SharedByQid(batches: seq<seq<Edge>>)
    requires AllClaimsPass(HasQid(), batches)
    ensures SharedByMark(QidOf(), Histories(batches))
  {
    QidMarks();
    RunSorted(HasQid(), QidOf(), batches);
    SortedShares(HasQid(), QidOf(), Run(batches), Histories(batches));
  }

  function HasIdRefAlone(): EdgeTest {
    (e: Edge) => e.qid.None? && e.idref.Some?
  }

  function IdRefOf(): Edge -> Option<string> {
    (e: Edge) => e.idref
  }

  lemma {:induction false} IdRefMarks()
    ensures Marks(HasIdRefAlone(), IdRefOf())
  {
    forall a, b
      ensures Splits(HasIdRefAlone(), IdRefOf(), a, b) && OpensWell(HasIdRefAlone(), IdRefOf(), a)
      ensures FusesWell(HasIdRefAlone(), IdRefOf(), a, b)
    {
    }
  }

  /** Claims with IdRefs alone exactly if they have one IdRef, whatever their names. */
  lemma {:induction false} SharedByIdRef(batches: seq<seq<Edge>>)
    requires AllClaimsPass(HasIdRefAlone(), batches)
    ensures SharedByMark(IdRefOf(), Histories(batches))
  {
    IdRefMarks();
    RunSorted(HasIdRefAlone(), IdRefOf(), batches);
    SortedShares(HasIdRefAlone(), IdRefOf(), Run(batches), Histories(batches));
  }

  function HasNameAlone(): EdgeTest {
    (e: Edge) => e.qid.None? && e.idref.None? && NormalizeKey(e.name) != NO_KEY
  }

  function KeyOf(): Edge -> Key {
    (e: Edge) => NormalizeKey(e.name)
  }

  lemma {:induction false} NameMarks()
    ensures Marks(HasNameAlone(), KeyOf())
  {
    forall a, b
      ensures Splits(HasNameAlone(), KeyOf(), a, b) && OpensWell(HasNameAlone(), KeyOf(), a)
      ensures FusesWell(HasNameAlone(), KeyOf(), a, b)
    {
    }
  }

  /** And claims without identifiers exactly if their names have one key. */
  lemma {:induction false} SharedByName(batches: seq<seq<Edge>>)
    requires AllClaimsPass(HasNameAlone(), batches)
    ensures SharedByMark(KeyOf(), Histories(batches))
  {
    NameMarks();
    RunSorted(HasNameAlone(), KeyOf(), batches);
    SortedShares(HasNameAlone(), KeyOf(), Run(batches), Histories(batches));
  }

  // ---- Two IdRefs ----

  function NoQid(): EdgeTest {
    (e: Edge) => e.qid.None?
  }

  /** Every IdRef among the claims is the slot's. */
  ghost predicate IdRefAgreed(slot: Edge, claims: seq<Edge>) {
    slot.qid.None? && forall m :: 0 <= m < |claims| && claims[m].idref.Some? ==> claims[m].idref == slot.idref
  }

  ghost predicate AllAgreed(slots: seq<Edge>, history: History) {
    |slots| == |history| && forall i :: 0 <= i < |slots| ==> IdRefAgreed(slots[i], history[i])
  }

  lemma {:induction false} AgreeOne(slots: seq<Edge>, history: History, inc: Edge)
    requires AllAgreed(slots, history) && inc.qid.None?
    ensures AllAgreed(MergeOne(slots, inc), DealOne(slots, history, inc))
  {
    var at := FirstMatch(slots, inc);
    if at < |slots| {
      assert IdRefAgreed(slots[at], history[at]);
      assert IdRefAgreed(Absorb(slots[at], inc), history[at] + [inc]);
    }
  }

  lemma {:induction false} AgreeAll(slots: seq<Edge>, history: History, incoming: seq<Edge>)
    requires AllAgreed(slots, history) && AllPass(NoQid(), incoming)
    ensures AllAgreed(MergeAll(slots, incoming), DealAll(slots, history, incoming))
    decreases |incoming|
  {
    if incoming != [] {
      var n := |incoming| - 1;
      AgreeAll(slots, history, incoming[..n]);
      assert NoQid()(incoming[n]);
      AgreeOne(MergeAll(slots, incoming[..n]), DealAll(slots, history, incoming[..n]), incoming[n]);
    }
  }

  /** A run of claims without QIDs never mixes two IdRefs in one slot. */
  lemma {:induction false} RunNeverMixesIdRefs(batches: seq<seq<Edge>>)
    requires AllClaimsPass(NoQid(), batches)
    ensures AllAgreed(Run(batches), Histories(batches))
  {
    if batches != [] {
      var init := batches[..|batches| - 1];
      RunNeverMixesIdRefs(init);
      forall i | 0 <= i < |Run(init)|
        ensures IdRefAgreed(AllOnRecord(Run(init))[i], Histories(init)[i])
      {
        assert IdRefAgreed(Run(init)[i], Histories(init)[i]);
      }
      AgreeAll(AllOnRecord(Run(init)), Histories(init), batches[|batches| - 1]);
    }
  }
}

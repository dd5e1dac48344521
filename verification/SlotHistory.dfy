/** What the slots of a united record have become.  The edges of the record with precedence take up the others' edges
    as claims; each slot is the fold of the claims that went to it, and so each of its fields can be read off them. */
module SlotHistory {
  import opened Names
  import opened Options
  import opened Edges
  import opened MergeRuns
  import opened Records
  import opened AliasMerge

  // ---- A united record is one merge ----

  /** The keys of a united group, in the order in which their records are united. */
  function UnitedKeys(less: Order, keys: seq<Key>, g: Graph, id: string): (ordered: seq<Key>)
    requires AllIn(keys, g) && Unites(keys, g, id)
    ensures ordered != [] && AllIn(ordered, g) && UnitedRecord(less, keys, g, id) == UniteAll(g, ordered)
  {
    GroupIn(keys, g, id);
    var ordered := Sorted(less, g, Group(keys, g, id));
    assert forall i :: 0 <= i < |ordered| ==> ordered[i] in ordered;
    ordered
  }

  /** The edges of all records but the first. */
  function Later(g: Graph, ordered: seq<Key>): seq<Edge>
    requires AllIn(ordered, g)
  {
    if |ordered| <= 1 then [] else Later(g, ordered[..|ordered| - 1]) + AdvisorsOf(g[ordered[|ordered| - 1]])
  }

  lemma {:induction false} MergeAllSnoc(slots: seq<Edge>, incoming: seq<Edge>, e: Edge)
    ensures MergeAll(slots, incoming + [e]) == MergeOne(MergeAll(slots, incoming), e)
  {
    var all := incoming + [e];
    assert all[..|all| - 1] == incoming && all[|all| - 1] == e;
  }

  lemma {:induction false} MergeAllConcat(slots: seq<Edge>, a: seq<Edge>, b: seq<Edge>)
    ensures MergeAll(MergeAll(slots, a), b) == MergeAll(slots, a + b)
    decreases |b|
  {
    if b == [] {
      assert a + b == a;
    } else {
      var init, last := b[..|b| - 1], b[|b| - 1];
      MergeAllConcat(slots, a, init);
      assert b == init + [last] && a + b == (a + init) + [last];
      MergeAllSnoc(slots, a + init, last);
      MergeAllSnoc(MergeAll(slots, a), init, last);
    }
  }

  lemma {:induction false} RecordedStay(edges: seq<Edge>, incoming: seq<Edge>)
    ensures AllOnRecord(MergeAll(AllOnRecord(edges), incoming)) == MergeAll(AllOnRecord(edges), incoming)
  {
    OnRecordHas(edges, Mgp);
    MergeSelfRecorded(AllOnRecord(edges), incoming);
  }

  lemma {:induction false} UniteAllMerges(g: Graph, ordered: seq<Key>)
    requires ordered != [] && AllIn(ordered, g)
    ensures AllOnRecord(AdvisorsOf(UniteAll(g, ordered)))
         == MergeAll(AllOnRecord(AdvisorsOf(g[ordered[0]])), Later(g, ordered))
  {
    if |ordered| > 1 {
      var n, slots := |ordered| - 1, AllOnRecord(AdvisorsOf(g[ordered[0]]));
      var before, more := Later(g, ordered[..n]), AdvisorsOf(g[ordered[n]]);
      UniteAllMerges(g, ordered[..n]);
      MergeAllConcat(slots, before, more);
      if more == [] {
        assert before + more == before;
      } else {
        RecordedStay(AdvisorsOf(UniteAll(g, ordered[..n])), more);
      }
    }
  }

  // ---- Which claims a slot absorbs ----

  function Nothing(n: nat): (history: History)
    ensures |history| == n && forall i :: 0 <= i < n ==> history[i] == []
  {
    seq(n, _ => [])
  }

  ghost predicate DealtAt(slots: seq<Edge>, slot: Edge, claims: seq<Edge>, i: nat) {
    if i < |slots| then slot == Fold(slots[i], claims) else claims != [] && slot == SlotOf(claims)
  }

  /** Old slots are what their claims make of them, new ones what their claims make. */
  ghost predicate Dealt(slots: seq<Edge>, merged: seq<Edge>, history: History) {
    && |slots| <= |merged| == |history|
    && forall i :: 0 <= i < |merged| ==> DealtAt(slots, merged[i], history[i], i)
  }

  lemma {:induction false} DealtMore(slots: seq<Edge>, merged: seq<Edge>, history: History, inc: Edge)
    requires Dealt(slots, merged, history)
    ensures Dealt(slots, MergeOne(merged, inc), DealOne(merged, history, inc))
  {
    var at := FirstMatch(merged, inc);
    if at == |merged| {
      assert SlotOf([inc]) == Opened(inc);
    } else if at < |slots| {
      FoldSnoc(slots[at], history[at], inc);
    } else {
      SlotOfSnoc(history[at], inc);
    }
    forall i | 0 <= i < |merged|
      ensures i != at ==> DealtAt(slots, merged[i], history[i], i)
    {
    }
  }

  lemma {:induction false} AllDealt(slots: seq<Edge>, incoming: seq<Edge>)
    ensures Dealt(slots, MergeAll(slots, incoming), DealAll(slots, Nothing(|slots|), incoming))
    decreases |incoming|
  {
    if incoming != [] {
      var n := |incoming| - 1;
      AllDealt(slots, incoming[..n]);
      DealtMore(slots, MergeAll(slots, incoming[..n]), DealAll(slots, Nothing(|slots|), incoming[..n]), incoming[n]);
    }
  }

  /** What slot `i` was before it absorbed claims. */
  function Base(slots: seq<Edge>, claims: seq<Edge>, i: nat): Edge
    requires i < |slots| || claims != []
  {
    if i < |slots| then slots[i] else Opened(claims[0])
  }

  /** The claims it absorbed. */
  function Absorbed(slots: seq<Edge>, claims: seq<Edge>, i: nat): seq<Edge>
    requires i < |slots| || claims != []
  {
    if i < |slots| then claims else claims[1..]
  }

  /** Every slot of a merge is the fold of the claims it absorbed. */
  lemma {:induction false} SlotsAreFolds(slots: seq<Edge>, incoming: seq<Edge>, i: nat)
    requires i < |MergeAll(slots, incoming)|
    ensures var claims := DealAll(slots, Nothing(|slots|), incoming)[i];
            && (i < |slots| || claims != [])
            && MergeAll(slots, incoming)[i] == Fold(Base(slots, claims, i), Absorbed(slots, claims, i))
  {
    AllDealt(slots, incoming);
    assert DealtAt(slots, MergeAll(slots, incoming)[i], DealAll(slots, Nothing(|slots|), incoming)[i], i);
  }

  // ---- Which value of a field wins ----

  /** A field of an edge, if it has one. */
  type Pick<T> = Edge -> Option<T>

  /** An override prefers the claim's value, a corroboration the slot's. */
  predicate FusesAt<T(==)>(pick: Pick<T>, cur: Edge, inc: Edge) {
    pick(Absorb(cur, inc)) == if Overrides(cur, inc) then OrElse(pick(inc), pick(cur)) else OrElse(pick(cur), pick(inc))
  }

  ghost predicate Fuses<T(!new)>(pick: Pick<T>) {
    forall cur, inc :: FusesAt(pick, cur, inc)
  }

  function Stated(): Pick<string> {
    (e: Edge) => e.statedIn
  }

  function Held(): Pick<string> {
    (e: Edge) => e.idref
  }

  function Called(): Pick<Name> {
    (e: Edge) => Some(e.name)
  }

  lemma {:induction false} FieldsFuse()
    ensures Fuses(Stated()) && Fuses(Held()) && Fuses(Called())
  {
  }

  /** The claim overrides what the slot has become by then, and brings a value. */
  predicate Supplants<T>(pick: Pick<T>, slot: Edge, claims: seq<Edge>, i: nat)
    requires i < |claims|
  {
    Overrides(Fold(slot, claims[..i]), claims[i]) && pick(claims[i]).Some?
  }

  /** The last of the first `n` claims that supplants the value. */
  function LastSupplanting<T>(pick: Pick<T>, slot: Edge, claims: seq<Edge>, n: nat): (last: Option<nat>)
    requires n <= |claims|
    ensures last.Some? ==> last.value < n && Supplants(pick, slot, claims, last.value)
    ensures forall j :: (if last.Some? then last.value + 1 else 0) <= j < n ==> !Supplants(pick, slot, claims, j)
  {
    if n == 0 then None
    else if Supplants(pick, slot, claims, n - 1) then Some(n - 1)
    else LastSupplanting(pick, slot, claims, n - 1)
  }

  /** The first of the first `n` claims that brings a value. */
  function FirstGiven<T>(pick: Pick<T>, claims: seq<Edge>, n: nat): (first: Option<nat>)
    requires n <= |claims|
    ensures first.Some? ==> first.value < n && pick(claims[first.value]).Some?
    ensures forall j :: 0 <= j < (if first.Some? then first.value else n) ==> pick(claims[j]).None?
  {
    if n == 0 then None
    else
      var before := FirstGiven(pick, claims, n - 1);
      if before.None? && pick(claims[n - 1]).Some? then Some(n - 1) else before
  }

  /** The value of the last claim that supplants it, or else the slot's own, or else the first brought. */
  function Winner<T>(pick: Pick<T>, slot: Edge, claims: seq<Edge>, n: nat): Option<T>
    requires n <= |claims|
  {
    var last, first := LastSupplanting(pick, slot, claims, n), FirstGiven(pick, claims, n);
    if last.Some? then pick(claims[last.value])
    else if pick(slot).Some? then pick(slot)
    else if first.Some? then pick(claims[first.value])
    else None
  }

  lemma {:induction false} WinnerStep<T>(pick: Pick<T>, slot: Edge, claims: seq<Edge>, n: nat, over: bool)
    requires 0 < n <= |claims| && (over <==> Overrides(Fold(slot, claims[..n - 1]), claims[n - 1]))
    ensures var before, brought := Winner(pick, slot, claims, n - 1), pick(claims[n - 1]);
            Winner(pick, slot, claims, n) == if over then OrElse(brought, before) else OrElse(before, brought)
  {
    assert Supplants(pick, slot, claims, n - 1) <==> over && pick(claims[n - 1]).Some?;
  }

  lemma {:induction false} WinnerIs<T(!new)>(pick: Pick<T>, slot: Edge, claims: seq<Edge>, n: nat)
    requires Fuses(pick) && n <= |claims|
    ensures pick(Fold(slot, claims[..n])) == Winner(pick, slot, claims, n)
  {
    if n == 0 {
      assert claims[..0] == [];
    } else {
      var cur, last := Fold(slot, claims[..n - 1]), claims[n - 1];
      WinnerIs(pick, slot, claims, n - 1);
      assert claims[..n] == claims[..n - 1] + [last];
      FoldSnoc(slot, claims[..n - 1], last);
      assert FusesAt(pick, cur, last);
      WinnerStep(pick, slot, claims, n, Overrides(cur, last));
    }
  }

  /** What a slot has in the field after all its claims. */
  function Won<T>(pick: Pick<T>, slot: Edge, claims: seq<Edge>): Option<T> {
    Winner(pick, slot, claims, |claims|)
  }

  /** A field of a slot is the value that wins among its claims. */
  lemma {:induction false} WonIs<T(!new)>(pick: Pick<T>, slot: Edge, claims: seq<Edge>)
    requires Fuses(pick)
    ensures pick(Fold(slot, claims)) == Won(pick, slot, claims)
  {
    WinnerIs(pick, slot, claims, |claims|);
    assert claims[..|claims|] == claims;
  }

  // ---- The fields of a united record ----

  /** What slot `i` has in the field. */
  function SlotWinner<T>(pick: Pick<T>, slots: seq<Edge>, claims: seq<Edge>, i: nat): Option<T> {
    if i >= |slots| && claims == [] then None else Won(pick, Base(slots, claims, i), Absorbed(slots, claims, i))
  }

  function Winners<T>(pick: Pick<T>, slots: seq<Edge>, history: History): seq<Option<T>> {
    seq(|history|, i requires 0 <= i < |history| => SlotWinner(pick, slots, history[i], i))
  }

  /** What wins among the records of a group, slot by slot. */
  function UnitedWinners<T>(pick: Pick<T>, g: Graph, ordered: seq<Key>): seq<Option<T>>
    requires ordered != [] && AllIn(ordered, g)
  {
    var slots := AllOnRecord(AdvisorsOf(g[ordered[0]]));
    Winners(pick, slots, DealAll(slots, Nothing(|slots|), Later(g, ordered)))
  }

  function Picked<T>(pick: Pick<T>, edges: seq<Edge>): seq<Option<T>> {
    seq(|edges|, i requires 0 <= i < |edges| => pick(edges[i]))
  }

  ghost predicate IgnoresRecord<T(!new)>(pick: Pick<T>) {
    forall e :: pick(OnRecord(e)) == pick(e)
  }

  lemma {:induction false} FieldsIgnoreRecord()
    ensures IgnoresRecord(Stated()) && IgnoresRecord(Held()) && IgnoresRecord(Called())
  {
  }

  lemma {:induction false} PickedOnRecord<T(!new)>(pick: Pick<T>, edges: seq<Edge>)
    requires IgnoresRecord(pick)
    ensures Picked(pick, AllOnRecord(edges)) == Picked(pick, edges)
  {
    forall i | 0 <= i < |edges|
      ensures pick(AllOnRecord(edges)[i]) == pick(edges[i])
    {
      assert AllOnRecord(edges)[i] == OnRecord(edges[i]);
    }
  }

  /** Each edge of a united record has in the field what wins in its slot. */
  lemma {:induction false} UnitedFieldsAre<T(!new)>(pick: Pick<T>, g: Graph, ordered: seq<Key>)
    requires Fuses(pick) && IgnoresRecord(pick) && ordered != [] && AllIn(ordered, g)
    ensures Picked(pick, AdvisorsOf(UniteAll(g, ordered))) == UnitedWinners(pick, g, ordered)
  {
    var slots, incoming := AllOnRecord(AdvisorsOf(g[ordered[0]])), Later(g, ordered);
    var merged, history := MergeAll(slots, incoming), DealAll(slots, Nothing(|slots|), incoming);
    UniteAllMerges(g, ordered);
    PickedOnRecord(pick, AdvisorsOf(UniteAll(g, ordered)));
    forall i | 0 <= i < |merged|
      ensures pick(merged[i]) == SlotWinner(pick, slots, history[i], i)
    {
      SlotsAreFolds(slots, incoming, i);
      WonIs(pick, Base(slots, history[i], i), Absorbed(slots, history[i], i));
    }
  }

  function Holding(idref: string): EdgeFact {
    (e: Edge) => e.idref == Some(idref)
  }

  /** A united record has an IdRef exactly if it wins in some slot. */
  lemma {:induction false} UnitedHoldsIff(g: Graph, ordered: seq<Key>, idref: string)
    requires ordered != [] && AllIn(ordered, g)
    ensures Has(AdvisorsOf(UniteAll(g, ordered)), Holding(idref)) <==> Some(idref) in UnitedWinners(Held(), g, ordered)
  {
    var edges := AdvisorsOf(UniteAll(g, ordered));
    FieldsFuse();
    FieldsIgnoreRecord();
    UnitedFieldsAre(Held(), g, ordered);
    assert |Picked(Held(), edges)| == |edges|;
    forall i | 0 <= i < |edges|
      ensures Picked(Held(), edges)[i] == edges[i].idref
    {
    }
    if i :| 0 <= i < |edges| && Holding(idref)(edges[i]) {
      assert Picked(Held(), edges)[i] == Some(idref);
    }
  }
}

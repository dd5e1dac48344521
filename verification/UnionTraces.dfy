/** What a union of records keeps of where its edges come from.  The edges of the record with precedence take up
    the others' edges as claims: a claim brings its own source, its QID and, unless the slot has a better one, the
    statement it cites, but not the list of sources it has accumulated. */
module UnionTraces {
  import opened Names
  import opened Options
  import opened Edges
  import opened MergeRuns
  import opened Records
  import opened AliasMerge
  import opened SlotHistory

  // ---- When a trace of MGP survives ----

  function OwnMgp(): EdgeFact {
    (e: Edge) => e.source.Some? && MgpDerived(e.source.value)
  }

  function ListsMgp(): EdgeFact {
    (e: Edge) => exists i :: 0 <= i < |e.sources| && MgpDerived(e.sources[i])
  }

  function Tracing(): EdgeFact {
    (e: Edge) => TracesToMgp(e)
  }

  /** An MGP source is on the slot's list or a claim's own, or the statement that wins cites MGP. */
  ghost predicate TraceKept(slot: Edge, claims: seq<Edge>) {
    || ListsMgp()(slot) || Has(claims, OwnMgp())
    || CitesMgp(slot.(statedIn := Won(Stated(), slot, claims)))
  }

  lemma {:induction false} AbsorbLists(cur: Edge, inc: Edge)
    ensures ListsMgp()(Absorb(cur, inc)) <==> ListsMgp()(cur) || OwnMgp()(inc)
  {
    var sources := Absorb(cur, inc).sources;
    assert sources == WithSource(cur.sources, inc.source);
    if i :| 0 <= i < |cur.sources| && MgpDerived(cur.sources[i]) {
      assert MgpDerived(sources[i]);
    }
    if OwnMgp()(inc) {
      assert inc.source.value in sources;
      var i :| 0 <= i < |sources| && sources[i] == inc.source.value;
    }
  }

  lemma {:induction false} FoldLists(slot: Edge, claims: seq<Edge>)
    requires OnRecord(slot) == slot
    ensures OnRecord(Fold(slot, claims)) == Fold(slot, claims)
    ensures ListsMgp()(Fold(slot, claims)) <==> ListsMgp()(slot) || Has(claims, OwnMgp())
  {
    if claims != [] {
      var init, last := claims[..|claims| - 1], claims[|claims| - 1];
      FoldLists(slot, init);
      HasSnoc(init, last, OwnMgp());
      assert claims == init + [last];
      AbsorbSelfRecorded(Fold(slot, init), last);
      AbsorbLists(Fold(slot, init), last);
    }
  }

  lemma {:induction false} RecordedTraces(e: Edge)
    requires OnRecord(e) == e
    ensures TracesToMgp(e) <==> ListsMgp()(e) || CitesMgp(e)
  {
    if e.source.Some? {
      var i :| 0 <= i < |e.sources| && e.sources[i] == e.source.value;
    }
  }

  /** A slot traces to MGP after absorbing claims exactly if it kept a trace. */
  lemma {:induction false} FoldTracesIff(slot: Edge, claims: seq<Edge>)
    requires OnRecord(slot) == slot
    ensures TracesToMgp(Fold(slot, claims)) <==> TraceKept(slot, claims)
  {
    FoldLists(slot, claims);
    RecordedTraces(Fold(slot, claims));
    FieldsFuse();
    WonIs(Stated(), slot, claims);
    assert Stated()(Fold(slot, claims)) == Fold(slot, claims).statedIn;
  }

  /** What becomes of the traces of one slot of a union. */
  ghost predicate SlotKeeps(slots: seq<Edge>, claims: seq<Edge>, i: nat) {
    (i < |slots| || claims != []) && TraceKept(Base(slots, claims, i), Absorbed(slots, claims, i))
  }

  ghost predicate SomeSlotKeeps(slots: seq<Edge>, history: History) {
    exists i :: 0 <= i < |history| && SlotKeeps(slots, history[i], i)
  }

  lemma {:induction false} BaseIsRecorded(slots: seq<Edge>, claims: seq<Edge>, i: nat)
    requires SelfRecorded(slots) && (i < |slots| || claims != [])
    ensures OnRecord(Base(slots, claims, i)) == Base(slots, claims, i)
  {
  }

  lemma {:induction false} MergedTracesIff(slots: seq<Edge>, incoming: seq<Edge>)
    requires SelfRecorded(slots)
    ensures Has(MergeAll(slots, incoming), Tracing())
       <==> SomeSlotKeeps(slots, DealAll(slots, Nothing(|slots|), incoming))
  {
    var merged, history := MergeAll(slots, incoming), DealAll(slots, Nothing(|slots|), incoming);
    forall i | 0 <= i < |merged|
      ensures Tracing()(merged[i]) <==> SlotKeeps(slots, history[i], i)
    {
      SlotsAreFolds(slots, incoming, i);
      BaseIsRecorded(slots, history[i], i);
      FoldTracesIff(Base(slots, history[i], i), Absorbed(slots, history[i], i));
    }
  }

  lemma {:induction false} OnRecordTrace(e: Edge)
    ensures TracesToMgp(OnRecord(e)) <==> TracesToMgp(e)
  {
    var sources := OnRecord(e).sources;
    if i :| 0 <= i < |e.sources| && MgpDerived(e.sources[i]) {
      assert MgpDerived(sources[i]);
    }
  }

  lemma {:induction false} OnRecordTraces(edges: seq<Edge>)
    ensures Has(AllOnRecord(edges), Tracing()) <==> Has(edges, Tracing())
  {
    forall i | 0 <= i < |edges|
      ensures Tracing()(OnRecord(edges[i])) <==> Tracing()(edges[i])
    {
      OnRecordTrace(edges[i]);
    }
    var recorded := AllOnRecord(edges);
    if i :| 0 <= i < |edges| && Tracing()(edges[i]) {
      assert Tracing()(recorded[i]);
    }
  }

  /** A united record still has an edge that reaches MGP exactly if one of its slots keeps a trace.  What the later
      records' edges have only on their lists does not count, nor what a statement that lost cites. */
  lemma {:induction false} UnitedTracesIff(g: Graph, ordered: seq<Key>)
    requires ordered != [] && AllIn(ordered, g)
    ensures var slots := AllOnRecord(AdvisorsOf(g[ordered[0]]));
            Has(AdvisorsOf(UniteAll(g, ordered)), Tracing())
            <==> SomeSlotKeeps(slots, DealAll(slots, Nothing(|slots|), Later(g, ordered)))
  {
    var slots := AllOnRecord(AdvisorsOf(g[ordered[0]]));
    UniteAllMerges(g, ordered);
    OnRecordTraces(AdvisorsOf(UniteAll(g, ordered)));
    OnRecordHas(AdvisorsOf(g[ordered[0]]), Mgp);
    MergedTracesIff(slots, Later(g, ordered));
  }

  // ---- When every recorded source survives ----

  ghost predicate EverySourceSurvives(g: Graph, ordered: seq<Key>)
    requires ordered != [] && AllIn(ordered, g)
  {
    forall i, s :: 0 <= i < |ordered| && Has(AdvisorsOf(g[ordered[i]]), Citing(s))
      ==> Has(AdvisorsOf(UniteAll(g, ordered)), Citing(s))
  }

  /** What a later record has on record is on record with the first, or some later edge's own source. */
  ghost predicate ListsAreRedundant(g: Graph, ordered: seq<Key>)
    requires ordered != [] && AllIn(ordered, g)
  {
    forall i, s :: 0 < i < |ordered| && Has(AdvisorsOf(g[ordered[i]]), Citing(s))
      ==> Has(AdvisorsOf(g[ordered[0]]), Citing(s)) || SomeHas(g, ordered, 1, Owning(s))
  }

  lemma {:induction false} SourcesSurviveIff(g: Graph, ordered: seq<Key>)
    requires ordered != [] && AllIn(ordered, g)
    ensures EverySourceSurvives(g, ordered) <==> ListsAreRedundant(g, ordered)
  {
    forall s
      ensures Has(AdvisorsOf(UniteAll(g, ordered)), Citing(s))
         <==> Has(AdvisorsOf(g[ordered[0]]), Citing(s)) || SomeHas(g, ordered, 1, Owning(s))
    {
      UniteAllSources(g, ordered, s);
    }
  }

  // ---- A trace that is lost ----

  function Claim(source: Source): Edge {
    MakeEdge(Plain(["advisor"]), Some("Q1"), None, source, None, "doctoral", None)
  }

  /** A registry's edge that has overridden an MGP one has MGP on its list. */
  lemma {:induction false} OverriddenTrace() returns (edge: Edge)
    ensures MergedEdges([Claim(Mgp)], [Claim(ThesesFr)]) == [edge]
    ensures edge == Claim(ThesesFr).(sources := [Mgp, ThesesFr]) && TracesToMgp(edge)
  {
    var slots, inc := [OnRecord(Claim(Mgp))], Claim(ThesesFr);
    assert AllOnRecord([Claim(Mgp)]) == slots;
    assert [inc][..0] == [];
    assert MergeAll(slots, [inc]) == MergeOne(MergeAll(slots, []), inc) == MergeOne(slots, inc);
    assert SameAdvisor(slots[0], inc);
    assert OnRecord(Claim(Mgp)).sources == [] + [Mgp];
    assert [Mgp] + [ThesesFr] == [Mgp, ThesesFr];
    edge := Absorb(slots[0], inc);
    assert MgpDerived(edge.sources[0]);
  }

  /** United into a record that takes precedence and has no advisors, the edge no longer traces to MGP. */
  lemma {:induction false} UnionDropsTheTrace(primary: Record) returns (edge: Edge, other: Record)
    requires AdvisorsOf(primary) == []
    ensures MergedEdges([Claim(Mgp)], [Claim(ThesesFr)]) == AdvisorsOf(other) == [edge] && TracesToMgp(edge)
    ensures AdvisorsOf(Unite(primary, other)) == [Claim(ThesesFr).(sources := [ThesesFr])]
    ensures !Has(AdvisorsOf(Unite(primary, other)), Tracing())
  {
    edge := OverriddenTrace();
    other := Record(map[], Some([edge]), None, [], None);
    assert AllOnRecord([]) == [] && [edge][..0] == [];
    assert MergeAll([], [edge]) == MergeOne(MergeAll([], []), edge) == [Opened(edge)];
    assert Opened(edge).sources == [ThesesFr];
    assert !TracesToMgp(Opened(edge));
  }
}

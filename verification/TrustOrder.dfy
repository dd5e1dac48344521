/** Whom a slot of fused claims takes its word from: a human before the registries, these before the genealogy projects,
    and these before whatever else; among equals the first to claim the edge. */
module TrustOrder {
  import opened Options
  import opened Edges
  import opened MergeRuns

  predicate Registry(s: Source) {
    s == WikidataP184 || s == WikidataP185 || s == ThesesFr || s == Sudoc
  }

  predicate Project(s: Source) {
    s == Mgp || s == MgpSeed || s == MathTree
  }

  predicate Human(s: Source) {
    s == Curated
  }

  ghost predicate Backed(slot: Edge, kind: Source -> bool) {
    exists s :: s in slot.sources && kind(s)
  }

  lemma {:induction false} KindRanks(s: Source)
    ensures Rank(Some(MetaConfidence(s))) == 3 <==> Human(s)
    ensures Rank(Some(MetaConfidence(s))) == 2 <==> Registry(s)
    ensures Rank(Some(MetaConfidence(s))) == 1 <==> Project(s)
  {
  }

  /** The source and the confidence of a slot of any run, by the kinds of sources on record. */
  lemma {:induction false} LeaderIs(batches: seq<seq<Edge>>, i: nat)
    requires forall b :: 0 <= b < |batches| ==> AllStamped(batches[b])
    requires i < |Run(batches)|
    ensures var slot := Run(batches)[i];
            && slot.source.Some? && slot.source.value in slot.sources
            && (Human(slot.source.value) <==> Backed(slot, Human))
            && (Registry(slot.source.value) <==> Backed(slot, Registry) && !Backed(slot, Human))
            && (Project(slot.source.value)
                <==> Backed(slot, Project) && !Backed(slot, Registry) && !Backed(slot, Human))
            && slot.confidence == Some(if Backed(slot, Human) then Verified else if Backed(slot, Registry) then High
                                       else if Backed(slot, Project) then Medium else Low)
  {
    var slot := Run(batches)[i];
    RunFacts(batches, i);
    KindRanks(slot.source.value);
    forall s | s in slot.sources
      ensures Rank(Some(MetaConfidence(s))) <= Rank(slot.confidence)
      ensures Human(s) <==> Rank(Some(MetaConfidence(s))) == 3
      ensures Registry(s) <==> Rank(Some(MetaConfidence(s))) == 2
      ensures Project(s) <==> Rank(Some(MetaConfidence(s))) == 1
    {
      KindRanks(s);
    }
  }

  predicate SameKind(s: Source, t: Source) {
    (Human(s) <==> Human(t)) && (Registry(s) <==> Registry(t)) && (Project(s) <==> Project(t))
  }

  /** Of the claims of the leading kind it is the first to which a slot owes its source. */
  lemma {:induction false} FirstOfKindLeads(batches: seq<seq<Edge>>, i: nat) returns (w: nat)
    requires forall b :: 0 <= b < |batches| ==> AllStamped(batches[b])
    requires i < |Run(batches)|
    ensures var slot, claims := Run(batches)[i], Histories(batches)[i];
            && w < |claims| && claims[w].source.Some? && slot.source == claims[w].source
            && forall m :: 0 <= m < w && claims[m].source.Some? ==>
                 !SameKind(claims[m].source.value, claims[w].source.value)
  {
    RunDescribed(batches);
    var slot, claims := Run(batches)[i], Histories(batches)[i];
    assert Describes(slot, claims);
    w :| LedBy(slot, claims, w);
    LeaderFacts(slot, claims, w);
    KindRanks(claims[w].source.value);
    forall m | 0 <= m < w && claims[m].source.Some?
      ensures !SameKind(claims[m].source.value, claims[w].source.value)
    {
      KindRanks(claims[m].source.value);
      assert Stamped(claims[m]);
    }
  }
}

/** Vetting labels on MGP-derived edges (`mark_vetting_status`).  The risk tier of an edge is given by a
    function of its record's key and the edge. */
module Vetting {
  import opened Names
  import opened Options
  import opened Regime
  import opened Edges
  import opened Records
  import opened Filters

  type TierOf = (Key, Edge) -> Tier

  /** Sources that do not come from MGP, nor merely relay a statement that cites it. */
  function Independent(e: Edge): (sources: set<Source>)
    ensures forall s :: s in sources
             <==> (e.source == Some(s) || s in e.sources) && !MgpDerived(s) && !(CitesMgp(e) && e.source == Some(s))
  {
    var all := (set i | 0 <= i < |e.sources| :: e.sources[i]) + if e.source.Some? then {e.source.value} else {};
    set s | s in all && !MgpDerived(s) && !(CitesMgp(e) && e.source == Some(s))
  }

  /** Only MGP-derived edges that no human has settled are labelled. */
  predicate Labels(e: Edge) {
    TracesToMgp(e) && !Locked(e)
  }

  function Demoted(c: Option<Confidence>): Confidence {
    match c
    case Some(Verified) => High
    case Some(High) => Medium
    case _ => Low
  }

  function Vet(e: Edge, tier: Tier): Edge {
    if !Labels(e) then e
    else if Independent(e) != {} then
      e.(vettedBy := Independent(e), needsVetting := false, vettingTier := None)
    else
      var labelled := e.(vettingTier := Some(tier), needsVetting := tier != TRUST);
      match tier
      case TRUST => labelled.(relationDisputed := false)
      case RETYPE => labelled.(relationDisputed := true)
      case SUSPECT => labelled.(confidence := Some(Demoted(e.confidence)))
      case REVIEW => labelled
  }

  function VetRecord(k: Key, r: Record, tierOf: TierOf): Record {
    var edges := AdvisorsOf(r);
    if edges == [] then r
    else r.(advisors := Some(seq(|edges|, i requires 0 <= i < |edges| => Vet(edges[i], tierOf(k, edges[i])))))
  }

  function VetGraph(g: Graph, tierOf: TierOf): Graph {
    map k | k in g :: VetRecord(k, g[k], tierOf)
  }

  datatype Tally = Tally(mgpDerived: nat, vetted: nat, needsVetting: nat, trust: nat, review: nat, suspect: nat,
                         retype: nat)

  /** Every labelled edge is either vetted or has one tier, and all tiers but TRUST are flagged. */
  predicate Balanced(t: Tally) {
    && t.mgpDerived == t.vetted + t.trust + t.review + t.suspect + t.retype
    && t.needsVetting == t.review + t.suspect + t.retype
  }

  function CountTier(t: Tally, tier: Tier): Tally {
    match tier
    case TRUST => t.(trust := t.trust + 1)
    case REVIEW => t.(review := t.review + 1)
    case SUSPECT => t.(suspect := t.suspect + 1)
    case RETYPE => t.(retype := t.retype + 1)
  }

  /** The counters after one more edge. */
  function TallyOne(t: Tally, e: Edge, tier: Tier): Tally {
    if !Labels(e) then t
    else
      var seen := t.(mgpDerived := t.mgpDerived + 1);
      if Independent(e) != {} then seen.(vetted := t.vetted + 1)
      else
        var counted := CountTier(seen, tier);
        if tier != TRUST then counted.(needsVetting := t.needsVetting + 1) else counted
  }

  function TallyAll(before: Tally, k: Key, edges: seq<Edge>, tierOf: TierOf): Tally {
    if edges == [] then before
    else
      var last := edges[|edges| - 1];
      TallyOne(TallyAll(before, k, edges[..|edges| - 1], tierOf), last, tierOf(k, last))
  }

  function LabelledTest(): Edge -> bool {
    (e: Edge) => Labels(e)
  }

  /** An independent source vouches for the edge. */
  function VettedTest(): Edge -> bool {
    (e: Edge) => Labels(e) && Independent(e) != {}
  }

  /** The edge is left to its tier. */
  function TierTest(k: Key, tierOf: TierOf, tier: Tier): Edge -> bool {
    (e: Edge) => Labels(e) && Independent(e) == {} && tierOf(k, e) == tier
  }

  function FlaggedTest(k: Key, tierOf: TierOf): Edge -> bool {
    (e: Edge) => Labels(e) && Vet(e, tierOf(k, e)).needsVetting
  }

  function TierCount(t: Tally, tier: Tier): nat {
    match tier
    case TRUST => t.trust
    case REVIEW => t.review
    case SUSPECT => t.suspect
    case RETYPE => t.retype
  }

  lemma {:induction false} TallyOneFacts(t: Tally, e: Edge, tier: Tier)
    requires Balanced(t)
    ensures Balanced(TallyOne(t, e, tier))
    ensures TallyOne(t, e, tier).mgpDerived == t.mgpDerived + if Labels(e) then 1 else 0
    ensures TallyOne(t, e, tier).vetted == t.vetted + if Labels(e) && Independent(e) != {} then 1 else 0
    ensures TallyOne(t, e, tier).needsVetting
         == t.needsVetting + if Labels(e) && Vet(e, tier).needsVetting then 1 else 0
  {
  }

  lemma {:induction false} TallyOneTier(t: Tally, e: Edge, tier: Tier, other: Tier)
    ensures TierCount(TallyOne(t, e, tier), other)
         == TierCount(t, other) + if Labels(e) && Independent(e) == {} && tier == other then 1 else 0
  {
  }

  /** The counters balance, and they count the labelled edges, those that an independent source vouches for and
      those that end up flagged. */
  lemma {:induction false} TallyFacts(before: Tally, k: Key, edges: seq<Edge>, tierOf: TierOf)
    requires Balanced(before)
    ensures var t := TallyAll(before, k, edges, tierOf);
            && Balanced(t)
            && t.mgpDerived == before.mgpDerived + |Keep(edges, LabelledTest())|
            && t.vetted == before.vetted + |Keep(edges, VettedTest())|
            && t.needsVetting == before.needsVetting + |Keep(edges, FlaggedTest(k, tierOf))|
  {
    if edges != [] {
      var init, last := edges[..|edges| - 1], edges[|edges| - 1];
      TallyFacts(before, k, init, tierOf);
      TallyOneFacts(TallyAll(before, k, init, tierOf), last, tierOf(k, last));
      assert FlaggedTest(k, tierOf)(last) == (Labels(last) && Vet(last, tierOf(k, last)).needsVetting);
    }
  }

  /** They count the edges that are left to each tier. */
  lemma {:induction false} TallyTiers(before: Tally, k: Key, edges: seq<Edge>, tierOf: TierOf, tier: Tier)
    ensures TierCount(TallyAll(before, k, edges, tierOf), tier)
         == TierCount(before, tier) + |Keep(edges, TierTest(k, tierOf, tier))|
  {
    if edges != [] {
      var init, last := edges[..|edges| - 1], edges[|edges| - 1];
      TallyTiers(before, k, init, tierOf, tier);
      TallyOneTier(TallyAll(before, k, init, tierOf), last, tierOf(k, last), tier);
    }
  }

  method CountEdge(before: Tally, e: Edge, tier: Tier) returns (tally: Tally)
    ensures tally == TallyOne(before, e, tier)
  {
    tally := before;
    if Labels(e) {
      tally := tally.(mgpDerived := tally.mgpDerived + 1);
      if Independent(e) != {} {
        tally := tally.(vetted := tally.vetted + 1);
      } else {
        tally := CountTier(tally, tier);
        if tier != TRUST {
          tally := tally.(needsVetting := tally.needsVetting + 1);
        }
      }
    }
  }

  method VetEdges(k: Key, edges: seq<Edge>, tierOf: TierOf, before: Tally) returns (vetted: seq<Edge>, tally: Tally)
    ensures |vetted| == |edges| && forall i :: 0 <= i < |edges| ==> vetted[i] == Vet(edges[i], tierOf(k, edges[i]))
    ensures tally == TallyAll(before, k, edges, tierOf)
  {
    vetted, tally := [], before;
    for n := 0 to |edges|
      invariant |vetted| == n && forall i :: 0 <= i < n ==> vetted[i] == Vet(edges[i], tierOf(k, edges[i]))
      invariant tally == TallyAll(before, k, edges[..n], tierOf)
    {
      assert edges[..n + 1][..n] == edges[..n];
      var e := edges[n];
      var tier := tierOf(k, e);
      tally := CountEdge(tally, e, tier);
      vetted := vetted + [Vet(e, tier)];
    }
    assert edges[..|edges|] == edges;
  }

  /** A label never changes who is linked, nor any provenance: only an unvetted suspect edge loses
      confidence. */
  lemma {:induction false} VetKeepsClaim(e: Edge, tier: Tier)
    ensures var v := Vet(e, tier);
            v == e.(vettedBy := v.vettedBy, needsVetting := v.needsVetting, vettingTier := v.vettingTier,
                    relationDisputed := v.relationDisputed, confidence := v.confidence)
    ensures Vet(e, tier).confidence != e.confidence ==> Labels(e) && Independent(e) == {} && tier == SUSPECT
    ensures TracesToMgp(Vet(e, tier)) <==> TracesToMgp(e)
  {
  }
}

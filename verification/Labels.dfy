/** What a label says, and what the strip spares, in terms of the edge alone. */
module Labels {
  import opened Names
  import opened Options
  import opened Regime
  import opened Strings
  import opened Edges
  import opened Filters
  import opened Records
  import opened Stages
  import Vetting

  /** The edge has the source as its own or on its list. */
  predicate Cites(e: Edge, s: Source) {
    e.source == Some(s) || exists i :: 0 <= i < |e.sources| && e.sources[i] == s
  }

  /** What the edge states as its reference names the genealogy project. */
  predicate NamesProject(e: Edge) {
    match e.statedIn
    case None => false
    case Some(text) => exists i :: 0 <= i <= |text| && "genealogy project" <= Lower(text)[i..]
  }

  predicate ReachesMgp(e: Edge) {
    Cites(e, Mgp) || Cites(e, MgpSeed) || NamesProject(e)
  }

  lemma {:induction false} ReachesIs(e: Edge)
    ensures ReachesMgp(e) <==> TracesToMgp(e)
  {
    if i :| 0 <= i < |e.sources| && MgpDerived(e.sources[i]) {
      assert Cites(e, e.sources[i]);
    }
    if e.statedIn.Some? && Contains(Lower(e.statedIn.value), "genealogy project") {
      var i :| 0 <= i <= |Lower(e.statedIn.value)| && "genealogy project" <= Lower(e.statedIn.value)[i..];
    }
  }

  /** The source vouches for the edge: it is not MGP's, nor the edge's own while the edge names the project. */
  predicate Vouches(e: Edge, s: Source) {
    Cites(e, s) && s != Mgp && s != MgpSeed && (NamesProject(e) ==> e.source != Some(s))
  }

  lemma {:induction false} VouchesIs(e: Edge, s: Source)
    ensures Vouches(e, s) <==> s in Vetting.Independent(e)
  {
    ReachesIs(e);
    if e.statedIn.Some? && NamesProject(e) {
      var text := e.statedIn.value;
      var i :| 0 <= i <= |text| && "genealogy project" <= Lower(text)[i..];
      assert Contains(Lower(text), "genealogy project");
    }
    if e.statedIn.Some? && Contains(Lower(e.statedIn.value), "genealogy project") {
      var i :| 0 <= i <= |Lower(e.statedIn.value)| && "genealogy project" <= Lower(e.statedIn.value)[i..];
    }
    if i :| 0 <= i < |e.sources| && e.sources[i] == s {
      assert s in e.sources;
    }
  }

  /** What a label leaves of an edge: what a human settled, or what does not reach MGP, stays; what a source vouches for
      is cleared; all else gets its tier, is flagged unless trusted, and is cleared, disputed or lowered by one step. */
  ghost predicate LabelledAs(e: Edge, v: Edge, tier: Tier) {
    if e.source == Some(Curated) || !ReachesMgp(e) then v == e
    else if exists s :: Vouches(e, s) then
      && v == e.(vettedBy := v.vettedBy, needsVetting := false, vettingTier := None)
      && forall s :: s in v.vettedBy <==> Vouches(e, s)
    else
      && v == e.(vettingTier := Some(tier), needsVetting := v.needsVetting, relationDisputed := v.relationDisputed,
                 confidence := v.confidence)
      && (v.needsVetting <==> tier != TRUST)
      && v.relationDisputed == (if tier == TRUST then false else if tier == RETYPE then true else e.relationDisputed)
      && if tier == SUSPECT then
           v.confidence.Some? && Edges.Rank(v.confidence)
              == if Edges.Rank(e.confidence) > 0 then Edges.Rank(e.confidence) - 1 else 0
         else v.confidence == e.confidence
  }

  lemma {:induction false} VetIs(e: Edge, tier: Tier)
    ensures LabelledAs(e, Vetting.Vet(e, tier), tier)
  {
    ReachesIs(e);
    forall s
      ensures Vouches(e, s) <==> s in Vetting.Independent(e)
    {
      VouchesIs(e, s);
    }
  }

  // ---- The strip ----

  function OutsideMgp(): Edge -> bool {
    (e: Edge) => !ReachesMgp(e)
  }

  lemma {:induction false} StripKeepsThem(edges: seq<Edge>)
    ensures Keep(edges, NotMgp()) == Keep(edges, OutsideMgp())
  {
    if edges != [] {
      StripKeepsThem(edges[..|edges| - 1]);
      ReachesIs(edges[|edges| - 1]);
    }
  }

  /** The strip takes exactly the edges that reach MGP: the others stay, unchanged and in order, and so does everything
      else of the record. */
  lemma {:induction false} StripIs(g: Graph, k: Key) returns (origin: seq<nat>)
    requires k in g
    ensures StripGraph(g).Keys == g.Keys
    ensures var r, r' := g[k], StripGraph(g)[k];
            r' == r.(advisors := r'.advisors) && Sublist(AdvisorsOf(r), OutsideMgp(), AdvisorsOf(r'), origin)
            && (AdvisorsOf(r) == [] ==> r' == r)
  {
    StripKeepsThem(AdvisorsOf(g[k]));
    origin := KeepIsSublist(AdvisorsOf(g[k]), OutsideMgp());
    assert AdvisorsOf(StripGraph(g)[k]) == Keep(AdvisorsOf(g[k]), NotMgp());
  }
}

/** The stages of a build after its harvests, as steps on the graph, and what every one of them keeps. */
module Stages {
  import opened Names
  import opened Options
  import opened Edges
  import opened Filters
  import opened Records
  import opened Invariants
  import Regime
  import MapImages
  import EdgeIntegrity
  import Corrections
  import Vetting
  import AliasMerge
  import Suppression

  // ---- Stripping MGP ----

  function NotMgp(): Edge -> bool {
    e => !TracesToMgp(e)
  }

  /** Drop the edges that reach MGP; a record without edges is left alone. */
  function StripRecord(r: Record): Record {
    if AdvisorsOf(r) == [] then r else r.(advisors := Some(Keep(AdvisorsOf(r), NotMgp())))
  }

  function StripGraph(g: Graph): Graph {
    map k | k in g :: StripRecord(g[k])
  }

  // ---- Stubs for referenced advisors ----

  /** Keys of named advisors anywhere in the graph. */
  function ReferencedKeys(g: Graph): set<Key> {
    set k, i | k in g && 0 <= i < |AdvisorsOf(g[k])|
               && Named(AdvisorsOf(g[k])[i]) && AdvisorKey(AdvisorsOf(g[k])[i]) != NO_KEY
      :: AdvisorKey(AdvisorsOf(g[k])[i])
  }

  function Stub(display: string): Record {
    Record(map["CanonicalLatin" := Text(display)], None, None, ["referenced advisor (no metadata)"], None)
  }

  /** Add a stub for every referenced key that is not a node. */
  function StubGraph(g: Graph, display: map<Key, string>): Graph {
    g + map k | k in display && k !in g :: Stub(display[k])
  }

  lemma StubsCover(g: Graph, display: map<Key, string>)
    requires display.Keys == ReferencedKeys(g)
    ensures I5(StubGraph(g, display))
  {
    var g' := StubGraph(g, display);
    forall k, t | k in g' && Advises(g'[k], t) && t != NO_KEY
      ensures t in g'
    {
      assert k in g;
      var i :| 0 <= i < |AdvisorsOf(g[k])| && Named(AdvisorsOf(g[k])[i]) && AdvisorKey(AdvisorsOf(g[k])[i]) == t;
      assert t in ReferencedKeys(g);
    }
  }

  // ---- A step ----

  datatype Stage =
    | Correct(entry: Corrections.Correction)
    | Integrity
    | Vet(tierOf: Vetting.TierOf)
    | AddStubs(display: map<Key, string>)
    | AssignIds(h: AliasMerge.IdFunction)
    | MergeAliases(less: AliasMerge.Order, keys: seq<Key>)
    | Suppress(requests: Suppression.Requests)

  /** A stage is run on the graph whose keys it lists. */
  predicate Enabled(g: Graph, s: Stage) {
    match s
    case MergeAliases(_, keys) => AliasMerge.AllIn(keys, g)
    case _ => true
  }

  function Apply(g: Graph, s: Stage): Graph
    requires Enabled(g, s)
  {
    match s
    case Correct(entry) => Corrections.Correct(g, entry)
    case Integrity => EdgeIntegrity.CleanGraph(g)
    case Vet(tierOf) => Vetting.VetGraph(g, tierOf)
    case AddStubs(display) => StubGraph(g, display)
    case AssignIds(h) => AliasMerge.AssignIds(h, g)
    case MergeAliases(less, keys) => AliasMerge.MergePass(less, keys, g)
    case Suppress(requests) => Suppression.SuppressGraph(g, requests)
  }

  /** Each stage in turn is enabled. */
  ghost predicate Runs(g: Graph, stages: seq<Stage>)
    decreases |stages|, 0
  {
    stages == [] || (Runs(g, stages[..|stages| - 1])
                     && Enabled(After(g, stages[..|stages| - 1]), stages[|stages| - 1]))
  }

  ghost function After(g: Graph, stages: seq<Stage>): Graph
    requires Runs(g, stages)
    decreases |stages|, 1
  {
    if stages == [] then g else Apply(After(g, stages[..|stages| - 1]), stages[|stages| - 1])
  }

  // ---- Properties of single edges that fusing keeps ----

  type EdgeTest = Edge -> bool

  ghost predicate All(edges: seq<Edge>, p: EdgeTest) {
    forall i :: 0 <= i < |edges| ==> p(edges[i])
  }

  ghost predicate Everywhere(g: Graph, p: EdgeTest) {
    forall k :: k in g ==> All(AdvisorsOf(g[k]), p)
  }

  /** What a test must allow for the stages to keep it: changes of label, note and list of sources, and
      one edge absorbing another. */
  ghost predicate Stable(p: EdgeTest) {
    && (forall e, q :: p(e) ==> p(e.(qidDup := q)))
    && (forall e :: p(e) ==> p(OnRecord(e)))
    && (forall e :: p(e) ==> p(Opened(e)))
    && (forall cur, inc :: p(cur) && p(inc) ==> p(Absorb(cur, inc)))
    && (forall e, tier :: p(e) ==> p(Vetting.Vet(e, tier)))
  }

  /** The only edges a stage mints are curated ones; they must pass the test too. */
  ghost predicate Admits(p: EdgeTest, s: Stage) {
    s.Correct? ==> p(Corrections.CuratedEdge(s.entry))
  }

  lemma {:induction false} AbsorbName(cur: Edge, inc: Edge)
    ensures Absorb(cur, inc).name == cur.name || Absorb(cur, inc).name == inc.name
  {
  }

  lemma {:induction false} VetName(e: Edge, tier: Regime.Tier)
    ensures Vetting.Vet(e, tier).name == e.name
  {
  }

  /** A test of the name alone is kept by every stage. */
  lemma {:induction false} NameTestIsStable(p: EdgeTest, q: Name -> bool)
    requires forall e: Edge :: p(e) <==> q(e.name)
    ensures Stable(p)
  {
    forall cur, inc | p(cur) && p(inc)
      ensures p(Absorb(cur, inc))
    {
      AbsorbName(cur, inc);
    }
    forall e, tier | p(e)
      ensures p(Vetting.Vet(e, tier))
    {
      VetName(e, tier);
    }
  }

  lemma {:induction false} MergeAllKeeps(p: EdgeTest, slots: seq<Edge>, incoming: seq<Edge>)
    requires Stable(p) && All(slots, p) && All(incoming, p)
    ensures All(MergeAll(slots, incoming), p)
  {
    if incoming != [] {
      var n := |incoming| - 1;
      MergeAllKeeps(p, slots, incoming[..n]);
      assert p(incoming[n]);
    }
  }

  lemma {:induction false} MergedEdgesKeep(p: EdgeTest, existing: seq<Edge>, incoming: seq<Edge>)
    requires Stable(p) && All(existing, p) && All(incoming, p)
    ensures All(MergedEdges(existing, incoming), p)
  {
    MergeAllKeeps(p, AllOnRecord(existing), incoming);
  }

  lemma {:induction false} KeptKeeps(p: EdgeTest, key: EdgeIntegrity.KeyOf, judge: EdgeIntegrity.Judge,
                                     edges: seq<Edge>)
    requires Stable(p) && All(edges, p)
    ensures All(EdgeIntegrity.Kept(key, judge, edges), p)
  {
    if edges != [] {
      var n := |edges| - 1;
      KeptKeeps(p, key, judge, edges[..n]);
      assert p(edges[n]);
    }
  }

  lemma {:induction false} FilterKeeps(p: EdgeTest, edges: seq<Edge>, q: EdgeTest)
    requires All(edges, p)
    ensures All(Keep(edges, q), p)
  {
    KeepFacts(edges, q);
    forall i | 0 <= i < |Keep(edges, q)|
      ensures p(Keep(edges, q)[i])
    {
      var j :| 0 <= j < |edges| && edges[j] == Keep(edges, q)[i];
    }
  }

  lemma {:induction false} StripKeeps(p: EdgeTest, g: Graph)
    requires Everywhere(g, p)
    ensures Everywhere(StripGraph(g), p)
  {
    forall k | k in g
      ensures All(AdvisorsOf(StripRecord(g[k])), p)
    {
      FilterKeeps(p, AdvisorsOf(g[k]), NotMgp());
    }
  }

  lemma {:induction false} CorrectKeeps(p: EdgeTest, g: Graph, c: Corrections.Correction)
    requires Stable(p) && Everywhere(g, p) && p(Corrections.CuratedEdge(c))
    ensures Everywhere(Corrections.Correct(g, c), p)
  {
    if Corrections.Matched(g, c) {
      var edges := AdvisorsOf(g[NormalizeKey(c.student)]);
      FilterKeeps(p, edges, e => !SameAdvisor(e, Corrections.Probe(c)));
      MergedEdgesKeep(p, edges, [Corrections.CuratedEdge(c)]);
    }
  }

  lemma {:induction false} CleanRecordKeeps(p: EdgeTest, g: Graph, k: Key, r: Record)
    requires Stable(p) && All(AdvisorsOf(r), p)
    ensures All(AdvisorsOf(EdgeIntegrity.CleanRecord(g, k, r)), p)
  {
    FilterKeeps(p, AdvisorsOf(r), Named);
    KeptKeeps(p, AdvisorKey, EdgeIntegrity.JudgeIn(g, k), NamedEdges(AdvisorsOf(r)));
  }

  lemma {:induction false} IntegrityKeeps(p: EdgeTest, g: Graph)
    requires Stable(p) && Everywhere(g, p)
    ensures Everywhere(EdgeIntegrity.CleanGraph(g), p)
  {
    forall k | k in g
      ensures All(AdvisorsOf(EdgeIntegrity.CleanRecord(g, k, g[k])), p)
    {
      CleanRecordKeeps(p, g, k, g[k]);
    }
  }

  lemma {:induction false} UniteAllKeeps(p: EdgeTest, g: Graph, ordered: seq<Key>)
    requires Stable(p) && Everywhere(g, p) && ordered != [] && AliasMerge.AllIn(ordered, g)
    ensures All(AdvisorsOf(AliasMerge.UniteAll(g, ordered)), p)
  {
    if |ordered| > 1 {
      var init, last := ordered[..|ordered| - 1], ordered[|ordered| - 1];
      UniteAllKeeps(p, g, init);
      MergedEdgesKeep(p, AdvisorsOf(AliasMerge.UniteAll(g, init)), AdvisorsOf(g[last]));
    }
  }

  lemma {:induction false} MergePassKeeps(p: EdgeTest, less: AliasMerge.Order, keys: seq<Key>, g: Graph)
    requires Stable(p) && Everywhere(g, p) && AliasMerge.AllIn(keys, g)
    ensures Everywhere(AliasMerge.MergePass(less, keys, g), p)
  {
    forall k | k in g
      ensures All(AdvisorsOf(AliasMerge.PassRecord(less, keys, g, g[k])), p)
    {
      if g[k].gid.Some? && AliasMerge.Unites(keys, g, g[k].gid.value) {
        var group := AliasMerge.Group(keys, g, g[k].gid.value);
        AliasMerge.GroupIn(keys, g, g[k].gid.value);
        var ordered := AliasMerge.Sorted(less, g, group);
        assert forall i :: 0 <= i < |ordered| ==> ordered[i] in ordered;
        UniteAllKeeps(p, g, ordered);
      }
    }
  }

  lemma {:induction false} ScrubKeeps(p: EdgeTest, r: Record, keys: set<Key>)
    requires All(AdvisorsOf(r), p)
    ensures All(AdvisorsOf(Suppression.Scrub(r, keys)), p)
  {
    Suppression.ScrubEdges(r, keys);
    FilterKeeps(p, AdvisorsOf(r), Suppression.NotAmong(keys));
  }

  lemma {:induction false} SuppressKeeps(p: EdgeTest, g: Graph, requests: Suppression.Requests)
    requires Everywhere(g, p)
    ensures Everywhere(Suppression.SuppressGraph(g, requests), p)
  {
    var keys := Suppression.SuppressedKeys(g, requests);
    forall k | k in Suppression.SuppressGraph(g, requests)
      ensures All(AdvisorsOf(Suppression.Scrub(g[k], keys)), p)
    {
      ScrubKeeps(p, g[k], keys);
    }
  }

  /** Every stage keeps every stable property of edges. */
  lemma {:induction false} StageKeeps(p: EdgeTest, g: Graph, s: Stage)
    requires Stable(p) && Everywhere(g, p) && Enabled(g, s) && Admits(p, s)
    ensures Everywhere(Apply(g, s), p)
  {
    match s
    case Correct(entry) => CorrectKeeps(p, g, entry);
    case Integrity => IntegrityKeeps(p, g);
    case Vet(tierOf) =>
    case AddStubs(display) =>
    case AssignIds(h) =>
    case MergeAliases(less, keys) => MergePassKeeps(p, less, keys, g);
    case Suppress(requests) => SuppressKeeps(p, g, requests);
  }

  lemma {:induction false} RunKeeps(p: EdgeTest, g: Graph, stages: seq<Stage>)
    requires Stable(p) && Everywhere(g, p) && Runs(g, stages)
    requires forall i :: 0 <= i < |stages| ==> Admits(p, stages[i])
    ensures Everywhere(After(g, stages), p)
  {
    if stages != [] {
      RunKeeps(p, g, stages[..|stages| - 1]);
      StageKeeps(p, After(g, stages[..|stages| - 1]), stages[|stages| - 1]);
    }
  }

  lemma {:induction false} CorrectAllKeeps(p: EdgeTest, g: Graph, ledger: seq<Corrections.Correction>)
    requires Stable(p) && Everywhere(g, p) && forall i :: 0 <= i < |ledger| ==> p(Corrections.CuratedEdge(ledger[i]))
    ensures Everywhere(Corrections.CorrectAll(g, ledger), p)
  {
    if ledger != [] {
      var n := |ledger| - 1;
      CorrectAllKeeps(p, g, ledger[..n]);
      CorrectKeeps(p, Corrections.CorrectAll(g, ledger[..n]), ledger[n]);
    }
  }

  /** So does the alias loop as a whole. */
  lemma {:induction false} SettledKeeps(p: EdgeTest, h: AliasMerge.IdFunction, less: AliasMerge.Order, keys: seq<Key>,
                                        g: Graph)
    requires Stable(p) && Everywhere(g, p) && Lists(keys, g)
    ensures Everywhere(AliasMerge.SettledGraph(h, less, keys, g), p)
    decreases MapImages.Distinct(g)
  {
    var a := AliasMerge.AssignIds(h, g);
    StageKeeps(p, g, AssignIds(h));
    AliasMerge.AssignIdsShrinks(h, g);
    AliasMerge.MergePassShrinks(less, keys, a);
    if AliasMerge.PassChanges(keys, a) {
      MergePassKeeps(p, less, keys, a);
      SettledKeeps(p, h, less, keys, AliasMerge.MergePass(less, keys, a));
    }
  }

  // ---- A build without MGP ----

  predicate MgpFree(sources: seq<Source>) {
    forall i :: 0 <= i < |sources| ==> !MgpDerived(sources[i])
  }

  lemma AddedSourceNotMgp(sources: seq<Source>, s: Option<Source>)
    requires MgpFree(sources) && (s.Some? ==> !MgpDerived(s.value))
    ensures MgpFree(WithSource(sources, s))
  {
  }

  lemma {:induction false} AbsorbNotMgp(cur: Edge, inc: Edge)
    requires !TracesToMgp(cur) && !TracesToMgp(inc)
    ensures !TracesToMgp(Absorb(cur, inc))
  {
    var merged := Absorb(cur, inc);
    AddedSourceNotMgp(cur.sources, inc.source);
    assert merged.sources == WithSource(cur.sources, inc.source);
    assert merged.source == cur.source || merged.source == inc.source;
    assert merged.statedIn == cur.statedIn || merged.statedIn == inc.statedIn;
    assert CitesMgp(merged) ==> CitesMgp(cur) || CitesMgp(inc);
  }

  lemma {:induction false} NotMgpIsStable()
    ensures Stable(NotMgp())
  {
    forall cur, inc | NotMgp()(cur) && NotMgp()(inc)
      ensures NotMgp()(Absorb(cur, inc))
    {
      AbsorbNotMgp(cur, inc);
    }
    forall e | NotMgp()(e)
      ensures NotMgp()(OnRecord(e)) && NotMgp()(Opened(e))
    {
      AddedSourceNotMgp(e.sources, e.source);
      AddedSourceNotMgp([], e.source);
    }
  }

  function Provenanced(): Edge -> bool {
    e => HasProvenance(e)
  }

  lemma CuratedPasses(s: Stage)
    ensures Admits(NotMgp(), s) && Admits(Provenanced(), s)
  {
  }

  lemma {:induction false} StripRemovesMgp(g: Graph)
    ensures Everywhere(StripGraph(g), NotMgp())
  {
    forall k | k in g
      ensures All(AdvisorsOf(StripRecord(g[k])), NotMgp())
    {
      KeepFacts(AdvisorsOf(g[k]), NotMgp());
    }
  }

  /** Once stripped, no stage brings an edge back whose provenance reaches MGP. */
  lemma NoMgpBuild(g: Graph, stages: seq<Stage>)
    requires Runs(StripGraph(g), stages)
    ensures Everywhere(After(StripGraph(g), stages), NotMgp())
  {
    StripRemovesMgp(g);
    NotMgpIsStable();
    forall i | 0 <= i < |stages|
      ensures Admits(NotMgp(), stages[i])
    {
      CuratedPasses(stages[i]);
    }
    RunKeeps(NotMgp(), StripGraph(g), stages);
  }

  /** In such a build vetting has nothing to label. */
  lemma {:induction false} NothingToVet(g: Graph, tierOf: Vetting.TierOf)
    requires Everywhere(g, NotMgp())
    ensures Vetting.VetGraph(g, tierOf) == g
  {
    forall k | k in g
      ensures Vetting.VetRecord(k, g[k], tierOf) == g[k]
    {
      var edges := AdvisorsOf(g[k]);
      forall i | 0 <= i < |edges|
        ensures Vetting.Vet(edges[i], tierOf(k, edges[i])) == edges[i]
      {
        assert NotMgp()(edges[i]);
      }
      if edges != [] {
        assert AdvisorsOf(Vetting.VetRecord(k, g[k], tierOf)) == edges;
      }
    }
  }

  // ---- Provenance ----

  lemma {:induction false} AbsorbProvenance(cur: Edge, inc: Edge)
    requires HasProvenance(cur) && HasProvenance(inc)
    ensures HasProvenance(Absorb(cur, inc))
  {
  }

  lemma {:induction false} VetProvenance(e: Edge, tier: Regime.Tier)
    requires HasProvenance(e)
    ensures HasProvenance(Vetting.Vet(e, tier))
  {
    Vetting.VetKeepsClaim(e, tier);
  }

  lemma {:induction false} ProvenancedIsStable()
    ensures Stable(Provenanced())
  {
    forall cur, inc | Provenanced()(cur) && Provenanced()(inc)
      ensures Provenanced()(Absorb(cur, inc))
    {
      AbsorbProvenance(cur, inc);
    }
    forall e, tier | Provenanced()(e)
      ensures Provenanced()(Vetting.Vet(e, tier))
    {
      VetProvenance(e, tier);
    }
  }

  lemma {:induction false} ProvenancedIsI4(g: Graph)
    requires Everywhere(g, Provenanced())
    ensures I4(g)
  {
    forall k, i | k in g && 0 <= i < |AdvisorsOf(g[k])| && Named(AdvisorsOf(g[k])[i])
      ensures HasProvenance(AdvisorsOf(g[k])[i])
    {
      assert All(AdvisorsOf(g[k]), Provenanced());
      assert Provenanced()(AdvisorsOf(g[k])[i]);
    }
  }

  /** A graph whose edges all carry source and confidence still satisfies I4 after any stages. */
  lemma ProvenanceKept(g: Graph, stages: seq<Stage>)
    requires Everywhere(g, Provenanced()) && Runs(g, stages)
    ensures I4(After(g, stages))
  {
    ProvenancedIsStable();
    forall i | 0 <= i < |stages|
      ensures Admits(Provenanced(), stages[i])
    {
      CuratedPasses(stages[i]);
    }
    RunKeeps(Provenanced(), g, stages);
    ProvenancedIsI4(After(g, stages));
  }

  // ---- No dangling references once there are stubs ----

  function Resolves(nodes: set<Key>): Edge -> bool {
    e => Named(e) && AdvisorKey(e) != NO_KEY ==> AdvisorKey(e) in nodes
  }

  lemma {:induction false} ResolvesIsI5(g: Graph)
    ensures I5(g) <==> Everywhere(g, Resolves(g.Keys))
  {
    if I5(g) {
      forall k, i | k in g && 0 <= i < |AdvisorsOf(g[k])|
        ensures Resolves(g.Keys)(AdvisorsOf(g[k])[i])
      {
        var t := AdvisorKey(AdvisorsOf(g[k])[i]);
        assert Named(AdvisorsOf(g[k])[i]) ==> Advises(g[k], t);
      }
    }
    if Everywhere(g, Resolves(g.Keys)) {
      forall k, t | k in g && Advises(g[k], t) && t != NO_KEY
        ensures t in g
      {
        var i :| 0 <= i < |AdvisorsOf(g[k])| && Named(AdvisorsOf(g[k])[i]) && AdvisorKey(AdvisorsOf(g[k])[i]) == t;
        assert All(AdvisorsOf(g[k]), Resolves(g.Keys));
        assert Resolves(g.Keys)(AdvisorsOf(g[k])[i]);
      }
    }
  }

  lemma {:induction false} ResolvesIsStable(nodes: set<Key>)
    ensures Stable(Resolves(nodes))
  {
    forall e, tier | Resolves(nodes)(e)
      ensures Resolves(nodes)(Vetting.Vet(e, tier))
    {
      Vetting.VetKeepsClaim(e, tier);
      assert Vetting.Vet(e, tier).name == e.name;
    }
    forall cur, inc | Resolves(nodes)(cur) && Resolves(nodes)(inc)
      ensures Resolves(nodes)(Absorb(cur, inc))
    {
      assert Absorb(cur, inc).name == cur.name || Absorb(cur, inc).name == inc.name;
    }
  }

  /** Every stage but a correction keeps all references resolved. */
  lemma {:induction false} StageKeepsI5(g: Graph, s: Stage)
    requires I5(g) && Enabled(g, s) && !s.Correct?
    ensures I5(Apply(g, s))
  {
    if s.Suppress? {
      Suppression.KeepsI5(g, s.requests);
    } else {
      ResolvesIsI5(g);
      ResolvesIsStable(g.Keys);
      StageKeeps(Resolves(g.Keys), g, s);
      var g' := Apply(g, s);
      assert g.Keys <= g'.Keys;
      forall k, i | k in g' && 0 <= i < |AdvisorsOf(g'[k])|
        ensures Resolves(g'.Keys)(AdvisorsOf(g'[k])[i])
      {
        assert All(AdvisorsOf(g'[k]), Resolves(g.Keys));
        assert Resolves(g.Keys)(AdvisorsOf(g'[k])[i]);
      }
      ResolvesIsI5(g');
    }
  }

  /** The alias loop keeps all references resolved. */
  lemma {:induction false} SettledKeepsI5(h: AliasMerge.IdFunction, less: AliasMerge.Order, keys: seq<Key>, g: Graph)
    requires I5(g) && Lists(keys, g)
    ensures I5(AliasMerge.SettledGraph(h, less, keys, g))
  {
    ResolvesIsI5(g);
    ResolvesIsStable(g.Keys);
    SettledKeeps(Resolves(g.Keys), h, less, keys, g);
    AliasMerge.SettledFacts(h, less, keys, g);
    ResolvesIsI5(AliasMerge.SettledGraph(h, less, keys, g));
  }
}

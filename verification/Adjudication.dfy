/** What a human assertion achieves.  It is meant to mint an edge that no automated source can dislodge.  Merges keep
    it, for the build never makes a verified edge that is not curated, or the other way round.  The integrity pass does
    not look at the tier: an automated edge of the same name that stands first dislodges it, and so does an edge in the
    opposite direction.  After that, unions keep its QID; its IdRef can lose to that of another curated edge. */
module Adjudication {
  import opened Names
  import opened Edges
  import opened Filters
  import opened MergeRuns
  import opened Records
  import opened Stages
  import AliasMerge
  import Corrections
  import EdgeIntegrity
  import MapImages
  import Regime
  import Retraction
  import Suppression
  import Vetting

  // ---- Only curated edges are verified ----

  function CuratedIffVerified(): EdgeTest {
    (e: Edge) => Rank(e.confidence) == 3 <==> Locked(e)
  }

  lemma {:induction false} VetVerified(e: Edge, tier: Regime.Tier)
    requires CuratedIffVerified()(e)
    ensures CuratedIffVerified()(Vetting.Vet(e, tier))
  {
    Vetting.VetKeepsClaim(e, tier);
  }

  /** Every stage keeps it so. */
  lemma {:induction false} CuratedIffVerifiedIsStable()
    ensures Stable(CuratedIffVerified())
  {
    forall e, tier | CuratedIffVerified()(e)
      ensures CuratedIffVerified()(Vetting.Vet(e, tier))
    {
      VetVerified(e, tier);
    }
  }

  /** So do the harvests: among the slots of any run over stamped claims, the curated ones are the verified ones. */
  lemma {:induction false} RunCuratedIffVerified(batches: seq<seq<Edge>>)
    requires forall b :: 0 <= b < |batches| ==> AllStamped(batches[b])
    ensures All(Run(batches), CuratedIffVerified())
  {
    forall i | 0 <= i < |Run(batches)|
      ensures CuratedIffVerified()(Run(batches)[i])
    {
      RunFacts(batches, i);
      CuratedOutranks(Run(batches)[i].source.value);
    }
  }

  // ---- The ledger ----

  /** The slot in which an assertion ends. */
  function Target(edges: seq<Edge>, c: Corrections.Correction): nat {
    FirstMatch(AllOnRecord(edges), Corrections.CuratedEdge(c))
  }

  /** The edge is curated and bears the asserted QID, or IdRef if no QID was asserted. */
  predicate AffirmedBy(e: Edge, c: Corrections.Correction) {
    Locked(e) && if c.qid.Some? then e.qid == c.qid else e.idref == c.idref
  }

  function Affirming(c: Corrections.Correction): EdgeTest {
    (e: Edge) => AffirmedBy(e, c)
  }

  ghost predicate Affirmed(edges: seq<Edge>, c: Corrections.Correction) {
    exists i :: 0 <= i < |edges| && AffirmedBy(edges[i], c)
  }

  /** An assertion with an identifier ends in a curated slot that bears it. */
  lemma {:induction false} AssertionCurates(edges: seq<Edge>, c: Corrections.Correction)
    requires All(edges, CuratedIffVerified()) && (c.qid.Some? || c.idref.Some?)
    ensures var at, merged := Target(edges, c), MergedEdges(edges, [Corrections.CuratedEdge(c)]);
            at < |merged| && AffirmedBy(merged[at], c)
  {
    var slots, inc, at := AllOnRecord(edges), Corrections.CuratedEdge(c), Target(edges, c);
    Corrections.AssertionMints(edges, c);
    Corrections.MergeOneIs(edges, inc);
    if at < |slots| {
      assert CuratedIffVerified()(edges[at]);
      AbsorbKeepsIdentity(slots[at], inc);
    }
  }

  lemma {:induction false} CorrectAffirms(g: Graph, c: Corrections.Correction)
    requires Everywhere(g, CuratedIffVerified()) && Corrections.OutcomeOf(g, c) == Corrections.Asserted
    ensures var g', k := Corrections.Correct(g, c), NormalizeKey(c.student);
            k in g' && Affirmed(AdvisorsOf(g'[k]), c)
  {
    var k := NormalizeKey(c.student);
    var edges := AdvisorsOf(g[k]);
    AssertionCurates(edges, c);
    assert AdvisorsOf(Corrections.Correct(g, c)[k]) == MergedEdges(edges, [Corrections.CuratedEdge(c)]);
  }

  lemma {:induction false} CorrectSnoc(g: Graph, ledger: seq<Corrections.Correction>, n: nat)
    requires n < |ledger|
    ensures Corrections.CorrectAll(g, ledger[..n + 1])
         == Corrections.Correct(Corrections.CorrectAll(g, ledger[..n]), ledger[n])
  {
    assert ledger[..n + 1][..n] == ledger[..n];
  }

  lemma {:induction false} CuratedAfterLedger(g: Graph, ledger: seq<Corrections.Correction>)
    requires Everywhere(g, CuratedIffVerified())
    ensures Everywhere(Corrections.CorrectAll(g, ledger), CuratedIffVerified())
  {
    CuratedIffVerifiedIsStable();
    CorrectAllKeeps(CuratedIffVerified(), g, ledger);
  }

  /** On the graph of any harvests, after any ledger, an assertion that is not refused leaves its student with a
      curated edge to the asserted advisor. */
  lemma {:induction false} LedgerAffirms(g: Graph, ledger: seq<Corrections.Correction>, n: nat)
    requires Everywhere(g, CuratedIffVerified()) && n < |ledger|
    requires Corrections.OutcomeOf(Corrections.CorrectAll(g, ledger[..n]), ledger[n]) == Corrections.Asserted
    ensures var c, g' := ledger[n], Corrections.CorrectAll(g, ledger[..n + 1]);
            var k := NormalizeKey(c.student);
            k in g' && Affirmed(AdvisorsOf(g'[k]), c)
  {
    CuratedAfterLedger(g, ledger[..n]);
    CorrectSnoc(g, ledger, n);
    CorrectAffirms(Corrections.CorrectAll(g, ledger[..n]), ledger[n]);
  }

  // ---- The integrity pass ----

  /** Among the named edges a curated one for the assertion is possible and the first of its name; a record without
      named edges is left alone. */
  ghost predicate PassesIntegrity(g: Graph, k: Key, c: Corrections.Correction)
    requires k in g
  {
    var named := NamedEdges(AdvisorsOf(g[k]));
    if named == [] then Affirmed(AdvisorsOf(g[k]), c)
    else exists m :: 0 <= m < |named| && EdgeIntegrity.Passes(AdvisorKey, EdgeIntegrity.JudgeIn(g, k), named, m)
                     && AffirmedBy(named[m], c)
  }

  /** Exactly then the integrity pass leaves the student a curated edge to the asserted advisor. */
  lemma {:induction false} IntegrityAffirmsIff(g: Graph, k: Key, c: Corrections.Correction)
    requires k in g
    ensures Affirmed(AdvisorsOf(EdgeIntegrity.CleanGraph(g)[k]), c) <==> PassesIntegrity(g, k, c)
  {
    var named := NamedEdges(AdvisorsOf(g[k]));
    if named != [] {
      var judge := EdgeIntegrity.JudgeIn(g, k);
      EdgeIntegrity.AdvisorKeyIgnoresNotes();
      EdgeIntegrity.KeptHasIff(AdvisorKey, judge, named, Affirming(c));
      assert AdvisorsOf(EdgeIntegrity.CleanGraph(g)[k]) == EdgeIntegrity.Kept(AdvisorKey, judge, named);
    }
  }

  /** An edge in the opposite direction takes the assertion with it. */
  lemma {:induction false} ReversedEdgeDislodges(g: Graph, k: Key, c: Corrections.Correction)
    requires k in g && NormalizeKey(c.advisor) in g && Advises(g[NormalizeKey(c.advisor)], k)
    ensures !Advises(EdgeIntegrity.CleanGraph(g)[k], NormalizeKey(c.advisor))
  {
    EdgeIntegrity.CleanRecordAdvises(g, k, g[k], NormalizeKey(c.advisor));
  }

  // ---- Labels ----

  lemma {:induction false} VetAffirms(e: Edge, tier: Regime.Tier, c: Corrections.Correction)
    ensures AffirmedBy(Vetting.Vet(e, tier), c) <==> AffirmedBy(e, c)
  {
    Vetting.VetKeepsClaim(e, tier);
  }

  lemma {:induction false} VettingAffirmsIff(k: Key, r: Record, tierOf: Vetting.TierOf, c: Corrections.Correction)
    ensures Affirmed(AdvisorsOf(Vetting.VetRecord(k, r, tierOf)), c) <==> Affirmed(AdvisorsOf(r), c)
  {
    var edges, vetted := AdvisorsOf(r), AdvisorsOf(Vetting.VetRecord(k, r, tierOf));
    forall i | 0 <= i < |edges|
      ensures AffirmedBy(vetted[i], c) <==> AffirmedBy(edges[i], c)
    {
      VetAffirms(edges[i], tierOf(k, edges[i]), c);
    }
  }

  // ---- Unions keep what an assertion is about ----

  lemma {:induction false} CuratedIsTop(e: Edge)
    requires CuratedIffVerified()(e)
    ensures Rank(e.confidence) <= 3 && (Rank(e.confidence) == 3 <==> Locked(e))
  {
  }

  lemma {:induction false} AbsorbLocks(cur: Edge, inc: Edge)
    requires CuratedIffVerified()(cur) && CuratedIffVerified()(inc)
    ensures Locked(Absorb(cur, inc)) <==> Locked(cur) || Locked(inc)
    ensures CuratedIffVerified()(Absorb(cur, inc))
    ensures Overrides(cur, inc) && Locked(inc) <==> !Locked(cur) && Locked(inc)
  {
    CuratedIsTop(cur);
    CuratedIsTop(inc);
  }

  /** Where the test holds, an edge that is fused with another loses the fact to none and takes it over from any. */
  ghost predicate Guards(p: EdgeTest, fact: EdgeTest) {
    && (forall e :: fact(e) ==> fact(OnRecord(e)) && fact(Opened(e)))
    && forall cur, inc :: p(cur) && p(inc) && SameAdvisor(cur, inc) && (fact(cur) || fact(inc))
         ==> fact(Absorb(cur, inc))
  }

  lemma {:induction false} MergeOneKeepsFact(p: EdgeTest, fact: EdgeTest, slots: seq<Edge>, inc: Edge)
    requires Guards(p, fact) && All(slots, p) && p(inc)
    requires AliasMerge.Has(slots, fact) || fact(inc)
    ensures AliasMerge.Has(MergeOne(slots, inc), fact)
  {
    var at, merged := FirstMatch(slots, inc), MergeOne(slots, inc);
    if fact(inc) {
      assert fact(merged[at]);
    } else {
      var i :| 0 <= i < |slots| && fact(slots[i]);
      assert fact(merged[i]);
    }
  }

  lemma {:induction false} MergeAllKeepsFact(p: EdgeTest, fact: EdgeTest, slots: seq<Edge>, incoming: seq<Edge>)
    requires Stable(p) && Guards(p, fact) && All(slots, p) && All(incoming, p)
    requires AliasMerge.Has(slots, fact) || AliasMerge.Has(incoming, fact)
    ensures AliasMerge.Has(MergeAll(slots, incoming), fact)
    decreases |incoming|
  {
    if incoming != [] {
      var init, last := incoming[..|incoming| - 1], incoming[|incoming| - 1];
      AliasMerge.HasSnoc(init, last, fact);
      assert incoming == init + [last];
      MergeAllKeeps(p, slots, init);
      if AliasMerge.Has(slots, fact) || AliasMerge.Has(init, fact) {
        MergeAllKeepsFact(p, fact, slots, init);
      }
      assert p(last);
      MergeOneKeepsFact(p, fact, MergeAll(slots, init), last);
    }
  }

  lemma {:induction false} UniteKeepsFact(p: EdgeTest, fact: EdgeTest, mine: Record, other: Record)
    requires Stable(p) && Guards(p, fact) && Retraction.AllPass(p, mine) && Retraction.AllPass(p, other)
    requires AliasMerge.Has(AdvisorsOf(mine), fact) || AliasMerge.Has(AdvisorsOf(other), fact)
    ensures AliasMerge.Has(AdvisorsOf(AliasMerge.Unite(mine, other)), fact)
  {
    var slots, incoming := AllOnRecord(AdvisorsOf(mine)), AdvisorsOf(other);
    if incoming != [] {
      if i :| 0 <= i < |AdvisorsOf(mine)| && fact(AdvisorsOf(mine)[i]) {
        assert fact(slots[i]);
      }
      MergeAllKeepsFact(p, fact, slots, incoming);
    }
  }

  lemma {:induction false} UniteAllKeepsFact(p: EdgeTest, fact: EdgeTest, g: Graph, ordered: seq<Key>, i: nat)
    requires Stable(p) && Guards(p, fact) && AliasMerge.AllIn(ordered, g)
    requires forall j :: 0 <= j < |ordered| ==> Retraction.AllPass(p, g[ordered[j]])
    requires i < |ordered| && AliasMerge.Has(AdvisorsOf(g[ordered[i]]), fact)
    ensures AliasMerge.Has(AdvisorsOf(AliasMerge.UniteAll(g, ordered)), fact)
  {
    if |ordered| > 1 {
      var n := |ordered| - 1;
      Retraction.UniteAllTest(p, g, ordered[..n]);
      if i < n {
        UniteAllKeepsFact(p, fact, g, ordered[..n], i);
      }
      UniteKeepsFact(p, fact, AliasMerge.UniteAll(g, ordered[..n]), g[ordered[n]]);
    }
  }

  lemma {:induction false} PassKeepsFact(p: EdgeTest, fact: EdgeTest, less: AliasMerge.Order, keys: seq<Key>,
                                         g: Graph, k: Key, k': Key)
    requires Stable(p) && Guards(p, fact) && Lists(keys, g) && Retraction.MatesPass(p, g, k)
    requires Retraction.Mates(g, k, k') && AliasMerge.Has(AdvisorsOf(g[k']), fact)
    ensures AliasMerge.Has(AdvisorsOf(AliasMerge.MergePass(less, keys, g)[k]), fact)
  {
    if g[k].gid.Some? && AliasMerge.Unites(keys, g, g[k].gid.value) {
      var id := g[k].gid.value;
      var ordered := AliasMerge.UnitedOrder(less, keys, g, id);
      Retraction.UnitedGroupAgrees(keys, g, k, id);
      forall j | 0 <= j < |ordered|
        ensures Retraction.AllPass(p, g[ordered[j]])
      {
        assert ordered[j] in ordered;
        assert Retraction.Mates(g, k, ordered[j]);
      }
      assert k' in keys && k' in ordered;
      var i :| 0 <= i < |ordered| && ordered[i] == k';
      UniteAllKeepsFact(p, fact, g, ordered, i);
    } else {
      Retraction.UntouchedMatesEqual(keys, g, k, k');
    }
  }

  /** One of the records has an edge of which the fact holds. */
  ghost predicate SomeHave(g: Graph, names: set<Key>, fact: EdgeTest) {
    exists x :: x in names && x in g && AliasMerge.Has(AdvisorsOf(g[x]), fact)
  }

  lemma {:induction false} PassKeepsFactOf(p: EdgeTest, fact: EdgeTest, less: AliasMerge.Order, keys: seq<Key>,
                                           g: Graph, names: set<Key>)
    requires Stable(p) && Guards(p, fact) && Lists(keys, g)
    requires Retraction.AllOfPass(p, g, Retraction.MatesOf(g, names))
    requires SomeHave(g, Retraction.MatesOf(g, names), fact)
    ensures SomeHave(AliasMerge.MergePass(less, keys, g), names, fact)
  {
    var y :| y in Retraction.MatesOf(g, names) && y in g && AliasMerge.Has(AdvisorsOf(g[y]), fact);
    var x :| x in names && Retraction.Mates(g, x, y);
    forall z | Retraction.Mates(g, x, z)
      ensures Retraction.AllPass(p, g[z])
    {
      assert z in Retraction.MatesOf(g, names);
    }
    PassKeepsFact(p, fact, less, keys, g, x, y);
  }

  lemma {:induction false} AssignedHave(h: AliasMerge.IdFunction, g: Graph, names: set<Key>, fact: EdgeTest)
    ensures SomeHave(AliasMerge.AssignIds(h, g), names, fact) <==> SomeHave(g, names, fact)
  {
    var a := AliasMerge.AssignIds(h, g);
    assert forall x :: x in g ==> AdvisorsOf(a[x]) == AdvisorsOf(g[x]);
    if x :| x in names && x in g && AliasMerge.Has(AdvisorsOf(g[x]), fact) {
      assert AliasMerge.Has(AdvisorsOf(a[x]), fact);
    }
  }

  /** Through the whole alias loop a record keeps a fact that an edge of some record going into it has, if the edges of
      all of these pass a test that guards it. */
  lemma {:induction false} SettledKeepsFact(p: EdgeTest, fact: EdgeTest, h: AliasMerge.IdFunction,
                                            less: AliasMerge.Order, keys: seq<Key>, g: Graph, k: Key)
    requires Stable(p) && Guards(p, fact) && Lists(keys, g)
    requires Retraction.AllOfPass(p, g, Retraction.Contributors(h, less, keys, g, k))
    requires SomeHave(g, Retraction.Contributors(h, less, keys, g, k), fact)
    ensures SomeHave(AliasMerge.SettledGraph(h, less, keys, g), {k}, fact)
    decreases MapImages.Distinct(g)
  {
    var a := AliasMerge.AssignIds(h, g);
    AliasMerge.AssignIdsShrinks(h, g);
    AliasMerge.MergePassShrinks(less, keys, a);
    AliasMerge.SameKeysListed(keys, g, a);
    AssignedHave(h, g, Retraction.Contributors(h, less, keys, g, k), fact);
    Retraction.AssignedPass(p, h, g, Retraction.Contributors(h, less, keys, g, k));
    if AliasMerge.PassChanges(keys, a) {
      var merged := AliasMerge.MergePass(less, keys, a);
      var names := Retraction.Contributors(h, less, keys, merged, k);
      PassKeepsFactOf(p, fact, less, keys, a, names);
      Retraction.PassTestOf(p, less, keys, a, names);
      SettledKeepsFact(p, fact, h, less, keys, merged, k);
    }
  }

  /** The edge is verified only if curated, and does not contest the assertion: if that is by IdRef alone, a curated
      edge has this IdRef. */
  function Uncontesting(c: Corrections.Correction): EdgeTest {
    (e: Edge) => CuratedIffVerified()(e) && (c.qid.None? && Locked(e) ==> e.idref == c.idref)
  }

  lemma {:induction false} AbsorbUncontesting(cur: Edge, inc: Edge, c: Corrections.Correction)
    requires c.qid.Some? || c.idref.Some?
    requires Uncontesting(c)(cur) && Uncontesting(c)(inc)
    ensures Uncontesting(c)(Absorb(cur, inc))
    ensures SameAdvisor(cur, inc) && (AffirmedBy(cur, c) || AffirmedBy(inc, c)) ==> AffirmedBy(Absorb(cur, inc), c)
  {
    assert CuratedIffVerified()(cur) && CuratedIffVerified()(inc);
    AbsorbLocks(cur, inc);
    assert Locked(cur) ==> !Overrides(cur, inc);
    if SameAdvisor(cur, inc) {
      AbsorbKeepsIdentity(cur, inc);
    }
  }

  lemma {:induction false} UncontestingGuards(c: Corrections.Correction)
    requires c.qid.Some? || c.idref.Some?
    ensures Stable(Uncontesting(c)) && Guards(Uncontesting(c), Affirming(c))
  {
    CuratedIffVerifiedIsStable();
    forall e, q | Uncontesting(c)(e)
      ensures Uncontesting(c)(OnRecord(e)) && Uncontesting(c)(Opened(e)) && Uncontesting(c)(e.(qidDup := q))
    {
      assert CuratedIffVerified()(e);
      assert CuratedIffVerified()(e.(qidDup := q));
    }
    forall cur, inc | Uncontesting(c)(cur) && Uncontesting(c)(inc)
      ensures Uncontesting(c)(Absorb(cur, inc))
      ensures SameAdvisor(cur, inc) && (Affirming(c)(cur) || Affirming(c)(inc)) ==> Affirming(c)(Absorb(cur, inc))
    {
      AbsorbUncontesting(cur, inc, c);
    }
    forall e, tier | Uncontesting(c)(e)
      ensures Uncontesting(c)(Vetting.Vet(e, tier))
    {
      VetVerified(e, tier);
      Vetting.VetKeepsClaim(e, tier);
    }
  }

  /** The alias loop keeps an assertion under every spelling it goes into, if nothing that goes there contests it. */
  lemma {:induction false} SettledKeepsAffirmed(h: AliasMerge.IdFunction, less: AliasMerge.Order, keys: seq<Key>,
                                                g: Graph, k: Key, x: Key, c: Corrections.Correction)
    requires Lists(keys, g) && (c.qid.Some? || c.idref.Some?)
    requires Retraction.AllOfPass(Uncontesting(c), g, Retraction.Contributors(h, less, keys, g, k))
    requires x in g && x in Retraction.Contributors(h, less, keys, g, k) && Affirmed(AdvisorsOf(g[x]), c)
    ensures k in AliasMerge.SettledGraph(h, less, keys, g)
    ensures Affirmed(AdvisorsOf(AliasMerge.SettledGraph(h, less, keys, g)[k]), c)
  {
    var i :| 0 <= i < |AdvisorsOf(g[x])| && AffirmedBy(AdvisorsOf(g[x])[i], c);
    assert Affirming(c)(AdvisorsOf(g[x])[i]);
    UncontestingGuards(c);
    SettledKeepsFact(Uncontesting(c), Affirming(c), h, less, keys, g, k);
    var edges := AdvisorsOf(AliasMerge.SettledGraph(h, less, keys, g)[k]);
    var j :| 0 <= j < |edges| && Affirming(c)(edges[j]);
    assert AffirmedBy(edges[j], c);
  }

  // ---- Erasure beats correction ----

  /** Whatever is said of an edge, erasure spares one of which it holds exactly if it holds of one whose advisor is not
      erased; being curated protects no edge. */
  lemma {:induction false} ErasureSparesIff(g: Graph, requests: Suppression.Requests, k: Key, fact: EdgeTest)
    requires k in Suppression.SuppressGraph(g, requests)
    ensures k in g
    ensures AliasMerge.Has(AdvisorsOf(Suppression.SuppressGraph(g, requests)[k]), fact)
       <==> exists i :: 0 <= i < |AdvisorsOf(g[k])| && fact(AdvisorsOf(g[k])[i])
                        && AdvisorKey(AdvisorsOf(g[k])[i]) !in Suppression.SuppressedKeys(g, requests)
  {
    var names, edges := Suppression.SuppressedKeys(g, requests), AdvisorsOf(g[k]);
    Suppression.SurvivorsAreClear(g, requests, k);
    Suppression.ScrubEdges(g[k], names);
    KeepHas(edges, Suppression.NotAmong(names), fact);
    if i :| 0 <= i < |edges| && fact(edges[i]) && AdvisorKey(edges[i]) !in names {
      assert Suppression.NotAmong(names)(edges[i]);
    }
  }
}

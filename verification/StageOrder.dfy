/** What the order of the stages on edges secures: integrity and labels are those of the corrected graph. */
module StageOrder {
  import opened Names
  import opened Options
  import opened Regime
  import opened Edges
  import opened Filters
  import opened Records
  import opened EdgeIntegrity
  import opened Stages
  import opened Labels
  import opened Pipeline
  import opened UnionNames
  import Adjudication
  import AliasMerge
  import Corrections
  import Ledger
  import Vetting

  // ---- What integrity removes, by its reason ----

  /** A named edge to the record's own key. */
  function ToItself(k: Key): Edge -> bool {
    (e: Edge) => e.name != NO_KEY && NormalizeKey(e.name) == k
  }

  /** A named edge to another record that refers back. */
  function ToPartner(g: Graph, k: Key): Edge -> bool {
    (e: Edge) => e.name != NO_KEY && NormalizeKey(e.name) != k && k in g && NormalizeKey(e.name) in g
                 && Advises(g[k], NormalizeKey(e.name)) && Advises(g[NormalizeKey(e.name)], k)
  }

  lemma {:induction false} KeepTwice<T>(s: seq<T>, p: T -> bool, q: T -> bool, both: T -> bool)
    requires forall x :: x in s ==> (both(x) <==> p(x) && q(x))
    ensures Keep(Keep(s, p), q) == Keep(s, both)
  {
    if s != [] {
      var init, last := s[..|s| - 1], s[|s| - 1];
      assert s == init + [last];
      KeepTwice(init, p, q, both);
      assert Keep(s, p) == if p(last) then Keep(init, p) + [last] else Keep(init, p);
      if p(last) {
        KeepSnoc(Keep(init, p), last, q);
      }
    }
  }

  function Judged(key: KeyOf, judge: Judge, verdict: Verdict): Edge -> bool {
    (e: Edge) => judge(key(e)) == verdict
  }

  lemma {:induction false} CountedByVerdict(key: KeyOf, judge: Judge, edges: seq<Edge>)
    ensures Counted(key, judge, edges).selfloops == |Keep(edges, Judged(key, judge, SelfLoop))|
    ensures Counted(key, judge, edges).mutualEdges == |Keep(edges, Judged(key, judge, MutualPair))|
  {
    if edges != [] {
      CountedByVerdict(key, judge, edges[..|edges| - 1]);
    }
  }

  lemma {:induction false} SelfEdges(g: Graph, k: Key, edges: seq<Edge>)
    ensures Keep(NamedEdges(edges), Judged(AdvisorKey, JudgeIn(g, k), SelfLoop)) == Keep(edges, ToItself(k))
  {
    KeepTwice(edges, Named, Judged(AdvisorKey, JudgeIn(g, k), SelfLoop), ToItself(k));
  }

  lemma {:induction false} PartnerEdges(g: Graph, k: Key, edges: seq<Edge>)
    ensures Keep(NamedEdges(edges), Judged(AdvisorKey, JudgeIn(g, k), MutualPair)) == Keep(edges, ToPartner(g, k))
  {
    KeepTwice(edges, Named, Judged(AdvisorKey, JudgeIn(g, k), MutualPair), ToPartner(g, k));
  }

  /** The counters count the edges of a record to itself and those to a partner that refers back. */
  lemma {:induction false} CountersAre(g: Graph, k: Key, r: Record)
    ensures CleanStats(g, k, r).selfloops == |Keep(AdvisorsOf(r), ToItself(k))|
    ensures CleanStats(g, k, r).mutualEdges == |Keep(AdvisorsOf(r), ToPartner(g, k))|
  {
    CountedByVerdict(AdvisorKey, JudgeIn(g, k), NamedEdges(AdvisorsOf(r)));
    SelfEdges(g, k, AdvisorsOf(r));
    PartnerEdges(g, k, AdvisorsOf(r));
  }

  /** And all other named edges that go. */
  lemma {:induction false} DuplicatesAre(g: Graph, k: Key, r: Record)
    ensures CleanStats(g, k, r).dups
         == |NamedEdges(AdvisorsOf(r))| - |NamedEdges(AdvisorsOf(CleanRecord(g, k, r)))|
            - |Keep(AdvisorsOf(r), ToItself(k))| - |Keep(AdvisorsOf(r), ToPartner(g, k))|
  {
    CountersAre(g, k, r);
    CleanRecordCounts(g, k, r);
  }

  // ---- What the ledger secures ----

  /** An assertion with an identifier, for a student on record, stands after the corrections, in a build without MGP
      too, if every later retraction from the student names another advisor. */
  lemma {:induction false} AssertionsStand(g: Graph, s: Settings, n: nat)
    requires Everywhere(g, Adjudication.CuratedIffVerified()) && Ledger.NotRetracted(s.ledger, n, |s.ledger|)
    requires var c := s.ledger[n]; c.action == Corrections.Assert && Corrections.Matched(g, c)
                                   && (c.qid.Some? || c.idref.Some?)
    ensures Ledger.Holds(Corrected(g, s), s.ledger[n])
  {
    var start := if s.noMgp then StripGraph(g) else g;
    if s.noMgp {
      StripKeeps(Adjudication.CuratedIffVerified(), g);
    }
    Corrections.CorrectAllKeys(start, s.ledger[..n]);
    Ledger.OutcomeIs(Corrections.CorrectAll(start, s.ledger[..n]), s.ledger[n]);
    Ledger.LedgerKeepsAffirmed(start, s.ledger, n);
  }

  // ---- What holds when the stubs are in ----

  /** After integrity no stage changes whom a record names, and stubs name nobody. */
  lemma {:induction false} StubbedNames(keys: seq<Key>, g: Graph, s: Settings, k: Key)
    requires AliasMerge.AllIn(keys, Repaired(g, s)) && k in Stubbed(keys, g, s)
    ensures NamesOf(AdvisorsOf(Stubbed(keys, g, s)[k]))
         == if k in CleanGraph(Corrected(g, s)) then NamesOf(AdvisorsOf(CleanGraph(Corrected(g, s))[k])) else []
  {
    var cleaned := CleanGraph(Corrected(g, s));
    RepairedKeys(g, s);
    if k in cleaned {
      var edges := AdvisorsOf(cleaned[k]);
      forall i | 0 <= i < |edges|
        ensures AdvisorsOf(Stubbed(keys, g, s)[k])[i].name == edges[i].name
      {
        Vetting.VetKeepsClaim(edges[i], s.tierOf(k, edges[i]));
      }
    }
  }

  /** Whatever the ledger asserts, when the stubs are in there is no self-loop, no mutual pair and no duplicate. */
  lemma {:induction false} StubbedIsClean(keys: seq<Key>, g: Graph, s: Settings)
    requires AliasMerge.AllIn(keys, Repaired(g, s))
    ensures var stubbed := Stubbed(keys, g, s); NoSelfLoops(stubbed) && NoMutual(stubbed) && NoDuplicates(stubbed)
  {
    var stubbed, cleaned := Stubbed(keys, g, s), CleanGraph(Corrected(g, s));
    CleanGraphFacts(Corrected(g, s));
    forall k, t | k in stubbed
      ensures Advises(stubbed[k], t) <==> k in cleaned && Advises(cleaned[k], t)
    {
      StubbedNames(keys, g, s, k);
      AdvisesByName(stubbed[k], t);
      if k in cleaned {
        AdvisesByName(cleaned[k], t);
      }
    }
    forall k | k in stubbed
      ensures DistinctKeys(AdvisorKey, NamedEdges(AdvisorsOf(stubbed[k])))
    {
      StubbedNames(keys, g, s, k);
      DistinctByName(AdvisorsOf(stubbed[k]));
      if k in cleaned {
        DistinctByName(AdvisorsOf(cleaned[k]));
      }
    }
  }

  /** The label is up to date: what reaches MGP and no human has settled is vouched for or has a tier. */
  ghost predicate UpToDate(e: Edge) {
    ReachesMgp(e) && e.source != Some(Curated) ==>
      if exists s :: Vouches(e, s) then
        !e.needsVetting && e.vettingTier == None && forall s :: s in e.vettedBy <==> Vouches(e, s)
      else e.vettingTier.Some? && (e.needsVetting <==> e.vettingTier != Some(TRUST))
  }

  lemma {:induction false} VetUpToDate(e: Edge, tier: Tier)
    ensures UpToDate(Vetting.Vet(e, tier))
  {
    var v := Vetting.Vet(e, tier);
    Vetting.VetKeepsClaim(e, tier);
    VetIs(e, tier);
    assert forall s :: Cites(v, s) <==> Cites(e, s);
    assert NamesProject(v) <==> NamesProject(e);
    assert forall s :: Vouches(v, s) <==> Vouches(e, s);
  }

  /** Whatever the ledger asserts or overrides, when the stubs are in every label is up to date. */
  lemma {:induction false} StubbedIsLabelled(keys: seq<Key>, g: Graph, s: Settings, k: Key, i: nat)
    requires AliasMerge.AllIn(keys, Repaired(g, s))
    requires k in Stubbed(keys, g, s) && i < |AdvisorsOf(Stubbed(keys, g, s)[k])|
    ensures UpToDate(AdvisorsOf(Stubbed(keys, g, s)[k])[i])
  {
    RepairedKeys(g, s);
    var cleaned := CleanGraph(Corrected(g, s));
    if k in cleaned {
      VetUpToDate(AdvisorsOf(cleaned[k])[i], s.tierOf(k, AdvisorsOf(cleaned[k])[i]));
    }
  }
}

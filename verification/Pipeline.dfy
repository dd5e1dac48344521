/** The build from its merged harvests on, as functions: what it starts the alias loop from, what it ends with, and what
    holds at the end. */
module Pipeline {
  import opened Names
  import opened Options
  import opened Records
  import opened Invariants
  import opened Retraction
  import opened Stages
  import opened Adjudication
  import opened Suppression
  import EdgeIntegrity
  import Corrections
  import Vetting
  import AliasMerge
  import Aliases
  import Convergence
  import Kinship
  import Standings
  import UnionNames
  import Stubs

  /** What a build is run with. */
  datatype Settings = Settings(
    noMgp: bool, ledger: seq<Corrections.Correction>, tierOf: Vetting.TierOf, displayOf: Stubs.DisplayOf,
    h: AliasMerge.IdFunction, requests: Requests)

  /** The request is honoured: the listed name is no key and nobody's advisor, the listed identifier is on
      no record and not in the index. */
  ghost predicate Honoured(g: Graph, index: Index, q: Request) {
    match q
    case ByName(name) =>
      var k := NormalizeKey(name);
      k != NO_KEY ==> k !in g && forall x :: x in g ==> !NamesOneOf(g[x], {k})
    case ById(id) => forall x :: x in g ==> g[x].gid != Some(id)
  }

  lemma {:induction false} SuppressHonours(g: Graph, index: Index, requests: Requests, n: nat)
    requires n < |requests|
    ensures Honoured(SuppressGraph(g, requests), SuppressIndex(g, index, requests), requests[n])
  {
    var g', names := SuppressGraph(g, requests), SuppressedKeys(g, requests);
    match requests[n]
    case ByName(name) =>
      var k := NormalizeKey(name);
      if k != NO_KEY {
        assert k in ListedKeys(requests);
        forall x | x in g'
          ensures !NamesOneOf(g'[x], {k})
        {
          ScrubEdges(g[x], names);
          assert !NamesOneOf(g'[x], names);
        }
      }
    case ById(id) =>
      assert id in ListedIds(requests);
      forall x | x in g'
        ensures g'[x].gid != Some(id)
      {
        SurvivorsAreClear(g, requests, x);
      }
  }

  // ---- From the harvests to the stubs ----

  function Corrected(g: Graph, s: Settings): Graph {
    Corrections.CorrectAll(if s.noMgp then StripGraph(g) else g, s.ledger)
  }

  /** Stripped if the build is without MGP, corrected, cleaned and labelled. */
  function Repaired(g: Graph, s: Settings): Graph {
    Vetting.VetGraph(EdgeIntegrity.CleanGraph(Corrected(g, s)), s.tierOf)
  }

  lemma {:induction false} RepairedKeys(g: Graph, s: Settings)
    ensures Corrected(g, s).Keys == Repaired(g, s).Keys == g.Keys
  {
    Corrections.CorrectAllKeys(if s.noMgp then StripGraph(g) else g, s.ledger);
  }

  /** What the alias loop starts from: the stubs have the longest display form of whoever is referred to. */
  function Stubbed(keys: seq<Key>, g: Graph, s: Settings): Graph
    requires AliasMerge.AllIn(keys, Repaired(g, s))
  {
    StubGraph(Repaired(g, s), Stubs.DisplaysOver(keys, Repaired(g, s), s.displayOf))
  }

  lemma {:induction false} StubsKeep(p: EdgeTest, g: Graph, display: map<Key, string>)
    requires Everywhere(g, p)
    ensures Everywhere(StubGraph(g, display), p)
  {
  }

  /** An edge property that every stage keeps, and that curated edges have, holds before the alias loop. */
  lemma {:induction false} StubbedKeeps(p: EdgeTest, keys: seq<Key>, g: Graph, s: Settings)
    requires Stable(p) && Everywhere(if s.noMgp then StripGraph(g) else g, p)
    requires forall i :: 0 <= i < |s.ledger| ==> p(Corrections.CuratedEdge(s.ledger[i]))
    requires AliasMerge.AllIn(keys, Repaired(g, s))
    ensures Everywhere(Stubbed(keys, g, s), p)
  {
    CorrectAllKeeps(p, if s.noMgp then StripGraph(g) else g, s.ledger);
    IntegrityKeeps(p, Corrected(g, s));
    StageKeeps(p, EdgeIntegrity.CleanGraph(Corrected(g, s)), Vet(s.tierOf));
    StubsKeep(p, Repaired(g, s), Stubs.DisplaysOver(keys, Repaired(g, s), s.displayOf));
  }

  // ---- From the stubs on ----

  /** The graph at the end: aliases settle, and erasure comes last. */
  ghost function Final(s: Settings, keys: seq<Key>, stubbed: Graph): Graph
    requires Lists(keys, stubbed)
  {
    SuppressGraph(AliasMerge.SettledGraph(s.h, AliasMerge.Before, keys, stubbed), s.requests)
  }

  lemma {:induction false} FinalKeeps(p: EdgeTest, s: Settings, keys: seq<Key>, stubbed: Graph)
    requires Lists(keys, stubbed) && Stable(p) && Everywhere(stubbed, p)
    ensures Everywhere(Final(s, keys, stubbed), p)
  {
    SettledKeeps(p, s.h, AliasMerge.Before, keys, stubbed);
    SuppressKeeps(p, AliasMerge.SettledGraph(s.h, AliasMerge.Before, keys, stubbed), s.requests);
  }

  lemma {:induction false} TailFacts(s: Settings, keys: seq<Key>, stubbed: Graph, index: Index)
    requires Lists(keys, stubbed) && I5(stubbed)
    requires var settled := AliasMerge.SettledGraph(s.h, AliasMerge.Before, keys, stubbed);
             IndexOf(settled, index) && TotalIndex(settled, index)
    ensures var settled := AliasMerge.SettledGraph(s.h, AliasMerge.Before, keys, stubbed);
            var g, index' := Final(s, keys, stubbed), SuppressIndex(settled, index, s.requests);
            && I5(g) && IndexOf(g, index') && TotalIndex(g, index') && Aliases.UnlessColliding(g)
            && (Aliases.Canonical(g) && OneFormPerId(g) ==> AliasesIdentical(g) && Lossless(g))
            && forall n :: 0 <= n < |s.requests| ==> Honoured(g, index', s.requests[n])
  {
    var settled := AliasMerge.SettledGraph(s.h, AliasMerge.Before, keys, stubbed);
    var g := Final(s, keys, stubbed);
    SettledKeepsI5(s.h, AliasMerge.Before, keys, stubbed);
    AliasMerge.SettledFacts(s.h, AliasMerge.Before, keys, stubbed);
    Aliases.SettledUnlessColliding(s.h, settled);
    KeepsI5(settled, s.requests);
    KeepsIndexOf(settled, index, s.requests);
    KeepsTotalIndex(settled, index, s.requests);
    Aliases.SuppressKeepsAliases(settled, s.requests);
    if Aliases.Canonical(g) && OneFormPerId(g) {
      Aliases.NoCollisionNoLoss(g);
    }
    forall n | 0 <= n < |s.requests|
      ensures Honoured(g, SuppressIndex(settled, index, s.requests), s.requests[n])
    {
      SuppressHonours(settled, index, s.requests, n);
    }
  }

  /** From the strip on: no stage brings an MGP edge back. */
  lemma {:induction false} NoMgpToTheEnd(harvested: Graph, s: Settings, keys: seq<Key>, keys': seq<Key>)
    requires s.noMgp && AliasMerge.AllIn(keys, Repaired(harvested, s)) && Lists(keys', Stubbed(keys, harvested, s))
    ensures Everywhere(Final(s, keys', Stubbed(keys, harvested, s)), NotMgp())
  {
    StripRemovesMgp(harvested);
    NotMgpIsStable();
    StubbedKeeps(NotMgp(), keys, harvested, s);
    FinalKeeps(NotMgp(), s, keys', Stubbed(keys, harvested, s));
  }

  /** Edges that come with source and confidence keep them to the end. */
  lemma {:induction false} ProvenanceToTheEnd(harvested: Graph, s: Settings, keys: seq<Key>, keys': seq<Key>)
    requires Everywhere(harvested, Provenanced())
    requires AliasMerge.AllIn(keys, Repaired(harvested, s)) && Lists(keys', Stubbed(keys, harvested, s))
    ensures I4(Final(s, keys', Stubbed(keys, harvested, s)))
  {
    var p := Provenanced();
    ProvenancedIsStable();
    StripKeeps(p, harvested);
    StubbedKeeps(p, keys, harvested, s);
    FinalKeeps(p, s, keys', Stubbed(keys, harvested, s));
    ProvenancedIsI4(Final(s, keys', Stubbed(keys, harvested, s)));
  }

  ghost predicate NeverEmpty(h: AliasMerge.IdFunction) {
    forall form, birth, death :: h(form, birth, death) != ""
  }

  // ---- Forms and identifiers ----

  lemma {:induction false} CorrectedFields(g: Graph, ledger: seq<Corrections.Correction>, k: Key)
    requires k in g
    ensures k in Corrections.CorrectAll(g, ledger) && Corrections.CorrectAll(g, ledger)[k].fields == g[k].fields
  {
    if ledger != [] {
      CorrectedFields(g, ledger[..|ledger| - 1], k);
    }
  }

  lemma {:induction false} RepairedFields(g: Graph, s: Settings, k: Key)
    requires k in g
    ensures k in Repaired(g, s) && Repaired(g, s)[k].fields == g[k].fields
  {
    RepairedKeys(g, s);
    CorrectedFields(if s.noMgp then StripGraph(g) else g, s.ledger, k);
  }

  lemma {:induction false} StubsCanonical(g: Graph, display: Stubs.Displays)
    requires Aliases.Canonical(g)
    ensures Aliases.Canonical(StubGraph(g, display))
  {
    forall k | k in StubGraph(g, display) && k !in g
      ensures Get(StubGraph(g, display)[k], "CanonicalLatin") == Text(display[k])
    {
    }
  }

  lemma {:induction false} CanonicalStubs(keys: seq<Key>, g: Graph, s: Settings)
    requires AliasMerge.AllIn(keys, Repaired(g, s)) && Aliases.Canonical(g)
    ensures Aliases.Canonical(Stubbed(keys, g, s))
  {
    RepairedKeys(g, s);
    forall k | k in Repaired(g, s)
      ensures Get(Repaired(g, s)[k], "CanonicalLatin") == Get(g[k], "CanonicalLatin")
    {
      RepairedFields(g, s, k);
    }
    StubsCanonical(Repaired(g, s), Stubs.DisplaysOver(keys, Repaired(g, s), s.displayOf));
  }

  /** If every harvested record has a canonical form, every record has one at the end. */
  lemma {:induction false} CanonicalToTheEnd(harvested: Graph, s: Settings, keys: seq<Key>, keys': seq<Key>)
    requires Aliases.Canonical(harvested)
    requires AliasMerge.AllIn(keys, Repaired(harvested, s)) && Lists(keys', Stubbed(keys, harvested, s))
    ensures Aliases.Canonical(Final(s, keys', Stubbed(keys, harvested, s)))
  {
    var stubbed := Stubbed(keys, harvested, s);
    CanonicalStubs(keys, harvested, s);
    Aliases.SettledCanonical(s.h, AliasMerge.Before, keys', stubbed);
    forall k | k in Final(s, keys', stubbed)
      ensures Truthy(Get(Final(s, keys', stubbed)[k], "CanonicalLatin"))
    {
      SurvivorsAreClear(AliasMerge.SettledGraph(s.h, AliasMerge.Before, keys', stubbed), s.requests, k);
    }
  }

  /** And an identifier, if none is empty. */
  lemma {:induction false} IdentifiedAtTheEnd(s: Settings, keys: seq<Key>, stubbed: Graph)
    requires Lists(keys, stubbed) && NeverEmpty(s.h) && Aliases.Canonical(Final(s, keys, stubbed))
    ensures I6(Final(s, keys, stubbed))
  {
    var settled := AliasMerge.SettledGraph(s.h, AliasMerge.Before, keys, stubbed);
    AliasMerge.SettledFacts(s.h, AliasMerge.Before, keys, stubbed);
    forall k | k in Final(s, keys, stubbed)
      ensures HasId(Final(s, keys, stubbed)[k])
    {
      SurvivorsAreClear(settled, s.requests, k);
    }
  }

  /** If identifiers tell apart what they are derived from, each has one form at the end. */
  lemma {:induction false} OneFormAtTheEnd(s: Settings, keys: seq<Key>, stubbed: Graph)
    requires Lists(keys, stubbed) && Convergence.TellsApart(s.h, stubbed)
    ensures OneFormPerId(Final(s, keys, stubbed))
  {
    Convergence.NothingCollides(s.h, AliasMerge.Before, keys, stubbed);
    KeepsForms(AliasMerge.SettledGraph(s.h, AliasMerge.Before, keys, stubbed), s.requests);
  }

  // ---- Loops, cycles and duplicates ----

  /** If no record refers to a spelling of its own person, there is no self-loop at the end. */
  lemma {:induction false} NoLoopAtTheEnd(s: Settings, keys: seq<Key>, stubbed: Graph)
    requires Lists(keys, stubbed) && Convergence.Separates(s.h, stubbed) && Kinship.NoKinAdvises(s.h, stubbed)
    ensures I1(Final(s, keys, stubbed))
  {
    Kinship.SettledKeepsI1(s.h, AliasMerge.Before, keys, stubbed);
    KeepsI1(AliasMerge.SettledGraph(s.h, AliasMerge.Before, keys, stubbed), s.requests);
  }

  /** If no walk of references closes when spellings of one person count as one, there is no cycle at the end. */
  lemma {:induction false} NoCycleAtTheEnd(s: Settings, keys: seq<Key>, stubbed: Graph)
    requires Lists(keys, stubbed) && Convergence.Separates(s.h, stubbed)
    requires Kinship.NeverCloses(Kinship.KinStep(s.h, stubbed))
    ensures I2(Final(s, keys, stubbed))
  {
    Kinship.SettledKeepsI2(s.h, AliasMerge.Before, keys, stubbed);
    KeepsI2(AliasMerge.SettledGraph(s.h, AliasMerge.Before, keys, stubbed), s.requests);
  }

  /** For no record do two names with one key win. */
  ghost predicate WinnersDiffer(s: Settings, keys: seq<Key>, stubbed: Graph)
    requires Lists(keys, stubbed)
  {
    forall k :: k in stubbed ==>
      UnionNames.KeysDiffer(Kinship.WinningNames(s.h, AliasMerge.Before, keys, stubbed, k))
  }

  /** Then no advisor is listed twice at the end. */
  lemma {:induction false} NoDuplicateAtTheEnd(s: Settings, keys: seq<Key>, stubbed: Graph)
    requires Lists(keys, stubbed) && Convergence.Separates(s.h, stubbed) && WinnersDiffer(s, keys, stubbed)
    ensures I3(Final(s, keys, stubbed))
  {
    Kinship.SettledI3Iff(s.h, AliasMerge.Before, keys, stubbed);
    KeepsI3(AliasMerge.SettledGraph(s.h, AliasMerge.Before, keys, stubbed), s.requests);
  }

  // ---- Nothing comes from nowhere ----

  lemma {:induction false} VetRecordKeeps(p: EdgeTest, k: Key, r: Record, tierOf: Vetting.TierOf)
    requires Stable(p) && All(AdvisorsOf(r), p)
    ensures All(AdvisorsOf(Vetting.VetRecord(k, r, tierOf)), p)
  {
  }

  /** What holds of a record's edges after the ledger holds of them before the alias loop. */
  lemma {:induction false} StubbedTest(p: EdgeTest, keys: seq<Key>, g: Graph, s: Settings, k: Key)
    requires Stable(p) && AliasMerge.AllIn(keys, Repaired(g, s)) && k in Stubbed(keys, g, s)
    requires k in Corrected(g, s) ==> AllPass(p, Corrected(g, s)[k])
    ensures AllPass(p, Stubbed(keys, g, s)[k])
  {
    var corrected := Corrected(g, s);
    RepairedKeys(g, s);
    if k in corrected {
      CleanRecordKeeps(p, corrected, k, corrected[k]);
      VetRecordKeeps(p, k, EdgeIntegrity.CleanRecord(corrected, k, corrected[k]), s.tierOf);
    }
  }

  /** After the ledger the test holds of every record that ends up as one with `k`'s. */
  ghost predicate MatesPassed(p: EdgeTest, keys: seq<Key>, g: Graph, s: Settings, k: Key)
    requires AliasMerge.AllIn(keys, Repaired(g, s))
  {
    forall k' :: Mates(AliasMerge.AssignIds(s.h, Stubbed(keys, g, s)), k, k') && k' in Corrected(g, s)
      ==> AllPass(p, Corrected(g, s)[k'])
  }

  lemma {:induction false} AssignedTest(p: EdgeTest, keys: seq<Key>, g: Graph, s: Settings, k: Key)
    requires Stable(p) && AliasMerge.AllIn(keys, Repaired(g, s)) && MatesPassed(p, keys, g, s, k)
    ensures MatesPass(p, AliasMerge.AssignIds(s.h, Stubbed(keys, g, s)), k)
  {
    var stubbed := Stubbed(keys, g, s);
    var withIds := AliasMerge.AssignIds(s.h, stubbed);
    forall k' | Mates(withIds, k, k')
      ensures AllPass(p, withIds[k'])
    {
      StubbedTest(p, keys, g, s, k');
      assert AdvisorsOf(withIds[k']) == AdvisorsOf(stubbed[k']);
    }
  }

  /** A test that every stage keeps holds of a record's edges at the end if, after the ledger, it held of all spellings
      of the person: what the ledger has retracted from all of them does not come back. */
  lemma {:induction false} FinalTest(p: EdgeTest, keys: seq<Key>, g: Graph, s: Settings, keys': seq<Key>, k: Key)
    requires Stable(p) && AliasMerge.AllIn(keys, Repaired(g, s)) && Lists(keys', Stubbed(keys, g, s))
    requires Convergence.Separates(s.h, Stubbed(keys, g, s)) && MatesPassed(p, keys, g, s, k)
    requires k in Final(s, keys', Stubbed(keys, g, s))
    ensures AllPass(p, Final(s, keys', Stubbed(keys, g, s))[k])
  {
    var stubbed := Stubbed(keys, g, s);
    var settled := AliasMerge.SettledGraph(s.h, AliasMerge.Before, keys', stubbed);
    AliasMerge.SettledFacts(s.h, AliasMerge.Before, keys', stubbed);
    SurvivorsAreClear(settled, s.requests, k);
    AssignedTest(p, keys, g, s, k);
    SettledTestIf(p, s.h, AliasMerge.Before, keys', stubbed, k);
    ScrubKeeps(p, settled[k], SuppressedKeys(settled, s.requests));
  }

  /** A QID in a record at the end was there after the ledger, under some spelling of the person. */
  lemma {:induction false} FinalQids(keys: seq<Key>, g: Graph, s: Settings, keys': seq<Key>, k: Key, qid: string)
    requires AliasMerge.AllIn(keys, Repaired(g, s)) && Lists(keys', Stubbed(keys, g, s))
    requires Convergence.Separates(s.h, Stubbed(keys, g, s))
    requires k in Final(s, keys', Stubbed(keys, g, s)) && ListsQid(Final(s, keys', Stubbed(keys, g, s))[k], qid)
    ensures exists k' :: Mates(AliasMerge.AssignIds(s.h, Stubbed(keys, g, s)), k, k') && k' in Corrected(g, s)
                         && ListsQid(Corrected(g, s)[k'], qid)
  {
    NotBearingIs(Final(s, keys', Stubbed(keys, g, s))[k], qid);
    NotBearingIsStable(qid);
    forall k' | Mates(AliasMerge.AssignIds(s.h, Stubbed(keys, g, s)), k, k') && k' in Corrected(g, s)
      ensures AllPass(NotBearing(qid), Corrected(g, s)[k']) <==> !ListsQid(Corrected(g, s)[k'], qid)
    {
      NotBearingIs(Corrected(g, s)[k'], qid);
    }
    if MatesPassed(NotBearing(qid), keys, g, s, k) {
      FinalTest(NotBearing(qid), keys, g, s, keys', k);
    }
  }

  // ---- What becomes of an assertion ----

  lemma {:induction false} CuratedCarries(keys: seq<Key>, g: Graph, s: Settings)
    requires Everywhere(g, CuratedIffVerified()) && AliasMerge.AllIn(keys, Repaired(g, s))
    ensures Everywhere(Stubbed(keys, g, s), CuratedIffVerified())
  {
    var p := CuratedIffVerified();
    CuratedIffVerifiedIsStable();
    StripKeeps(p, g);
    StubbedKeeps(p, keys, g, s);
  }

  /** Up to the alias loop the student keeps a curated edge for the assertion exactly if the integrity pass lets one
      through. */
  lemma {:induction false} StubbedAffirmsIff(keys: seq<Key>, g: Graph, s: Settings, k: Key, c: Corrections.Correction)
    requires AliasMerge.AllIn(keys, Repaired(g, s)) && k in Corrected(g, s)
    ensures k in Stubbed(keys, g, s)
    ensures Affirmed(AdvisorsOf(Stubbed(keys, g, s)[k]), c) <==> PassesIntegrity(Corrected(g, s), k, c)
  {
    RepairedKeys(g, s);
    IntegrityAffirmsIff(Corrected(g, s), k, c);
    VettingAffirmsIff(k, EdgeIntegrity.CleanGraph(Corrected(g, s))[k], s.tierOf, c);
  }

  /** None of the records that go into `k`'s contests the assertion. */
  ghost predicate Uncontested(s: Settings, keys: seq<Key>, stubbed: Graph, k: Key, c: Corrections.Correction)
    requires Lists(keys, stubbed)
  {
    AllOfPass(Uncontesting(c), stubbed, Contributors(s.h, AliasMerge.Before, keys, stubbed, k))
  }

  /** The alias loop keeps what the integrity pass has let through, under every spelling it goes into. */
  lemma {:induction false} SettledAffirms(keys: seq<Key>, g: Graph, s: Settings, keys': seq<Key>, k: Key, x: Key,
                                          c: Corrections.Correction)
    requires (c.qid.Some? || c.idref.Some?) && AliasMerge.AllIn(keys, Repaired(g, s))
    requires Lists(keys', Stubbed(keys, g, s)) && Uncontested(s, keys', Stubbed(keys, g, s), k, c)
    requires x in Contributors(s.h, AliasMerge.Before, keys', Stubbed(keys, g, s), k)
    requires x in Corrected(g, s) && PassesIntegrity(Corrected(g, s), x, c)
    ensures var settled := AliasMerge.SettledGraph(s.h, AliasMerge.Before, keys', Stubbed(keys, g, s));
            k in settled && Affirmed(AdvisorsOf(settled[k]), c)
  {
    StubbedAffirmsIff(keys, g, s, x, c);
    SettledKeepsAffirmed(s.h, AliasMerge.Before, keys', Stubbed(keys, g, s), k, x, c);
  }

  /** A curated edge to the asserted advisor is there, but the advisor is erased. */
  ghost predicate AdvisorErased(settled: Graph, requests: Requests, k: Key, c: Corrections.Correction) {
    k in settled && exists i :: 0 <= i < |AdvisorsOf(settled[k])| && AffirmedBy(AdvisorsOf(settled[k])[i], c)
                                && AdvisorKey(AdvisorsOf(settled[k])[i]) in SuppressedKeys(settled, requests)
  }

  lemma {:induction false} ErasureAffirmsIff(settled: Graph, requests: Requests, k: Key, c: Corrections.Correction)
    requires k in SuppressGraph(settled, requests)
    ensures k in settled
    ensures Affirmed(AdvisorsOf(SuppressGraph(settled, requests)[k]), c)
       <==> exists i :: 0 <= i < |AdvisorsOf(settled[k])| && AffirmedBy(AdvisorsOf(settled[k])[i], c)
                        && AdvisorKey(AdvisorsOf(settled[k])[i]) !in SuppressedKeys(settled, requests)
  {
    var edges, left := AdvisorsOf(settled[k]), AdvisorsOf(SuppressGraph(settled, requests)[k]);
    ErasureSparesIff(settled, requests, k, Affirming(c));
    assert forall e :: Affirming(c)(e) <==> AffirmedBy(e, c);
  }

  /** An assertion that the integrity pass lets through, and that no record going into the student's contests, is
      affirmed at the end unless its advisor is erased. */
  lemma {:induction false} FinalAffirms(keys: seq<Key>, g: Graph, s: Settings, keys': seq<Key>, k: Key, x: Key,
                                        c: Corrections.Correction)
    requires (c.qid.Some? || c.idref.Some?) && AliasMerge.AllIn(keys, Repaired(g, s))
    requires Lists(keys', Stubbed(keys, g, s)) && Uncontested(s, keys', Stubbed(keys, g, s), k, c)
    requires x in Contributors(s.h, AliasMerge.Before, keys', Stubbed(keys, g, s), k)
    requires x in Corrected(g, s) && PassesIntegrity(Corrected(g, s), x, c)
    requires k in Final(s, keys', Stubbed(keys, g, s))
    ensures Affirmed(AdvisorsOf(Final(s, keys', Stubbed(keys, g, s))[k]), c)
         || AdvisorErased(AliasMerge.SettledGraph(s.h, AliasMerge.Before, keys', Stubbed(keys, g, s)), s.requests, k, c)
  {
    var settled := AliasMerge.SettledGraph(s.h, AliasMerge.Before, keys', Stubbed(keys, g, s));
    SettledAffirms(keys, g, s, keys', k, x, c);
    ErasureAffirmsIff(settled, s.requests, k, c);
    var i :| 0 <= i < |AdvisorsOf(settled[k])| && AffirmedBy(AdvisorsOf(settled[k])[i], c);
  }

  /** By QID, no curated edge contests an assertion. */
  lemma {:induction false} QidUncontested(keys: seq<Key>, g: Graph, s: Settings, keys': seq<Key>, k: Key,
                                          c: Corrections.Correction)
    requires Everywhere(g, CuratedIffVerified()) && c.qid.Some?
    requires AliasMerge.AllIn(keys, Repaired(g, s)) && Lists(keys', Stubbed(keys, g, s))
    ensures Uncontested(s, keys', Stubbed(keys, g, s), k, c)
  {
    CuratedCarries(keys, g, s);
    forall x | x in Stubbed(keys, g, s)
      ensures AllPass(Uncontesting(c), Stubbed(keys, g, s)[x])
    {
      assert All(AdvisorsOf(Stubbed(keys, g, s)[x]), CuratedIffVerified());
    }
  }

  /** A standing that wins for `k` meets the assertion, and its advisor is not erased. */
  ghost predicate StandsFor(s: Settings, keys: seq<Key>, stubbed: Graph, k: Key, c: Corrections.Correction)
    requires Lists(keys, stubbed) && k in stubbed
  {
    Standings.SomeMeets(
      Standings.WinningStandings(s.h, AliasMerge.Before, keys, stubbed, k), c,
      SuppressedKeys(AliasMerge.SettledGraph(s.h, AliasMerge.Before, keys, stubbed), s.requests))
  }

  /** If identifiers tell dates apart, exactly then a record affirms the assertion at the end. */
  lemma {:induction false} FinalAffirmsIff(s: Settings, keys: seq<Key>, stubbed: Graph, k: Key,
                                           c: Corrections.Correction)
    requires Lists(keys, stubbed) && Convergence.Separates(s.h, stubbed) && Everywhere(stubbed, CuratedIffVerified())
    requires k in Final(s, keys, stubbed)
    ensures k in stubbed
    ensures Affirmed(AdvisorsOf(Final(s, keys, stubbed)[k]), c) <==> StandsFor(s, keys, stubbed, k, c)
  {
    var settled := AliasMerge.SettledGraph(s.h, AliasMerge.Before, keys, stubbed);
    AliasMerge.SettledFacts(s.h, AliasMerge.Before, keys, stubbed);
    ErasureAffirmsIff(settled, s.requests, k, c);
    Standings.SettledStandingsAre(s.h, AliasMerge.Before, keys, stubbed, k);
    Standings.AffirmedByStanding(AdvisorsOf(settled[k]), c, SuppressedKeys(settled, s.requests));
  }

  // ---- All together ----

  /** What a retraction identifies is gone at the end wherever no spelling of the person listed it after the ledger. */
  ghost predicate NothingReturns(s: Settings, keys: seq<Key>, g: Graph, keys': seq<Key>)
    requires AliasMerge.AllIn(keys, Repaired(g, s)) && Lists(keys', Stubbed(keys, g, s))
  {
    var final := Final(s, keys', Stubbed(keys, g, s));
    forall k, c :: k in final && MatesPassed(Escapes(c), keys, g, s, k) ==> AllPass(Escapes(c), final[k])
  }

  /** The integrity pass lets an assertion through for `x`, whose record goes into `k`'s, and none contests it there. */
  ghost predicate LetThrough(s: Settings, keys: seq<Key>, g: Graph, keys': seq<Key>, k: Key, x: Key,
                             c: Corrections.Correction)
    requires AliasMerge.AllIn(keys, Repaired(g, s)) && Lists(keys', Stubbed(keys, g, s))
  {
    && x in Contributors(s.h, AliasMerge.Before, keys', Stubbed(keys, g, s), k)
    && x in Corrected(g, s) && PassesIntegrity(Corrected(g, s), x, c)
    && (c.qid.Some? || (c.idref.Some? && Uncontested(s, keys', Stubbed(keys, g, s), k, c)))
  }

  /** Such an assertion is curated at the end, unless its advisor is erased. */
  ghost predicate AssertionsLast(s: Settings, keys: seq<Key>, g: Graph, keys': seq<Key>)
    requires AliasMerge.AllIn(keys, Repaired(g, s)) && Lists(keys', Stubbed(keys, g, s))
  {
    var settled := AliasMerge.SettledGraph(s.h, AliasMerge.Before, keys', Stubbed(keys, g, s));
    var final := Final(s, keys', Stubbed(keys, g, s));
    forall k, x, c: Corrections.Correction :: k in final && LetThrough(s, keys, g, keys', k, x, c) ==>
      Affirmed(AdvisorsOf(final[k]), c) || AdvisorErased(settled, s.requests, k, c)
  }

  /** The record affirms the assertion at the end exactly if a standing that wins for it does. */
  ghost predicate AffirmsAsItStands(s: Settings, keys: seq<Key>, stubbed: Graph, k: Key, c: Corrections.Correction)
    requires Lists(keys, stubbed) && k in Final(s, keys, stubbed)
  {
    k in stubbed && (Affirmed(AdvisorsOf(Final(s, keys, stubbed)[k]), c) <==> StandsFor(s, keys, stubbed, k, c))
  }

  ghost predicate AffirmsWhatWins(s: Settings, keys: seq<Key>, stubbed: Graph)
    requires Lists(keys, stubbed)
  {
    forall k, c :: k in Final(s, keys, stubbed) ==> AffirmsAsItStands(s, keys, stubbed, k, c)
  }

  /** The invariants of the gate that take conditions on what the build starts from, each under its own. */
  ghost predicate KeepsGate(s: Settings, keys: seq<Key>, g: Graph, keys': seq<Key>)
    requires AliasMerge.AllIn(keys, Repaired(g, s)) && Lists(keys', Stubbed(keys, g, s))
  {
    var stubbed := Stubbed(keys, g, s);
    var final := Final(s, keys', stubbed);
    && (Convergence.Separates(s.h, stubbed) && Kinship.NoKinAdvises(s.h, stubbed) ==> I1(final))
    && (Convergence.Separates(s.h, stubbed) && Kinship.NeverCloses(Kinship.KinStep(s.h, stubbed)) ==> I2(final))
    && (Convergence.Separates(s.h, stubbed) && WinnersDiffer(s, keys', stubbed) ==> I3(final))
    && (Everywhere(g, Provenanced()) ==> I4(final))
    && (Aliases.Canonical(g) ==> Aliases.Canonical(final))
    && (Aliases.Canonical(g) && NeverEmpty(s.h) ==> I6(final))
    && (Convergence.TellsApart(s.h, stubbed) ==> OneFormPerId(final))
  }

  /** What else the build promises of the final graph under conditions on what it starts from. */
  ghost predicate Promises(s: Settings, keys: seq<Key>, g: Graph, keys': seq<Key>)
    requires AliasMerge.AllIn(keys, Repaired(g, s)) && Lists(keys', Stubbed(keys, g, s))
  {
    var stubbed := Stubbed(keys, g, s);
    && KeepsGate(s, keys, g, keys')
    && (Convergence.Separates(s.h, stubbed) ==> NothingReturns(s, keys, g, keys'))
    && (Everywhere(g, CuratedIffVerified()) ==> AssertionsLast(s, keys, g, keys'))
    && (Convergence.Separates(s.h, stubbed) && Everywhere(g, CuratedIffVerified()) ==>
          AffirmsWhatWins(s, keys', stubbed))
    && (s.noMgp ==> Everywhere(Final(s, keys', stubbed), NotMgp()))
  }

  lemma {:induction false} NothingReturnsAtTheEnd(s: Settings, keys: seq<Key>, g: Graph, keys': seq<Key>)
    requires AliasMerge.AllIn(keys, Repaired(g, s)) && Lists(keys', Stubbed(keys, g, s))
    requires Convergence.Separates(s.h, Stubbed(keys, g, s))
    ensures NothingReturns(s, keys, g, keys')
  {
    forall k, c | k in Final(s, keys', Stubbed(keys, g, s)) && MatesPassed(Escapes(c), keys, g, s, k)
      ensures AllPass(Escapes(c), Final(s, keys', Stubbed(keys, g, s))[k])
    {
      EscapesIsStable(c);
      FinalTest(Escapes(c), keys, g, s, keys', k);
    }
  }

  lemma {:induction false} AssertionsLastToTheEnd(s: Settings, keys: seq<Key>, g: Graph, keys': seq<Key>)
    requires AliasMerge.AllIn(keys, Repaired(g, s)) && Lists(keys', Stubbed(keys, g, s))
    requires Everywhere(g, CuratedIffVerified())
    ensures AssertionsLast(s, keys, g, keys')
  {
    forall k, x, c: Corrections.Correction |
      k in Final(s, keys', Stubbed(keys, g, s)) && LetThrough(s, keys, g, keys', k, x, c)
      ensures Affirmed(AdvisorsOf(Final(s, keys', Stubbed(keys, g, s))[k]), c)
           || AdvisorErased(AliasMerge.SettledGraph(s.h, AliasMerge.Before, keys', Stubbed(keys, g, s)), s.requests, k,
                            c)
    {
      if c.qid.Some? {
        QidUncontested(keys, g, s, keys', k, c);
      }
      FinalAffirms(keys, g, s, keys', k, x, c);
    }
  }

  lemma {:induction false} AffirmsWhatWinsAtTheEnd(s: Settings, keys: seq<Key>, stubbed: Graph)
    requires Lists(keys, stubbed) && Convergence.Separates(s.h, stubbed) && Everywhere(stubbed, CuratedIffVerified())
    ensures AffirmsWhatWins(s, keys, stubbed)
  {
    forall k, c | k in Final(s, keys, stubbed)
      ensures AffirmsAsItStands(s, keys, stubbed, k, c)
    {
      FinalAffirmsIff(s, keys, stubbed, k, c);
    }
  }

  lemma {:induction false} GateIsKept(s: Settings, keys: seq<Key>, g: Graph, keys': seq<Key>)
    requires AliasMerge.AllIn(keys, Repaired(g, s)) && Lists(keys', Stubbed(keys, g, s))
    ensures KeepsGate(s, keys, g, keys')
  {
    var stubbed := Stubbed(keys, g, s);
    if Convergence.Separates(s.h, stubbed) {
      if Kinship.NoKinAdvises(s.h, stubbed) {
        NoLoopAtTheEnd(s, keys', stubbed);
      }
      if Kinship.NeverCloses(Kinship.KinStep(s.h, stubbed)) {
        NoCycleAtTheEnd(s, keys', stubbed);
      }
      if WinnersDiffer(s, keys', stubbed) {
        NoDuplicateAtTheEnd(s, keys', stubbed);
      }
    }
    if Everywhere(g, Provenanced()) {
      ProvenanceToTheEnd(g, s, keys, keys');
    }
    if Aliases.Canonical(g) {
      CanonicalToTheEnd(g, s, keys, keys');
      if NeverEmpty(s.h) {
        IdentifiedAtTheEnd(s, keys', stubbed);
      }
    }
    if Convergence.TellsApart(s.h, stubbed) {
      OneFormAtTheEnd(s, keys', stubbed);
    }
  }

  lemma {:induction false} AllPromises(s: Settings, keys: seq<Key>, g: Graph, keys': seq<Key>)
    requires AliasMerge.AllIn(keys, Repaired(g, s)) && Lists(keys', Stubbed(keys, g, s))
    ensures Promises(s, keys, g, keys')
  {
    var stubbed := Stubbed(keys, g, s);
    GateIsKept(s, keys, g, keys');
    if Convergence.Separates(s.h, stubbed) {
      NothingReturnsAtTheEnd(s, keys, g, keys');
    }
    if Everywhere(g, CuratedIffVerified()) {
      AssertionsLastToTheEnd(s, keys, g, keys');
      if Convergence.Separates(s.h, stubbed) {
        CuratedCarries(keys, g, s);
        AffirmsWhatWinsAtTheEnd(s, keys', stubbed);
      }
    }
    if s.noMgp {
      NoMgpToTheEnd(g, s, keys, keys');
    }
  }
}

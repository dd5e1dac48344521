/** Assertions that the ledger accepts and that do not hold at the end. */
module Dislodged {
  import opened Names
  import opened Options
  import opened Edges
  import opened Filters
  import opened Records
  import opened Stages
  import opened Suppression
  import opened Adjudication
  import opened Pipeline
  import AliasMerge
  import Convergence
  import Corrections
  import EdgeIntegrity
  import Kinship
  import MapImages
  import Retraction
  import Stubs
  import Vetting

  // ---- By a homonym that stands first ----

  function NotCurated(): EdgeTest {
    (e: Edge) => !Locked(e)
  }

  lemma {:induction false} NotCuratedIsStable()
    ensures Stable(NotCurated())
  {
    forall e, tier | NotCurated()(e)
      ensures NotCurated()(Vetting.Vet(e, tier))
    {
      Vetting.VetKeepsClaim(e, tier);
    }
  }

  /** A student with an automated edge to a homonym of the advisor. */
  function HomonymFirst(): Graph {
    map[Plain(["student"]) :=
        Record(map["CanonicalLatin" := Text("Student")], Some([EdgeIntegrity.Homonym("Q1")]), None, [], None)]
  }

  function AssertOther(): Corrections.Correction {
    Corrections.Correction(
      Corrections.Assert, Plain(["student"]), Plain(["advisor"]), Some("Q2"), None, "doctoral", map[])
  }

  lemma {:induction false} OtherIsAppended()
    ensures Corrections.OutcomeOf(HomonymFirst(), AssertOther()) == Corrections.Asserted
    ensures Corrections.Correct(HomonymFirst(), AssertOther()).Keys == {Plain(["student"])}
    ensures AdvisorsOf(Corrections.Correct(HomonymFirst(), AssertOther())[Plain(["student"])])
         == [OnRecord(EdgeIntegrity.Homonym("Q1")), Opened(Corrections.CuratedEdge(AssertOther()))]
  {
    var slots, inc := [OnRecord(EdgeIntegrity.Homonym("Q1"))], Corrections.CuratedEdge(AssertOther());
    assert |Plain(["student"]).tokens| == 1;
    assert AllOnRecord([EdgeIntegrity.Homonym("Q1")]) == slots;
    Corrections.MergeOneIs([EdgeIntegrity.Homonym("Q1")], inc);
    assert "Q1"[1] != "Q2"[1];
    assert !SameAdvisor(slots[0], inc);
    assert MergeOne(slots, inc) == slots + [Opened(inc)];
  }

  lemma {:induction false} FirstOfTwoKept(judge: EdgeIntegrity.Judge, e: Edge, e': Edge)
    requires AdvisorKey(e) == AdvisorKey(e') && !Locked(e)
    ensures All(EdgeIntegrity.Kept(AdvisorKey, judge, [e, e']), NotCurated())
  {
    var kept := EdgeIntegrity.Kept(AdvisorKey, judge, [e, e']);
    EdgeIntegrity.AdvisorKeyIgnoresNotes();
    forall i | 0 <= i < |kept|
      ensures NotCurated()(kept[i])
    {
      var fact: EdgeIntegrity.Fact := (x: Edge) => Locked(x);
      if fact(kept[i]) {
        var m := EdgeIntegrity.KeptIsFirst(AdvisorKey, judge, [e, e'], fact, i);
        assert m == 1 ==> AdvisorKey([e, e'][0]) == AdvisorKey([e, e'][1]);
      }
    }
  }

  lemma {:induction false} BothNamed(e: Edge, e': Edge)
    requires Named(e) && Named(e')
    ensures NamedEdges([e, e']) == [e, e']
  {
    KeepFacts([e, e'], Named);
  }

  lemma {:induction false} OtherIsDropped()
    ensures var g := Corrections.Correct(HomonymFirst(), AssertOther());
            && Affirmed(AdvisorsOf(g[Plain(["student"])]), AssertOther())
            && Everywhere(EdgeIntegrity.CleanGraph(g), NotCurated())
  {
    var k, g := Plain(["student"]), Corrections.Correct(HomonymFirst(), AssertOther());
    var e, e' := OnRecord(EdgeIntegrity.Homonym("Q1")), Opened(Corrections.CuratedEdge(AssertOther()));
    OtherIsAppended();
    assert AffirmedBy(AdvisorsOf(g[k])[1], AssertOther());
    assert |Plain(["advisor"]).tokens| == 1;
    BothNamed(e, e');
    FirstOfTwoKept(EdgeIntegrity.JudgeIn(g, k), e, e');
    assert AdvisorsOf(EdgeIntegrity.CleanGraph(g)[k])
        == EdgeIntegrity.Kept(AdvisorKey, EdgeIntegrity.JudgeIn(g, k), [e, e']);
  }

  lemma {:induction false} CleanedKeeps(p: EdgeTest, keys: seq<Key>, g: Graph, s: Settings)
    requires Stable(p) && Everywhere(EdgeIntegrity.CleanGraph(Corrected(g, s)), p)
    requires AliasMerge.AllIn(keys, Repaired(g, s))
    ensures Everywhere(Stubbed(keys, g, s), p)
  {
    StageKeeps(p, EdgeIntegrity.CleanGraph(Corrected(g, s)), Vet(s.tierOf));
    StubsKeep(p, Repaired(g, s), Stubs.DisplaysOver(keys, Repaired(g, s), s.displayOf));
  }

  /** Asserted behind an automated homonym, the advisor is curated nowhere at the end. */
  lemma {:induction false} AssertionIsDislodged(s: Settings, keys: seq<Key>, keys': seq<Key>)
    requires s.ledger == [AssertOther()] && !s.noMgp
    requires AliasMerge.AllIn(keys, Repaired(HomonymFirst(), s)) && Lists(keys', Stubbed(keys, HomonymFirst(), s))
    ensures Corrections.OutcomeOf(HomonymFirst(), AssertOther()) == Corrections.Asserted
    ensures Plain(["student"]) in Corrected(HomonymFirst(), s)
    ensures Affirmed(AdvisorsOf(Corrected(HomonymFirst(), s)[Plain(["student"])]), AssertOther())
    ensures Everywhere(Final(s, keys', Stubbed(keys, HomonymFirst(), s)), NotCurated())
  {
    var g := HomonymFirst();
    assert s.ledger[..0] == [] && Corrections.CorrectAll(g, []) == g;
    assert Corrected(g, s) == Corrections.Correct(g, AssertOther());
    OtherIsAppended();
    OtherIsDropped();
    NotCuratedIsStable();
    CleanedKeeps(NotCurated(), keys, g, s);
    FinalKeeps(NotCurated(), s, keys', Stubbed(keys, g, s));
  }

  // ---- By another IdRef ----

  /** Two spellings of a student, with one automated edge each. */
  function OneAdvisor(): Graph {
    Kinship.Pair(Retraction.Spelling([EdgeIntegrity.Homonym("Q1")]), Retraction.Spelling([EdgeIntegrity.Homonym("Q1")]))
  }

  function AssertRef(student: string, idref: string): Corrections.Correction {
    Corrections.Correction(
      Corrections.Assert, Plain([student]), Plain(["advisor"]), None, Some(idref), "doctoral", map[])
  }

  /** The automated edge, curated under the IdRef. */
  function Minted(c: Corrections.Correction): Edge {
    Absorb(OnRecord(EdgeIntegrity.Homonym("Q1")), Corrections.CuratedEdge(c))
  }

  lemma {:induction false} RefIsMinted(student: string, idref: string)
    ensures var c := AssertRef(student, idref);
            && AffirmedBy(Minted(c), c) && Minted(c).qid == Some("Q1") && Minted(c).name == Plain(["advisor"])
            && MergedEdges([EdgeIntegrity.Homonym("Q1")], [Corrections.CuratedEdge(c)]) == [Minted(c)]
  {
    var e, inc := EdgeIntegrity.Homonym("Q1"), Corrections.CuratedEdge(AssertRef(student, idref));
    assert |Plain(["advisor"]).tokens| == 1;
    assert SameAdvisor(OnRecord(e), inc);
    Retraction.OneClaim(e, inc);
    assert Overrides(OnRecord(e), inc);
  }

  lemma {:induction false} RefIsAsserted(g: Graph, student: string, idref: string)
    requires Plain([student]) in g && g[Plain([student])] == Retraction.Spelling([EdgeIntegrity.Homonym("Q1")])
    ensures var c := AssertRef(student, idref);
            && Corrections.OutcomeOf(g, c) == Corrections.Asserted
            && Corrections.Correct(g, c) == g[Plain([student]) := Retraction.Spelling([Minted(c)])]
  {
    assert |Plain([student]).tokens| == 1;
    assert NormalizeKey(Plain([student])) == Plain([student]);
    RefIsMinted(student, idref);
  }

  function BothAsserted(): Graph {
    Kinship.Pair(Retraction.Spelling([Minted(AssertRef("a", "new"))]),
                 Retraction.Spelling([Minted(AssertRef("bb", "old"))]))
  }

  lemma {:induction false} BothAreAsserted()
    ensures Corrections.OutcomeOf(OneAdvisor(), AssertRef("a", "new")) == Corrections.Asserted
    ensures var g := Corrections.Correct(OneAdvisor(), AssertRef("a", "new"));
            && Corrections.OutcomeOf(g, AssertRef("bb", "old")) == Corrections.Asserted
            && Corrections.Correct(g, AssertRef("bb", "old")) == BothAsserted()
  {
    var r := Retraction.Spelling([EdgeIntegrity.Homonym("Q1")]);
    Kinship.PairIs(r, r);
    RefIsAsserted(OneAdvisor(), "a", "new");
    RefIsAsserted(Corrections.Correct(OneAdvisor(), AssertRef("a", "new")), "bb", "old");
  }

  lemma {:induction false} SoleEdgePasses(g: Graph, k: Key, e: Edge, c: Corrections.Correction)
    requires k in g && AdvisorsOf(g[k]) == [e] && Named(e) && AffirmedBy(e, c)
    requires AdvisorKey(e) != k && AdvisorKey(e) !in g
    ensures PassesIntegrity(g, k, c)
  {
    KeepFacts([e], Named);
    assert NamedEdges([e]) == [e];
    assert EdgeIntegrity.Passes(AdvisorKey, EdgeIntegrity.JudgeIn(g, k), [e], 0);
  }

  lemma {:induction false} BothPass()
    ensures PassesIntegrity(BothAsserted(), Plain(["a"]), AssertRef("a", "new"))
    ensures PassesIntegrity(BothAsserted(), Plain(["bb"]), AssertRef("bb", "old"))
  {
    var c, c' := AssertRef("a", "new"), AssertRef("bb", "old");
    assert |Plain(["a"]).tokens[0]| == 1 && |Plain(["bb"]).tokens[0]| == 2 && |Plain(["advisor"]).tokens[0]| == 7;
    assert |Plain(["advisor"]).tokens| == 1;
    Kinship.PairIs(Retraction.Spelling([Minted(c)]), Retraction.Spelling([Minted(c')]));
    RefIsMinted("a", "new");
    RefIsMinted("bb", "old");
    SoleEdgePasses(BothAsserted(), Plain(["a"]), Minted(c), c);
    SoleEdgePasses(BothAsserted(), Plain(["bb"]), Minted(c'), c');
  }

  // ---- One edge stays one ----

  function BearsQ1(): EdgeTest {
    (e: Edge) => e.qid == Some("Q1")
  }

  lemma {:induction false} BearsQ1IsStable()
    ensures Stable(BearsQ1())
  {
    forall e, tier | BearsQ1()(e)
      ensures BearsQ1()(Vetting.Vet(e, tier))
    {
      Vetting.VetKeepsClaim(e, tier);
    }
  }

  /** The record lists at most one advisor, under the QID. */
  ghost predicate Sole(r: Record) {
    |AdvisorsOf(r)| <= 1 && All(AdvisorsOf(r), BearsQ1())
  }

  ghost predicate AllSole(g: Graph) {
    forall k :: k in g ==> Sole(g[k])
  }

  lemma {:induction false} UniteSole(mine: Record, other: Record)
    requires Sole(mine) && Sole(other)
    ensures Sole(AliasMerge.Unite(mine, other))
  {
    var edges, incoming := AdvisorsOf(mine), AdvisorsOf(other);
    BearsQ1IsStable();
    MergedEdgesKeep(BearsQ1(), edges, incoming);
    if |incoming| == 1 {
      var inc := incoming[0];
      assert incoming == [inc];
      Corrections.MergeOneIs(edges, inc);
      assert BearsQ1()(inc);
      if |edges| == 1 {
        assert BearsQ1()(edges[0]);
        assert SameAdvisor(AllOnRecord(edges)[0], inc);
      }
    }
  }

  lemma {:induction false} UniteAllSole(g: Graph, ordered: seq<Key>)
    requires AllSole(g) && ordered != [] && AliasMerge.AllIn(ordered, g)
    ensures Sole(AliasMerge.UniteAll(g, ordered))
  {
    if |ordered| > 1 {
      var n := |ordered| - 1;
      UniteAllSole(g, ordered[..n]);
      UniteSole(AliasMerge.UniteAll(g, ordered[..n]), g[ordered[n]]);
    }
  }

  lemma {:induction false} PassSole(less: AliasMerge.Order, keys: seq<Key>, g: Graph)
    requires AllSole(g) && AliasMerge.AllIn(keys, g)
    ensures AllSole(AliasMerge.MergePass(less, keys, g))
  {
    forall k | k in g
      ensures Sole(AliasMerge.MergePass(less, keys, g)[k])
    {
      if g[k].gid.Some? && AliasMerge.Unites(keys, g, g[k].gid.value) {
        var ordered := AliasMerge.UnitedOrder(less, keys, g, g[k].gid.value);
        UniteAllSole(g, ordered);
      }
    }
  }

  lemma {:induction false} AssignedSole(h: AliasMerge.IdFunction, g: Graph)
    requires AllSole(g)
    ensures AllSole(AliasMerge.AssignIds(h, g))
  {
    assert forall k :: k in g ==> AdvisorsOf(AliasMerge.AssignIds(h, g)[k]) == AdvisorsOf(g[k]);
  }

  lemma {:induction false} SettledSole(h: AliasMerge.IdFunction, less: AliasMerge.Order, keys: seq<Key>, g: Graph)
    requires AllSole(g) && Lists(keys, g)
    ensures AllSole(AliasMerge.SettledGraph(h, less, keys, g))
    decreases MapImages.Distinct(g)
  {
    var a := AliasMerge.AssignIds(h, g);
    AliasMerge.AssignIdsShrinks(h, g);
    AliasMerge.MergePassShrinks(less, keys, a);
    AliasMerge.SameKeysListed(keys, g, a);
    AssignedSole(h, g);
    if AliasMerge.PassChanges(keys, a) {
      PassSole(less, keys, a);
      SettledSole(h, less, keys, AliasMerge.MergePass(less, keys, a));
    }
  }

  lemma {:induction false} ScrubSole(r: Record, names: set<Key>)
    requires Sole(r)
    ensures Sole(Scrub(r, names))
  {
    ScrubEdges(r, names);
    KeptPasses(AdvisorsOf(r), NotAmong(names));
  }

  /** So no record affirms two IdRefs at the end. */
  lemma {:induction false} FinalSole(s: Settings, keys: seq<Key>, stubbed: Graph, k: Key)
    requires Lists(keys, stubbed) && AllSole(stubbed) && k in Final(s, keys, stubbed)
    ensures Sole(Final(s, keys, stubbed)[k])
  {
    var settled := AliasMerge.SettledGraph(s.h, AliasMerge.Before, keys, stubbed);
    SettledSole(s.h, AliasMerge.Before, keys, stubbed);
    SurvivorsAreClear(settled, s.requests, k);
    ScrubSole(settled[k], SuppressedKeys(settled, s.requests));
  }

  lemma {:induction false} CleanedSole(judge: EdgeIntegrity.Judge, edges: seq<Edge>)
    requires |edges| <= 1
    ensures |EdgeIntegrity.Kept(AdvisorKey, judge, edges)| <= 1
  {
    if edges != [] {
      assert EdgeIntegrity.Kept(AdvisorKey, judge, edges[..0]) == [];
    }
  }

  lemma {:induction false} RepairedCount(keys: seq<Key>, g: Graph, s: Settings, k: Key)
    requires AliasMerge.AllIn(keys, Repaired(g, s)) && AllSole(Corrected(g, s)) && k in Corrected(g, s)
    ensures k in Repaired(g, s) && |AdvisorsOf(Repaired(g, s)[k])| <= 1
  {
    var corrected := Corrected(g, s);
    CleanedSole(EdgeIntegrity.JudgeIn(corrected, k), NamedEdges(AdvisorsOf(corrected[k])));
    assert |AdvisorsOf(EdgeIntegrity.CleanRecord(corrected, k, corrected[k]))| <= 1;
  }

  lemma {:induction false} StubbedSole(keys: seq<Key>, g: Graph, s: Settings, k: Key)
    requires AliasMerge.AllIn(keys, Repaired(g, s)) && AllSole(Corrected(g, s)) && k in Stubbed(keys, g, s)
    ensures Sole(Stubbed(keys, g, s)[k])
  {
    RepairedKeys(g, s);
    BearsQ1IsStable();
    StubbedTest(BearsQ1(), keys, g, s, k);
    if k in Repaired(g, s) {
      RepairedCount(keys, g, s, k);
    }
  }

  // ---- Two assertions, one record ----

  lemma {:induction false} NotBoth(r: Record)
    requires Sole(r)
    ensures !(Affirmed(AdvisorsOf(r), AssertRef("a", "new")) && Affirmed(AdvisorsOf(r), AssertRef("bb", "old")))
  {
    assert "new"[0] != "old"[0];
  }

  /** Two records with one form and no dates. */
  ghost predicate Namesakes(g: Graph, k: Key, k': Key) {
    k in g && k' in g && g[k].fields == g[k'].fields == map["CanonicalLatin" := Text("X")]
  }

  lemma {:induction false} SettledAsOne(h: AliasMerge.IdFunction, less: AliasMerge.Order, keys: seq<Key>, g: Graph,
                                        k: Key, k': Key)
    requires Lists(keys, g) && Convergence.TellsApart(h, g) && h(Text("X"), Null, Null) != "" && Namesakes(g, k, k')
    ensures k in AliasMerge.SettledGraph(h, less, keys, g) && k' in AliasMerge.SettledGraph(h, less, keys, g)
    ensures AliasMerge.SettledGraph(h, less, keys, g)[k] == AliasMerge.SettledGraph(h, less, keys, g)[k']
  {
    var id := Some(h(Text("X"), Null, Null));
    assert AliasMerge.IdOf(h, g[k]) == id.value && AliasMerge.IdOf(h, g[k']) == id.value;
    Convergence.SettledKeepsBasis(h, less, keys, g, k);
    Convergence.SettledKeepsBasis(h, less, keys, g, k');
    Convergence.NothingCollides(h, less, keys, g);
    AliasMerge.SettledFacts(h, less, keys, g);
    assert !AliasMerge.Collides(AliasMerge.SettledGraph(h, less, keys, g), id);
  }

  lemma {:induction false} EndAsOne(s: Settings, keys: seq<Key>, stubbed: Graph, k: Key, k': Key)
    requires Lists(keys, stubbed) && Convergence.TellsApart(s.h, stubbed) && s.h(Text("X"), Null, Null) != ""
    requires Namesakes(stubbed, k, k') && k in Final(s, keys, stubbed) && k' in Final(s, keys, stubbed)
    ensures Final(s, keys, stubbed)[k] == Final(s, keys, stubbed)[k']
  {
    var settled := AliasMerge.SettledGraph(s.h, AliasMerge.Before, keys, stubbed);
    SettledAsOne(s.h, AliasMerge.Before, keys, stubbed, k, k');
    SurvivorsAreClear(settled, s.requests, k);
    SurvivorsAreClear(settled, s.requests, k');
  }

  lemma {:induction false} BothCorrected(s: Settings)
    requires s.ledger == [AssertRef("a", "new"), AssertRef("bb", "old")] && !s.noMgp
    ensures Corrected(OneAdvisor(), s) == BothAsserted()
  {
    var g := OneAdvisor();
    BothAreAsserted();
    assert s.ledger[..0] == [] && s.ledger[..1] == [AssertRef("a", "new")];
    CorrectSnoc(g, s.ledger, 0);
    CorrectSnoc(g, s.ledger, 1);
    assert s.ledger[..2] == s.ledger;
  }

  lemma {:induction false} BothSole()
    ensures AllSole(BothAsserted())
  {
    var c, c' := AssertRef("a", "new"), AssertRef("bb", "old");
    Kinship.PairIs(Retraction.Spelling([Minted(c)]), Retraction.Spelling([Minted(c')]));
    RefIsMinted("a", "new");
    RefIsMinted("bb", "old");
  }

  lemma {:induction false} NamesakesStay(keys: seq<Key>, g: Graph, s: Settings, k: Key, k': Key)
    requires AliasMerge.AllIn(keys, Repaired(g, s)) && Namesakes(g, k, k')
    ensures Namesakes(Stubbed(keys, g, s), k, k')
  {
    RepairedFields(g, s, k);
    RepairedFields(g, s, k');
    assert forall x :: x in Repaired(g, s) ==> x in Stubbed(keys, g, s) && Stubbed(keys, g, s)[x] == Repaired(g, s)[x];
  }

  /** Two spellings, each with an accepted assertion of the same advisor by another IdRef.  Both pass integrity; the
      spellings end as one record, and one of the IdRefs is gone. */
  lemma {:induction false} IdRefIsDislodged(s: Settings, keys: seq<Key>, keys': seq<Key>)
    requires s.ledger == [AssertRef("a", "new"), AssertRef("bb", "old")] && !s.noMgp
    requires AliasMerge.AllIn(keys, Repaired(OneAdvisor(), s)) && Lists(keys', Stubbed(keys, OneAdvisor(), s))
    requires Convergence.TellsApart(s.h, Stubbed(keys, OneAdvisor(), s)) && s.h(Text("X"), Null, Null) != ""
    ensures Corrections.OutcomeOf(OneAdvisor(), s.ledger[0]) == Corrections.Asserted
    ensures Corrections.OutcomeOf(Corrections.Correct(OneAdvisor(), s.ledger[0]), s.ledger[1]) == Corrections.Asserted
    ensures var corrected, final := Corrected(OneAdvisor(), s), Final(s, keys', Stubbed(keys, OneAdvisor(), s));
            var a, b := Plain(["a"]), Plain(["bb"]);
            && a in corrected && PassesIntegrity(corrected, a, s.ledger[0])
            && b in corrected && PassesIntegrity(corrected, b, s.ledger[1])
            && (a in final && b in final ==>
                  final[a] == final[b]
                  && !(Affirmed(AdvisorsOf(final[a]), s.ledger[0]) && Affirmed(AdvisorsOf(final[b]), s.ledger[1])))
  {
    var g, a, b := OneAdvisor(), Plain(["a"]), Plain(["bb"]);
    var stubbed := Stubbed(keys, g, s);
    BothAreAsserted();
    BothCorrected(s);
    BothPass();
    BothSole();
    forall k | k in stubbed
      ensures Sole(stubbed[k])
    {
      StubbedSole(keys, g, s, k);
    }
    if a in Final(s, keys', stubbed) && b in Final(s, keys', stubbed) {
      NamesakesStay(keys, g, s, a, b);
      EndAsOne(s, keys', stubbed, a, b);
      FinalSole(s, keys', stubbed, a);
      NotBoth(Final(s, keys', stubbed)[a]);
    }
  }
}

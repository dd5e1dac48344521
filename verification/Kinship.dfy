/** What the alias loop can do to edges that the integrity pass has already cleared.  Spellings that were different
    persons to that pass become one, so a reference between them becomes a self-loop, and one advisor that two
    spellings list under different QIDs is listed twice. */
module Kinship {
  import opened Names
  import opened Options
  import opened Edges
  import opened Filters
  import opened Records
  import opened Invariants
  import opened AliasMerge
  import opened Convergence
  import opened Retraction
  import opened Stages
  import opened UnionNames
  import CycleFinder
  import EdgeIntegrity

  /** The edge does not refer to `t`. */
  function Avoids(t: Key): EdgeTest {
    (e: Edge) => !(Named(e) && AdvisorKey(e) == t)
  }

  lemma {:induction false} AvoidsIs(r: Record, t: Key)
    ensures All(AdvisorsOf(r), Avoids(t)) <==> !Advises(r, t)
  {
    var edges := AdvisorsOf(r);
    if All(edges, Avoids(t)) {
      assert forall i :: 0 <= i < |edges| ==> Avoids(t)(edges[i]);
    }
  }

  lemma {:induction false} AvoidsIsStable(t: Key)
    ensures Stable(Avoids(t))
  {
    NameTestIsStable(Avoids(t), (name: Name) => !(name != NO_KEY && NormalizeKey(name) == t));
  }

  /** None of the records that end up as one with `k`'s refers to `t`. */
  ghost predicate NoMateAdvises(g: Graph, k: Key, t: Key) {
    forall k' :: Mates(g, k, k') ==> !Advises(g[k'], t)
  }

  lemma {:induction false} PassAvoids(less: Order, keys: seq<Key>, g: Graph, k: Key, t: Key)
    requires Lists(keys, g) && k in g && NoMateAdvises(g, k, t)
    ensures !Advises(MergePass(less, keys, g)[k], t)
  {
    AvoidsIsStable(t);
    forall k' | Mates(g, k, k')
      ensures All(AdvisorsOf(g[k']), Avoids(t))
    {
      AvoidsIs(g[k'], t);
    }
    PassTest(Avoids(t), less, keys, g, k);
    AvoidsIs(MergePass(less, keys, g)[k], t);
  }

  /** No record refers to a spelling of its own person. */
  ghost predicate NoKinAdvises(h: IdFunction, g: Graph) {
    forall k :: k in g ==> NoMateAdvises(AliasMerge.AssignIds(h, g), k, k)
  }

  /** If no record refers to a spelling of its own person, merging the spellings makes no self-loop. */
  lemma {:induction false} SettledKeepsI1(h: IdFunction, less: Order, keys: seq<Key>, g: Graph)
    requires Lists(keys, g) && Separates(h, g) && NoKinAdvises(h, g)
    ensures I1(SettledGraph(h, less, keys, g))
  {
    TwoPassesSuffice(h, less, keys, g);
    SameKeysListed(keys, g, AliasMerge.AssignIds(h, g));
    forall k | k in g
      ensures !Advises(SettledGraph(h, less, keys, g)[k], k)
    {
      PassAvoids(less, keys, AliasMerge.AssignIds(h, g), k, k);
    }
  }

  // ---- Cycles ----

  type Step = (Key, Key) -> bool

  ghost predicate ClosedBy(step: Step, p: seq<Key>) {
    |p| >= 2 && p[0] == p[|p| - 1] && forall i, j :: 0 <= i && j == i + 1 < |p| ==> step(p[i], p[j])
  }

  ghost predicate NeverCloses(step: Step) {
    !exists p: seq<Key> :: ClosedBy(step, p)
  }

  /** References between records are steps. */
  ghost predicate Bounds(step: Step, g: Graph) {
    forall k, t :: k in g && t in g && Advises(g[k], t) ==> step(k, t)
  }

  ghost predicate OnlyReferences(step: Step, g: Graph) {
    forall k, t :: step(k, t) ==> k in g && t in g && Advises(g[k], t)
  }

  lemma {:induction false} StepsBoundCycles(step: Step, g: Graph)
    ensures Bounds(step, g) && NeverCloses(step) ==> I2(g)
    ensures OnlyReferences(step, g) && I2(g) ==> NeverCloses(step)
  {
    forall p: seq<Key>
      ensures Bounds(step, g) && CycleFinder.ClosedWalk(Adjacency(g), p) ==> ClosedBy(step, p)
      ensures OnlyReferences(step, g) && ClosedBy(step, p) ==> CycleFinder.ClosedWalk(Adjacency(g), p)
    {
      forall i, j | 0 <= i && j == i + 1 < |p|
        ensures CycleFinder.Arc(Adjacency(g), p[i], p[j]) <==> p[i] in g && p[j] in g && Advises(g[p[i]], p[j])
      {
        ArcIs(g, p[i], p[j]);
      }
    }
  }

  /** Some spelling of `k`'s person refers to `t`. */
  ghost function KinStep(h: IdFunction, g: Graph): Step {
    (k, t) => k in g && t in g && !NoMateAdvises(AliasMerge.AssignIds(h, g), k, t)
  }

  /** If no walk of references closes when spellings of one person count as one, merging them makes no cycle. */
  lemma {:induction false} SettledKeepsI2(h: IdFunction, less: Order, keys: seq<Key>, g: Graph)
    requires Lists(keys, g) && Separates(h, g) && NeverCloses(KinStep(h, g))
    ensures I2(SettledGraph(h, less, keys, g))
  {
    var a := AliasMerge.AssignIds(h, g);
    TwoPassesSuffice(h, less, keys, g);
    SameKeysListed(keys, g, a);
    var settled := SettledGraph(h, less, keys, g);
    forall k, t | k in settled && t in settled && Advises(settled[k], t)
      ensures KinStep(h, g)(k, t)
    {
      if NoMateAdvises(a, k, t) {
        PassAvoids(less, keys, a, k, t);
      }
    }
    StepsBoundCycles(KinStep(h, g), settled);
  }

  // ---- Exactly when ----

  /** The names that win for `k` when the alias loop merges the spellings. */
  function WinningNames(h: IdFunction, less: Order, keys: seq<Key>, g: Graph, k: Key): seq<Name>
    requires AllIn(keys, g) && k in g
  {
    PassNames(less, keys, AliasMerge.AssignIds(h, g), k)
  }

  lemma {:induction false} SettledNamesAre(h: IdFunction, less: Order, keys: seq<Key>, g: Graph, k: Key)
    requires Lists(keys, g) && Separates(h, g) && k in g
    ensures k in SettledGraph(h, less, keys, g)
    ensures NamesOf(AdvisorsOf(SettledGraph(h, less, keys, g)[k])) == WinningNames(h, less, keys, g, k)
  {
    TwoPassesSuffice(h, less, keys, g);
    PassNamesAre(less, keys, AliasMerge.AssignIds(h, g), k);
  }

  /** There is no self-loop exactly if no name that wins for a record has its own key. */
  lemma {:induction false} SettledI1Iff(h: IdFunction, less: Order, keys: seq<Key>, g: Graph)
    requires Lists(keys, g) && Separates(h, g)
    ensures I1(SettledGraph(h, less, keys, g))
       <==> forall k :: k in g ==> !NamesKey(WinningNames(h, less, keys, g, k), k)
  {
    var settled := SettledGraph(h, less, keys, g);
    SettledFacts(h, less, keys, g);
    forall k | k in g
      ensures Advises(settled[k], k) <==> NamesKey(WinningNames(h, less, keys, g, k), k)
    {
      SettledNamesAre(h, less, keys, g, k);
      AdvisesByName(settled[k], k);
    }
  }

  /** No advisor is listed twice exactly if no two names that win for a record have one key. */
  lemma {:induction false} SettledI3Iff(h: IdFunction, less: Order, keys: seq<Key>, g: Graph)
    requires Lists(keys, g) && Separates(h, g)
    ensures I3(SettledGraph(h, less, keys, g)) <==> forall k :: k in g ==> KeysDiffer(WinningNames(h, less, keys, g, k))
  {
    var settled := SettledGraph(h, less, keys, g);
    SettledFacts(h, less, keys, g);
    forall k | k in g
      ensures EdgeIntegrity.DistinctKeys(AdvisorKey, NamedEdges(AdvisorsOf(settled[k])))
         <==> KeysDiffer(WinningNames(h, less, keys, g, k))
    {
      SettledNamesAre(h, less, keys, g, k);
      DistinctByName(AdvisorsOf(settled[k]));
    }
  }

  /** A name that wins for `k` has key `t`. */
  function WinningStep(h: IdFunction, less: Order, keys: seq<Key>, g: Graph): Step {
    (k, t) => AllIn(keys, g) && k in g && t in g && NamesKey(WinningNames(h, less, keys, g, k), t)
  }

  lemma {:induction false} SettledSteps(h: IdFunction, less: Order, keys: seq<Key>, g: Graph, k: Key, t: Key)
    requires Lists(keys, g) && Separates(h, g) && k in g && t in g
    ensures k in SettledGraph(h, less, keys, g)
    ensures Advises(SettledGraph(h, less, keys, g)[k], t) <==> WinningStep(h, less, keys, g)(k, t)
  {
    SettledNamesAre(h, less, keys, g, k);
    AdvisesByName(SettledGraph(h, less, keys, g)[k], t);
  }

  lemma {:induction false} AcyclicBySteps(step: Step, g: Graph)
    requires forall k, t :: step(k, t) ==> k in g && t in g
    requires forall k, t :: k in g && t in g ==> (Advises(g[k], t) <==> step(k, t))
    ensures I2(g) <==> NeverCloses(step)
  {
    StepsBoundCycles(step, g);
  }

  /** There is no cycle exactly if no walk along winning names closes. */
  lemma {:induction false} SettledI2Iff(h: IdFunction, less: Order, keys: seq<Key>, g: Graph)
    requires Lists(keys, g) && Separates(h, g)
    ensures I2(SettledGraph(h, less, keys, g)) <==> NeverCloses(WinningStep(h, less, keys, g))
  {
    var settled := SettledGraph(h, less, keys, g);
    SettledFacts(h, less, keys, g);
    forall k, t | k in g && t in g
      ensures Advises(settled[k], t) <==> WinningStep(h, less, keys, g)(k, t)
    {
      SettledSteps(h, less, keys, g, k, t);
    }
    AcyclicBySteps(WinningStep(h, less, keys, g), settled);
  }

  // ---- A self-loop and a duplicate that the loop makes ----

  function NamedAs(name: Name): EdgeTest {
    (e: Edge) => e.name == name
  }

  lemma {:induction false} NamedAsIsStable(name: Name)
    ensures Stable(NamedAs(name))
  {
    NameTestIsStable(NamedAs(name), (x: Name) => x == name);
  }

  function Teacher(name: string, qid: string): Edge {
    MakeEdge(Plain([name]), Some(qid), None, WikidataP184, None, "doctoral", None)
  }

  ghost predicate Cleared(g: Graph) {
    EdgeIntegrity.NoSelfLoops(g) && EdgeIntegrity.NoMutual(g) && EdgeIntegrity.NoDuplicates(g)
  }

  lemma {:induction false} OnlyTeacher(r: Record, name: string, qid: string, t: Key)
    requires AdvisorsOf(r) == [Teacher(name, qid)]
    ensures Advises(r, t) <==> t == Plain([name])
    ensures EdgeIntegrity.DistinctKeys(AdvisorKey, NamedEdges(AdvisorsOf(r)))
  {
    var edges := AdvisorsOf(r);
    assert |Plain([name]).tokens| == 1;
    assert edges[0] == Teacher(name, qid) && Named(edges[0]) && AdvisorKey(edges[0]) == Plain([name]);
    assert |NamedEdges(edges)| <= 1;
  }

  predicate BearsAs(e: Edge, name: Name, qid: string) {
    e.name == name && e.qid == Some(qid)
  }

  lemma {:induction false} KeptName(h: IdFunction, less: Order, keys: seq<Key>, g: Graph, k: Key, name: Name,
                                    qid: string)
    requires Lists(keys, g) && k in g && Everywhere(g, NamedAs(name))
    requires SomeList(SettledGraph(h, less, keys, g), {k}, qid)
    ensures k in SettledGraph(h, less, keys, g)
    ensures exists i :: 0 <= i < |AdvisorsOf(SettledGraph(h, less, keys, g)[k])|
              && BearsAs(AdvisorsOf(SettledGraph(h, less, keys, g)[k])[i], name, qid)
  {
    NamedAsIsStable(name);
    SettledKeeps(NamedAs(name), h, less, keys, g);
    SettledFacts(h, less, keys, g);
    var edges := AdvisorsOf(SettledGraph(h, less, keys, g)[k]);
    assert All(edges, NamedAs(name));
    var i :| 0 <= i < |edges| && Bearing(qid)(edges[i]);
    assert NamedAs(name)(edges[i]);
    assert BearsAs(edges[i], name, qid);
  }

  /** Two spellings. */
  function Pair(r: Record, r': Record): Graph {
    map[Plain(["a"]) := r, Plain(["bb"]) := r']
  }

  lemma {:induction false} PairIs(r: Record, r': Record)
    ensures Plain(["a"]) != Plain(["bb"]) && Lists([Plain(["a"]), Plain(["bb"])], Pair(r, r'))
    ensures Pair(r, r')[Plain(["a"])] == r && Pair(r, r')[Plain(["bb"])] == r'
    ensures forall k :: k in Pair(r, r') ==> Pair(r, r')[k] == r || Pair(r, r')[k] == r'
  {
    assert |Plain(["a"]).tokens[0]| == 1 && |Plain(["bb"]).tokens[0]| == 2;
    TwoListed(Pair(r, r'), Plain(["a"]), Plain(["bb"]));
  }

  lemma {:induction false} ClearedPair(r: Record, r': Record)
    requires !Advises(r, Plain(["a"])) && !Advises(r, Plain(["bb"])) && !Advises(r', Plain(["bb"]))
    requires EdgeIntegrity.DistinctKeys(AdvisorKey, NamedEdges(AdvisorsOf(r)))
    requires EdgeIntegrity.DistinctKeys(AdvisorKey, NamedEdges(AdvisorsOf(r')))
    ensures Cleared(Pair(r, r'))
  {
    PairIs(r, r');
  }

  /** All edges bear the name, and a spelling lists the QID, so any spelling ends up listing both. */
  lemma {:induction false} ShareNamed(h: IdFunction, less: Order, keys: seq<Key>, g: Graph, k: Key, k': Key,
                                      name: Name, qid: string)
    requires AllSpellings(g) && Lists(keys, g) && k in g && k' in g && h(Text("X"), Null, Null) != ""
    requires Everywhere(g, NamedAs(name)) && ListsQid(g[k'], qid)
    ensures k in SettledGraph(h, less, keys, g)
    ensures exists i :: 0 <= i < |AdvisorsOf(SettledGraph(h, less, keys, g)[k])|
              && BearsAs(AdvisorsOf(SettledGraph(h, less, keys, g)[k])[i], name, qid)
  {
    SpellingsShare(h, less, keys, g, k, k', qid);
    KeptName(h, less, keys, g, k, name, qid);
  }

  lemma {:induction false} BearerAdvises(r: Record, name: string, qid: string)
    requires exists i :: 0 <= i < |AdvisorsOf(r)| && BearsAs(AdvisorsOf(r)[i], Plain([name]), qid)
    ensures Advises(r, Plain([name]))
  {
    var edges := AdvisorsOf(r);
    var i :| 0 <= i < |edges| && BearsAs(edges[i], Plain([name]), qid);
    assert |Plain([name]).tokens| == 1;
    assert Named(edges[i]) && AdvisorKey(edges[i]) == Plain([name]);
  }

  function Referring(): Graph {
    Pair(Spelling([]), Spelling([Teacher("a", "Q1")]))
  }

  lemma {:induction false} ReferringIsCleared()
    ensures Cleared(Referring())
  {
    assert |Plain(["a"]).tokens[0]| == 1 && |Plain(["bb"]).tokens[0]| == 2;
    assert NamedEdges(AdvisorsOf(Spelling([]))) == [];
    OnlyTeacher(Spelling([Teacher("a", "Q1")]), "a", "Q1", Plain(["bb"]));
    ClearedPair(Spelling([]), Spelling([Teacher("a", "Q1")]));
  }

  lemma {:induction false} TeacherListed(name: string, qid: string)
    ensures ListsQid(Spelling([Teacher(name, qid)]), qid)
    ensures All(AdvisorsOf(Spelling([Teacher(name, qid)])), NamedAs(Plain([name])))
  {
    assert Bearing(qid)([Teacher(name, qid)][0]);
  }

  lemma {:induction false} LoopIsCycle(g: Graph, k: Key)
    requires k in g && Advises(g[k], k)
    ensures !I1(g) && !I2(g)
  {
    if I2(g) {
      AcyclicHasNoLoop(g);
    }
  }

  /** One spelling refers to the other: cleared, and a self-loop once they are one. */
  lemma {:induction false} MergeMakesSelfLoop(h: IdFunction, less: Order)
    requires h(Text("X"), Null, Null) != ""
    ensures var keys, g := [Plain(["a"]), Plain(["bb"])], Referring();
            Lists(keys, g) && Cleared(g) && !I1(SettledGraph(h, less, keys, g)) && !I2(SettledGraph(h, less, keys, g))
  {
    var a, b, g := Plain(["a"]), Plain(["bb"]), Referring();
    ReferringIsCleared();
    PairIs(Spelling([]), Spelling([Teacher("a", "Q1")]));
    TeacherListed("a", "Q1");
    ShareNamed(h, less, [a, b], g, a, b, a, "Q1");
    BearerAdvises(SettledGraph(h, less, [a, b], g)[a], "a", "Q1");
    LoopIsCycle(SettledGraph(h, less, [a, b], g), a);
  }

  function Doubling(): Graph {
    Pair(Spelling([Teacher("ccc", "Q1")]), Spelling([Teacher("ccc", "Q2")]))
  }

  lemma {:induction false} DoublingIsCleared()
    ensures Cleared(Doubling())
  {
    var r, r' := Spelling([Teacher("ccc", "Q1")]), Spelling([Teacher("ccc", "Q2")]);
    assert |Plain(["a"]).tokens[0]| == 1 && |Plain(["bb"]).tokens[0]| == 2 && |Plain(["ccc"]).tokens[0]| == 3;
    OnlyTeacher(r, "ccc", "Q1", Plain(["a"]));
    OnlyTeacher(r, "ccc", "Q1", Plain(["bb"]));
    OnlyTeacher(r', "ccc", "Q2", Plain(["bb"]));
    ClearedPair(r, r');
  }

  lemma {:induction false} TwiceListed(r: Record, c: Key)
    requires c == Plain(["ccc"])
    requires exists i :: 0 <= i < |AdvisorsOf(r)| && BearsAs(AdvisorsOf(r)[i], c, "Q1")
    requires exists i :: 0 <= i < |AdvisorsOf(r)| && BearsAs(AdvisorsOf(r)[i], c, "Q2")
    ensures !EdgeIntegrity.DistinctKeys(AdvisorKey, NamedEdges(AdvisorsOf(r)))
  {
    var edges, named := AdvisorsOf(r), NamedEdges(AdvisorsOf(r));
    var i :| 0 <= i < |edges| && BearsAs(edges[i], c, "Q1");
    var j :| 0 <= j < |edges| && BearsAs(edges[j], c, "Q2");
    assert "Q1"[1] != "Q2"[1];
    assert |c.tokens| == 1;
    KeepFacts(edges, Named);
    assert Named(edges[i]) && Named(edges[j]);
    assert edges[i] in named && edges[j] in named;
    var m :| 0 <= m < |named| && named[m] == edges[i];
    var n :| 0 <= n < |named| && named[n] == edges[j];
    assert AdvisorKey(named[m]) == AdvisorKey(named[n]) && m != n;
  }

  /** Two spellings list one advisor under two QIDs: cleared, and listed twice once they are one. */
  lemma {:induction false} MergeMakesDuplicate(h: IdFunction, less: Order)
    requires h(Text("X"), Null, Null) != ""
    ensures var keys, g := [Plain(["a"]), Plain(["bb"])], Doubling();
            Lists(keys, g) && Cleared(g) && !I3(SettledGraph(h, less, keys, g))
  {
    var a, b, c, g := Plain(["a"]), Plain(["bb"]), Plain(["ccc"]), Doubling();
    DoublingIsCleared();
    PairIs(Spelling([Teacher("ccc", "Q1")]), Spelling([Teacher("ccc", "Q2")]));
    TeacherListed("ccc", "Q1");
    TeacherListed("ccc", "Q2");
    ShareNamed(h, less, [a, b], g, a, a, c, "Q1");
    ShareNamed(h, less, [a, b], g, a, b, c, "Q2");
    TwiceListed(SettledGraph(h, less, [a, b], g)[a], c);
  }
}

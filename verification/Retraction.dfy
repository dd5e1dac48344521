/** Whether a retraction lasts.  The corrections run before spellings are merged, and a union takes up the edges of
    every spelling: a retracted advisor comes back from another spelling of the student that still lists it. */
module Retraction {
  import opened Names
  import opened Options
  import opened Edges
  import opened Records
  import opened Invariants
  import opened AliasMerge
  import opened Convergence
  import MapImages
  import Corrections
  import Stages
  import Vetting

  /** An edge of the record bears the QID. */
  ghost predicate ListsQid(r: Record, qid: string) {
    Has(AdvisorsOf(r), Bearing(qid))
  }

  /** The records of `k` and `k'` end up as one: a shared identifier that does not collide. */
  ghost predicate Mates(g: Graph, k: Key, k': Key) {
    k in g && k' in g && (k == k' || (HasId(g[k]) && g[k'].gid == g[k].gid && !Collides(g, g[k].gid)))
  }

  ghost predicate SomeMateLists(g: Graph, k: Key, qid: string) {
    exists k' :: Mates(g, k, k') && ListsQid(g[k'], qid)
  }

  lemma {:induction false} UnitedGroupAgrees(keys: seq<Key>, g: Graph, k: Key, id: string)
    requires Lists(keys, g) && k in g && g[k].gid == Some(id) && Unites(keys, g, id)
    ensures !Collides(g, Some(id))
  {
    var group := Group(keys, g, id);
    GroupIn(keys, g, id);
    forall x, y | x in g && y in g && g[x].gid == Some(id) && g[y].gid == Some(id)
      ensures Get(g[x], "CanonicalLatin") == Get(g[y], "CanonicalLatin")
    {
      assert x in keys && y in keys;
      MembersAgree(keys, g, id, x, y);
    }
  }

  /** Under an identifier that the pass leaves alone and that does not collide, all records are equal. */
  lemma {:induction false} UntouchedMatesEqual(keys: seq<Key>, g: Graph, k: Key, k': Key)
    requires Lists(keys, g) && Mates(g, k, k')
    requires g[k].gid.Some? ==> !Unites(keys, g, g[k].gid.value)
    ensures g[k] == g[k']
  {
    if k != k' {
      var id := g[k].gid.value;
      assert k in keys && k' in keys;
      NoCollisionOneForm(keys, g, id);
      assert |Group(keys, g, id)| < 2 || Uniform(Group(keys, g, id), g);
      MembersEqual(Group(keys, g, id), g, k, k');
    }
  }

  lemma {:induction false} UnitedQids(less: Order, keys: seq<Key>, g: Graph, k: Key, qid: string)
    requires Lists(keys, g) && k in g && g[k].gid.Some? && Unites(keys, g, g[k].gid.value)
    ensures ListsQid(UnitedRecord(less, keys, g, g[k].gid.value), qid) <==> SomeMateLists(g, k, qid)
  {
    var id := g[k].gid.value;
    var ordered := UnitedOrder(less, keys, g, id);
    UnitedGroupAgrees(keys, g, k, id);
    UniteAllQids(g, ordered, qid);
    if k' :| Mates(g, k, k') && ListsQid(g[k'], qid) {
      assert k' in keys && k' in ordered;
      var i :| 0 <= i < |ordered| && ordered[i] == k';
      assert Has(AdvisorsOf(g[ordered[i]]), Bearing(qid));
    }
    if i :| 0 <= i < |ordered| && Has(AdvisorsOf(g[ordered[i]]), Bearing(qid)) {
      assert ordered[i] in ordered;
      assert Mates(g, k, ordered[i]) && ListsQid(g[ordered[i]], qid);
    }
  }

  /** After a pass a record bears a QID exactly if a record it was united with does. */
  lemma {:induction false} PassQids(less: Order, keys: seq<Key>, g: Graph, k: Key, qid: string)
    requires Lists(keys, g) && k in g
    ensures ListsQid(MergePass(less, keys, g)[k], qid) <==> SomeMateLists(g, k, qid)
  {
    if g[k].gid.Some? && Unites(keys, g, g[k].gid.value) {
      UnitedQids(less, keys, g, k, qid);
    } else {
      forall k' | Mates(g, k, k')
        ensures g[k'] == g[k]
      {
        UntouchedMatesEqual(keys, g, k, k');
      }
      assert Mates(g, k, k);
    }
  }

  ghost predicate SomeList(g: Graph, names: set<Key>, qid: string) {
    exists x :: x in names && x in g && ListsQid(g[x], qid)
  }

  /** The keys whose records a pass unites with those of `names`. */
  ghost function MatesOf(g: Graph, names: set<Key>): set<Key> {
    set x, y | x in names && y in g && Mates(g, x, y) :: y
  }

  lemma {:induction false} PassQidsOf(less: Order, keys: seq<Key>, g: Graph, names: set<Key>, qid: string)
    requires Lists(keys, g)
    ensures SomeList(MergePass(less, keys, g), names, qid) <==> SomeList(g, MatesOf(g, names), qid)
  {
    var merged := MergePass(less, keys, g);
    if x :| x in names && x in merged && ListsQid(merged[x], qid) {
      PassQids(less, keys, g, x, qid);
      var y :| Mates(g, x, y) && ListsQid(g[y], qid);
      assert y in MatesOf(g, names);
    }
    if y :| y in MatesOf(g, names) && y in g && ListsQid(g[y], qid) {
      var x :| x in names && Mates(g, x, y);
      PassQids(less, keys, g, x, qid);
    }
  }

  lemma {:induction false} AssignedList(h: IdFunction, g: Graph, names: set<Key>, qid: string)
    ensures SomeList(AssignIds(h, g), names, qid) <==> SomeList(g, names, qid)
  {
    var a := AssignIds(h, g);
    assert forall x :: x in g ==> AdvisorsOf(a[x]) == AdvisorsOf(g[x]);
    if x :| x in names && x in g && ListsQid(g[x], qid) {
      assert ListsQid(a[x], qid);
    }
  }

  // ---- What holds of every edge ----

  ghost predicate AllPass(p: Stages.EdgeTest, r: Record) {
    Stages.All(AdvisorsOf(r), p)
  }

  /** The test holds of every edge of the records that end up as one with `k`'s. */
  ghost predicate MatesPass(p: Stages.EdgeTest, g: Graph, k: Key) {
    forall k' :: Mates(g, k, k') ==> AllPass(p, g[k'])
  }

  lemma {:induction false} UniteAllTest(p: Stages.EdgeTest, g: Graph, ordered: seq<Key>)
    requires Stages.Stable(p) && ordered != [] && AllIn(ordered, g)
    requires forall i :: 0 <= i < |ordered| ==> AllPass(p, g[ordered[i]])
    ensures AllPass(p, UniteAll(g, ordered))
  {
    if |ordered| > 1 {
      var n := |ordered| - 1;
      UniteAllTest(p, g, ordered[..n]);
      Stages.MergedEdgesKeep(p, AdvisorsOf(UniteAll(g, ordered[..n])), AdvisorsOf(g[ordered[n]]));
    }
  }

  /** A test that every stage keeps holds after a pass if it holds of the records that are united. */
  lemma {:induction false} PassTest(p: Stages.EdgeTest, less: Order, keys: seq<Key>, g: Graph, k: Key)
    requires Stages.Stable(p) && Lists(keys, g) && k in g && MatesPass(p, g, k)
    ensures AllPass(p, MergePass(less, keys, g)[k])
  {
    assert Mates(g, k, k);
    if g[k].gid.Some? && Unites(keys, g, g[k].gid.value) {
      var id := g[k].gid.value;
      var ordered := UnitedOrder(less, keys, g, id);
      UnitedGroupAgrees(keys, g, k, id);
      forall i | 0 <= i < |ordered|
        ensures AllPass(p, g[ordered[i]])
      {
        assert ordered[i] in ordered;
        assert Mates(g, k, ordered[i]);
      }
      UniteAllTest(p, g, ordered);
    }
  }

  /** The keys whose records go into what the alias loop leaves under `k`. */
  ghost function Contributors(h: IdFunction, less: Order, keys: seq<Key>, g: Graph, k: Key): set<Key>
    requires Lists(keys, g)
    decreases MapImages.Distinct(g)
  {
    var a := AssignIds(h, g);
    AssignIdsShrinks(h, g);
    MergePassShrinks(less, keys, a);
    if !PassChanges(keys, a) then {k}
    else MatesOf(a, Contributors(h, less, keys, MergePass(less, keys, a), k))
  }

  /** The alias loop leaves a QID in a record exactly if a record that goes into it bears it. */
  lemma {:induction false} SettledQids(h: IdFunction, less: Order, keys: seq<Key>, g: Graph, k: Key, qid: string)
    requires Lists(keys, g)
    ensures SomeList(SettledGraph(h, less, keys, g), {k}, qid)
       <==> SomeList(g, Contributors(h, less, keys, g, k), qid)
    decreases MapImages.Distinct(g)
  {
    var a := AssignIds(h, g);
    AssignIdsShrinks(h, g);
    MergePassShrinks(less, keys, a);
    SameKeysListed(keys, g, a);
    if PassChanges(keys, a) {
      var merged := MergePass(less, keys, a);
      SettledQids(h, less, keys, merged, k, qid);
      PassQidsOf(less, keys, a, Contributors(h, less, keys, merged, k), qid);
      AssignedList(h, g, Contributors(h, less, keys, g, k), qid);
    } else {
      AssignedList(h, g, {k}, qid);
    }
  }

  ghost predicate AllOfPass(p: Stages.EdgeTest, g: Graph, names: set<Key>) {
    forall x :: x in names && x in g ==> AllPass(p, g[x])
  }

  lemma {:induction false} PassTestOf(p: Stages.EdgeTest, less: Order, keys: seq<Key>, g: Graph, names: set<Key>)
    requires Stages.Stable(p) && Lists(keys, g) && AllOfPass(p, g, MatesOf(g, names))
    ensures AllOfPass(p, MergePass(less, keys, g), names)
  {
    forall x | x in names && x in g
      ensures AllPass(p, MergePass(less, keys, g)[x])
    {
      forall y | Mates(g, x, y)
        ensures AllPass(p, g[y])
      {
        assert y in MatesOf(g, names);
      }
      PassTest(p, less, keys, g, x);
    }
  }

  lemma {:induction false} AssignedPass(p: Stages.EdgeTest, h: IdFunction, g: Graph, names: set<Key>)
    ensures AllOfPass(p, AssignIds(h, g), names) <==> AllOfPass(p, g, names)
  {
    assert forall x :: x in g ==> AdvisorsOf(AssignIds(h, g)[x]) == AdvisorsOf(g[x]);
  }

  /** After the alias loop it holds of a record if it holds of those that go into it. */
  lemma {:induction false} SettledTest(p: Stages.EdgeTest, h: IdFunction, less: Order, keys: seq<Key>, g: Graph, k: Key)
    requires Stages.Stable(p) && Lists(keys, g) && AllOfPass(p, g, Contributors(h, less, keys, g, k))
    ensures AllOfPass(p, SettledGraph(h, less, keys, g), {k})
    decreases MapImages.Distinct(g)
  {
    var a := AssignIds(h, g);
    AssignIdsShrinks(h, g);
    MergePassShrinks(less, keys, a);
    SameKeysListed(keys, g, a);
    AssignedPass(p, h, g, Contributors(h, less, keys, g, k));
    if PassChanges(keys, a) {
      var merged := MergePass(less, keys, a);
      PassTestOf(p, less, keys, a, Contributors(h, less, keys, merged, k));
      SettledTest(p, h, less, keys, merged, k);
    }
  }

  /** If identifiers tell dates apart, these are the records with the identifier of the student's. */
  lemma {:induction false} SettledTestIf(p: Stages.EdgeTest, h: IdFunction, less: Order, keys: seq<Key>, g: Graph,
                                         k: Key)
    requires Stages.Stable(p) && Lists(keys, g) && k in g && Separates(h, g) && MatesPass(p, AssignIds(h, g), k)
    ensures k in SettledGraph(h, less, keys, g) && AllPass(p, SettledGraph(h, less, keys, g)[k])
  {
    TwoPassesSuffice(h, less, keys, g);
    SameKeysListed(keys, g, AssignIds(h, g));
    PassTest(p, less, keys, AssignIds(h, g), k);
  }

  /** If identifiers tell dates apart: exactly if some record with the identifier of the student's does. */
  lemma {:induction false} SettledQidsIff(h: IdFunction, less: Order, keys: seq<Key>, g: Graph, k: Key, qid: string)
    requires Lists(keys, g) && k in g && Separates(h, g)
    ensures SettledGraph(h, less, keys, g).Keys == g.Keys
    ensures ListsQid(SettledGraph(h, less, keys, g)[k], qid) <==> SomeMateLists(AssignIds(h, g), k, qid)
  {
    TwoPassesSuffice(h, less, keys, g);
    SameKeysListed(keys, g, AssignIds(h, g));
    PassQids(less, keys, AssignIds(h, g), k, qid);
  }

  // ---- What becomes of a retraction ----

  lemma {:induction false} RetractedQidIsGone(g: Graph, c: Corrections.Correction)
    requires Corrections.Matched(g, c) && c.action == Corrections.Retract && c.qid.Some?
    ensures var g', k := Corrections.Correct(g, c), NormalizeKey(c.student);
            && g'.Keys == g.Keys && !ListsQid(g'[k], c.qid.value)
            && forall x :: x in g && x != k ==> g'[x] == g[x]
  {
    var k := NormalizeKey(c.student);
    var edges := AdvisorsOf(Corrections.Correct(g, c)[k]);
    forall i | 0 <= i < |edges|
      ensures !Bearing(c.qid.value)(edges[i])
    {
      Corrections.RetractionHolds(g, c, i);
    }
  }

  function NotBearing(qid: string): Stages.EdgeTest {
    (e: Edge) => e.qid != Some(qid)
  }

  lemma {:induction false} NotBearingIs(r: Record, qid: string)
    ensures AllPass(NotBearing(qid), r) <==> !ListsQid(r, qid)
  {
    var edges := AdvisorsOf(r);
    if i :| 0 <= i < |edges| && !NotBearing(qid)(edges[i]) {
      assert Bearing(qid)(edges[i]);
    }
    if i :| 0 <= i < |edges| && Bearing(qid)(edges[i]) {
      assert !NotBearing(qid)(edges[i]);
    }
  }

  lemma {:induction false} NotBearingIsStable(qid: string)
    ensures Stages.Stable(NotBearing(qid))
  {
    forall cur, inc | NotBearing(qid)(cur) && NotBearing(qid)(inc)
      ensures NotBearing(qid)(Absorb(cur, inc))
    {
      assert Absorb(cur, inc).qid == OrElse(cur.qid, inc.qid);
    }
    forall e, tier | NotBearing(qid)(e)
      ensures NotBearing(qid)(Vetting.Vet(e, tier))
    {
      Vetting.VetKeepsClaim(e, tier);
    }
  }

  function NotHolding(idref: string): Stages.EdgeTest {
    (e: Edge) => e.idref != Some(idref)
  }

  lemma {:induction false} NotHoldingIsStable(idref: string)
    ensures Stages.Stable(NotHolding(idref))
  {
    forall cur, inc | NotHolding(idref)(cur) && NotHolding(idref)(inc)
      ensures NotHolding(idref)(Absorb(cur, inc))
    {
      assert Absorb(cur, inc).idref == OrElse(cur.idref, inc.idref)
          || Absorb(cur, inc).idref == OrElse(inc.idref, cur.idref);
    }
    forall e, tier | NotHolding(idref)(e)
      ensures NotHolding(idref)(Vetting.Vet(e, tier))
    {
      Vetting.VetKeepsClaim(e, tier);
    }
  }

  function NotKeyed(t: Key): Stages.EdgeTest {
    (e: Edge) => t == NO_KEY || NormalizeKey(e.name) != t
  }

  lemma {:induction false} NotKeyedIsStable(t: Key)
    ensures Stages.Stable(NotKeyed(t))
  {
    Stages.NameTestIsStable(NotKeyed(t), (name: Name) => t == NO_KEY || NormalizeKey(name) != t);
  }

  /** The edge does not bear what the entry identifies its advisor by: the QID, else the IdRef, else the name. */
  function Escapes(c: Corrections.Correction): Stages.EdgeTest {
    if c.qid.Some? then NotBearing(c.qid.value)
    else if c.idref.Some? then NotHolding(c.idref.value)
    else NotKeyed(NormalizeKey(c.advisor))
  }

  lemma {:induction false} EscapesIsStable(c: Corrections.Correction)
    ensures Stages.Stable(Escapes(c))
  {
    if c.qid.Some? {
      NotBearingIsStable(c.qid.value);
    } else if c.idref.Some? {
      NotHoldingIsStable(c.idref.value);
    } else {
      NotKeyedIsStable(NormalizeKey(c.advisor));
    }
  }

  lemma {:induction false} OtherAdvisorEscapes(e: Edge, c: Corrections.Correction)
    requires !SameAdvisor(e, Corrections.Probe(c))
    ensures Escapes(c)(e)
  {
  }

  /** After a retraction the student lists nothing by that identification, and the other records are as they were. */
  lemma {:induction false} RetractedEscapes(g: Graph, c: Corrections.Correction)
    requires Corrections.Matched(g, c) && c.action == Corrections.Retract
    ensures var g', k := Corrections.Correct(g, c), NormalizeKey(c.student);
            g'.Keys == g.Keys && AllPass(Escapes(c), g'[k]) && forall x :: x in g && x != k ==> g'[x] == g[x]
  {
    var edges := AdvisorsOf(Corrections.Correct(g, c)[NormalizeKey(c.student)]);
    forall i | 0 <= i < |edges|
      ensures Escapes(c)(edges[i])
    {
      Corrections.RetractionHolds(g, c, i);
      OtherAdvisorEscapes(edges[i], c);
    }
  }

  /** Whatever identifies the retracted advisor, nothing by that identification comes back through the alias loop
      unless another spelling that goes into the student's record lists it. */
  lemma {:induction false} RetractionLasts(h: IdFunction, less: Order, keys: seq<Key>, g: Graph,
                                           c: Corrections.Correction)
    requires Corrections.Matched(g, c) && c.action == Corrections.Retract
    requires Lists(keys, Corrections.Correct(g, c))
    requires var g', k := Corrections.Correct(g, c), NormalizeKey(c.student);
             AllOfPass(Escapes(c), g, Contributors(h, less, keys, g', k) - {k})
    ensures var g', k := Corrections.Correct(g, c), NormalizeKey(c.student);
            AllOfPass(Escapes(c), SettledGraph(h, less, keys, g'), {k})
  {
    var g', k := Corrections.Correct(g, c), NormalizeKey(c.student);
    RetractedEscapes(g, c);
    EscapesIsStable(c);
    SettledTest(Escapes(c), h, less, keys, g', k);
  }

  /** A retraction by QID survives the alias loop exactly if no other spelling that goes into the student's record
      lists the QID: the retraction must name every one of them. */
  lemma {:induction false} RetractionLastsIff(h: IdFunction, less: Order, keys: seq<Key>, g: Graph,
                                              c: Corrections.Correction)
    requires Corrections.Matched(g, c) && c.action == Corrections.Retract && c.qid.Some?
    requires Lists(keys, Corrections.Correct(g, c))
    ensures var g', k := Corrections.Correct(g, c), NormalizeKey(c.student);
            SomeList(SettledGraph(h, less, keys, g'), {k}, c.qid.value)
            <==> SomeList(g, Contributors(h, less, keys, g', k) - {k}, c.qid.value)
  {
    var g', k := Corrections.Correct(g, c), NormalizeKey(c.student);
    RetractedQidIsGone(g, c);
    SettledQids(h, less, keys, g', k, c.qid.value);
    var names := Contributors(h, less, keys, g', k);
    if x :| x in names && x in g' && ListsQid(g'[x], c.qid.value) {
      assert x != k && x in names - {k} && ListsQid(g[x], c.qid.value);
    }
    if x :| x in names - {k} && x in g && ListsQid(g[x], c.qid.value) {
      assert x in names && ListsQid(g'[x], c.qid.value);
    }
  }

  function Wrong(): Edge {
    MakeEdge(Plain(["wrong"]), Some("Q1"), None, WikidataP184, None, "doctoral", None)
  }

  function Spelling(edges: seq<Edge>): Record {
    Record(map["CanonicalLatin" := Text("X")], Some(edges), None, [], None)
  }

  function TwoSpellings(): Graph {
    map[Plain(["a"]) := Spelling([Wrong()]), Plain(["bb"]) := Spelling([Wrong()])]
  }

  function RetractWrong(): Corrections.Correction {
    Corrections.Correction(Corrections.Retract, Plain(["a"]), Plain(["wrong"]), Some("Q1"), None, "", map[])
  }

  lemma {:induction false} WrongIsRetracted()
    ensures Plain(["a"]) != Plain(["bb"])
    ensures Corrections.OutcomeOf(TwoSpellings(), RetractWrong()) == Corrections.Retracted
    ensures Corrections.Correct(TwoSpellings(), RetractWrong())
         == map[Plain(["a"]) := Spelling([]), Plain(["bb"]) := Spelling([Wrong()])]
  {
    assert Plain(["a"]).tokens[0] != Plain(["bb"]).tokens[0] by {
      assert |"a"| != |"bb"|;
    }
    var edges, probe := [Wrong()], Corrections.Probe(RetractWrong());
    assert SameAdvisor(edges[0], probe);
    assert edges[..0] == [];
    assert Corrections.Without(edges, probe) == [];
  }

  ghost predicate AllSpellings(g: Graph) {
    forall x :: x in g ==> g[x].fields == map["CanonicalLatin" := Text("X")]
  }

  lemma {:induction false} SpellingId(h: IdFunction, g: Graph, x: Key)
    requires AllSpellings(g) && x in g
    ensures IdOf(h, g[x]) == h(Text("X"), Null, Null) && Get(g[x], "CanonicalLatin") == Text("X")
    ensures forall y :: y in g ==> SameBasis(g[x], g[y])
  {
  }

  /** Spellings with one form and no dates share an identifier. */
  lemma {:induction false} SpellingsAreMates(h: IdFunction, g: Graph, k: Key, k': Key)
    requires AllSpellings(g) && k in g && k' in g && h(Text("X"), Null, Null) != ""
    ensures Separates(h, g) && Mates(AssignIds(h, g), k, k')
  {
    var a := AssignIds(h, g);
    forall x | x in g
      ensures a[x].gid == Some(h(Text("X"), Null, Null)) && Get(a[x], "CanonicalLatin") == Text("X")
      ensures forall y :: y in g ==> SameBasis(g[x], g[y])
    {
      SpellingId(h, g, x);
    }
  }

  /** What any spelling lists, all do in the end. */
  lemma {:induction false} SpellingsShare(h: IdFunction, less: Order, keys: seq<Key>, g: Graph, k: Key, k': Key,
                                          qid: string)
    requires AllSpellings(g) && Lists(keys, g) && k in g && k' in g && h(Text("X"), Null, Null) != ""
    requires ListsQid(g[k'], qid)
    ensures SomeList(SettledGraph(h, less, keys, g), {k}, qid)
  {
    SpellingsAreMates(h, g, k, k');
    SettledQidsIff(h, less, keys, g, k, qid);
    assert ListsQid(AssignIds(h, g)[k'], qid);
  }

  lemma TwoListed(g: Graph, k: Key, k': Key)
    requires k != k' && g.Keys == {k, k'}
    ensures Lists([k, k'], g)
  {
    assert forall x :: x in [k, k'] <==> x == k || x == k';
  }

  /** Retracted from one spelling, the advisor comes back from the other. */
  lemma {:induction false} RetractedAdvisorReturns(h: IdFunction, less: Order) returns (keys: seq<Key>)
    requires h(Text("X"), Null, Null) != ""
    ensures var g, k := Corrections.Correct(TwoSpellings(), RetractWrong()), Plain(["a"]);
            && Corrections.OutcomeOf(TwoSpellings(), RetractWrong()) == Corrections.Retracted
            && Lists(keys, g) && k in g && AdvisorsOf(g[k]) == []
            && SomeList(SettledGraph(h, less, keys, g), {k}, "Q1")
  {
    var k, k' := Plain(["a"]), Plain(["bb"]);
    WrongIsRetracted();
    var g := Corrections.Correct(TwoSpellings(), RetractWrong());
    keys := [k, k'];
    TwoListed(g, k, k');
    assert AdvisorsOf(g[k']) == [Wrong()] && Bearing("Q1")([Wrong()][0]);
    SpellingsShare(h, less, keys, g, k, k', "Q1");
  }

  // ---- An IdRef that does not come back ----

  lemma {:induction false} PairGroup(g: Graph, k: Key, k': Key, id: string)
    requires k != k' && k in g && k' in g && g[k].gid == g[k'].gid == Some(id)
    ensures AllIn([k, k'], g) && Group([k, k'], g, id) == [k, k']
  {
    assert [k, k'][..1] == [k] && [k][..0] == [];
    assert Group([k], g, id) == Group([], g, id) + [k];
  }

  lemma {:induction false} PairSorted(less: Order, g: Graph, k: Key, k': Key)
    requires k in g && k' in g
    ensures AllIn([k, k'], g) && (Sorted(less, g, [k, k']) == [k, k'] || Sorted(less, g, [k, k']) == [k', k])
  {
    assert [k, k'][..1] == [k] && [k][..0] == [];
    assert Sorted(less, g, [k]) == Insert(less, g, [], k) == [k];
    assert Insert(less, g, [k][..0], k') == [k'];
  }

  lemma {:induction false} PairUnited(g: Graph, k: Key, k': Key)
    requires k in g && k' in g
    ensures AllIn([k, k'], g) && UniteAll(g, [k, k']) == Unite(g[k], g[k'])
  {
    assert [k, k'][..1] == [k];
  }

  ghost predicate PairShares(g: Graph, k: Key, k': Key, id: string) {
    && k != k' && k in g && k' in g && g[k].gid == g[k'].gid == Some(id) && id != "" && g[k] != g[k']
    && Get(g[k], "CanonicalLatin") == Get(g[k'], "CanonicalLatin")
  }

  lemma {:induction false} PairUnites(g: Graph, k: Key, k': Key, id: string)
    requires PairShares(g, k, k', id)
    ensures AllIn([k, k'], g) && Unites([k, k'], g, id)
  {
    var keys := [k, k'];
    PairGroup(g, k, k', id);
    assert g[keys[0]] != g[keys[1]];
    assert !Uniform(keys, g) && OneForm(keys, g);
  }

  lemma {:induction false} PairRecord(less: Order, g: Graph, k: Key, k': Key, id: string)
    requires PairShares(g, k, k', id) && AllIn([k, k'], g) && Unites([k, k'], g, id)
    ensures UnitedRecord(less, [k, k'], g, id) == Unite(g[k], g[k'])
         || UnitedRecord(less, [k, k'], g, id) == Unite(g[k'], g[k])
  {
    PairGroup(g, k, k', id);
    PairSorted(less, g, k, k');
    PairUnited(g, k, k');
    PairUnited(g, k', k);
  }

  /** Two different records under one identifier and form are united one way or the other. */
  lemma {:induction false} PairPass(less: Order, g: Graph, k: Key, k': Key, id: string)
    requires PairShares(g, k, k', id)
    ensures AllIn([k, k'], g)
    ensures MergePass(less, [k, k'], g)[k] == Unite(g[k], g[k']) || MergePass(less, [k, k'], g)[k] == Unite(g[k'], g[k])
  {
    PairUnites(g, k, k', id);
    PairRecord(less, g, k, k', id);
  }

  function Registry(): Edge {
    MakeEdge(Plain(["advisor"]), Some("Q1"), Some("new"), ThesesFr, None, "doctoral", None)
  }

  function Relayed(): Edge {
    MakeEdge(Plain(["advisor"]), Some("Q1"), Some("old"), Mgp, None, "doctoral", None)
  }

  lemma {:induction false} OneClaim(e: Edge, inc: Edge)
    requires SameAdvisor(OnRecord(e), inc)
    ensures MergedEdges([e], [inc]) == [Absorb(OnRecord(e), inc)]
  {
    assert AllOnRecord([e]) == [OnRecord(e)];
    Corrections.MergeOneIs([e], inc);
  }

  /** One QID, two IdRefs: whichever comes first, the registry's IdRef is left. */
  lemma {:induction false} RegistryIdRefWins(mine: Record, other: Record)
    requires AdvisorsOf(mine) == [Registry()] && AdvisorsOf(other) == [Relayed()]
    ensures AllPass(NotHolding("old"), Unite(mine, other)) && AllPass(NotHolding("old"), Unite(other, mine))
  {
    assert "old" != "new" by { assert "old"[0] != "new"[0]; }
    OneClaim(Registry(), Relayed());
    OneClaim(Relayed(), Registry());
  }

  /** A record goes into its own end. */
  lemma {:induction false} ContributesToItself(h: IdFunction, less: Order, keys: seq<Key>, g: Graph, k: Key)
    requires Lists(keys, g) && k in g
    ensures k in Contributors(h, less, keys, g, k)
    decreases MapImages.Distinct(g)
  {
    var a := AssignIds(h, g);
    AssignIdsShrinks(h, g);
    MergePassShrinks(less, keys, a);
    if PassChanges(keys, a) {
      ContributesToItself(h, less, keys, MergePass(less, keys, a), k);
      assert Mates(a, k, k);
    }
  }

  /** If the records of a pass are united, their keys contribute to each other. */
  lemma {:induction false} MatesContribute(h: IdFunction, less: Order, keys: seq<Key>, g: Graph, k: Key, k': Key)
    requires Lists(keys, g) && Mates(AssignIds(h, g), k, k') && AssignIds(h, g)[k] != AssignIds(h, g)[k']
    ensures k' in Contributors(h, less, keys, g, k)
  {
    var a := AssignIds(h, g);
    SameKeysListed(keys, g, a);
    AssignIdsShrinks(h, g);
    MergePassShrinks(less, keys, a);
    if !PassChanges(keys, a) {
      QuietGroup(keys, a, k, k');
    } else {
      var merged := MergePass(less, keys, a);
      ContributesToItself(h, less, keys, merged, k);
    }
  }

  lemma {:induction false} RegistryStays(h: IdFunction, less: Order, g: Graph, a: Key, b: Key)
    requires a != b && Lists([a, b], g) && a in g && b in g && h(Text("X"), Null, Null) != ""
    requires g[a] == Spelling([Registry()]) && g[b] == Spelling([Relayed()]) && AllSpellings(g)
    ensures b in Contributors(h, less, [a, b], g, a)
    ensures AllOfPass(NotHolding("old"), SettledGraph(h, less, [a, b], g), {a})
  {
    var keys, withIds := [a, b], AssignIds(h, g);
    SpellingsAreMates(h, g, a, b);
    TwoPassesSuffice(h, less, keys, g);
    assert Registry().source != Relayed().source;
    assert withIds[a] != withIds[b] by {
      assert AdvisorsOf(withIds[a])[0] != AdvisorsOf(withIds[b])[0];
    }
    PairPass(less, withIds, a, b, h(Text("X"), Null, Null));
    RegistryIdRefWins(withIds[a], withIds[b]);
    MatesContribute(h, less, keys, g, a, b);
  }

  /** The other spelling still lists the retracted IdRef, and it is gone all the same. */
  lemma {:induction false} IdRefNeedNotReturn(h: IdFunction, less: Order)
    requires h(Text("X"), Null, Null) != ""
    ensures var a, b := Plain(["a"]), Plain(["bb"]);
            var g := map[a := Spelling([Registry()]), b := Spelling([Relayed()])];
            && Lists([a, b], g) && b in Contributors(h, less, [a, b], g, a) && !AllPass(NotHolding("old"), g[b])
            && AllOfPass(NotHolding("old"), SettledGraph(h, less, [a, b], g), {a})
  {
    var a, b := Plain(["a"]), Plain(["bb"]);
    assert |a.tokens[0]| == 1 && |b.tokens[0]| == 2;
    var g := map[a := Spelling([Registry()]), b := Spelling([Relayed()])];
    TwoListed(g, a, b);
    assert AdvisorsOf(g[b])[0] == Relayed();
    assert !NotHolding("old")(Relayed());
    RegistryStays(h, less, g, a, b);
  }
}

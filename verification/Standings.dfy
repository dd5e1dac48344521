/** How a union decides about curated edges.  What a slot of a united record affirms can be read off the claims it has
    absorbed: it is curated if any of them is, its QID is the first there was, and its IdRef and name are those that
    win. */
module Standings {
  import opened Names
  import opened Options
  import opened Edges
  import opened MergeRuns
  import opened Records
  import opened Stages
  import opened AliasMerge
  import opened SlotHistory
  import opened UnionNames
  import opened Adjudication
  import Convergence
  import Corrections

  /** What decides whether an edge affirms an assertion and whether erasure takes it. */
  datatype Standing = Standing(curated: bool, qid: Option<string>, idref: Option<string>, name: Name)

  function StandingOf(e: Edge): Standing {
    Standing(Locked(e), e.qid, e.idref, e.name)
  }

  function StandingsOf(edges: seq<Edge>): seq<Standing> {
    seq(|edges|, i requires 0 <= i < |edges| => StandingOf(edges[i]))
  }

  /** As `AffirmedBy`. */
  predicate Meets(v: Standing, c: Corrections.Correction) {
    v.curated && if c.qid.Some? then v.qid == c.qid else v.idref == c.idref
  }

  // ---- One slot ----

  /** The slot or some claim is curated. */
  predicate SomeLocked(slot: Edge, claims: seq<Edge>) {
    Locked(slot) || exists i :: 0 <= i < |claims| && Locked(claims[i])
  }

  lemma {:induction false} SomeLockedSnoc(slot: Edge, claims: seq<Edge>, inc: Edge)
    ensures SomeLocked(slot, claims + [inc]) <==> SomeLocked(slot, claims) || Locked(inc)
  {
    var all := claims + [inc];
    assert all[|claims|] == inc;
    if i :| 0 <= i < |claims| && Locked(claims[i]) {
      assert Locked(all[i]);
    }
    if i :| 0 <= i < |all| && Locked(all[i]) {
      assert i < |claims| ==> Locked(claims[i]);
    }
  }

  lemma {:induction false} FoldLocks(slot: Edge, claims: seq<Edge>)
    requires CuratedIffVerified()(slot) && All(claims, CuratedIffVerified())
    ensures Locked(Fold(slot, claims)) <==> SomeLocked(slot, claims)
    ensures CuratedIffVerified()(Fold(slot, claims))
  {
    if claims != [] {
      var init, last := claims[..|claims| - 1], claims[|claims| - 1];
      FoldLocks(slot, init);
      SomeLockedSnoc(slot, init, last);
      assert claims == init + [last];
      assert CuratedIffVerified()(last);
      AbsorbLocks(Fold(slot, init), last);
    }
  }

  function Borne(): Pick<string> {
    (e: Edge) => e.qid
  }

  /** The slot's QID, or else the first that one of the first `n` claims brings. */
  function FirstBorne(slot: Edge, claims: seq<Edge>, n: nat): Option<string>
    requires n <= |claims|
  {
    var first := FirstGiven(Borne(), claims, n);
    OrElse(slot.qid, if first.Some? then claims[first.value].qid else None)
  }

  lemma {:induction false} FirstBorneIs(slot: Edge, claims: seq<Edge>, n: nat)
    requires n <= |claims|
    ensures Fold(slot, claims[..n]).qid == FirstBorne(slot, claims, n)
  {
    if n == 0 {
      assert claims[..0] == [];
    } else {
      FirstBorneIs(slot, claims, n - 1);
      assert claims[..n] == claims[..n - 1] + [claims[n - 1]];
      FoldSnoc(slot, claims[..n - 1], claims[n - 1]);
    }
  }

  /** The standing that a slot reaches by absorbing claims. */
  function Reached(slot: Edge, claims: seq<Edge>): Standing {
    Standing(SomeLocked(slot, claims), FirstBorne(slot, claims, |claims|), Won(Held(), slot, claims),
             NameOr(Won(Called(), slot, claims)))
  }

  /** A fold has the standing that its claims give it. */
  lemma {:induction false} ReachedIs(slot: Edge, claims: seq<Edge>)
    requires CuratedIffVerified()(slot) && All(claims, CuratedIffVerified())
    ensures StandingOf(Fold(slot, claims)) == Reached(slot, claims)
  {
    FoldLocks(slot, claims);
    FirstBorneIs(slot, claims, |claims|);
    assert claims[..|claims|] == claims;
    FieldsFuse();
    WonIs(Held(), slot, claims);
    WonIs(Called(), slot, claims);
    assert Held()(Fold(slot, claims)) == Fold(slot, claims).idref;
    assert Called()(Fold(slot, claims)) == Some(Fold(slot, claims).name);
  }

  // ---- A united record ----

  ghost predicate AllDealtPass(history: History, p: EdgeTest) {
    forall i :: 0 <= i < |history| ==> All(history[i], p)
  }

  lemma {:induction false} DealtPass(p: EdgeTest, slots: seq<Edge>, history: History, incoming: seq<Edge>)
    requires |history| == |slots| && AllDealtPass(history, p) && All(incoming, p)
    ensures AllDealtPass(DealAll(slots, history, incoming), p)
    decreases |incoming|
  {
    if incoming != [] {
      DealtPass(p, slots, history, incoming[..|incoming| - 1]);
      assert p(incoming[|incoming| - 1]);
    }
  }

  function SlotStanding(slots: seq<Edge>, claims: seq<Edge>, i: nat): Standing {
    if i >= |slots| && claims == [] then Standing(false, None, None, NO_KEY)
    else Reached(Base(slots, claims, i), Absorbed(slots, claims, i))
  }

  function DealtStandings(slots: seq<Edge>, history: History): seq<Standing> {
    seq(|history|, i requires 0 <= i < |history| => SlotStanding(slots, history[i], i))
  }

  lemma {:induction false} MergedStandings(slots: seq<Edge>, incoming: seq<Edge>)
    requires All(slots, CuratedIffVerified()) && All(incoming, CuratedIffVerified())
    ensures StandingsOf(MergeAll(slots, incoming))
         == DealtStandings(slots, DealAll(slots, Nothing(|slots|), incoming))
  {
    var p, history := CuratedIffVerified(), DealAll(slots, Nothing(|slots|), incoming);
    DealtPass(p, slots, Nothing(|slots|), incoming);
    forall i | 0 <= i < |history|
      ensures StandingOf(MergeAll(slots, incoming)[i]) == SlotStanding(slots, history[i], i)
    {
      SlotsAreFolds(slots, incoming, i);
      assert All(history[i], p);
      if i >= |slots| {
        assert p(history[i][0]);
      } else {
        assert p(slots[i]);
      }
      ReachedIs(Base(slots, history[i], i), Absorbed(slots, history[i], i));
    }
  }

  /** The standings that a group's edges reach, slot by slot. */
  function UnitedStandings(g: Graph, ordered: seq<Key>): seq<Standing>
    requires ordered != [] && AllIn(ordered, g)
  {
    var slots := AllOnRecord(AdvisorsOf(g[ordered[0]]));
    DealtStandings(slots, DealAll(slots, Nothing(|slots|), Later(g, ordered)))
  }

  lemma {:induction false} LaterPass(p: EdgeTest, g: Graph, ordered: seq<Key>)
    requires AllIn(ordered, g) && Everywhere(g, p)
    ensures All(Later(g, ordered), p)
  {
    if |ordered| > 1 {
      var n := |ordered| - 1;
      LaterPass(p, g, ordered[..n]);
      assert All(AdvisorsOf(g[ordered[n]]), p);
    }
  }

  lemma {:induction false} StandingsOnRecord(edges: seq<Edge>)
    ensures StandingsOf(AllOnRecord(edges)) == StandingsOf(edges)
  {
    forall i | 0 <= i < |edges|
      ensures StandingOf(AllOnRecord(edges)[i]) == StandingOf(edges[i])
    {
    }
  }

  /** The edges of a united record have these standings. */
  lemma {:induction false} UnitedStandingsAre(g: Graph, ordered: seq<Key>)
    requires ordered != [] && AllIn(ordered, g) && Everywhere(g, CuratedIffVerified())
    ensures StandingsOf(AdvisorsOf(UniteAll(g, ordered))) == UnitedStandings(g, ordered)
  {
    var first := AdvisorsOf(g[ordered[0]]);
    UniteAllMerges(g, ordered);
    StandingsOnRecord(AdvisorsOf(UniteAll(g, ordered)));
    LaterPass(CuratedIffVerified(), g, ordered);
    CuratedIffVerifiedIsStable();
    assert All(first, CuratedIffVerified());
    MergedStandings(AllOnRecord(first), Later(g, ordered));
  }

  // ---- The alias loop ----

  /** The standings of the edges that a pass leaves under `k`. */
  function PassStandings(less: Order, keys: seq<Key>, g: Graph, k: Key): seq<Standing>
    requires AllIn(keys, g) && k in g
  {
    if g[k].gid.Some? && Unites(keys, g, g[k].gid.value) then
      UnitedStandings(g, UnitedKeys(less, keys, g, g[k].gid.value))
    else StandingsOf(AdvisorsOf(g[k]))
  }

  lemma {:induction false} PassStandingsAre(less: Order, keys: seq<Key>, g: Graph, k: Key)
    requires AllIn(keys, g) && k in g && Everywhere(g, CuratedIffVerified())
    ensures StandingsOf(AdvisorsOf(MergePass(less, keys, g)[k])) == PassStandings(less, keys, g, k)
  {
    if g[k].gid.Some? && Unites(keys, g, g[k].gid.value) {
      UnitedStandingsAre(g, UnitedKeys(less, keys, g, g[k].gid.value));
    }
  }

  /** The standings that win for `k` when the alias loop merges the spellings. */
  function WinningStandings(h: IdFunction, less: Order, keys: seq<Key>, g: Graph, k: Key): seq<Standing>
    requires AllIn(keys, g) && k in g
  {
    PassStandings(less, keys, AliasMerge.AssignIds(h, g), k)
  }

  /** If identifiers tell dates apart, the loop leaves exactly the standings that win. */
  lemma {:induction false} SettledStandingsAre(h: IdFunction, less: Order, keys: seq<Key>, g: Graph, k: Key)
    requires Lists(keys, g) && Convergence.Separates(h, g) && k in g && Everywhere(g, CuratedIffVerified())
    ensures k in SettledGraph(h, less, keys, g)
    ensures StandingsOf(AdvisorsOf(SettledGraph(h, less, keys, g)[k])) == WinningStandings(h, less, keys, g, k)
  {
    var a := AliasMerge.AssignIds(h, g);
    Convergence.TwoPassesSuffice(h, less, keys, g);
    forall x | x in a
      ensures All(AdvisorsOf(a[x]), CuratedIffVerified())
    {
      assert AdvisorsOf(a[x]) == AdvisorsOf(g[x]);
    }
    PassStandingsAre(less, keys, a, k);
  }

  /** Some standing meets the assertion, and its advisor is none of the names. */
  predicate SomeMeets(v: seq<Standing>, c: Corrections.Correction, names: set<Key>) {
    exists i :: 0 <= i < |v| && Meets(v[i], c) && NormalizeKey(v[i].name) !in names
  }

  /** Standings tell which edges affirm an assertion. */
  lemma {:induction false} AffirmedByStanding(edges: seq<Edge>, c: Corrections.Correction, names: set<Key>)
    ensures (exists i :: 0 <= i < |edges| && AffirmedBy(edges[i], c) && AdvisorKey(edges[i]) !in names)
       <==> SomeMeets(StandingsOf(edges), c, names)
  {
    var v := StandingsOf(edges);
    forall i | 0 <= i < |edges|
      ensures Meets(v[i], c) <==> AffirmedBy(edges[i], c)
      ensures NormalizeKey(v[i].name) == AdvisorKey(edges[i])
    {
    }
  }

  /** So a record affirms an assertion exactly if a standing that wins for it does. */
  lemma {:induction false} SettledAffirmsIff(h: IdFunction, less: Order, keys: seq<Key>, g: Graph, k: Key,
                                             c: Corrections.Correction)
    requires Lists(keys, g) && Convergence.Separates(h, g) && k in g && Everywhere(g, CuratedIffVerified())
    ensures k in SettledGraph(h, less, keys, g)
    ensures Affirmed(AdvisorsOf(SettledGraph(h, less, keys, g)[k]), c)
       <==> SomeMeets(WinningStandings(h, less, keys, g, k), c, {})
  {
    SettledStandingsAre(h, less, keys, g, k);
    AffirmedByStanding(AdvisorsOf(SettledGraph(h, less, keys, g)[k]), c, {});
  }
}

/** The loops of the build stages over the dictionary of records, each proved to compute its step on the
    graph.  The dictionary is given by its keys in insertion order and its contents; a pass returns the
    contents it leaves behind. */
module Passes {
  import opened Names
  import opened Options
  import opened Edges
  import opened Filters
  import opened Records
  import opened Stages
  import opened EdgeIntegrity
  import Corrections
  import Regime
  import Vetting
  import AliasMerge

  // ---- Updating record after record ----

  type Update = (Key, Record) -> Record

  /** The first `i` listed records have been updated, the others not yet. */
  ghost predicate Partway(keys: seq<Key>, before: Graph, now: Graph, i: nat, update: Update) {
    && i <= |keys| && Lists(keys, before) && now.Keys == before.Keys
    && forall j :: 0 <= j < |keys| ==>
         now[keys[j]] == if j < i then update(keys[j], before[keys[j]]) else before[keys[j]]
  }

  lemma NextUpdate(keys: seq<Key>, before: Graph, now: Graph, i: nat, update: Update)
    requires Partway(keys, before, now, i, update) && i < |keys|
    ensures Partway(keys, before, now[keys[i] := update(keys[i], before[keys[i]])], i + 1, update)
    ensures now[keys[i] := now[keys[i]]] == now
  {
  }

  lemma AllUpdated(keys: seq<Key>, before: Graph, now: Graph, update: Update)
    requires Partway(keys, before, now, |keys|, update)
    ensures now == map k | k in before :: update(k, before[k])
  {
    forall k | k in before
      ensures now[k] == update(k, before[k])
    {
      var j := Records.PositionOf(keys, before, k);
    }
  }

  /** Sum of `f` over the listed records. */
  function SumOver(keys: seq<Key>, g: Graph, f: (Key, Record) -> int): int
    requires AliasMerge.AllIn(keys, g)
  {
    if keys == [] then 0
    else SumOver(keys[..|keys| - 1], g, f) + f(keys[|keys| - 1], g[keys[|keys| - 1]])
  }

  lemma SumNext(keys: seq<Key>, g: Graph, f: (Key, Record) -> int, i: nat)
    requires AliasMerge.AllIn(keys, g) && i < |keys|
    ensures SumOver(keys[..i + 1], g, f) == SumOver(keys[..i], g, f) + f(keys[i], g[keys[i]])
  {
    assert keys[..i + 1][..i] == keys[..i];
  }

  /** Sums over the records before and after an update, record by record. */
  lemma {:induction false} SumCompare(keys: seq<Key>, g: Graph, g': Graph, f: (Key, Record) -> int,
                                      f': (Key, Record) -> int, d: (Key, Record) -> int)
    requires AliasMerge.AllIn(keys, g) && AliasMerge.AllIn(keys, g')
    requires forall i :: 0 <= i < |keys| ==> f(keys[i], g[keys[i]]) == f'(keys[i], g'[keys[i]]) + d(keys[i], g[keys[i]])
    ensures SumOver(keys, g, f) == SumOver(keys, g', f') + SumOver(keys, g, d)
  {
    if keys != [] {
      SumCompare(keys[..|keys| - 1], g, g', f, f', d);
    }
  }

  function Entries(k: Key, r: Record): int {
    |AdvisorsOf(r)|
  }

  function NamedEntries(k: Key, r: Record): int {
    |NamedEdges(AdvisorsOf(r))|
  }

  // ---- Stripping MGP ----

  function Stripped(k: Key, r: Record): int {
    |AdvisorsOf(r)| - |Keep(AdvisorsOf(r), NotMgp())|
  }

  lemma StripLength(r: Record)
    ensures |AdvisorsOf(StripRecord(r))| == |Keep(AdvisorsOf(r), NotMgp())|
  {
  }

  method StripMgpDerivedEdges(keys: seq<Key>, before: Graph) returns (byName: Graph, dropped: int)
    requires Lists(keys, before)
    ensures byName == StripGraph(before)
    ensures SumOver(keys, before, Entries) == SumOver(keys, byName, Entries) + dropped
  {
    byName, dropped := before, 0;
    ghost var update: Update := (k, r) => StripRecord(r);
    for i := 0 to |keys|
      invariant Partway(keys, before, byName, i, update)
      invariant dropped == SumOver(keys[..i], before, Stripped)
    {
      var k := keys[i];
      var edges := AdvisorsOf(byName[k]);
      NextUpdate(keys, before, byName, i, update);
      SumNext(keys, before, Stripped, i);
      if edges != [] {
        var kept := Keep(edges, NotMgp());
        dropped := dropped + (|edges| - |kept|);
        byName := byName[k := byName[k].(advisors := Some(kept))];
      }
    }
    AllUpdated(keys, before, byName, update);
    assert byName == StripGraph(before);
    assert keys[..|keys|] == keys;
    forall i | 0 <= i < |keys|
      ensures Entries(keys[i], before[keys[i]])
          == Entries(keys[i], byName[keys[i]]) + Stripped(keys[i], before[keys[i]])
    {
      StripLength(before[keys[i]]);
    }
    SumCompare(keys, before, byName, Entries, Entries, Stripped);
  }

  // ---- Corrections ----

  method ApplyCorrection(before: Graph, c: Corrections.Correction) returns (byName: Graph, outcome: Corrections.Outcome)
    ensures byName == Corrections.Correct(before, c)
    ensures outcome == Corrections.OutcomeOf(before, c)
  {
    byName := before;
    var k := NormalizeKey(c.student);
    if k == NO_KEY || k !in byName {
      return byName, Corrections.Unmatched;
    }
    var edges := AdvisorsOf(byName[k]);
    if c.action == Corrections.Retract {
      var kept := Corrections.Without(edges, Corrections.Probe(c));
      if |kept| == |edges| {
        return byName, Corrections.Unmatched;
      }
      byName := byName[k := byName[k].(advisors := Some(kept))];
      outcome := Corrections.Retracted;
    } else if c.action == Corrections.Assert {
      if c.qid.None? && c.idref.None? {
        return byName, Corrections.Refused;
      }
      var merged := MergeAdvisorEdges(edges, [Corrections.CuratedEdge(c)]);
      byName := byName[k := byName[k].(advisors := Some(merged))];
      outcome := Corrections.Asserted;
    } else {
      outcome := Corrections.Refused;
    }
  }

  method ApplyCorrections(before: Graph, ledger: seq<Corrections.Correction>)
    returns (byName: Graph, stats: Corrections.Stats)
    ensures byName == Corrections.CorrectAll(before, ledger)
    ensures stats == Corrections.StatsOf(before, ledger)
  {
    byName, stats := before, Corrections.Stats(0, 0, 0, 0);
    for n := 0 to |ledger|
      invariant byName == Corrections.CorrectAll(before, ledger[..n])
      invariant stats == Corrections.StatsOf(before, ledger[..n])
    {
      assert ledger[..n + 1][..n] == ledger[..n];
      var outcome;
      byName, outcome := ApplyCorrection(byName, ledger[n]);
      stats := Corrections.Count(stats, outcome);
    }
    assert ledger[..|ledger|] == ledger;
  }

  // ---- Edge integrity ----

  function TargetsOf(r: Record): (targets: set<Key>)
    ensures forall t :: t in targets <==> Advises(r, t)
  {
    var edges := AdvisorsOf(r);
    set i | 0 <= i < |edges| && Named(edges[i]) :: AdvisorKey(edges[i])
  }

  /** Mutual pairs from an adjacency that is computed once, before anything is removed. */
  method MutualPairs(g: Graph) returns (mutual: set<(Key, Key)>)
    ensures forall k, t :: (k, t) in mutual <==> Mutual(g, k, t)
  {
    var adj := map k | k in g :: TargetsOf(g[k]);
    mutual := set k, t | k in adj && t in adj[k] && t in adj && k in adj[t] :: (k, t);
  }

  method CleanOne(k: Key, r: Record, mutual: set<(Key, Key)>, ghost g: Graph) returns (cleaned: Record, counted: Stats)
    requires forall t :: (k, t) in mutual <==> Mutual(g, k, t)
    ensures cleaned == CleanRecord(g, k, r) && counted == CleanStats(g, k, r)
  {
    var edges := NamedEdges(AdvisorsOf(r));
    if edges == [] {
      return r, ZERO;
    }
    var kept;
    kept, counted := CleanList(k, edges, mutual, g);
    cleaned := r.(advisors := Some(kept));
  }

  type Counter = (Key, Record) -> Stats

  /** The counters over the first `n` listed records. */
  function Counters(keys: seq<Key>, g: Graph, count: Counter, n: nat): Stats
    requires AliasMerge.AllIn(keys, g) && n <= |keys|
  {
    if n == 0 then ZERO else Counters(keys, g, count, n - 1).Plus(count(keys[n - 1], g[keys[n - 1]]))
  }

  function CleanCounter(g: Graph): Counter {
    (k: Key, r: Record) => CleanStats(g, k, r)
  }

  /** The counters over the listed records. */
  function StatsOver(keys: seq<Key>, g: Graph): Stats
    requires AliasMerge.AllIn(keys, g)
  {
    Counters(keys, g, CleanCounter(g), |keys|)
  }

  lemma SumSnoc(keys: seq<Key>, g: Graph, f: (Key, Record) -> int)
    requires keys != [] && AliasMerge.AllIn(keys, g)
    ensures SumOver(keys, g, f) == SumOver(keys[..|keys| - 1], g, f) + f(keys[|keys| - 1], g[keys[|keys| - 1]])
  {
  }

  lemma PlusTotal(a: Stats, b: Stats)
    ensures a.Plus(b).Total() == a.Total() + b.Total()
  {
  }

  lemma {:induction false} AddUpTo(keys: seq<Key>, g: Graph, g': Graph, f: (Key, Record) -> int, count: Counter, n: nat)
    requires AliasMerge.AllIn(keys, g) && AliasMerge.AllIn(keys, g') && n <= |keys|
    requires forall k :: k in g && k in g' ==> f(k, g[k]) == f(k, g'[k]) + count(k, g[k]).Total()
    ensures SumOver(keys[..n], g, f) == SumOver(keys[..n], g', f) + Counters(keys, g, count, n).Total()
  {
    if n > 0 {
      AddUpTo(keys, g, g', f, count, n - 1);
      SumNext(keys, g, f, n - 1);
      SumNext(keys, g', f, n - 1);
      PlusTotal(Counters(keys, g, count, n - 1), count(keys[n - 1], g[keys[n - 1]]));
    }
  }

  /** Named edges before are the named edges after plus the three counters. */
  lemma {:induction false} CountersAddUp(keys: seq<Key>, g: Graph)
    requires AliasMerge.AllIn(keys, g)
    ensures AliasMerge.AllIn(keys, CleanGraph(g))
    ensures SumOver(keys, g, NamedEntries) == SumOver(keys, CleanGraph(g), NamedEntries) + StatsOver(keys, g).Total()
  {
    var g' := CleanGraph(g);
    forall k | k in g
      ensures NamedEntries(k, g[k]) == NamedEntries(k, g'[k]) + CleanCounter(g)(k, g[k]).Total()
    {
      CleanRecordCounts(g, k, g[k]);
    }
    AddUpTo(keys, g, g', NamedEntries, CleanCounter(g), |keys|);
    assert keys[..|keys|] == keys;
  }

  lemma {:induction false} NothingOver(keys: seq<Key>, g: Graph, count: Counter, n: nat)
    requires AliasMerge.AllIn(keys, g) && n <= |keys| && forall k :: k in g ==> count(k, g[k]) == ZERO
    ensures Counters(keys, g, count, n) == ZERO
  {
    if n > 0 {
      NothingOver(keys, g, count, n - 1);
    }
  }

  /** On its own result the pass counts nothing. */
  lemma {:induction false} SecondPassCountsNothing(keys: seq<Key>, g: Graph)
    requires AliasMerge.AllIn(keys, g)
    ensures AliasMerge.AllIn(keys, CleanGraph(g)) && StatsOver(keys, CleanGraph(g)) == ZERO
  {
    var g' := CleanGraph(g);
    CleanGraphIdempotent(g);
    NothingOver(keys, g', CleanCounter(g'), |keys|);
  }

  method CleanAll(keys: seq<Key>, before: Graph, mutual: set<(Key, Key)>) returns (byName: Graph, stats: Stats)
    requires Lists(keys, before) && forall k, t :: (k, t) in mutual <==> Mutual(before, k, t)
    ensures byName == CleanGraph(before) && stats == StatsOver(keys, before)
  {
    byName, stats := before, ZERO;
    ghost var update: Update := (k, r) => CleanRecord(before, k, r);
    for i := 0 to |keys|
      invariant Partway(keys, before, byName, i, update)
      invariant stats == Counters(keys, before, CleanCounter(before), i)
    {
      var k := keys[i];
      NextUpdate(keys, before, byName, i, update);
      var cleaned, counted := CleanOne(k, byName[k], mutual, before);
      assert cleaned == update(k, before[k]);
      stats := stats.Plus(counted);
      byName := byName[k := cleaned];
    }
    AllUpdated(keys, before, byName, update);
    assert byName == CleanGraph(before);
  }

  method ApplyEdgeIntegrity(keys: seq<Key>, before: Graph) returns (byName: Graph, stats: Stats)
    requires Lists(keys, before)
    ensures byName == CleanGraph(before) && stats == StatsOver(keys, before)
  {
    var mutual := MutualPairs(before);
    byName, stats := CleanAll(keys, before, mutual);
  }

  // ---- Vetting ----

  function Labelled(k: Key, r: Record): int {
    |Keep(AdvisorsOf(r), Vetting.LabelledTest())|
  }

  function VouchedFor(k: Key, r: Record): int {
    |Keep(AdvisorsOf(r), Vetting.VettedTest())|
  }

  function Flagged(tierOf: Vetting.TierOf): (Key, Record) -> int {
    (k, r) => |Keep(AdvisorsOf(r), Vetting.FlaggedTest(k, tierOf))|
  }

  function LeftTo(tierOf: Vetting.TierOf, tier: Regime.Tier): (Key, Record) -> int {
    (k, r) => |Keep(AdvisorsOf(r), Vetting.TierTest(k, tierOf, tier))|
  }

  /** What the counters say: they balance, and count the labelled edges, the vetted ones, the flagged ones and those
      left to each tier. */
  ghost predicate Tallied(keys: seq<Key>, g: Graph, tierOf: Vetting.TierOf, tally: Vetting.Tally)
    requires AliasMerge.AllIn(keys, g)
  {
    && Vetting.Balanced(tally) && tally.mgpDerived == SumOver(keys, g, Labelled)
    && tally.vetted == SumOver(keys, g, VouchedFor) && tally.needsVetting == SumOver(keys, g, Flagged(tierOf))
    && forall tier :: Vetting.TierCount(tally, tier) == SumOver(keys, g, LeftTo(tierOf, tier))
  }

  /** The counters after the first `n` listed records. */
  function TallyTo(keys: seq<Key>, g: Graph, tierOf: Vetting.TierOf, n: nat): Vetting.Tally
    requires AliasMerge.AllIn(keys, g) && n <= |keys|
  {
    if n == 0 then Vetting.Tally(0, 0, 0, 0, 0, 0, 0)
    else Vetting.TallyAll(TallyTo(keys, g, tierOf, n - 1), keys[n - 1], AdvisorsOf(g[keys[n - 1]]), tierOf)
  }

  lemma {:induction false} LeftToAfter(before: Vetting.Tally, k: Key, r: Record, tierOf: Vetting.TierOf,
                                       tier: Regime.Tier)
    ensures Vetting.TierCount(Vetting.TallyAll(before, k, AdvisorsOf(r), tierOf), tier)
         == Vetting.TierCount(before, tier) + LeftTo(tierOf, tier)(k, r)
  {
    Vetting.TallyTiers(before, k, AdvisorsOf(r), tierOf, tier);
  }

  lemma {:induction false} TiersTo(keys: seq<Key>, g: Graph, tierOf: Vetting.TierOf, n: nat, tier: Regime.Tier)
    requires AliasMerge.AllIn(keys, g) && n <= |keys|
    ensures Vetting.TierCount(TallyTo(keys, g, tierOf, n), tier) == SumOver(keys[..n], g, LeftTo(tierOf, tier))
  {
    if n > 0 {
      var before, k, f := TallyTo(keys, g, tierOf, n - 1), keys[n - 1], LeftTo(tierOf, tier);
      TiersTo(keys, g, tierOf, n - 1, tier);
      LeftToAfter(before, k, g[k], tierOf, tier);
      SumNext(keys, g, f, n - 1);
    }
  }

  lemma {:induction false} TalliedTo(keys: seq<Key>, g: Graph, tierOf: Vetting.TierOf, n: nat)
    requires AliasMerge.AllIn(keys, g) && n <= |keys|
    ensures Tallied(keys[..n], g, tierOf, TallyTo(keys, g, tierOf, n))
  {
    if n > 0 {
      TalliedTo(keys, g, tierOf, n - 1);
      Vetting.TallyFacts(TallyTo(keys, g, tierOf, n - 1), keys[n - 1], AdvisorsOf(g[keys[n - 1]]), tierOf);
      SumNext(keys, g, Labelled, n - 1);
      SumNext(keys, g, VouchedFor, n - 1);
      SumNext(keys, g, Flagged(tierOf), n - 1);
    }
    forall tier
      ensures Vetting.TierCount(TallyTo(keys, g, tierOf, n), tier) == SumOver(keys[..n], g, LeftTo(tierOf, tier))
    {
      TiersTo(keys, g, tierOf, n, tier);
    }
  }

  function VetUpdate(tierOf: Vetting.TierOf): Update {
    (k: Key, r: Record) => Vetting.VetRecord(k, r, tierOf)
  }

  method VetOne(k: Key, r: Record, tierOf: Vetting.TierOf, before: Vetting.Tally)
    returns (vetted: Record, tally: Vetting.Tally)
    ensures vetted == VetUpdate(tierOf)(k, r)
    ensures tally == Vetting.TallyAll(before, k, AdvisorsOf(r), tierOf)
  {
    var edges := AdvisorsOf(r);
    if edges == [] {
      return r, before;
    }
    var labelled;
    labelled, tally := Vetting.VetEdges(k, edges, tierOf, before);
    assert labelled == seq(|edges|, j requires 0 <= j < |edges| => Vetting.Vet(edges[j], tierOf(k, edges[j])));
    vetted := r.(advisors := Some(labelled));
  }

  method MarkVettingStatus(keys: seq<Key>, before: Graph, tierOf: Vetting.TierOf)
    returns (byName: Graph, tally: Vetting.Tally)
    requires Lists(keys, before)
    ensures byName == Vetting.VetGraph(before, tierOf)
    ensures Tallied(keys, before, tierOf, tally)
  {
    byName, tally := before, Vetting.Tally(0, 0, 0, 0, 0, 0, 0);
    ghost var update := VetUpdate(tierOf);
    for i := 0 to |keys|
      invariant Partway(keys, before, byName, i, update)
      invariant tally == TallyTo(keys, before, tierOf, i)
    {
      var k := keys[i];
      NextUpdate(keys, before, byName, i, update);
      var vetted;
      vetted, tally := VetOne(k, byName[k], tierOf, tally);
      byName := byName[k := vetted];
    }
    AllUpdated(keys, before, byName, update);
    assert byName == Vetting.VetGraph(before, tierOf);
    TalliedTo(keys, before, tierOf, |keys|);
    assert keys[..|keys|] == keys;
  }
}

/** A build from sound harvests: its graph passes the whole gate, and is loaded without loss. */
module Outcome {
  import opened Names
  import opened Filters
  import opened Records
  import opened Invariants
  import opened Stages
  import opened Suppression
  import opened Pipeline
  import AliasMerge
  import Aliases
  import Convergence
  import Erasure
  import Kinship
  import Loader

  /** Harvested edges have source and confidence, harvested records a canonical form; identifiers are not empty and tell
      apart what they are derived from; and when the alias loop starts, no walk of references closes, with spellings of
      one person counted as one, and no two names with one key win for a record. */
  ghost predicate SoundStart(s: Settings, keys: seq<Key>, g: Graph, keys': seq<Key>)
    requires AliasMerge.AllIn(keys, Repaired(g, s)) && Lists(keys', Stubbed(keys, g, s))
  {
    && Everywhere(g, Provenanced()) && Aliases.Canonical(g)
    && NeverEmpty(s.h) && Convergence.TellsApart(s.h, Stubbed(keys, g, s))
    && Kinship.NeverCloses(Kinship.KinStep(s.h, Stubbed(keys, g, s)))
    && WinnersDiffer(s, keys', Stubbed(keys, g, s))
  }

  /** At the end, too, the index names the first key of every identifier. */
  lemma {:induction false} IndexedToTheEnd(s: Settings, keys: seq<Key>, stubbed: Graph, index: Index)
    requires Lists(keys, stubbed) && NeverEmpty(s.h)
    requires Erasure.FirstKeyIndex(keys, AliasMerge.SettledGraph(s.h, AliasMerge.Before, keys, stubbed), index)
    ensures var settled := AliasMerge.SettledGraph(s.h, AliasMerge.Before, keys, stubbed);
            var final := Final(s, keys, stubbed);
            Erasure.FirstKeyIndex(Keep(keys, LeftIn(final)), final, SuppressIndex(settled, index, s.requests))
  {
    AliasMerge.SettledFacts(s.h, AliasMerge.Before, keys, stubbed);
    Erasure.ErasureCommutes(keys, AliasMerge.SettledGraph(s.h, AliasMerge.Before, keys, stubbed), index, s.requests);
  }

  lemma {:induction false} SoundGate(s: Settings, keys: seq<Key>, g: Graph, keys': seq<Key>)
    requires AliasMerge.AllIn(keys, Repaired(g, s)) && Lists(keys', Stubbed(keys, g, s))
    requires SoundStart(s, keys, g, keys')
    ensures var final := Final(s, keys', Stubbed(keys, g, s));
            I1(final) && I2(final) && I3(final) && I4(final) && I6(final) && OneFormPerId(final)
            && Aliases.Canonical(final)
  {
    var stubbed := Stubbed(keys, g, s);
    assert Convergence.Separates(s.h, stubbed);
    GateIsKept(s, keys, g, keys');
    AcyclicHasNoLoop(Final(s, keys', stubbed));
  }

  /** Then all eight invariants hold at the end, of the graph and its index, and alias records are identical. */
  lemma {:induction false} SoundBuildPasses(s: Settings, keys: seq<Key>, g: Graph, keys': seq<Key>, index: Index)
    requires AliasMerge.AllIn(keys, Repaired(g, s)) && Lists(keys', Stubbed(keys, g, s))
    requires SoundStart(s, keys, g, keys') && I5(Stubbed(keys, g, s))
    requires var settled := AliasMerge.SettledGraph(s.h, AliasMerge.Before, keys', Stubbed(keys, g, s));
             IndexOf(settled, index) && TotalIndex(settled, index)
    ensures var settled := AliasMerge.SettledGraph(s.h, AliasMerge.Before, keys', Stubbed(keys, g, s));
            AllInvariants(Final(s, keys', Stubbed(keys, g, s)), SuppressIndex(settled, index, s.requests))
    ensures AliasesIdentical(Final(s, keys', Stubbed(keys, g, s)))
  {
    SoundGate(s, keys, g, keys');
    TailFacts(s, keys', Stubbed(keys, g, s), index);
  }

  /** In whatever order a file lists the records, no edge is lost, no row dangles and no walk over rows closes. */
  ghost predicate LoadsWhole(g: Graph) {
    forall file :: Lists(file, g) ==>
      Loader.NothingLost(file, g) && Loader.RowsStay(file, g) && Loader.RowsAcyclic(file, g)
  }

  /** The graph of such a build is loaded whole. */
  lemma {:induction false} SoundBuildLoads(g: Graph, index: Index)
    requires AllInvariants(g, index) && AliasesIdentical(g)
    ensures LoadsWhole(g)
  {
    forall file | Lists(file, g)
      ensures Loader.NothingLost(file, g) && Loader.RowsStay(file, g) && Loader.RowsAcyclic(file, g)
    {
      Loader.CleanGraphLoadsWhole(file, g);
    }
  }

  lemma {:induction false} SoundOutcome(s: Settings, keys: seq<Key>, g: Graph, keys': seq<Key>, index: Index)
    requires AliasMerge.AllIn(keys, Repaired(g, s)) && Lists(keys', Stubbed(keys, g, s)) && I5(Stubbed(keys, g, s))
    requires var settled := AliasMerge.SettledGraph(s.h, AliasMerge.Before, keys', Stubbed(keys, g, s));
             IndexOf(settled, index) && TotalIndex(settled, index)
    ensures SoundStart(s, keys, g, keys') ==>
              var settled := AliasMerge.SettledGraph(s.h, AliasMerge.Before, keys', Stubbed(keys, g, s));
              AllInvariants(Final(s, keys', Stubbed(keys, g, s)), SuppressIndex(settled, index, s.requests))
              && LoadsWhole(Final(s, keys', Stubbed(keys, g, s)))
  {
    if SoundStart(s, keys, g, keys') {
      SoundBuildPasses(s, keys, g, keys', index);
      var settled := AliasMerge.SettledGraph(s.h, AliasMerge.Before, keys', Stubbed(keys, g, s));
      SoundBuildLoads(Final(s, keys', Stubbed(keys, g, s)), SuppressIndex(settled, index, s.requests));
    }
  }
}

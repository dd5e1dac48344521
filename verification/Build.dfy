/** The build from its merged harvests on: one object holds the dictionary of records, in insertion order,
    and the reverse index, and each stage updates it in place. */
module Build {
  import opened Names
  import opened Filters
  import opened Records
  import opened Invariants
  import opened Stages
  import opened Suppression
  import opened Pipeline
  import opened Outcome
  import EdgeIntegrity
  import Corrections
  import Vetting
  import AliasMerge
  import Aliases
  import Convergence
  import Passes
  import Stubs
  import AliasPasses
  import Erasure

  class Genealogy {
    var keys: seq<Key>
    var byName: Graph
    var byGid: Index

    ghost predicate Valid()
      reads this
    {
      Lists(keys, byName)
    }

    /** The graph as the harvests leave it; there is no index yet. */
    constructor (keys: seq<Key>, byName: Graph)
      requires Lists(keys, byName)
      ensures Valid() && this.keys == keys && this.byName == byName && byGid == map[]
    {
      this.keys, this.byName, byGid := keys, byName, map[];
    }

    method StripMgp() returns (dropped: int)
      requires Valid()
      modifies this`byName
      ensures Valid() && byName == StripGraph(old(byName))
      ensures Passes.SumOver(keys, old(byName), Passes.Entries)
          == Passes.SumOver(keys, byName, Passes.Entries) + dropped
    {
      byName, dropped := Passes.StripMgpDerivedEdges(keys, byName);
    }

    method Correct(ledger: seq<Corrections.Correction>) returns (stats: Corrections.Stats)
      requires Valid()
      modifies this`byName
      ensures Valid() && byName == Corrections.CorrectAll(old(byName), ledger)
      ensures stats == Corrections.StatsOf(old(byName), ledger)
    {
      Corrections.CorrectAllKeys(byName, ledger);
      byName, stats := Passes.ApplyCorrections(byName, ledger);
    }

    method CleanEdges() returns (stats: EdgeIntegrity.Stats)
      requires Valid()
      modifies this`byName
      ensures Valid() && byName == EdgeIntegrity.CleanGraph(old(byName)) && stats == Passes.StatsOver(keys, old(byName))
      ensures EdgeIntegrity.NoSelfLoops(byName) && EdgeIntegrity.NoMutual(byName) && EdgeIntegrity.NoDuplicates(byName)
    {
      EdgeIntegrity.CleanGraphFacts(byName);
      byName, stats := Passes.ApplyEdgeIntegrity(keys, byName);
    }

    method MarkVetting(tierOf: Vetting.TierOf) returns (tally: Vetting.Tally)
      requires Valid()
      modifies this`byName
      ensures Valid() && byName == Vetting.VetGraph(old(byName), tierOf)
      ensures Passes.Tallied(keys, old(byName), tierOf, tally)
    {
      byName, tally := Passes.MarkVettingStatus(keys, byName, tierOf);
    }

    method AddStubs(displayOf: Stubs.DisplayOf)
      requires Valid()
      modifies this`keys, this`byName
      ensures Valid() && byName == StubGraph(old(byName), Stubs.DisplaysOver(old(keys), old(byName), displayOf))
      ensures old(keys) <= keys
      ensures I5(byName)
    {
      keys, byName := Stubs.CreateStubs(keys, byName, displayOf);
    }

    /** False stands for the build stopping because the cap on passes was hit. */
    method SettleAliases(h: AliasMerge.IdFunction) returns (ok: bool)
      requires Valid()
      modifies this`byName
      ensures Valid()
      ensures ok ==> byName == AliasMerge.SettledGraph(h, AliasMerge.Before, keys, old(byName))
      ensures Convergence.Separates(h, old(byName)) ==> ok
    {
      byName, ok := AliasPasses.CollapseAliases(h, AliasMerge.Before, keys, byName);
    }

    method IndexIdentifiers()
      requires Valid()
      modifies this`byGid
      ensures Valid() && IndexOf(byName, byGid) && TotalIndex(byName, byGid)
      ensures forall id :: AliasPasses.Lookup(byGid, id) == AliasPasses.FirstKey(keys, byName, id)
    {
      byGid := AliasPasses.BuildIndex(keys, byName);
    }

    method Suppress(requests: Requests) returns (removed: nat, scrubbedRefs: int)
      requires Valid()
      modifies this
      ensures Valid() && byName == SuppressGraph(old(byName), requests)
          && byGid == SuppressIndex(old(byName), old(byGid), requests)
      ensures keys == Keep(old(keys), LeftIn(byName))
      ensures removed == |old(keys)| - |keys| && AliasMerge.AllIn(keys, old(byName))
      ensures scrubbedRefs
          == Passes.SumOver(keys, old(byName), Passes.Entries) - Passes.SumOver(keys, byName, Passes.Entries)
    {
      keys, byName, byGid, removed, scrubbedRefs := AliasPasses.ApplySuppressionList(keys, byName, byGid, requests);
    }

    /** The stages on edges, and stubs for whoever they refer to. */
    method RepairEdges(s: Settings)
      requires Valid()
      modifies this`keys, this`byName
      ensures Valid() && I5(byName) && old(keys) <= keys
      ensures AliasMerge.AllIn(old(keys), Repaired(old(byName), s)) && byName == Stubbed(old(keys), old(byName), s)
    {
      RepairedKeys(byName, s);
      if s.noMgp {
        var dropped := StripMgp();
      }
      var corrected := Correct(s.ledger);
      var cleaned := CleanEdges();
      var vetted := MarkVetting(s.tierOf);
      AddStubs(s.displayOf);
    }

    /** The stages in the order the build fixes.  `keys'` is the dictionary's order once the stubs are in. */
    method Finish(s: Settings) returns (ok: bool, ghost keys': seq<Key>)
      requires Valid()
      modifies this
      ensures Valid() && AliasMerge.AllIn(old(keys), Repaired(old(byName), s))
      ensures Lists(keys', Stubbed(old(keys), old(byName), s)) && old(keys) <= keys'
      // The alias loop settles if identifiers tell apart the dates they are derived from.
      ensures Convergence.Separates(s.h, Stubbed(old(keys), old(byName), s)) ==> ok
      ensures ok ==> byName == Final(s, keys', Stubbed(old(keys), old(byName), s))
      ensures ok ==> keys == Keep(keys', LeftIn(byName))
      // The index names the first key of every identifier that is left, unless some identifier is empty.
      ensures ok && NeverEmpty(s.h) ==> Erasure.FirstKeyIndex(keys, byName, byGid)
      // Then references resolve, the index is total and right, and aliases are identical unless they collide.
      ensures ok ==> I5(byName) && IndexOf(byName, byGid) && TotalIndex(byName, byGid)
      ensures ok ==> Aliases.UnlessColliding(byName)
      ensures ok && Aliases.Canonical(byName) && OneFormPerId(byName) ==> AliasesIdentical(byName) && Lossless(byName)
      // Erasure requests are honoured.
      ensures ok ==> forall n :: 0 <= n < |s.requests| ==> Honoured(byName, byGid, s.requests[n])
      // Under conditions on the harvests and on identifiers the rest of the gate's invariants hold, nothing retracted
      // comes back, assertions last, and a build without MGP has no edge that reaches it.
      ensures ok ==> Promises(s, old(keys), old(byName), keys')
      // From a sound start the whole gate passes, and the graph is loaded whole.
      ensures ok && SoundStart(s, old(keys), old(byName), keys') ==> AllInvariants(byName, byGid) && LoadsWhole(byName)
    {
      ghost var before, harvested := keys, byName;
      RepairEdges(s);
      keys' := keys;
      ok := SettleAliases(s.h);
      if !ok {
        return;
      }
      IndexIdentifiers();
      TailFacts(s, keys', Stubbed(before, harvested, s), byGid);
      AllPromises(s, before, harvested, keys');
      SoundOutcome(s, before, harvested, keys', byGid);
      if NeverEmpty(s.h) {
        IndexedToTheEnd(s, keys', Stubbed(before, harvested, s), byGid);
      }
      var removed, scrubbedRefs := Suppress(s.requests);
    }
  }
}

/** What counts as independent evidence for a claim that reaches MGP.  A source that only relays MGP, citing it,
    is meant not to count (`mark_vetting_status`); the code can tell so only of the slot's own source. */
module Relays {
  import opened Names
  import opened Options
  import opened Regime
  import opened Edges
  import opened MergeRuns
  import opened SlotHistory
  import opened Vetting

  /** A single claim is independent evidence exactly if its source is not MGP and it does not cite MGP. */
  lemma {:induction false} SingleClaimIndependentIff(claim: Edge)
    requires Stamped(claim)
    ensures Independent(Opened(claim)) != {} <==> !MgpDerived(claim.source.value) && !CitesMgp(claim)
    ensures Independent(Opened(claim)) <= {claim.source.value}
  {
    var s, slot := claim.source.value, Opened(claim);
    assert slot.sources == [s];
    assert s in slot.sources;
    if !MgpDerived(s) && !CitesMgp(claim) {
      assert s in Independent(slot);
    }
  }

  /** Sources outside MGP, whether or not they relay it. */
  ghost function Outside(claims: seq<Edge>): set<Source> {
    set i | 0 <= i < |claims| && claims[i].source.Some? && !MgpDerived(claims[i].source.value) :: claims[i].source.value
  }

  /** Sources outside MGP with a claim that does not cite it. */
  ghost function TrulyIndependent(claims: seq<Edge>): set<Source> {
    set i | 0 <= i < |claims| && claims[i].source.Some? && !MgpDerived(claims[i].source.value) && !CitesMgp(claims[i])
      :: claims[i].source.value
  }

  /** Sources outside MGP all of whose claims cite it. */
  ghost function RelaysOnly(claims: seq<Edge>): set<Source> {
    Outside(claims) - TrulyIndependent(claims)
  }

  lemma {:induction false} OutsideIsRecorded(slot: Edge, claims: seq<Edge>)
    requires Describes(slot, claims)
    ensures forall s :: s in Outside(claims) <==> (slot.source == Some(s) || s in slot.sources) && !MgpDerived(s)
    ensures slot.source.Some?
  {
    SlotFacts(slot, claims);
    assert SourcesRecorded(slot, claims);
    forall s | s in slot.sources && !MgpDerived(s)
      ensures s in Outside(claims)
    {
      var i :| 0 <= i < |claims| && claims[i].source == Some(s);
    }
  }

  /** The source that the code discounts: the slot's own, if the slot cites MGP. */
  ghost function Discounted(slot: Edge): set<Source> {
    set s | s in (if slot.source.Some? then {slot.source.value} else {}) && CitesMgp(slot) && !MgpDerived(s)
  }

  /** Of the sources outside MGP the code counts all but the one it discounts. */
  lemma {:induction false} IndependentIs(slot: Edge, claims: seq<Edge>)
    requires Describes(slot, claims)
    ensures Independent(slot) == Outside(claims) - Discounted(slot)
  {
    OutsideIsRecorded(slot, claims);
  }

  // ---- When the label is right ----

  /** The only source outside MGP is that of the first claim of greatest confidence. */
  ghost predicate OnlyTheLeader(claims: seq<Edge>) {
    exists w: nat :: Leads(claims, w) && claims[w].source.Some? && Outside(claims) == {claims[w].source.value}
  }

  /** The statement that wins among the claims cites MGP. */
  predicate WinnerCitesMgp(claims: seq<Edge>)
    requires claims != []
  {
    CitesMgp(claims[0].(statedIn := Won(Stated(), Opened(claims[0]), claims[1..])))
  }

  /** The leading claim is one, and gives the slot its source. */
  lemma {:induction false} LeaderIs(slot: Edge, claims: seq<Edge>, w: nat)
    requires Describes(slot, claims) && Leads(claims, w)
    ensures slot.source == claims[w].source
  {
    var v: nat :| LedBy(slot, claims, v);
    LeaderFacts(slot, claims, v);
    assert v == w;
  }

  lemma {:induction false} StatedIsWinner(claims: seq<Edge>)
    requires claims != []
    ensures CitesMgp(SlotOf(claims)) <==> WinnerCitesMgp(claims)
  {
    FieldsFuse();
    WonIs(Stated(), Opened(claims[0]), claims[1..]);
    assert Stated()(SlotOf(claims)) == SlotOf(claims).statedIn;
  }

  lemma {:induction false} OnlyLeaderIs(slot: Edge, claims: seq<Edge>)
    requires Describes(slot, claims)
    ensures slot.source.Some? && (OnlyTheLeader(claims) <==> Outside(claims) == {slot.source.value})
  {
    var w: nat :| LedBy(slot, claims, w);
    LeaderFacts(slot, claims, w);
    if OnlyTheLeader(claims) {
      var v: nat :| Leads(claims, v) && claims[v].source.Some? && Outside(claims) == {claims[v].source.value};
      LeaderIs(slot, claims, v);
    }
  }

  /** The code finds no evidence exactly if there is no source outside MGP, or just the leading claim's and the
      statement that wins cites MGP. */
  lemma {:induction false} NoEvidenceIff(claims: seq<Edge>)
    requires claims != [] && Describes(SlotOf(claims), claims)
    ensures Independent(SlotOf(claims)) == {}
       <==> Outside(claims) == {} || (OnlyTheLeader(claims) && WinnerCitesMgp(claims))
  {
    var slot := SlotOf(claims);
    IndependentIs(slot, claims);
    OutsideIsRecorded(slot, claims);
    StatedIsWinner(claims);
    OnlyLeaderIs(slot, claims);
    assert Discounted(slot) <= {slot.source.value};
    if Independent(slot) == {} {
      assert Outside(claims) <= Discounted(slot);
    } else if CitesMgp(slot) && Outside(claims) == {slot.source.value} {
      assert slot.source.value in Outside(claims);
    }
  }

  /** A label is right, so that a slot counts as vetted exactly if a claim outside MGP does not cite it: without such
      a claim that takes no source outside MGP at all, or one that leads while MGP's statement wins; with one it
      takes the contrary. */
  ghost predicate LabelCondition(claims: seq<Edge>)
    requires claims != []
  {
    if TrulyIndependent(claims) == {} then Outside(claims) == {} || (OnlyTheLeader(claims) && WinnerCitesMgp(claims))
    else !(OnlyTheLeader(claims) && WinnerCitesMgp(claims))
  }

  /** Exactly when the slots of a run are labelled rightly. */
  lemma {:induction false} LabelRightIff(batches: seq<seq<Edge>>, i: nat)
    requires forall b :: 0 <= b < |batches| ==> AllStamped(batches[b])
    requires i < |Run(batches)|
    ensures Histories(batches)[i] != []
    ensures var slot, claims := Run(batches)[i], Histories(batches)[i];
            (Independent(slot) != {} <==> TrulyIndependent(claims) != {}) <==> LabelCondition(claims)
  {
    RunDescribed(batches);
    var claims := Histories(batches)[i];
    assert Accounted(Run(batches)[i], claims);
    NoEvidenceIff(claims);
    assert TrulyIndependent(claims) <= Outside(claims);
  }

  function Claim(name: Name, source: Source, statedIn: Option<string>): Edge {
    MakeEdge(name, Some("Q1"), None, source, None, "doctoral", statedIn)
  }

  lemma {:induction false} PairRun(a: Edge, b: Edge)
    requires SameAdvisor(Opened(a), b)
    ensures Run([[a, b]]) == [Absorb(Opened(a), b)]
  {
    assert [[a, b]][..0] == [] && [a, b][..1] == [a] && [a][..0] == [];
    assert AllOnRecord([]) == [];
    assert MergeAll([], [a]) == MergeOne(MergeAll([], []), a) == [Opened(a)];
    assert MergeAll([], [a, b]) == MergeOne([Opened(a)], b);
    assert MergedEdges(Run([]), [a, b]) == MergeAll([], [a, b]);
  }

  /** Two relays of one MGP claim vet each other. */
  lemma {:induction false} TwoRelaysVetEachOther(name: Name, tier: Tier) returns (claims: seq<Edge>)
    ensures forall i :: 0 <= i < |claims| ==> Stamped(claims[i]) && CitesMgp(claims[i])
    ensures |Run([claims])| == 1 && Labels(Run([claims])[0]) && TrulyIndependent(claims) == {}
    ensures Vet(Run([claims])[0], tier).vettedBy == {WikidataP185} && !Vet(Run([claims])[0], tier).needsVetting
  {
    var mgp := Some("Mathematics Genealogy Project");
    var a, b := Claim(name, WikidataP184, mgp), Claim(name, WikidataP185, mgp);
    claims := [a, b];
    CapitalsAreFolded(a);
    CapitalsAreFolded(b);
    PairRun(a, b);
    var slot := Absorb(Opened(a), b);
    assert slot.sources == [WikidataP184] + [WikidataP185];
    CapitalsAreFolded(slot);
    assert slot.sources[1] == WikidataP185;
    assert Independent(slot) == {WikidataP185};
  }

  /** A registry that a relay corroborates is discounted in the relay's place. */
  lemma {:induction false} RegistryDiscountedForRelay(name: Name) returns (claims: seq<Edge>)
    ensures forall i :: 0 <= i < |claims| ==> Stamped(claims[i])
    ensures TrulyIndependent(claims) == {ThesesFr} && RelaysOnly(claims) == {WikidataP184}
    ensures |Run([claims])| == 1 && Independent(Run([claims])[0]) == {WikidataP184}
  {
    var a, b := Claim(name, ThesesFr, None), Claim(name, WikidataP184, Some("Mathematics Genealogy Project"));
    claims := [a, b];
    CapitalsAreFolded(b);
    PairRun(a, b);
    var slot := Absorb(Opened(a), b);
    assert slot.sources == [ThesesFr] + [WikidataP184];
    CapitalsAreFolded(slot);
    assert slot.sources[0] == ThesesFr && slot.sources[1] == WikidataP184;
    assert Independent(slot) == {WikidataP184};
    assert !CitesMgp(claims[0]) && CitesMgp(claims[1]) && claims[0].source == Some(ThesesFr);
    assert Outside(claims) == {ThesesFr, WikidataP184};
    assert TrulyIndependent(claims) == {ThesesFr};
  }

  /** One source that claims the edge twice, citing MGP the first time, is discounted with both claims. */
  lemma {:induction false} OwnEvidenceDiscounted(name: Name) returns (claims: seq<Edge>)
    ensures forall i :: 0 <= i < |claims| ==> Stamped(claims[i])
    ensures TrulyIndependent(claims) == {WikidataP184}
    ensures |Run([claims])| == 1 && Independent(Run([claims])[0]) == {}
  {
    var a, b := Claim(name, WikidataP184, Some("Mathematics Genealogy Project")), Claim(name, WikidataP184, None);
    claims := [a, b];
    CapitalsAreFolded(a);
    PairRun(a, b);
    var slot := Absorb(Opened(a), b);
    assert slot.sources == [WikidataP184];
    CapitalsAreFolded(slot);
    assert Independent(slot) == {};
    assert !CitesMgp(claims[1]) && CitesMgp(claims[0]) && claims[1].source == Some(WikidataP184);
  }
}

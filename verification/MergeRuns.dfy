/** Runs of the edge merge over freshly stamped claims: what every slot still says about the claims it
    has absorbed. */
module MergeRuns {
  import opened Options
  import opened Edges

  /** An edge as `make_edge` leaves it: one source, its confidence, no accumulated list. */
  predicate Stamped(e: Edge) {
    e.source.Some? && e.sources == [] && e.confidence == Some(MetaConfidence(e.source.value))
  }

  ghost predicate AllStamped(claims: seq<Edge>) {
    forall i :: 0 <= i < |claims| ==> Stamped(claims[i])
  }

  function ClaimRank(e: Edge): nat {
    Rank(e.confidence)
  }

  /** Claim `w` is the first of greatest confidence. */
  ghost predicate Leads(claims: seq<Edge>, w: nat) {
    && w < |claims|
    && (forall j :: 0 <= j < w ==> ClaimRank(claims[j]) < ClaimRank(claims[w]))
    && forall j :: w <= j < |claims| ==> ClaimRank(claims[j]) <= ClaimRank(claims[w])
  }

  /** Apart from provenance and identifiers, the slot is the claim. */
  predicate Shows(slot: Edge, claim: Edge) {
    slot == claim.(sources := slot.sources, qid := slot.qid, idref := slot.idref, statedIn := slot.statedIn)
  }

  ghost predicate SourcesRecorded(slot: Edge, claims: seq<Edge>) {
    && (forall i :: 0 <= i < |claims| ==> claims[i].source.Some? && claims[i].source.value in slot.sources)
    && (forall s :: s in slot.sources ==> exists i :: 0 <= i < |claims| && claims[i].source == Some(s))
    && forall i, j :: 0 <= i < j < |slot.sources| ==> slot.sources[i] != slot.sources[j]
  }

  /** All QIDs among the claims agree with the slot's, and it has one if any of them does. */
  ghost predicate QidAgreed(slot: Edge, claims: seq<Edge>) {
    && (forall i :: 0 <= i < |claims| && claims[i].qid.Some? ==> claims[i].qid == slot.qid)
    && (slot.qid.Some? ==> exists i :: 0 <= i < |claims| && claims[i].qid == slot.qid)
  }

  /** The slot has an IdRef exactly when some claim does, and it is one of theirs. */
  ghost predicate IdRefFromClaims(slot: Edge, claims: seq<Edge>) {
    && (forall i :: 0 <= i < |claims| && claims[i].idref.Some? ==> slot.idref.Some?)
    && (slot.idref.Some? ==> exists i :: 0 <= i < |claims| && claims[i].idref == slot.idref)
  }

  /** Likewise for the reference behind the statement. */
  ghost predicate StatedFromClaims(slot: Edge, claims: seq<Edge>) {
    && (forall i :: 0 <= i < |claims| && claims[i].statedIn.Some? ==> slot.statedIn.Some?)
    && (slot.statedIn.Some? ==> exists i :: 0 <= i < |claims| && claims[i].statedIn == slot.statedIn)
  }

  ghost predicate LedBy(slot: Edge, claims: seq<Edge>, w: nat) {
    AllStamped(claims) && Leads(claims, w) && Shows(slot, claims[w])
  }

  /** `slot` is what the claims absorbed so far, in order, have made of it. */
  ghost predicate Describes(slot: Edge, claims: seq<Edge>) {
    && (exists w: nat :: LedBy(slot, claims, w))
    && SourcesRecorded(slot, claims)
    && QidAgreed(slot, claims)
    && IdRefFromClaims(slot, claims)
    && StatedFromClaims(slot, claims)
  }

  // ---- Consequences for one slot ----

  lemma CuratedOutranks(s: Source)
    ensures Rank(Some(MetaConfidence(s))) <= 3
    ensures Rank(Some(MetaConfidence(s))) == 3 <==> s == Curated
  {
  }

  lemma {:induction false} LeaderFacts(slot: Edge, claims: seq<Edge>, w: nat)
    requires LedBy(slot, claims, w)
    ensures Stamped(claims[w]) && slot.source == claims[w].source && slot.confidence == claims[w].confidence
    ensures forall i :: 0 <= i < |claims| ==> ClaimRank(claims[i]) <= Rank(slot.confidence)
    ensures Locked(slot) <==> Rank(slot.confidence) == 3
  {
    CuratedOutranks(claims[w].source.value);
  }

  /** Its source is on record, its confidence is the greatest of any recorded source, and it is curated
      exactly when a curated claim is among them. */
  lemma {:induction false} SlotFacts(slot: Edge, claims: seq<Edge>)
    requires Describes(slot, claims)
    ensures slot.source.Some? && slot.source.value in slot.sources
    ensures slot.confidence == Some(MetaConfidence(slot.source.value))
    ensures forall s :: s in slot.sources ==> Rank(Some(MetaConfidence(s))) <= Rank(slot.confidence)
    ensures Locked(slot) <==> Curated in slot.sources
  {
    var w: nat :| LedBy(slot, claims, w);
    LeaderFacts(slot, claims, w);
    forall s | s in slot.sources
      ensures Rank(Some(MetaConfidence(s))) <= Rank(slot.confidence)
    {
      var i :| 0 <= i < |claims| && claims[i].source == Some(s);
      assert Stamped(claims[i]);
    }
  }

  // ---- Steps ----

  lemma {:induction false} OpenDescribes(inc: Edge)
    requires Stamped(inc)
    ensures Describes(Opened(inc), [inc])
  {
    var slot := Opened(inc);
    assert slot.sources == [inc.source.value];
    assert [inc][0] == inc;
    assert LedBy(slot, [inc], 0);
  }

  lemma {:induction false} LeaderAfter(claims: seq<Edge>, w: nat, inc: Edge)
    requires Leads(claims, w)
    ensures Leads(claims + [inc], if ClaimRank(inc) > ClaimRank(claims[w]) then |claims| else w)
  {
    var all := claims + [inc];
    assert forall j :: 0 <= j < |claims| ==> all[j] == claims[j];
    assert forall j :: 0 <= j < |claims| ==> ClaimRank(claims[j]) <= ClaimRank(claims[w]);
  }

  lemma {:induction false} AbsorbLeader(slot: Edge, claims: seq<Edge>, w: nat, inc: Edge)
    requires LedBy(slot, claims, w) && Stamped(inc)
    ensures LedBy(Absorb(slot, inc), claims + [inc], if ClaimRank(inc) > ClaimRank(claims[w]) then |claims| else w)
  {
    LeaderFacts(slot, claims, w);
    CuratedOutranks(inc.source.value);
    assert Overrides(slot, inc) <==> ClaimRank(inc) > ClaimRank(claims[w]);
    LeaderAfter(claims, w, inc);
    assert AllStamped(claims + [inc]);
  }

  lemma {:induction false} AbsorbSources(slot: Edge, claims: seq<Edge>, inc: Edge)
    requires SourcesRecorded(slot, claims) && inc.source.Some?
    ensures SourcesRecorded(Absorb(slot, inc), claims + [inc])
  {
    var all, sources := claims + [inc], WithSource(slot.sources, inc.source);
    assert Absorb(slot, inc).sources == sources;
    forall s | s in sources
      ensures exists i :: 0 <= i < |all| && all[i].source == Some(s)
    {
      if s in slot.sources {
        var i :| 0 <= i < |claims| && claims[i].source == Some(s);
        assert all[i] == claims[i];
      } else {
        assert all[|claims|].source == Some(s);
      }
    }
  }

  lemma {:induction false} AbsorbQid(slot: Edge, claims: seq<Edge>, inc: Edge)
    requires QidAgreed(slot, claims) && SameAdvisor(slot, inc)
    ensures QidAgreed(Absorb(slot, inc), claims + [inc])
  {
    var all, qid := claims + [inc], OrElse(slot.qid, inc.qid);
    assert Absorb(slot, inc).qid == qid;
    assert all[|claims|] == inc;
    if slot.qid.Some? {
      var i :| 0 <= i < |claims| && claims[i].qid == slot.qid;
      assert all[i].qid == qid;
    }
  }

  lemma {:induction false} AbsorbIdRef(slot: Edge, claims: seq<Edge>, inc: Edge)
    requires IdRefFromClaims(slot, claims)
    ensures IdRefFromClaims(Absorb(slot, inc), claims + [inc])
  {
    var all, idref := claims + [inc], Absorb(slot, inc).idref;
    assert idref == OrElse(slot.idref, inc.idref) || idref == OrElse(inc.idref, slot.idref);
    assert all[|claims|] == inc;
    if slot.idref.Some? {
      var i :| 0 <= i < |claims| && claims[i].idref == slot.idref;
      assert all[i].idref == slot.idref;
    }
  }

  lemma {:induction false} AbsorbStated(slot: Edge, claims: seq<Edge>, inc: Edge)
    requires StatedFromClaims(slot, claims)
    ensures StatedFromClaims(Absorb(slot, inc), claims + [inc])
  {
    var all, stated := claims + [inc], Absorb(slot, inc).statedIn;
    assert stated == OrElse(slot.statedIn, inc.statedIn) || stated == OrElse(inc.statedIn, slot.statedIn);
    assert all[|claims|] == inc;
    if slot.statedIn.Some? {
      var i :| 0 <= i < |claims| && claims[i].statedIn == slot.statedIn;
      assert all[i].statedIn == slot.statedIn;
    }
  }

  lemma {:induction false} AbsorbDescribes(slot: Edge, claims: seq<Edge>, inc: Edge)
    requires Describes(slot, claims) && Stamped(inc) && SameAdvisor(slot, inc)
    ensures Describes(Absorb(slot, inc), claims + [inc])
  {
    var w: nat :| LedBy(slot, claims, w);
    AbsorbLeader(slot, claims, w, inc);
    AbsorbSources(slot, claims, inc);
    AbsorbQid(slot, claims, inc);
    AbsorbIdRef(slot, claims, inc);
    AbsorbStated(slot, claims, inc);
  }

  // ---- Dealing claims to slots ----

  /** The slot after it has absorbed the claims in turn. */
  function Fold(slot: Edge, claims: seq<Edge>): Edge {
    if claims == [] then slot else Absorb(Fold(slot, claims[..|claims| - 1]), claims[|claims| - 1])
  }

  /** What claims make of a slot that the first of them opens. */
  function SlotOf(claims: seq<Edge>): Edge
    requires claims != []
  {
    Fold(Opened(claims[0]), claims[1..])
  }

  type History = seq<seq<Edge>>

  /** A claim goes to the first slot that denotes its advisor, or opens one. */
  function DealOne(slots: seq<Edge>, history: History, inc: Edge): History
    requires |history| == |slots|
  {
    var i := FirstMatch(slots, inc);
    if i == |slots| then history + [[inc]] else history[i := history[i] + [inc]]
  }

  function DealAll(slots: seq<Edge>, history: History, incoming: seq<Edge>): (after: History)
    requires |history| == |slots|
    ensures |after| == |MergeAll(slots, incoming)|
  {
    if incoming == [] then history
    else
      var init := incoming[..|incoming| - 1];
      DealOne(MergeAll(slots, init), DealAll(slots, history, init), incoming[|incoming| - 1])
  }

  /** All claims of a history. */
  ghost function Bag(history: History): multiset<Edge> {
    if history == [] then multiset{}
    else Bag(history[..|history| - 1]) + multiset(history[|history| - 1])
  }

  lemma {:induction false} BagAfter(history: History, i: nat, inc: Edge)
    requires i < |history|
    ensures Bag(history[i := history[i] + [inc]]) == Bag(history) + multiset{inc}
  {
    var n := |history|;
    if i < n - 1 {
      BagAfter(history[..n - 1], i, inc);
      assert history[i := history[i] + [inc]][..n - 1] == history[..n - 1][i := history[i] + [inc]];
    } else {
      assert history[i := history[i] + [inc]][..n - 1] == history[..n - 1];
    }
  }

  lemma {:induction false} FoldSnoc(slot: Edge, claims: seq<Edge>, inc: Edge)
    ensures Fold(slot, claims + [inc]) == Absorb(Fold(slot, claims), inc)
  {
    assert (claims + [inc])[..|claims|] == claims;
  }

  lemma {:induction false} SlotOfSnoc(claims: seq<Edge>, inc: Edge)
    requires claims != []
    ensures SlotOf(claims + [inc]) == Absorb(SlotOf(claims), inc)
  {
    assert (claims + [inc])[1..] == claims[1..] + [inc];
    FoldSnoc(Opened(claims[0]), claims[1..], inc);
  }

  /** The slot is what its claims have made of it, and its claims describe it. */
  ghost predicate Accounted(slot: Edge, claims: seq<Edge>) {
    claims != [] && slot == SlotOf(claims) && Describes(slot, claims)
  }

  ghost predicate AllAccounted(slots: seq<Edge>, history: History) {
    |slots| == |history| && forall i :: 0 <= i < |slots| ==> Accounted(slots[i], history[i])
  }

  lemma {:induction false} OneMoreClaim(slots: seq<Edge>, history: History, inc: Edge)
    requires AllAccounted(slots, history) && Stamped(inc)
    ensures AllAccounted(MergeOne(slots, inc), DealOne(slots, history, inc))
    ensures Bag(DealOne(slots, history, inc)) == Bag(history) + multiset{inc}
  {
    var i, after := FirstMatch(slots, inc), DealOne(slots, history, inc);
    if i == |slots| {
      OpenDescribes(inc);
      assert SlotOf([inc]) == Opened(inc);
      assert after[..|history|] == history;
    } else {
      AbsorbDescribes(slots[i], history[i], inc);
      SlotOfSnoc(history[i], inc);
      BagAfter(history, i, inc);
    }
  }

  lemma {:induction false} MoreClaims(slots: seq<Edge>, history: History, incoming: seq<Edge>)
    requires AllAccounted(slots, history) && AllStamped(incoming)
    ensures AllAccounted(MergeAll(slots, incoming), DealAll(slots, history, incoming))
    ensures Bag(DealAll(slots, history, incoming)) == Bag(history) + multiset(incoming)
  {
    if incoming != [] {
      var init, last := incoming[..|incoming| - 1], incoming[|incoming| - 1];
      assert incoming == init + [last];
      MoreClaims(slots, history, init);
      OneMoreClaim(MergeAll(slots, init), DealAll(slots, history, init), last);
    }
  }

  lemma AccountedOnRecord(slots: seq<Edge>, history: History)
    requires AllAccounted(slots, history)
    ensures AllOnRecord(slots) == slots
  {
    forall i | 0 <= i < |slots|
      ensures OnRecord(slots[i]) == slots[i]
    {
      SlotFacts(slots[i], history[i]);
    }
  }

  // ---- Runs ----

  /** The slots after merging batch after batch, from nothing. */
  function Run(batches: seq<seq<Edge>>): seq<Edge> {
    if batches == [] then []
    else MergedEdges(Run(batches[..|batches| - 1]), batches[|batches| - 1])
  }

  /** The claims each slot of a run has absorbed, in order. */
  ghost function Histories(batches: seq<seq<Edge>>): (history: History)
    ensures |history| == |Run(batches)|
  {
    if batches == [] then []
    else
      var init := batches[..|batches| - 1];
      DealAll(AllOnRecord(Run(init)), Histories(init), batches[|batches| - 1])
  }

  ghost function Claims(batches: seq<seq<Edge>>): multiset<Edge> {
    if batches == [] then multiset{}
    else Claims(batches[..|batches| - 1]) + multiset(batches[|batches| - 1])
  }

  /** After any run over stamped claims, the claims that went to the slots are all claims, none lost and none
      counted twice, and each slot is what its own claims have made of it. */
  lemma {:induction false} RunDescribed(batches: seq<seq<Edge>>)
    requires forall b :: 0 <= b < |batches| ==> AllStamped(batches[b])
    ensures AllAccounted(Run(batches), Histories(batches)) && Bag(Histories(batches)) == Claims(batches)
  {
    if batches != [] {
      var init := batches[..|batches| - 1];
      RunDescribed(init);
      AccountedOnRecord(Run(init), Histories(init));
      MoreClaims(Run(init), Histories(init), batches[|batches| - 1]);
    }
  }

  /** After any run over stamped claims, every slot has its source on record, the confidence of that source,
      which is the greatest of any on record, and is curated exactly when a curated claim is on record. */
  lemma {:induction false} RunFacts(batches: seq<seq<Edge>>, i: nat)
    requires forall b :: 0 <= b < |batches| ==> AllStamped(batches[b])
    requires i < |Run(batches)|
    ensures var slot := Run(batches)[i];
            && slot.source.Some? && slot.source.value in slot.sources
            && slot.confidence == Some(MetaConfidence(slot.source.value))
            && (forall s :: s in slot.sources ==> Rank(Some(MetaConfidence(s))) <= Rank(slot.confidence))
            && (Locked(slot) <==> Curated in slot.sources)
  {
    RunDescribed(batches);
    SlotFacts(Run(batches)[i], Histories(batches)[i]);
  }

  /** No slot of a run ever absorbs claims with two different QIDs, and its sources are those of the claims it
      has absorbed. */
  lemma {:induction false} RunNeverMixesQids(batches: seq<seq<Edge>>, i: nat)
    requires forall b :: 0 <= b < |batches| ==> AllStamped(batches[b])
    requires i < |Run(batches)|
    ensures var slot, claims := Run(batches)[i], Histories(batches)[i];
            && (forall m, n :: 0 <= m < |claims| && 0 <= n < |claims| && claims[m].qid.Some? && claims[n].qid.Some?
                  ==> claims[m].qid == claims[n].qid == slot.qid)
            && forall s :: s in slot.sources <==> exists m :: 0 <= m < |claims| && claims[m].source == Some(s)
  {
    RunDescribed(batches);
    assert Accounted(Run(batches)[i], Histories(batches)[i]);
    assert SourcesRecorded(Run(batches)[i], Histories(batches)[i]);
  }

  /** `after` keeps all that `before` has on record, its QID and its lock. */
  predicate Extends(before: Edge, after: Edge) {
    && (forall i :: 0 <= i < |before.sources| ==> before.sources[i] in after.sources)
    && (before.qid.Some? ==> after.qid == before.qid)
    && (before.idref.Some? ==> after.idref.Some?)
    && Rank(before.confidence) <= Rank(after.confidence)
    && (Locked(before) ==> Locked(after))
  }

  lemma {:induction false} AbsorbExtends(cur: Edge, inc: Edge)
    ensures Extends(cur, Absorb(cur, inc))
  {
  }

  lemma {:induction false} ExtendsTwice(a: Edge, b: Edge, c: Edge)
    requires Extends(a, b) && Extends(b, c)
    ensures Extends(a, c)
  {
    forall i | 0 <= i < |a.sources|
      ensures a.sources[i] in c.sources
    {
      assert a.sources[i] in b.sources;
      var j :| 0 <= j < |b.sources| && b.sources[j] == a.sources[i];
    }
  }

  /** Merging more edges, of whatever shape, never takes a slot away or makes it lose a recorded
      source, a QID, confidence or a floor lock. */
  lemma {:induction false} MergeExtends(slots: seq<Edge>, incoming: seq<Edge>, i: nat)
    requires i < |slots|
    ensures Extends(slots[i], MergeAll(slots, incoming)[i])
  {
    if incoming != [] {
      var init, last := incoming[..|incoming| - 1], incoming[|incoming| - 1];
      MergeExtends(slots, init, i);
      AbsorbExtends(MergeAll(slots, init)[i], last);
      ExtendsTwice(slots[i], MergeAll(slots, init)[i], MergeAll(slots, incoming)[i]);
    }
  }

  /** Later batches extend the slots of earlier ones. */
  lemma {:induction false} RunExtends(batches: seq<seq<Edge>>, n: nat, i: nat)
    requires n <= |batches| && i < |Run(batches[..n])|
    ensures |Run(batches[..n])| <= |Run(batches)| && Extends(Run(batches[..n])[i], Run(batches)[i])
    decreases |batches|
  {
    if n == |batches| {
      assert batches[..n] == batches;
    } else {
      var init := batches[..|batches| - 1];
      assert init[..n] == batches[..n];
      RunExtends(init, n, i);
      MergeExtends(AllOnRecord(Run(init)), batches[|batches| - 1], i);
      assert Extends(Run(init)[i], AllOnRecord(Run(init))[i]);
      ExtendsTwice(Run(batches[..n])[i], Run(init)[i], AllOnRecord(Run(init))[i]);
      ExtendsTwice(Run(batches[..n])[i], AllOnRecord(Run(init))[i], Run(batches)[i]);
    }
  }
}

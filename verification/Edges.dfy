/** Advisor edges with provenance, and their fusion (`make_edge`, `_same_advisor`, `_traces_to_mgp` and
    `merge_advisor_edges` of the enrichment build).  Empty strings count as missing. */
module Edges {
  import opened Names
  import opened Options
  import opened Regime
  import opened Strings

  datatype Confidence = Low | Medium | High | Verified

  datatype Source =
    | Curated | MgpSeed | Mgp | WikidataP184 | WikidataP185 | ThesesFr | Sudoc | MathTree | Referenced
    | OtherSource(name: string)

  datatype Edge = Edge(
    name: Name, source: Option<Source>, sources: seq<Source>, confidence: Option<Confidence>, relation: string,
    qid: Option<string>, idref: Option<string>, year: Option<int>, statedIn: Option<string>, qidDup: Option<string>,
    vettedBy: set<Source>, needsVetting: bool, relationDisputed: bool, vettingTier: Option<Tier>,
    notes: map<string, string>)

  /** Confidence tier of a source; unlisted ones are low. */
  function MetaConfidence(s: Source): Confidence {
    match s
    case Curated => Verified
    case WikidataP184 | WikidataP185 | ThesesFr | Sudoc => High
    case MgpSeed | Mgp | MathTree => Medium
    case Referenced | OtherSource(_) => Low
  }

  function Rank(c: Option<Confidence>): nat {
    match c
    case Some(Verified) => 3
    case Some(High) => 2
    case Some(Medium) => 1
    case _ => 0
  }

  predicate MgpDerived(s: Source) {
    s == Mgp || s == MgpSeed
  }

  /** Only hand-adjudicated data is floor-locked. */
  predicate Locked(e: Edge) {
    e.source == Some(Curated)
  }

  predicate CitesMgp(e: Edge) {
    e.statedIn.Some? && Contains(Lower(e.statedIn.value), "genealogy project")
  }

  /** The reference as Wikidata prints it, with capitals, is recognised. */
  lemma CapitalsAreFolded(e: Edge)
    requires e.statedIn == Some("Mathematics Genealogy Project")
    ensures CitesMgp(e)
  {
    LowerOfConcat("Genealogy", " Project");
    assert Lower("Genealogy") == "genealogy" && Lower(" Project") == " project";
    assert "Mathematics Genealogy Project" == "Mathematics " + ("Genealogy" + " Project");
    LowerContains("Mathematics ", "Genealogy" + " Project", "genealogy project");
  }

  /** The edge's provenance ultimately reaches MGP. */
  predicate TracesToMgp(e: Edge) {
    || (e.source.Some? && MgpDerived(e.source.value))
    || (exists i :: 0 <= i < |e.sources| && MgpDerived(e.sources[i]))
    || CitesMgp(e)
  }

  function MakeEdge(name: Name, qid: Option<string>, idref: Option<string>, source: Source, year: Option<int>,
                    relation: string, statedIn: Option<string>): Edge {
    Edge(name, Some(source), [], Some(MetaConfidence(source)), relation, qid, idref, year, statedIn, None,
         {}, false, false, None, map[])
  }

  /** Two edges denote one advisor: QID decides if both have one, else IdRef, else the name. */
  predicate SameAdvisor(a: Edge, b: Edge) {
    if a.qid.Some? && b.qid.Some? then a.qid == b.qid
    else if a.idref.Some? && b.idref.Some? then a.idref == b.idref
    else NormalizeKey(a.name) != NO_KEY && NormalizeKey(a.name) == NormalizeKey(b.name)
  }

  // ---- Fusing one claim into one slot ----

  function OrElse<T>(a: Option<T>, b: Option<T>): Option<T> {
    if a.Some? then a else b
  }

  function WithSource(sources: seq<Source>, s: Option<Source>): seq<Source> {
    if s.Some? && s.value !in sources then sources + [s.value] else sources
  }

  /** The claim has strictly higher confidence and does not demote a locked slot to an automated one. */
  predicate Overrides(cur: Edge, inc: Edge) {
    Rank(inc.confidence) > Rank(cur.confidence) && !(Locked(cur) && !Locked(inc))
  }

  /** Corroborate `cur` by `inc`, or let `inc` override it while provenance and identifiers survive. */
  function Absorb(cur: Edge, inc: Edge): Edge {
    var filled := cur.(sources := WithSource(cur.sources, inc.source), qid := OrElse(cur.qid, inc.qid),
                       idref := OrElse(cur.idref, inc.idref), statedIn := OrElse(cur.statedIn, inc.statedIn));
    if !Overrides(cur, inc) then filled
    else inc.(sources := filled.sources, qid := OrElse(filled.qid, inc.qid),
              idref := OrElse(inc.idref, filled.idref), statedIn := OrElse(inc.statedIn, filled.statedIn))
  }

  /** First slot that denotes the claim's advisor, or the number of slots. */
  function FirstMatch(slots: seq<Edge>, inc: Edge): (i: nat)
    ensures i <= |slots|
    ensures i < |slots| ==> SameAdvisor(slots[i], inc)
    ensures forall j :: 0 <= j < i ==> !SameAdvisor(slots[j], inc)
  {
    if slots == [] || SameAdvisor(slots[0], inc) then 0 else 1 + FirstMatch(slots[1..], inc)
  }

  /** The slot that a claim without a match becomes: its only recorded source is its own. */
  function Opened(claim: Edge): Edge {
    claim.(sources := WithSource([], claim.source))
  }

  function MergeOne(slots: seq<Edge>, inc: Edge): (merged: seq<Edge>)
    ensures |slots| <= |merged| <= |slots| + 1
  {
    var i := FirstMatch(slots, inc);
    if i == |slots| then slots + [Opened(inc)]
    else slots[i := Absorb(slots[i], inc)]
  }

  /** An existing edge with its own source on record. */
  function OnRecord(e: Edge): Edge {
    e.(sources := WithSource(e.sources, e.source))
  }

  function AllOnRecord(edges: seq<Edge>): seq<Edge> {
    seq(|edges|, i requires 0 <= i < |edges| => OnRecord(edges[i]))
  }

  function MergeAll(slots: seq<Edge>, incoming: seq<Edge>): (merged: seq<Edge>)
    ensures |slots| <= |merged| <= |slots| + |incoming|
  {
    if incoming == [] then slots
    else MergeOne(MergeAll(slots, incoming[..|incoming| - 1]), incoming[|incoming| - 1])
  }

  function MergedEdges(existing: seq<Edge>, incoming: seq<Edge>): seq<Edge> {
    MergeAll(AllOnRecord(existing), incoming)
  }

  lemma {:induction false} FirstMatchIs(slots: seq<Edge>, inc: Edge, i: nat)
    requires i <= |slots| && (i < |slots| ==> SameAdvisor(slots[i], inc))
    requires forall j :: 0 <= j < i ==> !SameAdvisor(slots[j], inc)
    ensures FirstMatch(slots, inc) == i
  {
    if i > 0 {
      FirstMatchIs(slots[1..], inc, i - 1);
    }
  }

  /** The statements that update a matched slot. */
  method AbsorbClaim(slot: Edge, inc: Edge) returns (cur: Edge)
    ensures cur == Absorb(slot, inc)
  {
    cur := slot.(sources := WithSource(slot.sources, inc.source));
    cur := cur.(qid := OrElse(cur.qid, inc.qid), idref := OrElse(cur.idref, inc.idref),
                statedIn := OrElse(cur.statedIn, inc.statedIn));
    if Overrides(cur, inc) {
      var keep := cur;
      cur := inc.(sources := keep.sources);
      cur := cur.(idref := OrElse(cur.idref, keep.idref), statedIn := OrElse(cur.statedIn, keep.statedIn),
                  qid := OrElse(keep.qid, cur.qid));
    }
  }

  /** The search of the source's generator: the first slot that denotes the claim's advisor. */
  method FindMatch(slots: seq<Edge>, inc: Edge) returns (at: nat)
    ensures at == FirstMatch(slots, inc)
  {
    at := 0;
    while at < |slots| && !SameAdvisor(slots[at], inc)
      invariant at <= |slots|
      invariant forall j :: 0 <= j < at ==> !SameAdvisor(slots[j], inc)
    {
      at := at + 1;
    }
    FirstMatchIs(slots, inc, at);
  }

  /** Copy the existing edges with their sources on record, then fill, corroborate or override claim
      by claim. */
  method MergeAdvisorEdges(existing: seq<Edge>, incoming: seq<Edge>) returns (merged: seq<Edge>)
    ensures merged == MergedEdges(existing, incoming)
  {
    merged := [];
    for i := 0 to |existing|
      invariant merged == AllOnRecord(existing)[..i]
    {
      merged := merged + [OnRecord(existing[i])];
    }
    assert merged == AllOnRecord(existing);
    for n := 0 to |incoming|
      invariant merged == MergeAll(AllOnRecord(existing), incoming[..n])
    {
      var inc := incoming[n];
      ghost var before := merged;
      var at := FindMatch(merged, inc);
      if at == |merged| {
        merged := merged + [Opened(inc)];
      } else {
        var slot := AbsorbClaim(merged[at], inc);
        merged := merged[at := slot];
      }
      assert merged == MergeOne(before, inc);
      assert incoming[..n + 1][..n] == incoming[..n];
    }
    assert incoming[..|incoming|] == incoming;
  }

  // ---- What one step keeps, for any edges ----

  lemma AbsorbKeepsIdentity(cur: Edge, inc: Edge)
    requires SameAdvisor(cur, inc)
    ensures cur.qid.Some? ==> Absorb(cur, inc).qid == cur.qid
    ensures inc.qid.Some? ==> Absorb(cur, inc).qid == inc.qid
    ensures forall s :: s in Absorb(cur, inc).sources <==> s in cur.sources || inc.source == Some(s)
    ensures Rank(Absorb(cur, inc).confidence) >= Rank(cur.confidence)
  {
  }

  /** Documented as surviving an override, an IdRef does so exactly when there is no override, or the
      overriding claim has no IdRef of its own or the same. */
  lemma IdRefSurvivesIff(cur: Edge, inc: Edge)
    requires cur.idref.Some?
    ensures Absorb(cur, inc).idref == cur.idref <==> !Overrides(cur, inc) || inc.idref.None? || inc.idref == cur.idref
  {
  }

  /** One slot and one claim that share a QID: the override loses the slot's IdRef for good. */
  lemma IdRefIsLost(name: Name)
    ensures var cur := MakeEdge(name, Some("Q1"), Some("idref-a"), Mgp, None, "doctoral", None);
            var inc := MakeEdge(name, Some("Q1"), Some("idref-b"), ThesesFr, None, "doctoral", None);
            MergedEdges([cur], [inc]) == [inc.(sources := [Mgp, ThesesFr])]
  {
    var cur := MakeEdge(name, Some("Q1"), Some("idref-a"), Mgp, None, "doctoral", None);
    var inc := MakeEdge(name, Some("Q1"), Some("idref-b"), ThesesFr, None, "doctoral", None);
    var slots := [OnRecord(cur)];
    assert AllOnRecord([cur]) == slots;
    assert [inc][..0] == [];
    assert MergeAll(slots, [inc]) == MergeOne(MergeAll(slots, []), inc) == MergeOne(slots, inc);
    assert SameAdvisor(slots[0], inc);
    assert OnRecord(cur).sources == [] + [Mgp];
    assert MergeOne(slots, inc) == slots[0 := Absorb(slots[0], inc)];
    assert Absorb(slots[0], inc) == inc.(sources := [Mgp] + [ThesesFr]);
    assert [Mgp] + [ThesesFr] == [Mgp, ThesesFr];
  }

  /** The list that an incoming edge has accumulated elsewhere survives the merge exactly when each entry
      is the edge's own source or already on the slot it joins: otherwise it is dropped. */
  lemma {:induction false} IncomingSourcesSurviveIff(slots: seq<Edge>, inc: Edge)
    ensures var at := FirstMatch(slots, inc);
            (forall s :: s in inc.sources ==> s in MergeOne(slots, inc)[at].sources)
            <==> forall s :: s in inc.sources ==> inc.source == Some(s) || (at < |slots| && s in slots[at].sources)
  {
    var at := FirstMatch(slots, inc);
    assert MergeOne(slots, inc)[at].sources
        == if at == |slots| then WithSource([], inc.source) else WithSource(slots[at].sources, inc.source);
  }
}

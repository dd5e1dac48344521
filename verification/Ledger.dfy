/** What a ledger leaves behind: what each entry takes, what it spares, and what of an entry is left after all later
    ones. */
module Ledger {
  import opened Names
  import opened Options
  import opened Edges
  import opened Filters
  import opened Records
  import opened Stages
  import opened Corrections
  import opened Adjudication
  import AliasMerge

  /** The edge is to the advisor that the entry names: the same QID if both have one, else the same IdRef if both have
      one, else a name with the same key. */
  predicate Denotes(e: Edge, c: Correction) {
    match (e.qid, c.qid)
    case (Some(q), Some(q')) => q == q'
    case _ =>
      match (e.idref, c.idref)
      case (Some(i), Some(i')) => i == i'
      case _ => NormalizeKey(c.advisor) != NO_KEY && NormalizeKey(e.name) == NormalizeKey(c.advisor)
  }

  lemma DenotesIs(e: Edge, c: Correction)
    ensures Denotes(e, c) <==> SameAdvisor(e, Probe(c))
    ensures Denotes(e, c) <==> SameAdvisor(OnRecord(e), CuratedEdge(c))
  {
  }

  /** The entry leaves all records alone but the student's, and of that everything but the advisors. */
  ghost predicate OnlyAdvisors(g: Graph, g': Graph, k: Key) {
    && g'.Keys == g.Keys && k in g
    && (forall x :: x in g && x != k ==> g'[x] == g[x])
    && g'[k] == g[k].(advisors := g'[k].advisors)
  }

  function Other(c: Correction): EdgeTest {
    (e: Edge) => !Denotes(e, c)
  }

  lemma {:induction false} WithoutIs(edges: seq<Edge>, c: Correction)
    ensures Without(edges, Probe(c)) == Keep(edges, Other(c))
  {
    forall i | 0 <= i < |edges|
      ensures Denotes(edges[i], c) <==> SameAdvisor(edges[i], Probe(c))
    {
      DenotesIs(edges[i], c);
    }
    KeepAgrees(edges, e => !SameAdvisor(e, Probe(c)), Other(c));
  }

  lemma {:induction false} RetractionKeeps(g: Graph, c: Correction)
    requires Matched(g, c) && c.action == Retract
    ensures OnlyAdvisors(g, Corrections.Correct(g, c), NormalizeKey(c.student))
    ensures AdvisorsOf(Corrections.Correct(g, c)[NormalizeKey(c.student)])
         == Keep(AdvisorsOf(g[NormalizeKey(c.student)]), Other(c))
  {
    WithoutIs(AdvisorsOf(g[NormalizeKey(c.student)]), c);
    KeepFacts(AdvisorsOf(g[NormalizeKey(c.student)]), Other(c));
  }

  /** A retraction takes exactly the edges to the advisor it names: the others stay, unchanged and in order. */
  lemma {:induction false} RetractionIs(g: Graph, c: Correction) returns (origin: seq<nat>)
    requires Matched(g, c) && c.action == Retract
    ensures var k, g' := NormalizeKey(c.student), Corrections.Correct(g, c);
            OnlyAdvisors(g, g', k) && Sublist(AdvisorsOf(g[k]), Other(c), AdvisorsOf(g'[k]), origin)
  {
    RetractionKeeps(g, c);
    origin := KeepIsSublist(AdvisorsOf(g[NormalizeKey(c.student)]), Other(c));
  }

  /** So whatever is said of an edge holds of one afterwards exactly if it held of one to another advisor. */
  lemma {:induction false} RetractionSparesIff(g: Graph, c: Correction, fact: EdgeTest)
    requires Matched(g, c) && c.action == Retract
    ensures var edges := AdvisorsOf(g[NormalizeKey(c.student)]);
            NormalizeKey(c.student) in Corrections.Correct(g, c)
            && (AliasMerge.Has(AdvisorsOf(Corrections.Correct(g, c)[NormalizeKey(c.student)]), fact)
                <==> exists i :: 0 <= i < |edges| && fact(edges[i]) && !Denotes(edges[i], c))
  {
    RetractionKeeps(g, c);
    KeepHas(AdvisorsOf(g[NormalizeKey(c.student)]), Other(c), fact);
    assert forall e :: Other(c)(e) <==> !Denotes(e, c);
  }

  // ---- What an assertion changes ----

  /** The edge is the first to the advisor that the entry names. */
  ghost predicate FirstDenoted(edges: seq<Edge>, c: Correction, at: nat) {
    at < |edges| && Denotes(edges[at], c) && forall i :: 0 <= i < at ==> !Denotes(edges[i], c)
  }

  /** `e'` is `e` but for the sources on record, of which none is lost. */
  ghost predicate SameButSources(e: Edge, e': Edge) {
    e' == e.(sources := e'.sources) && forall s :: s in e.sources ==> s in e'.sources
  }

  /** The edge that an entry mints. */
  ghost predicate Mints(e: Edge, c: Correction) {
    && e.source == Some(Curated) && e.confidence == Some(Verified) && e.name == c.advisor
    && e.relation == c.relation && e.notes == c.notes && e.year.None? && e.qidDup.None? && Curated in e.sources
    && (c.qid.Some? ==> e.qid == c.qid) && (c.idref.Some? ==> e.idref == c.idref)
  }

  lemma {:induction false} TargetIs(edges: seq<Edge>, c: Correction)
    ensures Target(edges, c) <= |edges|
    ensures Target(edges, c) < |edges| ==> FirstDenoted(edges, c, Target(edges, c))
    ensures Target(edges, c) == |edges| ==> forall i :: 0 <= i < |edges| ==> !Denotes(edges[i], c)
  {
    forall i | 0 <= i < |edges|
      ensures Denotes(edges[i], c) <==> SameAdvisor(AllOnRecord(edges)[i], CuratedEdge(c))
    {
      DenotesIs(edges[i], c);
    }
  }

  /** A verified edge only takes up the identifiers it lacks. */
  ghost predicate FilledUp(e: Edge, e': Edge, c: Correction) {
    && e' == e.(sources := e'.sources, qid := e'.qid, idref := e'.idref)
    && (forall s :: s in e.sources ==> s in e'.sources)
    && e'.qid == (if e.qid == None then c.qid else e.qid) && e'.idref == (if e.idref == None then c.idref else e.idref)
  }

  lemma {:induction false} SlotAfter(e: Edge, c: Correction)
    requires Denotes(e, c)
    ensures var e' := Absorb(OnRecord(e), CuratedEdge(c));
            if Rank(e.confidence) == 3 then FilledUp(e, e', c) else Mints(e', c)
  {
    var inc := CuratedEdge(c);
    assert Curated in WithSource(OnRecord(e).sources, inc.source);
    assert Rank(inc.confidence) == 3;
  }

  /** Only the first edge to the advisor changes, or one is appended if there is none.  Unless it was verified already,
      it is minted anew. */
  ghost predicate AssertedAt(edges: seq<Edge>, edges': seq<Edge>, c: Correction, at: nat) {
    && at <= |edges| && |edges'| == (if at < |edges| then |edges| else |edges| + 1)
    && (forall i :: 0 <= i < |edges| && i != at ==> SameButSources(edges[i], edges'[i]))
    && (if at < |edges| then FirstDenoted(edges, c, at) else forall i :: 0 <= i < |edges| ==> !Denotes(edges[i], c))
    && (if at < |edges| && Rank(edges[at].confidence) == 3 then FilledUp(edges[at], edges'[at], c)
        else Mints(edges'[at], c))
  }

  lemma {:induction false} OpenedMints(c: Correction)
    ensures Mints(Opened(CuratedEdge(c)), c)
  {
    assert Opened(CuratedEdge(c)).sources == [Curated];
  }

  lemma {:induction false} MergedIs(edges: seq<Edge>, c: Correction)
    ensures AssertedAt(edges, MergedEdges(edges, [CuratedEdge(c)]), c, Target(edges, c))
  {
    var at, edges' := Target(edges, c), MergedEdges(edges, [CuratedEdge(c)]);
    TargetIs(edges, c);
    MergeOneIs(edges, CuratedEdge(c));
    forall i | 0 <= i < |edges| && i != at
      ensures SameButSources(edges[i], edges'[i])
    {
      assert edges'[i] == OnRecord(edges[i]);
    }
    if at < |edges| {
      SlotAfter(edges[at], c);
      assert edges'[at] == Absorb(OnRecord(edges[at]), CuratedEdge(c));
    } else {
      OpenedMints(c);
    }
  }

  lemma {:induction false} AssertionIs(g: Graph, c: Correction) returns (at: nat)
    requires OutcomeOf(g, c) == Asserted
    ensures var k, g' := NormalizeKey(c.student), Corrections.Correct(g, c);
            OnlyAdvisors(g, g', k) && AssertedAt(AdvisorsOf(g[k]), AdvisorsOf(g'[k]), c, at)
  {
    at := Target(AdvisorsOf(g[NormalizeKey(c.student)]), c);
    MergedIs(AdvisorsOf(g[NormalizeKey(c.student)]), c);
  }

  // ---- Outcomes ----

  /** Some edge of the student is to the advisor that the entry names. */
  ghost predicate Listed(g: Graph, c: Correction) {
    Matched(g, c) && exists i :: 0 <= i < |AdvisorsOf(g[NormalizeKey(c.student)])|
                                 && Denotes(AdvisorsOf(g[NormalizeKey(c.student)])[i], c)
  }

  /** What each outcome means, and that only the first two change the graph. */
  lemma {:induction false} OutcomeIs(g: Graph, c: Correction)
    ensures OutcomeOf(g, c) == Retracted <==> c.action == Retract && Listed(g, c)
    ensures OutcomeOf(g, c) == Asserted <==> c.action == Assert && Matched(g, c) && (c.qid.Some? || c.idref.Some?)
    ensures OutcomeOf(g, c) == Refused
       <==> Matched(g, c) && (c.action == Unknown || (c.action == Assert && c.qid.None? && c.idref.None?))
    ensures OutcomeOf(g, c) in {Refused, Unmatched} ==> Corrections.Correct(g, c) == g
  {
    if Matched(g, c) {
      var edges := AdvisorsOf(g[NormalizeKey(c.student)]);
      WithoutIs(edges, c);
      KeepFacts(edges, Other(c));
    }
  }

  // ---- An assertion among later entries ----

  /** By identifiers of one kind, the entries name two advisors. */
  predicate NamesAnother(c: Correction, d: Correction) {
    || (c.qid.Some? && d.qid.Some? && c.qid != d.qid)
    || (c.qid.None? && d.qid.None? && c.idref.Some? && d.idref.Some? && c.idref != d.idref)
  }

  lemma {:induction false} AffirmedIsOther(e: Edge, c: Correction, d: Correction)
    requires AffirmedBy(e, c) && NamesAnother(c, d)
    ensures !Denotes(e, d)
  {
  }

  lemma {:induction false} MergeKeepsAffirmed(edges: seq<Edge>, c: Correction, d: Correction)
    requires All(edges, CuratedIffVerified()) && (c.qid.Some? || c.idref.Some?) && Affirmed(edges, c)
    ensures Affirmed(MergedEdges(edges, [CuratedEdge(d)]), c)
  {
    var at, edges' := Target(edges, d), MergedEdges(edges, [CuratedEdge(d)]);
    var i :| 0 <= i < |edges| && AffirmedBy(edges[i], c);
    MergedIs(edges, d);
    assert CuratedIffVerified()(edges[i]);
    assert AffirmedBy(edges'[i], c);
  }

  /** Any entry leaves the student what an assertion has affirmed, but a retraction that names the affirmed advisor. */
  lemma {:induction false} EntryKeepsAffirmed(g: Graph, k: Key, c: Correction, d: Correction)
    requires Everywhere(g, CuratedIffVerified()) && (c.qid.Some? || c.idref.Some?)
    requires k in g && Affirmed(AdvisorsOf(g[k]), c)
    requires d.action == Retract && NormalizeKey(d.student) == k ==> NamesAnother(c, d)
    ensures k in Corrections.Correct(g, d) && Affirmed(AdvisorsOf(Corrections.Correct(g, d)[k]), c)
  {
    OutcomeIs(g, d);
    if OutcomeOf(g, d) == Asserted {
      var at := AssertionIs(g, d);
      if NormalizeKey(d.student) == k {
        MergeKeepsAffirmed(AdvisorsOf(g[k]), c, d);
      }
    } else if OutcomeOf(g, d) == Retracted {
      RetractionKeeps(g, d);
      if NormalizeKey(d.student) == k {
        var i :| 0 <= i < |AdvisorsOf(g[k])| && AffirmedBy(AdvisorsOf(g[k])[i], c);
        AffirmedIsOther(AdvisorsOf(g[k])[i], c, d);
        assert Affirming(c)(AdvisorsOf(g[k])[i]);
        RetractionSparesIff(g, d, Affirming(c));
        var j :| 0 <= j < |AdvisorsOf(Corrections.Correct(g, d)[k])|
                 && Affirming(c)(AdvisorsOf(Corrections.Correct(g, d)[k])[j]);
        assert AffirmedBy(AdvisorsOf(Corrections.Correct(g, d)[k])[j], c);
      }
    }
  }

  predicate SparesEntry(c: Correction, d: Correction) {
    d.action == Retract && NormalizeKey(d.student) == NormalizeKey(c.student) ==> NamesAnother(c, d)
  }

  /** Up to `m` every retraction from the student of entry `n`, after that entry, names another advisor. */
  ghost predicate NotRetracted(ledger: seq<Correction>, n: nat, m: nat) {
    n < m <= |ledger| && forall i :: n < i < m ==> SparesEntry(ledger[n], ledger[i])
  }

  /** The student's record affirms the assertion. */
  ghost predicate Holds(g: Graph, c: Correction) {
    NormalizeKey(c.student) in g && Affirmed(AdvisorsOf(g[NormalizeKey(c.student)]), c)
  }

  lemma {:induction false} HoldsNext(g: Graph, ledger: seq<Correction>, c: Correction, m: nat)
    requires m < |ledger| && Everywhere(CorrectAll(g, ledger[..m]), CuratedIffVerified())
    requires (c.qid.Some? || c.idref.Some?) && Holds(CorrectAll(g, ledger[..m]), c) && SparesEntry(c, ledger[m])
    ensures Holds(CorrectAll(g, ledger[..m + 1]), c)
  {
    CorrectSnoc(g, ledger, m);
    EntryKeepsAffirmed(CorrectAll(g, ledger[..m]), NormalizeKey(c.student), c, ledger[m]);
  }

  lemma {:induction false} HoldsUpTo(g: Graph, ledger: seq<Correction>, n: nat, m: nat)
    requires Everywhere(g, CuratedIffVerified()) && NotRetracted(ledger, n, m)
    requires OutcomeOf(CorrectAll(g, ledger[..n]), ledger[n]) == Asserted
    requires ledger[n].qid.Some? || ledger[n].idref.Some?
    ensures Holds(CorrectAll(g, ledger[..m]), ledger[n])
    decreases m
  {
    if m == n + 1 {
      LedgerAffirms(g, ledger, n);
    } else {
      HoldsUpTo(g, ledger, n, m - 1);
      CuratedAfterLedger(g, ledger[..m - 1]);
      assert SparesEntry(ledger[n], ledger[m - 1]);
      HoldsNext(g, ledger, ledger[n], m - 1);
    }
  }

  /** An accepted assertion holds at the end of the ledger, if every later retraction from its student names another
      advisor. */
  lemma {:induction false} LedgerKeepsAffirmed(g: Graph, ledger: seq<Correction>, n: nat)
    requires Everywhere(g, CuratedIffVerified()) && NotRetracted(ledger, n, |ledger|)
    requires OutcomeOf(CorrectAll(g, ledger[..n]), ledger[n]) == Asserted
    ensures Holds(CorrectAll(g, ledger), ledger[n])
  {
    OutcomeIs(CorrectAll(g, ledger[..n]), ledger[n]);
    HoldsUpTo(g, ledger, n, |ledger|);
    assert ledger[..|ledger|] == ledger;
  }
}

/** Human-adjudicated corrections (`apply_corrections`): retractions, and assertions of curated edges. */
module Corrections {
  import opened Names
  import opened Options
  import opened Edges
  import opened Records
  import opened Filters

  datatype Action = Retract | Assert | Unknown

  datatype Correction = Correction(
    action: Action, student: Name, advisor: Name, qid: Option<string>, idref: Option<string>, relation: string,
    notes: map<string, string>)

  datatype Outcome = Retracted | Asserted | Refused | Unmatched

  datatype Stats = Stats(retracted: nat, asserted: nat, refused: nat, unmatched: nat)

  /** What an entry's advisor is compared by. */
  function Probe(c: Correction): Edge {
    Edge(c.advisor, None, [], None, "", c.qid, c.idref, None, None, None, {}, false, false, None, map[])
  }

  function CuratedEdge(c: Correction): Edge {
    MakeEdge(c.advisor, c.qid, c.idref, Curated, None, c.relation, None).(notes := c.notes)
  }

  function Without(edges: seq<Edge>, probe: Edge): seq<Edge> {
    Keep(edges, e => !SameAdvisor(e, probe))
  }

  /** The student's key names a record. */
  predicate Matched(g: Graph, c: Correction) {
    NormalizeKey(c.student) != NO_KEY && NormalizeKey(c.student) in g
  }

  function OutcomeOf(g: Graph, c: Correction): Outcome {
    if !Matched(g, c) then Unmatched
    else
      var edges := AdvisorsOf(g[NormalizeKey(c.student)]);
      match c.action
      case Retract => if |Without(edges, Probe(c))| == |edges| then Unmatched else Retracted
      case Assert => if c.qid.None? && c.idref.None? then Refused else Asserted
      case Unknown => Refused
  }

  function Correct(g: Graph, c: Correction): Graph {
    if !Matched(g, c) then g
    else
      var k := NormalizeKey(c.student);
      var edges := AdvisorsOf(g[k]);
      match OutcomeOf(g, c)
      case Retracted => g[k := g[k].(advisors := Some(Without(edges, Probe(c))))]
      case Asserted => g[k := g[k].(advisors := Some(MergedEdges(edges, [CuratedEdge(c)])))]
      case _ => g
  }

  function CorrectAll(g: Graph, ledger: seq<Correction>): Graph {
    if ledger == [] then g
    else Correct(CorrectAll(g, ledger[..|ledger| - 1]), ledger[|ledger| - 1])
  }

  lemma {:induction false} CorrectAllKeys(g: Graph, ledger: seq<Correction>)
    ensures CorrectAll(g, ledger).Keys == g.Keys
  {
    if ledger != [] {
      CorrectAllKeys(g, ledger[..|ledger| - 1]);
    }
  }

  function Count(s: Stats, o: Outcome): Stats {
    match o
    case Retracted => s.(retracted := s.retracted + 1)
    case Asserted => s.(asserted := s.asserted + 1)
    case Refused => s.(refused := s.refused + 1)
    case Unmatched => s.(unmatched := s.unmatched + 1)
  }

  /** The outcome of each entry on the graph its predecessors leave. */
  function StatsOf(g: Graph, ledger: seq<Correction>): Stats {
    if ledger == [] then Stats(0, 0, 0, 0)
    else
      var n := |ledger| - 1;
      Count(StatsOf(g, ledger[..n]), OutcomeOf(CorrectAll(g, ledger[..n]), ledger[n]))
  }

  /** Every entry has one outcome. */
  lemma {:induction false} OutcomesCover(g: Graph, ledger: seq<Correction>)
    ensures var s := StatsOf(g, ledger); s.retracted + s.asserted + s.refused + s.unmatched == |ledger|
  {
    if ledger != [] {
      OutcomesCover(g, ledger[..|ledger| - 1]);
    }
  }

  /** A retraction takes effect on its own record; whether it lasts is another matter (see `Retraction`). */
  lemma RetractionHolds(g: Graph, c: Correction, i: nat)
    requires Matched(g, c) && c.action == Retract
    requires i < |AdvisorsOf(Correct(g, c)[NormalizeKey(c.student)])|
    ensures !SameAdvisor(AdvisorsOf(Correct(g, c)[NormalizeKey(c.student)])[i], Probe(c))
  {
    var edges := AdvisorsOf(g[NormalizeKey(c.student)]);
    KeepFacts(edges, e => !SameAdvisor(e, Probe(c)));
  }

  lemma MergeOneIs(slots: seq<Edge>, inc: Edge)
    ensures MergedEdges(slots, [inc]) == MergeOne(AllOnRecord(slots), inc)
  {
    assert [inc][..0] == [];
    assert MergeAll(AllOnRecord(slots), [inc]) == MergeOne(MergeAll(AllOnRecord(slots), []), inc);
  }

  /** On any edges, an assertion ends in a curated slot exactly unless the first edge that denotes the advisor is
      verified without being curated.  The build makes no such edge (see `Adjudication`). */
  lemma {:induction false} AssertionMints(edges: seq<Edge>, c: Correction)
    requires c.qid.Some? || c.idref.Some?
    ensures var slots, inc := AllOnRecord(edges), CuratedEdge(c);
            var at := FirstMatch(slots, inc);
            && at < |MergedEdges(edges, [inc])|
            && Curated in MergedEdges(edges, [inc])[at].sources
            && (Locked(MergedEdges(edges, [inc])[at])
                <==> !(at < |slots| && Rank(slots[at].confidence) == 3 && !Locked(slots[at])))
  {
    var slots, inc := AllOnRecord(edges), CuratedEdge(c);
    MergeOneIs(edges, inc);
    var at := FirstMatch(slots, inc);
    if at == |slots| {
      assert MergeOne(slots, inc)[at].sources == [Curated];
    } else {
      assert Rank(inc.confidence) == 3;
      assert Curated in WithSource(slots[at].sources, inc.source);
    }
  }
}

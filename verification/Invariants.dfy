/** The invariants I1 to I8 of the graph validator, as predicates. */
module Invariants {
  import opened Names
  import opened Options
  import opened Edges
  import opened Filters
  import opened Records
  import EdgeIntegrity
  import CycleFinder

  type Index = map<string, Key>

  predicate Truthy(v: Value) {
    v != Null && v != Text("") && v != Items([]) && v != Num(0)
  }

  predicate HasId(r: Record) {
    r.gid.Some? && r.gid.value != ""
  }

  function NodeAdvisor(g: Graph): Edge -> bool {
    (e: Edge) => Named(e) && AdvisorKey(e) in g
  }

  /** Keys of the named advisors that are nodes of the graph, in list order. */
  function TargetsIn(g: Graph, edges: seq<Edge>): seq<Key> {
    Select(edges, NodeAdvisor(g), AdvisorKey)
  }

  function Adjacency(g: Graph): CycleFinder.Graph<Key> {
    map k | k in g :: TargetsIn(g, AdvisorsOf(g[k]))
  }

  /** Nobody advises themselves. */
  ghost predicate I1(g: Graph) {
    EdgeIntegrity.NoSelfLoops(g)
  }

  /** Nobody is their own ancestor. */
  ghost predicate I2(g: Graph) {
    CycleFinder.Acyclic(Adjacency(g))
  }

  /** No record lists one advisor twice. */
  ghost predicate I3(g: Graph) {
    EdgeIntegrity.NoDuplicates(g)
  }

  predicate HasProvenance(e: Edge) {
    e.source.Some? && e.confidence.Some?
  }

  /** Every named edge carries its source and confidence. */
  ghost predicate I4(g: Graph) {
    forall k, i :: k in g && 0 <= i < |AdvisorsOf(g[k])| && Named(AdvisorsOf(g[k])[i])
        ==> HasProvenance(AdvisorsOf(g[k])[i])
  }

  /** Every named advisor with a key is a node. */
  ghost predicate I5(g: Graph) {
    forall k, t :: k in g && Advises(g[k], t) && t != NO_KEY ==> t in g
  }

  /** Every record has a canonical form and an identifier. */
  ghost predicate I6(g: Graph) {
    forall k :: k in g ==> Truthy(Get(g[k], "CanonicalLatin")) && HasId(g[k])
  }

  /** The canonical form as I7 compares it. */
  function FormOf(r: Record): Value {
    if Truthy(Get(r, "CanonicalLatin")) then Get(r, "CanonicalLatin") else Text("")
  }

  ghost predicate OneFormPerId(g: Graph) {
    forall k, k' :: k in g && k' in g && HasId(g[k]) && g[k].gid == g[k'].gid ==> FormOf(g[k]) == FormOf(g[k'])
  }

  /** One identifier, one canonical form; the reverse index points at nodes. */
  ghost predicate I7(g: Graph, index: Index) {
    OneFormPerId(g) && forall id :: id in index ==> index[id] in g
  }

  datatype Substance = Substance(qid: Value, institution: Option<string>, hasAdvisors: bool)

  function SubstanceOf(r: Record): Substance {
    Substance(
      if Truthy(Get(r, "QID")) then Get(r, "QID") else Null,
      if r.institution == Some("") then None else r.institution,
      NamedEdges(AdvisorsOf(r)) != [])
  }

  /** Records that share an identifier agree on substance. */
  ghost predicate Lossless(g: Graph) {
    forall k, k' :: k in g && k' in g && HasId(g[k]) && g[k].gid == g[k'].gid
        ==> SubstanceOf(g[k]) == SubstanceOf(g[k'])
  }

  ghost predicate TotalIndex(g: Graph, index: Index) {
    forall k :: k in g && HasId(g[k]) ==> g[k].gid.value in index
  }

  /** Aliasing is lossless, and every identifier is in the index. */
  ghost predicate I8(g: Graph, index: Index) {
    Lossless(g) && TotalIndex(g, index)
  }

  ghost predicate AllInvariants(g: Graph, index: Index) {
    I1(g) && I2(g) && I3(g) && I4(g) && I5(g) && I6(g) && I7(g, index) && I8(g, index)
  }

  // ---- What the build hands to the validator ----

  /** Keys that share an identifier hold one record. */
  ghost predicate AliasesIdentical(g: Graph) {
    forall k, k' :: k in g && k' in g && HasId(g[k]) && g[k].gid == g[k'].gid ==> g[k] == g[k']
  }

  /** Every entry of the index is a node with that identifier. */
  ghost predicate IndexOf(g: Graph, index: Index) {
    forall id :: id in index ==> index[id] in g && g[index[id]].gid == Some(id)
  }

  lemma {:induction false} TargetsInAre(g: Graph, edges: seq<Edge>, t: Key)
    ensures t in TargetsIn(g, edges)
       <==> t in g && exists i :: 0 <= i < |edges| && Named(edges[i]) && AdvisorKey(edges[i]) == t
  {
    SelectHas(edges, NodeAdvisor(g), AdvisorKey, t);
  }

  /** An arc of the advisor graph is a listed advisor that is a node. */
  lemma {:induction false} ArcIs(g: Graph, k: Key, t: Key)
    ensures CycleFinder.Arc(Adjacency(g), k, t) <==> k in g && t in g && Advises(g[k], t)
  {
    if k in g {
      TargetsInAre(g, AdvisorsOf(g[k]), t);
    }
  }

  /** A self-loop is a cycle. */
  lemma {:induction false} AcyclicHasNoLoop(g: Graph)
    requires I2(g)
    ensures I1(g)
  {
    forall k | k in g
      ensures !Advises(g[k], k)
    {
      if Advises(g[k], k) {
        ArcIs(g, k, k);
        assert CycleFinder.ClosedWalk(Adjacency(g), [k, k]);
      }
    }
  }
}

/** What the two tables of the tree builder hold, edge by edge. */
module LineageTables {
  import opened Options
  import opened Filters
  import opened Lineage

  predicate LeavesFrom(e: RawEdge, id: string) {
    e.from == id && e.from != "" && e.to != ""
  }

  function Leaving(id: string): RawEdge -> bool {
    (e: RawEdge) => LeavesFrom(e, id)
  }

  lemma {:induction false} TargetsKept(edges: seq<RawEdge>, id: string)
    ensures |Targets(edges, id)| == |Keep(edges, Leaving(id))|
    ensures forall i :: 0 <= i < |Targets(edges, id)| ==> Targets(edges, id)[i] == Keep(edges, Leaving(id))[i].to
  {
    if edges != [] {
      TargetsKept(edges[..|edges| - 1], id);
    }
  }

  /** The children of a vertex are the targets of its edges that have both ends, in the order of the list, repeats
      kept. */
  lemma {:induction false} TargetsAre(edges: seq<RawEdge>, id: string) returns (out: seq<RawEdge>, origin: seq<nat>)
    ensures Sublist(edges, Leaving(id), out, origin) && |out| == |Targets(edges, id)|
    ensures forall i :: 0 <= i < |out| ==> Targets(edges, id)[i] == out[i].to
  {
    TargetsKept(edges, id);
    out := Keep(edges, Leaving(id));
    origin := KeepIsSublist(edges, Leaving(id));
  }

  /** The edge with both ends that goes from `from` to `to`, and after which none does. */
  ghost predicate LastBetween(edges: seq<RawEdge>, from: string, to: string, i: nat) {
    && i < |edges| && LeavesFrom(edges[i], from) && edges[i].to == to
    && forall j :: i < j < |edges| ==> !(LeavesFrom(edges[j], from) && edges[j].to == to)
  }

  /** The state shows the edge: a dispute hides that it is unverified, and the reference it states stands before its
      source. */
  predicate Shows(state: State, e: RawEdge) {
    && state.disputed == e.relationDisputed
    && (state.unverified <==> e.needsVetting && !e.relationDisputed)
    && state.proposed == e.proposedRelation && state.tier == e.vettingTier
    && (e.statedIn == "" ==> state.source == e.source) && (e.statedIn != "" ==> state.source == e.statedIn)
  }

  /** The state recorded for a pair of vertices is that of the last edge between them. */
  lemma {:induction false} LastStateIs(edges: seq<RawEdge>, from: string, to: string)
    ensures LastState(edges, from, to) == None
       <==> forall i :: 0 <= i < |edges| ==> !(LeavesFrom(edges[i], from) && edges[i].to == to)
    ensures forall i: nat :: LastBetween(edges, from, to, i) ==>
              LastState(edges, from, to).Some? && Shows(LastState(edges, from, to).value, edges[i])
  {
    if edges != [] {
      var n := |edges| - 1;
      LastStateIs(edges[..n], from, to);
      forall i: nat | LastBetween(edges, from, to, i)
        ensures LastState(edges, from, to).Some? && Shows(LastState(edges, from, to).value, edges[i])
      {
        if i < n {
          assert LastBetween(edges[..n], from, to, i);
        }
      }
    }
  }

  predicate HasKey(e: RawEdge, key: string) {
    e.from != "" && e.to != "" && e.from + ['\U{1f}'] + e.to == key
  }

  /** And the state recorded under a key that of the last edge whose ends, joined by the separator, make the key. */
  lemma {:induction false} LastUnderKeyIs(edges: seq<RawEdge>, key: string)
    ensures LastUnderKey(edges, key) == None <==> forall i :: 0 <= i < |edges| ==> !HasKey(edges[i], key)
    ensures forall i: nat :: i < |edges| && HasKey(edges[i], key)
                               && (forall j :: i < j < |edges| ==> !HasKey(edges[j], key))
              ==> LastUnderKey(edges, key).Some? && Shows(LastUnderKey(edges, key).value, edges[i])
  {
    if edges != [] {
      LastUnderKeyIs(edges[..|edges| - 1], key);
    }
  }
}

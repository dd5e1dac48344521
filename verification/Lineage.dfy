/** Unfolding a lineage edge list into a tree (`edgeKey` and `edgesToHierarchy` of the front end). */
module Lineage {
  import opened Options

  /** Vetting state of an edge as the front end shows it. */
  datatype State = State(disputed: bool, unverified: bool, proposed: string, source: string, tier: string)

  /** An edge as the lineage service returns it; missing strings are empty. */
  datatype RawEdge = RawEdge(from: string, to: string, relationDisputed: bool, needsVetting: bool,
                             proposedRelation: string, statedIn: string, source: string, vettingTier: string)

  datatype Tree = Node(id: string, isCycle: bool, children: seq<Child>)
  datatype Child = Child(edge: Option<State>, tree: Tree)

  type Adjacency = map<string, seq<string>>
  type EdgeStates = map<string, State>

  const SEPARATOR: char := '\U{001f}'

  function EdgeKey(from: string, to: string): string {
    from + [SEPARATOR] + to
  }

  function StateOf(e: RawEdge): State {
    State(e.relationDisputed, e.needsVetting && !e.relationDisputed, e.proposedRelation,
          if e.statedIn != "" then e.statedIn else e.source, e.vettingTier)
  }

  /** Edges without both ends are skipped. */
  predicate Usable(e: RawEdge) {
    e.from != "" && e.to != ""
  }

  // ---- What the two tables must hold ----

  /** Targets of the usable edges out of `id`, in list order, repeats kept. */
  function Targets(edges: seq<RawEdge>, id: string): seq<string> {
    if edges == [] then []
    else
      var last := edges[|edges| - 1];
      Targets(edges[..|edges| - 1], id) + if Usable(last) && last.from == id then [last.to] else []
  }

  /** State of the last usable edge from `from` to `to`. */
  function LastState(edges: seq<RawEdge>, from: string, to: string): Option<State> {
    if edges == [] then None
    else
      var last := edges[|edges| - 1];
      if Usable(last) && last.from == from && last.to == to then Some(StateOf(last))
      else LastState(edges[..|edges| - 1], from, to)
  }

  /** State of the last usable edge whose key is `key`. */
  function LastUnderKey(edges: seq<RawEdge>, key: string): Option<State> {
    if edges == [] then None
    else
      var last := edges[|edges| - 1];
      if Usable(last) && EdgeKey(last.from, last.to) == key then Some(StateOf(last))
      else LastUnderKey(edges[..|edges| - 1], key)
  }

  function Kids(childrenOf: Adjacency, id: string): seq<string> {
    if id in childrenOf then childrenOf[id] else []
  }

  function Lookup(edgeState: EdgeStates, key: string): Option<State> {
    if key in edgeState then Some(edgeState[key]) else None
  }

  ghost predicate Indexed(edges: seq<RawEdge>, childrenOf: Adjacency, edgeState: EdgeStates) {
    && (forall id :: Kids(childrenOf, id) == Targets(edges, id))
    && (forall key :: Lookup(edgeState, key) == LastUnderKey(edges, key))
  }

  // ---- The recursive unfolding ----

  /** Expand `id` unless it is already on the path; a repeated vertex becomes a marked leaf. */
  function Build(childrenOf: Adjacency, edgeState: EdgeStates, id: string, path: set<string>): Tree
    decreases childrenOf.Keys - path, 1, 0
  {
    if id in path then Node(id, true, [])
    else Node(id, false, BuildKids(childrenOf, edgeState, id, Kids(childrenOf, id), path))
  }

  /** The subtrees under `id`, in order. */
  function BuildKids(childrenOf: Adjacency, edgeState: EdgeStates, id: string, kids: seq<string>,
                     path: set<string>): (children: seq<Child>)
    requires id !in path && (kids != [] ==> id in childrenOf)
    ensures |children| == |kids|
    decreases childrenOf.Keys - path, 0, |kids|
  {
    if kids == [] then []
    else
      assert id in childrenOf.Keys - path && id !in childrenOf.Keys - (path + {id});
      assert childrenOf.Keys - (path + {id}) < childrenOf.Keys - path;
      [Child(Lookup(edgeState, EdgeKey(id, kids[0])), Build(childrenOf, edgeState, kids[0], path + {id}))]
      + BuildKids(childrenOf, edgeState, id, kids[1..], path)
  }

  lemma {:induction false} BuildKidsAt(childrenOf: Adjacency, edgeState: EdgeStates, id: string, kids: seq<string>,
                                       path: set<string>, j: nat)
    requires id !in path && (kids != [] ==> id in childrenOf) && j < |kids|
    ensures BuildKids(childrenOf, edgeState, id, kids, path)[j]
            == Child(Lookup(edgeState, EdgeKey(id, kids[j])), Build(childrenOf, edgeState, kids[j], path + {id}))
  {
    if j > 0 {
      BuildKidsAt(childrenOf, edgeState, id, kids[1..], path, j - 1);
    }
  }

  // ---- Paths of the tree against walks of the edge list ----

  /** `ids` names the vertices met on the way from the root of `t` down to a node with mark `cycle`. */
  ghost predicate Descends(t: Tree, ids: seq<string>, cycle: bool)
    decreases |ids|
  {
    && ids != [] && ids[0] == t.id
    && if |ids| == 1 then t.isCycle == cycle
       else exists j :: 0 <= j < |t.children| && Descends(t.children[j].tree, ids[1..], cycle)
  }

  ghost predicate WalksFrom(edges: seq<RawEdge>, root: string, ids: seq<string>) {
    && ids != [] && ids[0] == root
    && forall i, j :: 0 <= i && j == i + 1 < |ids| ==> ids[j] in Targets(edges, ids[i])
  }

  ghost predicate Unrepeated(ids: seq<string>) {
    forall i, j :: 0 <= i < j < |ids| ==> ids[i] != ids[j]
  }

  /** A walk that has not yet met `path` or itself, save that its last vertex may repeat. */
  ghost predicate FreshWalk(edges: seq<RawEdge>, root: string, path: set<string>, ids: seq<string>, cycle: bool) {
    && WalksFrom(edges, root, ids)
    && Unrepeated(ids[..|ids| - 1])
    && (forall i :: 0 <= i < |ids| - 1 ==> ids[i] !in path)
    && (cycle <==> ids[|ids| - 1] in path || ids[|ids| - 1] in ids[..|ids| - 1])
  }

  lemma {:induction false} UnrepeatedTail(first: string, rest: seq<string>)
    ensures Unrepeated([first] + rest) <==> Unrepeated(rest) && first !in rest
  {
    var ids := [first] + rest;
    assert forall i :: 0 <= i < |rest| ==> rest[i] == ids[i + 1];
    if Unrepeated(ids) {
      forall i | 0 <= i < |rest|
        ensures rest[i] != first
      {
        assert ids[0] != ids[i + 1];
      }
    }
  }

  lemma {:induction false} WalksTail(edges: seq<RawEdge>, root: string, ids: seq<string>)
    requires |ids| > 1
    ensures WalksFrom(edges, root, ids)
       <==> ids[0] == root && ids[1] in Targets(edges, root) && WalksFrom(edges, ids[1], ids[1..])
  {
    var rest := ids[1..];
    assert forall i :: 0 <= i < |rest| ==> rest[i] == ids[i + 1];
    if WalksFrom(edges, root, ids) {
      forall i, j | 0 <= i && j == i + 1 < |rest| ensures rest[j] in Targets(edges, rest[i]) {
        assert ids[j + 1] in Targets(edges, ids[i + 1]);
      }
    }
    if ids[0] == root && ids[1] in Targets(edges, root) && WalksFrom(edges, ids[1], rest) {
      forall i, j | 0 <= i && j == i + 1 < |ids| ensures ids[j] in Targets(edges, ids[i]) {
        if i > 0 {
          assert rest[j - 1] in Targets(edges, rest[i - 1]);
        }
      }
    }
  }

  lemma {:induction false} WalkTail(edges: seq<RawEdge>, root: string, path: set<string>, ids: seq<string>, cycle: bool)
    requires |ids| > 1
    ensures FreshWalk(edges, root, path, ids, cycle)
            <==> ids[0] == root && root !in path && ids[1] in Targets(edges, root)
                 && FreshWalk(edges, ids[1], path + {root}, ids[1..], cycle)
  {
    var rest := ids[1..];
    WalksTail(edges, root, ids);
    UnrepeatedTail(ids[0], rest[..|rest| - 1]);
    assert ids[..|ids| - 1] == [ids[0]] + rest[..|rest| - 1];
    assert forall i :: 0 <= i < |rest| ==> rest[i] == ids[i + 1];
    if FreshWalk(edges, root, path, ids, cycle) {
      forall i | 0 <= i < |rest| - 1 ensures rest[i] !in path + {root} {
        assert rest[..|rest| - 1][i] in rest[..|rest| - 1];
      }
    }
  }

  /** Root-to-node paths of the unfolding are exactly the walks whose vertices are distinct, except
      that the last may repeat, and a node is marked exactly when it does. */
  lemma {:induction false} PathsAreWalks(edges: seq<RawEdge>, childrenOf: Adjacency, edgeState: EdgeStates,
                                         root: string, path: set<string>, ids: seq<string>, cycle: bool)
    requires Indexed(edges, childrenOf, edgeState)
    ensures Descends(Build(childrenOf, edgeState, root, path), ids, cycle)
       <==> FreshWalk(edges, root, path, ids, cycle)
    decreases |ids|
  {
    var t := Build(childrenOf, edgeState, root, path);
    if |ids| > 1 {
      WalkTail(edges, root, path, ids, cycle);
      if root !in path {
        var kids := Targets(edges, root);
        assert Kids(childrenOf, root) == kids;
        forall j | 0 <= j < |kids|
          ensures t.children[j].tree == Build(childrenOf, edgeState, kids[j], path + {root})
          ensures Descends(t.children[j].tree, ids[1..], cycle)
              <==> FreshWalk(edges, kids[j], path + {root}, ids[1..], cycle)
        {
          BuildKidsAt(childrenOf, edgeState, root, kids, path, j);
          PathsAreWalks(edges, childrenOf, edgeState, kids[j], path + {root}, ids[1..], cycle);
        }
      }
    }
  }

  lemma {:induction false} UnrepeatedInit(ids: seq<string>)
    requires ids != []
    ensures Unrepeated(ids) <==> Unrepeated(ids[..|ids| - 1]) && ids[|ids| - 1] !in ids[..|ids| - 1]
  {
    var n := |ids| - 1;
    assert forall i :: 0 <= i < n ==> ids[..n][i] == ids[i];
  }

  /** The whole tree: from an empty path, a node is a marked repeat exactly when its own id occurs
      above it, and every simple walk from the root is drawn. */
  lemma {:induction false} HierarchyPaths(edges: seq<RawEdge>, childrenOf: Adjacency, edgeState: EdgeStates,
                                          root: string, ids: seq<string>)
    requires Indexed(edges, childrenOf, edgeState)
    ensures var t := Build(childrenOf, edgeState, root, {});
            && (Descends(t, ids, false) <==> WalksFrom(edges, root, ids) && Unrepeated(ids))
            && (Descends(t, ids, true) <==> WalksFrom(edges, root, ids) && Unrepeated(ids[..|ids| - 1])
                                            && ids[|ids| - 1] in ids[..|ids| - 1])
  {
    PathsAreWalks(edges, childrenOf, edgeState, root, {}, ids, false);
    PathsAreWalks(edges, childrenOf, edgeState, root, {}, ids, true);
    if ids != [] {
      UnrepeatedInit(ids);
    }
  }

  // ---- Edge states ----

  predicate Joins(e: RawEdge, from: string, to: string) {
    Usable(e) && e.from == from && e.to == to
  }

  predicate Recorded(edges: seq<RawEdge>, from: string, to: string) {
    exists i :: 0 <= i < |edges| && Joins(edges[i], from, to)
  }

  /** Every child carries the state last recorded for the edge from its own parent. */
  ghost predicate Labelled(edges: seq<RawEdge>, t: Tree)
    decreases t
  {
    forall j :: 0 <= j < |t.children| ==>
      && t.children[j].edge == LastState(edges, t.id, t.children[j].tree.id)
      && Labelled(edges, t.children[j].tree)
  }

  /** Every child carries the state last recorded under the key of the edge from its own parent. */
  ghost predicate LabelledByKey(edges: seq<RawEdge>, t: Tree)
    decreases t
  {
    forall j :: 0 <= j < |t.children| ==>
      && t.children[j].edge == LastUnderKey(edges, EdgeKey(t.id, t.children[j].tree.id))
      && LabelledByKey(edges, t.children[j].tree)
  }

  /** No two usable edges with different ends share a key. */
  ghost predicate DistinctKeys(edges: seq<RawEdge>) {
    forall i, j :: 0 <= i < |edges| && 0 <= j < |edges| && Usable(edges[i]) && Usable(edges[j])
      && EdgeKey(edges[i].from, edges[i].to) == EdgeKey(edges[j].from, edges[j].to)
      ==> edges[i].from == edges[j].from && edges[i].to == edges[j].to
  }

  /** Looking up a recorded edge by its key finds the state last recorded for it. */
  ghost predicate StatesRight(edges: seq<RawEdge>) {
    forall from, to :: Recorded(edges, from, to)
        ==> LastUnderKey(edges, EdgeKey(from, to)) == LastState(edges, from, to)
  }

  /** The same edges, whatever their vetting state. */
  ghost predicate SameEnds(edges: seq<RawEdge>, edges': seq<RawEdge>) {
    && |edges| == |edges'|
    && forall i :: 0 <= i < |edges| ==> edges[i].from == edges'[i].from && edges[i].to == edges'[i].to
  }

  lemma {:induction false} OnlyPairUnderKey(edges: seq<RawEdge>, from: string, to: string)
    requires forall i :: 0 <= i < |edges| && Usable(edges[i])
                && EdgeKey(edges[i].from, edges[i].to) == EdgeKey(from, to)
                ==> Joins(edges[i], from, to)
    ensures LastUnderKey(edges, EdgeKey(from, to)) == LastState(edges, from, to)
  {
    if edges != [] {
      OnlyPairUnderKey(edges[..|edges| - 1], from, to);
    }
  }

  lemma {:induction false} LastStateDisputed(edges: seq<RawEdge>, from: string, to: string, disputed: bool)
    requires Recorded(edges, from, to)
    requires forall i :: 0 <= i < |edges| && Joins(edges[i], from, to) ==> edges[i].relationDisputed == disputed
    ensures LastState(edges, from, to).Some? && LastState(edges, from, to).value.disputed == disputed
  {
    var init, last := edges[..|edges| - 1], edges[|edges| - 1];
    if !Joins(last, from, to) {
      var i :| 0 <= i < |edges| && Joins(edges[i], from, to);
      assert Joins(init[i], from, to);
      LastStateDisputed(init, from, to, disputed);
    }
  }

  lemma DistinctKeysSuffice(edges: seq<RawEdge>)
    requires DistinctKeys(edges)
    ensures StatesRight(edges)
  {
    forall from, to | Recorded(edges, from, to)
      ensures LastUnderKey(edges, EdgeKey(from, to)) == LastState(edges, from, to)
    {
      OnlyPairUnderKey(edges, from, to);
    }
  }

  /** Dispute exactly the edges from `from` to `to`. */
  function Dispute(edges: seq<RawEdge>, from: string, to: string): seq<RawEdge> {
    seq(|edges|, k requires 0 <= k < |edges| => edges[k].(relationDisputed := Joins(edges[k], from, to)))
  }

  /** Two edges that share a key can be given states such that one of them is looked up wrongly. */
  lemma SharedKeyMisleads(edges: seq<RawEdge>, i: nat, j: nat)
    requires i < |edges| && j < |edges| && Usable(edges[i]) && Usable(edges[j])
    requires EdgeKey(edges[i].from, edges[i].to) == EdgeKey(edges[j].from, edges[j].to)
    requires !(edges[i].from == edges[j].from && edges[i].to == edges[j].to)
    ensures exists edges' :: SameEnds(edges, edges') && !StatesRight(edges')
  {
    var a, b := edges[i], edges[j];
    var edges' := Dispute(edges, a.from, a.to);
    assert Joins(edges'[i], a.from, a.to) && Joins(edges'[j], b.from, b.to);
    LastStateDisputed(edges', a.from, a.to, true);
    LastStateDisputed(edges', b.from, b.to, false);
    assert SameEnds(edges, edges');
  }

  /** Whatever the vetting states, lookups are right exactly when different edges have different keys. */
  lemma StatesRightIff(edges: seq<RawEdge>)
    ensures (forall edges' :: SameEnds(edges, edges') ==> StatesRight(edges')) <==> DistinctKeys(edges)
  {
    if DistinctKeys(edges) {
      forall edges' | SameEnds(edges, edges')
        ensures StatesRight(edges')
      {
        DistinctKeysSuffice(edges');
      }
    } else {
      var i, j :| 0 <= i < |edges| && 0 <= j < |edges| && Usable(edges[i]) && Usable(edges[j])
        && EdgeKey(edges[i].from, edges[i].to) == EdgeKey(edges[j].from, edges[j].to)
        && !(edges[i].from == edges[j].from && edges[i].to == edges[j].to);
      SharedKeyMisleads(edges, i, j);
    }
  }

  lemma {:induction false} TargetsRecorded(edges: seq<RawEdge>, from: string, to: string)
    requires to in Targets(edges, from)
    ensures Recorded(edges, from, to)
  {
    var init, last := edges[..|edges| - 1], edges[|edges| - 1];
    if Joins(last, from, to) {
      assert Joins(edges[|edges| - 1], from, to);
    } else {
      TargetsRecorded(init, from, to);
      var i :| 0 <= i < |init| && Joins(init[i], from, to);
      assert Joins(edges[i], from, to);
    }
  }

  lemma {:induction false} BuildLabelled(edges: seq<RawEdge>, childrenOf: Adjacency, edgeState: EdgeStates, id: string,
                                         path: set<string>)
    requires Indexed(edges, childrenOf, edgeState) && StatesRight(edges)
    ensures Labelled(edges, Build(childrenOf, edgeState, id, path))
    decreases childrenOf.Keys - path
  {
    var t, kids := Build(childrenOf, edgeState, id, path), Kids(childrenOf, id);
    if id !in path {
      forall j | 0 <= j < |t.children|
        ensures t.children[j].edge == LastState(edges, id, t.children[j].tree.id)
        ensures Labelled(edges, t.children[j].tree)
      {
        BuildKidsAt(childrenOf, edgeState, id, kids, path, j);
        assert kids[j] in Targets(edges, id);
        TargetsRecorded(edges, id, kids[j]);
        assert id in childrenOf.Keys - path && id !in childrenOf.Keys - (path + {id});
        BuildLabelled(edges, childrenOf, edgeState, kids[j], path + {id});
      }
    }
  }

  lemma {:induction false} BuildLabelledByKey(edges: seq<RawEdge>, childrenOf: Adjacency, edgeState: EdgeStates,
                                              id: string, path: set<string>)
    requires Indexed(edges, childrenOf, edgeState)
    ensures LabelledByKey(edges, Build(childrenOf, edgeState, id, path))
    decreases childrenOf.Keys - path
  {
    var t, kids := Build(childrenOf, edgeState, id, path), Kids(childrenOf, id);
    if id !in path {
      forall j | 0 <= j < |t.children|
        ensures t.children[j].edge == LastUnderKey(edges, EdgeKey(id, t.children[j].tree.id))
        ensures LabelledByKey(edges, t.children[j].tree)
      {
        BuildKidsAt(childrenOf, edgeState, id, kids, path, j);
        assert id in childrenOf.Keys - path && id !in childrenOf.Keys - (path + {id});
        BuildLabelledByKey(edges, childrenOf, edgeState, kids[j], path + {id});
      }
    }
  }

  lemma LongerSource(a: string, b: string, c: string, d: string)
    requires EdgeKey(a, b) == EdgeKey(c, d) && |a| < |c|
    ensures exists m :: c == a + [SEPARATOR] + m && b == m + [SEPARATOR] + d
  {
    var key, m := EdgeKey(a, b), c[|a| + 1..];
    assert forall i :: 0 <= i < |c| ==> key[i] == c[i];
    assert forall i :: 0 <= i < |a| ==> key[i] == a[i];
    assert key[|a|] == SEPARATOR;
    assert c == a + [SEPARATOR] + m;
    assert b == key[|a| + 1..] && EdgeKey(c, d)[|a| + 1..] == m + [SEPARATOR] + d;
  }

  /** Two keys are equal exactly when the edges are, or one source continues the other past a
      separator that the other's target holds too. */
  lemma EdgeKeysCollideIff(a: string, b: string, c: string, d: string)
    ensures EdgeKey(a, b) == EdgeKey(c, d)
       <==> || (a == c && b == d)
            || (exists m :: c == a + [SEPARATOR] + m && b == m + [SEPARATOR] + d)
            || (exists m :: a == c + [SEPARATOR] + m && d == m + [SEPARATOR] + b)
  {
    if EdgeKey(a, b) == EdgeKey(c, d) {
      if |a| == |c| {
        assert a == EdgeKey(a, b)[..|a|] && c == EdgeKey(c, d)[..|c|];
        assert b == EdgeKey(a, b)[|a| + 1..] && d == EdgeKey(c, d)[|c| + 1..];
      } else if |a| < |c| {
        LongerSource(a, b, c, d);
      } else {
        LongerSource(c, d, a, b);
      }
    }
    if m :| c == a + [SEPARATOR] + m && b == m + [SEPARATOR] + d {
      assert EdgeKey(a, b) == a + [SEPARATOR] + m + [SEPARATOR] + d == EdgeKey(c, d);
    }
    if m :| a == c + [SEPARATOR] + m && d == m + [SEPARATOR] + b {
      assert EdgeKey(c, d) == c + [SEPARATOR] + m + [SEPARATOR] + b == EdgeKey(a, b);
    }
  }

  /** It is enough that no source contains the separator: then every child of the tree carries its
      own edge's last state. */
  lemma SeparatorFreeSources(edges: seq<RawEdge>, childrenOf: Adjacency, edgeState: EdgeStates, root: string)
    requires Indexed(edges, childrenOf, edgeState)
    requires forall i :: 0 <= i < |edges| && Usable(edges[i]) ==> SEPARATOR !in edges[i].from
    ensures DistinctKeys(edges)
    ensures Labelled(edges, Build(childrenOf, edgeState, root, {}))
  {
    forall i, j | 0 <= i < |edges| && 0 <= j < |edges| && Usable(edges[i]) && Usable(edges[j])
      && EdgeKey(edges[i].from, edges[i].to) == EdgeKey(edges[j].from, edges[j].to)
      ensures edges[i].from == edges[j].from && edges[i].to == edges[j].to
    {
      EdgeKeysCollideIff(edges[i].from, edges[i].to, edges[j].from, edges[j].to);
    }
    DistinctKeysSuffice(edges);
    BuildLabelled(edges, childrenOf, edgeState, root, {});
  }

  /** A marked node is a leaf; any other has one child per listed target, repeats included, in order. */
  ghost predicate Unfolds(edges: seq<RawEdge>, t: Tree)
    decreases t
  {
    && (t.isCycle ==> t.children == [])
    && (!t.isCycle ==> |t.children| == |Targets(edges, t.id)|)
    && forall j :: 0 <= j < |t.children| ==>
         t.children[j].tree.id == Targets(edges, t.id)[j] && Unfolds(edges, t.children[j].tree)
  }

  lemma {:induction false} BuildUnfolds(edges: seq<RawEdge>, childrenOf: Adjacency, edgeState: EdgeStates, id: string,
                                        path: set<string>)
    requires Indexed(edges, childrenOf, edgeState)
    ensures Unfolds(edges, Build(childrenOf, edgeState, id, path))
    decreases childrenOf.Keys - path
  {
    var t, kids := Build(childrenOf, edgeState, id, path), Kids(childrenOf, id);
    if id !in path {
      assert kids == Targets(edges, id);
      forall j | 0 <= j < |t.children|
        ensures t.children[j].tree.id == kids[j] && Unfolds(edges, t.children[j].tree)
      {
        BuildKidsAt(childrenOf, edgeState, id, kids, path, j);
        assert id in childrenOf.Keys - path && id !in childrenOf.Keys - (path + {id});
        BuildUnfolds(edges, childrenOf, edgeState, kids[j], path + {id});
      }
    }
  }

  /** Fill both tables in one pass over the edges, then unfold from the root. */
  method EdgesToHierarchy(rootId: string, edges: seq<RawEdge>) returns (tree: Tree)
    ensures tree.id == rootId && Unfolds(edges, tree)
    ensures forall ids :: Descends(tree, ids, false) <==> WalksFrom(edges, rootId, ids) && Unrepeated(ids)
    ensures forall ids :: Descends(tree, ids, true)
                     <==> WalksFrom(edges, rootId, ids) && Unrepeated(ids[..|ids| - 1])
                          && ids[|ids| - 1] in ids[..|ids| - 1]
    ensures LabelledByKey(edges, tree) && (DistinctKeys(edges) ==> Labelled(edges, tree))
  {
    var childrenOf: Adjacency, edgeState: EdgeStates := map[], map[];
    for i := 0 to |edges|
      invariant Indexed(edges[..i], childrenOf, edgeState)
    {
      var e := edges[i];
      assert edges[..i + 1][..i] == edges[..i];
      if !Usable(e) {
        continue;
      }
      var sofar := if e.from in childrenOf then childrenOf[e.from] else [];
      childrenOf := childrenOf[e.from := sofar + [e.to]];
      edgeState := edgeState[EdgeKey(e.from, e.to) := StateOf(e)];
    }
    assert edges[..|edges|] == edges;
    tree := Build(childrenOf, edgeState, rootId, {});
    BuildUnfolds(edges, childrenOf, edgeState, rootId, {});
    BuildLabelledByKey(edges, childrenOf, edgeState, rootId, {});
    forall ids {
      HierarchyPaths(edges, childrenOf, edgeState, rootId, ids);
    }
    if DistinctKeys(edges) {
      DistinctKeysSuffice(edges);
      BuildLabelled(edges, childrenOf, edgeState, rootId, {});
    }
  }
}

/** Loading the enrichment into the graph database (`load`): one node per identity, edges rewritten onto the
    nodes, both sent in batches. */
module Loader {
  import opened Names
  import opened Options
  import opened Edges
  import opened Filters
  import opened Records
  import opened Invariants
  import opened Regime
  import AliasMerge
  import AliasPasses
  import CycleFinder

  datatype PersonRow = PersonRow(
    key: Key, name: Value, gid: Option<string>, birthYear: Value, deathYear: Value, institution: Option<string>,
    country: Value, source: seq<string>)

  datatype EdgeRow = EdgeRow(
    src: Key, adv: Key, advName: Name, confidence: Option<Confidence>, source: Option<Source>,
    statedIn: Option<string>, needsVetting: bool, relationDisputed: bool, vettingTier: Option<Tier>)

  // ---- The quotient ----

  /** The node a key is loaded as: the first key with its identifier, or itself; other keys stay. */
  function Resolve(keys: seq<Key>, g: Graph, k: Key): (node: Key)
    requires AliasMerge.AllIn(keys, g)
    ensures k in g ==> node in g && (HasId(g[k]) ==> g[node].gid == g[k].gid)
    ensures k !in g || !HasId(g[k]) ==> node == k
  {
    if k in g && HasId(g[k]) then
      var first := AliasPasses.FirstKey(keys, g, g[k].gid.value);
      if first.Some? then first.value else k
    else k
  }

  /** Keys that share a node are the same key or share an identifier, and the node is its own node. */
  lemma {:induction false} SameNodeIff(keys: seq<Key>, g: Graph, k: Key, k': Key)
    requires Lists(keys, g) && k in g && k' in g
    ensures Resolve(keys, g, k) == Resolve(keys, g, k') <==> k == k' || (HasId(g[k]) && g[k].gid == g[k'].gid)
    ensures Resolve(keys, g, Resolve(keys, g, k)) == Resolve(keys, g, k)
  {
    forall x | x in g && HasId(g[x])
      ensures AliasPasses.FirstKey(keys, g, g[x].gid.value).Some?
    {
      var i := PositionOf(keys, g, x);
      AliasPasses.FirstKeyExists(keys, g, i, g[x].gid.value);
    }
  }

  // ---- The node and the reverse index ----

  /** `index` is the one that the build makes over this listing. */
  ghost predicate BuiltOver(keys: seq<Key>, g: Graph, index: Index)
    requires AliasMerge.AllIn(keys, g)
  {
    forall id :: AliasPasses.Lookup(index, id) == AliasPasses.FirstKey(keys, g, id)
  }

  /** The index names the node that the record is loaded as. */
  ghost predicate NamesTheNode(keys: seq<Key>, g: Graph, index: Index, k: Key)
    requires AliasMerge.AllIn(keys, g) && k in g && HasId(g[k])
  {
    AliasPasses.Lookup(index, g[k].gid.value) == Some(Resolve(keys, g, k))
  }

  /** `k` is listed under `id` and no key before it is. */
  ghost predicate IsFirst(keys: seq<Key>, g: Graph, id: string, k: Key)
    requires AliasMerge.AllIn(keys, g)
  {
    exists i :: 0 <= i < |keys| && keys[i] == k && g[k].gid == Some(id)
                && forall j :: 0 <= j < i ==> g[keys[j]].gid != Some(id)
  }

  lemma {:induction false} FirstKeyIs(keys: seq<Key>, g: Graph, id: string, k: Key)
    requires AliasMerge.AllIn(keys, g)
    ensures AliasPasses.FirstKey(keys, g, id) == Some(k) <==> IsFirst(keys, g, id, k)
    ensures AliasPasses.FirstKey(keys, g, id) == None <==> forall j :: 0 <= j < |keys| ==> g[keys[j]].gid != Some(id)
  {
    if keys != [] {
      var n := |keys| - 1;
      FirstKeyIs(keys[..n], g, id, k);
      if i :| 0 <= i < n && keys[..n][i] == k && g[k].gid == Some(id)
              && forall j :: 0 <= j < i ==> g[keys[..n][j]].gid != Some(id) {
        assert keys[i] == k;
        assert forall j :: 0 <= j < i ==> keys[j] == keys[..n][j];
      }
      if i :| 0 <= i < n && keys[i] == k && g[k].gid == Some(id)
              && forall j :: 0 <= j < i ==> g[keys[j]].gid != Some(id) {
        assert keys[..n][i] == k;
      }
    }
  }

  /** Both listings have the same first key under every identifier. */
  ghost predicate SameFirsts(keys: seq<Key>, keys': seq<Key>, g: Graph)
    requires AliasMerge.AllIn(keys, g) && AliasMerge.AllIn(keys', g)
  {
    forall id, k :: id != "" && IsFirst(keys, g, id, k) ==> IsFirst(keys', g, id, k)
  }

  lemma {:induction false} IndexAt(keys: seq<Key>, keys': seq<Key>, g: Graph, index: Index, k: Key)
    requires Lists(keys, g) && Lists(keys', g) && BuiltOver(keys, g, index) && k in g && HasId(g[k])
    ensures NamesTheNode(keys', g, index, k)
       <==> AliasPasses.FirstKey(keys, g, g[k].gid.value) == AliasPasses.FirstKey(keys', g, g[k].gid.value)
  {
    var id := g[k].gid.value;
    var i := PositionOf(keys, g, k);
    var i' := PositionOf(keys', g, k);
    AliasPasses.FirstKeyExists(keys, g, i, id);
    AliasPasses.FirstKeyExists(keys', g, i', id);
    assert AliasPasses.Lookup(index, id) == AliasPasses.FirstKey(keys, g, id);
  }

  /** The index built over one listing names, for every record, the node resolved over another exactly if the first
      key of each identifier is the same in both. */
  lemma {:induction false} IndexNamesTheNodeIff(keys: seq<Key>, keys': seq<Key>, g: Graph, index: Index)
    requires Lists(keys, g) && Lists(keys', g) && BuiltOver(keys, g, index)
    ensures (forall k :: k in g && HasId(g[k]) ==> NamesTheNode(keys', g, index, k)) <==> SameFirsts(keys, keys', g)
  {
    forall k | k in g && HasId(g[k])
      ensures NamesTheNode(keys', g, index, k)
         <==> AliasPasses.FirstKey(keys, g, g[k].gid.value) == AliasPasses.FirstKey(keys', g, g[k].gid.value)
    {
      IndexAt(keys, keys', g, index, k);
    }
    forall id, k
      ensures AliasPasses.FirstKey(keys, g, id) == Some(k) <==> IsFirst(keys, g, id, k)
      ensures AliasPasses.FirstKey(keys', g, id) == Some(k) <==> IsFirst(keys', g, id, k)
    {
      FirstKeyIs(keys, g, id, k);
      FirstKeyIs(keys', g, id, k);
    }
    if SameFirsts(keys, keys', g) {
      forall k | k in g && HasId(g[k])
        ensures AliasPasses.FirstKey(keys, g, g[k].gid.value) == AliasPasses.FirstKey(keys', g, g[k].gid.value)
      {
        var i := PositionOf(keys, g, k);
        AliasPasses.FirstKeyExists(keys, g, i, g[k].gid.value);
      }
    }
    if forall k :: k in g && HasId(g[k]) ==> NamesTheNode(keys', g, index, k) {
      forall id, k | id != "" && IsFirst(keys, g, id, k)
        ensures IsFirst(keys', g, id, k)
      {
        assert NamesTheNode(keys', g, index, k);
      }
    }
  }

  function Alias(): Record {
    Record(map["CanonicalLatin" := Text("X")], None, None, [], Some("1"))
  }

  lemma {:induction false} FirstOfTwo(k: Key, k': Key, g: Graph)
    requires k in g && k' in g && g[k].gid == g[k'].gid == Some("1")
    ensures AliasMerge.AllIn([k, k'], g)
    ensures forall id :: AliasPasses.FirstKey([k, k'], g, id) == if id == "1" then Some(k) else None
  {
    forall id
      ensures AliasPasses.FirstKey([k, k'], g, id) == if id == "1" then Some(k) else None
    {
      assert [k, k'][..1] == [k] && [k][..0] == [];
      assert AliasPasses.FirstKey([k], g, id) == if id == "1" then Some(k) else None;
    }
  }

  /** Two spellings inserted the other way round than they sort: the index names the one, the loader the other. */
  lemma {:induction false} SortedOrderDisagrees()
    ensures var a, b := Plain(["a"]), Plain(["b"]);
            var g, index := map[b := Alias(), a := Alias()], map["1" := b];
            && AliasMerge.TextLess(AliasMerge.KeyText(a), AliasMerge.KeyText(b))
            && Lists([b, a], g) && Lists([a, b], g) && BuiltOver([b, a], g, index)
            && Resolve([a, b], g, a) == Resolve([a, b], g, b) == a && !NamesTheNode([a, b], g, index, a)
  {
    var a, b := Plain(["a"]), Plain(["b"]);
    assert "a"[0] != "b"[0];
    assert a.tokens[0] != b.tokens[0];
    var g, index := map[b := Alias(), a := Alias()], map["1" := b];
    FirstOfTwo(b, a, g);
    FirstOfTwo(a, b, g);
    assert Lists([b, a], g) && Lists([a, b], g);
  }

  predicate IsNode(keys: seq<Key>, g: Graph, k: Key)
    requires AliasMerge.AllIn(keys, g)
  {
    Resolve(keys, g, k) == k
  }

  /** The loaded keys, in listing order. */
  function Nodes(keys: seq<Key>, g: Graph, n: nat): seq<Key>
    requires AliasMerge.AllIn(keys, g) && n <= |keys|
  {
    if n == 0 then [] else Nodes(keys, g, n - 1) + if IsNode(keys, g, keys[n - 1]) then [keys[n - 1]] else []
  }

  lemma {:induction false} NodesAre(keys: seq<Key>, g: Graph, n: nat, k: Key)
    requires AliasMerge.AllIn(keys, g) && n <= |keys|
    ensures k in Nodes(keys, g, n) <==> k in keys[..n] && IsNode(keys, g, k)
  {
    if n > 0 {
      NodesAre(keys, g, n - 1, k);
      assert keys[..n] == keys[..n - 1] + [keys[n - 1]];
    }
  }

  lemma {:induction false} NodesDistinct(keys: seq<Key>, g: Graph, n: nat)
    requires Lists(keys, g) && n <= |keys|
    ensures forall i, j :: 0 <= i < j < |Nodes(keys, g, n)| ==> Nodes(keys, g, n)[i] != Nodes(keys, g, n)[j]
  {
    if n > 0 {
      NodesDistinct(keys, g, n - 1);
      NodesAre(keys, g, n - 1, keys[n - 1]);
    }
  }

  /** One node per identity: every record has exactly one loaded node, which is itself or shares its identifier. */
  lemma {:induction false} OneNodePerIdentity(keys: seq<Key>, g: Graph, k: Key, node: Key)
    requires Lists(keys, g) && k in g
    ensures var nodes := Nodes(keys, g, |keys|);
            node in nodes && (node == k || (node in g && HasId(g[k]) && g[node].gid == g[k].gid))
            <==> node == Resolve(keys, g, k)
  {
    NodesAre(keys, g, |keys|, node);
    assert keys[..|keys|] == keys;
    if node in g {
      SameNodeIff(keys, g, k, node);
    }
  }

  // ---- The rows ----

  type Target = Key -> Key

  function TargetOf(keys: seq<Key>, g: Graph): Target
    requires AliasMerge.AllIn(keys, g)
  {
    (k: Key) => if AliasMerge.AllIn(keys, g) then Resolve(keys, g, k) else k
  }

  function PersonOf(k: Key, r: Record): PersonRow {
    PersonRow(
      k, if "CanonicalLatin" in r.fields then r.fields["CanonicalLatin"] else Text(AliasMerge.KeyText(k)), r.gid,
      Get(r, "BirthYear"), Get(r, "DeathYear"), r.institution, Get(r, "Country"), r.source)
  }

  function PersonRows(g: Graph, nodes: seq<Key>): seq<PersonRow>
    requires AliasMerge.AllIn(nodes, g)
  {
    seq(|nodes|, i requires 0 <= i < |nodes| => PersonOf(nodes[i], g[nodes[i]]))
  }

  /** Edges without a name, or whose name has no key, are not loaded. */
  predicate Loadable(e: Edge) {
    Named(e) && AdvisorKey(e) != NO_KEY
  }

  function RowOf(target: Target, src: Key, e: Edge): EdgeRow {
    EdgeRow(src, target(AdvisorKey(e)), e.name, e.confidence, e.source, e.statedIn, e.needsVetting,
            e.relationDisputed, e.vettingTier)
  }

  function Rower(target: Target, src: Key): Edge -> EdgeRow {
    (e: Edge) => RowOf(target, src, e)
  }

  function RowsOf(target: Target, src: Key, edges: seq<Edge>): seq<EdgeRow> {
    Select(edges, Loadable, Rower(target, src))
  }

  function EdgeRows(target: Target, g: Graph, nodes: seq<Key>): seq<EdgeRow>
    requires AliasMerge.AllIn(nodes, g)
  {
    if nodes == [] then []
    else
      var last := nodes[|nodes| - 1];
      EdgeRows(target, g, nodes[..|nodes| - 1]) + RowsOf(target, last, AdvisorsOf(g[last]))
  }

  /** One of the edges gives the row. */
  ghost predicate Gives(target: Target, edges: seq<Edge>, src: Key, row: EdgeRow) {
    exists i :: 0 <= i < |edges| && Loadable(edges[i]) && RowOf(target, src, edges[i]) == row
  }

  lemma {:induction false} RowsOfAre(target: Target, src: Key, edges: seq<Edge>, row: EdgeRow)
    ensures row in RowsOf(target, src, edges) <==> Gives(target, edges, src, row)
  {
    SelectHas(edges, Loadable, Rower(target, src), row);
  }

  lemma {:induction false} EdgeRowsAre(target: Target, g: Graph, nodes: seq<Key>, row: EdgeRow)
    requires AliasMerge.AllIn(nodes, g)
    ensures row in EdgeRows(target, g, nodes)
        <==> row.src in nodes && Gives(target, AdvisorsOf(g[row.src]), row.src, row)
  {
    if nodes != [] {
      var init, last := nodes[..|nodes| - 1], nodes[|nodes| - 1];
      EdgeRowsAre(target, g, init, row);
      RowsOfAre(target, last, AdvisorsOf(g[last]), row);
      assert nodes == init + [last];
    }
  }

  /** The rows a load sends. */
  ghost predicate LoadedRow(keys: seq<Key>, g: Graph, row: EdgeRow)
    requires Lists(keys, g)
  {
    IsNode(keys, g, row.src) && row.src in g && Gives(TargetOf(keys, g), AdvisorsOf(g[row.src]), row.src, row)
  }

  lemma {:induction false} NodesIn(keys: seq<Key>, g: Graph, n: nat)
    requires AliasMerge.AllIn(keys, g) && n <= |keys|
    ensures AliasMerge.AllIn(Nodes(keys, g, n), g)
  {
    if n > 0 {
      NodesIn(keys, g, n - 1);
    }
  }

  lemma {:induction false} LoadedRowsAre(keys: seq<Key>, g: Graph, row: EdgeRow)
    requires Lists(keys, g)
    ensures AliasMerge.AllIn(Nodes(keys, g, |keys|), g)
    ensures row in EdgeRows(TargetOf(keys, g), g, Nodes(keys, g, |keys|)) <==> LoadedRow(keys, g, row)
  {
    NodesIn(keys, g, |keys|);
    EdgeRowsAre(TargetOf(keys, g), g, Nodes(keys, g, |keys|), row);
    NodesAre(keys, g, |keys|, row.src);
    assert keys[..|keys|] == keys;
  }

  // ---- Nothing is lost, and when ----

  /** `k`'s edges, moved onto `k`'s node. */
  ghost predicate ImageRow(keys: seq<Key>, g: Graph, k: Key, row: EdgeRow)
    requires Lists(keys, g)
  {
    k in g && Gives(TargetOf(keys, g), AdvisorsOf(g[k]), Resolve(keys, g, k), row)
  }

  ghost predicate NothingLost(keys: seq<Key>, g: Graph)
    requires Lists(keys, g)
  {
    forall k, row :: ImageRow(keys, g, k, row) ==> LoadedRow(keys, g, row)
  }

  /** Every edge of every spelling is loaded exactly when the node's own record has an equal edge for each
      edge of its other spellings. */
  lemma {:induction false} NothingLostIff(keys: seq<Key>, g: Graph)
    requires Lists(keys, g)
    ensures NothingLost(keys, g)
       <==> forall k, row :: ImageRow(keys, g, k, row) ==> ImageRow(keys, g, Resolve(keys, g, k), row)
  {
    forall k, row | ImageRow(keys, g, k, row)
      ensures row.src == Resolve(keys, g, k) && Resolve(keys, g, row.src) == row.src
      ensures LoadedRow(keys, g, row) <==> ImageRow(keys, g, Resolve(keys, g, k), row)
    {
      SameNodeIff(keys, g, k, k);
    }
  }

  /** With identical alias records the loaded edges are the image of all edges. */
  lemma {:induction false} IdenticalAliasesLoseNothing(keys: seq<Key>, g: Graph)
    requires Lists(keys, g) && AliasesIdentical(g)
    ensures NothingLost(keys, g)
  {
    forall k | k in g
      ensures g[Resolve(keys, g, k)] == g[k] && Resolve(keys, g, Resolve(keys, g, k)) == Resolve(keys, g, k)
    {
      SameNodeIff(keys, g, k, k);
    }
  }

  /** The advisor reference that a row rewrites. */
  lemma {:induction false} RowReference(keys: seq<Key>, g: Graph, row: EdgeRow) returns (t: Key)
    requires Lists(keys, g) && LoadedRow(keys, g, row)
    ensures Advises(g[row.src], t) && t != NO_KEY && row.adv == Resolve(keys, g, t)
  {
    var edges := AdvisorsOf(g[row.src]);
    var i :| 0 <= i < |edges| && Loadable(edges[i]) && RowOf(TargetOf(keys, g), row.src, edges[i]) == row;
    t := AdvisorKey(edges[i]);
  }

  /** If every advisor is a node of the graph, every row ends at a loaded node. */
  lemma {:induction false} RowsEndAtNodes(keys: seq<Key>, g: Graph, row: EdgeRow)
    requires Lists(keys, g) && I5(g) && LoadedRow(keys, g, row)
    ensures row.adv in Nodes(keys, g, |keys|)
  {
    var t := RowReference(keys, g, row);
    SameNodeIff(keys, g, t, t);
    NodesAre(keys, g, |keys|, row.adv);
    assert keys[..|keys|] == keys;
  }

  // ---- The loaded graph has no cycle if the enrichment has none ----

  ghost predicate RowBetween(keys: seq<Key>, g: Graph, from: Key, to: Key)
    requires Lists(keys, g)
  {
    exists row :: LoadedRow(keys, g, row) && row.src == from && row.adv == to
  }

  ghost predicate RowWalk(keys: seq<Key>, g: Graph, p: seq<Key>)
    requires Lists(keys, g)
  {
    forall i, j :: 0 <= i && j == i + 1 < |p| ==> RowBetween(keys, g, p[i], p[j])
  }

  lemma {:induction false} SameRecord(keys: seq<Key>, g: Graph, t: Key, node: Key)
    requires Lists(keys, g) && AliasesIdentical(g) && Resolve(keys, g, t) == node && node in g
    ensures t in g && g[t] == g[node]
  {
  }

  lemma PrefixWalks(keys: seq<Key>, g: Graph, p: seq<Key>, n: nat)
    requires Lists(keys, g) && RowWalk(keys, g, p) && n <= |p|
    ensures RowWalk(keys, g, p[..n])
  {
    forall i, j | 0 <= i && j == i + 1 < n
      ensures RowBetween(keys, g, p[..n][i], p[..n][j])
    {
      assert RowBetween(keys, g, p[i], p[j]);
    }
  }

  ghost predicate LiftsAt(g: Graph, p: seq<Key>, q: seq<Key>, i: nat)
    requires |p| == |q| + 1 && AliasMerge.AllIn(p, g) && AliasMerge.AllIn(q, g) && i < |q|
  {
    g[q[i]] == g[p[i + 1]] && Advises(g[p[i]], q[i])
  }

  /** `q` refers, from each record of `p`, to an equal of the next. */
  ghost predicate Lifts(g: Graph, p: seq<Key>, q: seq<Key>) {
    && |p| == |q| + 1 && AliasMerge.AllIn(p, g) && AliasMerge.AllIn(q, g)
    && forall i :: 0 <= i < |q| ==> LiftsAt(g, p, q, i)
  }

  lemma {:induction false} LiftExtends(g: Graph, p: seq<Key>, before: seq<Key>, t: Key)
    requires |p| >= 2 && Lifts(g, p[..|p| - 1], before)
    requires t in g && p[|p| - 1] in g && g[t] == g[p[|p| - 1]] && Advises(g[p[|p| - 2]], t)
    ensures Lifts(g, p, before + [t])
  {
    var n, q := |p| - 1, before + [t];
    forall i | 0 <= i < |p|
      ensures p[i] in g
    {
      if i < n {
        assert p[..n][i] in g;
      }
    }
    forall i | 0 <= i < |q|
      ensures LiftsAt(g, p, q, i)
    {
      if i < n - 1 {
        assert LiftsAt(g, p[..n], before, i);
      }
    }
  }

  /** A walk over rows lifts to advisor references. */
  lemma {:induction false} WalkLifts(keys: seq<Key>, g: Graph, p: seq<Key>) returns (q: seq<Key>)
    requires Lists(keys, g) && AliasesIdentical(g) && RowWalk(keys, g, p) && p != [] && AliasMerge.AllIn(p, g)
    ensures Lifts(g, p, q)
  {
    if |p| == 1 {
      q := [];
    } else {
      var n := |p| - 1;
      PrefixWalks(keys, g, p, n);
      var before := WalkLifts(keys, g, p[..n]);
      assert RowBetween(keys, g, p[n - 1], p[n]);
      var row :| LoadedRow(keys, g, row) && row.src == p[n - 1] && row.adv == p[n];
      var t := RowReference(keys, g, row);
      SameRecord(keys, g, t, p[n]);
      q := before + [t];
      LiftExtends(g, p, before, t);
    }
  }

  lemma {:induction false} RowStarts(keys: seq<Key>, g: Graph, from: Key, to: Key)
    requires Lists(keys, g) && RowBetween(keys, g, from, to)
    ensures from in g
  {
    var row :| LoadedRow(keys, g, row) && row.src == from && row.adv == to;
  }

  lemma {:induction false} ClosedWalkStays(keys: seq<Key>, g: Graph, p: seq<Key>)
    requires Lists(keys, g) && |p| >= 2 && RowWalk(keys, g, p) && p[0] == p[|p| - 1]
    ensures AliasMerge.AllIn(p, g)
  {
    forall i | 0 <= i < |p|
      ensures p[i] in g
    {
      var j := if i < |p| - 1 then i else 0;
      var m := j + 1;
      assert RowBetween(keys, g, p[j], p[m]);
      RowStarts(keys, g, p[j], p[m]);
    }
  }

  lemma {:induction false} LiftedStep(g: Graph, p: seq<Key>, q: seq<Key>, i: nat, j: nat)
    requires Lifts(g, p, q) && i < |q| && j < |q| && p[i + 1] == p[j]
    ensures Advises(g[q[i]], q[j])
  {
    assert LiftsAt(g, p, q, i) && LiftsAt(g, p, q, j);
  }

  lemma {:induction false} LiftedArc(g: Graph, p: seq<Key>, q: seq<Key>, i: nat)
    requires Lifts(g, p, q) && q != [] && p[0] == p[|p| - 1] && i < |q|
    ensures CycleFinder.Arc(Adjacency(g), q[i], if i + 1 < |q| then q[i + 1] else q[0])
  {
    var j := if i + 1 < |q| then i + 1 else 0;
    LiftedStep(g, p, q, i, j);
    ArcIs(g, q[i], q[j]);
  }

  lemma {:induction false} LiftCloses(g: Graph, p: seq<Key>, q: seq<Key>)
    requires Lifts(g, p, q) && q != [] && p[0] == p[|p| - 1]
    ensures !I2(g)
  {
    var closed := q + [q[0]];
    forall i, j | 0 <= i && j == i + 1 < |closed|
      ensures CycleFinder.Arc(Adjacency(g), closed[i], closed[j])
    {
      LiftedArc(g, p, q, i);
    }
    assert CycleFinder.ClosedWalk(Adjacency(g), closed);
  }

  lemma {:induction false} ClosedRowsLift(keys: seq<Key>, g: Graph, p: seq<Key>)
    requires Lists(keys, g) && AliasesIdentical(g) && |p| >= 2 && RowWalk(keys, g, p) && p[0] == p[|p| - 1]
    ensures !I2(g)
  {
    ClosedWalkStays(keys, g, p);
    var q := WalkLifts(keys, g, p);
    LiftCloses(g, p, q);
  }

  /** With identical alias records, collapsing spellings closes no advisor cycle and no self-loop. */
  lemma {:induction false} LoadingClosesNoCycle(keys: seq<Key>, g: Graph, p: seq<Key>)
    requires Lists(keys, g) && AliasesIdentical(g) && I2(g)
    requires |p| >= 2 && RowWalk(keys, g, p)
    ensures p[0] != p[|p| - 1]
  {
    if p[0] == p[|p| - 1] {
      ClosedRowsLift(keys, g, p);
      assert false;
    }
  }

  ghost predicate RowsStay(keys: seq<Key>, g: Graph)
    requires Lists(keys, g)
  {
    forall row :: LoadedRow(keys, g, row) ==> row.adv in Nodes(keys, g, |keys|)
  }

  ghost predicate RowsAcyclic(keys: seq<Key>, g: Graph)
    requires Lists(keys, g)
  {
    forall p :: |p| >= 2 && RowWalk(keys, g, p) ==> p[0] != p[|p| - 1]
  }

  /** A graph with identical alias records in which every advisor is a node and nobody is their own ancestor is
      loaded whole: no edge is lost, every edge ends at a loaded node, and no walk over loaded edges closes. */
  lemma {:induction false} CleanGraphLoadsWhole(keys: seq<Key>, g: Graph)
    requires Lists(keys, g) && AliasesIdentical(g) && I2(g) && I5(g)
    ensures NothingLost(keys, g) && RowsStay(keys, g) && RowsAcyclic(keys, g)
  {
    IdenticalAliasesLoseNothing(keys, g);
    forall row | LoadedRow(keys, g, row)
      ensures row.adv in Nodes(keys, g, |keys|)
    {
      RowsEndAtNodes(keys, g, row);
    }
    forall p | |p| >= 2 && RowWalk(keys, g, p)
      ensures p[0] != p[|p| - 1]
    {
      LoadingClosesNoCycle(keys, g, p);
    }
  }
}

/** A run of the loader over the records in the order of the file. */
module LoadRun {
  import opened Names
  import opened Options
  import opened Edges
  import opened Filters
  import opened Records
  import opened Invariants
  import opened Loader
  import opened Batches
  import AliasMerge
  import AliasPasses

  /** The first key of each identifier. */
  method Representatives(keys: seq<Key>, g: Graph) returns (representative: Index)
    requires AliasMerge.AllIn(keys, g)
    ensures forall id :: id != "" ==> AliasPasses.Lookup(representative, id) == AliasPasses.FirstKey(keys, g, id)
  {
    representative := map[];
    for i := 0 to |keys|
      invariant forall id :: id != ""
                 ==> AliasPasses.Lookup(representative, id) == AliasPasses.FirstKey(keys[..i], g, id)
    {
      assert keys[..i + 1][..i] == keys[..i];
      var r := g[keys[i]];
      if HasId(r) && r.gid.value !in representative {
        assert AliasPasses.Lookup(representative, r.gid.value) == None;
        representative := representative[r.gid.value := keys[i]];
      }
    }
    assert keys[..|keys|] == keys;
  }

  /** What a key resolves to, given the representatives. */
  function NodeFor(representative: Index, g: Graph, k: Key): Key {
    if k in g && HasId(g[k]) && g[k].gid.value in representative then representative[g[k].gid.value] else k
  }

  lemma {:induction false} NodeForIs(keys: seq<Key>, g: Graph, representative: Index, k: Key)
    requires AliasMerge.AllIn(keys, g)
    requires forall id :: id != "" ==> AliasPasses.Lookup(representative, id) == AliasPasses.FirstKey(keys, g, id)
    ensures NodeFor(representative, g, k) == Resolve(keys, g, k)
  {
    if k in g && HasId(g[k]) {
      assert AliasPasses.Lookup(representative, g[k].gid.value) == AliasPasses.FirstKey(keys, g, g[k].gid.value);
    }
  }

  ghost predicate Resolution(keys: seq<Key>, g: Graph, resolve: map<Key, Key>)
    requires AliasMerge.AllIn(keys, g)
  {
    resolve.Keys == g.Keys && forall k :: k in g ==> resolve[k] == Resolve(keys, g, k)
  }

  method ResolveKeys(keys: seq<Key>, g: Graph) returns (resolve: map<Key, Key>)
    requires AliasMerge.AllIn(keys, g)
    ensures Resolution(keys, g, resolve)
  {
    var representative := Representatives(keys, g);
    resolve := map k | k in g :: NodeFor(representative, g, k);
    forall k | k in g
      ensures resolve[k] == Resolve(keys, g, k)
    {
      NodeForIs(keys, g, representative, k);
    }
  }

  lemma {:induction false} FirstKeyListed(keys: seq<Key>, g: Graph, id: string)
    requires AliasMerge.AllIn(keys, g)
    ensures AliasPasses.FirstKey(keys, g, id).Some? ==> AliasPasses.FirstKey(keys, g, id).value in keys
  {
    if keys != [] {
      FirstKeyListed(keys[..|keys| - 1], g, id);
    }
  }

  lemma {:induction false} FirstKeyByThen(keys: seq<Key>, g: Graph, n: nat, id: string)
    requires AliasMerge.AllIn(keys, g) && n < |keys| && g[keys[n]].gid == Some(id)
    ensures AliasPasses.FirstKey(keys, g, id).Some? && AliasPasses.FirstKey(keys, g, id).value in keys[..n + 1]
  {
    if n < |keys| - 1 {
      FirstKeyByThen(keys[..|keys| - 1], g, n, id);
      assert keys[..|keys| - 1][..n + 1] == keys[..n + 1];
    } else {
      FirstKeyListed(keys, g, id);
      AliasPasses.FirstKeyExists(keys, g, n, id);
      assert keys[..n + 1] == keys;
    }
  }

  /** The first key with an identifier comes no later than any other. */
  lemma {:induction false} NodeComesFirst(keys: seq<Key>, g: Graph, n: nat)
    requires Lists(keys, g) && n < |keys|
    ensures Resolve(keys, g, keys[n]) in keys[..n + 1]
  {
    if HasId(g[keys[n]]) {
      FirstKeyByThen(keys, g, n, g[keys[n]].gid.value);
    }
  }

  /** The node of the next key is new exactly if it is not among the nodes so far. */
  ghost predicate Grows(keys: seq<Key>, g: Graph, i: nat)
    requires AliasMerge.AllIn(keys, g) && i < |keys|
  {
    var node := Resolve(keys, g, keys[i]);
    Nodes(keys, g, i + 1) == if node in Nodes(keys, g, i) then Nodes(keys, g, i) else Nodes(keys, g, i) + [node]
  }

  lemma {:induction false} NodeStep(keys: seq<Key>, g: Graph, i: nat)
    requires Lists(keys, g) && i < |keys|
    ensures Grows(keys, g, i)
  {
    var k := keys[i];
    var node := Resolve(keys, g, k);
    SameNodeIff(keys, g, k, k);
    NodeComesFirst(keys, g, i);
    NodesAre(keys, g, i, node);
    assert keys[..i + 1] == keys[..i] + [k];
  }

  /** The values of the resolution, each once, in the order they first appear. */
  method Persons(keys: seq<Key>, g: Graph, resolve: map<Key, Key>) returns (nodes: seq<Key>)
    requires AliasMerge.AllIn(keys, g) && Resolution(keys, g, resolve)
    requires forall i :: 0 <= i < |keys| ==> Grows(keys, g, i)
    ensures nodes == Nodes(keys, g, |keys|)
  {
    nodes := [];
    for i := 0 to |keys|
      invariant nodes == Nodes(keys, g, i)
    {
      assert Grows(keys, g, i);
      var node := resolve[keys[i]];
      if node !in nodes {
        nodes := nodes + [node];
      }
    }
  }

  method SendPersons(g: Graph, nodes: seq<Key>, size: int) returns (batches: seq<seq<PersonRow>>, count: nat)
    requires AliasMerge.AllIn(nodes, g)
    ensures Flat(batches) == PersonRows(g, nodes) && Cut(size, batches) && count == |nodes|
  {
    var outbox := new Outbox<PersonRow>(size);
    for i := 0 to |nodes|
      invariant fresh(outbox) && outbox.Valid() && outbox.size == size
      invariant outbox.Rows() == PersonRows(g, nodes)[..i]
    {
      assert PersonRows(g, nodes)[..i + 1] == PersonRows(g, nodes)[..i] + [PersonRows(g, nodes)[i]];
      outbox.Add(PersonOf(nodes[i], g[nodes[i]]));
    }
    outbox.Close();
    batches, count := outbox.sent, outbox.count;
    assert PersonRows(g, nodes)[..|nodes|] == PersonRows(g, nodes);
  }

  lemma {:induction false} RowsStep(target: Target, src: Key, edges: seq<Edge>, i: nat)
    requires i < |edges|
    ensures RowsOf(target, src, edges[..i + 1])
         == RowsOf(target, src, edges[..i]) + if Loadable(edges[i]) then [RowOf(target, src, edges[i])] else []
  {
    assert edges[..i + 1][..i] == edges[..i];
  }

  /** One person's edges, added to the outbox. */
  method SendEdgesOf(target: Target, src: Key, edges: seq<Edge>, outbox: Outbox<EdgeRow>)
    requires outbox.Valid()
    modifies outbox
    ensures outbox.Valid() && outbox.Rows() == old(outbox.Rows()) + RowsOf(target, src, edges)
  {
    ghost var before := outbox.Rows();
    for i := 0 to |edges|
      invariant outbox.Valid() && outbox.Rows() == before + RowsOf(target, src, edges[..i])
    {
      RowsStep(target, src, edges, i);
      if Loadable(edges[i]) {
        outbox.Add(RowOf(target, src, edges[i]));
      }
    }
    assert edges[..|edges|] == edges;
  }

  method SendEdges(target: Target, g: Graph, nodes: seq<Key>, size: int)
    returns (batches: seq<seq<EdgeRow>>, count: nat)
    requires AliasMerge.AllIn(nodes, g)
    ensures Flat(batches) == EdgeRows(target, g, nodes) && Cut(size, batches) && count == |EdgeRows(target, g, nodes)|
  {
    var outbox := new Outbox<EdgeRow>(size);
    for i := 0 to |nodes|
      invariant fresh(outbox) && outbox.Valid() && outbox.size == size
      invariant outbox.Rows() == EdgeRows(target, g, nodes[..i])
    {
      assert nodes[..i + 1][..i] == nodes[..i];
      SendEdgesOf(target, nodes[i], AdvisorsOf(g[nodes[i]]), outbox);
    }
    outbox.Close();
    batches, count := outbox.sent, outbox.count;
    assert nodes[..|nodes|] == nodes;
  }

  lemma {:induction false} SelectAgree<T, U>(s: seq<T>, p: T -> bool, f: T -> U, f': T -> U)
    requires forall x :: x in s ==> f(x) == f'(x)
    ensures Select(s, p, f) == Select(s, p, f')
  {
    if s != [] {
      SelectAgree(s[..|s| - 1], p, f, f');
    }
  }

  lemma {:induction false} TargetsAgree(keys: seq<Key>, g: Graph, target: Target, nodes: seq<Key>)
    requires AliasMerge.AllIn(keys, g) && AliasMerge.AllIn(nodes, g)
    requires forall k :: target(k) == Resolve(keys, g, k)
    ensures EdgeRows(target, g, nodes) == EdgeRows(TargetOf(keys, g), g, nodes)
  {
    if nodes != [] {
      var init, last := nodes[..|nodes| - 1], nodes[|nodes| - 1];
      TargetsAgree(keys, g, target, init);
      SelectAgree(AdvisorsOf(g[last]), Loadable, Rower(target, last), Rower(TargetOf(keys, g), last));
    }
  }

  /** Edges sent with advisor references rewritten by the resolution. */
  method SendRewritten(keys: seq<Key>, g: Graph, resolve: map<Key, Key>, nodes: seq<Key>, size: int)
    returns (batches: seq<seq<EdgeRow>>, count: nat)
    requires AliasMerge.AllIn(keys, g) && AliasMerge.AllIn(nodes, g) && Resolution(keys, g, resolve)
    ensures Flat(batches) == EdgeRows(TargetOf(keys, g), g, nodes) && Cut(size, batches) && count == |Flat(batches)|
  {
    var target := (k: Key) => if k in resolve then resolve[k] else k;
    TargetsAgree(keys, g, target, nodes);
    batches, count := SendEdges(target, g, nodes, size);
  }

  datatype Outcome =
    | NoRecords
    | DryRun(persons: nat)
    | Loaded(persons: nat, edges: nat, personBatches: seq<seq<PersonRow>>, edgeBatches: seq<seq<EdgeRow>>)

  /** An empty file stops the load and a dry run only counts; otherwise one row per node and the rows of the
      nodes' edges are sent, in order, cut into batches, and counted. */
  method Load(keys: seq<Key>, g: Graph, dryRun: bool, size: int) returns (outcome: Outcome)
    requires Lists(keys, g)
    ensures AliasMerge.AllIn(Nodes(keys, g, |keys|), g)
    ensures forall i, j :: 0 <= i < j < |Nodes(keys, g, |keys|)|
             ==> Nodes(keys, g, |keys|)[i] != Nodes(keys, g, |keys|)[j]
    ensures outcome.NoRecords? <==> keys == []
    ensures keys != [] ==> (outcome.DryRun? <==> dryRun)
    ensures keys != [] ==> outcome.persons == |Nodes(keys, g, |keys|)|
    ensures outcome.Loaded? ==> Flat(outcome.personBatches) == PersonRows(g, Nodes(keys, g, |keys|))
    ensures outcome.Loaded? ==> Flat(outcome.edgeBatches) == EdgeRows(TargetOf(keys, g), g, Nodes(keys, g, |keys|))
    ensures outcome.Loaded? ==> Cut(size, outcome.personBatches) && Cut(size, outcome.edgeBatches)
    ensures outcome.Loaded? ==> outcome.edges == |Flat(outcome.edgeBatches)|
  {
    NodesIn(keys, g, |keys|);
    NodesDistinct(keys, g, |keys|);
    if keys == [] {
      return NoRecords;
    }
    var resolve := ResolveKeys(keys, g);
    forall i | 0 <= i < |keys|
      ensures Grows(keys, g, i)
    {
      NodeStep(keys, g, i);
    }
    var nodes := Persons(keys, g, resolve);
    if dryRun {
      return DryRun(|nodes|);
    }
    var personBatches, persons := SendPersons(g, nodes, size);
    var edgeBatches, edges := SendRewritten(keys, g, resolve, nodes, size);
    outcome := Loaded(persons, edges, personBatches, edgeBatches);
  }
}

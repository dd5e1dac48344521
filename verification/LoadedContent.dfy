/** What a load leaves in the database, property by property, in terms of the records it loads. */
module LoadedContent {
  import opened Names
  import opened Options
  import opened Edges
  import opened Records
  import opened Loader
  import opened Database
  import AliasMerge

  /** The database after loading the records, whatever it held. */
  function LoadedInto(db: Db, keys: seq<Key>, g: Graph): Db
    requires Lists(keys, g) && AliasMerge.AllIn(Nodes(keys, g, |keys|), g)
  {
    After(db, PersonRows(g, Nodes(keys, g, |keys|)), EdgeRows(TargetOf(keys, g), g, Nodes(keys, g, |keys|)))
  }

  // ---- Nodes ----

  /** A property that was null takes the record's value; any other stays. */
  ghost predicate TakesUp(had: Node, k: Key, r: Record, has: Node) {
    && has.name == (if had.name != Null then had.name
                    else if "CanonicalLatin" in r.fields then r.fields["CanonicalLatin"]
                    else Text(AliasMerge.KeyText(k)))
    && has.gid == (if had.gid != None then had.gid else r.gid)
    && has.birthYear == (if had.birthYear != Null then had.birthYear else Get(r, "BirthYear"))
    && has.deathYear == (if had.deathYear != Null then had.deathYear else Get(r, "DeathYear"))
    && has.institution == (if had.institution != None then had.institution else r.institution)
    && has.country == (if had.country != Null then had.country else Get(r, "Country"))
    && has.source == (if had.source != [] then had.source else r.source)
  }

  lemma {:induction false} FilledTakesUp(had: Node, k: Key, r: Record)
    ensures TakesUp(had, k, r, Filled(had, PersonOf(k, r)))
  {
  }

  /** Every loaded node takes up what its record has. */
  lemma {:induction false} NodeCarries(db: Db, keys: seq<Key>, g: Graph, k: Key)
    requires Lists(keys, g) && AliasMerge.AllIn(Nodes(keys, g, |keys|), g) && k in Nodes(keys, g, |keys|)
    ensures k in g && k in LoadedInto(db, keys, g).nodes
    ensures TakesUp(NodeAt(db, k), k, g[k], LoadedInto(db, keys, g).nodes[k])
  {
    var nodes := Nodes(keys, g, |keys|);
    var persons, edges := PersonRows(g, nodes), EdgeRows(TargetOf(keys, g), g, nodes);
    var i :| 0 <= i < |nodes| && nodes[i] == k;
    NodesDistinct(keys, g, |keys|);
    assert persons[i] == PersonOf(k, g[k]);
    forall j | 0 <= j < |persons| && j != i
      ensures persons[j].key != persons[i].key
    {
      assert persons[j] == PersonOf(nodes[j], g[nodes[j]]);
    }
    OneRowFills(db, persons, i);
    RowsAreComplete(keys, g);
    CompleteIsSourced(db, persons, edges);
    EdgesUpserted(Upserted(db, persons, UpsertPerson), edges);
    FilledTakesUp(NodeAt(db, k), k, g[k]);
  }

  // ---- Edges ----

  /** The edge names an advisor that is loaded as `t`. */
  predicate LeadsTo(target: Target, e: Edge, t: Key) {
    e.name != NO_KEY && NormalizeKey(e.name) != NO_KEY && target(NormalizeKey(e.name)) == t
  }

  /** Edge `i` of the list is the last that is loaded as an edge to `t`. */
  ghost predicate LastTo(target: Target, edges: seq<Edge>, t: Key, i: nat) {
    && i < |edges| && LeadsTo(target, edges[i], t)
    && forall j :: i < j < |edges| ==> !LeadsTo(target, edges[j], t)
  }

  function CarriedBy(e: Edge): Props {
    Props(e.confidence, e.source, e.statedIn, e.needsVetting, e.relationDisputed, e.vettingTier)
  }

  lemma {:induction false} LastRowConcat(a: seq<EdgeRow>, b: seq<EdgeRow>, pair: (Key, Key))
    ensures LastRow(a + b, pair) == if LastRow(b, pair).Some? then LastRow(b, pair) else LastRow(a, pair)
  {
    if b == [] {
      assert a + b == a;
    } else {
      var n := |b| - 1;
      LastRowConcat(a, b[..n], pair);
      assert (a + b)[..|a + b| - 1] == a + b[..n];
    }
  }

  lemma {:induction false} LastRowSnoc(rows: seq<EdgeRow>, row: EdgeRow, pair: (Key, Key))
    ensures LastRow(rows + [row], pair) == if (row.src, row.adv) == pair then Some(row) else LastRow(rows, pair)
  {
    assert (rows + [row])[..|rows|] == rows;
  }

  lemma {:induction false} RowsSnoc(target: Target, src: Key, edges: seq<Edge>, pair: (Key, Key))
    requires edges != []
    ensures var init, last := edges[..|edges| - 1], edges[|edges| - 1];
            LastRow(RowsOf(target, src, edges), pair)
            == if pair.0 == src && LeadsTo(target, last, pair.1) then Some(RowOf(target, src, last))
               else LastRow(RowsOf(target, src, init), pair)
  {
    var init, last := edges[..|edges| - 1], edges[|edges| - 1];
    if Loadable(last) {
      assert RowsOf(target, src, edges) == RowsOf(target, src, init) + [RowOf(target, src, last)];
      LastRowSnoc(RowsOf(target, src, init), RowOf(target, src, last), pair);
    } else {
      assert RowsOf(target, src, edges) == RowsOf(target, src, init);
    }
  }

  lemma {:induction false} NoRowTo(target: Target, src: Key, edges: seq<Edge>, pair: (Key, Key))
    requires pair.0 != src || forall i :: 0 <= i < |edges| ==> !LeadsTo(target, edges[i], pair.1)
    ensures LastRow(RowsOf(target, src, edges), pair) == None
  {
    if edges != [] {
      RowsSnoc(target, src, edges, pair);
      NoRowTo(target, src, edges[..|edges| - 1], pair);
    }
  }

  lemma {:induction false} LastRowOf(target: Target, src: Key, edges: seq<Edge>, t: Key, i: nat)
    requires LastTo(target, edges, t, i)
    ensures LastRow(RowsOf(target, src, edges), (src, t)) == Some(RowOf(target, src, edges[i]))
  {
    RowsSnoc(target, src, edges, (src, t));
    if i < |edges| - 1 {
      LastRowOf(target, src, edges[..|edges| - 1], t, i);
    }
  }

  /** Of all rows those from `k` are the rows of its own record. */
  lemma {:induction false} LastRowFrom(target: Target, g: Graph, nodes: seq<Key>, k: Key, t: Key)
    requires AliasMerge.AllIn(nodes, g) && forall i, j :: 0 <= i < j < |nodes| ==> nodes[i] != nodes[j]
    ensures k in nodes ==> k in g && LastRow(EdgeRows(target, g, nodes), (k, t))
                                     == LastRow(RowsOf(target, k, AdvisorsOf(g[k])), (k, t))
    ensures k !in nodes ==> LastRow(EdgeRows(target, g, nodes), (k, t)) == None
  {
    if nodes != [] {
      var n := |nodes| - 1;
      var init, last := nodes[..n], nodes[n];
      LastRowFrom(target, g, init, k, t);
      LastRowConcat(EdgeRows(target, g, init), RowsOf(target, last, AdvisorsOf(g[last])), (k, t));
      assert nodes == init + [last];
      if k != last {
        NoRowTo(target, last, AdvisorsOf(g[last]), (k, t));
      } else {
        assert k !in init;
      }
    }
  }

  /** An edge of the database has what the last edge of the record to that node has.  Where the record has none, or the
      key is no loaded node, it is as it was. */
  lemma {:induction false} EdgeCarries(db: Db, keys: seq<Key>, g: Graph, k: Key, t: Key)
    requires Lists(keys, g) && AliasMerge.AllIn(Nodes(keys, g, |keys|), g)
    ensures k in Nodes(keys, g, |keys|) ==> k in g
    ensures k in Nodes(keys, g, |keys|) ==> forall i: nat :: LastTo(TargetOf(keys, g), AdvisorsOf(g[k]), t, i) ==>
              EdgeAt(LoadedInto(db, keys, g), (k, t)) == Some(CarriedBy(AdvisorsOf(g[k])[i]))
    ensures (k in Nodes(keys, g, |keys|) ==>
               forall i :: 0 <= i < |AdvisorsOf(g[k])| ==> !LeadsTo(TargetOf(keys, g), AdvisorsOf(g[k])[i], t)) ==>
              EdgeAt(LoadedInto(db, keys, g), (k, t)) == EdgeAt(db, (k, t))
  {
    var nodes := Nodes(keys, g, |keys|);
    var persons, edges := PersonRows(g, nodes), EdgeRows(TargetOf(keys, g), g, nodes);
    NodesDistinct(keys, g, |keys|);
    RowsAreComplete(keys, g);
    CompleteIsSourced(db, persons, edges);
    PersonsKeepEdges(db, persons);
    LastRowWins(Upserted(db, persons, UpsertPerson), edges, (k, t));
    LastRowFrom(TargetOf(keys, g), g, nodes, k, t);
    if k in nodes {
      var target, own := TargetOf(keys, g), AdvisorsOf(g[k]);
      forall i: nat | LastTo(target, own, t, i)
        ensures LastRow(RowsOf(target, k, own), (k, t)) == Some(RowOf(target, k, own[i]))
      {
        LastRowOf(target, k, own, t, i);
      }
      if forall i :: 0 <= i < |own| ==> !LeadsTo(target, own[i], t) {
        NoRowTo(target, k, own, (k, t));
      }
    }
  }

  // ---- Edges and their ends ----

  /** Every edge joins two nodes. */
  ghost predicate Anchored(db: Db) {
    forall pair :: pair in db.edges ==> pair.0 in db.nodes && pair.1 in db.nodes
  }

  lemma {:induction false} PersonsStayAnchored(db: Db, rows: seq<PersonRow>)
    requires Anchored(db)
    ensures Anchored(Upserted(db, rows, UpsertPerson))
  {
    if rows != [] {
      PersonsStayAnchored(db, rows[..|rows| - 1]);
    }
  }

  /** So it does after any load: a row whose source is no node makes no edge, and one whose target is none makes it. */
  lemma {:induction false} LoadStaysAnchored(db: Db, persons: seq<PersonRow>, edges: seq<EdgeRow>)
    requires Anchored(db)
    ensures Anchored(After(db, persons, edges))
    decreases |edges|
  {
    if edges == [] {
      PersonsStayAnchored(db, persons);
    } else {
      LoadStaysAnchored(db, persons, edges[..|edges| - 1]);
    }
  }

  /** Row `i` is the first to `k`. */
  ghost predicate FirstTo(rows: seq<EdgeRow>, k: Key, i: nat) {
    i < |rows| && rows[i].adv == k && forall j :: 0 <= j < i ==> rows[j].adv != k
  }

  lemma {:induction false} NoTarget(rows: seq<EdgeRow>, k: Key)
    requires forall j :: 0 <= j < |rows| ==> rows[j].adv != k
    ensures !IsTarget(rows, k)
  {
    if rows != [] {
      NoTarget(rows[..|rows| - 1], k);
    }
  }

  /** A target that was no node has nothing but its name, as the first row to it gives it. */
  lemma {:induction false} CreatedIs(db: Db, rows: seq<EdgeRow>, k: Key, i: nat)
    requires Sourced(db, rows) && k !in db.nodes && FirstTo(rows, k, i)
    ensures var db' := Upserted(db, rows, UpsertEdge);
            k in db'.nodes
            && db'.nodes[k] == Node(Text(AliasMerge.KeyText(rows[i].advName)), None, Null, Null, None, Null, [])
  {
    var n := |rows| - 1;
    EdgesUpserted(db, rows[..n]);
    if i < n {
      CreatedIs(db, rows[..n], k, i);
    } else {
      NoTarget(rows[..n], k);
    }
  }
}

/** What the two upsert statements of the loader do to the graph database.  A person's properties are only
    filled in where they are null; an edge's are set by each of its rows. */
module Database {
  import opened Names
  import opened Options
  import opened Edges
  import opened Records
  import opened Invariants
  import opened Regime
  import opened Loader
  import opened Batches
  import AliasMerge

  /** Null, None and no source part are null. */
  datatype Node = Node(
    name: Value, gid: Option<string>, birthYear: Value, deathYear: Value, institution: Option<string>,
    country: Value, source: seq<string>)

  const BLANK: Node := Node(Null, None, Null, Null, None, Null, [])

  datatype Props = Props(
    confidence: Option<Confidence>, source: Option<Source>, statedIn: Option<string>, needsVetting: bool,
    relationDisputed: bool, vettingTier: Option<Tier>)

  datatype Db = Db(nodes: map<Key, Node>, edges: map<(Key, Key), Props>)

  function FirstValue(a: Value, b: Value): Value {
    if a != Null then a else b
  }

  function Filled(n: Node, row: PersonRow): Node {
    Node(FirstValue(n.name, row.name), OrElse(n.gid, row.gid), FirstValue(n.birthYear, row.birthYear),
         FirstValue(n.deathYear, row.deathYear), OrElse(n.institution, row.institution),
         FirstValue(n.country, row.country), if n.source != [] then n.source else row.source)
  }

  function NodeAt(db: Db, k: Key): Node {
    if k in db.nodes then db.nodes[k] else BLANK
  }

  function UpsertPerson(db: Db, row: PersonRow): Db {
    db.(nodes := db.nodes[row.key := Filled(NodeAt(db, row.key), row)])
  }

  function PropsOf(row: EdgeRow): Props {
    Props(row.confidence, row.source, row.statedIn, row.needsVetting, row.relationDisputed, row.vettingTier)
  }

  /** A row whose source is no node matches nothing; a target that is no node is created with a name alone. */
  function UpsertEdge(db: Db, row: EdgeRow): Db {
    if row.src !in db.nodes then db
    else
      Db(if row.adv in db.nodes then db.nodes
          else db.nodes[row.adv := BLANK.(name := Text(AliasMerge.KeyText(row.advName)))],
         db.edges[(row.src, row.adv) := PropsOf(row)])
  }

  function Upserted<Row>(db: Db, rows: seq<Row>, upsert: (Db, Row) -> Db): Db {
    if rows == [] then db else upsert(Upserted(db, rows[..|rows| - 1], upsert), rows[|rows| - 1])
  }

  /** Batch after batch. */
  function Received<Row>(db: Db, batches: seq<seq<Row>>, upsert: (Db, Row) -> Db): Db {
    if batches == [] then db
    else Upserted(Received(db, batches[..|batches| - 1], upsert), batches[|batches| - 1], upsert)
  }

  /** Persons first, then edges. */
  function After(db: Db, persons: seq<PersonRow>, edges: seq<EdgeRow>): Db {
    Upserted(Upserted(db, persons, UpsertPerson), edges, UpsertEdge)
  }

  // ---- Batches do not matter ----

  lemma {:induction false} UpsertedConcat<Row>(db: Db, a: seq<Row>, b: seq<Row>, upsert: (Db, Row) -> Db)
    ensures Upserted(db, a + b, upsert) == Upserted(Upserted(db, a, upsert), b, upsert)
  {
    if b == [] {
      assert a + b == a;
    } else {
      var n := |b| - 1;
      UpsertedConcat(db, a, b[..n], upsert);
      assert (a + b)[..|a + b| - 1] == a + b[..n];
    }
  }

  /** However the rows are cut into batches, the database ends up the same. */
  lemma {:induction false} BatchesDoNotMatter<Row>(db: Db, batches: seq<seq<Row>>, upsert: (Db, Row) -> Db)
    ensures Received(db, batches, upsert) == Upserted(db, Flat(batches), upsert)
  {
    if batches != [] {
      var n := |batches| - 1;
      BatchesDoNotMatter(db, batches[..n], upsert);
      UpsertedConcat(db, Flat(batches[..n]), batches[n], upsert);
    }
  }

  // ---- Persons ----

  /** The node has a value wherever the row has one. */
  predicate Absorbs(db: Db, row: PersonRow) {
    row.key in db.nodes && Filled(db.nodes[row.key], row) == db.nodes[row.key]
  }

  lemma UpsertAbsorbs(db: Db, row: PersonRow, other: PersonRow)
    ensures Absorbs(UpsertPerson(db, row), row)
    ensures Absorbs(db, other) ==> Absorbs(UpsertPerson(db, row), other)
    ensures Absorbs(db, row) ==> UpsertPerson(db, row) == db
  {
  }

  lemma {:induction false} PersonsAbsorbed(db: Db, rows: seq<PersonRow>, i: nat)
    requires i < |rows|
    ensures Absorbs(Upserted(db, rows, UpsertPerson), rows[i])
  {
    var n := |rows| - 1;
    if i < n {
      PersonsAbsorbed(db, rows[..n], i);
    }
    UpsertAbsorbs(Upserted(db, rows[..n], UpsertPerson), rows[n], rows[i]);
  }

  lemma {:induction false} AbsorbedAgain(db: Db, rows: seq<PersonRow>)
    requires forall i :: 0 <= i < |rows| ==> Absorbs(db, rows[i])
    ensures Upserted(db, rows, UpsertPerson) == db
  {
    if rows != [] {
      var n := |rows| - 1;
      AbsorbedAgain(db, rows[..n]);
      UpsertAbsorbs(db, rows[n], rows[n]);
    }
  }

  /** Upserting persons leaves edges alone. */
  lemma {:induction false} PersonsKeepEdges(db: Db, rows: seq<PersonRow>)
    ensures Upserted(db, rows, UpsertPerson).edges == db.edges
  {
    if rows != [] {
      PersonsKeepEdges(db, rows[..|rows| - 1]);
    }
  }

  // ---- Edges ----

  /** The last row for a pair of nodes. */
  function LastRow(rows: seq<EdgeRow>, pair: (Key, Key)): Option<EdgeRow> {
    if rows == [] then None
    else
      var last := rows[|rows| - 1];
      if (last.src, last.adv) == pair then Some(last) else LastRow(rows[..|rows| - 1], pair)
  }

  ghost predicate Sourced(db: Db, rows: seq<EdgeRow>) {
    forall i :: 0 <= i < |rows| ==> rows[i].src in db.nodes
  }

  predicate IsTarget(rows: seq<EdgeRow>, k: Key) {
    rows != [] && (rows[|rows| - 1].adv == k || IsTarget(rows[..|rows| - 1], k))
  }

  /** Nodes stay as they are, and targets that were none appear. */
  lemma {:induction false} EdgesUpserted(db: Db, rows: seq<EdgeRow>)
    requires Sourced(db, rows)
    ensures var db' := Upserted(db, rows, UpsertEdge);
            && (forall k :: k in db.nodes ==> k in db'.nodes && db'.nodes[k] == db.nodes[k])
            && (forall k :: k in db'.nodes <==> k in db.nodes || IsTarget(rows, k))
  {
    if rows != [] {
      EdgesUpserted(db, rows[..|rows| - 1]);
    }
  }

  function EdgeAt(db: Db, pair: (Key, Key)): Option<Props> {
    if pair in db.edges then Some(db.edges[pair]) else None
  }

  lemma {:induction false} LastRowWins(db: Db, rows: seq<EdgeRow>, pair: (Key, Key))
    requires Sourced(db, rows)
    ensures var last := LastRow(rows, pair);
            EdgeAt(Upserted(db, rows, UpsertEdge), pair)
                == if last.Some? then Some(PropsOf(last.value)) else EdgeAt(db, pair)
  {
    if rows != [] {
      LastRowWins(db, rows[..|rows| - 1], pair);
      EdgesUpserted(db, rows[..|rows| - 1]);
    }
  }

  lemma SameDb(a: Db, b: Db)
    requires a.nodes == b.nodes && forall pair :: EdgeAt(a, pair) == EdgeAt(b, pair)
    ensures a == b
  {
    forall pair | pair in a.edges
      ensures pair in b.edges && a.edges[pair] == b.edges[pair]
    {
      assert EdgeAt(a, pair) == EdgeAt(b, pair);
    }
    forall pair | pair in b.edges
      ensures pair in a.edges
    {
      assert EdgeAt(a, pair) == EdgeAt(b, pair);
    }
    assert a.edges == b.edges;
  }

  /** The rows of edges, sent again, change nothing. */
  lemma {:induction false} EdgesAgain(db: Db, rows: seq<EdgeRow>)
    requires Sourced(db, rows)
    ensures var db' := Upserted(db, rows, UpsertEdge); Sourced(db', rows) && Upserted(db', rows, UpsertEdge) == db'
  {
    var db' := Upserted(db, rows, UpsertEdge);
    EdgesUpserted(db, rows);
    EdgesUpserted(db', rows);
    var db'' := Upserted(db', rows, UpsertEdge);
    assert db''.nodes == db'.nodes;
    forall pair
      ensures EdgeAt(db'', pair) == EdgeAt(db', pair)
    {
      LastRowWins(db, rows, pair);
      LastRowWins(db', rows, pair);
    }
    SameDb(db'', db');
  }

  // ---- Whole loads ----

  predicate HasPerson(rows: seq<PersonRow>, k: Key) {
    rows != [] && (rows[|rows| - 1].key == k || HasPerson(rows[..|rows| - 1], k))
  }

  lemma {:induction false} PersonsAreNodes(db: Db, rows: seq<PersonRow>, k: Key)
    ensures k in Upserted(db, rows, UpsertPerson).nodes <==> k in db.nodes || HasPerson(rows, k)
  {
    if rows != [] {
      PersonsAreNodes(db, rows[..|rows| - 1], k);
    }
  }

  /** Every edge starts at a person of the load. */
  ghost predicate Complete(persons: seq<PersonRow>, edges: seq<EdgeRow>) {
    forall i :: 0 <= i < |edges| ==> HasPerson(persons, edges[i].src)
  }

  lemma {:induction false} CompleteIsSourced(db: Db, persons: seq<PersonRow>, edges: seq<EdgeRow>)
    requires Complete(persons, edges)
    ensures Sourced(Upserted(db, persons, UpsertPerson), edges)
  {
    forall i | 0 <= i < |edges|
      ensures edges[i].src in Upserted(db, persons, UpsertPerson).nodes
    {
      PersonsAreNodes(db, persons, edges[i].src);
    }
  }

  /** Loading the same rows again changes nothing, whatever the database held before. */
  lemma {:induction false} ReloadIsIdempotent(db: Db, persons: seq<PersonRow>, edges: seq<EdgeRow>)
    requires Complete(persons, edges)
    ensures After(After(db, persons, edges), persons, edges) == After(db, persons, edges)
  {
    var db1 := Upserted(db, persons, UpsertPerson);
    var db2 := After(db, persons, edges);
    CompleteIsSourced(db, persons, edges);
    EdgesUpserted(db1, edges);
    forall i | 0 <= i < |persons|
      ensures Absorbs(db2, persons[i])
    {
      PersonsAbsorbed(db, persons, i);
    }
    AbsorbedAgain(db2, persons);
    EdgesAgain(db1, edges);
  }

  /** A load removes no node and no edge, so what a newer file no longer has stays in the database. */
  lemma {:induction false} NothingLeaves(db: Db, persons: seq<PersonRow>, edges: seq<EdgeRow>, k: Key, pair: (Key, Key))
    requires Complete(persons, edges)
    ensures k in db.nodes ==> k in After(db, persons, edges).nodes
    ensures pair in db.edges ==> pair in After(db, persons, edges).edges
    ensures pair in db.edges && LastRow(edges, pair).None? ==> After(db, persons, edges).edges[pair] == db.edges[pair]
  {
    var db1 := Upserted(db, persons, UpsertPerson);
    CompleteIsSourced(db, persons, edges);
    PersonsAreNodes(db, persons, k);
    PersonsKeepEdges(db, persons);
    EdgesUpserted(db1, edges);
    LastRowWins(db1, edges, pair);
    assert EdgeAt(db1, pair) == EdgeAt(db, pair);
  }

  lemma {:induction false} OthersLeaveIt(db: Db, persons: seq<PersonRow>, k: Key)
    requires forall j :: 0 <= j < |persons| ==> persons[j].key != k
    ensures NodeAt(Upserted(db, persons, UpsertPerson), k) == NodeAt(db, k)
  {
    if persons != [] {
      OthersLeaveIt(db, persons[..|persons| - 1], k);
    }
  }

  lemma {:induction false} OneRowFills(db: Db, persons: seq<PersonRow>, i: nat)
    requires i < |persons| && forall j :: 0 <= j < |persons| && j != i ==> persons[j].key != persons[i].key
    ensures var db' := Upserted(db, persons, UpsertPerson);
            persons[i].key in db'.nodes && db'.nodes[persons[i].key] == Filled(NodeAt(db, persons[i].key), persons[i])
  {
    var n := |persons| - 1;
    if i < n {
      OneRowFills(db, persons[..n], i);
    } else {
      OthersLeaveIt(db, persons[..n], persons[i].key);
    }
  }

  /** The property was null or the same. */
  predicate Fillable(had: Value, offered: Value) {
    had == Null || had == offered
  }

  /** A newer birth year reaches a node that was loaded before exactly if the node had none or the
      same. */
  lemma {:induction false} CorrectionArrivesIff(db: Db, persons: seq<PersonRow>, edges: seq<EdgeRow>, i: nat)
    requires Complete(persons, edges) && i < |persons|
    requires forall j :: 0 <= j < |persons| && j != i ==> persons[j].key != persons[i].key
    ensures var k := persons[i].key;
            && k in After(db, persons, edges).nodes
            && (After(db, persons, edges).nodes[k].birthYear == persons[i].birthYear
                <==> Fillable(NodeAt(db, k).birthYear, persons[i].birthYear))
  {
    OneRowFills(db, persons, i);
    CompleteIsSourced(db, persons, edges);
    EdgesUpserted(Upserted(db, persons, UpsertPerson), edges);
  }

  /** A birth year corrected from 1900 to 1901 does not arrive. */
  lemma {:induction false} CorrectedYearIsRefused(person: PersonRow, db: Db)
    requires person.key in db.nodes && db.nodes[person.key].birthYear == Num(1900) && person.birthYear == Num(1901)
    ensures After(db, [person], []).nodes[person.key].birthYear == Num(1900)
  {
    assert [person][..0] == [];
    assert Upserted(db, [person], UpsertPerson) == UpsertPerson(Upserted(db, [], UpsertPerson), person);
  }

  lemma {:induction false} TargetRow(rows: seq<EdgeRow>, k: Key) returns (row: EdgeRow)
    requires IsTarget(rows, k)
    ensures row in rows && row.adv == k
  {
    var n := |rows| - 1;
    if rows[n].adv == k {
      row := rows[n];
    } else {
      row := TargetRow(rows[..n], k);
    }
  }

  lemma {:induction false} PersonKeys(g: Graph, nodes: seq<Key>, k: Key)
    requires AliasMerge.AllIn(nodes, g)
    ensures HasPerson(PersonRows(g, nodes), k) <==> k in nodes
  {
    if nodes != [] {
      var n := |nodes| - 1;
      PersonKeys(g, nodes[..n], k);
      assert PersonRows(g, nodes)[..n] == PersonRows(g, nodes[..n]);
      assert nodes == nodes[..n] + [nodes[n]];
    }
  }

  lemma {:induction false} RowsAreComplete(keys: seq<Key>, g: Graph)
    requires Lists(keys, g)
    ensures AliasMerge.AllIn(Nodes(keys, g, |keys|), g)
    ensures Complete(PersonRows(g, Nodes(keys, g, |keys|)), EdgeRows(TargetOf(keys, g), g, Nodes(keys, g, |keys|)))
  {
    NodesIn(keys, g, |keys|);
    var nodes := Nodes(keys, g, |keys|);
    var edges := EdgeRows(TargetOf(keys, g), g, nodes);
    forall i | 0 <= i < |edges|
      ensures HasPerson(PersonRows(g, nodes), edges[i].src)
    {
      assert edges[i] in edges;
      EdgeRowsAre(TargetOf(keys, g), g, nodes, edges[i]);
      PersonKeys(g, nodes, edges[i].src);
    }
  }

  lemma {:induction false} LastRowExists(rows: seq<EdgeRow>, pair: (Key, Key))
    ensures LastRow(rows, pair).Some? <==> exists row :: row in rows && (row.src, row.adv) == pair
  {
    if rows != [] {
      var n := |rows| - 1;
      LastRowExists(rows[..n], pair);
      assert rows == rows[..n] + [rows[n]];
    }
  }

  lemma {:induction false} PairsAreRows(keys: seq<Key>, g: Graph, pair: (Key, Key))
    requires Lists(keys, g) && AliasMerge.AllIn(Nodes(keys, g, |keys|), g)
    ensures (exists row :: row in EdgeRows(TargetOf(keys, g), g, Nodes(keys, g, |keys|)) && (row.src, row.adv) == pair)
       <==> RowBetween(keys, g, pair.0, pair.1)
  {
    forall row
      ensures row in EdgeRows(TargetOf(keys, g), g, Nodes(keys, g, |keys|)) <==> LoadedRow(keys, g, row)
    {
      LoadedRowsAre(keys, g, row);
    }
  }

  /** Loaded into an empty database, the records of a graph become exactly its nodes, and its edges exactly the
      pairs that some row joins. */
  lemma {:induction false} FreshLoad(keys: seq<Key>, g: Graph, k: Key, pair: (Key, Key))
    requires Lists(keys, g) && I5(g)
    ensures AliasMerge.AllIn(Nodes(keys, g, |keys|), g)
    ensures var nodes := Nodes(keys, g, |keys|);
            var db := After(Db(map[], map[]), PersonRows(g, nodes), EdgeRows(TargetOf(keys, g), g, nodes));
            && (k in db.nodes <==> k in nodes)
            && (pair in db.edges <==> RowBetween(keys, g, pair.0, pair.1))
  {
    NodesIn(keys, g, |keys|);
    var nodes := Nodes(keys, g, |keys|);
    var persons, edges := PersonRows(g, nodes), EdgeRows(TargetOf(keys, g), g, nodes);
    var empty := Db(map[], map[]);
    RowsAreComplete(keys, g);
    CompleteIsSourced(empty, persons, edges);
    var db1 := Upserted(empty, persons, UpsertPerson);
    EdgesUpserted(db1, edges);
    PersonsAreNodes(empty, persons, k);
    PersonKeys(g, nodes, k);
    if IsTarget(edges, k) {
      var row := TargetRow(edges, k);
      LoadedRowsAre(keys, g, row);
      RowsEndAtNodes(keys, g, row);
    }
    PersonsKeepEdges(empty, persons);
    LastRowWins(db1, edges, pair);
    LastRowExists(edges, pair);
    PairsAreRows(keys, g, pair);
  }
}

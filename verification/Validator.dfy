/** The integrity gate (`validate`): one pass over the records, the cycle search, and the identifier
    checks.  Each reported check is exactly a violated invariant. */
module Validator {
  import opened Names
  import opened Edges
  import opened Filters
  import opened Records
  import opened Invariants
  import EdgeIntegrity
  import CycleFinder

  /** The checks made of each record. */
  datatype Check = C1 | C3 | C4 | C5

  /** The keys in some order: no check depends on which. */
  method Listing(g: Graph) returns (keys: seq<Key>)
    ensures Lists(keys, g)
  {
    keys := [];
    var rest := g.Keys;
    while rest != {}
      invariant rest <= g.Keys && (forall k :: k in keys <==> k in g && k !in rest)
      invariant forall i, j :: 0 <= i < j < |keys| ==> keys[i] != keys[j]
      decreases |rest|
    {
      var k :| k in rest;
      assert forall t :: t in keys + [k] <==> t in keys || t == k;
      rest, keys := rest - {k}, keys + [k];
    }
  }

  // ---- Findings about one record ----

  ghost predicate LacksProvenance(edges: seq<Edge>) {
    exists i :: 0 <= i < |edges| && !HasProvenance(edges[i])
  }

  ghost predicate Dangles(g: Graph, edges: seq<Edge>) {
    exists i :: 0 <= i < |edges| && AdvisorKey(edges[i]) != NO_KEY && AdvisorKey(edges[i]) !in g
  }

  datatype Findings = Findings(selfLoop: bool, duplicate: bool, noProvenance: bool, dangling: bool, targets: seq<Key>)

  /** What the scan of the named edges of record `k` must find. */
  ghost predicate Describes(f: Findings, g: Graph, k: Key, edges: seq<Edge>) {
    && (f.selfLoop <==> EdgeIntegrity.KeyAmong(AdvisorKey, edges, k))
    && (f.duplicate <==> !EdgeIntegrity.DistinctKeys(AdvisorKey, edges))
    && (f.noProvenance <==> LacksProvenance(edges))
    && (f.dangling <==> Dangles(g, edges))
  }

  /** Scan state after some edges, with the keys seen. */
  function ScanOne(f: Findings, seen: set<Key>, g: Graph, k: Key, a: Edge): Findings {
    var ak := AdvisorKey(a);
    Findings(
      f.selfLoop || ak == k,
      f.duplicate || ak in seen,
      f.noProvenance || !HasProvenance(a),
      f.dangling || (ak !in g && ak != NO_KEY),
      if ak in g then f.targets + [ak] else f.targets)
  }

  lemma {:induction false} ScanSelfLoop(edges: seq<Edge>, a: Edge, k: Key)
    ensures EdgeIntegrity.KeyAmong(AdvisorKey, edges + [a], k)
        <==> EdgeIntegrity.KeyAmong(AdvisorKey, edges, k) || AdvisorKey(a) == k
  {
    var all := edges + [a];
    if i :| 0 <= i < |edges| && AdvisorKey(edges[i]) == k {
      assert AdvisorKey(all[i]) == k;
    }
    assert all[|edges|] == a;
  }

  lemma {:induction false} ScanDuplicate(edges: seq<Edge>, a: Edge)
    ensures EdgeIntegrity.DistinctKeys(AdvisorKey, edges + [a])
       <==> EdgeIntegrity.DistinctKeys(AdvisorKey, edges) && !EdgeIntegrity.KeyAmong(AdvisorKey, edges, AdvisorKey(a))
  {
    var all := edges + [a];
    assert forall i :: 0 <= i < |edges| ==> all[i] == edges[i];
    assert all[|edges|] == a;
  }

  lemma {:induction false} ScanProvenance(edges: seq<Edge>, a: Edge)
    ensures LacksProvenance(edges + [a]) <==> LacksProvenance(edges) || !HasProvenance(a)
  {
    var all := edges + [a];
    if i :| 0 <= i < |edges| && !HasProvenance(edges[i]) {
      assert !HasProvenance(all[i]);
    }
    assert all[|edges|] == a;
  }

  lemma {:induction false} ScanDangling(g: Graph, edges: seq<Edge>, a: Edge)
    ensures Dangles(g, edges + [a]) <==> Dangles(g, edges) || (AdvisorKey(a) != NO_KEY && AdvisorKey(a) !in g)
  {
    var all := edges + [a];
    if i :| 0 <= i < |edges| && AdvisorKey(edges[i]) != NO_KEY && AdvisorKey(edges[i]) !in g {
      assert AdvisorKey(all[i]) != NO_KEY && AdvisorKey(all[i]) !in g;
    }
    assert all[|edges|] == a;
  }

  ghost predicate Seen(seen: set<Key>, edges: seq<Edge>) {
    forall t :: t in seen <==> EdgeIntegrity.KeyAmong(AdvisorKey, edges, t)
  }

  lemma {:induction false} SeenNext(seen: set<Key>, edges: seq<Edge>, a: Edge)
    requires Seen(seen, edges)
    ensures Seen(seen + {AdvisorKey(a)}, edges + [a])
  {
    forall t
      ensures t in seen + {AdvisorKey(a)} <==> EdgeIntegrity.KeyAmong(AdvisorKey, edges + [a], t)
    {
      ScanSelfLoop(edges, a, t);
    }
  }

  lemma {:induction false} ScanNext(f: Findings, seen: set<Key>, g: Graph, k: Key, edges: seq<Edge>, a: Edge)
    requires Describes(f, g, k, edges) && Seen(seen, edges)
    ensures Describes(ScanOne(f, seen, g, k, a), g, k, edges + [a])
  {
    ScanSelfLoop(edges, a, k);
    ScanDuplicate(edges, a);
    ScanProvenance(edges, a);
    ScanDangling(g, edges, a);
  }

  lemma TargetsNext(g: Graph, edges: seq<Edge>, a: Edge)
    requires Named(a)
    ensures TargetsIn(g, edges + [a]) == TargetsIn(g, edges) + if AdvisorKey(a) in g then [AdvisorKey(a)] else []
  {
    assert (edges + [a])[..|edges|] == edges;
  }

  ghost predicate Scanned(f: Findings, seen: set<Key>, g: Graph, k: Key, done: seq<Edge>) {
    Describes(f, g, k, done) && f.targets == TargetsIn(g, done) && Seen(seen, done)
  }

  lemma {:induction false} ScanStep(f: Findings, seen: set<Key>, g: Graph, k: Key, done: seq<Edge>, a: Edge)
    requires Scanned(f, seen, g, k, done) && Named(a)
    ensures Scanned(ScanOne(f, seen, g, k, a), seen + {AdvisorKey(a)}, g, k, done + [a])
  {
    ScanNext(f, seen, g, k, done, a);
    TargetsNext(g, done, a);
    SeenNext(seen, done, a);
  }

  method ScanEdge(f: Findings, seen: set<Key>, g: Graph, k: Key, ghost done: seq<Edge>, a: Edge)
    returns (f': Findings, seen': set<Key>)
    requires Scanned(f, seen, g, k, done) && Named(a)
    ensures Scanned(f', seen', g, k, done + [a])
  {
    ScanStep(f, seen, g, k, done, a);
    f', seen' := ScanOne(f, seen, g, k, a), seen + {AdvisorKey(a)};
  }

  lemma NothingScanned(g: Graph, k: Key)
    ensures Scanned(Findings(false, false, false, false, []), {}, g, k, [])
  {
  }

  method ScanRecord(g: Graph, k: Key, edges: seq<Edge>) returns (f: Findings)
    requires forall i :: 0 <= i < |edges| ==> Named(edges[i])
    ensures Describes(f, g, k, edges) && f.targets == TargetsIn(g, edges)
  {
    var seen: set<Key>;
    f, seen := Findings(false, false, false, false, []), {};
    NothingScanned(g, k);
    for n := 0 to |edges|
      invariant Scanned(f, seen, g, k, edges[..n])
    {
      assert edges[..n + 1] == edges[..n] + [edges[n]];
      f, seen := ScanEdge(f, seen, g, k, edges[..n], edges[n]);
    }
    assert edges[..|edges|] == edges;
  }

  // ---- Findings about the graph ----

  lemma {:induction false} TargetsOfNamed(g: Graph, edges: seq<Edge>)
    ensures TargetsIn(g, NamedEdges(edges)) == TargetsIn(g, edges)
  {
    if edges != [] {
      var init, last := edges[..|edges| - 1], edges[|edges| - 1];
      TargetsOfNamed(g, init);
      if Named(last) {
        assert NamedEdges(edges) == NamedEdges(init) + [last];
        TargetsNext(g, NamedEdges(init), last);
      } else {
        assert NamedEdges(edges) == NamedEdges(init);
      }
    }
  }

  /** Some edge invariant fails at record `k`. */
  ghost predicate Fails(g: Graph, c: Check, k: Key)
    requires k in g
  {
    var edges := NamedEdges(AdvisorsOf(g[k]));
    match c
    case C1 => EdgeIntegrity.KeyAmong(AdvisorKey, edges, k)
    case C3 => !EdgeIntegrity.DistinctKeys(AdvisorKey, edges)
    case C4 => LacksProvenance(edges)
    case C5 => Dangles(g, edges)
  }

  /** Reported exactly when it fails at one of the first `n` records. */
  ghost predicate Reported(g: Graph, keys: seq<Key>, n: nat, c: Check, reported: bool)
    requires forall i :: 0 <= i < |keys| ==> keys[i] in g
  {
    n <= |keys| && (reported <==> exists i :: 0 <= i < n && Fails(g, c, keys[i]))
  }

  lemma ReportedNext(g: Graph, keys: seq<Key>, n: nat, c: Check, reported: bool, found: bool)
    requires n < |keys| && forall i :: 0 <= i < |keys| ==> keys[i] in g
    requires Reported(g, keys, n, c, reported) && (found <==> Fails(g, c, keys[n]))
    ensures Reported(g, keys, n + 1, c, reported || found)
  {
  }

  ghost predicate FoundAt(g: Graph, k: Key, f: Findings)
    requires k in g
  {
    && (f.selfLoop <==> Fails(g, C1, k)) && (f.duplicate <==> Fails(g, C3, k))
    && (f.noProvenance <==> Fails(g, C4, k)) && (f.dangling <==> Fails(g, C5, k))
  }

  method ScanNode(g: Graph, k: Key) returns (f: Findings)
    requires k in g
    ensures FoundAt(g, k, f)
    ensures f.targets == TargetsIn(g, AdvisorsOf(g[k]))
  {
    var edges := NamedEdges(AdvisorsOf(g[k]));
    KeepFacts(AdvisorsOf(g[k]), Named);
    f := ScanRecord(g, k, edges);
    TargetsOfNamed(g, AdvisorsOf(g[k]));
  }

  ghost predicate PartOfAdjacency(g: Graph, keys: seq<Key>, n: nat, adj: CycleFinder.Graph<Key>) {
    && n <= |keys| && (forall k :: k in adj <==> k in keys[..n])
    && forall k :: k in adj ==> k in g && adj[k] == TargetsIn(g, AdvisorsOf(g[k]))
  }

  lemma {:induction false} PartNext(g: Graph, keys: seq<Key>, n: nat, adj: CycleFinder.Graph<Key>)
    requires PartOfAdjacency(g, keys, n, adj) && n < |keys| && keys[n] in g
    ensures PartOfAdjacency(g, keys, n + 1, adj[keys[n] := TargetsIn(g, AdvisorsOf(g[keys[n]]))])
  {
    assert keys[..n + 1] == keys[..n] + [keys[n]];
  }

  lemma {:induction false} AllOfAdjacency(g: Graph, keys: seq<Key>, adj: CycleFinder.Graph<Key>)
    requires Lists(keys, g) && PartOfAdjacency(g, keys, |keys|, adj)
    ensures adj == Adjacency(g)
  {
    assert keys[..|keys|] == keys;
  }

  /** The edge checks reported so far. */
  datatype Flags = Flags(c1: bool, c3: bool, c4: bool, c5: bool)

  ghost predicate AllReported(g: Graph, keys: seq<Key>, n: nat, flags: Flags)
    requires forall i :: 0 <= i < |keys| ==> keys[i] in g
  {
    && Reported(g, keys, n, C1, flags.c1) && Reported(g, keys, n, C3, flags.c3)
    && Reported(g, keys, n, C4, flags.c4) && Reported(g, keys, n, C5, flags.c5)
  }

  method Accumulate(g: Graph, keys: seq<Key>, n: nat, flags: Flags, f: Findings) returns (next: Flags)
    requires n < |keys| && forall i :: 0 <= i < |keys| ==> keys[i] in g
    requires AllReported(g, keys, n, flags) && FoundAt(g, keys[n], f)
    ensures AllReported(g, keys, n + 1, next)
  {
    ReportedNext(g, keys, n, C1, flags.c1, f.selfLoop);
    ReportedNext(g, keys, n, C3, flags.c3, f.duplicate);
    ReportedNext(g, keys, n, C4, flags.c4, f.noProvenance);
    ReportedNext(g, keys, n, C5, flags.c5, f.dangling);
    next := Flags(flags.c1 || f.selfLoop, flags.c3 || f.duplicate, flags.c4 || f.noProvenance, flags.c5 || f.dangling);
  }

  method ScanRecords(keys: seq<Key>, g: Graph) returns (flags: Flags, adj: CycleFinder.Graph<Key>)
    requires Lists(keys, g)
    ensures AllReported(g, keys, |keys|, flags) && adj == Adjacency(g)
  {
    flags, adj := Flags(false, false, false, false), map[];
    for i := 0 to |keys|
      invariant AllReported(g, keys, i, flags)
      invariant PartOfAdjacency(g, keys, i, adj)
    {
      var f := ScanNode(g, keys[i]);
      PartNext(g, keys, i, adj);
      adj := adj[keys[i] := f.targets];
      flags := Accumulate(g, keys, i, flags, f);
    }
    AllOfAdjacency(g, keys, adj);
  }

  lemma {:induction false} RecordChecks(keys: seq<Key>, g: Graph)
    requires Lists(keys, g)
    ensures I1(g) <==> !exists i :: 0 <= i < |keys| && Fails(g, C1, keys[i])
    ensures I3(g) <==> !exists i :: 0 <= i < |keys| && Fails(g, C3, keys[i])
  {
    forall k | k in g
      ensures exists i :: 0 <= i < |keys| && keys[i] == k
      ensures Fails(g, C1, k) <==> Advises(g[k], k)
    {
      var i := PositionOf(keys, g, k);
      EdgeIntegrity.AdvisesIs(g[k], k);
    }
  }

  lemma {:induction false} LacksIs(edges: seq<Edge>)
    ensures LacksProvenance(NamedEdges(edges))
        <==> exists j :: 0 <= j < |edges| && Named(edges[j]) && !HasProvenance(edges[j])
  {
    var named := NamedEdges(edges);
    KeepFacts(edges, Named);
    if i :| 0 <= i < |named| && !HasProvenance(named[i]) {
      var j :| 0 <= j < |edges| && edges[j] == named[i];
    }
    if j :| 0 <= j < |edges| && Named(edges[j]) && !HasProvenance(edges[j]) {
      var i :| 0 <= i < |named| && named[i] == edges[j];
    }
  }

  lemma {:induction false} ProvenanceCheck(keys: seq<Key>, g: Graph)
    requires Lists(keys, g)
    ensures I4(g) <==> !exists i :: 0 <= i < |keys| && Fails(g, C4, keys[i])
  {
    forall k | k in g
      ensures exists i :: 0 <= i < |keys| && keys[i] == k
    {
      var i := PositionOf(keys, g, k);
    }
    forall k | k in g
      ensures Fails(g, C4, k)
         <==> exists j :: 0 <= j < |AdvisorsOf(g[k])| && Named(AdvisorsOf(g[k])[j])
               && !HasProvenance(AdvisorsOf(g[k])[j])
    {
      LacksIs(AdvisorsOf(g[k]));
    }
  }

  lemma {:induction false} DanglesIs(g: Graph, r: Record)
    ensures Dangles(g, NamedEdges(AdvisorsOf(r))) <==> exists t :: Advises(r, t) && t != NO_KEY && t !in g
  {
    var named := NamedEdges(AdvisorsOf(r));
    if i :| 0 <= i < |named| && AdvisorKey(named[i]) != NO_KEY && AdvisorKey(named[i]) !in g {
      EdgeIntegrity.AdvisesIs(r, AdvisorKey(named[i]));
    }
    if t :| Advises(r, t) && t != NO_KEY && t !in g {
      EdgeIntegrity.AdvisesIs(r, t);
      var i :| 0 <= i < |named| && AdvisorKey(named[i]) == t;
      assert AdvisorKey(named[i]) !in g;
    }
  }

  lemma {:induction false} DanglingCheck(keys: seq<Key>, g: Graph)
    requires Lists(keys, g)
    ensures I5(g) <==> !exists i :: 0 <= i < |keys| && Fails(g, C5, keys[i])
  {
    forall k | k in g
      ensures exists i :: 0 <= i < |keys| && keys[i] == k
      ensures Fails(g, C5, k) <==> exists t :: Advises(g[k], t) && t != NO_KEY && t !in g
    {
      var i := PositionOf(keys, g, k);
      DanglesIs(g, g[k]);
    }
  }

  // ---- Identifiers ----

  /** What the listed records under `id` look like through `shape`. */
  function ShapesOf<T>(keys: seq<Key>, g: Graph, shape: Record -> T, id: string): set<T>
    requires forall i :: 0 <= i < |keys| ==> keys[i] in g
  {
    if keys == [] then {}
    else
      var r := g[keys[|keys| - 1]];
      ShapesOf(keys[..|keys| - 1], g, shape, id) + if HasId(r) && r.gid.value == id then {shape(r)} else {}
  }

  lemma {:induction false} ShapesOfHas<T>(keys: seq<Key>, g: Graph, shape: Record -> T, id: string, t: T)
    requires forall i :: 0 <= i < |keys| ==> keys[i] in g
    ensures t in ShapesOf(keys, g, shape, id)
       <==> exists i :: 0 <= i < |keys| && HasId(g[keys[i]]) && g[keys[i]].gid.value == id && shape(g[keys[i]]) == t
  {
    if keys != [] {
      var init := keys[..|keys| - 1];
      ShapesOfHas(init, g, shape, id, t);
      if i :| 0 <= i < |init| && HasId(g[init[i]]) && g[init[i]].gid.value == id && shape(g[init[i]]) == t {
        assert shape(g[keys[i]]) == t;
      }
    }
  }

  /** Two records under one identifier differ through `shape`. */
  ghost predicate Conflict<T>(g: Graph, shape: Record -> T) {
    exists k, k' :: k in g && k' in g && HasId(g[k]) && g[k].gid == g[k'].gid && shape(g[k]) != shape(g[k'])
  }

  lemma {:induction false} MoreThanOne<T>(s: set<T>)
    ensures |s| > 1 <==> exists a, b :: a in s && b in s && a != b
  {
    if |s| > 1 {
      var a :| a in s;
      assert |s - {a}| > 0;
      var b :| b in s - {a};
    }
    if a, b :| a in s && b in s && a != b {
      assert {a, b} <= s;
      assert |s - {a}| == |s| - 1 && b in s - {a};
    }
  }

  function Look<T>(shapes: map<string, set<T>>, id: string): set<T> {
    if id in shapes then shapes[id] else {}
  }

  ghost predicate Under(g: Graph, id: string, k: Key) {
    k in g && HasId(g[k]) && g[k].gid.value == id
  }

  lemma {:induction false} ShapesAre<T>(keys: seq<Key>, g: Graph, shape: Record -> T, id: string, t: T)
    requires Lists(keys, g)
    ensures t in ShapesOf(keys, g, shape, id) <==> exists k :: Under(g, id, k) && shape(g[k]) == t
  {
    ShapesOfHas(keys, g, shape, id, t);
    if k :| Under(g, id, k) && shape(g[k]) == t {
      var i := PositionOf(keys, g, k);
    }
    if i :| 0 <= i < |keys| && HasId(g[keys[i]]) && g[keys[i]].gid.value == id && shape(g[keys[i]]) == t {
      assert Under(g, id, keys[i]);
    }
  }

  lemma {:induction false} ConflictFound<T(!new)>(keys: seq<Key>, g: Graph, shape: Record -> T, id: string)
    requires Lists(keys, g)
    ensures |ShapesOf(keys, g, shape, id)| > 1
       <==> exists k, k' :: Under(g, id, k) && Under(g, id, k') && shape(g[k]) != shape(g[k'])
  {
    var shapes := ShapesOf(keys, g, shape, id);
    MoreThanOne(shapes);
    forall t
      ensures t in shapes <==> exists k :: Under(g, id, k) && shape(g[k]) == t
    {
      ShapesAre(keys, g, shape, id, t);
    }
    if k, k' :| Under(g, id, k) && Under(g, id, k') && shape(g[k]) != shape(g[k']) {
      assert shape(g[k]) in shapes && shape(g[k']) in shapes;
    }
  }

  lemma {:induction false} ConflictIs<T(!new)>(keys: seq<Key>, g: Graph, shape: Record -> T,
                                        shapes: map<string, set<T>>)
    requires Lists(keys, g) && forall id :: Look(shapes, id) == ShapesOf(keys, g, shape, id)
    ensures (exists id :: id in shapes && |shapes[id]| > 1) <==> Conflict(g, shape)
  {
    if id :| id in shapes && |shapes[id]| > 1 {
      assert Look(shapes, id) == ShapesOf(keys, g, shape, id);
      ConflictFound(keys, g, shape, id);
      var k, k' :| Under(g, id, k) && Under(g, id, k') && shape(g[k]) != shape(g[k']);
    }
    if k, k' :| k in g && k' in g && HasId(g[k]) && g[k].gid == g[k'].gid && shape(g[k]) != shape(g[k']) {
      assert Under(g, g[k].gid.value, k) && Under(g, g[k].gid.value, k');
      ConflictFound(keys, g, shape, g[k].gid.value);
      assert Look(shapes, g[k].gid.value) == ShapesOf(keys, g, shape, g[k].gid.value);
    }
  }

  method FindConflict<T(==, !new)>(keys: seq<Key>, g: Graph, shape: Record -> T) returns (conflict: bool)
    requires Lists(keys, g)
    ensures conflict <==> Conflict(g, shape)
  {
    var shapes: map<string, set<T>> := map[];
    for i := 0 to |keys|
      invariant forall id :: Look(shapes, id) == ShapesOf(keys[..i], g, shape, id)
    {
      assert keys[..i + 1][..i] == keys[..i];
      var r := g[keys[i]];
      if HasId(r) {
        shapes := shapes[r.gid.value := Look(shapes, r.gid.value) + {shape(r)}];
      }
    }
    assert keys[..|keys|] == keys;
    conflict := exists id :: id in shapes && |shapes[id]| > 1;
    ConflictIs(keys, g, shape, shapes);
  }

  lemma CollisionIs(g: Graph)
    ensures Conflict(g, FormOf) <==> !OneFormPerId(g)
  {
  }

  lemma LossIs(g: Graph)
    ensures Conflict(g, SubstanceOf) <==> !Lossless(g)
  {
  }

  /** I1 to I5, from one scan of the records and the cycle search. */
  method CheckEdges(g: Graph) returns (c1: bool, c2: bool, c3: bool, c4: bool, c5: bool)
    ensures (c1 <==> !I1(g)) && (c2 <==> !I2(g)) && (c3 <==> !I3(g)) && (c4 <==> !I4(g)) && (c5 <==> !I5(g))
  {
    var keys := Listing(g);
    var flags, adj := ScanRecords(keys, g);
    RecordChecks(keys, g);
    ProvenanceCheck(keys, g);
    DanglingCheck(keys, g);
    var cycle := CycleFinder.FindCycle(keys, adj);
    c1, c2, c3, c4, c5 := flags.c1, cycle.Some?, flags.c3, flags.c4, flags.c5;
  }

  /** The records under each identifier agree on the canonical form; they agree on substance. */
  method CheckSharedIds(g: Graph) returns (collision: bool, lossy: bool)
    ensures (collision <==> !OneFormPerId(g)) && (lossy <==> !Lossless(g))
  {
    var keys := Listing(g);
    collision := FindConflict(keys, g, FormOf);
    CollisionIs(g);
    lossy := FindConflict(keys, g, SubstanceOf);
    LossIs(g);
  }

  /** I6 to I8, from the canonical forms, the identifiers and the reverse index. */
  method CheckIdentifiers(g: Graph, index: Index) returns (c6: bool, c7: bool, c8: bool)
    ensures (c6 <==> !I6(g)) && (c7 <==> !I7(g, index)) && (c8 <==> !I8(g, index))
  {
    var collision, lossy := CheckSharedIds(g);
    var unformed := exists k :: k in g && !Truthy(Get(g[k], "CanonicalLatin"));
    var unidentified := exists k :: k in g && !HasId(g[k]);
    var badTarget := exists id :: id in index && index[id] !in g;
    var missing := exists k :: k in g && HasId(g[k]) && g[k].gid.value !in index;
    c6, c7, c8 := unformed || unidentified, collision || badTarget, lossy || missing;
  }

  /** The gate: a check is reported exactly when its invariant fails, and `clean` is a run with no failure. */
  method Validate(g: Graph, index: Index)
    returns (c1: bool, c2: bool, c3: bool, c4: bool, c5: bool, c6: bool, c7: bool, c8: bool, clean: bool)
    ensures c1 <==> !I1(g)
    ensures c2 <==> !I2(g)
    ensures c3 <==> !I3(g)
    ensures c4 <==> !I4(g)
    ensures c5 <==> !I5(g)
    ensures c6 <==> !I6(g)
    ensures c7 <==> !I7(g, index)
    ensures c8 <==> !I8(g, index)
    ensures clean ==> AllInvariants(g, index)
    ensures AllInvariants(g, index) ==> clean
  {
    c1, c2, c3, c4, c5 := CheckEdges(g);
    c6, c7, c8 := CheckIdentifiers(g, index);
    clean := !c1 && !c2 && !c3 && !c4 && !c5 && !c6 && !c7 && !c8;
  }
}

/** What each of the eight checks rejects, edge by edge and record by record. */
module Faults {
  import opened Names
  import opened Options
  import opened Edges
  import opened Filters
  import opened Records
  import opened Invariants
  import EdgeIntegrity
  import CycleFinder

  /** Edge `i` of record `k` names an advisor. */
  predicate NamesAt(g: Graph, k: Key, i: nat) {
    k in g && g[k].advisors.Some? && i < |g[k].advisors.value| && g[k].advisors.value[i].name != NO_KEY
  }

  /** Its advisor has the key `t`. */
  predicate PointsAt(g: Graph, k: Key, i: nat, t: Key) {
    NamesAt(g, k, i) && NormalizeKey(g[k].advisors.value[i].name) == t
  }

  ghost predicate Points(g: Graph, k: Key, t: Key) {
    exists i: nat :: PointsAt(g, k, i, t)
  }

  /** A value that says something. */
  predicate Says(v: Value) {
    match v
    case Null => false
    case Num(n) => n != 0
    case Text(text) => |text| > 0
    case Items(items) => |items| > 0
  }

  /** One identifier on two records. */
  predicate Share(g: Graph, k: Key, k': Key) {
    k in g && k' in g && g[k].gid.Some? && |g[k].gid.value| > 0 && g[k'].gid == g[k].gid
  }

  predicate SaysOtherwise(v: Value, w: Value) {
    (Says(v) || Says(w)) && v != w
  }

  predicate HasPlace(r: Record) {
    match r.institution
    case None => false
    case Some(name) => |name| > 0
  }

  ghost predicate NamesSomeone(g: Graph, k: Key) {
    exists i: nat :: NamesAt(g, k, i)
  }

  lemma {:induction false} SaysIs(v: Value)
    ensures Says(v) <==> Truthy(v)
  {
  }

  lemma {:induction false} PointsIs(g: Graph, k: Key, t: Key)
    ensures Points(g, k, t) <==> k in g && Advises(g[k], t)
  {
    if k in g && Advises(g[k], t) {
      var i :| 0 <= i < |AdvisorsOf(g[k])| && Named(AdvisorsOf(g[k])[i]) && AdvisorKey(AdvisorsOf(g[k])[i]) == t;
      assert PointsAt(g, k, i, t);
    }
    if i: nat :| PointsAt(g, k, i, t) {
      assert Named(AdvisorsOf(g[k])[i]) && AdvisorKey(AdvisorsOf(g[k])[i]) == t;
    }
  }

  /** I1 rejects an edge to its own record. */
  lemma {:induction false} LoopsFound(g: Graph)
    ensures I1(g) <==> forall k, i: nat :: !PointsAt(g, k, i, k)
  {
    forall k
      ensures k in g && Advises(g[k], k) <==> exists i: nat :: PointsAt(g, k, i, k)
    {
      PointsIs(g, k, k);
      if i: nat :| PointsAt(g, k, i, k) {
        assert Points(g, k, k);
      }
    }
  }

  ghost predicate Leads(g: Graph, k: Key, t: Key) {
    t in g && exists i: nat :: PointsAt(g, k, i, t)
  }

  /** The path goes from node to node along edges, and ends where it began. */
  ghost predicate ClosedPath(g: Graph, p: seq<Key>) {
    |p| >= 2 && p[0] == p[|p| - 1] && forall i, j :: 0 <= i && j == i + 1 < |p| ==> Leads(g, p[i], p[j])
  }

  /** I2 rejects a closed path. */
  lemma {:induction false} PathsFound(g: Graph)
    ensures I2(g) <==> forall p :: !ClosedPath(g, p)
  {
    forall k, t
      ensures CycleFinder.Arc(Adjacency(g), k, t) <==> Leads(g, k, t)
    {
      ArcIs(g, k, t);
      PointsIs(g, k, t);
    }
    forall p
      ensures CycleFinder.ClosedWalk(Adjacency(g), p) <==> ClosedPath(g, p)
    {
    }
  }

  ghost predicate Apart(edges: seq<Edge>) {
    forall i, j :: 0 <= i < j < |edges| && Named(edges[i]) && Named(edges[j])
                   ==> AdvisorKey(edges[i]) != AdvisorKey(edges[j])
  }

  predicate NamesKey(edges: seq<Edge>, k: Key) {
    exists i :: 0 <= i < |edges| && Named(edges[i]) && AdvisorKey(edges[i]) == k
  }

  lemma {:induction false} ApartSnoc(init: seq<Edge>, last: Edge)
    ensures Apart(init + [last]) <==> Apart(init) && (Named(last) ==> !NamesKey(init, AdvisorKey(last)))
  {
    var edges := init + [last];
    assert forall i :: 0 <= i < |init| ==> edges[i] == init[i];
    assert edges[|init|] == last;
  }

  lemma {:induction false} KeptNames(edges: seq<Edge>, k: Key)
    ensures NamesKey(NamedEdges(edges), k) <==> NamesKey(edges, k)
  {
    KeepFacts(edges, Named);
    var kept := NamedEdges(edges);
    if m :| 0 <= m < |kept| && AdvisorKey(kept[m]) == k {
      assert kept[m] in edges;
    }
    if i :| 0 <= i < |edges| && Named(edges[i]) && AdvisorKey(edges[i]) == k {
      assert edges[i] in kept;
    }
  }

  lemma {:induction false} KeptDistinct(edges: seq<Edge>)
    ensures Apart(NamedEdges(edges)) <==> Apart(edges)
  {
    if edges != [] {
      var init, last := edges[..|edges| - 1], edges[|edges| - 1];
      KeptDistinct(init);
      assert edges == init + [last];
      KeepSnoc(init, last, Named);
      ApartSnoc(init, last);
      if Named(last) {
        assert NamedEdges(edges) == NamedEdges(init) + [last];
        ApartSnoc(NamedEdges(init), last);
        KeptNames(init, AdvisorKey(last));
      } else {
        assert NamedEdges(edges) == NamedEdges(init);
      }
    }
  }

  /** Two edges of the record name one advisor. */
  predicate ListsTwice(g: Graph, k: Key, i: nat, j: nat) {
    i < j && NamesAt(g, k, i) && NamesAt(g, k, j)
    && NormalizeKey(g[k].advisors.value[i].name) == NormalizeKey(g[k].advisors.value[j].name)
  }

  lemma {:induction false} TwiceIs(g: Graph, k: Key)
    requires k in g
    ensures EdgeIntegrity.DistinctKeys(AdvisorKey, NamedEdges(AdvisorsOf(g[k]))) <==> Apart(AdvisorsOf(g[k]))
  {
    KeepFacts(AdvisorsOf(g[k]), Named);
    KeptDistinct(AdvisorsOf(g[k]));
  }

  lemma {:induction false} ApartIs(g: Graph, k: Key)
    requires k in g
    ensures Apart(AdvisorsOf(g[k])) <==> forall i: nat, j: nat :: !ListsTwice(g, k, i, j)
  {
    var edges := AdvisorsOf(g[k]);
    forall i: nat, j: nat
      ensures ListsTwice(g, k, i, j)
         <==> i < j < |edges| && Named(edges[i]) && Named(edges[j]) && AdvisorKey(edges[i]) == AdvisorKey(edges[j])
    {
    }
    if !Apart(edges) {
      var i, j :| 0 <= i < j < |edges| && Named(edges[i]) && Named(edges[j])
                  && AdvisorKey(edges[i]) == AdvisorKey(edges[j]);
      assert ListsTwice(g, k, i, j);
    }
  }

  /** I3 rejects two edges to one advisor. */
  lemma {:induction false} RepeatsFound(g: Graph)
    ensures I3(g) <==> forall k, i: nat, j: nat :: !ListsTwice(g, k, i, j)
  {
    forall k | k in g
      ensures EdgeIntegrity.DistinctKeys(AdvisorKey, NamedEdges(AdvisorsOf(g[k])))
         <==> forall i: nat, j: nat :: !ListsTwice(g, k, i, j)
    {
      TwiceIs(g, k);
      ApartIs(g, k);
    }
  }

  /** The edge lacks its source or its confidence. */
  predicate Unsourced(g: Graph, k: Key, i: nat) {
    NamesAt(g, k, i) && (g[k].advisors.value[i].source == None || g[k].advisors.value[i].confidence == None)
  }

  /** I4 rejects a named edge without source or confidence. */
  lemma {:induction false} UnsourcedFound(g: Graph)
    ensures I4(g) <==> forall k, i: nat :: !Unsourced(g, k, i)
  {
    forall k, i: nat
      ensures Unsourced(g, k, i)
         <==> k in g && i < |AdvisorsOf(g[k])| && Named(AdvisorsOf(g[k])[i]) && !HasProvenance(AdvisorsOf(g[k])[i])
    {
    }
  }

  /** I5 rejects an edge to a key that is no node. */
  lemma {:induction false} DanglingFound(g: Graph)
    ensures I5(g) <==> forall k, t, i: nat :: PointsAt(g, k, i, t) && t != NO_KEY ==> t in g
  {
    forall k, t
      ensures k in g && Advises(g[k], t) <==> exists i: nat :: PointsAt(g, k, i, t)
    {
      PointsIs(g, k, t);
    }
  }

  /** I6 rejects a record without a form, and one without an identifier. */
  lemma {:induction false} BlanksFound(g: Graph)
    ensures I6(g) <==> forall k :: k in g ==>
              && "CanonicalLatin" in g[k].fields && Says(g[k].fields["CanonicalLatin"])
              && g[k].gid.Some? && |g[k].gid.value| > 0
  {
    forall k | k in g
      ensures Truthy(Get(g[k], "CanonicalLatin"))
         <==> "CanonicalLatin" in g[k].fields && Says(g[k].fields["CanonicalLatin"])
    {
      SaysIs(Get(g[k], "CanonicalLatin"));
    }
  }

  predicate FormsDiffer(g: Graph, k: Key, k': Key) {
    Share(g, k, k') && SaysOtherwise(Get(g[k], "CanonicalLatin"), Get(g[k'], "CanonicalLatin"))
  }

  lemma {:induction false} FormsDifferIs(g: Graph, k: Key, k': Key)
    ensures FormsDiffer(g, k, k')
       <==> k in g && k' in g && HasId(g[k]) && g[k].gid == g[k'].gid && FormOf(g[k]) != FormOf(g[k'])
  {
    if k in g && k' in g {
      SaysIs(Get(g[k], "CanonicalLatin"));
      SaysIs(Get(g[k'], "CanonicalLatin"));
    }
  }

  /** I7 rejects two forms under one identifier, and an entry of the index that is no node. */
  lemma {:induction false} FormsFound(g: Graph, index: Index)
    ensures I7(g, index) <==> (forall k, k' :: !FormsDiffer(g, k, k')) && forall id :: id in index ==> index[id] in g
  {
    forall k, k'
      ensures FormsDiffer(g, k, k')
         <==> k in g && k' in g && HasId(g[k]) && g[k].gid == g[k'].gid && FormOf(g[k]) != FormOf(g[k'])
    {
      FormsDifferIs(g, k, k');
    }
  }

  lemma {:induction false} SomeoneIs(g: Graph, k: Key)
    requires k in g
    ensures NamesSomeone(g, k) <==> NamedEdges(AdvisorsOf(g[k])) != []
  {
    var edges := AdvisorsOf(g[k]);
    KeepFacts(edges, Named);
    if NamedEdges(edges) != [] {
      assert NamedEdges(edges)[0] in edges;
      var i :| 0 <= i < |edges| && edges[i] == NamedEdges(edges)[0];
      assert NamesAt(g, k, i);
    }
    if i: nat :| NamesAt(g, k, i) {
      assert edges[i] in NamedEdges(edges);
    }
  }

  /** The records state different QIDs or institutions, or only one of them lists anybody. */
  ghost predicate ShapesDiffer(g: Graph, k: Key, k': Key) {
    && Share(g, k, k')
    && (|| SaysOtherwise(Get(g[k], "QID"), Get(g[k'], "QID"))
        || ((HasPlace(g[k]) || HasPlace(g[k'])) && g[k].institution != g[k'].institution)
        || NamesSomeone(g, k) != NamesSomeone(g, k'))
  }

  lemma {:induction false} ShapesDifferIs(g: Graph, k: Key, k': Key)
    ensures ShapesDiffer(g, k, k')
       <==> k in g && k' in g && HasId(g[k]) && g[k].gid == g[k'].gid && SubstanceOf(g[k]) != SubstanceOf(g[k'])
  {
    if k in g && k' in g {
      SaysIs(Get(g[k], "QID"));
      SaysIs(Get(g[k'], "QID"));
      SomeoneIs(g, k);
      SomeoneIs(g, k');
    }
  }

  /** I8 rejects two records of different substance under one identifier, and an identifier that the index lacks. */
  lemma {:induction false} ShapesFound(g: Graph, index: Index)
    ensures I8(g, index)
       <==> (forall k, k' :: !ShapesDiffer(g, k, k'))
            && forall k :: k in g && g[k].gid.Some? && |g[k].gid.value| > 0 ==> g[k].gid.value in index
  {
    forall k, k'
      ensures ShapesDiffer(g, k, k')
         <==> k in g && k' in g && HasId(g[k]) && g[k].gid == g[k'].gid && SubstanceOf(g[k]) != SubstanceOf(g[k'])
    {
      ShapesDifferIs(g, k, k');
    }
  }
}

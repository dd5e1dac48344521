/** Removal of impossible advisor edges (`apply_edge_integrity`): self-loops, mutual advisorship, and one
    advisor listed twice in a record. */
module EdgeIntegrity {
  import opened Names
  import opened Options
  import opened Edges
  import opened Records
  import opened Filters

  /** Both records list each other. */
  predicate Mutual(g: Graph, k: Key, t: Key) {
    k in g && t in g && Advises(g[k], t) && Advises(g[t], k)
  }

  datatype Stats = Stats(selfloops: int, mutualEdges: int, dups: int) {
    function Total(): int {
      selfloops + mutualEdges + dups
    }

    function Plus(other: Stats): Stats {
      Stats(selfloops + other.selfloops, mutualEdges + other.mutualEdges, dups + other.dups)
    }
  }

  const ZERO: Stats := Stats(0, 0, 0)

  /** What the pass makes of an advisor key in a given record. */
  datatype Verdict = SelfLoop | MutualPair | Possible

  type KeyOf = Edge -> Key
  type Judge = Key -> Verdict

  /** Position of the kept edge with key `ak`, or the number of kept edges. */
  function PositionOf(key: KeyOf, kept: seq<Edge>, ak: Key): (i: nat)
    ensures i <= |kept|
    ensures i < |kept| ==> key(kept[i]) == ak
    ensures forall j :: 0 <= j < i ==> key(kept[j]) != ak
  {
    if kept == [] || key(kept[0]) == ak then 0 else 1 + PositionOf(key, kept[1..], ak)
  }

  predicate Has(key: KeyOf, kept: seq<Edge>, ak: Key) {
    PositionOf(key, kept, ak) < |kept|
  }

  /** A duplicate's QID is remembered on the kept edge, unless one is already. */
  function NoteDuplicate(kept: Edge, dup: Edge): Edge {
    if dup.qid.Some? && kept.qid != dup.qid && kept.qidDup.None? then kept.(qidDup := dup.qid) else kept
  }

  /** The kept edges after one more edge. */
  function KeepStep(key: KeyOf, judge: Judge, kept: seq<Edge>, a: Edge): seq<Edge> {
    if judge(key(a)) != Possible then kept
    else
      var i := PositionOf(key, kept, key(a));
      if i < |kept| then kept[i := NoteDuplicate(kept[i], a)] else kept + [a]
  }

  /** The counters after one more edge. */
  function CountStep(key: KeyOf, judge: Judge, kept: seq<Edge>, stats: Stats, a: Edge): Stats {
    match judge(key(a))
    case SelfLoop => stats.(selfloops := stats.selfloops + 1)
    case MutualPair => stats.(mutualEdges := stats.mutualEdges + 1)
    case Possible => if Has(key, kept, key(a)) then stats.(dups := stats.dups + 1) else stats
  }

  /** The edges kept of a list. */
  function Kept(key: KeyOf, judge: Judge, edges: seq<Edge>): seq<Edge> {
    if edges == [] then []
    else KeepStep(key, judge, Kept(key, judge, edges[..|edges| - 1]), edges[|edges| - 1])
  }

  function Counted(key: KeyOf, judge: Judge, edges: seq<Edge>): Stats {
    if edges == [] then ZERO
    else
      var init := edges[..|edges| - 1];
      CountStep(key, judge, Kept(key, judge, init), Counted(key, judge, init), edges[|edges| - 1])
  }

  // ---- Which edges of a list survive ----

  /** `kept[i]` is the first of `edges` with its key, at `origin[i]`, unchanged but for a noted QID. */
  ghost predicate FirstOfItsKey(key: KeyOf, edges: seq<Edge>, kept: seq<Edge>, origin: seq<nat>, i: nat)
    requires i < |kept| == |origin|
  {
    && origin[i] < |edges|
    && kept[i] == edges[origin[i]].(qidDup := kept[i].qidDup) && key(kept[i]) == key(edges[origin[i]])
    && forall j :: 0 <= j < origin[i] ==> key(edges[j]) != key(edges[origin[i]])
  }

  ghost predicate DistinctKeys(key: KeyOf, edges: seq<Edge>) {
    forall i, j :: 0 <= i < j < |edges| ==> key(edges[i]) != key(edges[j])
  }

  /** Of the first `n` edges exactly one per possible key survives, the first, in list order. */
  ghost predicate Survivors(key: KeyOf, judge: Judge, edges: seq<Edge>, n: nat, kept: seq<Edge>, origin: seq<nat>) {
    && n <= |edges| && |kept| == |origin|
    && (forall i :: 0 <= i < |kept| ==>
          origin[i] < n && FirstOfItsKey(key, edges, kept, origin, i) && judge(key(kept[i])) == Possible)
    && (forall i, j :: 0 <= i < j < |origin| ==> origin[i] < origin[j])
    && DistinctKeys(key, kept)
    && forall m :: 0 <= m < n && judge(key(edges[m])) == Possible ==> Has(key, kept, key(edges[m]))
  }

  /** The key of an edge does not depend on a noted QID. */
  ghost predicate IgnoresNotes(key: KeyOf) {
    forall e: Edge, q :: key(e.(qidDup := q)) == key(e)
  }

  lemma {:induction false} PositionFound(key: KeyOf, kept: seq<Edge>, i: nat, ak: Key)
    requires i < |kept| && key(kept[i]) == ak
    ensures PositionOf(key, kept, ak) <= i
  {
    if i > 0 && key(kept[0]) != ak {
      PositionFound(key, kept[1..], i - 1, ak);
    }
  }

  lemma {:induction false} DropKeeps(key: KeyOf, judge: Judge, edges: seq<Edge>, n: nat, kept: seq<Edge>,
                                     origin: seq<nat>)
    requires Survivors(key, judge, edges, n, kept, origin) && n < |edges|
    requires judge(key(edges[n])) != Possible || Has(key, kept, key(edges[n]))
    ensures Survivors(key, judge, edges, n + 1, kept, origin)
  {
  }

  lemma {:induction false} NoteKeeps(key: KeyOf, judge: Judge, edges: seq<Edge>, n: nat, kept: seq<Edge>,
                                     origin: seq<nat>, at: nat, dup: Edge)
    requires IgnoresNotes(key) && Survivors(key, judge, edges, n, kept, origin) && at < |kept|
    ensures Survivors(key, judge, edges, n, kept[at := NoteDuplicate(kept[at], dup)], origin)
  {
    var noted := kept[at := NoteDuplicate(kept[at], dup)];
    assert key(kept[at].(qidDup := dup.qid)) == key(kept[at]);
    forall i | 0 <= i < |noted|
      ensures key(noted[i]) == key(kept[i]) && FirstOfItsKey(key, edges, noted, origin, i)
    {
      assert FirstOfItsKey(key, edges, kept, origin, i);
    }
    forall m | 0 <= m < n && judge(key(edges[m])) == Possible
      ensures Has(key, noted, key(edges[m]))
    {
      assert Has(key, kept, key(edges[m]));
      PositionFound(key, noted, PositionOf(key, kept, key(edges[m])), key(edges[m]));
    }
  }

  lemma {:induction false} HasSnoc(key: KeyOf, kept: seq<Edge>, e: Edge, ak: Key)
    requires Has(key, kept, ak) || key(e) == ak
    ensures Has(key, kept + [e], ak)
  {
    var more := kept + [e];
    if Has(key, kept, ak) {
      PositionFound(key, more, PositionOf(key, kept, ak), ak);
    } else {
      PositionFound(key, more, |kept|, ak);
    }
  }

  /** No edge before has the key of a new one. */
  lemma {:induction false} NewKey(key: KeyOf, judge: Judge, edges: seq<Edge>, n: nat, kept: seq<Edge>)
    requires n < |edges| && judge(key(edges[n])) == Possible && !Has(key, kept, key(edges[n]))
    requires forall m :: 0 <= m < n && judge(key(edges[m])) == Possible ==> Has(key, kept, key(edges[m]))
    ensures forall j :: 0 <= j < n ==> key(edges[j]) != key(edges[n])
    ensures forall i :: 0 <= i < |kept| ==> key(kept[i]) != key(edges[n])
  {
    forall j | 0 <= j < n
      ensures key(edges[j]) != key(edges[n])
    {
      assert judge(key(edges[j])) == Possible ==> Has(key, kept, key(edges[j]));
    }
  }

  lemma {:induction false} KeepNew(key: KeyOf, judge: Judge, edges: seq<Edge>, n: nat, kept: seq<Edge>,
                                   origin: seq<nat>)
    requires Survivors(key, judge, edges, n, kept, origin) && n < |edges|
    requires judge(key(edges[n])) == Possible && !Has(key, kept, key(edges[n]))
    ensures Survivors(key, judge, edges, n + 1, kept + [edges[n]], origin + [n])
  {
    var kept', origin' := kept + [edges[n]], origin + [n];
    NewKey(key, judge, edges, n, kept);
    forall i | 0 <= i < |kept'|
      ensures origin'[i] < n + 1 && FirstOfItsKey(key, edges, kept', origin', i) && judge(key(kept'[i])) == Possible
    {
      if i < |kept| {
        assert FirstOfItsKey(key, edges, kept, origin, i);
      }
    }
    forall m | 0 <= m < n + 1 && judge(key(edges[m])) == Possible
      ensures Has(key, kept', key(edges[m]))
    {
      assert m < n ==> Has(key, kept, key(edges[m]));
      HasSnoc(key, kept, edges[n], key(edges[m]));
    }
  }

  lemma {:induction false} KeptPrefix(key: KeyOf, judge: Judge, edges: seq<Edge>, n: nat) returns (origin: seq<nat>)
    requires IgnoresNotes(key) && n <= |edges|
    ensures Survivors(key, judge, edges, n, Kept(key, judge, edges[..n]), origin)
    ensures n == |Kept(key, judge, edges[..n])| + Counted(key, judge, edges[..n]).Total()
  {
    if n == 0 {
      origin := [];
    } else {
      var m := n - 1;
      assert edges[..n][..m] == edges[..m];
      var kept, a := Kept(key, judge, edges[..m]), edges[m];
      assert Kept(key, judge, edges[..n]) == KeepStep(key, judge, kept, a);
      assert Counted(key, judge, edges[..n]) == CountStep(key, judge, kept, Counted(key, judge, edges[..m]), a);
      origin := KeptPrefix(key, judge, edges, m);
      if judge(key(a)) != Possible {
        DropKeeps(key, judge, edges, m, kept, origin);
      } else if Has(key, kept, key(a)) {
        DropKeeps(key, judge, edges, m, kept, origin);
        NoteKeeps(key, judge, edges, n, kept, origin, PositionOf(key, kept, key(a)), a);
      } else {
        KeepNew(key, judge, edges, m, kept, origin);
        origin := origin + [m];
      }
    }
  }

  /** Exactly one edge per possible key survives, the first, in the order of the list, and every other
      edge is counted. */
  lemma {:induction false} KeptSurvivors(key: KeyOf, judge: Judge, edges: seq<Edge>) returns (origin: seq<nat>)
    requires IgnoresNotes(key)
    ensures Survivors(key, judge, edges, |edges|, Kept(key, judge, edges), origin)
    ensures |edges| == |Kept(key, judge, edges)| + Counted(key, judge, edges).Total()
  {
    origin := KeptPrefix(key, judge, edges, |edges|);
    assert edges[..|edges|] == edges;
  }

  type Fact = Edge -> bool

  /** The fact does not depend on a noted QID. */
  ghost predicate FactIgnoresNotes(fact: Fact) {
    forall e: Edge, q :: fact(e.(qidDup := q)) <==> fact(e)
  }

  /** The edge is possible and the first with its key. */
  ghost predicate Passes(key: KeyOf, judge: Judge, edges: seq<Edge>, m: nat) {
    m < |edges| && judge(key(edges[m])) == Possible && forall j :: 0 <= j < m ==> key(edges[j]) != key(edges[m])
  }

  lemma {:induction false} KeptIsFirst(key: KeyOf, judge: Judge, edges: seq<Edge>, fact: Fact, i: nat) returns (m: nat)
    requires IgnoresNotes(key) && FactIgnoresNotes(fact)
    requires i < |Kept(key, judge, edges)| && fact(Kept(key, judge, edges)[i])
    ensures Passes(key, judge, edges, m) && fact(edges[m])
  {
    var origin := KeptSurvivors(key, judge, edges);
    var kept := Kept(key, judge, edges);
    assert FirstOfItsKey(key, edges, kept, origin, i);
    m := origin[i];
    assert fact(edges[m].(qidDup := kept[i].qidDup)) <==> fact(edges[m]);
  }

  lemma {:induction false} FirstIsKept(key: KeyOf, judge: Judge, edges: seq<Edge>, fact: Fact, m: nat) returns (i: nat)
    requires IgnoresNotes(key) && FactIgnoresNotes(fact) && Passes(key, judge, edges, m) && fact(edges[m])
    ensures i < |Kept(key, judge, edges)| && fact(Kept(key, judge, edges)[i])
  {
    var origin := KeptSurvivors(key, judge, edges);
    var kept := Kept(key, judge, edges);
    assert Has(key, kept, key(edges[m]));
    i := PositionOf(key, kept, key(edges[m]));
    assert FirstOfItsKey(key, edges, kept, origin, i);
    assert origin[i] == m;
    assert fact(edges[m].(qidDup := kept[i].qidDup)) <==> fact(edges[m]);
  }

  /** Whatever its tier, an edge passes exactly if it is possible and no earlier edge has its key. */
  lemma {:induction false} KeptHasIff(key: KeyOf, judge: Judge, edges: seq<Edge>, fact: Fact)
    requires IgnoresNotes(key) && FactIgnoresNotes(fact)
    ensures (exists i :: 0 <= i < |Kept(key, judge, edges)| && fact(Kept(key, judge, edges)[i]))
       <==> exists m :: 0 <= m < |edges| && Passes(key, judge, edges, m) && fact(edges[m])
  {
    if i :| 0 <= i < |Kept(key, judge, edges)| && fact(Kept(key, judge, edges)[i]) {
      var m := KeptIsFirst(key, judge, edges, fact, i);
    }
    if m :| 0 <= m < |edges| && Passes(key, judge, edges, m) && fact(edges[m]) {
      var i := FirstIsKept(key, judge, edges, fact, m);
    }
  }

  lemma {:induction false} KeptDistinct(key: KeyOf, judge: Judge, edges: seq<Edge>)
    requires IgnoresNotes(key)
    ensures DistinctKeys(key, Kept(key, judge, edges))
    ensures |edges| == |Kept(key, judge, edges)| + Counted(key, judge, edges).Total()
  {
    var origin := KeptSurvivors(key, judge, edges);
  }

  lemma {:induction false} NewStep(key: KeyOf, judge: Judge, kept: seq<Edge>, stats: Stats, a: Edge)
    requires judge(key(a)) == Possible && forall i :: 0 <= i < |kept| ==> key(kept[i]) != key(a)
    ensures KeepStep(key, judge, kept, a) == kept + [a] && CountStep(key, judge, kept, stats, a) == stats
  {
    assert PositionOf(key, kept, key(a)) == |kept|;
  }

  /** Edges that are possible and have different keys pass unchanged. */
  lemma {:induction false} KeptIdentity(key: KeyOf, judge: Judge, edges: seq<Edge>)
    requires forall i :: 0 <= i < |edges| ==> judge(key(edges[i])) == Possible
    requires DistinctKeys(key, edges)
    ensures Kept(key, judge, edges) == edges && Counted(key, judge, edges) == ZERO
  {
    if edges != [] {
      var init, last := edges[..|edges| - 1], edges[|edges| - 1];
      KeptIdentity(key, judge, init);
      NewStep(key, judge, init, ZERO, last);
      assert edges == init + [last];
    }
  }

  // ---- What happens to the QIDs of dropped duplicates ----

  /** The edge is a duplicate under `ak` that carries a QID other than `q`. */
  predicate OtherQid(key: KeyOf, e: Edge, ak: Key, q: Option<string>) {
    key(e) == ak && e.qid.Some? && e.qid != q
  }

  /** The first QID other than `q` among the edges with key `ak`. */
  function FirstOther(key: KeyOf, edges: seq<Edge>, ak: Key, q: Option<string>): (r: Option<string>)
    ensures r.None? <==> forall m :: 0 <= m < |edges| ==> !OtherQid(key, edges[m], ak, q)
    ensures r.Some? ==> exists m :: 0 <= m < |edges| && OtherQid(key, edges[m], ak, q) && edges[m].qid == r
  {
    if edges == [] then None
    else
      var before, last := FirstOther(key, edges[..|edges| - 1], ak, q), edges[|edges| - 1];
      if before.Some? then before else if OtherQid(key, last, ak, q) then last.qid else None
  }

  ghost predicate NotedAt(key: KeyOf, edges: seq<Edge>, n: nat, kept: Edge, origin: nat) {
    && n <= |edges| && origin < |edges|
    && kept.qidDup == OrElse(edges[origin].qidDup, FirstOther(key, edges[..n], key(kept), kept.qid))
  }

  lemma {:induction false} FirstOtherNext(key: KeyOf, edges: seq<Edge>, m: nat, ak: Key, q: Option<string>)
    requires m < |edges|
    ensures FirstOther(key, edges[..m + 1], ak, q)
            == OrElse(FirstOther(key, edges[..m], ak, q), if OtherQid(key, edges[m], ak, q) then edges[m].qid else None)
  {
    assert edges[..m + 1][..m] == edges[..m];
  }

  /** Each kept edge has noted the first other QID under its key, unless it came with a note. */
  ghost predicate Noted(key: KeyOf, edges: seq<Edge>, n: nat, kept: seq<Edge>, origin: seq<nat>) {
    && n <= |edges| && |kept| == |origin|
    && forall i :: 0 <= i < |kept| ==> NotedAt(key, edges, n, kept[i], origin[i])
  }

  lemma {:induction false} NoteNothing(key: KeyOf, judge: Judge, edges: seq<Edge>, m: nat, kept: seq<Edge>,
                                       origin: seq<nat>)
    requires m < |edges| && Survivors(key, judge, edges, m, kept, origin) && Noted(key, edges, m, kept, origin)
    requires judge(key(edges[m])) != Possible
    ensures Survivors(key, judge, edges, m + 1, kept, origin) && Noted(key, edges, m + 1, kept, origin)
  {
    DropKeeps(key, judge, edges, m, kept, origin);
    forall i | 0 <= i < |kept|
      ensures NotedAt(key, edges, m + 1, kept[i], origin[i])
    {
      FirstOtherNext(key, edges, m, key(kept[i]), kept[i].qid);
      assert judge(key(kept[i])) == Possible;
    }
  }

  /** The edge with the duplicate's key notes its QID; the notes of the others stand. */
  lemma {:induction false} NoteOneAt(key: KeyOf, edges: seq<Edge>, m: nat, kept: Edge, origin: nat, same: bool)
    requires m < |edges| && NotedAt(key, edges, m, kept, origin) && IgnoresNotes(key)
    requires same <==> key(kept) == key(edges[m])
    ensures NotedAt(key, edges, m + 1, if same then NoteDuplicate(kept, edges[m]) else kept, origin)
  {
    FirstOtherNext(key, edges, m, key(kept), kept.qid);
    assert key(kept.(qidDup := edges[m].qid)) == key(kept);
  }

  lemma {:induction false} NoteOne(key: KeyOf, judge: Judge, edges: seq<Edge>, m: nat, kept: seq<Edge>,
                                   origin: seq<nat>)
    requires m < |edges| && Survivors(key, judge, edges, m, kept, origin) && Noted(key, edges, m, kept, origin)
    requires IgnoresNotes(key) && judge(key(edges[m])) == Possible && Has(key, kept, key(edges[m]))
    ensures var at := PositionOf(key, kept, key(edges[m]));
            var noted := kept[at := NoteDuplicate(kept[at], edges[m])];
            Survivors(key, judge, edges, m + 1, noted, origin) && Noted(key, edges, m + 1, noted, origin)
  {
    var a := edges[m];
    var at := PositionOf(key, kept, key(a));
    var noted := kept[at := NoteDuplicate(kept[at], a)];
    DropKeeps(key, judge, edges, m, kept, origin);
    NoteKeeps(key, judge, edges, m + 1, kept, origin, at, a);
    forall i | 0 <= i < |noted|
      ensures NotedAt(key, edges, m + 1, noted[i], origin[i])
    {
      assert i != at ==> key(kept[i]) != key(a);
      NoteOneAt(key, edges, m, kept[i], origin[i], i == at);
    }
  }

  lemma {:induction false} NoteNew(key: KeyOf, judge: Judge, edges: seq<Edge>, m: nat, kept: seq<Edge>,
                                   origin: seq<nat>)
    requires m < |edges| && Survivors(key, judge, edges, m, kept, origin) && Noted(key, edges, m, kept, origin)
    requires judge(key(edges[m])) == Possible && !Has(key, kept, key(edges[m]))
    ensures Noted(key, edges, m + 1, kept + [edges[m]], origin + [m])
  {
    var a, kept', origin' := edges[m], kept + [edges[m]], origin + [m];
    forall i | 0 <= i < |kept|
      ensures NotedAt(key, edges, m + 1, kept[i], origin[i])
    {
      assert NotedAt(key, edges, m, kept[i], origin[i]);
      FirstOtherNext(key, edges, m, key(kept[i]), kept[i].qid);
      assert key(kept[i]) != key(a);
    }
    var prefix := edges[..m + 1];
    forall j | 0 <= j < |prefix|
      ensures !OtherQid(key, prefix[j], key(a), a.qid)
    {
      assert j < m ==> (judge(key(edges[j])) == Possible ==> Has(key, kept, key(edges[j])));
    }
    assert NotedAt(key, edges, m + 1, a, m);
  }

  lemma {:induction false} KeptNoted(key: KeyOf, judge: Judge, edges: seq<Edge>, n: nat) returns (origin: seq<nat>)
    requires IgnoresNotes(key) && n <= |edges|
    ensures Survivors(key, judge, edges, n, Kept(key, judge, edges[..n]), origin)
    ensures Noted(key, edges, n, Kept(key, judge, edges[..n]), origin)
  {
    if n == 0 {
      origin := [];
    } else {
      var m := n - 1;
      assert edges[..n][..m] == edges[..m];
      var kept, a := Kept(key, judge, edges[..m]), edges[m];
      assert Kept(key, judge, edges[..n]) == KeepStep(key, judge, kept, a);
      origin := KeptNoted(key, judge, edges, m);
      if judge(key(a)) != Possible {
        NoteNothing(key, judge, edges, m, kept, origin);
      } else if Has(key, kept, key(a)) {
        NoteOne(key, judge, edges, m, kept, origin);
      } else {
        KeepNew(key, judge, edges, m, kept, origin);
        NoteNew(key, judge, edges, m, kept, origin);
        origin := origin + [m];
      }
    }
  }

  /** Every QID of the edges under `ak` is on the kept edge, as its own or as the noted one. */
  ghost predicate QidsKept(key: KeyOf, edges: seq<Edge>, kept: Edge) {
    forall m :: 0 <= m < |edges| && key(edges[m]) == key(kept) && edges[m].qid.Some?
      ==> edges[m].qid == kept.qid || edges[m].qid == kept.qidDup
  }

  /** The edges under one key carry at most one QID besides `q`. */
  ghost predicate OneOtherQid(key: KeyOf, edges: seq<Edge>, ak: Key, q: Option<string>) {
    forall l, m :: 0 <= l < |edges| && 0 <= m < |edges|
                   && OtherQid(key, edges[l], ak, q) && OtherQid(key, edges[m], ak, q)
      ==> edges[l].qid == edges[m].qid
  }

  /** The pass is documented to preserve the extra QID of a duplicate.  For an edge that came without a
      note it does so exactly when there is at most one extra QID: of two, the second is lost. */
  lemma {:induction false} QidsKeptIff(key: KeyOf, judge: Judge, edges: seq<Edge>, i: nat)
    requires IgnoresNotes(key) && i < |Kept(key, judge, edges)|
    requires forall m :: 0 <= m < |edges| ==> edges[m].qidDup.None?
    ensures var kept := Kept(key, judge, edges)[i];
            QidsKept(key, edges, kept) <==> OneOtherQid(key, edges, key(kept), kept.qid)
  {
    var origin := KeptNoted(key, judge, edges, |edges|);
    assert edges[..|edges|] == edges;
    var kept := Kept(key, judge, edges)[i];
    var other := FirstOther(key, edges, key(kept), kept.qid);
    assert kept.qidDup == other;
    if QidsKept(key, edges, kept) {
      forall m | 0 <= m < |edges| && OtherQid(key, edges[m], key(kept), kept.qid)
        ensures edges[m].qid == other
      {
      }
    }
  }

  function Homonym(qid: string): Edge {
    MakeEdge(Plain(["advisor"]), Some(qid), None, WikidataP184, None, "doctoral", None)
  }

  /** Of three QIDs under one name the third is on no edge that is kept. */
  lemma {:induction false} ThirdQidIsLost(judge: Judge)
    requires judge(Plain(["advisor"])) == Possible
    ensures Kept(AdvisorKey, judge, [Homonym("Q1"), Homonym("Q2"), Homonym("Q3")])
         == [Homonym("Q1").(qidDup := Some("Q2"))]
  {
    var e, e', e'' := Homonym("Q1"), Homonym("Q2"), Homonym("Q3");
    var kept := [e.(qidDup := Some("Q2"))];
    assert "Q1"[1] != "Q2"[1];
    assert [e, e', e''][..2] == [e, e'] && [e, e'][..1] == [e] && [e][..0] == [];
    assert Kept(AdvisorKey, judge, [e]) == KeepStep(AdvisorKey, judge, [], e) == [e];
    assert PositionOf(AdvisorKey, [e], AdvisorKey(e')) == 0;
    assert Kept(AdvisorKey, judge, [e, e']) == KeepStep(AdvisorKey, judge, [e], e') == kept;
    assert PositionOf(AdvisorKey, kept, AdvisorKey(e'')) == 0;
    assert Kept(AdvisorKey, judge, [e, e', e'']) == KeepStep(AdvisorKey, judge, kept, e'');
  }

  // ---- One record ----

  /** Both the self-loop test and the mutual test look at the graph before any removal. */
  function JudgeIn(g: Graph, k: Key): Judge {
    (t: Key) => if t == k then SelfLoop else if Mutual(g, k, t) then MutualPair else Possible
  }

  /** A record without a named edge is left alone. */
  function CleanRecord(g: Graph, k: Key, r: Record): Record {
    var edges := NamedEdges(AdvisorsOf(r));
    if edges == [] then r else r.(advisors := Some(Kept(AdvisorKey, JudgeIn(g, k), edges)))
  }

  function CleanStats(g: Graph, k: Key, r: Record): Stats {
    Counted(AdvisorKey, JudgeIn(g, k), NamedEdges(AdvisorsOf(r)))
  }

  function CleanGraph(g: Graph): Graph {
    map k | k in g :: CleanRecord(g, k, g[k])
  }

  lemma {:induction false} AdvisorKeyIgnoresNotes()
    ensures IgnoresNotes(AdvisorKey)
  {
  }

  lemma {:induction false} KeptNamed(g: Graph, k: Key, edges: seq<Edge>)
    requires forall i :: 0 <= i < |edges| ==> Named(edges[i])
    ensures forall i :: 0 <= i < |Kept(AdvisorKey, JudgeIn(g, k), edges)|
             ==> Named(Kept(AdvisorKey, JudgeIn(g, k), edges)[i])
  {
    AdvisorKeyIgnoresNotes();
    var origin := KeptSurvivors(AdvisorKey, JudgeIn(g, k), edges);
    var kept := Kept(AdvisorKey, JudgeIn(g, k), edges);
    forall i | 0 <= i < |kept|
      ensures Named(kept[i])
    {
      assert FirstOfItsKey(AdvisorKey, edges, kept, origin, i);
    }
  }

  /** A record either has no named edge, or only named ones after the pass. */
  lemma {:induction false} CleanRecordEdges(g: Graph, k: Key, r: Record)
    ensures var edges := NamedEdges(AdvisorsOf(r));
            NamedEdges(AdvisorsOf(CleanRecord(g, k, r))) == Kept(AdvisorKey, JudgeIn(g, k), edges)
    ensures NamedEdges(AdvisorsOf(r)) != []
        ==> NamedEdges(AdvisorsOf(CleanRecord(g, k, r))) == AdvisorsOf(CleanRecord(g, k, r))
  {
    var edges := NamedEdges(AdvisorsOf(r));
    KeepFacts(AdvisorsOf(r), Named);
    KeptNamed(g, k, edges);
    KeepFacts(Kept(AdvisorKey, JudgeIn(g, k), edges), Named);
  }

  ghost predicate KeyAmong(key: KeyOf, edges: seq<Edge>, t: Key) {
    exists i :: 0 <= i < |edges| && key(edges[i]) == t
  }

  lemma {:induction false} AdvisesIs(r: Record, t: Key)
    ensures Advises(r, t) <==> KeyAmong(AdvisorKey, NamedEdges(AdvisorsOf(r)), t)
  {
    KeepHas(AdvisorsOf(r), Named, (e: Edge) => AdvisorKey(e) == t);
  }

  /** Keys before and after: exactly the possible ones stay. */
  lemma {:induction false} SurvivingKeys(key: KeyOf, judge: Judge, edges: seq<Edge>, kept: seq<Edge>, origin: seq<nat>,
                                         t: Key)
    requires Survivors(key, judge, edges, |edges|, kept, origin)
    ensures KeyAmong(key, kept, t) <==> KeyAmong(key, edges, t) && judge(t) == Possible
  {
    if i :| 0 <= i < |kept| && key(kept[i]) == t {
      assert FirstOfItsKey(key, edges, kept, origin, i);
      assert key(edges[origin[i]]) == t;
    }
    if m :| 0 <= m < |edges| && key(edges[m]) == t && judge(t) == Possible {
      assert Has(key, kept, key(edges[m]));
      assert key(kept[PositionOf(key, kept, t)]) == t;
    }
  }

  lemma {:induction false} CleanEdgesCount(judge: Judge, edges: seq<Edge>)
    ensures DistinctKeys(AdvisorKey, Kept(AdvisorKey, judge, edges))
    ensures |edges| == |Kept(AdvisorKey, judge, edges)| + Counted(AdvisorKey, judge, edges).Total()
  {
    AdvisorKeyIgnoresNotes();
    KeptDistinct(AdvisorKey, judge, edges);
  }

  /** The edges of a cleaned record have different keys, and all the others are counted. */
  lemma {:induction false} CleanRecordCounts(g: Graph, k: Key, r: Record)
    ensures DistinctKeys(AdvisorKey, NamedEdges(AdvisorsOf(CleanRecord(g, k, r))))
    ensures |NamedEdges(AdvisorsOf(r))| == |NamedEdges(AdvisorsOf(CleanRecord(g, k, r)))| + CleanStats(g, k, r).Total()
  {
    var judge, edges := JudgeIn(g, k), NamedEdges(AdvisorsOf(r));
    CleanEdgesCount(judge, edges);
    assert NamedEdges(AdvisorsOf(CleanRecord(g, k, r))) == Kept(AdvisorKey, judge, edges) by {
      CleanRecordEdges(g, k, r);
    }
    assert CleanStats(g, k, r) == Counted(AdvisorKey, judge, edges);
  }

  /** A cleaned record still lists exactly the advisors that are possible for it. */
  lemma {:induction false} CleanRecordAdvises(g: Graph, k: Key, r: Record, t: Key)
    ensures Advises(CleanRecord(g, k, r), t) <==> Advises(r, t) && t != k && !Mutual(g, k, t)
  {
    var judge, edges := JudgeIn(g, k), NamedEdges(AdvisorsOf(r));
    AdvisorKeyIgnoresNotes();
    var origin := KeptSurvivors(AdvisorKey, judge, edges);
    SurvivingKeys(AdvisorKey, judge, edges, Kept(AdvisorKey, judge, edges), origin, t);
    CleanRecordEdges(g, k, r);
    AdvisesIs(CleanRecord(g, k, r), t);
    AdvisesIs(r, t);
  }

  /** The body of the inner loop: what becomes of one more named edge. */
  method CleanEdge(k: Key, a: Edge, mutual: set<(Key, Key)>, kept: seq<Edge>, stats: Stats, ghost g: Graph)
    returns (kept': seq<Edge>, stats': Stats)
    requires forall t :: (k, t) in mutual <==> Mutual(g, k, t)
    ensures kept' == KeepStep(AdvisorKey, JudgeIn(g, k), kept, a)
    ensures stats' == CountStep(AdvisorKey, JudgeIn(g, k), kept, stats, a)
  {
    kept', stats' := kept, stats;
    var ak := AdvisorKey(a);
    if ak == k {
      stats' := stats.(selfloops := stats.selfloops + 1);
    } else if (k, ak) in mutual {
      stats' := stats.(mutualEdges := stats.mutualEdges + 1);
    } else {
      var i := PositionOf(AdvisorKey, kept, ak);
      if i < |kept| {
        stats' := stats.(dups := stats.dups + 1);
        kept' := kept[i := NoteDuplicate(kept[i], a)];
      } else {
        kept' := kept + [a];
      }
    }
  }

  /** The inner loop over one record's named edges, against the adjacency computed beforehand. */
  method CleanList(k: Key, edges: seq<Edge>, mutual: set<(Key, Key)>, ghost g: Graph)
    returns (kept: seq<Edge>, stats: Stats)
    requires forall t :: (k, t) in mutual <==> Mutual(g, k, t)
    ensures kept == Kept(AdvisorKey, JudgeIn(g, k), edges)
    ensures stats == Counted(AdvisorKey, JudgeIn(g, k), edges)
  {
    kept, stats := [], ZERO;
    ghost var judge := JudgeIn(g, k);
    for n := 0 to |edges|
      invariant kept == Kept(AdvisorKey, judge, edges[..n]) && stats == Counted(AdvisorKey, judge, edges[..n])
    {
      assert edges[..n + 1][..n] == edges[..n];
      kept, stats := CleanEdge(k, edges[n], mutual, kept, stats, g);
    }
    assert edges[..|edges|] == edges;
  }

  // ---- The whole graph ----

  ghost predicate NoSelfLoops(g: Graph) {
    forall k :: k in g ==> !Advises(g[k], k)
  }

  ghost predicate NoMutual(g: Graph) {
    forall k, t :: k in g && t in g && Advises(g[k], t) ==> !Advises(g[t], k)
  }

  /** No record lists two named edges under one key. */
  ghost predicate NoDuplicates(g: Graph) {
    forall k :: k in g ==> DistinctKeys(AdvisorKey, NamedEdges(AdvisorsOf(g[k])))
  }

  /** After the pass no edge of the three kinds is left anywhere in the graph. */
  lemma {:induction false} CleanGraphFacts(g: Graph)
    ensures NoSelfLoops(CleanGraph(g)) && NoMutual(CleanGraph(g)) && NoDuplicates(CleanGraph(g))
  {
    var g' := CleanGraph(g);
    forall k | k in g
      ensures !Advises(g'[k], k) && DistinctKeys(AdvisorKey, NamedEdges(AdvisorsOf(g'[k])))
    {
      CleanRecordCounts(g, k, g[k]);
      CleanRecordAdvises(g, k, g[k], k);
    }
    forall k, t | k in g' && t in g' && Advises(g'[k], t)
      ensures !Advises(g'[t], k)
    {
      CleanRecordAdvises(g, k, g[k], t);
      CleanRecordAdvises(g, t, g[t], k);
    }
  }

  /** Without self-loops, mutual pairs and duplicates every edge passes. */
  lemma {:induction false} CleanRecordStays(g: Graph, k: Key, edges: seq<Edge>)
    requires k in g && edges == NamedEdges(AdvisorsOf(g[k])) && DistinctKeys(AdvisorKey, edges)
    requires !Advises(g[k], k) && forall t :: t in g && Advises(g[k], t) ==> !Advises(g[t], k)
    ensures Kept(AdvisorKey, JudgeIn(g, k), edges) == edges && Counted(AdvisorKey, JudgeIn(g, k), edges) == ZERO
  {
    forall i | 0 <= i < |edges|
      ensures JudgeIn(g, k)(AdvisorKey(edges[i])) == Possible
    {
      AdvisesIs(g[k], AdvisorKey(edges[i]));
    }
    KeptIdentity(AdvisorKey, JudgeIn(g, k), edges);
  }

  /** A second application changes nothing and counts nothing. */
  lemma {:induction false} CleanGraphIdempotent(g: Graph)
    ensures CleanGraph(CleanGraph(g)) == CleanGraph(g)
    ensures forall k :: k in g ==> CleanStats(CleanGraph(g), k, CleanGraph(g)[k]) == ZERO
  {
    var g' := CleanGraph(g);
    CleanGraphFacts(g);
    forall k | k in g
      ensures CleanRecord(g', k, g'[k]) == g'[k] && CleanStats(g', k, g'[k]) == ZERO
    {
      CleanRecordEdges(g, k, g[k]);
      CleanRecordStays(g', k, NamedEdges(AdvisorsOf(g'[k])));
    }
  }
}

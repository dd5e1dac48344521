/** A graph that passes the whole gate and still loses an edge, and gains a cycle, when it is loaded. */
module LoaderGap {
  import opened Names
  import opened Options
  import opened Edges
  import opened Filters
  import opened Records
  import opened Invariants
  import AliasMerge
  import AliasPasses
  import CycleFinder
  import EdgeIntegrity
  import Loader

  function Word(s: string): Key {
    Plain([s])
  }

  function Advisor(s: string): Edge {
    MakeEdge(Word(s), None, None, Curated, None, "phd", None)
  }

  function Person(id: string, advisors: seq<string>): Record {
    Record(map["CanonicalLatin" := Text(id)],
        Some(seq(|advisors|, i requires 0 <= i < |advisors| => Advisor(advisors[i]))),
           None, [], Some(id))
  }

  /** Two spellings of one person with different advisors, one of whom was advised by the other spelling. */
  function Gap(): Graph {
    map[Word("a") := Person("1", ["ccc"]), Word("bb") := Person("1", ["dddd"]),
        Word("ccc") := Person("22", ["bb"]), Word("dddd") := Person("333", [])]
  }

  function GapKeys(): seq<Key> {
    [Word("a"), Word("bb"), Word("ccc"), Word("dddd")]
  }

  function GapIndex(): Index {
    map["1" := Word("a"), "22" := Word("ccc"), "333" := Word("dddd")]
  }

  lemma WordsDiffer(s: string, t: string)
    requires |s| != |t|
    ensures Word(s) != Word(t)
  {
    assert Word(s).tokens[0] == s && Word(t).tokens[0] == t;
  }

  lemma AllWordsDiffer()
    ensures Word("a") != Word("bb") && Word("a") != Word("ccc") && Word("a") != Word("dddd")
    ensures Word("bb") != Word("ccc") && Word("bb") != Word("dddd") && Word("ccc") != Word("dddd")
    ensures Lists(GapKeys(), Gap())
  {
    WordsDiffer("a", "bb");
    WordsDiffer("a", "ccc");
    WordsDiffer("a", "dddd");
    WordsDiffer("bb", "ccc");
    WordsDiffer("bb", "dddd");
    WordsDiffer("ccc", "dddd");
  }

  lemma {:induction false} AdvisedBy(id: string, s: string, k: Key)
    ensures Advises(Person(id, [s]), k) <==> k == Word(s)
    ensures NamedEdges(AdvisorsOf(Person(id, [s]))) == AdvisorsOf(Person(id, [s])) == [Advisor(s)]
    ensures AdvisorKey(Advisor(s)) == Word(s) && HasProvenance(Advisor(s))
  {
    var edges := AdvisorsOf(Person(id, [s]));
    assert edges == [Advisor(s)];
    assert Named(edges[0]) by {
      assert |Word(s).tokens| == 1;
    }
    KeepFacts(edges, Named);
  }

  lemma {:induction false} Unadvised(id: string)
    ensures AdvisorsOf(Person(id, [])) == [] && NamedEdges(AdvisorsOf(Person(id, []))) == []
    ensures forall k :: !Advises(Person(id, []), k)
  {
  }

  lemma {:induction false} GapEdges(k: Key, t: Key)
    ensures k in Gap() && Advises(Gap()[k], t)
       <==> (k, t) in {(Word("a"), Word("ccc")), (Word("bb"), Word("dddd")), (Word("ccc"), Word("bb"))}
  {
    AllWordsDiffer();
    AdvisedBy("1", "ccc", t);
    AdvisedBy("1", "dddd", t);
    AdvisedBy("22", "bb", t);
    Unadvised("333");
  }

  lemma {:induction false} GapEdgeInvariants()
    ensures I1(Gap()) && I5(Gap())
  {
    AllWordsDiffer();
    forall k, t
      ensures k in Gap() && Advises(Gap()[k], t) ==> k != t && t in Gap()
    {
      GapEdges(k, t);
    }
  }

  /** Advisors that rank below their students exclude cycles. */
  lemma {:induction false} RankedAdvisors(g: Graph, rank: map<Key, nat>)
    requires rank.Keys == g.Keys && forall k, t :: k in g && t in g && Advises(g[k], t) ==> rank[t] < rank[k]
    ensures I2(g)
  {
    var adj := Adjacency(g);
    forall k, t | k in adj && t in adj[k] && t in adj
      ensures t in rank && rank[t] < rank[k]
    {
      ArcIs(g, k, t);
    }
    CycleFinder.RankedIsAcyclic(adj, rank);
  }

  lemma {:induction false} GapAcyclic()
    ensures I2(Gap())
  {
    AllWordsDiffer();
    var g, rank := Gap(), map[Word("a") := 3, Word("ccc") := 2, Word("bb") := 1, Word("dddd") := 0];
    assert rank.Keys == g.Keys;
    forall k, t | k in g && t in g && Advises(g[k], t)
      ensures rank[t] < rank[k]
    {
      GapEdges(k, t);
    }
    RankedAdvisors(g, rank);
  }

  lemma {:induction false} PersonFacts(id: string, advisors: seq<string>)
    requires id != "" && |advisors| <= 1
    ensures var r := Person(id, advisors);
            && (forall i :: 0 <= i < |AdvisorsOf(r)| ==> HasProvenance(AdvisorsOf(r)[i]))
            && EdgeIntegrity.DistinctKeys(AdvisorKey, NamedEdges(AdvisorsOf(r)))
            && HasId(r) && Get(r, "CanonicalLatin") == FormOf(r) == Text(id)
            && SubstanceOf(r) == Substance(Null, None, advisors != [])
  {
    if advisors == [] {
      Unadvised(id);
    } else {
      AdvisedBy(id, advisors[0], NO_KEY);
      assert advisors == [advisors[0]];
    }
  }

  lemma {:induction false} GapAt(k: Key) returns (id: string, advisors: seq<string>)
    requires k in Gap()
    ensures Gap()[k] == Person(id, advisors) && |advisors| <= 1 && id in GapIndex()
    ensures id == "1" ==> advisors != []
    ensures id == "22" ==> k == Word("ccc")
    ensures id == "333" ==> k == Word("dddd")
  {
    AllWordsDiffer();
    assert |"1"| != |"22"| && |"22"| != |"333"| && |"1"| != |"333"|;
    if k == Word("a") {
      id, advisors := "1", ["ccc"];
    } else if k == Word("bb") {
      id, advisors := "1", ["dddd"];
    } else if k == Word("ccc") {
      id, advisors := "22", ["bb"];
    } else {
      id, advisors := "333", [];
    }
  }

  lemma {:induction false} GapLists()
    ensures I3(Gap()) && I4(Gap()) && I6(Gap())
  {
    forall k | k in Gap()
      ensures EdgeIntegrity.DistinctKeys(AdvisorKey, NamedEdges(AdvisorsOf(Gap()[k])))
      ensures forall i :: 0 <= i < |AdvisorsOf(Gap()[k])| ==> HasProvenance(AdvisorsOf(Gap()[k])[i])
      ensures Truthy(Get(Gap()[k], "CanonicalLatin")) && HasId(Gap()[k])
    {
      var id, advisors := GapAt(k);
      PersonFacts(id, advisors);
    }
  }

  lemma {:induction false} GapIdentifiers()
    ensures I7(Gap(), GapIndex()) && I8(Gap(), GapIndex())
  {
    forall k, k' | k in Gap() && k' in Gap()
      ensures HasId(Gap()[k]) && Gap()[k].gid.value in GapIndex()
      ensures Gap()[k].gid == Gap()[k'].gid
          ==> FormOf(Gap()[k]) == FormOf(Gap()[k']) && SubstanceOf(Gap()[k]) == SubstanceOf(Gap()[k'])
    {
      var id, advisors := GapAt(k);
      var id', advisors' := GapAt(k');
      PersonFacts(id, advisors);
      PersonFacts(id', advisors');
    }
  }

  lemma {:induction false} HeadWins(keys: seq<Key>, g: Graph, id: string)
    requires AliasMerge.AllIn(keys, g) && keys != [] && g[keys[0]].gid == Some(id)
    ensures AliasPasses.FirstKey(keys, g, id) == Some(keys[0])
  {
    if |keys| > 1 {
      HeadWins(keys[..|keys| - 1], g, id);
    }
  }

  lemma {:induction false} GapNodes()
    ensures Lists(GapKeys(), Gap())
    ensures Loader.Resolve(GapKeys(), Gap(), Word("a")) == Loader.Resolve(GapKeys(), Gap(), Word("bb")) == Word("a")
    ensures Loader.Resolve(GapKeys(), Gap(), Word("ccc")) == Word("ccc")
  {
    AllWordsDiffer();
    var g, node := Gap(), Loader.Resolve(GapKeys(), Gap(), Word("ccc"));
    HeadWins(GapKeys(), g, "1");
    assert g[Word("ccc")].gid == Some("22") && HasId(g[Word("ccc")]);
    var id, advisors := GapAt(node);
    assert id == "22";
  }

  lemma {:induction false} RowAt(keys: seq<Key>, g: Graph, src: Key, id: string, s: string)
    requires Lists(keys, g) && src in g && g[src] == Person(id, [s])
    ensures var row := Loader.RowOf(Loader.TargetOf(keys, g), Loader.Resolve(keys, g, src), Advisor(s));
            Loader.ImageRow(keys, g, src, row)
            && row.src == Loader.Resolve(keys, g, src) && row.adv == Loader.Resolve(keys, g, Word(s))
                 && row.advName == Word(s)
  {
    AdvisedBy(id, s, NO_KEY);
    assert AdvisorsOf(g[src])[0] == Advisor(s);
    assert |Word(s).tokens| == 1;
    assert Loader.Loadable(Advisor(s));
  }

  lemma {:induction false} OnlyRow(keys: seq<Key>, g: Graph, id: string, s: string, row: Loader.EdgeRow)
    requires Lists(keys, g) && row.src in g && g[row.src] == Person(id, [s]) && Loader.LoadedRow(keys, g, row)
    ensures row.advName == Word(s)
  {
    AdvisedBy(id, s, NO_KEY);
  }

  lemma {:induction false} GapLosesAnEdge()
    ensures Lists(GapKeys(), Gap()) && !Loader.NothingLost(GapKeys(), Gap())
  {
    AllWordsDiffer();
    GapNodes();
    RowAt(GapKeys(), Gap(), Word("bb"), "1", "dddd");
    var row := Loader.RowOf(Loader.TargetOf(GapKeys(), Gap()), Word("a"), Advisor("dddd"));
    assert Loader.ImageRow(GapKeys(), Gap(), Word("bb"), row);
    if Loader.LoadedRow(GapKeys(), Gap(), row) {
      OnlyRow(GapKeys(), Gap(), "1", "ccc", row);
      assert false;
    }
  }

  lemma {:induction false} GapClosesACycle()
    ensures Lists(GapKeys(), Gap()) && Loader.RowWalk(GapKeys(), Gap(), [Word("a"), Word("ccc"), Word("a")])
  {
    AllWordsDiffer();
    GapNodes();
    RowAt(GapKeys(), Gap(), Word("a"), "1", "ccc");
    RowAt(GapKeys(), Gap(), Word("ccc"), "22", "bb");
    assert Loader.RowBetween(GapKeys(), Gap(), Word("a"), Word("ccc"));
    assert Loader.RowBetween(GapKeys(), Gap(), Word("ccc"), Word("a"));
  }

  /** The first spelling is the node of both, so the second spelling's advisor is not loaded, and the student
      who advised the second spelling now advises the student's own advisee. */
  lemma {:induction false} CleanGateLosesAnEdge()
    ensures Lists(GapKeys(), Gap()) && AllInvariants(Gap(), GapIndex())
    ensures !Loader.NothingLost(GapKeys(), Gap())
    ensures Loader.RowWalk(GapKeys(), Gap(), [Word("a"), Word("ccc"), Word("a")])
  {
    AllWordsDiffer();
    GapEdgeInvariants();
    GapAcyclic();
    GapLists();
    GapIdentifiers();
    GapLosesAnEdge();
    GapClosesACycle();
  }
}

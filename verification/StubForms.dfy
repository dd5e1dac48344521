/** What a stub record shows, in terms of the edges that refer to it. */
module StubForms {
  import opened Names
  import opened Options
  import opened Edges
  import opened Records
  import opened Stages
  import opened AliasMerge
  import opened Stubs

  /** The edges of the listed records, one after the other. */
  function EdgesOf(keys: seq<Key>, g: Graph): seq<Edge>
    requires AllIn(keys, g)
  {
    if keys == [] then [] else EdgesOf(keys[..|keys| - 1], g) + AdvisorsOf(g[keys[|keys| - 1]])
  }

  predicate PointsTo(e: Edge, k: Key) {
    e.name != NO_KEY && NormalizeKey(e.name) == k
  }

  /** Edge `i` refers to `k`, by the longest display form of any that does, and is the first with a form so long. */
  ghost predicate ShownBy(edges: seq<Edge>, k: Key, displayOf: DisplayOf, i: nat) {
    && i < |edges| && PointsTo(edges[i], k)
    && forall j :: 0 <= j < |edges| && PointsTo(edges[j], k) ==>
         && |displayOf(edges[j].name)| <= |displayOf(edges[i].name)|
         && (j < i ==> |displayOf(edges[j].name)| < |displayOf(edges[i].name)|)
  }

  lemma {:induction false} OfferConcat(display: Displays, a: seq<Edge>, b: seq<Edge>, displayOf: DisplayOf)
    ensures OfferAll(OfferAll(display, a, displayOf), b, displayOf) == OfferAll(display, a + b, displayOf)
  {
    if b == [] {
      assert a + b == a;
    } else {
      var n := |b| - 1;
      OfferConcat(display, a, b[..n], displayOf);
      assert (a + b)[..|a + b| - 1] == a + b[..n];
    }
  }

  lemma {:induction false} DisplaysAreOffered(keys: seq<Key>, g: Graph, displayOf: DisplayOf)
    requires AllIn(keys, g)
    ensures DisplaysOver(keys, g, displayOf) == OfferAll(map[], EdgesOf(keys, g), displayOf)
  {
    if keys != [] {
      var n := |keys| - 1;
      DisplaysAreOffered(keys[..n], g, displayOf);
      OfferConcat(map[], EdgesOf(keys[..n], g), AdvisorsOf(g[keys[n]]), displayOf);
    }
  }

  lemma {:induction false} ShownSnoc(init: seq<Edge>, last: Edge, k: Key, displayOf: DisplayOf, i: nat)
    requires ShownBy(init, k, displayOf, i)
    ensures PointsTo(last, k) && |displayOf(last.name)| > |displayOf(init[i].name)| ==>
              ShownBy(init + [last], k, displayOf, |init|)
    ensures !(PointsTo(last, k) && |displayOf(last.name)| > |displayOf(init[i].name)|) ==>
              ShownBy(init + [last], k, displayOf, i)
  {
    var all := init + [last];
    assert forall j :: 0 <= j < |init| ==> all[j] == init[j];
    assert all[|init|] == last;
  }

  lemma {:induction false} FirstShown(init: seq<Edge>, last: Edge, k: Key, displayOf: DisplayOf)
    requires PointsTo(last, k) && forall j :: 0 <= j < |init| ==> !PointsTo(init[j], k)
    ensures ShownBy(init + [last], k, displayOf, |init|)
  {
    var all := init + [last];
    assert forall j :: 0 <= j < |init| ==> all[j] == init[j];
  }

  lemma {:induction false} OfferStep(display: Displays, e: Edge, displayOf: DisplayOf, k: Key)
    requires k in Offer(display, e, displayOf)
    ensures k !in display ==> PointsTo(e, k) && Offer(display, e, displayOf)[k] == displayOf(e.name)
    ensures k in display ==>
              Offer(display, e, displayOf)[k]
              == if k != NO_KEY && PointsTo(e, k) && |displayOf(e.name)| > |display[k]| then displayOf(e.name)
                 else display[k]
  {
  }

  lemma {:induction false} NeverOffered(edges: seq<Edge>, displayOf: DisplayOf, k: Key)
    requires k != NO_KEY && k !in OfferAll(map[], edges, displayOf)
    ensures forall j :: 0 <= j < |edges| ==> !PointsTo(edges[j], k)
  {
    OfferAllKeys(map[], edges, displayOf, k);
    RefersIs(edges, k);
    forall j | 0 <= j < |edges|
      ensures !PointsTo(edges[j], k)
    {
      assert !RefersTo(edges[j], k);
    }
  }

  lemma {:induction false} OfferedIsLongest(edges: seq<Edge>, displayOf: DisplayOf, k: Key) returns (i: nat)
    requires k != NO_KEY && k in OfferAll(map[], edges, displayOf)
    ensures ShownBy(edges, k, displayOf, i) && OfferAll(map[], edges, displayOf)[k] == displayOf(edges[i].name)
  {
    var n := |edges| - 1;
    var init, last := edges[..n], edges[n];
    assert edges == init + [last];
    OfferStep(OfferAll(map[], init, displayOf), last, displayOf, k);
    if k in OfferAll(map[], init, displayOf) {
      i := OfferedIsLongest(init, displayOf, k);
      ShownSnoc(init, last, k, displayOf, i);
      if PointsTo(last, k) && |displayOf(last.name)| > |displayOf(init[i].name)| {
        i := n;
      }
    } else {
      i := n;
      NeverOffered(init, displayOf, k);
      FirstShown(init, last, k, displayOf);
    }
  }

  /** Nodes stay as they are.  Every other advisor that a record refers to gets a stub, which has nothing but the
      longest display form, the first of that length in the order of the listing, and a source that says what it is.
      */
  lemma {:induction false} StubIs(keys: seq<Key>, g: Graph, displayOf: DisplayOf, k: Key)
    requires Lists(keys, g)
    ensures var g' := StubGraph(g, DisplaysOver(keys, g, displayOf));
            && (k in g ==> k in g' && g'[k] == g[k])
            && (k in g' <==> k in g || (k != NO_KEY && exists x :: x in g && Advises(g[x], k)))
            && (k in g' && k !in g ==>
                  exists i: nat :: ShownBy(EdgesOf(keys, g), k, displayOf, i)
                              && g'[k] == Record(map["CanonicalLatin" := Text(displayOf(EdgesOf(keys, g)[i].name))],
                                                 None, None, ["referenced advisor (no metadata)"], None))
  {
    DisplaysAreReferenced(keys, g, displayOf);
    DisplaysAreOffered(keys, g, displayOf);
    if x :| k != NO_KEY && x in g && Advises(g[x], k) {
      var i :| 0 <= i < |AdvisorsOf(g[x])| && Named(AdvisorsOf(g[x])[i]) && AdvisorKey(AdvisorsOf(g[x])[i]) == k;
      assert k in ReferencedKeys(g);
    }
    if k in DisplaysOver(keys, g, displayOf) {
      assert k != NO_KEY;
      var i := OfferedIsLongest(EdgesOf(keys, g), displayOf, k);
    }
  }
}

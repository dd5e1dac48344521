/** Stub records for referenced advisors that have none (the third step of `build`). */
module Stubs {
  import opened Names
  import opened Edges
  import opened Records
  import opened Invariants
  import opened Stages
  import opened AliasMerge

  /** A display form.  Only names with a key are displayed, and what gives a key gives a form that is not empty. */
  type Shown = form: string | form != "" witness "?"

  type Displays = map<Key, Shown>
  type DisplayOf = Name -> Shown

  /** Remember the display form of an advisor if it is longer than the one seen so far. */
  function Offer(display: Displays, e: Edge, displayOf: DisplayOf): Displays {
    var k := AdvisorKey(e);
    if !Named(e) || k == NO_KEY || (k in display && |displayOf(e.name)| <= |display[k]|) then display
    else display[k := displayOf(e.name)]
  }

  function OfferAll(display: Displays, edges: seq<Edge>, displayOf: DisplayOf): Displays {
    if edges == [] then display
    else Offer(OfferAll(display, edges[..|edges| - 1], displayOf), edges[|edges| - 1], displayOf)
  }

  function DisplaysOver(keys: seq<Key>, g: Graph, displayOf: DisplayOf): Displays
    requires AllIn(keys, g)
  {
    if keys == [] then map[]
    else OfferAll(DisplaysOver(keys[..|keys| - 1], g, displayOf), AdvisorsOf(g[keys[|keys| - 1]]), displayOf)
  }

  predicate RefersTo(e: Edge, k: Key) {
    k != NO_KEY && Named(e) && AdvisorKey(e) == k
  }

  /** Some edge of the list refers to `k`. */
  predicate Refers(edges: seq<Edge>, k: Key) {
    edges != [] && (Refers(edges[..|edges| - 1], k) || RefersTo(edges[|edges| - 1], k))
  }

  lemma {:induction false} RefersIs(edges: seq<Edge>, k: Key)
    ensures Refers(edges, k) <==> exists i :: 0 <= i < |edges| && RefersTo(edges[i], k)
  {
    if edges != [] {
      var init := edges[..|edges| - 1];
      RefersIs(init, k);
      if i :| 0 <= i < |init| && RefersTo(init[i], k) {
        assert RefersTo(edges[i], k);
      }
    }
  }

  lemma {:induction false} OfferAllKeys(display: Displays, edges: seq<Edge>, displayOf: DisplayOf, k: Key)
    ensures k in OfferAll(display, edges, displayOf) <==> k in display || Refers(edges, k)
    ensures k in display ==> |OfferAll(display, edges, displayOf)[k]| >= |display[k]|
  {
    if edges != [] {
      var n := |edges| - 1;
      OfferAllKeys(display, edges[..n], displayOf, k);
      assert k in Offer(OfferAll(display, edges[..n], displayOf), edges[n], displayOf)
          <==> k in OfferAll(display, edges[..n], displayOf) || RefersTo(edges[n], k);
    }
  }

  /** The record refers to `k`. */
  function RecordRefers(g: Graph, k: Key): Key -> bool {
    (x: Key) => x in g && Refers(AdvisorsOf(g[x]), k)
  }

  /** One of the keys passes. */
  ghost predicate OneOf(keys: seq<Key>, p: Key -> bool) {
    exists x :: x in keys && p(x)
  }

  lemma {:induction false} OneOfSnoc(keys: seq<Key>, p: Key -> bool)
    requires keys != []
    ensures OneOf(keys, p) <==> OneOf(keys[..|keys| - 1], p) || p(keys[|keys| - 1])
  {
    var init, last := keys[..|keys| - 1], keys[|keys| - 1];
    assert keys == init + [last];
    assert forall x :: x in keys <==> x in init || x == last;
  }

  lemma {:induction false} DisplaysOverKeys(keys: seq<Key>, g: Graph, displayOf: DisplayOf, k: Key)
    requires AllIn(keys, g)
    ensures k in DisplaysOver(keys, g, displayOf) <==> OneOf(keys, RecordRefers(g, k))
  {
    if keys != [] {
      var n := |keys| - 1;
      DisplaysOverKeys(keys[..n], g, displayOf, k);
      OfferAllKeys(DisplaysOver(keys[..n], g, displayOf), AdvisorsOf(g[keys[n]]), displayOf, k);
      OneOfSnoc(keys, RecordRefers(g, k));
    }
  }

  lemma {:induction false} ReferencedIs(keys: seq<Key>, g: Graph, k: Key)
    requires Lists(keys, g)
    ensures OneOf(keys, RecordRefers(g, k)) <==> k in ReferencedKeys(g)
  {
    if x :| x in keys && RecordRefers(g, k)(x) {
      RefersIs(AdvisorsOf(g[x]), k);
    }
    if x, i :| x in g && 0 <= i < |AdvisorsOf(g[x])| && RefersTo(AdvisorsOf(g[x])[i], k) {
      RefersIs(AdvisorsOf(g[x]), k);
      assert x in keys && RecordRefers(g, k)(x);
    }
  }

  lemma {:induction false} DisplaysAreReferenced(keys: seq<Key>, g: Graph, displayOf: DisplayOf)
    requires Lists(keys, g)
    ensures DisplaysOver(keys, g, displayOf).Keys == ReferencedKeys(g)
  {
    forall k
      ensures k in DisplaysOver(keys, g, displayOf) <==> k in ReferencedKeys(g)
    {
      DisplaysOverKeys(keys, g, displayOf, k);
      ReferencedIs(keys, g, k);
    }
  }

  method CollectDisplays(keys: seq<Key>, before: Graph, displayOf: DisplayOf) returns (display: Displays)
    requires AllIn(keys, before)
    ensures display == DisplaysOver(keys, before, displayOf)
  {
    display := map[];
    for j := 0 to |keys|
      invariant display == DisplaysOver(keys[..j], before, displayOf)
    {
      assert keys[..j + 1][..j] == keys[..j];
      var edges := AdvisorsOf(before[keys[j]]);
      ghost var start := display;
      for i := 0 to |edges|
        invariant display == OfferAll(start, edges[..i], displayOf)
      {
        assert edges[..i + 1][..i] == edges[..i];
        display := Offer(display, edges[i], displayOf);
      }
      assert edges[..|edges|] == edges;
    }
    assert keys[..|keys|] == keys;
  }

  lemma ListsSnoc(keys: seq<Key>, g: Graph, k: Key, r: Record)
    requires Lists(keys, g) && k !in g
    ensures Lists(keys + [k], g[k := r])
  {
  }

  function Without(display: Displays, missing: set<Key>): Displays {
    map k | k in display && k !in missing :: display[k]
  }

  lemma StubAdded(g: Graph, display: Displays, k: Key, form: Shown)
    requires k !in g
    ensures StubGraph(g, display[k := form]) == StubGraph(g, display)[k := Stub(form)]
  {
  }

  lemma StubOneMore(g: Graph, display: Displays, missing: set<Key>, k: Key)
    requires k in missing && k in display && k !in g
    ensures StubGraph(g, Without(display, missing - {k}))
        == StubGraph(g, Without(display, missing))[k := Stub(display[k])]
  {
    assert Without(display, missing - {k}) == Without(display, missing)[k := display[k]];
    StubAdded(g, Without(display, missing), k, display[k]);
  }

  method AddMissing(keys: seq<Key>, before: Graph, display: Displays) returns (keys': seq<Key>, byName: Graph)
    requires Lists(keys, before)
    ensures byName == StubGraph(before, display) && Lists(keys', byName) && keys <= keys'
  {
    keys', byName := keys, before;
    var missing := display.Keys - before.Keys;
    assert byName == StubGraph(before, Without(display, missing));
    while missing != {}
      invariant missing <= display.Keys - before.Keys
      invariant byName == StubGraph(before, Without(display, missing))
      invariant Lists(keys', byName) && keys <= keys'
      decreases missing
    {
      var k :| k in missing;
      StubOneMore(before, display, missing, k);
      ListsSnoc(keys', byName, k, Stub(display[k]));
      byName := byName[k := Stub(display[k])];
      keys' := keys' + [k];
      missing := missing - {k};
    }
    assert Without(display, {}) == display;
  }

  /** Collect display forms record by record, then add a stub per missing key, in any order. */
  method CreateStubs(keys: seq<Key>, before: Graph, displayOf: DisplayOf) returns (keys': seq<Key>, byName: Graph)
    requires Lists(keys, before)
    ensures byName == StubGraph(before, DisplaysOver(keys, before, displayOf))
    ensures Lists(keys', byName) && keys <= keys'
    ensures I5(byName)
  {
    var display := CollectDisplays(keys, before, displayOf);
    DisplaysAreReferenced(keys, before, displayOf);
    StubsCover(before, display);
    keys', byName := AddMissing(keys, before, display);
  }
}

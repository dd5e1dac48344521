/** Erasure of data subjects (`apply_suppression_list`).  Requests are given parsed: an identifier or a
    name. */
module Suppression {
  import opened Names
  import opened Options
  import opened Edges
  import opened Records
  import opened Filters
  import opened Invariants
  import EdgeIntegrity
  import CycleFinder

  datatype Request = ByName(name: Name) | ById(id: string)

  type Requests = seq<Request>

  function ListedKeys(requests: Requests): (keys: set<Key>)
    ensures NO_KEY !in keys
  {
    set i | 0 <= i < |requests| && requests[i].ByName? && NormalizeKey(requests[i].name) != NO_KEY
      :: NormalizeKey(requests[i].name)
  }

  function ListedIds(requests: Requests): set<string> {
    set i | 0 <= i < |requests| && requests[i].ById? :: requests[i].id
  }

  predicate CarriesOneOf(r: Record, ids: set<string>) {
    r.gid.Some? && r.gid.value in ids
  }

  /** Listed identifiers and those of listed names. */
  function SuppressedIds(g: Graph, requests: Requests): set<string> {
    ListedIds(requests) + set k | k in g && k in ListedKeys(requests) && HasId(g[k]) :: g[k].gid.value
  }

  /** Listed names and every other spelling of a suppressed identity. */
  function SuppressedKeys(g: Graph, requests: Requests): set<Key> {
    ListedKeys(requests) + set k | k in g && CarriesOneOf(g[k], SuppressedIds(g, requests))
  }

  predicate Removed(g: Graph, requests: Requests, k: Key)
    requires k in g
  {
    k in SuppressedKeys(g, requests) || CarriesOneOf(g[k], SuppressedIds(g, requests))
  }

  function NotAmong(keys: set<Key>): Edge -> bool {
    e => AdvisorKey(e) !in keys
  }

  /** The edges whose advisor is not suppressed. */
  function Unlisted(edges: seq<Edge>, keys: set<Key>): seq<Edge> {
    Keep(edges, NotAmong(keys))
  }

  /** Drop the advisor references to suppressed keys, and the list with its last entry. */
  function Scrub(r: Record, keys: set<Key>): Record {
    var kept := Unlisted(AdvisorsOf(r), keys);
    if |kept| == |AdvisorsOf(r)| then r else r.(advisors := if kept == [] then None else Some(kept))
  }

  function SuppressGraph(g: Graph, requests: Requests): Graph {
    var keys, ids := SuppressedKeys(g, requests), SuppressedIds(g, requests);
    map k | k in g && !(k in keys || CarriesOneOf(g[k], ids)) :: Scrub(g[k], keys)
  }

  /** Whether a key is still in the graph. */
  function LeftIn(g: Graph): Key -> bool {
    (k: Key) => k in g
  }

  function RemovedIds(g: Graph, requests: Requests): set<string> {
    set k | k in g && Removed(g, requests, k) && g[k].gid.Some? :: g[k].gid.value
  }

  function SuppressIndex(g: Graph, index: Index, requests: Requests): Index {
    index - RemovedIds(g, requests)
  }

  /** Removal takes every key of an identity, or none. */
  lemma {:induction false} RemovedTogether(g: Graph, requests: Requests, x: Key, k: Key)
    requires x in g && k in g && HasId(g[x]) && g[k].gid == g[x].gid
    ensures Removed(g, requests, x) ==> Removed(g, requests, k)
  {
    assert x in ListedKeys(requests) ==> g[x].gid.value in SuppressedIds(g, requests);
  }

  // ---- Erasure is complete ----

  /** Some advisor reference of the record, named or not, normalizes to one of `keys`. */
  predicate NamesOneOf(r: Record, keys: set<Key>) {
    exists i :: 0 <= i < |AdvisorsOf(r)| && AdvisorKey(AdvisorsOf(r)[i]) in keys
  }

  lemma ScrubEdges(r: Record, keys: set<Key>)
    ensures AdvisorsOf(Scrub(r, keys)) == Unlisted(AdvisorsOf(r), keys)
    ensures !NamesOneOf(Scrub(r, keys), keys)
    ensures !NamesOneOf(r, keys) ==> Scrub(r, keys) == r
  {
    KeepFacts(AdvisorsOf(r), NotAmong(keys));
  }

  /** The request names this person by some spelling or by identifier. */
  predicate Targets(g: Graph, q: Request, k: Key)
    requires k in g
  {
    match q
    case ByName(name) => NormalizeKey(name) == k && k != NO_KEY
    case ById(id) => g[k].gid == Some(id)
  }

  /** Whoever a request names is gone under every spelling, nobody still lists them as an advisor under
      any, and the index does not know their identifier. */
  lemma {:induction false} ErasureIsComplete(g: Graph, index: Index, requests: Requests, n: nat, listed: Key, k: Key)
    requires n < |requests| && listed in g && Targets(g, requests[n], listed)
    requires k in g && (k == listed || (HasId(g[listed]) && g[k].gid == g[listed].gid))
    ensures k !in SuppressGraph(g, requests)
    ensures forall x :: x in SuppressGraph(g, requests) ==> !NamesOneOf(SuppressGraph(g, requests)[x], {k})
    ensures HasId(g[k]) ==> g[k].gid.value !in SuppressIndex(g, index, requests)
  {
    var keys, ids := SuppressedKeys(g, requests), SuppressedIds(g, requests);
    if requests[n].ByName? {
      assert listed in ListedKeys(requests);
    } else {
      assert requests[n].id in ListedIds(requests);
    }
    assert HasId(g[listed]) ==> g[listed].gid.value in ids;
    assert k in keys;
    assert Removed(g, requests, k);
    forall x | x in SuppressGraph(g, requests)
      ensures !NamesOneOf(SuppressGraph(g, requests)[x], {k})
    {
      ScrubEdges(g[x], keys);
      assert NamesOneOf(SuppressGraph(g, requests)[x], {k}) ==> NamesOneOf(SuppressGraph(g, requests)[x], keys);
    }
  }

  // ---- A second run changes nothing ----

  lemma {:induction false} SurvivorsAreClear(g: Graph, requests: Requests, k: Key)
    requires k in SuppressGraph(g, requests)
    ensures k in g && k !in ListedKeys(requests) && !CarriesOneOf(g[k], SuppressedIds(g, requests))
    ensures SuppressGraph(g, requests)[k] == Scrub(g[k], SuppressedKeys(g, requests))
    ensures SuppressGraph(g, requests)[k].gid == g[k].gid
  {
  }

  /** In the erased graph the requests reach nothing but what they list. */
  lemma {:induction false} OnlyListedReached(g: Graph, requests: Requests)
    ensures var g' := SuppressGraph(g, requests);
            && SuppressedIds(g', requests) == ListedIds(requests)
            && SuppressedKeys(g', requests) == ListedKeys(requests)
            && forall k :: k in g' ==> k !in ListedKeys(requests) && !CarriesOneOf(g'[k], ListedIds(requests))
  {
    var g' := SuppressGraph(g, requests);
    forall k | k in g'
      ensures k !in ListedKeys(requests) && !CarriesOneOf(g'[k], SuppressedIds(g, requests))
    {
      SurvivorsAreClear(g, requests, k);
    }
  }

  lemma {:induction false} ScrubbedAgain(r: Record, keys: set<Key>, fewer: set<Key>)
    requires fewer <= keys
    ensures Scrub(Scrub(r, keys), fewer) == Scrub(r, keys)
  {
    ScrubEdges(r, keys);
    assert !NamesOneOf(Scrub(r, keys), fewer);
    ScrubEdges(Scrub(r, keys), fewer);
  }

  lemma {:induction false} LeftAgain(g: Graph, requests: Requests, k: Key)
    requires k in SuppressGraph(g, requests)
    ensures var g' := SuppressGraph(g, requests);
            && !Removed(g', requests, k)
            && k in SuppressGraph(g', requests) && SuppressGraph(g', requests)[k] == g'[k]
  {
    OnlyListedReached(g, requests);
    SurvivorsAreClear(g, requests, k);
    ScrubbedAgain(g[k], SuppressedKeys(g, requests), ListedKeys(requests));
  }

  lemma {:induction false} SuppressIdempotent(g: Graph, index: Index, requests: Requests)
    ensures var g' := SuppressGraph(g, requests);
            && SuppressGraph(g', requests) == g'
            && SuppressIndex(g', SuppressIndex(g, index, requests), requests) == SuppressIndex(g, index, requests)
  {
    var g' := SuppressGraph(g, requests);
    var g'' := SuppressGraph(g', requests);
    forall k | k in g'
      ensures !Removed(g', requests, k) && k in g'' && g''[k] == g'[k]
    {
      LeftAgain(g, requests, k);
    }
    assert g'' == g';
    assert RemovedIds(g', requests) == {};
  }

  // ---- The validator's invariants survive ----

  lemma {:induction false} ScrubAdvises(r: Record, keys: set<Key>, t: Key)
    ensures Advises(Scrub(r, keys), t) <==> Advises(r, t) && t !in keys
  {
    var edges, kept := AdvisorsOf(r), Unlisted(AdvisorsOf(r), keys);
    ScrubEdges(r, keys);
    KeepFacts(edges, NotAmong(keys));
    if i :| 0 <= i < |kept| && Named(kept[i]) && AdvisorKey(kept[i]) == t {
      var j :| 0 <= j < |edges| && edges[j] == kept[i];
    }
    if i :| 0 <= i < |edges| && Named(edges[i]) && AdvisorKey(edges[i]) == t && t !in keys {
      var j :| 0 <= j < |kept| && kept[j] == edges[i];
    }
  }

  lemma {:induction false} KeepsI2(g: Graph, requests: Requests)
    requires I2(g)
    ensures I2(SuppressGraph(g, requests))
  {
    var g' := SuppressGraph(g, requests);
    forall p: seq<Key> | CycleFinder.ClosedWalk(Adjacency(g'), p)
      ensures CycleFinder.ClosedWalk(Adjacency(g), p)
    {
      forall i, j | 0 <= i && j == i + 1 < |p|
        ensures CycleFinder.Arc(Adjacency(g), p[i], p[j])
      {
        ArcIs(g', p[i], p[j]);
        ArcIs(g, p[i], p[j]);
        SurvivorsAreClear(g, requests, p[i]);
        ScrubAdvises(g[p[i]], SuppressedKeys(g, requests), p[j]);
      }
    }
  }

  lemma {:induction false} KeepsI1(g: Graph, requests: Requests)
    requires I1(g)
    ensures I1(SuppressGraph(g, requests))
  {
    var g' := SuppressGraph(g, requests);
    forall k | k in g'
      ensures !Advises(g'[k], k)
    {
      ScrubAdvises(g[k], SuppressedKeys(g, requests), k);
    }
  }

  lemma {:induction false} KeepsI3(g: Graph, requests: Requests)
    requires I3(g)
    ensures I3(SuppressGraph(g, requests))
  {
    var g', keys := SuppressGraph(g, requests), SuppressedKeys(g, requests);
    forall k | k in g'
      ensures EdgeIntegrity.DistinctKeys(AdvisorKey, NamedEdges(AdvisorsOf(g'[k])))
    {
      ScrubEdges(g[k], keys);
      KeepCommutes(AdvisorsOf(g[k]), Named, NotAmong(keys));
      KeepInjective(NamedEdges(AdvisorsOf(g[k])), NotAmong(keys), AdvisorKey);
    }
  }

  lemma {:induction false} KeepsI4(g: Graph, requests: Requests)
    requires I4(g)
    ensures I4(SuppressGraph(g, requests))
  {
    var g', keys := SuppressGraph(g, requests), SuppressedKeys(g, requests);
    forall k, i | k in g' && 0 <= i < |AdvisorsOf(g'[k])| && Named(AdvisorsOf(g'[k])[i])
      ensures HasProvenance(AdvisorsOf(g'[k])[i])
    {
      ScrubEdges(g[k], keys);
      KeepFacts(AdvisorsOf(g[k]), NotAmong(keys));
      var j :| 0 <= j < |AdvisorsOf(g[k])| && AdvisorsOf(g[k])[j] == AdvisorsOf(g'[k])[i];
    }
  }

  lemma {:induction false} KeepsI5(g: Graph, requests: Requests)
    requires I5(g)
    ensures I5(SuppressGraph(g, requests))
  {
    var g', keys := SuppressGraph(g, requests), SuppressedKeys(g, requests);
    forall k, t | k in g' && Advises(g'[k], t) && t != NO_KEY
      ensures t in g'
    {
      ScrubAdvises(g[k], keys, t);
      assert t in g && CarriesOneOf(g[t], SuppressedIds(g, requests)) ==> t in keys;
    }
  }

  lemma {:induction false} KeepsIndexOf(g: Graph, index: Index, requests: Requests)
    requires IndexOf(g, index)
    ensures IndexOf(SuppressGraph(g, requests), SuppressIndex(g, index, requests))
  {
    var g', index' := SuppressGraph(g, requests), SuppressIndex(g, index, requests);
    forall id | id in index'
      ensures index'[id] in g' && g'[index'[id]].gid == Some(id)
    {
      assert forall x :: x in g && Removed(g, requests, x) && g[x].gid.Some?
              ==> g[x].gid.value in RemovedIds(g, requests);
    }
  }

  lemma {:induction false} KeepsTotalIndex(g: Graph, index: Index, requests: Requests)
    requires TotalIndex(g, index)
    ensures TotalIndex(SuppressGraph(g, requests), SuppressIndex(g, index, requests))
  {
    var g', index' := SuppressGraph(g, requests), SuppressIndex(g, index, requests);
    forall k | k in g' && HasId(g'[k])
      ensures g'[k].gid.value in index'
    {
      SurvivorsAreClear(g, requests, k);
      forall x | x in g && g[x].gid == g[k].gid
        ensures !Removed(g, requests, x)
      {
        RemovedTogether(g, requests, x, k);
      }
    }
  }

  lemma {:induction false} KeepsForms(g: Graph, requests: Requests)
    ensures I6(g) ==> I6(SuppressGraph(g, requests))
    ensures OneFormPerId(g) ==> OneFormPerId(SuppressGraph(g, requests))
    ensures AliasesIdentical(g) ==> AliasesIdentical(SuppressGraph(g, requests))
  {
    var g' := SuppressGraph(g, requests);
    forall k | k in g'
      ensures g'[k].gid == g[k].gid && g'[k].fields == g[k].fields
    {
      SurvivorsAreClear(g, requests, k);
    }
  }

  /** From a merged graph with the index as built, erasure keeps every invariant of the validator. */
  lemma KeepsAllInvariants(g: Graph, index: Index, requests: Requests)
    requires AliasesIdentical(g) && IndexOf(g, index) && AllInvariants(g, index)
    ensures AllInvariants(SuppressGraph(g, requests), SuppressIndex(g, index, requests))
    ensures AliasesIdentical(SuppressGraph(g, requests))
        && IndexOf(SuppressGraph(g, requests), SuppressIndex(g, index, requests))
  {
    KeepsI2(g, requests);
    KeepsI1(g, requests);
    KeepsI3(g, requests);
    KeepsI4(g, requests);
    KeepsI5(g, requests);
    KeepsForms(g, requests);
    KeepsIndexOf(g, index, requests);
    KeepsTotalIndex(g, index, requests);
  }
}

/** Who is erased, and nobody else: erasure in terms of the requests alone. */
module Erasure {
  import opened Names
  import opened Options
  import opened Edges
  import opened Filters
  import opened Records
  import opened Invariants
  import opened Suppression
  import opened AliasMerge
  import AliasPasses

  /** Some request names the person by this spelling or by identifier. */
  ghost predicate Requested(g: Graph, requests: Requests, k: Key) {
    k in g && exists n :: 0 <= n < |requests| && Targets(g, requests[n], k)
  }

  /** Some request names the person by this spelling or by one that shares its identifier. */
  ghost predicate Condemned(g: Graph, requests: Requests, k: Key) {
    && k in g
    && (Requested(g, requests, k) || exists x :: Requested(g, requests, x) && HasId(g[x]) && g[x].gid == g[k].gid)
  }

  /** A request names the key, which need not be a node. */
  ghost predicate NameRequested(requests: Requests, k: Key) {
    k != NO_KEY && exists n :: 0 <= n < |requests| && requests[n].ByName? && NormalizeKey(requests[n].name) == k
  }

  lemma {:induction false} ListedIs(requests: Requests, k: Key)
    ensures k in ListedKeys(requests) <==> NameRequested(requests, k)
  {
  }

  lemma {:induction false} RequestedIs(g: Graph, requests: Requests, k: Key)
    requires k in g
    ensures Requested(g, requests, k) <==> NameRequested(requests, k) || CarriesOneOf(g[k], ListedIds(requests))
  {
    if n :| 0 <= n < |requests| && Targets(g, requests[n], k) {
      match requests[n]
      case ByName(name) => assert NameRequested(requests, k);
      case ById(id) => assert id in ListedIds(requests);
    }
    if NameRequested(requests, k) {
      var n :| 0 <= n < |requests| && requests[n].ByName? && NormalizeKey(requests[n].name) == k;
      assert Targets(g, requests[n], k);
    }
    if CarriesOneOf(g[k], ListedIds(requests)) {
      var n :| 0 <= n < |requests| && requests[n].ById? && requests[n].id == g[k].gid.value;
      assert Targets(g, requests[n], k);
    }
  }

  lemma {:induction false} CarriesIs(g: Graph, requests: Requests, k: Key)
    requires k in g
    ensures CarriesOneOf(g[k], SuppressedIds(g, requests))
       <==> CarriesOneOf(g[k], ListedIds(requests))
            || exists x :: x in g && x in ListedKeys(requests) && HasId(g[x]) && g[x].gid == g[k].gid
  {
    if CarriesOneOf(g[k], SuppressedIds(g, requests)) && !CarriesOneOf(g[k], ListedIds(requests)) {
      var x :| x in g && x in ListedKeys(requests) && HasId(g[x]) && g[x].gid.value == g[k].gid.value;
      assert g[x].gid == g[k].gid;
    }
    if x :| x in g && x in ListedKeys(requests) && HasId(g[x]) && g[x].gid == g[k].gid {
      assert g[x].gid.value in SuppressedIds(g, requests);
    }
  }

  /** The records removed are those of the persons that the requests name. */
  lemma {:induction false} RemovedIs(g: Graph, requests: Requests, k: Key)
    requires k in g
    ensures Removed(g, requests, k) <==> Condemned(g, requests, k)
    ensures k in SuppressedKeys(g, requests) <==> Removed(g, requests, k)
  {
    ListedIs(requests, k);
    RequestedIs(g, requests, k);
    CarriesIs(g, requests, k);
    if x :| x in g && x in ListedKeys(requests) && HasId(g[x]) && g[x].gid == g[k].gid {
      ListedIs(requests, x);
      RequestedIs(g, requests, x);
      assert Requested(g, requests, x);
    }
    if Condemned(g, requests, k) && !Requested(g, requests, k) {
      var x :| Requested(g, requests, x) && HasId(g[x]) && g[x].gid == g[k].gid;
      RequestedIs(g, requests, x);
      ListedIs(requests, x);
    }
  }

  /** A record is left exactly if no request names its person. */
  lemma {:induction false} LeftIff(g: Graph, requests: Requests, k: Key)
    ensures k in SuppressGraph(g, requests) <==> k in g && !Condemned(g, requests, k)
  {
    if k in g {
      RemovedIs(g, requests, k);
    }
  }

  /** An identifier is left in the index exactly if no record of such a person carries it. */
  lemma {:induction false} IndexedIff(g: Graph, index: Index, requests: Requests, id: string)
    ensures id in SuppressIndex(g, index, requests)
       <==> id in index && !exists k :: Condemned(g, requests, k) && g[k].gid == Some(id)
    ensures id in SuppressIndex(g, index, requests) ==> SuppressIndex(g, index, requests)[id] == index[id]
  {
    if k :| Condemned(g, requests, k) && g[k].gid == Some(id) {
      RemovedIs(g, requests, k);
      assert id in RemovedIds(g, requests);
    }
    if id in RemovedIds(g, requests) {
      var k :| k in g && Removed(g, requests, k) && g[k].gid == Some(id);
      RemovedIs(g, requests, k);
    }
  }

  /** The reference is to a name that is requested, or to a person that is. */
  ghost predicate Unmentionable(g: Graph, requests: Requests, e: Edge) {
    NameRequested(requests, AdvisorKey(e)) || Condemned(g, requests, AdvisorKey(e))
  }

  ghost function Mentionable(g: Graph, requests: Requests): Edge -> bool {
    (e: Edge) => !Unmentionable(g, requests, e)
  }

  lemma {:induction false} MentionableIs(g: Graph, requests: Requests, e: Edge)
    ensures Mentionable(g, requests)(e) <==> NotAmong(SuppressedKeys(g, requests))(e)
  {
    var t := AdvisorKey(e);
    ListedIs(requests, t);
    if t in g {
      RemovedIs(g, requests, t);
    }
  }

  /** A record that is left keeps all it has but the references to names and persons that are requested: the others
      stay, unchanged and in order; without one left the record has no list. */
  lemma {:induction false} ReferencesLeft(g: Graph, requests: Requests, k: Key) returns (origin: seq<nat>)
    requires k in SuppressGraph(g, requests)
    ensures k in g && var r, r' := g[k], SuppressGraph(g, requests)[k];
            && r' == r.(advisors := r'.advisors)
            && Sublist(AdvisorsOf(r), Mentionable(g, requests), AdvisorsOf(r'), origin)
            && (AdvisorsOf(r) != [] && AdvisorsOf(r') == [] ==> r'.advisors == None)
            && ((forall i :: 0 <= i < |AdvisorsOf(r)| ==> !Unmentionable(g, requests, AdvisorsOf(r)[i])) ==> r' == r)
  {
    var names := SuppressedKeys(g, requests);
    var edges := AdvisorsOf(g[k]);
    SurvivorsAreClear(g, requests, k);
    ScrubEdges(g[k], names);
    forall e
      ensures Mentionable(g, requests)(e) <==> NotAmong(names)(e)
    {
      MentionableIs(g, requests, e);
    }
    origin := KeepIsSublist(edges, NotAmong(names));
    assert Sublist(edges, Mentionable(g, requests), Keep(edges, NotAmong(names)), origin);
    if forall i :: 0 <= i < |edges| ==> !Unmentionable(g, requests, edges[i]) {
      assert forall i :: 0 <= i < |edges| ==> Mentionable(g, requests)(edges[i]);
      KeepFacts(edges, NotAmong(names));
    }
  }

  // ---- Erasure and the index ----

  ghost predicate CondemnedUnder(g: Graph, requests: Requests, id: string) {
    exists k :: Condemned(g, requests, k) && g[k].gid == Some(id)
  }

  lemma {:induction false} LeftKeepsId(g: Graph, requests: Requests, k: Key)
    requires k in SuppressGraph(g, requests)
    ensures k in g && SuppressGraph(g, requests)[k].gid == g[k].gid
  {
  }

  /** Erasure takes all records of an identifier or none. */
  lemma {:induction false} WholePersons(g: Graph, requests: Requests, k: Key)
    requires k in g && HasId(g[k])
    ensures Condemned(g, requests, k) <==> CondemnedUnder(g, requests, g[k].gid.value)
  {
    if x :| Condemned(g, requests, x) && g[x].gid == g[k].gid {
      assert HasId(g[x]);
      if Requested(g, requests, x) {
        assert Condemned(g, requests, k);
      } else {
        var y :| Requested(g, requests, y) && HasId(g[y]) && g[y].gid == g[x].gid;
        assert Condemned(g, requests, k);
      }
    }
  }

  lemma {:induction false} KeptAreIn(keys: seq<Key>, g: Graph)
    ensures AllIn(Keep(keys, LeftIn(g)), g)
  {
    KeepFacts(keys, LeftIn(g));
  }

  lemma {:induction false} FirstSnoc(keys: seq<Key>, last: Key, g: Graph, id: string)
    requires AllIn(keys, g) && last in g
    ensures AllIn(keys + [last], g)
    ensures AliasPasses.FirstKey(keys + [last], g, id)
         == if AliasPasses.FirstKey(keys, g, id).None? && g[last].gid == Some(id) then Some(last)
            else AliasPasses.FirstKey(keys, g, id)
  {
    assert (keys + [last])[..|keys|] == keys;
  }

  lemma {:induction false} FirstLeft(keys: seq<Key>, g: Graph, g': Graph, id: string, gone: bool)
    requires AllIn(keys, g) && forall k :: k in g' ==> k in g && g'[k].gid == g[k].gid
    requires forall k :: k in g && g[k].gid == Some(id) ==> (k in g' <==> !gone)
    ensures AllIn(Keep(keys, LeftIn(g')), g')
    ensures AliasPasses.FirstKey(Keep(keys, LeftIn(g')), g', id)
         == if gone then None else AliasPasses.FirstKey(keys, g, id)
  {
    KeptAreIn(keys, g');
    if keys != [] {
      var init, last := keys[..|keys| - 1], keys[|keys| - 1];
      FirstLeft(init, g, g', id, gone);
      FirstSnoc(init, last, g, id);
      assert keys == init + [last];
      if last !in g' {
        assert Keep(keys, LeftIn(g')) == Keep(init, LeftIn(g'));
      } else {
        assert Keep(keys, LeftIn(g')) == Keep(init, LeftIn(g')) + [last];
        FirstSnoc(Keep(init, LeftIn(g')), last, g', id);
      }
    }
  }

  /** The index names the first listed key of every identifier. */
  ghost predicate FirstKeyIndex(keys: seq<Key>, g: Graph, index: Index) {
    AllIn(keys, g) && forall id :: AliasPasses.Lookup(index, id) == AliasPasses.FirstKey(keys, g, id)
  }

  /** If every record has an identifier, erasing from the index what is erased gives the index of what is left. */
  lemma {:induction false} ErasureCommutes(keys: seq<Key>, g: Graph, index: Index, requests: Requests)
    requires FirstKeyIndex(keys, g, index) && forall k :: k in g ==> HasId(g[k])
    ensures var g' := SuppressGraph(g, requests);
            FirstKeyIndex(Keep(keys, LeftIn(g')), g', SuppressIndex(g, index, requests))
  {
    var g' := SuppressGraph(g, requests);
    KeptAreIn(keys, g');
    forall k | k in g'
      ensures k in g && g'[k].gid == g[k].gid
    {
      LeftKeepsId(g, requests, k);
    }
    forall id
      ensures AliasPasses.Lookup(SuppressIndex(g, index, requests), id)
           == AliasPasses.FirstKey(Keep(keys, LeftIn(g')), g', id)
    {
      forall k | k in g && g[k].gid == Some(id)
        ensures k in g' <==> !CondemnedUnder(g, requests, id)
      {
        LeftIff(g, requests, k);
        WholePersons(g, requests, k);
      }
      FirstLeft(keys, g, g', id, CondemnedUnder(g, requests, id));
      IndexedIff(g, index, requests, id);
      assert AliasPasses.Lookup(index, id) == AliasPasses.FirstKey(keys, g, id);
    }
  }
}

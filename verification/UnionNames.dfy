/** Whom a united record refers to.  Each slot goes by the name of the last claim that overrode it, or its own: a
    spelling that only corroborates, or is overridden, is no longer listed. */
module UnionNames {
  import opened Names
  import opened Options
  import opened Edges
  import opened Filters
  import opened Records
  import opened AliasMerge
  import opened SlotHistory
  import EdgeIntegrity

  function NamesOf(edges: seq<Edge>): seq<Name> {
    seq(|edges|, i requires 0 <= i < |edges| => edges[i].name)
  }

  /** One of the names has key `t`. */
  predicate NamesKey(names: seq<Name>, t: Key) {
    exists i :: 0 <= i < |names| && names[i] != NO_KEY && NormalizeKey(names[i]) == t
  }

  /** No two of the names have one key; empty names do not count. */
  predicate KeysDiffer(names: seq<Name>) {
    forall i, j :: 0 <= i < j < |names| && names[i] != NO_KEY && names[j] != NO_KEY
      ==> NormalizeKey(names[i]) != NormalizeKey(names[j])
  }

  lemma {:induction false} AdvisesByName(r: Record, t: Key)
    ensures Advises(r, t) <==> NamesKey(NamesOf(AdvisorsOf(r)), t)
  {
    var edges, names := AdvisorsOf(r), NamesOf(AdvisorsOf(r));
    if i :| 0 <= i < |edges| && Named(edges[i]) && AdvisorKey(edges[i]) == t {
      assert names[i] != NO_KEY && NormalizeKey(names[i]) == t;
    }
    if i :| 0 <= i < |names| && names[i] != NO_KEY && NormalizeKey(names[i]) == t {
      assert Named(edges[i]) && AdvisorKey(edges[i]) == t;
    }
  }

  /** What the last of a list of names adds. */
  lemma {:induction false} LastDiffers(names: seq<Name>)
    requires names != []
    ensures var n := |names| - 1;
            KeysDiffer(names)
            <==> KeysDiffer(names[..n]) && (names[n] != NO_KEY ==> !NamesKey(names[..n], NormalizeKey(names[n])))
  {
    var n := |names| - 1;
    assert forall i :: 0 <= i < n ==> names[..n][i] == names[i];
    if KeysDiffer(names) && names[n] != NO_KEY {
      forall i | 0 <= i < n && names[..n][i] != NO_KEY
        ensures NormalizeKey(names[..n][i]) != NormalizeKey(names[n])
      {
        assert names[i] != NO_KEY;
      }
    }
  }

  lemma {:induction false} DistinctSnoc(before: seq<Edge>, last: Edge)
    ensures EdgeIntegrity.DistinctKeys(AdvisorKey, before + [last])
       <==> EdgeIntegrity.DistinctKeys(AdvisorKey, before)
            && forall i :: 0 <= i < |before| ==> AdvisorKey(before[i]) != AdvisorKey(last)
  {
    var all := before + [last];
    assert forall i :: 0 <= i < |before| ==> all[i] == before[i];
    assert all[|before|] == last;
  }

  lemma {:induction false} KeysAmong(edges: seq<Edge>, t: Key)
    ensures NamesKey(NamesOf(edges), t)
       <==> exists i :: 0 <= i < |NamedEdges(edges)| && AdvisorKey(NamedEdges(edges)[i]) == t
  {
    var r := Record(map[], Some(edges), None, [], None);
    EdgeIntegrity.AdvisesIs(r, t);
    AdvisesByName(r, t);
  }

  lemma {:induction false} NamedSnoc(edges: seq<Edge>, last: Edge)
    ensures NamedEdges(edges + [last]) == if Named(last) then NamedEdges(edges) + [last] else NamedEdges(edges)
  {
    KeepSnoc(edges, last, Named);
  }

  lemma {:induction false} NewNameDiffers(edges: seq<Edge>, last: Edge)
    ensures EdgeIntegrity.DistinctKeys(AdvisorKey, NamedEdges(edges + [last]))
       <==> EdgeIntegrity.DistinctKeys(AdvisorKey, NamedEdges(edges))
            && (Named(last) ==> !NamesKey(NamesOf(edges), AdvisorKey(last)))
  {
    NamedSnoc(edges, last);
    if Named(last) {
      KeysAmong(edges, AdvisorKey(last));
      DistinctSnoc(NamedEdges(edges), last);
    }
  }

  lemma {:induction false} DistinctByName(edges: seq<Edge>)
    ensures EdgeIntegrity.DistinctKeys(AdvisorKey, NamedEdges(edges)) <==> KeysDiffer(NamesOf(edges))
  {
    if edges != [] {
      var n := |edges| - 1;
      DistinctByName(edges[..n]);
      assert edges == edges[..n] + [edges[n]];
      assert NamesOf(edges)[..n] == NamesOf(edges[..n]);
      NewNameDiffers(edges[..n], edges[n]);
      LastDiffers(NamesOf(edges));
    }
  }

  // ---- The names of a united record ----

  function NameOr(name: Option<Name>): Name {
    if name.Some? then name.value else NO_KEY
  }

  /** The names that win among the records of a group, slot by slot. */
  function UnitedNames(g: Graph, ordered: seq<Key>): seq<Name>
    requires ordered != [] && AllIn(ordered, g)
  {
    var names := UnitedWinners(Called(), g, ordered);
    seq(|names|, i requires 0 <= i < |names| => NameOr(names[i]))
  }

  /** A united record's edges go by the names that win. */
  lemma {:induction false} UnitedNamesAre(g: Graph, ordered: seq<Key>)
    requires ordered != [] && AllIn(ordered, g)
    ensures NamesOf(AdvisorsOf(UniteAll(g, ordered))) == UnitedNames(g, ordered)
  {
    var edges := AdvisorsOf(UniteAll(g, ordered));
    FieldsFuse();
    FieldsIgnoreRecord();
    UnitedFieldsAre(Called(), g, ordered);
    forall i | 0 <= i < |edges|
      ensures NamesOf(edges)[i] == UnitedNames(g, ordered)[i]
    {
      assert Picked(Called(), edges)[i] == Some(edges[i].name);
    }
  }

  /** The names of the record that a pass leaves under `k`. */
  function PassNames(less: Order, keys: seq<Key>, g: Graph, k: Key): seq<Name>
    requires AllIn(keys, g) && k in g
  {
    if g[k].gid.Some? && Unites(keys, g, g[k].gid.value) then
      UnitedNames(g, UnitedKeys(less, keys, g, g[k].gid.value))
    else NamesOf(AdvisorsOf(g[k]))
  }

  lemma {:induction false} PassNamesAre(less: Order, keys: seq<Key>, g: Graph, k: Key)
    requires AllIn(keys, g) && k in g
    ensures NamesOf(AdvisorsOf(MergePass(less, keys, g)[k])) == PassNames(less, keys, g, k)
  {
    if g[k].gid.Some? && Unites(keys, g, g[k].gid.value) {
      UnitedNamesAre(g, UnitedKeys(less, keys, g, g[k].gid.value));
    }
  }
}

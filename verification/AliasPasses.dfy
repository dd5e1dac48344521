/** The loops that settle identities: alias groups to a fixed point, the reverse index, erasure. */
module AliasPasses {
  import opened Names
  import opened Options
  import opened Edges
  import opened Filters
  import opened Records
  import opened Invariants
  import opened AliasMerge
  import opened MapImages
  import opened Suppression
  import Convergence
  import Passes

  // ---- One pass over the alias groups ----

  type Groups = map<string, seq<Key>>

  function GroupOf(keys: seq<Key>, g: Graph, id: string): seq<Key>
    requires AllIn(keys, g)
  {
    if id == "" then [] else Group(keys, g, id)
  }

  ghost predicate GroupedAt(keys: seq<Key>, g: Graph, groups: Groups, id: string)
    requires AllIn(keys, g)
  {
    GroupOf(keys, g, id) == (if id in groups then groups[id] else []) && (id in groups ==> groups[id] != [])
  }

  /** `groups` holds the keys of every non-empty identifier met so far. */
  ghost predicate Grouped(keys: seq<Key>, g: Graph, groups: Groups) {
    && AllIn(keys, g)
    && forall id :: GroupedAt(keys, g, groups, id)
  }

  lemma GroupSnoc(keys: seq<Key>, g: Graph, k: Key, id: string)
    requires AllIn(keys, g) && k in g
    ensures AllIn(keys + [k], g)
    ensures Group(keys + [k], g, id) == Group(keys, g, id) + if g[k].gid == Some(id) then [k] else []
  {
    assert (keys + [k])[..|keys|] == keys;
  }

  /** File `k` under its identifier. */
  function File(groups: Groups, k: Key, r: Record): Groups {
    if !HasId(r) then groups
    else groups[r.gid.value := (if r.gid.value in groups then groups[r.gid.value] else []) + [k]]
  }

  lemma {:induction false} GroupedSnoc(keys: seq<Key>, g: Graph, groups: Groups, k: Key)
    requires Grouped(keys, g, groups) && k in g
    ensures Grouped(keys + [k], g, File(groups, k, g[k]))
  {
    GroupSnoc(keys, g, k, "");
    forall id
      ensures GroupedAt(keys + [k], g, File(groups, k, g[k]), id)
    {
      assert GroupedAt(keys, g, groups, id);
      GroupSnoc(keys, g, k, id);
    }
  }

  method GroupByIdentifier(keys: seq<Key>, g: Graph) returns (groups: Groups)
    requires Lists(keys, g)
    ensures Grouped(keys, g, groups)
  {
    groups := map[];
    for i := 0 to |keys|
      invariant Grouped(keys[..i], g, groups)
    {
      var k := keys[i];
      assert keys[..i + 1] == keys[..i] + [k];
      GroupedSnoc(keys[..i], g, groups, k);
      groups := File(groups, k, g[k]);
    }
    assert keys[..|keys|] == keys;
  }

  /** Start from the record with precedence and unite the others with it in turn. */
  method UniteGroup(g: Graph, ordered: seq<Key>) returns (merged: Record)
    requires ordered != [] && AllIn(ordered, g)
    ensures merged == UniteAll(g, ordered)
  {
    merged := g[ordered[0]];
    assert ordered[..1] == [ordered[0]];
    for n := 1 to |ordered|
      invariant AllIn(ordered[..n], g) && merged == UniteAll(g, ordered[..n])
    {
      assert ordered[..n + 1][..n] == ordered[..n];
      var other := g[ordered[n]];
      var advisors := merged.advisors;
      if AdvisorsOf(other) != [] {
        var fused := MergeAdvisorEdges(AdvisorsOf(merged), AdvisorsOf(other));
        advisors := Some(fused);
      }
      merged := Record(FillFields(merged.fields, other.fields), advisors, Richer(merged.institution, other.institution),
                       AddParts(merged.source, other.source), merged.gid);
    }
    assert ordered[..|ordered|] == ordered;
  }

  /** The record that replaces those of a group, if they need uniting. */
  method UniteIfNeeded(less: Order, g: Graph, group: seq<Key>) returns (merged: Option<Record>)
    requires AllIn(group, g)
    ensures merged.Some? <==> |group| >= 2 && OneForm(group, g) && !Uniform(group, g)
    ensures merged.Some? ==> AllIn(Sorted(less, g, group), g) && merged.value == UniteAll(g, Sorted(less, g, group))
  {
    if |group| < 2 || !OneForm(group, g) || Uniform(group, g) {
      return None;
    }
    var ordered := Sorted(less, g, group);
    assert forall i :: 0 <= i < |ordered| ==> ordered[i] in ordered;
    var r := UniteGroup(g, ordered);
    merged := Some(r);
  }

  /** The record once the groups of the identifiers in `done` have been dealt with. */
  function DealtRecord(less: Order, keys: seq<Key>, before: Graph, r: Record, done: set<string>): Record
    requires AllIn(keys, before)
  {
    if r.gid.Some? && r.gid.value in done then PassRecord(less, keys, before, r) else r
  }

  /** These groups have been dealt with, the others not yet. */
  ghost predicate Dealt(less: Order, keys: seq<Key>, before: Graph, now: Graph, done: set<string>) {
    && AllIn(keys, before) && now.Keys == before.Keys
    && forall k :: k in before ==> now[k] == DealtRecord(less, keys, before, before[k], done)
  }

  lemma UntouchedGroup(less: Order, keys: seq<Key>, before: Graph, now: Graph, done: set<string>, id: string)
    requires Dealt(less, keys, before, now, done) && id !in done
    ensures var group := Group(keys, before, id);
            && AllIn(group, before) && AllIn(group, now)
            && (forall i :: 0 <= i < |group| ==> now[group[i]] == before[group[i]])
            && (OneForm(group, now) <==> OneForm(group, before)) && (Uniform(group, now) <==> Uniform(group, before))
  {
    GroupIn(keys, before, id);
  }

  lemma {:induction false} InsertAgree(less: Order, g: Graph, g': Graph, sorted: seq<Key>, k: Key)
    requires AllIn(sorted, g) && AllIn(sorted, g') && k in g && k in g' && g[k] == g'[k]
    requires forall i :: 0 <= i < |sorted| ==> g[sorted[i]] == g'[sorted[i]]
    ensures Insert(less, g, sorted, k) == Insert(less, g', sorted, k)
  {
    if sorted != [] {
      InsertAgree(less, g, g', sorted[..|sorted| - 1], k);
    }
  }

  lemma {:induction false} SortedAgree(less: Order, g: Graph, g': Graph, keys: seq<Key>)
    requires AllIn(keys, g) && AllIn(keys, g') && forall i :: 0 <= i < |keys| ==> g[keys[i]] == g'[keys[i]]
    ensures Sorted(less, g, keys) == Sorted(less, g', keys)
  {
    if keys != [] {
      var init := keys[..|keys| - 1];
      SortedAgree(less, g, g', init);
      var sorted := Sorted(less, g, init);
      forall i | 0 <= i < |sorted|
        ensures sorted[i] in g && sorted[i] in g' && g[sorted[i]] == g'[sorted[i]]
      {
        assert sorted[i] in sorted;
        var j :| 0 <= j < |init| && init[j] == sorted[i];
        assert keys[j] == init[j];
      }
      InsertAgree(less, g, g', sorted, keys[|keys| - 1]);
    }
  }

  lemma {:induction false} UniteAgree(g: Graph, g': Graph, ordered: seq<Key>)
    requires ordered != [] && AllIn(ordered, g) && AllIn(ordered, g')
    requires forall i :: 0 <= i < |ordered| ==> g[ordered[i]] == g'[ordered[i]]
    ensures UniteAll(g, ordered) == UniteAll(g', ordered)
  {
    if |ordered| > 1 {
      UniteAgree(g, g', ordered[..|ordered| - 1]);
    }
  }

  lemma SameUnion(less: Order, keys: seq<Key>, before: Graph, now: Graph, id: string)
    requires AllIn(keys, before) && Unites(keys, before, id)
    requires var group := Group(keys, before, id);
             && AllIn(group, now) && AllIn(Sorted(less, now, group), now)
             && forall i :: 0 <= i < |group| ==> group[i] in before && now[group[i]] == before[group[i]]
    ensures UniteAll(now, Sorted(less, now, Group(keys, before, id))) == UnitedRecord(less, keys, before, id)
  {
    var group := Group(keys, before, id);
    SortedAgree(less, before, now, group);
    var ordered := Sorted(less, before, group);
    forall i | 0 <= i < |ordered|
      ensures ordered[i] in before && ordered[i] in now && before[ordered[i]] == now[ordered[i]]
    {
      assert ordered[i] in ordered;
      var j :| 0 <= j < |group| && group[j] == ordered[i];
    }
    UniteAgree(before, now, ordered);
  }

  function Replace(now: Graph, group: seq<Key>, merged: Option<Record>): Graph {
    if merged.None? then now else map k | k in now :: if k in group then merged.value else now[k]
  }

  /** The group holds exactly the keys under its identifier. */
  lemma {:induction false} InGroupIff(keys: seq<Key>, g: Graph, id: string, k: Key)
    requires Lists(keys, g) && k in g
    ensures k in Group(keys, g, id) <==> g[k].gid == Some(id)
  {
    assert k in keys;
  }

  lemma {:induction false} DealtInGroup(less: Order, keys: seq<Key>, g: Graph, r: Record, done: set<string>,
                                        id: string, merged: Option<Record>)
    requires AllIn(keys, g) && id !in done && r.gid == Some(id)
    requires merged.Some? <==> Unites(keys, g, id)
    requires merged.Some? ==> merged.value == UnitedRecord(less, keys, g, id)
    ensures DealtRecord(less, keys, g, r, done) == r
    ensures DealtRecord(less, keys, g, r, done + {id}) == if merged.Some? then merged.value else r
  {
  }

  lemma {:induction false} DealtOutside(less: Order, keys: seq<Key>, g: Graph, r: Record, done: set<string>, id: string)
    requires AllIn(keys, g) && r.gid != Some(id)
    ensures DealtRecord(less, keys, g, r, done + {id}) == DealtRecord(less, keys, g, r, done)
  {
  }

  lemma {:induction false} DealtMore(less: Order, keys: seq<Key>, before: Graph, now: Graph, done: set<string>,
                                     id: string, merged: Option<Record>)
    requires Dealt(less, keys, before, now, done) && id !in done && Lists(keys, before)
    requires merged.Some? <==> Unites(keys, before, id)
    requires merged.Some? ==> merged.value == UnitedRecord(less, keys, before, id)
    ensures Dealt(less, keys, before, Replace(now, Group(keys, before, id), merged), done + {id})
  {
    var group, after := Group(keys, before, id), Replace(now, Group(keys, before, id), merged);
    forall k | k in before
      ensures after[k] == DealtRecord(less, keys, before, before[k], done + {id})
    {
      InGroupIff(keys, before, id, k);
      assert now[k] == DealtRecord(less, keys, before, before[k], done);
      if before[k].gid == Some(id) {
        DealtInGroup(less, keys, before, before[k], done, id, merged);
      } else {
        DealtOutside(less, keys, before, before[k], done, id);
      }
    }
  }

  type IdTest = string -> bool

  /** Whether a pass unites the group of an identifier. */
  ghost function IsUnited(keys: seq<Key>, before: Graph): IdTest
    requires AllIn(keys, before)
  {
    (id: string) => AllIn(keys, before) && Unites(keys, before, id)
  }

  ghost function Picked(ids: set<string>, p: IdTest): set<string> {
    set id | id in ids && p(id)
  }

  /** The keys under these identifiers. */
  ghost function KeysOf(g: Graph, ids: set<string>): set<Key> {
    set k | k in g && g[k].gid.Some? && g[k].gid.value in ids
  }

  ghost function Members(g: Graph, id: string): set<Key> {
    set k | k in g && g[k].gid == Some(id)
  }

  lemma {:induction false} NoRepeats(group: seq<Key>, members: set<Key>)
    requires forall i, j :: 0 <= i < j < |group| ==> group[i] != group[j]
    requires forall k :: k in members <==> k in group
    ensures |members| == |group|
  {
    if group != [] {
      var init, last := group[..|group| - 1], group[|group| - 1];
      assert group == init + [last];
      NoRepeats(init, members - {last});
    }
  }

  lemma {:induction false} GroupApart(keys: seq<Key>, g: Graph, id: string)
    requires AllIn(keys, g) && forall i, j :: 0 <= i < j < |keys| ==> keys[i] != keys[j]
    ensures AllIn(Group(keys, g, id), g)
    ensures forall i, j :: 0 <= i < j < |Group(keys, g, id)| ==> Group(keys, g, id)[i] != Group(keys, g, id)[j]
  {
    GroupIn(keys, g, id);
    if keys != [] {
      var init, last := keys[..|keys| - 1], keys[|keys| - 1];
      GroupApart(init, g, id);
      assert forall i :: 0 <= i < |init| ==> init[i] == keys[i];
      assert last !in init;
      var group := Group(init, g, id);
      forall i | 0 <= i < |group|
        ensures group[i] != last
      {
        assert group[i] in group;
      }
    }
  }

  lemma {:induction false} GroupSize(keys: seq<Key>, g: Graph, id: string)
    requires Lists(keys, g)
    ensures |Members(g, id)| == |Group(keys, g, id)|
  {
    GroupApart(keys, g, id);
    forall k
      ensures k in Members(g, id) <==> k in Group(keys, g, id)
    {
      if k in g {
        InGroupIff(keys, g, id, k);
      }
    }
    NoRepeats(Group(keys, g, id), Members(g, id));
  }

  /** One more identifier adds itself and its keys, if it passes. */
  lemma {:induction false} PickedNext(g: Graph, p: IdTest, done: set<string>, id: string)
    requires id !in done
    ensures |Picked(done + {id}, p)| == |Picked(done, p)| + if p(id) then 1 else 0
    ensures |KeysOf(g, Picked(done + {id}, p))| == |KeysOf(g, Picked(done, p))| + if p(id) then |Members(g, id)| else 0
  {
    if p(id) {
      assert Picked(done + {id}, p) == Picked(done, p) + {id};
      assert KeysOf(g, Picked(done, p) + {id}) == KeysOf(g, Picked(done, p)) + Members(g, id);
    } else {
      assert Picked(done + {id}, p) == Picked(done, p);
    }
  }

  ghost predicate Counted(g: Graph, p: IdTest, done: set<string>, groups: nat, affected: nat) {
    groups == |Picked(done, p)| && affected == |KeysOf(g, Picked(done, p))|
  }

  lemma {:induction false} CountedNext(keys: seq<Key>, g: Graph, p: IdTest, done: set<string>, id: string, groups: nat,
                                       affected: nat)
    requires Lists(keys, g) && Counted(g, p, done, groups, affected) && id !in done
    ensures if p(id) then Counted(g, p, done + {id}, groups + 1, affected + |Group(keys, g, id)|)
            else Counted(g, p, done + {id}, groups, affected)
  {
    PickedNext(g, p, done, id);
    GroupSize(keys, g, id);
  }

  lemma GroupAt(keys: seq<Key>, before: Graph, groups: Groups, id: string)
    requires Grouped(keys, before, groups) && id in groups
    ensures id != "" && groups[id] == Group(keys, before, id)
  {
    assert GroupedAt(keys, before, groups, id);
  }

  lemma NoneCounted(g: Graph, p: IdTest)
    ensures Counted(g, p, {}, 0, 0)
  {
    assert Picked({}, p) == {} && KeysOf(g, {}) == {};
  }

  method DealWith(less: Order, keys: seq<Key>, ghost before: Graph, now: Graph, ghost done: set<string>, id: string,
                  group: seq<Key>, groups: nat, affected: nat)
    returns (byName: Graph, groupsChanged: nat, keysAffected: nat)
    requires Dealt(less, keys, before, now, done) && id !in done && id != "" && group == Group(keys, before, id)
    requires Lists(keys, before) && Counted(before, IsUnited(keys, before), done, groups, affected)
    ensures Dealt(less, keys, before, byName, done + {id})
    ensures Counted(before, IsUnited(keys, before), done + {id}, groupsChanged, keysAffected)
  {
    UntouchedGroup(less, keys, before, now, done, id);
    var merged := UniteIfNeeded(less, now, group);
    if merged.Some? {
      SameUnion(less, keys, before, now, id);
    }
    DealtMore(less, keys, before, now, done, id, merged);
    CountedNext(keys, before, IsUnited(keys, before), done, id, groups, affected);
    byName := Replace(now, group, merged);
    groupsChanged, keysAffected := groups, affected;
    if merged.Some? {
      groupsChanged, keysAffected := groups + 1, affected + |group|;
    }
  }

  lemma MovedOver(todo: set<string>, done: set<string>, id: string)
    requires todo !! done && id in todo
    ensures (todo - {id}) + (done + {id}) == todo + done && (todo - {id}) !! (done + {id}) && id !in done
  {
  }

  method MergeEach(less: Order, keys: seq<Key>, before: Graph, groups: Groups)
    returns (byName: Graph, groupsChanged: nat, keysAffected: nat)
    requires Lists(keys, before) && Grouped(keys, before, groups)
    ensures Dealt(less, keys, before, byName, groups.Keys)
    ensures Counted(before, IsUnited(keys, before), groups.Keys, groupsChanged, keysAffected)
  {
    byName, groupsChanged, keysAffected := before, 0, 0;
    NoneCounted(before, IsUnited(keys, before));
    var todo: set<string>, done: set<string> := groups.Keys, {};
    while todo != {}
      invariant todo + done == groups.Keys && todo !! done
      invariant Dealt(less, keys, before, byName, done)
      invariant Counted(before, IsUnited(keys, before), done, groupsChanged, keysAffected)
      decreases todo
    {
      var id :| id in todo;
      GroupAt(keys, before, groups, id);
      MovedOver(todo, done, id);
      byName, groupsChanged, keysAffected :=
        DealWith(less, keys, before, byName, done, id, groups[id], groupsChanged, keysAffected);
      todo, done := todo - {id}, done + {id};
    }
    assert done == groups.Keys;
  }

  /** The identifiers whose groups a pass unites. */
  ghost function UnitedIds(keys: seq<Key>, g: Graph): set<string>
    requires AllIn(keys, g)
  {
    set k | k in g && g[k].gid.Some? && Unites(keys, g, g[k].gid.value) :: g[k].gid.value
  }

  lemma {:induction false} UnitedIsUsed(keys: seq<Key>, g: Graph, id: string) returns (i: nat)
    requires AllIn(keys, g) && Unites(keys, g, id)
    ensures i < |keys| && g[keys[i]].gid == Some(id)
  {
    var k := Group(keys, g, id)[0];
    assert k in Group(keys, g, id);
    i :| 0 <= i < |keys| && keys[i] == k;
  }

  lemma {:induction false} AllPicked(keys: seq<Key>, before: Graph, groups: Groups)
    requires Lists(keys, before) && Grouped(keys, before, groups)
    ensures Picked(groups.Keys, IsUnited(keys, before)) == UnitedIds(keys, before)
    ensures PassChanges(keys, before) <==> UnitedIds(keys, before) != {}
  {
    var p := IsUnited(keys, before);
    forall id | Unites(keys, before, id)
      ensures id in groups.Keys && id in UnitedIds(keys, before) && PassChanges(keys, before)
    {
      assert GroupedAt(keys, before, groups, id);
      var i := UnitedIsUsed(keys, before, id);
    }
    forall id
      ensures id in Picked(groups.Keys, p) <==> id in UnitedIds(keys, before)
    {
    }
  }

  lemma AllDealt(less: Order, keys: seq<Key>, before: Graph, now: Graph, done: set<string>, groups: Groups)
    requires Lists(keys, before) && Grouped(keys, before, groups) && done == groups.Keys
    requires Dealt(less, keys, before, now, done)
    ensures now == MergePass(less, keys, before)
  {
    forall id | Unites(keys, before, id)
      ensures id in done
    {
      assert GroupedAt(keys, before, groups, id);
    }
    forall k | k in before
      ensures now[k] == PassRecord(less, keys, before, before[k])
    {
    }
  }

  /** `merge_alias_groups`; groups do not overlap, so they are taken in any order. */
  method MergeAliasGroups(less: Order, keys: seq<Key>, before: Graph)
    returns (byName: Graph, groupsChanged: nat, keysAffected: nat)
    requires Lists(keys, before)
    ensures byName == MergePass(less, keys, before)
    ensures groupsChanged == |UnitedIds(keys, before)| && (groupsChanged > 0 <==> PassChanges(keys, before))
    ensures keysAffected == |KeysOf(before, UnitedIds(keys, before))|
  {
    var groups := GroupByIdentifier(keys, before);
    byName, groupsChanged, keysAffected := MergeEach(less, keys, before, groups);
    AllDealt(less, keys, before, byName, groups.Keys, groups);
    AllPicked(keys, before, groups);
  }

  // ---- To a fixed point ----

  const MAX_PASSES: nat := 8

  method AssignAll(h: IdFunction, keys: seq<Key>, before: Graph) returns (byName: Graph)
    requires Lists(keys, before)
    ensures byName == AssignIds(h, before)
  {
    byName := before;
    for i := 0 to |keys|
      invariant byName.Keys == before.Keys
      invariant forall j :: 0 <= j < |keys|
                 ==> byName[keys[j]] == if j < i then WithId(h, before[keys[j]]) else before[keys[j]]
    {
      byName := byName[keys[i] := WithId(h, byName[keys[i]])];
    }
    forall k | k in before
      ensures byName[k] == WithId(h, before[k])
    {
      var j := PositionOf(keys, before, k);
    }
  }

  /** Assign, merge, re-assign until nothing changes; give up after the cap, which stops the build.  The cap is never
      hit up to eight distinct records, nor if identifiers tell apart the dates they are derived from. */
  method CollapseAliases(h: IdFunction, less: Order, keys: seq<Key>, before: Graph) returns (byName: Graph, ok: bool)
    requires Lists(keys, before)
    ensures ok <==> PassesNeeded(h, less, keys, before) <= 8
    ensures ok ==> byName == SettledGraph(h, less, keys, before) && Settled(h, byName)
    ensures Distinct(before) <= 8 ==> ok
    ensures Convergence.Separates(h, before) ==> ok
    ensures Lists(keys, byName)
  {
    if Convergence.Separates(h, before) {
      Convergence.TwoPassesSuffice(h, less, keys, before);
    }
    byName := before;
    for pass := 0 to MAX_PASSES
      invariant Lists(keys, byName)
      invariant PassesNeeded(h, less, keys, before) == pass + PassesNeeded(h, less, keys, byName)
      invariant SettledGraph(h, less, keys, before) == SettledGraph(h, less, keys, byName)
    {
      byName := AssignAll(h, keys, byName);
      var groupsChanged, keysAffected;
      ghost var withIds := byName;
      byName, groupsChanged, keysAffected := MergeAliasGroups(less, keys, byName);
      if groupsChanged == 0 {
        QuietPass(less, keys, withIds);
        SettledFacts(h, less, keys, before);
        return byName, true;
      }
    }
    ok := false;
  }

  // ---- The reverse index ----

  /** The first listed key that carries `id`. */
  function FirstKey(keys: seq<Key>, g: Graph, id: string): (first: Option<Key>)
    requires AllIn(keys, g)
    ensures first.Some? ==> first.value in g && g[first.value].gid == Some(id)
  {
    if keys == [] then None
    else
      var before, last := FirstKey(keys[..|keys| - 1], g, id), keys[|keys| - 1];
      if before.None? && g[last].gid == Some(id) then Some(last) else before
  }

  lemma {:induction false} FirstKeyExists(keys: seq<Key>, g: Graph, i: nat, id: string)
    requires AllIn(keys, g) && i < |keys| && g[keys[i]].gid == Some(id)
    ensures FirstKey(keys, g, id).Some?
  {
    if i < |keys| - 1 {
      FirstKeyExists(keys[..|keys| - 1], g, i, id);
    }
  }

  function Lookup(index: Index, id: string): Option<Key> {
    if id in index then Some(index[id]) else None
  }

  lemma IndexFacts(keys: seq<Key>, g: Graph, index: Index)
    requires Lists(keys, g) && forall id :: Lookup(index, id) == FirstKey(keys, g, id)
    ensures IndexOf(g, index) && TotalIndex(g, index)
  {
    forall id | id in index
      ensures index[id] in g && g[index[id]].gid == Some(id)
    {
      assert Lookup(index, id) == FirstKey(keys, g, id);
    }
    forall k | k in g && HasId(g[k])
      ensures g[k].gid.value in index
    {
      var i := PositionOf(keys, g, k);
      FirstKeyExists(keys, g, i, g[k].gid.value);
      assert Lookup(index, g[k].gid.value) == FirstKey(keys, g, g[k].gid.value);
    }
  }

  /** First key wins, in insertion order; the index knows every identifier, and each entry is right. */
  method BuildIndex(keys: seq<Key>, g: Graph) returns (index: Index)
    requires Lists(keys, g)
    ensures forall id :: Lookup(index, id) == FirstKey(keys, g, id)
    ensures IndexOf(g, index) && TotalIndex(g, index)
  {
    index := map[];
    for i := 0 to |keys|
      invariant forall id :: Lookup(index, id) == FirstKey(keys[..i], g, id)
    {
      assert keys[..i + 1][..i] == keys[..i];
      var gid := g[keys[i]].gid;
      if gid.Some? && gid.value !in index {
        assert Lookup(index, gid.value) == None;
        index := index[gid.value := keys[i]];
      }
    }
    assert keys[..|keys|] == keys;
    IndexFacts(keys, g, index);
  }

  // ---- Erasure ----

  /** Identifiers of the listed keys among `names`. */
  function IdsAmong(keys: seq<Key>, g: Graph, names: set<Key>): set<string>
    requires AllIn(keys, g)
  {
    set j | 0 <= j < |keys| && keys[j] in names && HasId(g[keys[j]]) :: g[keys[j]].gid.value
  }

  /** The listed keys that carry one of `ids`. */
  function KeysUnder(keys: seq<Key>, g: Graph, ids: set<string>): set<Key>
    requires AllIn(keys, g)
  {
    set j | 0 <= j < |keys| && CarriesOneOf(g[keys[j]], ids) :: keys[j]
  }

  lemma IdsAmongAre(keys: seq<Key>, g: Graph, names: set<Key>)
    requires Lists(keys, g)
    ensures IdsAmong(keys, g, names) == set k | k in g && k in names && HasId(g[k]) :: g[k].gid.value
  {
    forall k | k in g && k in names && HasId(g[k])
      ensures g[k].gid.value in IdsAmong(keys, g, names)
    {
      var j := PositionOf(keys, g, k);
    }
  }

  lemma KeysUnderAre(keys: seq<Key>, g: Graph, ids: set<string>)
    requires Lists(keys, g)
    ensures KeysUnder(keys, g, ids) == set k | k in g && CarriesOneOf(g[k], ids)
  {
    forall k | k in g && CarriesOneOf(g[k], ids)
      ensures k in KeysUnder(keys, g, ids)
    {
      var j := PositionOf(keys, g, k);
    }
  }

  method CollectIds(keys: seq<Key>, g: Graph, names: set<Key>, listed: set<string>) returns (ids: set<string>)
    requires AllIn(keys, g)
    ensures ids == listed + IdsAmong(keys, g, names)
  {
    ids := listed;
    for i := 0 to |keys|
      invariant ids == listed + IdsAmong(keys[..i], g, names)
    {
      if keys[i] in names && HasId(g[keys[i]]) {
        ids := ids + {g[keys[i]].gid.value};
      }
    }
    assert keys[..|keys|] == keys;
  }

  method CollectKeys(keys: seq<Key>, g: Graph, ids: set<string>, listed: set<Key>) returns (names: set<Key>)
    requires AllIn(keys, g)
    ensures names == listed + KeysUnder(keys, g, ids)
  {
    names := listed;
    for i := 0 to |keys|
      invariant names == listed + KeysUnder(keys[..i], g, ids)
    {
      if CarriesOneOf(g[keys[i]], ids) {
        names := names + {keys[i]};
      }
    }
    assert keys[..|keys|] == keys;
  }

  /** Identifiers and names on the list, then the identifiers of listed names, then all their keys. */
  method CollectSuppressed(keys: seq<Key>, g: Graph, requests: Requests) returns (names: set<Key>, ids: set<string>)
    requires Lists(keys, g)
    ensures names == SuppressedKeys(g, requests) && ids == SuppressedIds(g, requests)
  {
    ids := CollectIds(keys, g, ListedKeys(requests), ListedIds(requests));
    IdsAmongAre(keys, g, ListedKeys(requests));
    names := CollectKeys(keys, g, ids, ListedKeys(requests));
    KeysUnderAre(keys, g, ids);
  }

  function NotIn(g: Graph, names: set<Key>, ids: set<string>): Key -> bool {
    k => !(k in names || (k in g && CarriesOneOf(g[k], ids)))
  }

  lemma {:induction false} KeepLists(keys: seq<Key>, g: Graph, p: Key -> bool)
    requires Lists(keys, g)
    ensures Lists(Keep(keys, p), map k | k in g && p(k) :: g[k])
  {
    KeepFacts(keys, p);
    KeepInjective(keys, p, k => k);
    forall k
      ensures k in Keep(keys, p) <==> k in g && p(k)
    {
      assert k in keys <==> k in g;
    }
  }

  /** What is left of the dictionary once the listed keys that fail the test are deleted. */
  function Left(keys: seq<Key>, g: Graph, p: Key -> bool): Graph {
    if keys == [] then g
    else
      var before, k := Left(keys[..|keys| - 1], g, p), keys[|keys| - 1];
      if p(k) then before else before - {k}
  }

  lemma {:induction false} LeftIs(keys: seq<Key>, g: Graph, p: Key -> bool)
    ensures Left(keys, g, p) == map k | k in g && (p(k) || k !in keys) :: g[k]
  {
    if keys != [] {
      LeftIs(keys[..|keys| - 1], g, p);
      assert keys == keys[..|keys| - 1] + [keys[|keys| - 1]];
    }
  }

  /** Identifiers of the listed keys that fail the test. */
  function Popped(keys: seq<Key>, g: Graph, p: Key -> bool): set<string>
    requires AllIn(keys, g)
  {
    if keys == [] then {}
    else
      var k := keys[|keys| - 1];
      Popped(keys[..|keys| - 1], g, p) + if !p(k) && g[k].gid.Some? then {g[k].gid.value} else {}
  }

  lemma {:induction false} PoppedIs(keys: seq<Key>, g: Graph, p: Key -> bool, id: string)
    requires AllIn(keys, g)
    ensures id in Popped(keys, g, p) <==> exists i :: 0 <= i < |keys| && !p(keys[i]) && g[keys[i]].gid == Some(id)
  {
    if keys != [] {
      var init := keys[..|keys| - 1];
      PoppedIs(init, g, p, id);
      if i :| 0 <= i < |init| && !p(init[i]) && g[init[i]].gid == Some(id) {
        assert !p(keys[i]) && g[keys[i]].gid == Some(id);
      }
    }
  }

  lemma PrefixStep(keys: seq<Key>, g: Graph, p: Key -> bool, i: nat)
    requires AllIn(keys, g) && i < |keys|
    ensures var k := keys[i];
            && Keep(keys[..i + 1], p) == Keep(keys[..i], p) + (if p(k) then [k] else [])
            && Left(keys[..i + 1], g, p) == (if p(k) then Left(keys[..i], g, p) else Left(keys[..i], g, p) - {k})
            && Popped(keys[..i + 1], g, p)
               == Popped(keys[..i], g, p) + if !p(k) && g[k].gid.Some? then {g[k].gid.value} else {}
  {
    assert keys[..i + 1][..i] == keys[..i];
  }

  lemma MinusMore(index: Index, ids: set<string>, id: string)
    ensures (index - ids) - {id} == index - (ids + {id})
  {
  }

  /** Delete the suppressed keys and their index entries. */
  method DeleteSuppressed(keys: seq<Key>, g: Graph, index: Index, names: set<Key>, ids: set<string>)
    returns (keys': seq<Key>, byName: Graph, byGid: Index, removed: nat)
    requires AllIn(keys, g)
    ensures keys' == Keep(keys, NotIn(g, names, ids))
    ensures byName == Left(keys, g, NotIn(g, names, ids))
    ensures byGid == index - Popped(keys, g, NotIn(g, names, ids))
    ensures removed == |keys| - |keys'|
  {
    keys', byName, byGid, removed := [], g, index, 0;
    ghost var p := NotIn(g, names, ids);
    ghost var popped: set<string> := {};
    for i := 0 to |keys|
      invariant keys' == Keep(keys[..i], p) && removed == i - |keys'|
      invariant byName == Left(keys[..i], g, p)
      invariant popped == Popped(keys[..i], g, p) && byGid == index - popped
    {
      var k := keys[i];
      PrefixStep(keys, g, p, i);
      var gone := k in names || CarriesOneOf(g[k], ids);
      assert gone <==> !p(k);
      if gone {
        if g[k].gid.Some? {
          MinusMore(index, popped, g[k].gid.value);
          byGid, popped := byGid - {g[k].gid.value}, popped + {g[k].gid.value};
        }
        byName := byName - {k};
        removed := removed + 1;
      } else {
        keys' := keys' + [k];
      }
    }
    assert keys[..|keys|] == keys;
  }

  function Lost(r: Record, names: set<Key>): int {
    |AdvisorsOf(r)| - |Unlisted(AdvisorsOf(r), names)|
  }

  /** Advisor references dropped over the listed records. */
  function LostOver(keys: seq<Key>, g: Graph, names: set<Key>): int
    requires AllIn(keys, g)
  {
    if keys == [] then 0 else LostOver(keys[..|keys| - 1], g, names) + Lost(g[keys[|keys| - 1]], names)
  }

  function ScrubbedGraph(g: Graph, names: set<Key>): Graph {
    map k | k in g :: Scrub(g[k], names)
  }

  /** References before are the references after plus those scrubbed. */
  lemma {:induction false} ScrubTotals(keys: seq<Key>, g: Graph, names: set<Key>)
    requires AllIn(keys, g)
    ensures AllIn(keys, ScrubbedGraph(g, names))
    ensures Passes.SumOver(keys, g, Passes.Entries)
            == Passes.SumOver(keys, ScrubbedGraph(g, names), Passes.Entries) + LostOver(keys, g, names)
  {
    if keys != [] {
      var k := keys[|keys| - 1];
      ScrubTotals(keys[..|keys| - 1], g, names);
      ScrubEdges(g[k], names);
      Passes.SumSnoc(keys, g, Passes.Entries);
      Passes.SumSnoc(keys, ScrubbedGraph(g, names), Passes.Entries);
    }
  }

  method ScrubOne(r: Record, names: set<Key>) returns (scrubbed: Record, lost: int)
    ensures scrubbed == Scrub(r, names) && lost == Lost(r, names)
  {
    var kept := Unlisted(AdvisorsOf(r), names);
    scrubbed, lost := r, |AdvisorsOf(r)| - |kept|;
    if lost != 0 {
      scrubbed := r.(advisors := if kept == [] then None else Some(kept));
    }
  }

  /** Scrub the advisor lists of the records that are left. */
  method ScrubAll(keys: seq<Key>, before: Graph, names: set<Key>) returns (byName: Graph, scrubbedRefs: int)
    requires Lists(keys, before)
    ensures byName == ScrubbedGraph(before, names)
    ensures scrubbedRefs == LostOver(keys, before, names)
  {
    byName, scrubbedRefs := before, 0;
    ghost var update: Passes.Update := (k, r) => Scrub(r, names);
    for i := 0 to |keys|
      invariant Passes.Partway(keys, before, byName, i, update)
      invariant scrubbedRefs == LostOver(keys[..i], before, names)
    {
      var k := keys[i];
      Passes.NextUpdate(keys, before, byName, i, update);
      assert keys[..i + 1][..i] == keys[..i];
      var scrubbed, n := ScrubOne(byName[k], names);
      assert scrubbed == update(k, before[k]);
      scrubbedRefs := scrubbedRefs + n;
      byName := byName[k := scrubbed];
    }
    Passes.AllUpdated(keys, before, byName, update);
    assert byName == ScrubbedGraph(before, names);
    assert keys[..|keys|] == keys;
  }

  lemma LeftListed(keys: seq<Key>, g: Graph, p: Key -> bool)
    requires Lists(keys, g)
    ensures Lists(Keep(keys, p), Left(keys, g, p)) && Left(keys, g, p) == map k | k in g && p(k) :: g[k]
  {
    LeftIs(keys, g, p);
    KeepLists(keys, g, p);
    assert forall k :: k in g ==> k in keys;
    assert Left(keys, g, p) == map k | k in g && p(k) :: g[k];
  }

  /** Deleting the suppressed keys and scrubbing the rest is the erasure of the graph. */
  lemma {:induction false} ErasedGraphIs(keys: seq<Key>, g: Graph, requests: Requests)
    requires Lists(keys, g)
    ensures var names, ids := SuppressedKeys(g, requests), SuppressedIds(g, requests);
            SuppressGraph(g, requests) == ScrubbedGraph(Left(keys, g, NotIn(g, names, ids)), names)
  {
    var p := NotIn(g, SuppressedKeys(g, requests), SuppressedIds(g, requests));
    LeftListed(keys, g, p);
  }

  /** Popping the identifiers of deleted keys is the erasure of the index. */
  lemma {:induction false} ErasedIndexIs(keys: seq<Key>, g: Graph, requests: Requests)
    requires Lists(keys, g)
    ensures Popped(keys, g, NotIn(g, SuppressedKeys(g, requests), SuppressedIds(g, requests)))
        == RemovedIds(g, requests)
  {
    var p := NotIn(g, SuppressedKeys(g, requests), SuppressedIds(g, requests));
    forall id
      ensures id in Popped(keys, g, p) <==> id in RemovedIds(g, requests)
    {
      PoppedIs(keys, g, p, id);
      if k :| k in g && Removed(g, requests, k) && g[k].gid == Some(id) {
        var i := PositionOf(keys, g, k);
        assert !p(keys[i]);
      }
    }
  }

  lemma {:induction false} SumAgrees(keys: seq<Key>, g: Graph, g': Graph)
    requires AllIn(keys, g) && AllIn(keys, g') && forall i :: 0 <= i < |keys| ==> g[keys[i]] == g'[keys[i]]
    ensures Passes.SumOver(keys, g, Passes.Entries) == Passes.SumOver(keys, g', Passes.Entries)
  {
    if keys != [] {
      SumAgrees(keys[..|keys| - 1], g, g');
    }
  }

  /** `apply_suppression_list` */
  method ApplySuppressionList(keys: seq<Key>, g: Graph, index: Index, requests: Requests)
    returns (keys': seq<Key>, byName: Graph, byGid: Index, removed: nat, scrubbedRefs: int)
    requires Lists(keys, g)
    ensures byName == SuppressGraph(g, requests) && byGid == SuppressIndex(g, index, requests)
    ensures Lists(keys', byName) && removed == |keys| - |keys'| && AllIn(keys', g)
    ensures keys' == Keep(keys, LeftIn(byName))
    ensures scrubbedRefs == Passes.SumOver(keys', g, Passes.Entries) - Passes.SumOver(keys', byName, Passes.Entries)
  {
    var names, ids := CollectSuppressed(keys, g, requests);
    ghost var p := NotIn(g, names, ids);
    ErasedGraphIs(keys, g, requests);
    ErasedIndexIs(keys, g, requests);
    LeftListed(keys, g, p);
    KeepAgrees(keys, p, LeftIn(SuppressGraph(g, requests)));
    keys', byName, byGid, removed := DeleteSuppressed(keys, g, index, names, ids);
    ScrubTotals(keys', byName, names);
    SumAgrees(keys', g, byName);
    byName, scrubbedRefs := ScrubAll(keys', byName, names);
  }
}

/** Which record of a group wins.  The build orders a group by `Before`; here the order is said in terms of the
    records themselves, and so are the fields, institution and source parts of the record that replaces the group.
    */
module Precedence {
  import opened Names
  import opened Options
  import opened Records
  import opened AliasMerge
  import opened Retraction
  import Convergence

  // ---- What the order looks at ----

  /** The record carries an external identifier: it is citable. */
  predicate Citable(r: Record) {
    exists f :: f in {"QID", "IdRef"} && f in r.fields && r.fields[f] != Null && r.fields[f] != Text("")
                && r.fields[f] != Items([])
  }

  /** Nothing but references to the name stands behind the record. */
  predicate OnlyReferenced(r: Record) {
    |r.source| > 0
    && forall part :: part in r.source ==> part == "curated stub" || part == "referenced advisor (no metadata)"
  }

  function Entry(name: string, present: bool): set<string> {
    if present then {name} else {}
  }

  /** The entries of the record's dictionary that are not plain fields. */
  function SpecialEntries(r: Record): set<string> {
    Entry("Advisors", r.advisors != None) + Entry("Institution", r.institution != None)
    + Entry("Source", r.source != []) + Entry("GlobalID", r.gid != None)
  }

  function EntryCount(r: Record): nat {
    |r.fields.Keys| + |SpecialEntries(r)|
  }

  /** `a` comes strictly before `b` in the dictionary order of texts. */
  ghost predicate Precedes(a: string, b: string) {
    exists n: nat :: n <= |a| && n < |b| && a[..n] == b[..n] && (n == |a| || a[n] < b[n])
  }

  /** Citable before not citable; then a named source before mere references; then more entries; then the key. */
  ghost predicate Outranks(k: Key, r: Record, k': Key, r': Record) {
    || (Citable(r) && !Citable(r'))
    || ((Citable(r) <==> Citable(r'))
        && (|| (!OnlyReferenced(r) && OnlyReferenced(r'))
            || ((OnlyReferenced(r) <==> OnlyReferenced(r'))
                && (|| EntryCount(r) > EntryCount(r')
                    || (EntryCount(r) == EntryCount(r') && Precedes(KeyText(k), KeyText(k')))))))
  }

  lemma {:induction false} LessFrom(a: string, b: string, n: nat)
    requires n <= |a| && n < |b| && a[..n] == b[..n] && (n == |a| || a[n] < b[n])
    ensures TextLess(a, b)
  {
    if n > 0 {
      assert a[0] == a[..n][0] == b[..n][0] == b[0];
      assert a[1..][..n - 1] == a[..n][1..] == b[..n][1..] == b[1..][..n - 1];
      LessFrom(a[1..], b[1..], n - 1);
    }
  }

  lemma {:induction false} LessAt(a: string, b: string) returns (n: nat)
    requires TextLess(a, b)
    ensures n <= |a| && n < |b| && a[..n] == b[..n] && (n == |a| || a[n] < b[n])
  {
    if a == [] || a[0] < b[0] {
      n := 0;
    } else {
      var m := LessAt(a[1..], b[1..]);
      n := m + 1;
      assert a[..n] == [a[0]] + a[1..][..m] && b[..n] == [b[0]] + b[1..][..m];
    }
  }

  lemma {:induction false} TextLessIs(a: string, b: string)
    ensures TextLess(a, b) <==> Precedes(a, b)
  {
    if TextLess(a, b) {
      var n := LessAt(a, b);
    }
    if n: nat :| n <= |a| && n < |b| && a[..n] == b[..n] && (n == |a| || a[n] < b[n]) {
      LessFrom(a, b, n);
    }
  }

  lemma {:induction false} CitableIs(r: Record)
    ensures Citable(r) <==> Identified(r)
  {
    assert Identified(r) && !EmptyValue(Get(r, "QID")) ==> "QID" in r.fields;
    assert Identified(r) && !EmptyValue(Get(r, "IdRef")) ==> "IdRef" in r.fields;
  }

  lemma {:induction false} OnlyReferencedIs(r: Record)
    ensures OnlyReferenced(r) <==> IsStubSource(r.source)
  {
    if IsStubSource(r.source) {
      forall part | part in r.source
        ensures part == "curated stub" || part == "referenced advisor (no metadata)"
      {
        var i :| 0 <= i < |r.source| && r.source[i] == part;
      }
    }
    if OnlyReferenced(r) {
      assert forall i :: 0 <= i < |r.source| ==> r.source[i] in r.source;
    }
  }

  lemma {:induction false} OneMore(entries: set<string>, name: string, present: bool)
    requires name !in entries
    ensures |entries + Entry(name, present)| == |entries| + if present then 1 else 0
  {
    assert entries + {} == entries;
  }

  lemma {:induction false} FourEntries(a: string, b: string, c: string, d: string, pa: bool, pb: bool, pc: bool,
                                           pd: bool)
    requires a != b && a != c && a != d && b != c && b != d && c != d
    ensures |Entry(a, pa) + Entry(b, pb) + Entry(c, pc) + Entry(d, pd)|
         == (if pa then 1 else 0) + (if pb then 1 else 0) + (if pc then 1 else 0) + if pd then 1 else 0
  {
    OneMore(Entry(a, pa), b, pb);
    OneMore(Entry(a, pa) + Entry(b, pb), c, pc);
    OneMore(Entry(a, pa) + Entry(b, pb) + Entry(c, pc), d, pd);
  }

  lemma {:induction false} NamesDiffer()
    ensures "Advisors" != "Institution" && "Advisors" != "Source" && "Advisors" != "GlobalID"
    ensures "Institution" != "Source" && "Institution" != "GlobalID" && "Source" != "GlobalID"
  {
    assert "Advisors"[0] == 'A' && "Institution"[0] == 'I' && "Source"[0] == 'S' && "GlobalID"[0] == 'G';
  }

  lemma {:induction false} EntryCountIs(r: Record)
    ensures EntryCount(r) == Size(r)
  {
    NamesDiffer();
    FourEntries("Advisors", "Institution", "Source", "GlobalID", r.advisors != None, r.institution != None,
                r.source != [], r.gid != None);
  }

  /** The order of the build is this one. */
  lemma {:induction false} BeforeIs(k: Key, r: Record, k': Key, r': Record)
    ensures Before(k, r, k', r') <==> Outranks(k, r, k', r')
  {
    CitableIs(r);
    CitableIs(r');
    OnlyReferencedIs(r);
    OnlyReferencedIs(r');
    EntryCountIs(r);
    EntryCountIs(r');
    TextLessIs(KeyText(k), KeyText(k'));
  }

  // ---- What a united record takes from whom ----

  predicate Lacks(r: Record, f: string) {
    EmptyValue(Get(r, f))
  }

  /** Member `i` is the first that has the field. */
  ghost predicate FirstWith(g: Graph, ordered: seq<Key>, f: string, i: nat)
    requires AllIn(ordered, g)
  {
    i < |ordered| && !Lacks(g[ordered[i]], f) && forall j :: 0 <= j < i ==> Lacks(g[ordered[j]], f)
  }

  lemma {:induction false} UniteField(mine: Record, other: Record, f: string)
    ensures Get(Unite(mine, other), f) == if Lacks(mine, f) && !Lacks(other, f) then Get(other, f) else Get(mine, f)
    ensures f in Unite(mine, other).fields <==> f in mine.fields || !Lacks(other, f)
  {
  }

  /** A field that no member has stays as the first member has it. */
  lemma {:induction false} UnitedLacks(g: Graph, ordered: seq<Key>, f: string)
    requires ordered != [] && AllIn(ordered, g) && forall i :: 0 <= i < |ordered| ==> Lacks(g[ordered[i]], f)
    ensures Get(UniteAll(g, ordered), f) == Get(g[ordered[0]], f)
    ensures f in UniteAll(g, ordered).fields <==> f in g[ordered[0]].fields
  {
    var n := |ordered| - 1;
    if n > 0 {
      UnitedLacks(g, ordered[..n], f);
      UniteField(UniteAll(g, ordered[..n]), g[ordered[n]], f);
    }
  }

  /** Any other is that of the first member that has it. */
  lemma {:induction false} UnitedHas(g: Graph, ordered: seq<Key>, f: string, i: nat)
    requires AllIn(ordered, g) && FirstWith(g, ordered, f, i)
    ensures Get(UniteAll(g, ordered), f) == Get(g[ordered[i]], f)
  {
    var n := |ordered| - 1;
    if n > 0 {
      var init := ordered[..n];
      if i < n {
        UnitedHas(g, init, f, i);
      } else {
        UnitedLacks(g, init, f);
      }
      UniteField(UniteAll(g, init), g[ordered[n]], f);
    }
  }

  function Length(institution: Option<string>): nat {
    if institution.Some? then |institution.value| else 0
  }

  /** The institution of member `i` is the longest, and the first of that length. */
  ghost predicate FirstLongest(g: Graph, ordered: seq<Key>, i: nat)
    requires AllIn(ordered, g)
  {
    i < |ordered| && forall j :: 0 <= j < |ordered| ==>
      && Length(g[ordered[j]].institution) <= Length(g[ordered[i]].institution)
      && (j < i ==> Length(g[ordered[j]].institution) < Length(g[ordered[i]].institution))
  }

  lemma {:induction false} UniteAllInstitution(g: Graph, ordered: seq<Key>) returns (i: nat)
    requires ordered != [] && AllIn(ordered, g)
    ensures FirstLongest(g, ordered, i) && UniteAll(g, ordered).institution == g[ordered[i]].institution
  {
    var n := |ordered| - 1;
    if n == 0 {
      i := 0;
    } else {
      var init := ordered[..n];
      i := UniteAllInstitution(g, init);
      assert forall j :: 0 <= j < n ==> init[j] == ordered[j];
      if Length(g[ordered[n]].institution) > Length(g[ordered[i]].institution) {
        i := n;
      }
    }
  }

  lemma {:induction false} AddedParts(parts: seq<string>, more: seq<string>)
    ensures parts <= AddParts(parts, more)
    ensures forall m, n :: |parts| <= n < |AddParts(parts, more)| && 0 <= m < n
              ==> AddParts(parts, more)[m] != AddParts(parts, more)[n]
  {
    if more != [] {
      AddedParts(parts, more[..|more| - 1]);
    }
  }

  /** The source starts as the first member's, and takes up every other part of any member once. */
  lemma {:induction false} UniteAllSource(g: Graph, ordered: seq<Key>)
    requires ordered != [] && AllIn(ordered, g)
    ensures g[ordered[0]].source <= UniteAll(g, ordered).source
    ensures forall part :: part in UniteAll(g, ordered).source
                      <==> exists i :: 0 <= i < |ordered| && part in g[ordered[i]].source
    ensures forall m, n :: |g[ordered[0]].source| <= n < |UniteAll(g, ordered).source| && 0 <= m < n
              ==> UniteAll(g, ordered).source[m] != UniteAll(g, ordered).source[n]
  {
    var n := |ordered| - 1;
    if n > 0 {
      var init := ordered[..n];
      UniteAllSource(g, init);
      AddedParts(UniteAll(g, init).source, g[ordered[n]].source);
      PartsKept(UniteAll(g, init).source, g[ordered[n]].source);
      forall part
        ensures part in UniteAll(g, ordered).source <==> exists i :: 0 <= i < |ordered| && part in g[ordered[i]].source
      {
        if i :| 0 <= i < |init| && part in g[init[i]].source {
          assert part in g[ordered[i]].source;
        }
        if i :| 0 <= i < n && part in g[ordered[i]].source {
          assert part in g[init[i]].source;
        }
      }
    }
  }

  // ---- At the order of the build ----

  /** The members of a group, none of which outranks one before it. */
  ghost predicate Ranked(keys: seq<Key>, g: Graph, id: string, ordered: seq<Key>)
    requires AllIn(keys, g)
  {
    && ordered != [] && AllIn(ordered, g)
    && (forall k :: k in ordered <==> k in keys && k in g && g[k].gid == Some(id))
    && forall i, j :: 0 <= i < j < |ordered| ==> !Outranks(ordered[j], g[ordered[j]], ordered[i], g[ordered[i]])
  }

  /** The build unites the group in such an order. */
  lemma {:induction false} BuildOrder(keys: seq<Key>, g: Graph, id: string) returns (ordered: seq<Key>)
    requires AllIn(keys, g) && Unites(keys, g, id)
    ensures Ranked(keys, g, id, ordered) && UnitedRecord(Before, keys, g, id) == UniteAll(g, ordered)
  {
    BeforeIsStrictWeak();
    ordered := UnitedOrder(Before, keys, g, id);
    forall i, j | 0 <= i < j < |ordered|
      ensures !Outranks(ordered[j], g[ordered[j]], ordered[i], g[ordered[i]])
    {
      BeforeIs(ordered[j], g[ordered[j]], ordered[i], g[ordered[i]]);
    }
  }

  predicate Member(keys: seq<Key>, g: Graph, id: string, k: Key) {
    k in keys && k in g && g[k].gid == Some(id)
  }

  /** Conflicting fields come from one member.  It is citable if any is; of those it has a named source if any has; of
      those it has the most entries; and of those it has the least key. */
  lemma {:induction false} UnitedPrimary(keys: seq<Key>, g: Graph, id: string) returns (primary: Key)
    requires AllIn(keys, g) && Unites(keys, g, id)
    ensures Member(keys, g, id, primary)
    ensures forall f :: !Lacks(g[primary], f) ==> Get(UnitedRecord(Before, keys, g, id), f) == Get(g[primary], f)
    ensures forall k :: Member(keys, g, id, k) && k != primary ==>
      && (Citable(g[k]) ==> Citable(g[primary]))
      && ((Citable(g[k]) <==> Citable(g[primary])) ==>
            && (OnlyReferenced(g[primary]) ==> OnlyReferenced(g[k]))
            && ((OnlyReferenced(g[k]) <==> OnlyReferenced(g[primary])) ==>
                  && EntryCount(g[k]) <= EntryCount(g[primary])
                  && (EntryCount(g[k]) == EntryCount(g[primary]) ==> !Precedes(KeyText(k), KeyText(primary)))))
  {
    var ordered := BuildOrder(keys, g, id);
    primary := ordered[0];
    assert primary in ordered;
    forall f | !Lacks(g[primary], f)
      ensures Get(UnitedRecord(Before, keys, g, id), f) == Get(g[primary], f)
    {
      UnitedHas(g, ordered, f, 0);
    }
    forall k | Member(keys, g, id, k) && k != primary
      ensures !Outranks(k, g[k], primary, g[primary])
    {
      assert k in ordered;
      var j :| 0 <= j < |ordered| && ordered[j] == k;
      assert j > 0;
    }
  }

  /** The first of the first `n` members that has the field, or `n`. */
  function FirstHaving(g: Graph, ordered: seq<Key>, f: string, n: nat): (i: nat)
    requires AllIn(ordered, g) && n <= |ordered|
    ensures i <= n && forall j :: 0 <= j < i ==> Lacks(g[ordered[j]], f)
    ensures i < n ==> FirstWith(g, ordered, f, i)
  {
    if n == 0 then 0
    else
      var before := FirstHaving(g, ordered, f, n - 1);
      if before < n - 1 then before else if Lacks(g[ordered[n - 1]], f) then n else n - 1
  }

  lemma {:induction false} GiverIs(g: Graph, ordered: seq<Key>, f: string) returns (i: nat)
    requires ordered != [] && AllIn(ordered, g)
    ensures i < |ordered| && Get(UniteAll(g, ordered), f) == Get(g[ordered[i]], f)
    ensures forall j :: 0 <= j < |ordered| && j != i && !Lacks(g[ordered[j]], f) ==> i < j && !Lacks(g[ordered[i]], f)
  {
    i := FirstHaving(g, ordered, f, |ordered|);
    if i < |ordered| {
      UnitedHas(g, ordered, f, i);
    } else {
      i := 0;
      UnitedLacks(g, ordered, f);
    }
  }

  /** A field that some member has comes from one that has it, and that no other with the field outranks. */
  lemma {:induction false} UnitedField(keys: seq<Key>, g: Graph, id: string, f: string) returns (giver: Key)
    requires AllIn(keys, g) && Unites(keys, g, id)
    ensures Member(keys, g, id, giver)
    ensures Get(UnitedRecord(Before, keys, g, id), f) == Get(g[giver], f)
    ensures forall k :: Member(keys, g, id, k) && k != giver && !Lacks(g[k], f) ==>
              !Lacks(g[giver], f) && !Outranks(k, g[k], giver, g[giver])
  {
    var ordered := BuildOrder(keys, g, id);
    var i := GiverIs(g, ordered, f);
    giver := ordered[i];
    assert giver in ordered;
    forall k | Member(keys, g, id, k) && k != giver && !Lacks(g[k], f)
      ensures !Lacks(g[giver], f) && !Outranks(k, g[k], giver, g[giver])
    {
      assert k in ordered;
      var j :| 0 <= j < |ordered| && ordered[j] == k;
    }
  }

  // ---- After the alias loop ----

  lemma {:induction false} MembersAreMates(keys: seq<Key>, g: Graph, k: Key, id: string)
    requires Lists(keys, g) && k in g && g[k].gid == Some(id) && Unites(keys, g, id)
    ensures forall k' :: Mates(g, k, k') <==> Member(keys, g, id, k')
  {
    UnitedGroupAgrees(keys, g, k, id);
  }

  /** `giver` gives the field to the record of `k`: no mate that has it and another record outranks it. */
  ghost predicate Gives(g: Graph, k: Key, f: string, giver: Key) {
    && Mates(g, k, giver)
    && forall k' :: Mates(g, k, k') && g[k'] != g[giver] && !Lacks(g[k'], f) ==>
         !Lacks(g[giver], f) && !Outranks(k', g[k'], giver, g[giver])
  }

  lemma {:induction false} PassField(keys: seq<Key>, g: Graph, k: Key, f: string) returns (giver: Key)
    requires Lists(keys, g) && k in g
    ensures Gives(g, k, f, giver) && Get(MergePass(Before, keys, g)[k], f) == Get(g[giver], f)
  {
    if g[k].gid.Some? && Unites(keys, g, g[k].gid.value) {
      giver := UnitedField(keys, g, g[k].gid.value, f);
      MembersAreMates(keys, g, k, g[k].gid.value);
    } else {
      giver := k;
      forall k' | Mates(g, k, k')
        ensures g[k'] == g[k]
      {
        UntouchedMatesEqual(keys, g, k, k');
      }
    }
  }

  /** If identifiers tell dates apart, each field of a record is, after the loop, that of a spelling that has it and
      that no other spelling with the field outranks. */
  lemma {:induction false} SettledField(h: IdFunction, keys: seq<Key>, g: Graph, k: Key, f: string) returns (giver: Key)
    requires Lists(keys, g) && Convergence.Separates(h, g) && k in g
    ensures k in SettledGraph(h, Before, keys, g) && giver in g && Gives(AssignIds(h, g), k, f, giver)
    ensures Get(SettledGraph(h, Before, keys, g)[k], f) == Get(g[giver], f)
  {
    Convergence.TwoPassesSuffice(h, Before, keys, g);
    SameKeysListed(keys, g, AssignIds(h, g));
    giver := PassField(keys, AssignIds(h, g), k, f);
  }

  lemma {:induction false} PassRest(keys: seq<Key>, g: Graph, k: Key) returns (giver: Key)
    requires Lists(keys, g) && k in g
    ensures Mates(g, k, giver) && MergePass(Before, keys, g)[k].institution == g[giver].institution
    ensures forall k' :: Mates(g, k, k') ==> Length(g[k'].institution) <= Length(g[giver].institution)
    ensures forall part :: part in MergePass(Before, keys, g)[k].source
                      <==> exists k' :: Mates(g, k, k') && part in g[k'].source
  {
    if g[k].gid.Some? && Unites(keys, g, g[k].gid.value) {
      var ordered := BuildOrder(keys, g, g[k].gid.value);
      var i := UniteAllInstitution(g, ordered);
      giver := ordered[i];
      UniteAllSource(g, ordered);
      MembersAreMates(keys, g, k, g[k].gid.value);
      assert forall j :: 0 <= j < |ordered| ==> ordered[j] in ordered;
      assert forall k' :: Mates(g, k, k') ==> k' in ordered;
    } else {
      giver := k;
      forall k' | Mates(g, k, k')
        ensures g[k'] == g[k]
      {
        UntouchedMatesEqual(keys, g, k, k');
      }
      assert Mates(g, k, k);
    }
  }

  /** And its institution is a longest one, and its source has the parts of all spellings. */
  lemma {:induction false} SettledRest(h: IdFunction, keys: seq<Key>, g: Graph, k: Key) returns (giver: Key)
    requires Lists(keys, g) && Convergence.Separates(h, g) && k in g
    ensures k in SettledGraph(h, Before, keys, g) && giver in g && Mates(AssignIds(h, g), k, giver)
    ensures SettledGraph(h, Before, keys, g)[k].institution == g[giver].institution
    ensures forall k' :: k' in g && Mates(AssignIds(h, g), k, k') ==>
              Length(g[k'].institution) <= Length(g[giver].institution)
    ensures forall part :: part in SettledGraph(h, Before, keys, g)[k].source
                      <==> exists k' :: k' in g && Mates(AssignIds(h, g), k, k') && part in g[k'].source
  {
    var a := AssignIds(h, g);
    Convergence.TwoPassesSuffice(h, Before, keys, g);
    SameKeysListed(keys, g, a);
    giver := PassRest(keys, a, k);
    assert forall x :: x in g ==> a[x].institution == g[x].institution && a[x].source == g[x].source;
  }
}

/** Collapsing the keys that name one person onto one record (`_merge_rank` and `merge_alias_groups`), and
    the loop that repeats it until identifiers stop moving.

    The identifier of a record is an unspecified function of its canonical form and dates. */
module AliasMerge {
  import opened Names
  import opened Options
  import opened Edges
  import opened Records
  import opened MapImages

  predicate AllIn(keys: seq<Key>, g: Graph) {
    forall i :: 0 <= i < |keys| ==> keys[i] in g
  }

  type IdFunction = (Value, Value, Value) -> string

  // ---- Identifiers ----

  function CanonicalOf(r: Record): Value {
    if "CanonicalLatin" in r.fields then r.fields["CanonicalLatin"] else Text("")
  }

  function IdOf(h: IdFunction, r: Record): string {
    h(CanonicalOf(r), Get(r, "BirthYear"), Get(r, "DeathYear"))
  }

  function WithId(h: IdFunction, r: Record): Record {
    r.(gid := Some(IdOf(h, r)))
  }

  function AssignIds(h: IdFunction, g: Graph): Graph {
    map k | k in g :: WithId(h, g[k])
  }

  // ---- Precedence within a group ----

  predicate IsStubSource(source: seq<string>) {
    source != [] && forall i :: 0 <= i < |source| ==> source[i] in {"curated stub", "referenced advisor (no metadata)"}
  }

  /** Number of dictionary entries of the record. */
  function Size(r: Record): nat {
    |r.fields| + (if r.advisors.Some? then 1 else 0) + (if r.institution.Some? then 1 else 0)
    + (if r.source != [] then 1 else 0) + (if r.gid.Some? then 1 else 0)
  }

  predicate Identified(r: Record) {
    !EmptyValue(Get(r, "QID")) || !EmptyValue(Get(r, "IdRef"))
  }

  function Spaced(tokens: seq<string>): string {
    if tokens == [] then "" else if |tokens| == 1 then tokens[0] else tokens[0] + " " + Spaced(tokens[1..])
  }

  function KeyText(k: Key): string {
    match k
    case Plain(tokens) => Spaced(tokens)
    case Inverted(surname, given) => Spaced(surname) + ", " + Spaced(given)
  }

  predicate TextLess(a: string, b: string) {
    b != [] && (a == [] || a[0] < b[0] || (a[0] == b[0] && TextLess(a[1..], b[1..])))
  }

  /** `(k, r)` sorts before `(k', r')`: identified first, stubs last, then larger, then by key. */
  predicate Before(k: Key, r: Record, k': Key, r': Record) {
    if Identified(r) != Identified(r') then Identified(r)
    else if IsStubSource(r.source) != IsStubSource(r'.source) then !IsStubSource(r.source)
    else if Size(r) != Size(r') then Size(r) > Size(r')
    else TextLess(KeyText(k), KeyText(k'))
  }

  type Order = (Key, Record, Key, Record) -> bool

  /** Put `k` behind everything it does not sort before. */
  function Insert(less: Order, g: Graph, sorted: seq<Key>, k: Key): (r: seq<Key>)
    requires k in g && forall i :: 0 <= i < |sorted| ==> sorted[i] in g
    ensures |r| == |sorted| + 1
    ensures forall x :: x in r <==> x == k || x in sorted
  {
    if sorted == [] then [k]
    else
      var last := sorted[|sorted| - 1];
      assert sorted == sorted[..|sorted| - 1] + [last];
      if less(k, g[k], last, g[last]) then Insert(less, g, sorted[..|sorted| - 1], k) + [last]
      else sorted + [k]
  }

  /** A stable insertion sort. */
  function Sorted(less: Order, g: Graph, keys: seq<Key>): (r: seq<Key>)
    requires forall i :: 0 <= i < |keys| ==> keys[i] in g
    ensures |r| == |keys|
    ensures forall x :: x in r <==> x in keys
  {
    if keys == [] then []
    else
      var before, last := keys[..|keys| - 1], keys[|keys| - 1];
      var init := Sorted(less, g, before);
      assert keys == before + [last];
      assert forall x :: x in before ==> x in keys && x in g;
      assert forall i :: 0 <= i < |init| ==> init[i] in init && init[i] in before;
      Insert(less, g, init, last)
  }

  // ---- The order is one, and the sort respects it ----

  lemma {:induction false} TextLessAsymmetric(a: string, b: string)
    ensures !(TextLess(a, b) && TextLess(b, a))
  {
    if a != [] && b != [] {
      TextLessAsymmetric(a[1..], b[1..]);
    }
  }

  lemma {:induction false} TextNotLessTransitive(a: string, b: string, c: string)
    requires !TextLess(a, b) && !TextLess(b, c)
    ensures !TextLess(a, c)
  {
    if a != [] && b != [] && c != [] && a[0] == b[0] == c[0] {
      TextNotLessTransitive(a[1..], b[1..], c[1..]);
    }
  }

  ghost predicate StrictWeak(less: Order) {
    && (forall k, r, k', r' :: !(less(k, r, k', r') && less(k', r', k, r)))
    && forall k, r, k', r', k'', r'' :: !less(k, r, k', r') && !less(k', r', k'', r'') ==> !less(k, r, k'', r'')
  }

  lemma BeforeIsStrictWeak()
    ensures StrictWeak(Before)
  {
    forall k, r, k', r'
      ensures !(Before(k, r, k', r') && Before(k', r', k, r))
    {
      TextLessAsymmetric(KeyText(k), KeyText(k'));
    }
    forall k, r, k', r', k'', r'' | !Before(k, r, k', r') && !Before(k', r', k'', r'')
      ensures !Before(k, r, k'', r'')
    {
      if !TextLess(KeyText(k), KeyText(k')) && !TextLess(KeyText(k'), KeyText(k'')) {
        TextNotLessTransitive(KeyText(k), KeyText(k'), KeyText(k''));
      }
    }
  }

  // ---- The order is total on the keys the build makes ----

  /** A token as the tokenizer leaves it. */
  predicate CleanToken(t: string) {
    t != "" && ' ' !in t && ',' !in t
  }

  predicate CleanTokens(tokens: seq<string>) {
    forall i :: 0 <= i < |tokens| ==> CleanToken(tokens[i])
  }

  predicate CleanKey(k: Key) {
    match k
    case Plain(tokens) => CleanTokens(tokens)
    case Inverted(surname, given) => CleanTokens(surname) && CleanTokens(given)
  }

  /** The text opens with its first token, which ends with the text or before a space. */
  lemma {:induction false} FirstToken(tokens: seq<string>)
    requires tokens != [] && CleanTokens(tokens)
    ensures tokens[0] <= Spaced(tokens) && CleanToken(tokens[0]) && Spaced(tokens) != ""
    ensures |tokens| > 1 ==> Spaced(tokens)[|tokens[0]|..] == " " + Spaced(tokens[1..])
    ensures |tokens| == 1 ==> Spaced(tokens) == tokens[0]
  {
    if |tokens| > 1 {
      assert Spaced(tokens) == tokens[0] + (" " + Spaced(tokens[1..]));
    }
  }

  lemma NowhereIn(text: string, c: char)
    requires c !in text
    ensures forall i :: 0 <= i < |text| ==> text[i] != c
  {
    forall i | 0 <= i < |text|
      ensures text[i] in text
    {
    }
  }

  lemma {:induction false} NoShorterToken(s: string, t: string, text: string)
    requires s <= text && t <= text && CleanToken(t)
    requires |s| == |text| || (|s| < |text| && text[|s|] == ' ')
    ensures |t| <= |s|
  {
    NowhereIn(t, ' ');
    assert forall i :: 0 <= i < |t| ==> text[i] == t[i];
  }

  lemma {:induction false} SpacedInjective(a: seq<string>, b: seq<string>)
    requires CleanTokens(a) && CleanTokens(b) && Spaced(a) == Spaced(b)
    ensures a == b
  {
    if a == [] || b == [] {
      if a != [] { FirstToken(a); }
      if b != [] { FirstToken(b); }
    } else {
      var text := Spaced(a);
      FirstToken(a);
      FirstToken(b);
      assert |a| > 1 ==> text[|a[0]|..][0] == ' ';
      assert |b| > 1 ==> text[|b[0]|..][0] == ' ';
      NoShorterToken(a[0], b[0], text);
      NoShorterToken(b[0], a[0], text);
      assert a[0] == text[..|a[0]|] == b[0];
      if |a| > 1 && |b| > 1 {
        assert (" " + Spaced(a[1..]))[1..] == Spaced(a[1..]) && (" " + Spaced(b[1..]))[1..] == Spaced(b[1..]);
        SpacedInjective(a[1..], b[1..]);
      }
      assert a == [a[0]] + a[1..] && b == [b[0]] + b[1..];
    }
  }

  lemma {:induction false} SpacedHasNoComma(tokens: seq<string>)
    requires CleanTokens(tokens)
    ensures ',' !in Spaced(tokens)
  {
    if |tokens| > 1 {
      SpacedHasNoComma(tokens[1..]);
    }
  }

  lemma {:induction false} CommaIsNoLater(a: string, b: string, text: string)
    requires ',' !in a && a <= text && |b| < |text| && text[|b|] == ','
    ensures |a| <= |b|
  {
    NowhereIn(a, ',');
    assert forall i :: 0 <= i < |a| ==> text[i] == a[i];
  }

  /** Around the only comma of two texts the parts agree. */
  lemma {:induction false} SplitAtComma(a: string, b: string, c: string, d: string)
    requires ',' !in a && ',' !in c && a + ", " + b == c + ", " + d
    ensures a == c && b == d
  {
    var text := a + ", " + b;
    assert text[|a|] == ',' && text[|c|] == ',' && a <= text && c <= text;
    CommaIsNoLater(a, c, text);
    CommaIsNoLater(c, a, text);
    assert a == text[..|a|] == c;
    assert b == text[|a| + 2..] == d;
  }

  lemma {:induction false} CommaIsInverted(k: Key)
    requires CleanKey(k)
    ensures ',' in KeyText(k) <==> k.Inverted?
  {
    match k
    case Plain(tokens) => SpacedHasNoComma(tokens);
    case Inverted(surname, given) => assert KeyText(k)[|Spaced(surname)|] == ',';
  }

  /** Different keys are different texts. */
  lemma {:induction false} KeyTextInjective(k: Key, k': Key)
    requires CleanKey(k) && CleanKey(k') && KeyText(k) == KeyText(k')
    ensures k == k'
  {
    CommaIsInverted(k);
    CommaIsInverted(k');
    if k.Plain? {
      SpacedInjective(k.tokens, k'.tokens);
    } else {
      SpacedHasNoComma(k.surname);
      SpacedHasNoComma(k'.surname);
      SplitAtComma(Spaced(k.surname), Spaced(k.given), Spaced(k'.surname), Spaced(k'.given));
      SpacedInjective(k.surname, k'.surname);
      SpacedInjective(k.given, k'.given);
    }
  }

  lemma {:induction false} TextOrderTotal(a: string, b: string)
    requires a != b
    ensures TextLess(a, b) || TextLess(b, a)
  {
    if a != [] && b != [] && a[0] == b[0] {
      assert a == [a[0]] + a[1..] && b == [b[0]] + b[1..];
      TextOrderTotal(a[1..], b[1..]);
    }
  }

  /** Of two records under different keys exactly one sorts before the other. */
  lemma {:induction false} BeforeIsTotal(k: Key, r: Record, k': Key, r': Record)
    requires CleanKey(k) && CleanKey(k') && k != k'
    ensures Before(k, r, k', r') <==> !Before(k', r', k, r)
  {
    if KeyText(k) == KeyText(k') {
      KeyTextInjective(k, k');
    }
    TextOrderTotal(KeyText(k), KeyText(k'));
    TextLessAsymmetric(KeyText(k), KeyText(k'));
  }

  /** Nothing sorts before what stands ahead of it. */
  ghost predicate InOrder(less: Order, g: Graph, keys: seq<Key>)
    requires AllIn(keys, g)
  {
    forall i, j :: 0 <= i < j < |keys| ==> !less(keys[j], g[keys[j]], keys[i], g[keys[i]])
  }

  lemma {:induction false} InsertInOrder(less: Order, g: Graph, sorted: seq<Key>, k: Key)
    requires StrictWeak(less) && AllIn(sorted, g) && InOrder(less, g, sorted) && k in g
    ensures AllIn(Insert(less, g, sorted, k), g) && InOrder(less, g, Insert(less, g, sorted, k))
  {
    if sorted != [] {
      var n := |sorted| - 1;
      var init, last := sorted[..n], sorted[n];
      if less(k, g[k], last, g[last]) {
        InsertInOrder(less, g, init, k);
        var left := Insert(less, g, init, k);
        forall i | 0 <= i < |left|
          ensures !less(last, g[last], left[i], g[left[i]])
        {
          assert left[i] in left;
          if left[i] != k {
            var j :| 0 <= j < |init| && init[j] == left[i];
          }
        }
      } else {
        forall i | 0 <= i < |sorted|
          ensures !less(k, g[k], sorted[i], g[sorted[i]])
        {
          assert i < n ==> !less(last, g[last], sorted[i], g[sorted[i]]);
        }
      }
    }
  }

  /** The sort puts a record first that no other of the group outranks. */
  lemma {:induction false} SortedInOrder(less: Order, g: Graph, keys: seq<Key>)
    requires StrictWeak(less) && AllIn(keys, g)
    ensures AllIn(Sorted(less, g, keys), g) && InOrder(less, g, Sorted(less, g, keys))
  {
    if keys != [] {
      SortedInOrder(less, g, keys[..|keys| - 1]);
      InsertInOrder(less, g, Sorted(less, g, keys[..|keys| - 1]), keys[|keys| - 1]);
    }
  }

  // ---- Uniting records ----

  function FillFields(mine: map<string, Value>, other: map<string, Value>): map<string, Value> {
    map f | f in mine.Keys + other.Keys && (f in mine || !EmptyValue(other[f])) ::
      if f in mine && (!EmptyValue(mine[f]) || f !in other || EmptyValue(other[f])) then mine[f] else other[f]
  }

  function Richer(mine: Option<string>, other: Option<string>): Option<string> {
    if other.Some? && |other.value| > (if mine.Some? then |mine.value| else 0) then other else mine
  }

  function AddParts(parts: seq<string>, more: seq<string>): seq<string> {
    if more == [] then parts
    else
      var sofar, part := AddParts(parts, more[..|more| - 1]), more[|more| - 1];
      if part in sofar then sofar else sofar + [part]
  }

  /** Fill what `mine` lacks from `other`; edges are fused, sources accumulate. */
  function Unite(mine: Record, other: Record): Record {
    Record(
      FillFields(mine.fields, other.fields),
      if AdvisorsOf(other) == [] then mine.advisors else Some(MergedEdges(AdvisorsOf(mine), AdvisorsOf(other))),
      Richer(mine.institution, other.institution),
      AddParts(mine.source, other.source),
      mine.gid)
  }

  /** The first record, united with the others in turn. */
  function UniteAll(g: Graph, ordered: seq<Key>): (r: Record)
    requires ordered != [] && forall i :: 0 <= i < |ordered| ==> ordered[i] in g
    ensures r.gid == g[ordered[0]].gid
  {
    if |ordered| == 1 then g[ordered[0]]
    else Unite(UniteAll(g, ordered[..|ordered| - 1]), g[ordered[|ordered| - 1]])
  }

  // ---- Groups ----

  /** The keys that carry identifier `id`, in dictionary order. */
  function Group(keys: seq<Key>, g: Graph, id: string): (group: seq<Key>)
    requires forall i :: 0 <= i < |keys| ==> keys[i] in g
    ensures forall k :: k in group <==> k in keys && k in g && g[k].gid == Some(id)
  {
    if keys == [] then []
    else
      var init, last := keys[..|keys| - 1], keys[|keys| - 1];
      assert keys == init + [last];
      Group(init, g, id) + if g[last].gid == Some(id) then [last] else []
  }

  lemma GroupIn(keys: seq<Key>, a: Graph, id: string)
    requires AllIn(keys, a)
    ensures AllIn(Group(keys, a, id), a)
    ensures forall i :: 0 <= i < |Group(keys, a, id)| ==> a[Group(keys, a, id)[i]].gid == Some(id)
  {
    var group := Group(keys, a, id);
    assert forall i :: 0 <= i < |group| ==> group[i] in group;
  }

  /** The records of the group agree on the canonical form: not a hash collision. */
  predicate OneForm(group: seq<Key>, g: Graph)
    requires AllIn(group, g)
  {
    forall i, j :: 0 <= i < |group| && 0 <= j < |group|
        ==> Get(g[group[i]], "CanonicalLatin") == Get(g[group[j]], "CanonicalLatin")
  }

  /** All keys of the group hold one record already. */
  predicate Uniform(group: seq<Key>, g: Graph)
    requires AllIn(group, g)
  {
    forall i, j :: 0 <= i < |group| && 0 <= j < |group| ==> g[group[i]] == g[group[j]]
  }

  /** The pass unites this group. */
  predicate Unites(keys: seq<Key>, g: Graph, id: string)
    requires AllIn(keys, g)
  {
    var group := Group(keys, g, id);
    assert forall i :: 0 <= i < |group| ==> group[i] in group;
    id != "" && |group| >= 2 && OneForm(group, g) && !Uniform(group, g)
  }

  /** The one record that every key of a united group gets. */
  function UnitedRecord(less: Order, keys: seq<Key>, g: Graph, id: string): (r: Record)
    requires AllIn(keys, g) && Unites(keys, g, id)
    ensures r.gid == Some(id)
  {
    var group := Group(keys, g, id);
    assert forall i :: 0 <= i < |group| ==> group[i] in group;
    var ordered := Sorted(less, g, group);
    assert forall i :: 0 <= i < |ordered| ==> ordered[i] in ordered;
    UniteAll(g, ordered)
  }

  function PassRecord(less: Order, keys: seq<Key>, g: Graph, r: Record): Record
    requires AllIn(keys, g)
  {
    if r.gid.Some? && Unites(keys, g, r.gid.value) then UnitedRecord(less, keys, g, r.gid.value) else r
  }

  function MergePass(less: Order, keys: seq<Key>, g: Graph): Graph
    requires AllIn(keys, g)
  {
    map k | k in g :: PassRecord(less, keys, g, g[k])
  }

  predicate PassChanges(keys: seq<Key>, g: Graph)
    requires AllIn(keys, g)
  {
    exists i :: 0 <= i < |keys| && g[keys[i]].gid.Some? && Unites(keys, g, g[keys[i]].gid.value)
  }

  // ---- What a union keeps ----

  type EdgeFact = Edge -> bool

  ghost predicate Has(edges: seq<Edge>, fact: EdgeFact) {
    exists i :: 0 <= i < |edges| && fact(edges[i])
  }

  /** `s` is the edge's own source. */
  function Owning(s: Source): EdgeFact {
    (e: Edge) => e.source == Some(s)
  }

  /** `s` is in the edge's accumulated list. */
  function Listing(s: Source): EdgeFact {
    (e: Edge) => s in e.sources
  }

  /** `s` is on record one way or the other. */
  function Citing(s: Source): EdgeFact {
    (e: Edge) => e.source == Some(s) || s in e.sources
  }

  function Bearing(qid: string): EdgeFact {
    (e: Edge) => e.qid == Some(qid)
  }

  /** Fusing a claim takes no such fact away and adds just the claim's. */
  ghost predicate Additive(fact: EdgeFact, claimed: EdgeFact) {
    forall slots, inc :: Has(MergeOne(slots, inc), fact) <==> Has(slots, fact) || claimed(inc)
  }

  lemma {:induction false} HasSnoc(edges: seq<Edge>, e: Edge, fact: EdgeFact)
    ensures Has(edges + [e], fact) <==> Has(edges, fact) || fact(e)
  {
    if i :| 0 <= i < |edges| && fact(edges[i]) {
      assert fact((edges + [e])[i]);
    }
    assert (edges + [e])[|edges|] == e;
  }

  lemma {:induction false} MergeAllHas(fact: EdgeFact, claimed: EdgeFact, slots: seq<Edge>, incoming: seq<Edge>)
    requires Additive(fact, claimed)
    ensures Has(MergeAll(slots, incoming), fact) <==> Has(slots, fact) || Has(incoming, claimed)
    decreases |incoming|
  {
    if incoming != [] {
      var n := |incoming| - 1;
      MergeAllHas(fact, claimed, slots, incoming[..n]);
      HasSnoc(incoming[..n], incoming[n], claimed);
      assert incoming == incoming[..n] + [incoming[n]];
      assert Has(MergeOne(MergeAll(slots, incoming[..n]), incoming[n]), fact)
          <==> Has(MergeAll(slots, incoming[..n]), fact) || claimed(incoming[n]);
    }
  }

  /** Replacing one edge by one that has the fact if the old one or the claim does. */
  lemma {:induction false} HasUpdate(edges: seq<Edge>, at: nat, e: Edge, fact: EdgeFact, claimed: bool)
    requires at < |edges| && (fact(e) <==> fact(edges[at]) || claimed)
    ensures Has(edges[at := e], fact) <==> Has(edges, fact) || claimed
  {
    var after := edges[at := e];
    assert after[at] == e;
    if i :| 0 <= i < |edges| && fact(edges[i]) {
      assert fact(after[i]);
    }
    if i :| 0 <= i < |after| && fact(after[i]) {
      assert i != at ==> fact(edges[i]);
    }
  }

  lemma {:induction false} MergeOneLists(slots: seq<Edge>, inc: Edge, s: Source)
    ensures Has(MergeOne(slots, inc), Listing(s)) <==> Has(slots, Listing(s)) || Owning(s)(inc)
  {
    var at := FirstMatch(slots, inc);
    if at == |slots| {
      HasSnoc(slots, Opened(inc), Listing(s));
    } else {
      HasUpdate(slots, at, Absorb(slots[at], inc), Listing(s), Owning(s)(inc));
    }
  }

  lemma {:induction false} SourcesAdditive(s: Source)
    ensures Additive(Listing(s), Owning(s))
  {
    forall slots, inc
      ensures Has(MergeOne(slots, inc), Listing(s)) <==> Has(slots, Listing(s)) || Owning(s)(inc)
    {
      MergeOneLists(slots, inc, s);
    }
  }

  lemma {:induction false} MergeOneBears(slots: seq<Edge>, inc: Edge, qid: string)
    ensures Has(MergeOne(slots, inc), Bearing(qid)) <==> Has(slots, Bearing(qid)) || Bearing(qid)(inc)
  {
    var at := FirstMatch(slots, inc);
    if at == |slots| {
      HasSnoc(slots, Opened(inc), Bearing(qid));
    } else {
      AbsorbKeepsIdentity(slots[at], inc);
      HasUpdate(slots, at, Absorb(slots[at], inc), Bearing(qid), Bearing(qid)(inc));
    }
  }

  lemma {:induction false} QidsAdditive(qid: string)
    ensures Additive(Bearing(qid), Bearing(qid))
  {
    forall slots, inc
      ensures Has(MergeOne(slots, inc), Bearing(qid)) <==> Has(slots, Bearing(qid)) || Bearing(qid)(inc)
    {
      MergeOneBears(slots, inc, qid);
    }
  }

  /** Every slot has its own source on record. */
  ghost predicate SelfRecorded(slots: seq<Edge>) {
    forall i :: 0 <= i < |slots| ==> OnRecord(slots[i]) == slots[i]
  }

  lemma {:induction false} AbsorbSelfRecorded(cur: Edge, inc: Edge)
    requires OnRecord(cur) == cur
    ensures OnRecord(Absorb(cur, inc)) == Absorb(cur, inc)
  {
  }

  lemma {:induction false} MergeOneSelfRecorded(slots: seq<Edge>, inc: Edge)
    requires SelfRecorded(slots)
    ensures SelfRecorded(MergeOne(slots, inc))
  {
    var at := FirstMatch(slots, inc);
    if at < |slots| {
      AbsorbSelfRecorded(slots[at], inc);
    }
  }

  lemma {:induction false} MergeSelfRecorded(slots: seq<Edge>, incoming: seq<Edge>)
    requires SelfRecorded(slots)
    ensures SelfRecorded(MergeAll(slots, incoming))
    decreases |incoming|
  {
    if incoming != [] {
      MergeSelfRecorded(slots, incoming[..|incoming| - 1]);
      MergeOneSelfRecorded(MergeAll(slots, incoming[..|incoming| - 1]), incoming[|incoming| - 1]);
    }
  }

  lemma {:induction false} OnRecordHas(edges: seq<Edge>, s: Source)
    ensures SelfRecorded(AllOnRecord(edges))
    ensures Has(AllOnRecord(edges), Listing(s)) <==> Has(edges, Citing(s))
  {
    var recorded := AllOnRecord(edges);
    forall i | 0 <= i < |edges|
      ensures Listing(s)(recorded[i]) <==> Citing(s)(edges[i])
    {
    }
  }

  lemma {:induction false} SelfRecordedHas(slots: seq<Edge>, s: Source)
    requires SelfRecorded(slots)
    ensures Has(slots, Listing(s)) <==> Has(slots, Citing(s))
  {
    forall i | 0 <= i < |slots|
      ensures Listing(s)(slots[i]) <==> Citing(s)(slots[i])
    {
    }
  }

  /** Edges that are not the first record's bring their own sources, but not the lists they have accumulated. */
  lemma {:induction false} UniteHasSource(mine: Record, other: Record, s: Source)
    ensures Has(AdvisorsOf(Unite(mine, other)), Citing(s))
       <==> Has(AdvisorsOf(mine), Citing(s)) || Has(AdvisorsOf(other), Owning(s))
  {
    var slots, incoming := AllOnRecord(AdvisorsOf(mine)), AdvisorsOf(other);
    if incoming != [] {
      OnRecordHas(AdvisorsOf(mine), s);
      SourcesAdditive(s);
      MergeAllHas(Listing(s), Owning(s), slots, incoming);
      MergeSelfRecorded(slots, incoming);
      SelfRecordedHas(MergeAll(slots, incoming), s);
    }
  }

  lemma {:induction false} UniteHasQid(mine: Record, other: Record, qid: string)
    ensures Has(AdvisorsOf(Unite(mine, other)), Bearing(qid))
       <==> Has(AdvisorsOf(mine), Bearing(qid)) || Has(AdvisorsOf(other), Bearing(qid))
  {
    var slots := AllOnRecord(AdvisorsOf(mine));
    if AdvisorsOf(other) != [] {
      forall i | 0 <= i < |slots|
        ensures Bearing(qid)(slots[i]) <==> Bearing(qid)(AdvisorsOf(mine)[i])
      {
      }
      assert Has(slots, Bearing(qid)) <==> Has(AdvisorsOf(mine), Bearing(qid));
      QidsAdditive(qid);
      MergeAllHas(Bearing(qid), Bearing(qid), slots, AdvisorsOf(other));
    }
  }

  /** One of the records from position `from` on has an edge of the kind. */
  ghost predicate SomeHas(g: Graph, ordered: seq<Key>, from: nat, fact: EdgeFact)
    requires AllIn(ordered, g)
  {
    exists i :: from <= i < |ordered| && Has(AdvisorsOf(g[ordered[i]]), fact)
  }

  lemma {:induction false} SomeHasSnoc(g: Graph, ordered: seq<Key>, from: nat, fact: EdgeFact)
    requires AllIn(ordered, g) && from < |ordered|
    ensures var n := |ordered| - 1;
            SomeHas(g, ordered, from, fact)
            <==> SomeHas(g, ordered[..n], from, fact) || Has(AdvisorsOf(g[ordered[n]]), fact)
  {
    var n := |ordered| - 1;
    if i :| from <= i < n && Has(AdvisorsOf(g[ordered[..n][i]]), fact) {
      assert Has(AdvisorsOf(g[ordered[i]]), fact);
    }
    if i :| from <= i < n && Has(AdvisorsOf(g[ordered[i]]), fact) {
      assert ordered[..n][i] == ordered[i];
    }
  }

  /** A united record cites exactly the sources its first record has on record and those that edges of the others
      have as their own. */
  lemma {:induction false} UniteAllSources(g: Graph, ordered: seq<Key>, s: Source)
    requires ordered != [] && AllIn(ordered, g)
    ensures Has(AdvisorsOf(UniteAll(g, ordered)), Citing(s))
       <==> Has(AdvisorsOf(g[ordered[0]]), Citing(s)) || SomeHas(g, ordered, 1, Owning(s))
  {
    if |ordered| > 1 {
      var n := |ordered| - 1;
      UniteAllSources(g, ordered[..n], s);
      SomeHasSnoc(g, ordered, 1, Owning(s));
      UniteHasSource(UniteAll(g, ordered[..n]), g[ordered[n]], s);
    }
  }

  /** It bears exactly the QIDs that edges of its members do. */
  lemma {:induction false} UniteAllQids(g: Graph, ordered: seq<Key>, qid: string)
    requires ordered != [] && AllIn(ordered, g)
    ensures Has(AdvisorsOf(UniteAll(g, ordered)), Bearing(qid)) <==> SomeHas(g, ordered, 0, Bearing(qid))
  {
    var n := |ordered| - 1;
    SomeHasSnoc(g, ordered, 0, Bearing(qid));
    if n > 0 {
      UniteAllQids(g, ordered[..n], qid);
      UniteHasQid(UniteAll(g, ordered[..n]), g[ordered[n]], qid);
    } else {
      assert !SomeHas(g, ordered[..n], 0, Bearing(qid));
    }
  }

  /** `u` has something for every field and source part that `r` has, and an institution no shorter. */
  ghost predicate CoversFields(r: Record, u: Record) {
    && (forall f :: !EmptyValue(Get(r, f)) ==> !EmptyValue(Get(u, f)))
    && (forall p :: p in r.source ==> p in u.source)
    && (r.institution.Some? && r.institution.value != ""
        ==> u.institution.Some? && |u.institution.value| >= |r.institution.value|)
  }

  /** Every QID and every edge's own source that `r` has is on some edge of `u`. */
  ghost predicate CoversEdges(r: Record, u: Record) {
    && (forall s :: Has(AdvisorsOf(r), Owning(s)) ==> Has(AdvisorsOf(u), Citing(s)))
    && forall q :: Has(AdvisorsOf(r), Bearing(q)) ==> Has(AdvisorsOf(u), Bearing(q))
  }

  lemma {:induction false} PartsKept(parts: seq<string>, more: seq<string>)
    ensures forall p :: p in AddParts(parts, more) <==> p in parts || p in more
  {
    if more != [] {
      PartsKept(parts, more[..|more| - 1]);
      assert more == more[..|more| - 1] + [more[|more| - 1]];
    }
  }

  /** What `r` or `mine` has, their union has. */
  lemma {:induction false} UniteCoversFields(r: Record, mine: Record, other: Record)
    requires CoversFields(r, mine) || r == other
    ensures CoversFields(r, Unite(mine, other))
  {
    PartsKept(mine.source, other.source);
  }

  /** The record with precedence keeps every value it has; nothing any other record has goes missing. */
  lemma {:induction false} UniteAllCovers(g: Graph, ordered: seq<Key>, i: nat)
    requires i < |ordered| && AllIn(ordered, g)
    ensures CoversFields(g[ordered[i]], UniteAll(g, ordered))
    ensures forall f :: !EmptyValue(Get(g[ordered[0]], f)) ==> Get(UniteAll(g, ordered), f) == Get(g[ordered[0]], f)
  {
    if |ordered| > 1 {
      var n := |ordered| - 1;
      UniteAllCovers(g, ordered[..n], if i < n then i else 0);
      UniteCoversFields(g[ordered[i]], UniteAll(g, ordered[..n]), g[ordered[n]]);
    }
  }

  lemma {:induction false} UniteAllCoversEdges(g: Graph, ordered: seq<Key>, i: nat)
    requires i < |ordered| && AllIn(ordered, g)
    ensures CoversEdges(g[ordered[i]], UniteAll(g, ordered))
  {
    var r := g[ordered[i]];
    forall s | Has(AdvisorsOf(r), Owning(s))
      ensures Has(AdvisorsOf(UniteAll(g, ordered)), Citing(s))
    {
      var j :| 0 <= j < |AdvisorsOf(r)| && Owning(s)(AdvisorsOf(r)[j]);
      assert Citing(s)(AdvisorsOf(r)[j]);
      UniteAllSources(g, ordered, s);
    }
    forall q | Has(AdvisorsOf(r), Bearing(q))
      ensures Has(AdvisorsOf(UniteAll(g, ordered)), Bearing(q))
    {
      UniteAllQids(g, ordered, q);
    }
  }

  /** The keys of a united group in order of precedence, the records of which make the united one. */
  lemma {:induction false} UnitedOrder(less: Order, keys: seq<Key>, g: Graph, id: string) returns (ordered: seq<Key>)
    requires AllIn(keys, g) && Unites(keys, g, id)
    ensures ordered != [] && AllIn(ordered, g) && UnitedRecord(less, keys, g, id) == UniteAll(g, ordered)
    ensures forall k :: k in ordered <==> k in keys && k in g && g[k].gid == Some(id)
    ensures StrictWeak(less) ==> InOrder(less, g, ordered)
  {
    GroupIn(keys, g, id);
    ordered := Sorted(less, g, Group(keys, g, id));
    assert forall i :: 0 <= i < |ordered| ==> ordered[i] in ordered;
    if StrictWeak(less) {
      SortedInOrder(less, g, Group(keys, g, id));
    }
  }

  /** Every record of a united group is covered by the one that replaces it. */
  lemma {:induction false} UnitedCovers(less: Order, keys: seq<Key>, g: Graph, k: Key)
    requires Lists(keys, g) && k in g && g[k].gid.Some? && Unites(keys, g, g[k].gid.value)
    ensures CoversFields(g[k], UnitedRecord(less, keys, g, g[k].gid.value))
    ensures CoversEdges(g[k], UnitedRecord(less, keys, g, g[k].gid.value))
  {
    var ordered := UnitedOrder(less, keys, g, g[k].gid.value);
    assert k in keys && k in ordered;
    var i :| 0 <= i < |ordered| && ordered[i] == k;
    UniteAllCovers(g, ordered, i);
    UniteAllCoversEdges(g, ordered, i);
  }

  /** The united record takes its conflicting fields from a member that no other outranks. */
  lemma {:induction false} UnitedPrecedence(less: Order, keys: seq<Key>, g: Graph, id: string) returns (primary: Key)
    requires StrictWeak(less) && AllIn(keys, g) && Unites(keys, g, id)
    ensures primary in Group(keys, g, id) && primary in g
    ensures forall k :: k in Group(keys, g, id) && k in g ==> k == primary || !less(k, g[k], primary, g[primary])
    ensures forall f :: !EmptyValue(Get(g[primary], f))
              ==> Get(UnitedRecord(less, keys, g, id), f) == Get(g[primary], f)
  {
    var ordered := UnitedOrder(less, keys, g, id);
    primary := ordered[0];
    UniteAllCovers(g, ordered, 0);
    assert primary in ordered;
    forall k | k in Group(keys, g, id) && k in g && k != primary
      ensures !less(k, g[k], primary, g[primary])
    {
      assert k in ordered;
      var j :| 0 <= j < |ordered| && ordered[j] == k;
      assert j > 0;
    }
  }

  // ---- The number of distinct records falls ----

  lemma AssignIdsShrinks(h: IdFunction, g: Graph)
    ensures Distinct(AssignIds(h, g)) <= Distinct(g)
  {
    ImageShrinks(g, AssignIds(h, g));
  }

  lemma UnitedGroupIsOne(less: Order, keys: seq<Key>, g: Graph, id: string) returns (k: Key, k': Key)
    requires AllIn(keys, g) && Unites(keys, g, id)
    ensures k in g && k' in g && g[k] != g[k'] && g[k].gid == g[k'].gid == Some(id)
    ensures MergePass(less, keys, g)[k] == MergePass(less, keys, g)[k']
  {
    var group := Group(keys, g, id);
    assert forall i :: 0 <= i < |group| ==> group[i] in group;
    var i, j :| 0 <= i < |group| && 0 <= j < |group| && g[group[i]] != g[group[j]];
    k, k' := group[i], group[j];
  }

  lemma QuietPass(less: Order, keys: seq<Key>, g: Graph)
    requires Lists(keys, g) && !PassChanges(keys, g)
    ensures MergePass(less, keys, g) == g
  {
    forall k | k in g
      ensures PassRecord(less, keys, g, g[k]) == g[k]
    {
      var i := PositionOf(keys, g, k);
    }
  }

  /** A pass never splits equal records, and a pass that unites a group leaves fewer distinct ones. */
  lemma MergePassShrinks(less: Order, keys: seq<Key>, g: Graph)
    requires Lists(keys, g)
    ensures Distinct(MergePass(less, keys, g)) <= Distinct(g)
    ensures PassChanges(keys, g) ==> Distinct(MergePass(less, keys, g)) < Distinct(g)
  {
    ImageShrinks(g, MergePass(less, keys, g));
    if n :| 0 <= n < |keys| && g[keys[n]].gid.Some? && Unites(keys, g, g[keys[n]].gid.value) {
      var k, k' := UnitedGroupIsOne(less, keys, g, g[keys[n]].gid.value);
      ImageMerges(g, MergePass(less, keys, g), k, k');
    }
  }

  // ---- The loop ----

  lemma {:induction false} SameGroup(keys: seq<Key>, g: Graph, g': Graph, id: string)
    requires AllIn(keys, g) && AllIn(keys, g') && forall i :: 0 <= i < |keys| ==> g'[keys[i]].gid == g[keys[i]].gid
    ensures Group(keys, g', id) == Group(keys, g, id)
  {
    if keys != [] {
      SameGroup(keys[..|keys| - 1], g, g', id);
    }
  }

  lemma UnchangedGroup(group: seq<Key>, g: Graph, g': Graph)
    requires AllIn(group, g) && AllIn(group, g') && forall i :: 0 <= i < |group| ==> g'[group[i]] == g[group[i]]
    ensures OneForm(group, g') <==> OneForm(group, g)
    ensures Uniform(group, g') <==> Uniform(group, g)
  {
  }

  lemma {:induction false} NothingLeftToUnite(less: Order, keys: seq<Key>, g: Graph, id: string)
    requires AllIn(keys, g) && AllIn(keys, MergePass(less, keys, g))
    ensures !Unites(keys, MergePass(less, keys, g), id)
  {
    var g' := MergePass(less, keys, g);
    var group := Group(keys, g, id);
    SameGroup(keys, g, g', id);
    GroupIn(keys, g, id);
    if Unites(keys, g, id) {
      assert forall i :: 0 <= i < |group| ==> g'[group[i]] == UnitedRecord(less, keys, g, id);
    } else {
      UnchangedGroup(group, g, g');
    }
  }

  lemma SameKeysListed(keys: seq<Key>, g: Graph, g': Graph)
    requires Lists(keys, g) && g'.Keys == g.Keys
    ensures Lists(keys, g')
  {
  }

  /** Run again on its own result, the pass unites no group. */
  lemma {:induction false} MergePassIdempotent(less: Order, keys: seq<Key>, g: Graph)
    requires Lists(keys, g)
    ensures Lists(keys, MergePass(less, keys, g)) && !PassChanges(keys, MergePass(less, keys, g))
    ensures MergePass(less, keys, MergePass(less, keys, g)) == MergePass(less, keys, g)
  {
    var g' := MergePass(less, keys, g);
    SameKeysListed(keys, g, g');
    forall i | 0 <= i < |keys| && g'[keys[i]].gid.Some?
      ensures !Unites(keys, g', g'[keys[i]].gid.value)
    {
      NothingLeftToUnite(less, keys, g, g'[keys[i]].gid.value);
    }
    QuietPass(less, keys, g');
  }

  /** Passes until one changes nothing, that last one included. */
  ghost function PassesNeeded(h: IdFunction, less: Order, keys: seq<Key>, g: Graph): (n: nat)
    requires Lists(keys, g)
    ensures n >= 1 && n <= Distinct(g) + 1
    ensures g != map[] ==> n <= Distinct(g)
    decreases Distinct(g)
  {
    var a := AssignIds(h, g);
    AssignIdsShrinks(h, g);
    MergePassShrinks(less, keys, a);
    if !PassChanges(keys, a) then
      assert g != map[] ==> Distinct(g) >= 1 by {
        if k :| k in g { DistinctPositive(g, k); }
      }
      1
    else
      assert a != map[] by {
        var i :| 0 <= i < |keys| && a[keys[i]].gid.Some?;
        assert keys[i] in a;
      }
      1 + PassesNeeded(h, less, keys, MergePass(less, keys, a))
  }

  /** Where the loop ends up. */
  ghost function SettledGraph(h: IdFunction, less: Order, keys: seq<Key>, g: Graph): Graph
    requires Lists(keys, g)
    decreases Distinct(g)
  {
    var a := AssignIds(h, g);
    AssignIdsShrinks(h, g);
    MergePassShrinks(less, keys, a);
    if !PassChanges(keys, a) then a else SettledGraph(h, less, keys, MergePass(less, keys, a))
  }

  /** Two records under one identifier have different canonical forms. */
  ghost predicate Collides(g: Graph, id: Option<string>) {
    exists k, k' :: k in g && k' in g && g[k].gid == id && g[k'].gid == id
      && Get(g[k], "CanonicalLatin") != Get(g[k'], "CanonicalLatin")
  }

  /** Every record carries the identifier its own content derives, and keys that share a non-empty one
      hold one record, unless the records under it disagree on the canonical form. */
  ghost predicate Settled(h: IdFunction, g: Graph) {
    && (forall k :: k in g ==> g[k].gid == Some(IdOf(h, g[k])))
    && forall k, k' :: k in g && k' in g && g[k].gid == g[k'].gid && g[k].gid != Some("") && !Collides(g, g[k].gid)
         ==> g[k] == g[k']
  }

  lemma NoCollisionOneForm(keys: seq<Key>, a: Graph, id: string)
    requires AllIn(keys, a) && !Collides(a, Some(id))
    ensures AllIn(Group(keys, a, id), a) && OneForm(Group(keys, a, id), a)
  {
    GroupIn(keys, a, id);
  }

  lemma QuietIsUniform(keys: seq<Key>, a: Graph, id: string, k: Key)
    requires AllIn(keys, a) && !PassChanges(keys, a) && id != ""
    requires k in keys && k in a && a[k].gid == Some(id)
    requires AllIn(Group(keys, a, id), a) && OneForm(Group(keys, a, id), a)
    ensures |Group(keys, a, id)| < 2 || Uniform(Group(keys, a, id), a)
  {
    var n :| 0 <= n < |keys| && keys[n] == k;
    assert !Unites(keys, a, id);
  }

  lemma MembersEqual(group: seq<Key>, a: Graph, k: Key, k': Key)
    requires AllIn(group, a) && (|group| < 2 || Uniform(group, a))
    requires k in group && k' in group
    ensures a[k] == a[k']
  {
    var i :| 0 <= i < |group| && group[i] == k;
    var j :| 0 <= j < |group| && group[j] == k';
  }

  lemma QuietGroup(keys: seq<Key>, a: Graph, k: Key, k': Key)
    requires Lists(keys, a) && !PassChanges(keys, a)
    requires k in a && k' in a && a[k].gid == a[k'].gid && a[k].gid.Some? && a[k].gid != Some("")
    requires !Collides(a, a[k].gid)
    ensures a[k] == a[k']
  {
    var id := a[k].gid.value;
    NoCollisionOneForm(keys, a, id);
    QuietIsUniform(keys, a, id, k);
    MembersEqual(Group(keys, a, id), a, k, k');
  }

  lemma {:induction false} QuietPassSettles(h: IdFunction, keys: seq<Key>, g: Graph)
    requires Lists(keys, AssignIds(h, g)) && !PassChanges(keys, AssignIds(h, g))
    ensures Settled(h, AssignIds(h, g))
  {
    var a := AssignIds(h, g);
    assert forall k :: k in a ==> a[k].gid == Some(IdOf(h, a[k]));
    forall k, k' | k in a && k' in a && a[k].gid == a[k'].gid && a[k].gid != Some("") && !Collides(a, a[k].gid)
      ensures a[k] == a[k']
    {
      QuietGroup(keys, a, k, k');
    }
  }

  lemma QuietIsSettled(h: IdFunction, less: Order, keys: seq<Key>, g: Graph)
    requires Lists(keys, g) && Lists(keys, AssignIds(h, g)) && !PassChanges(keys, AssignIds(h, g))
    ensures Settled(h, SettledGraph(h, less, keys, g)) && SettledGraph(h, less, keys, g).Keys == g.Keys
  {
    QuietPassSettles(h, keys, g);
    assert SettledGraph(h, less, keys, g) == AssignIds(h, g);
  }

  lemma {:induction false} SettledFacts(h: IdFunction, less: Order, keys: seq<Key>, g: Graph)
    requires Lists(keys, g)
    ensures Settled(h, SettledGraph(h, less, keys, g))
    ensures SettledGraph(h, less, keys, g).Keys == g.Keys
    decreases Distinct(g)
  {
    var a := AssignIds(h, g);
    AssignIdsShrinks(h, g);
    MergePassShrinks(less, keys, a);
    SameKeysListed(keys, g, a);
    if PassChanges(keys, a) {
      SettledFacts(h, less, keys, MergePass(less, keys, a));
    } else {
      QuietIsSettled(h, less, keys, g);
    }
  }
}

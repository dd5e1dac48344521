/** Why the alias loop settles at once: records that are united have the same canonical form and dates, so the
    union derives the identifier they were united by. */
module Convergence {
  import opened Names
  import opened Options
  import opened Records
  import opened AliasMerge
  import opened Invariants

  /** What an identifier is derived from. */
  predicate SameBasis(r: Record, r': Record) {
    && Get(r, "CanonicalLatin") == Get(r', "CanonicalLatin")
    && Get(r, "BirthYear") == Get(r', "BirthYear")
    && Get(r, "DeathYear") == Get(r', "DeathYear")
  }

  /** No two records with one canonical form derive one identifier from different dates. */
  ghost predicate Separates(h: IdFunction, g: Graph) {
    forall k, k' :: k in g && k' in g && IdOf(h, g[k]) == IdOf(h, g[k'])
                    && Get(g[k], "CanonicalLatin") == Get(g[k'], "CanonicalLatin")
      ==> SameBasis(g[k], g[k'])
  }

  /** A field on which two records agree stays as it is, present or missing. */
  lemma {:induction false} UniteKeepsField(mine: Record, other: Record, f: string)
    requires Get(mine, f) == Get(other, f)
    ensures Get(Unite(mine, other), f) == Get(mine, f)
    ensures f in Unite(mine, other).fields <==> f in mine.fields
  {
  }

  lemma {:induction false} UniteKeepsBasis(h: IdFunction, mine: Record, other: Record)
    requires SameBasis(mine, other)
    ensures SameBasis(Unite(mine, other), mine) && IdOf(h, Unite(mine, other)) == IdOf(h, mine)
  {
    UniteKeepsField(mine, other, "CanonicalLatin");
    UniteKeepsField(mine, other, "BirthYear");
    UniteKeepsField(mine, other, "DeathYear");
  }

  lemma {:induction false} UniteAllKeepsBasis(h: IdFunction, g: Graph, ordered: seq<Key>)
    requires ordered != [] && AllIn(ordered, g)
    requires forall i :: 0 <= i < |ordered| ==> SameBasis(g[ordered[0]], g[ordered[i]])
    ensures SameBasis(UniteAll(g, ordered), g[ordered[0]])
    ensures IdOf(h, UniteAll(g, ordered)) == IdOf(h, g[ordered[0]])
  {
    if |ordered| > 1 {
      var n := |ordered| - 1;
      UniteAllKeepsBasis(h, g, ordered[..n]);
      assert SameBasis(g[ordered[0]], g[ordered[n]]);
      UniteKeepsBasis(h, UniteAll(g, ordered[..n]), g[ordered[n]]);
    }
  }

  /** The keys of a united group have one canonical form. */
  lemma {:induction false} MembersAgree(keys: seq<Key>, a: Graph, id: string, k: Key, k': Key)
    requires AllIn(keys, a) && Unites(keys, a, id)
    requires k in Group(keys, a, id) && k' in Group(keys, a, id) && k in a && k' in a
    ensures Get(a[k], "CanonicalLatin") == Get(a[k'], "CanonicalLatin")
  {
    var group := Group(keys, a, id);
    GroupIn(keys, a, id);
    var i :| 0 <= i < |group| && group[i] == k;
    var j :| 0 <= j < |group| && group[j] == k';
  }

  /** Every record carries the identifier it derives. */
  ghost predicate Derived(h: IdFunction, g: Graph) {
    forall k :: k in g ==> g[k].gid == Some(IdOf(h, g[k]))
  }

  lemma {:induction false} AssignedAreDerived(h: IdFunction, g: Graph)
    ensures Derived(h, AssignIds(h, g)) && (Separates(h, g) ==> Separates(h, AssignIds(h, g)))
    ensures Derived(h, g) ==> AssignIds(h, g) == g
  {
    forall k | k in g
      ensures IdOf(h, WithId(h, g[k])) == IdOf(h, g[k])
      ensures forall f :: Get(WithId(h, g[k]), f) == Get(g[k], f)
      ensures Derived(h, g) ==> WithId(h, g[k]) == g[k]
    {
    }
  }

  /** A united record has the form and dates of all its members, and so their identifier. */
  lemma {:induction false} UnitedKeepsId(h: IdFunction, less: Order, keys: seq<Key>, a: Graph, id: string)
    requires AllIn(keys, a) && Derived(h, a) && Separates(h, a) && Unites(keys, a, id)
    ensures IdOf(h, UnitedRecord(less, keys, a, id)) == id
    ensures forall k :: k in keys && k in a && a[k].gid == Some(id)
              ==> SameBasis(UnitedRecord(less, keys, a, id), a[k])
  {
    var ordered := UnitedOrder(less, keys, a, id);
    forall k | k in ordered && k in a
      ensures SameBasis(a[ordered[0]], a[k])
    {
      assert ordered[0] in ordered;
      MembersAgree(keys, a, id, ordered[0], k);
    }
    forall i | 0 <= i < |ordered|
      ensures a[ordered[i]].gid == Some(id) && SameBasis(a[ordered[0]], a[ordered[i]])
    {
      assert ordered[i] in ordered;
    }
    UniteAllKeepsBasis(h, a, ordered);
  }

  lemma {:induction false} PassRecordKeepsId(h: IdFunction, less: Order, keys: seq<Key>, a: Graph, k: Key)
    requires AllIn(keys, a) && Derived(h, a) && Separates(h, a) && k in a
    ensures var r := PassRecord(less, keys, a, a[k]); r.gid == Some(IdOf(h, r))
  {
    if Unites(keys, a, a[k].gid.value) {
      UnitedKeepsId(h, less, keys, a, a[k].gid.value);
    }
  }

  /** After a pass every record still has the identifier it derives. */
  lemma {:induction false} PassKeepsIds(h: IdFunction, less: Order, keys: seq<Key>, a: Graph)
    requires AllIn(keys, a) && Derived(h, a) && Separates(h, a)
    ensures Derived(h, MergePass(less, keys, a))
  {
    forall k | k in a
      ensures MergePass(less, keys, a)[k].gid == Some(IdOf(h, MergePass(less, keys, a)[k]))
    {
      PassRecordKeepsId(h, less, keys, a, k);
    }
  }

  lemma {:induction false} OnePassSuffices(h: IdFunction, less: Order, keys: seq<Key>, g: Graph)
    requires Lists(keys, g) && AssignIds(h, g) == g && !PassChanges(keys, g)
    ensures PassesNeeded(h, less, keys, g) == 1 && SettledGraph(h, less, keys, g) == g
  {
  }

  /** If the identifier tells the dates apart that it is derived from, the second pass finds nothing to unite. */
  lemma {:induction false} TwoPassesSuffice(h: IdFunction, less: Order, keys: seq<Key>, g: Graph)
    requires Lists(keys, g) && Separates(h, g)
    ensures PassesNeeded(h, less, keys, g) <= 2
    ensures AllIn(keys, AssignIds(h, g)) && SettledGraph(h, less, keys, g) == MergePass(less, keys, AssignIds(h, g))
  {
    var a := AssignIds(h, g);
    AssignedAreDerived(h, g);
    SameKeysListed(keys, g, a);
    PassKeepsIds(h, less, keys, a);
    var merged := MergePass(less, keys, a);
    AssignedAreDerived(h, merged);
    MergePassIdempotent(less, keys, a);
    OnePassSuffices(h, less, keys, merged);
    if !PassChanges(keys, a) {
      QuietPass(less, keys, a);
    }
  }

  // ---- Identifiers that do not collide ----

  /** No two records derive one identifier from different forms or dates. */
  ghost predicate TellsApart(h: IdFunction, g: Graph) {
    forall k, k' :: k in g && k' in g && IdOf(h, g[k]) == IdOf(h, g[k']) ==> SameBasis(g[k], g[k'])
  }

  lemma {:induction false} PassKeepsBasis(h: IdFunction, less: Order, keys: seq<Key>, a: Graph, k: Key)
    requires Lists(keys, a) && Derived(h, a) && Separates(h, a) && k in a
    ensures SameBasis(MergePass(less, keys, a)[k], a[k])
  {
    if Unites(keys, a, a[k].gid.value) {
      assert k in keys;
      UnitedKeepsId(h, less, keys, a, a[k].gid.value);
    }
  }

  lemma {:induction false} AssignedBasis(h: IdFunction, g: Graph, k: Key)
    requires k in g
    ensures k in AssignIds(h, g) && SameBasis(AssignIds(h, g)[k], g[k])
    ensures AssignIds(h, g)[k].gid == Some(IdOf(h, g[k]))
  {
  }

  lemma {:induction false} MergedBasis(h: IdFunction, less: Order, keys: seq<Key>, g: Graph, k: Key)
    requires Lists(keys, AssignIds(h, g)) && Separates(h, g) && k in g
    ensures SameBasis(MergePass(less, keys, AssignIds(h, g))[k], g[k])
    ensures MergePass(less, keys, AssignIds(h, g))[k].gid == Some(IdOf(h, g[k]))
  {
    AssignedAreDerived(h, g);
    AssignedBasis(h, g, k);
    PassKeepsBasis(h, less, keys, AssignIds(h, g), k);
  }

  /** The loop leaves every record its form and dates, and the identifier it derives from them. */
  lemma {:induction false} SettledKeepsBasis(h: IdFunction, less: Order, keys: seq<Key>, g: Graph, k: Key)
    requires Lists(keys, g) && Separates(h, g) && k in g
    ensures k in SettledGraph(h, less, keys, g) && SameBasis(SettledGraph(h, less, keys, g)[k], g[k])
    ensures SettledGraph(h, less, keys, g)[k].gid == Some(IdOf(h, g[k]))
  {
    TwoPassesSuffice(h, less, keys, g);
    SameKeysListed(keys, g, AssignIds(h, g));
    MergedBasis(h, less, keys, g, k);
  }

  /** `g'` has the forms and dates of `g`, and the identifiers derived from them. */
  ghost predicate KeepsBasis(h: IdFunction, g: Graph, g': Graph) {
    g'.Keys == g.Keys && forall k :: k in g ==> SameBasis(g'[k], g[k]) && g'[k].gid == Some(IdOf(h, g[k]))
  }

  lemma {:induction false} ApartThenOneForm(h: IdFunction, g: Graph, g': Graph)
    requires TellsApart(h, g) && KeepsBasis(h, g, g')
    ensures OneFormPerId(g') && forall id :: !Collides(g', Some(id))
  {
  }

  /** If identifiers tell apart what they are derived from, then none collides in the end. */
  lemma {:induction false} NothingCollides(h: IdFunction, less: Order, keys: seq<Key>, g: Graph)
    requires Lists(keys, g) && TellsApart(h, g)
    ensures OneFormPerId(SettledGraph(h, less, keys, g))
    ensures forall id :: !Collides(SettledGraph(h, less, keys, g), Some(id))
  {
    SettledFacts(h, less, keys, g);
    forall k | k in g
      ensures SameBasis(SettledGraph(h, less, keys, g)[k], g[k])
      ensures SettledGraph(h, less, keys, g)[k].gid == Some(IdOf(h, g[k]))
    {
      SettledKeepsBasis(h, less, keys, g, k);
    }
    ApartThenOneForm(h, g, SettledGraph(h, less, keys, g));
  }
}

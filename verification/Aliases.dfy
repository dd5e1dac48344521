/** From the settled graph to the validator: what I8 needs, and what erasure leaves of it. */
module Aliases {
  import opened Names
  import opened Options
  import opened Records
  import opened Invariants
  import opened AliasMerge
  import MapImages
  import Suppression

  /** Keys under one identifier hold one record, unless that identifier collides. */
  ghost predicate UnlessColliding(g: Graph) {
    forall k, k' :: k in g && k' in g && HasId(g[k]) && g[k].gid == g[k'].gid && !Collides(g, g[k].gid)
        ==> g[k] == g[k']
  }

  ghost predicate Canonical(g: Graph) {
    forall k :: k in g ==> Truthy(Get(g[k], "CanonicalLatin"))
  }

  lemma {:induction false} SettledUnlessColliding(h: IdFunction, g: Graph)
    requires Settled(h, g)
    ensures UnlessColliding(g)
  {
  }

  /** If every record has a canonical form and I7 finds no collision, aliases are identical, so I8 finds
      no loss. */
  lemma {:induction false} NoCollisionNoLoss(g: Graph)
    requires UnlessColliding(g) && Canonical(g) && OneFormPerId(g)
    ensures AliasesIdentical(g) && Lossless(g)
  {
    forall k, k' | k in g && k' in g && HasId(g[k]) && g[k].gid == g[k'].gid
      ensures g[k] == g[k']
    {
      forall x, x' | x in g && x' in g && g[x].gid == g[k].gid && g[x'].gid == g[k].gid
        ensures Get(g[x], "CanonicalLatin") == Get(g[x'], "CanonicalLatin")
      {
        assert FormOf(g[x]) == FormOf(g[x']);
      }
      assert !Collides(g, g[k].gid);
    }
  }

  /** Once settled, aliases are identical exactly if no identifier is shared by two canonical forms. */
  lemma {:induction false} AliasesIdenticalIff(h: IdFunction, g: Graph)
    requires Settled(h, g)
    ensures AliasesIdentical(g) <==> forall id :: id != "" ==> !Collides(g, Some(id))
  {
    if AliasesIdentical(g) {
      forall id | id != ""
        ensures !Collides(g, Some(id))
      {
      }
    }
  }

  // ---- The canonical form is there from the start ----

  lemma {:induction false} PassCanonical(less: Order, keys: seq<Key>, g: Graph, k: Key)
    requires AllIn(keys, g) && k in g && Canonical(g)
    ensures Truthy(Get(MergePass(less, keys, g)[k], "CanonicalLatin"))
  {
    if g[k].gid.Some? && Unites(keys, g, g[k].gid.value) {
      var ordered := UnitedOrder(less, keys, g, g[k].gid.value);
      UniteAllCovers(g, ordered, 0);
      assert Truthy(Get(g[ordered[0]], "CanonicalLatin"));
    }
  }

  /** If every record has a form, every record keeps one through the alias loop. */
  lemma {:induction false} SettledCanonical(h: IdFunction, less: Order, keys: seq<Key>, g: Graph)
    requires Lists(keys, g) && Canonical(g)
    ensures Canonical(SettledGraph(h, less, keys, g))
    decreases MapImages.Distinct(g)
  {
    var a := AssignIds(h, g);
    AssignIdsShrinks(h, g);
    MergePassShrinks(less, keys, a);
    assert Canonical(a);
    if PassChanges(keys, a) {
      var merged := MergePass(less, keys, a);
      forall k | k in merged
        ensures Truthy(Get(merged[k], "CanonicalLatin"))
      {
        PassCanonical(less, keys, a, k);
      }
      SettledCanonical(h, less, keys, merged);
    }
  }

  /** Erasure takes whole identities, so what holds of the remaining ones stays true. */
  lemma {:induction false} SuppressKeepsAliases(g: Graph, requests: Suppression.Requests)
    requires UnlessColliding(g)
    ensures UnlessColliding(Suppression.SuppressGraph(g, requests))
  {
    var g' := Suppression.SuppressGraph(g, requests);
    forall k, k' | k in g' && k' in g' && HasId(g'[k]) && g'[k].gid == g'[k'].gid && !Collides(g', g'[k].gid)
      ensures g'[k] == g'[k']
    {
      forall x | x in g && g[x].gid == g[k].gid
        ensures x in g' && Get(g'[x], "CanonicalLatin") == Get(g[x], "CanonicalLatin") && g'[x].gid == g[x].gid
      {
        Suppression.SurvivorsAreClear(g, requests, k);
        Suppression.RemovedTogether(g, requests, x, k);
      }
      assert !Collides(g, g[k].gid);
    }
  }
}

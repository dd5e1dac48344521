/** Which spellings the alias loop makes one person: exactly those whose records agree on canonical form and dates. */
module OnePerson {
  import opened Names
  import opened Options
  import opened Records
  import opened AliasMerge
  import Convergence

  /** The canonical form; a record without one counts as having the empty one. */
  function Form(r: Record): Value {
    if "CanonicalLatin" in r.fields then Get(r, "CanonicalLatin") else Text("")
  }

  /** The records agree on form, birth and death. */
  predicate SamePerson(r: Record, r': Record) {
    && Form(r) == Form(r') && Get(r, "BirthYear") == Get(r', "BirthYear") && Get(r, "DeathYear") == Get(r', "DeathYear")
  }

  function Identifier(h: IdFunction, r: Record): string {
    h(Form(r), Get(r, "BirthYear"), Get(r, "DeathYear"))
  }

  /** Identifiers are not empty, and no two persons among the records have the same. */
  ghost predicate Distinguishes(h: IdFunction, g: Graph) {
    && (forall k :: k in g ==> Identifier(h, g[k]) != "")
    && forall k, k' :: k in g && k' in g && Identifier(h, g[k]) == Identifier(h, g[k']) ==> SamePerson(g[k], g[k'])
  }

  /** A record that states a form states more than an empty one. */
  ghost predicate StatedForms(g: Graph) {
    forall k :: k in g && "CanonicalLatin" in g[k].fields ==> g[k].fields["CanonicalLatin"] !in {Null, Text("")}
  }

  lemma {:induction false} IdentifierIs(h: IdFunction, r: Record)
    ensures Identifier(h, r) == IdOf(h, r)
  {
  }

  lemma {:induction false} FormsAgree(g: Graph, k: Key, k': Key)
    requires StatedForms(g) && k in g && k' in g
    ensures Form(g[k]) == Form(g[k']) <==> Get(g[k], "CanonicalLatin") == Get(g[k'], "CanonicalLatin")
  {
  }

  lemma {:induction false} DistinguishedSeparate(h: IdFunction, g: Graph)
    requires Distinguishes(h, g)
    ensures Convergence.Separates(h, g)
  {
    forall k, k' | k in g && k' in g && IdOf(h, g[k]) == IdOf(h, g[k'])
                   && Get(g[k], "CanonicalLatin") == Get(g[k'], "CanonicalLatin")
      ensures Convergence.SameBasis(g[k], g[k'])
    {
      IdentifierIs(h, g[k]);
      IdentifierIs(h, g[k']);
    }
  }

  /** After the loop two keys hold one record exactly if their records agreed on form and dates; every record has the
      identifier of these. */
  lemma {:induction false} OneRecordIff(h: IdFunction, less: Order, keys: seq<Key>, g: Graph, k: Key, k': Key)
    requires Lists(keys, g) && Distinguishes(h, g) && StatedForms(g) && k in g && k' in g
    ensures var g' := SettledGraph(h, less, keys, g);
            && g'.Keys == g.Keys && g'[k].gid == Some(Identifier(h, g[k]))
            && (g'[k] == g'[k'] <==> SamePerson(g[k], g[k']))
  {
    DistinguishedSeparate(h, g);
    SettledFacts(h, less, keys, g);
    var g' := SettledGraph(h, less, keys, g);
    forall x | x in g
      ensures x in g' && Convergence.SameBasis(g'[x], g[x]) && g'[x].gid == Some(Identifier(h, g[x]))
    {
      Convergence.SettledKeepsBasis(h, less, keys, g, x);
      IdentifierIs(h, g[x]);
    }
    if SamePerson(g[k], g[k']) {
      if Collides(g', g'[k].gid) {
        var x, y :| x in g' && y in g' && g'[x].gid == g'[k].gid && g'[y].gid == g'[k].gid
                    && Get(g'[x], "CanonicalLatin") != Get(g'[y], "CanonicalLatin");
        FormsAgree(g, x, y);
        assert false;
      }
    }
  }
}

/** Lookup keys for person names (`normalize_key` and `_fold_particles` of the enrichment build).

    A name is taken after case folding, diacritic and parenthesis removal: a sequence of clean
    tokens, split at its first comma when it has one.  A key has the same shape as a name, so a
    key can be normalized again. */
module Names {

  datatype Name =
    | Plain(tokens: seq<string>)
    | Inverted(surname: seq<string>, given: seq<string>)

  type Key = Name

  /** The key of an empty name: falsy in the source. */
  const NO_KEY: Key := Plain([])

  predicate IsParticle(t: string) {
    t in {"von", "van", "de", "del", "della", "di", "du", "da", "den", "der",
          "le", "la", "ten", "ter", "af", "av", "zu", "zum", "zur"}
  }

  /** Number of particles that open `tokens`: how often the `pop(0)` loop runs. */
  function LeadingParticles(tokens: seq<string>): (n: nat)
    ensures n <= |tokens|
    ensures forall i :: 0 <= i < n ==> IsParticle(tokens[i])
    ensures n < |tokens| ==> !IsParticle(tokens[n])
  {
    if tokens == [] || !IsParticle(tokens[0]) then 0 else 1 + LeadingParticles(tokens[1..])
  }

  /** Move leading surname particles behind the given names, unless the surname is nothing else. */
  function FoldParticles(key: Key): Key {
    match key
    case Plain(_) => key
    case Inverted(surname, given) =>
      var n := LeadingParticles(surname);
      if n == 0 || n == |surname| then key else Inverted(surname[n..], given + surname[..n])
  }

  function NormalizeKey(name: Name): Key {
    match name
    case Plain(tokens) =>
      if |tokens| < 2 then name
      else FoldParticles(Inverted(tokens[|tokens| - 1..], tokens[..|tokens| - 1]))
    case Inverted(surname, given) =>
      // A comma with nothing on one side is stripped off, and no inversion follows.
      if surname == [] then Plain(given)
      else if given == [] then Plain(surname)
      else FoldParticles(name)
  }

  function TokenBag(key: Key): multiset<string> {
    match key
    case Plain(tokens) => multiset(tokens)
    case Inverted(surname, given) => multiset(surname) + multiset(given)
  }

  lemma {:induction false} LeadingParticlesIs(tokens: seq<string>, n: nat)
    requires n <= |tokens|
    requires forall i :: 0 <= i < n ==> IsParticle(tokens[i])
    requires n < |tokens| ==> !IsParticle(tokens[n])
    ensures LeadingParticles(tokens) == n
  {
    if n > 0 {
      LeadingParticlesIs(tokens[1..], n - 1);
    }
  }

  lemma FoldIdempotent(key: Key)
    ensures FoldParticles(FoldParticles(key)) == FoldParticles(key)
  {
    if key.Inverted? {
      var n := LeadingParticles(key.surname);
      if 0 < n < |key.surname| {
        LeadingParticlesIs(key.surname[n..], 0);
      }
    }
  }

  lemma FoldConservesTokens(key: Key)
    ensures TokenBag(FoldParticles(key)) == TokenBag(key)
  {
    if key.Inverted? {
      var n := LeadingParticles(key.surname);
      assert key.surname == key.surname[..n] + key.surname[n..];
    }
  }

  lemma NormalizeConservesTokens(name: Name)
    ensures TokenBag(NormalizeKey(name)) == TokenBag(name)
  {
    match name
    case Plain(tokens) =>
      if |tokens| >= 2 {
        var inverted := Inverted(tokens[|tokens| - 1..], tokens[..|tokens| - 1]);
        assert tokens == tokens[..|tokens| - 1] + tokens[|tokens| - 1..];
        FoldConservesTokens(inverted);
      }
    case Inverted(surname, given) =>
      FoldConservesTokens(name);
  }

  /** A name written around a comma of which one side is empty, and the other has two tokens or more. */
  predicate StrayComma(name: Name) {
    name.Inverted? && (name.surname == [] || name.given == []) && |name.surname| + |name.given| >= 2
  }

  /** Normalizing a key again changes it exactly when the name had a stray comma. */
  lemma NormalizeIdempotentIff(name: Name)
    ensures NormalizeKey(NormalizeKey(name)) == NormalizeKey(name) <==> !StrayComma(name)
  {
    var key := NormalizeKey(name);
    if StrayComma(name) {
      assert key.Plain? && |key.tokens| >= 2;
    } else if key.Inverted? {
      var raw := if name.Inverted? then name
                 else Inverted(name.tokens[|name.tokens| - 1..], name.tokens[..|name.tokens| - 1]);
      assert key == FoldParticles(raw);
      FoldIdempotent(raw);
    }
  }

  /** "Ana Silva," with the comma left behind is a direct name at first and an inverted one the second time. */
  lemma StrayCommaMoves()
    ensures var key := NormalizeKey(Inverted(["ana", "silva"], []));
            key == Plain(["ana", "silva"]) && NormalizeKey(key) == Inverted(["silva"], ["ana"])
  {
    var tokens := ["ana", "silva"];
    assert tokens[1..] == ["silva"] && tokens[..1] == ["ana"];
    assert |"silva"| == 5;
    assert !IsParticle("silva");
  }

  lemma {:induction false} DirectKey(given: seq<string>, run: seq<string>, surname: string)
    requires given != []
    ensures NormalizeKey(Plain(given + run + [surname])) == FoldParticles(Inverted([surname], given + run))
    ensures FoldParticles(Inverted([surname], given + run)) == Inverted([surname], given + run)
  {
    var direct := given + run + [surname];
    assert direct[|direct| - 1..] == [surname] && direct[..|direct| - 1] == given + run;
  }

  /** The particles that open the surname move behind the given names; of two tokens or more, one stays behind at
      the least. */
  lemma {:induction false} InvertedKey(given: seq<string>, run: seq<string>, surname: string, n: nat)
    requires given != [] && n == LeadingParticles(run + [surname])
    ensures n <= |run| + 1
    ensures var inverted := run + [surname];
            NormalizeKey(Inverted(inverted, given))
            == if n == 0 || n == |run| + 1 then Inverted(inverted, given)
               else Inverted(inverted[n..], given + inverted[..n])
    ensures n == |run| <==> (forall i :: 0 <= i < |run| ==> IsParticle(run[i])) && !IsParticle(surname)
  {
    var inverted := run + [surname];
    assert inverted[|run|] == surname && forall i :: 0 <= i < |run| ==> inverted[i] == run[i];
    if (forall i :: 0 <= i < |run| ==> IsParticle(run[i])) && !IsParticle(surname) {
      LeadingParticlesIs(inverted, |run|);
    }
  }

  /** Direct order "given particles surname" and inverted order "particles surname, given" reach one
      key exactly when the run before the surname is empty, or all particles before a surname that is
      not one itself. */
  lemma {:induction false} OrdersAgreeIff(given: seq<string>, run: seq<string>, surname: string)
    requires given != []
    ensures NormalizeKey(Plain(given + run + [surname])) == NormalizeKey(Inverted(run + [surname], given))
       <==> run == [] || ((forall i :: 0 <= i < |run| ==> IsParticle(run[i])) && !IsParticle(surname))
  {
    var inverted := run + [surname];
    var n := LeadingParticles(inverted);
    DirectKey(given, run, surname);
    InvertedKey(given, run, surname, n);
    if run == [] {
      assert inverted == [surname] && given + run == given;
    } else if n == |run| {
      assert inverted[..n] == run && inverted[n..] == [surname];
    } else {
      // Either the run is cut short by a non-particle, or it goes on into the surname.
      assert |NormalizeKey(Inverted(inverted, given)).surname| > 1;
    }
  }
}

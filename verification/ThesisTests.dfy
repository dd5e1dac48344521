/** What makes two theses one, and which of a cluster is kept, in terms of titles, years and degrees. */
module ThesisTests {
  import opened SingleLink
  import opened ThesisDedup

  // ---- Content words ----

  /** A plural is a word of four letters or more that ends in s. */
  predicate Plural(word: string) {
    |word| >= 4 && word[|word| - 1] == 's'
  }

  /** The title has the word, as it is if that is no plural, or in the plural. */
  ghost predicate HasWord(title: seq<string>, word: string) {
    || (word in title && !IsStopword(word) && !Plural(word))
    || (|word| >= 3 && word + "s" in title && !IsStopword(word + "s"))
  }

  /** The content words of a title are those that it has. */
  lemma {:induction false} TokensAre(title: seq<string>, word: string)
    ensures word in TokenSet(title) <==> HasWord(title, word)
  {
    if word in TokenSet(title) {
      var i :| 0 <= i < |title| && !IsStopword(title[i]) && FoldPlural(title[i]) == word;
      assert title[i] in title;
      if Plural(title[i]) {
        assert title[i] == word + "s";
      }
    }
    if word in title && !IsStopword(word) && !Plural(word) {
      var i :| 0 <= i < |title| && title[i] == word;
      assert FoldPlural(title[i]) == word;
    }
    if |word| >= 3 && word + "s" in title && !IsStopword(word + "s") {
      var i :| 0 <= i < |title| && title[i] == word + "s";
      assert FoldPlural(title[i]) == word;
    }
  }

  /** The words of `title` that `other` has not. */
  function Missing(title: seq<string>, other: seq<string>): set<string> {
    TokenSet(title) - TokenSet(other)
  }

  // ---- The near-duplicate test ----

  lemma {:induction false} Split(a: set<string>, b: set<string>)
    ensures |a * b| + |a - b| == |a|
  {
    assert a == a * b + (a - b);
    assert (a * b) * (a - b) == {};
  }

  /** Years at most three apart, and content words on both sides.  Short titles must have the same words; of others, at
      most 15 in 100 words of the shorter may be missing from the longer. */
  lemma {:induction false} SameWorkIff(a: Thesis, b: Thesis)
    requires |TokenSet(a.title)| <= |TokenSet(b.title)|
    ensures SameWork(a, b) <==>
      && a.year.Some? && b.year.Some? && a.year.value <= b.year.value + 3 && b.year.value <= a.year.value + 3
      && |TokenSet(a.title)| > 0
      && if |TokenSet(a.title)| <= 2 then Missing(a.title, b.title) == {} && Missing(b.title, a.title) == {}
         else 100 * |Missing(a.title, b.title)| <= 15 * |TokenSet(a.title)|
  {
    var ta, tb := TokenSet(a.title), TokenSet(b.title);
    Split(ta, tb);
    assert ta == tb <==> ta - tb == {} && tb - ta == {};
  }

  lemma {:induction false} Larger(a: set<string>, b: set<string>)
    requires a <= b
    ensures |a| <= |b|
  {
    Split(b, a);
    assert b * a == a;
  }

  /** A title of three content words or more, all of which another has, is that of one work if the years are close. */
  lemma {:induction false} ContainedIsSame(a: Thesis, b: Thesis)
    requires a.year.Some? && b.year == a.year && |TokenSet(a.title)| >= 3
    requires forall word :: HasWord(a.title, word) ==> HasWord(b.title, word)
    ensures SameWork(a, b) && SameWork(b, a)
  {
    forall word | word in TokenSet(a.title)
      ensures word in TokenSet(b.title)
    {
      TokensAre(a.title, word);
      TokensAre(b.title, word);
    }
    assert TokenSet(a.title) * TokenSet(b.title) == TokenSet(a.title);
    assert TokenSet(b.title) * TokenSet(a.title) == TokenSet(a.title);
    Larger(TokenSet(a.title), TokenSet(b.title));
  }

  // ---- Which record is kept ----

  /** The record says what degree it was. */
  predicate StatesDegree(t: Thesis) {
    match t.degree
    case None => false
    case Some(degree) => degree != "doctorat_unspecified"
  }

  /** Of a cluster the first record that states its degree is kept, or the first if none does. */
  lemma {:induction false} KeptStatesDegree(records: seq<Thesis>, cluster: Cluster, best: nat)
    requires Best(records, Specificity, cluster, best)
    ensures (exists m :: 0 <= m < |cluster| && StatesDegree(records[cluster[m]])) ==>
              StatesDegree(records[best])
              && forall m :: 0 <= m < |cluster| && StatesDegree(records[cluster[m]]) ==> best <= cluster[m]
    ensures (forall m :: 0 <= m < |cluster| ==> !StatesDegree(records[cluster[m]])) ==>
              forall m :: 0 <= m < |cluster| ==> best <= cluster[m]
  {
    assert best in cluster;
    var at :| 0 <= at < |cluster| && cluster[at] == best;
    forall m | 0 <= m < |cluster|
      ensures Specificity(records[cluster[m]]) == if StatesDegree(records[cluster[m]]) then 1 else 0
    {
    }
  }
}

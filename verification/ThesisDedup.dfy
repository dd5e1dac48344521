/** Near-duplicate collapsing of thesis records (`_title_tokens`, `_same_work`, `_specificity` and
    `dedup_theses` of the Sudoc harvester).  Titles are given as their folded words.

    The direction that matters is safety: two theses that no chain of near-duplicates connects are
    never collapsed into one. */
module ThesisDedup {
  import opened SingleLink
  import opened Options

  datatype Thesis = Thesis(year: Option<int>, title: seq<string>, degree: Option<string>)

  const YEAR_WINDOW: int := 3
  const MIN_TOKENS_FOR_FUZZY: nat := 3

  predicate IsStopword(word: string) {
    word in {"these", "thesis", "doctorat", "tome", "volume", "vol", "partie", "part", "fasc", "fascicule",
             "et", "de", "des", "du", "la", "le", "les", "l", "d", "a", "au", "aux", "sur", "en", "dans",
             "pour", "par", "avec"}
  }

  function FoldPlural(word: string): string {
    if |word| > 3 && word[|word| - 1] == 's' then word[..|word| - 1] else word
  }

  function TokenSet(title: seq<string>): set<string> {
    set i | 0 <= i < |title| && !IsStopword(title[i]) :: FoldPlural(title[i])
  }

  method TitleTokens(title: seq<string>) returns (tokens: set<string>)
    ensures tokens == TokenSet(title)
  {
    tokens := {};
    for i := 0 to |title|
      invariant tokens == set j | 0 <= j < i && !IsStopword(title[j]) :: FoldPlural(title[j])
    {
      if IsStopword(title[i]) {
        continue;
      }
      tokens := tokens + {FoldPlural(title[i])};
    }
  }

  function Min(x: nat, y: nat): nat {
    if y < x then y else x
  }

  /** The years are known and close. */
  predicate YearsClose(a: Thesis, b: Thesis) {
    a.year.Some? && b.year.Some? && -YEAR_WINDOW <= a.year.value - b.year.value <= YEAR_WINDOW
  }

  /** Is this the same thesis catalogued twice?  The containment threshold 0.85 is 17 out of 20. */
  predicate SameWork(a: Thesis, b: Thesis) {
    && YearsClose(a, b)
    && var ta, tb := TokenSet(a.title), TokenSet(b.title);
       && ta != {} && tb != {}
       && if Min(|ta|, |tb|) < MIN_TOKENS_FOR_FUZZY then ta == tb
          else 20 * |ta * tb| >= 17 * Min(|ta|, |tb|)
  }

  /** The test does not depend on the order of its arguments. */
  lemma SameWorkSymmetric()
    ensures Symmetric(SameWork)
  {
    forall a, b
      ensures SameWork(a, b) == SameWork(b, a)
    {
      assert TokenSet(a.title) * TokenSet(b.title) == TokenSet(b.title) * TokenSet(a.title);
    }
  }

  function Specificity(t: Thesis): int {
    if t.degree == None || t.degree == Some("doctorat_unspecified") then 0 else 1
  }

  /** The most specific record of each greedy cluster.  A chain of near-duplicates connects any two
      records that share a cluster, and no record is lost. */
  method DedupTheses(records: seq<Thesis>)
    returns (kept: seq<Thesis>, ghost clusters: seq<Cluster>, ghost home: seq<nat>, ghost picks: seq<nat>)
    ensures Clustering(records, SameWork, clusters, home) && |home| == |records| && FirstFit(records, SameWork, home)
    ensures |kept| == |picks| == |clusters| <= |records|
    ensures forall c :: 0 <= c < |clusters| ==>
      Best(records, Specificity, clusters[c], picks[c]) && kept[c] == records[picks[c]]
    ensures forall i, j :: 0 <= i < |records| && 0 <= j < |records| && home[i] == home[j]
             ==> Connected(records, SameWork, i, j)
    ensures forall picked :: PairwiseUnconnected(records, SameWork, picked) ==> |picked| <= |kept|
  {
    SameWorkSymmetric();
    var found: seq<Cluster>;
    kept, found, home, picks := Collapse(records, SameWork, Specificity);
    clusters := found;
    AtMostRecords(records, SameWork, clusters, home);
    forall i, j | 0 <= i < |records| && 0 <= j < |records| && home[i] == home[j]
      ensures Connected(records, SameWork, i, j)
    {
      NeverOverMerges(records, SameWork, clusters, home, i, j);
    }
    forall picked | PairwiseUnconnected(records, SameWork, picked)
      ensures |picked| <= |kept|
    {
      AtLeastComponents(records, SameWork, clusters, home, picked);
    }
  }

  lemma StopwordsAreShort(word: string)
    ensures IsStopword(word) ==> |word| <= 9
  {
  }

  /** Three records, each within the year window of the third but the first two six years apart. */
  function Bridge(): seq<Thesis> {
    var title := ["applications"];
    [Thesis(Some(1940), title, None), Thesis(Some(1946), title, None), Thesis(Some(1943), title, None)]
  }

  /** On these three the greedy pass keeps two records although one chain connects all three, so it
      does not always compute single-link components. */
  lemma BridgeIsSplit(clusters: seq<Cluster>, home: seq<nat>)
    requires Clustering(Bridge(), SameWork, clusters, home) && |home| == 3
    ensures home[0] != home[1] && Connected(Bridge(), SameWork, 0, 1)
    ensures !AreComponents(Bridge(), SameWork, home)
  {
    var records := Bridge();
    var a, b, c := records[0], records[1], records[2];
    StopwordsAreShort("applications");
    assert FoldPlural(a.title[0]) in TokenSet(a.title);
    assert TokenSet(a.title) * TokenSet(a.title) == TokenSet(a.title);
    assert SameWork(a, c) && SameWork(c, b) && !SameWork(b, a);
    OpenersAre(records, SameWork, clusters, home, 1);
    OpenersAre(records, SameWork, clusters, home, 0);
    ConnectedSelf(records, SameWork, 0);
    ConnectedStep(records, SameWork, 0, 0, 2);
    ConnectedStep(records, SameWork, 0, 2, 1);
  }
}

/** Greedy single-link clustering of a list under a symmetric relation: each record joins the first
    cluster that holds one it is related to, or opens a cluster of its own. */
module SingleLink {

  type Relation<!T> = (T, T) -> bool

  ghost predicate Symmetric<T(!new)>(same: Relation<T>) {
    forall a, b :: same(a, b) == same(b, a)
  }

  // ---- Chains ----

  ghost predicate Chain<T>(records: seq<T>, same: Relation<T>, path: seq<nat>) {
    && path != []
    && (forall k :: 0 <= k < |path| ==> path[k] < |records|)
    && forall k, m :: 0 <= k && m == k + 1 < |path| ==> same(records[path[k]], records[path[m]])
  }

  ghost predicate Connects<T>(records: seq<T>, same: Relation<T>, path: seq<nat>, i: nat, j: nat) {
    Chain(records, same, path) && path[0] == i && path[|path| - 1] == j
  }

  /** Some chain of related records leads from record `i` to record `j`. */
  ghost predicate Connected<T>(records: seq<T>, same: Relation<T>, i: nat, j: nat) {
    exists path :: Connects(records, same, path, i, j)
  }

  lemma ConnectedSelf<T>(records: seq<T>, same: Relation<T>, i: nat)
    requires i < |records|
    ensures Connected(records, same, i, i)
  {
    assert Connects(records, same, [i], i, i);
  }

  lemma ConnectedStep<T>(records: seq<T>, same: Relation<T>, i: nat, j: nat, k: nat)
    requires Connected(records, same, i, j) && j < |records| && k < |records| && same(records[j], records[k])
    ensures Connected(records, same, i, k)
  {
    var path :| Connects(records, same, path, i, j);
    assert Connects(records, same, path + [k], i, k);
  }

  lemma ChainSlice<T>(records: seq<T>, same: Relation<T>, path: seq<nat>, from: nat, upTo: nat)
    requires Chain(records, same, path) && from < upTo <= |path|
    ensures Connects(records, same, path[from..upTo], path[from], path[upTo - 1])
  {
    var part := path[from..upTo];
    forall k, m | 0 <= k && m == k + 1 < |part|
      ensures same(records[part[k]], records[part[m]])
    {
      assert same(records[path[from + k]], records[path[from + m]]);
    }
  }

  lemma {:induction false} ConnectedAlong<T>(records: seq<T>, same: Relation<T>, path: seq<nat>, i: nat, j: nat, k: nat)
    requires Connected(records, same, i, j) && Connects(records, same, path, j, k)
    ensures Connected(records, same, i, k)
    decreases |path|
  {
    if |path| > 1 {
      ChainSlice(records, same, path, 0, |path| - 1);
      ConnectedAlong(records, same, path[0..|path| - 1], i, j, path[|path| - 2]);
      assert same(records[path[|path| - 2]], records[path[|path| - 1]]);
      ConnectedStep(records, same, i, path[|path| - 2], k);
    }
  }

  lemma {:induction false} ReverseChain<T(!new)>(records: seq<T>, same: Relation<T>, path: seq<nat>, i: nat, j: nat)
    requires Symmetric(same) && Connects(records, same, path, i, j)
    ensures Connected(records, same, j, i)
    decreases |path|
  {
    if |path| == 1 {
      ConnectedSelf(records, same, i);
    } else {
      ChainSlice(records, same, path, 1, |path|);
      ReverseChain(records, same, path[1..|path|], path[1], j);
      assert same(records[path[0]], records[path[1]]);
      ConnectedStep(records, same, j, path[1], i);
    }
  }

  lemma ConnectedSymmetric<T(!new)>(records: seq<T>, same: Relation<T>, i: nat, j: nat)
    requires Symmetric(same) && Connected(records, same, i, j)
    ensures Connected(records, same, j, i)
  {
    var path :| Connects(records, same, path, i, j);
    ReverseChain(records, same, path, i, j);
  }

  lemma ConnectedTransitive<T>(records: seq<T>, same: Relation<T>, i: nat, j: nat, k: nat)
    requires Connected(records, same, i, j) && Connected(records, same, j, k)
    ensures Connected(records, same, i, k)
  {
    var path :| Connects(records, same, path, j, k);
    ConnectedAlong(records, same, path, i, j, k);
  }

  // ---- Clusters ----

  type Cluster = seq<nat>

  /** No earlier record is related to record `i`. */
  ghost predicate Opens<T>(records: seq<T>, same: Relation<T>, i: nat) {
    i < |records| && forall j :: 0 <= j < i ==> !same(records[i], records[j])
  }

  ghost predicate LinkedAt<T>(records: seq<T>, same: Relation<T>, cluster: Cluster, m: nat)
    requires m < |cluster| && forall k :: 0 <= k < |cluster| ==> cluster[k] < |records|
  {
    exists l :: 0 <= l < m && same(records[cluster[m]], records[cluster[l]])
  }

  /** Members rise in record order; the first opened the cluster and each other one is related to a
      member before it. */
  ghost predicate Linked<T>(records: seq<T>, same: Relation<T>, cluster: Cluster) {
    && cluster != []
    && (forall m :: 0 <= m < |cluster| ==> cluster[m] < |records|)
    && (forall l, m :: 0 <= l < m < |cluster| ==> cluster[l] < cluster[m])
    && Opens(records, same, cluster[0])
    && forall m :: 0 < m < |cluster| ==> LinkedAt(records, same, cluster, m)
  }

  /** `home[i]` is the one cluster that holds record `i`, for each of the first `|home|` records. */
  ghost predicate Partitions(clusters: seq<Cluster>, home: seq<nat>) {
    && (forall i :: 0 <= i < |home| ==> home[i] < |clusters| && i in clusters[home[i]])
    && forall c, m :: 0 <= c < |clusters| && 0 <= m < |clusters[c]|
         ==> clusters[c][m] < |home| && home[clusters[c][m]] == c
  }

  ghost predicate Clustering<T>(records: seq<T>, same: Relation<T>, clusters: seq<Cluster>, home: seq<nat>) {
    && |home| <= |records|
    && Partitions(clusters, home)
    && forall c :: 0 <= c < |clusters| ==> Linked(records, same, clusters[c])
  }

  /** Record `i` is in the first cluster that holds an earlier record related to it, or, if no record is, in the
      next new one. */
  ghost predicate FitsFirst<T>(records: seq<T>, same: Relation<T>, home: seq<nat>, i: nat)
    requires i < |home| <= |records|
  {
    && (forall j :: 0 <= j < i && same(records[i], records[j]) ==> home[i] <= home[j])
    && if Opens(records, same, i) then
         (forall j :: 0 <= j < i ==> home[j] < home[i])
         && (home[i] > 0 ==> exists j :: 0 <= j < i && home[j] == home[i] - 1)
       else exists j :: 0 <= j < i && same(records[i], records[j]) && home[j] == home[i]
  }

  ghost predicate FirstFit<T>(records: seq<T>, same: Relation<T>, home: seq<nat>) {
    |home| <= |records| && forall i :: 0 <= i < |home| ==> FitsFirst(records, same, home, i)
  }

  /** `best` is the first member of greatest score. */
  ghost predicate Best<T>(records: seq<T>, score: T -> int, cluster: Cluster, best: nat) {
    && (forall m :: 0 <= m < |cluster| ==> cluster[m] < |records|) && best < |records|
    && best in cluster
    && forall m :: 0 <= m < |cluster| ==>
         && score(records[cluster[m]]) <= score(records[best])
         && (cluster[m] < best ==> score(records[cluster[m]]) < score(records[best]))
  }

  method MatchesAny<T>(records: seq<T>, same: Relation<T>, i: nat, cluster: Cluster) returns (found: bool)
    requires i < |records| && forall m :: 0 <= m < |cluster| ==> cluster[m] < |records|
    ensures found <==> exists m :: 0 <= m < |cluster| && same(records[i], records[cluster[m]])
  {
    for m := 0 to |cluster|
      invariant forall l :: 0 <= l < m ==> !same(records[i], records[cluster[l]])
    {
      if same(records[i], records[cluster[m]]) {
        return true;
      }
    }
    return false;
  }

  method PickBest<T>(records: seq<T>, same: Relation<T>, score: T -> int, cluster: Cluster) returns (best: nat)
    requires Linked(records, same, cluster)
    ensures Best(records, score, cluster, best)
  {
    var at := 0;
    for m := 1 to |cluster|
      invariant at < m
      invariant forall l :: 0 <= l < m ==> score(records[cluster[l]]) <= score(records[cluster[at]])
      invariant forall l :: 0 <= l < at ==> score(records[cluster[l]]) < score(records[cluster[at]])
    {
      if score(records[cluster[m]]) > score(records[cluster[at]]) {
        at := m;
      }
    }
    best := cluster[at];
  }

  lemma JoinKeeps<T>(records: seq<T>, same: Relation<T>, clusters: seq<Cluster>, home: seq<nat>, c: nat, at: nat)
    requires Clustering(records, same, clusters, home) && |home| < |records| && c < |clusters|
    requires at < |clusters[c]| && clusters[c][at] < |records| && same(records[|home|], records[clusters[c][at]])
    ensures Clustering(records, same, clusters[c := clusters[c] + [|home|]], home + [c])
  {
    var cluster, i := clusters[c], |home|;
    var joined := cluster + [i];
    assert Linked(records, same, cluster);
    assert forall m :: 0 <= m < |cluster| ==> cluster[m] == clusters[c][m] < i;
    forall m | 0 < m < |joined|
      ensures LinkedAt(records, same, joined, m)
    {
      if m < |cluster| {
        assert LinkedAt(records, same, cluster, m);
        var l :| 0 <= l < m && same(records[cluster[m]], records[cluster[l]]);
        assert joined[l] == cluster[l];
      } else {
        assert joined[at] == cluster[at];
      }
    }
    assert Linked(records, same, joined);
    assert forall k :: k in joined <==> k in cluster || k == i;
  }

  lemma OpenKeeps<T>(records: seq<T>, same: Relation<T>, clusters: seq<Cluster>, home: seq<nat>)
    requires Clustering(records, same, clusters, home) && |home| < |records|
    requires Opens(records, same, |home|)
    ensures Clustering(records, same, clusters + [[|home|]], home + [|clusters|])
  {
    var single := [|home|];
    assert single[0] == |home|;
    assert Linked(records, same, single);
    assert forall k :: k in single <==> k == |home|;
  }

  /** The inner loop: the first cluster that holds a record related to the next one. */
  method FirstMatch<T>(records: seq<T>, same: Relation<T>, clusters: seq<Cluster>, ghost home: seq<nat>, i: nat)
    returns (c: nat)
    requires Clustering(records, same, clusters, home) && i == |home| < |records|
    ensures c <= |clusters|
    ensures c < |clusters|
        ==> exists at :: 0 <= at < |clusters[c]| && clusters[c][at] < |records|
             && same(records[i], records[clusters[c][at]])
    ensures forall j :: 0 <= j < i && home[j] < c ==> !same(records[i], records[j])
  {
    c := 0;
    while c < |clusters|
      invariant c <= |clusters|
      invariant forall j :: 0 <= j < i && home[j] < c ==> !same(records[i], records[j])
    {
      assert Linked(records, same, clusters[c]);
      var found := MatchesAny(records, same, i, clusters[c]);
      if found {
        return;
      }
      forall j | 0 <= j < i && home[j] == c
        ensures !same(records[i], records[j])
      {
        assert j in clusters[c];
      }
      c := c + 1;
    }
  }

  lemma {:induction false} FitsStill<T>(records: seq<T>, same: Relation<T>, home: seq<nat>, c: nat)
    requires |home| < |records| && FirstFit(records, same, home)
    requires FitsFirst(records, same, home + [c], |home|)
    ensures FirstFit(records, same, home + [c])
  {
    forall i | 0 <= i < |home|
      ensures FitsFirst(records, same, home + [c], i)
    {
      assert FitsFirst(records, same, home, i);
      assert forall j :: 0 <= j <= i ==> (home + [c])[j] == home[j];
    }
  }

  lemma {:induction false} JoinFits<T>(records: seq<T>, same: Relation<T>, clusters: seq<Cluster>, home: seq<nat>,
                                       c: nat, at: nat)
    requires Clustering(records, same, clusters, home) && |home| < |records| && FirstFit(records, same, home)
    requires c < |clusters| && at < |clusters[c]| && clusters[c][at] < |records|
    requires same(records[|home|], records[clusters[c][at]])
    requires forall j :: 0 <= j < |home| && home[j] < c ==> !same(records[|home|], records[j])
    ensures FirstFit(records, same, home + [c])
  {
    var j := clusters[c][at];
    assert j < |home| && home[j] == c && (home + [c])[j] == c;
    FitsStill(records, same, home, c);
  }

  lemma {:induction false} OpenFits<T>(records: seq<T>, same: Relation<T>, clusters: seq<Cluster>, home: seq<nat>)
    requires Clustering(records, same, clusters, home) && |home| < |records| && FirstFit(records, same, home)
    requires Opens(records, same, |home|)
    ensures FirstFit(records, same, home + [|clusters|])
  {
    if |clusters| > 0 {
      assert Linked(records, same, clusters[|clusters| - 1]);
      var j := clusters[|clusters| - 1][0];
      assert home[j] == |clusters| - 1 && (home + [|clusters|])[j] == home[j];
    }
    FitsStill(records, same, home, |clusters|);
  }

  method GreedyClusters<T>(records: seq<T>, same: Relation<T>) returns (clusters: seq<Cluster>, ghost home: seq<nat>)
    ensures Clustering(records, same, clusters, home) && |home| == |records|
    ensures FirstFit(records, same, home)
  {
    clusters, home := [], [];
    for i := 0 to |records|
      invariant Clustering(records, same, clusters, home) && |home| == i
      invariant FirstFit(records, same, home)
    {
      var c := FirstMatch(records, same, clusters, home, i);
      if c < |clusters| {
        ghost var at :| 0 <= at < |clusters[c]| && clusters[c][at] < |records|
            && same(records[i], records[clusters[c][at]]);
        JoinKeeps(records, same, clusters, home, c, at);
        JoinFits(records, same, clusters, home, c, at);
        clusters, home := clusters[c := clusters[c] + [i]], home + [c];
      } else {
        OpenKeeps(records, same, clusters, home);
        OpenFits(records, same, clusters, home);
        clusters, home := clusters + [[i]], home + [|clusters|];
      }
    }
  }

  /** One record of greatest score per cluster. */
  method Collapse<T>(records: seq<T>, same: Relation<T>, score: T -> int)
    returns (kept: seq<T>, clusters: seq<Cluster>, ghost home: seq<nat>, ghost picks: seq<nat>)
    ensures Clustering(records, same, clusters, home) && |home| == |records| && FirstFit(records, same, home)
    ensures |kept| == |picks| == |clusters|
    ensures forall c :: 0 <= c < |clusters|
             ==> Best(records, score, clusters[c], picks[c]) && kept[c] == records[picks[c]]
  {
    clusters, home := GreedyClusters(records, same);
    kept, picks := [], [];
    for c := 0 to |clusters|
      invariant |kept| == |picks| == c
      invariant forall d :: 0 <= d < c ==> Best(records, score, clusters[d], picks[d]) && kept[d] == records[picks[d]]
    {
      var best := PickBest(records, same, score, clusters[c]);
      kept, picks := kept + [records[best]], picks + [best];
    }
  }

  // ---- First fit leaves no choice ----

  lemma {:induction false} SameFit<T>(records: seq<T>, same: Relation<T>, home: seq<nat>, home': seq<nat>, i: nat)
    requires FirstFit(records, same, home) && FirstFit(records, same, home') && |home| == |home'| && i < |home|
    ensures home[i] == home'[i]
  {
    forall j | 0 <= j < i
      ensures home[j] == home'[j]
    {
      SameFit(records, same, home, home', j);
    }
    assert FitsFirst(records, same, home, i) && FitsFirst(records, same, home', i);
  }

  predicate Ascends(s: seq<nat>) {
    forall l, m :: 0 <= l < m < |s| ==> s[l] < s[m]
  }

  lemma {:induction false} AscendingEqual(s: seq<nat>, t: seq<nat>)
    requires Ascends(s) && Ascends(t) && forall x :: x in s <==> x in t
    ensures s == t
  {
    assert forall m :: 0 <= m < |t| ==> t[m] in t;
    if s != [] {
      assert s[0] in t;
      assert t[0] in s;
      var m, n := |s| - 1, |t| - 1;
      assert s[m] in t;
      assert t[n] in s;
      assert s[m] == t[n];
      forall x
        ensures x in s[..m] <==> x in t[..n]
      {
        assert x in s <==> x in t;
        assert s == s[..m] + [s[m]] && t == t[..n] + [t[n]];
      }
      AscendingEqual(s[..m], t[..n]);
      assert s == s[..m] + [s[m]] && t == t[..n] + [t[n]];
    }
  }

  lemma {:induction false} MembersAre<T>(records: seq<T>, same: Relation<T>, clusters: seq<Cluster>, home: seq<nat>,
                                         c: nat, i: nat)
    requires Clustering(records, same, clusters, home) && c < |clusters|
    ensures i in clusters[c] <==> i < |home| && home[i] == c
  {
  }

  lemma {:induction false} NoMoreClusters<T>(records: seq<T>, same: Relation<T>, clusters: seq<Cluster>,
                                             clusters': seq<Cluster>, home: seq<nat>)
    requires Clustering(records, same, clusters, home) && Clustering(records, same, clusters', home)
    ensures |clusters| <= |clusters'|
  {
    if |clusters| > 0 {
      assert Linked(records, same, clusters[|clusters| - 1]);
      assert home[clusters[|clusters| - 1][0]] == |clusters| - 1;
    }
  }

  /** The test and the order of the records alone decide the clusters and their order. */
  lemma {:induction false} FirstFitIsUnique<T>(records: seq<T>, same: Relation<T>, clusters: seq<Cluster>,
                                               home: seq<nat>, clusters': seq<Cluster>, home': seq<nat>)
    requires Clustering(records, same, clusters, home) && FirstFit(records, same, home) && |home| == |records|
    requires Clustering(records, same, clusters', home') && FirstFit(records, same, home') && |home'| == |records|
    ensures home == home' && clusters == clusters'
  {
    forall i | 0 <= i < |home|
      ensures home[i] == home'[i]
    {
      SameFit(records, same, home, home', i);
    }
    NoMoreClusters(records, same, clusters, clusters', home);
    NoMoreClusters(records, same, clusters', clusters, home);
    forall c | 0 <= c < |clusters|
      ensures clusters[c] == clusters'[c]
    {
      assert Linked(records, same, clusters[c]) && Linked(records, same, clusters'[c]);
      forall i: nat
        ensures i in clusters[c] <==> i in clusters'[c]
      {
        MembersAre(records, same, clusters, home, c, i);
        MembersAre(records, same, clusters', home, c, i);
      }
      AscendingEqual(clusters[c], clusters'[c]);
    }
  }

  // ---- What the clusters mean ----

  lemma {:induction false} OpenerConnected<T(!new)>(records: seq<T>, same: Relation<T>, cluster: Cluster, m: nat)
    requires Symmetric(same) && Linked(records, same, cluster) && m < |cluster|
    ensures Connected(records, same, cluster[0], cluster[m])
  {
    if m == 0 {
      ConnectedSelf(records, same, cluster[0]);
    } else {
      assert LinkedAt(records, same, cluster, m);
      var l :| 0 <= l < m && same(records[cluster[m]], records[cluster[l]]);
      OpenerConnected(records, same, cluster, l);
      ConnectedStep(records, same, cluster[0], cluster[l], cluster[m]);
    }
  }

  /** Never over-merge: two records in one cluster are connected by a chain of related records. */
  lemma NeverOverMerges<T(!new)>(records: seq<T>, same: Relation<T>, clusters: seq<Cluster>, home: seq<nat>, i: nat,
                          j: nat)
    requires Symmetric(same) && Clustering(records, same, clusters, home)
    requires i < |home| && j < |home| && home[i] == home[j]
    ensures Connected(records, same, i, j)
  {
    var cluster := clusters[home[i]];
    assert i in cluster && j in cluster;
    var l :| 0 <= l < |cluster| && cluster[l] == i;
    var m :| 0 <= m < |cluster| && cluster[m] == j;
    OpenerConnected(records, same, cluster, l);
    OpenerConnected(records, same, cluster, m);
    ConnectedSymmetric(records, same, cluster[0], i);
    ConnectedTransitive(records, same, i, cluster[0], j);
  }

  /** Exactly the records without an earlier related one open clusters. */
  lemma OpenersAre<T>(records: seq<T>, same: Relation<T>, clusters: seq<Cluster>, home: seq<nat>, i: nat)
    requires Clustering(records, same, clusters, home) && |home| == |records| && i < |records|
    ensures clusters[home[i]] != [] && (clusters[home[i]][0] == i <==> Opens(records, same, i))
  {
    var cluster := clusters[home[i]];
    assert Linked(records, same, cluster) && i in cluster;
    var m :| 0 <= m < |cluster| && cluster[m] == i;
    if m > 0 {
      assert LinkedAt(records, same, cluster, m);
      var l :| 0 <= l < m && same(records[cluster[m]], records[cluster[l]]);
      assert cluster[l] < cluster[m];
    }
  }

  ghost predicate PairwiseUnconnected<T>(records: seq<T>, same: Relation<T>, picked: set<nat>) {
    && (forall i :: i in picked ==> i < |records|)
    && forall i, j :: i in picked && j in picked && i != j ==> !Connected(records, same, i, j)
  }

  lemma {:induction false} InjectionBound(picked: set<nat>, home: seq<nat>, n: nat)
    requires forall i :: i in picked ==> i < |home| && home[i] < n
    requires forall i, j :: i in picked && j in picked && i != j ==> home[i] != home[j]
    ensures |picked| <= n
    decreases n
  {
    if n > 0 {
      if i :| i in picked && home[i] == n - 1 {
        InjectionBound(picked - {i}, home, n - 1);
      } else {
        InjectionBound(picked, home, n - 1);
      }
    } else {
      assert picked == {};
    }
  }

  /** There are at least as many clusters as components: pairwise unconnected records have different
      homes. */
  lemma AtLeastComponents<T(!new)>(records: seq<T>, same: Relation<T>, clusters: seq<Cluster>, home: seq<nat>,
                            picked: set<nat>)
    requires Symmetric(same) && Clustering(records, same, clusters, home) && |home| == |records|
    requires PairwiseUnconnected(records, same, picked)
    ensures |picked| <= |clusters|
  {
    forall i, j | i in picked && j in picked && i != j
      ensures home[i] != home[j]
    {
      if home[i] == home[j] {
        NeverOverMerges(records, same, clusters, home, i, j);
        assert false;
      }
    }
    InjectionBound(picked, home, |clusters|);
  }

  ghost function Below(n: nat): (all: set<nat>)
    ensures |all| == n && forall c: nat :: c in all <==> c < n
  {
    if n == 0 then {} else Below(n - 1) + {n - 1}
  }

  /** No more clusters than records. */
  lemma AtMostRecords<T>(records: seq<T>, same: Relation<T>, clusters: seq<Cluster>, home: seq<nat>)
    requires Clustering(records, same, clusters, home) && |home| == |records|
    ensures |clusters| <= |records|
  {
    var opener := seq(|clusters|, c requires 0 <= c < |clusters| && clusters[c] != [] => clusters[c][0]);
    forall c | 0 <= c < |clusters|
      ensures opener[c] < |records| && home[opener[c]] == c
    {
      assert Linked(records, same, clusters[c]) && clusters[c][0] in clusters[c];
    }
    InjectionBound(Below(|clusters|), opener, |records|);
  }

  // ---- When the clusters are the connected components ----

  /** Some record is related to earlier records that sit in two different clusters. */
  ghost predicate Bridged<T>(records: seq<T>, same: Relation<T>, home: seq<nat>) {
    exists i, j, k :: 0 <= j < i < |home| && 0 <= k < i && |home| <= |records|
      && same(records[i], records[j]) && same(records[i], records[k]) && home[j] != home[k]
  }

  /** Connected records always share a cluster. */
  ghost predicate AreComponents<T>(records: seq<T>, same: Relation<T>, home: seq<nat>) {
    forall i, j :: 0 <= i < |home| && 0 <= j < |home| && Connected(records, same, i, j) ==> home[i] == home[j]
  }

  lemma RelatedShareHome<T(!new)>(records: seq<T>, same: Relation<T>, clusters: seq<Cluster>, home: seq<nat>, i: nat,
                           j: nat)
    requires Symmetric(same) && Clustering(records, same, clusters, home) && |home| == |records|
    requires !Bridged(records, same, home)
    requires j < i < |records| && same(records[i], records[j])
    ensures home[i] == home[j]
  {
    var cluster := clusters[home[i]];
    assert Linked(records, same, cluster) && i in cluster;
    var m :| 0 <= m < |cluster| && cluster[m] == i;
    assert m > 0;
    assert LinkedAt(records, same, cluster, m);
    var l :| 0 <= l < m && same(records[cluster[m]], records[cluster[l]]);
    var k := cluster[l];
    assert k < i && k in cluster;
  }

  lemma {:induction false} ChainShareHome<T(!new)>(records: seq<T>, same: Relation<T>, clusters: seq<Cluster>,
                                                   home: seq<nat>, path: seq<nat>)
    requires Symmetric(same) && Clustering(records, same, clusters, home) && |home| == |records|
    requires !Bridged(records, same, home) && Chain(records, same, path)
    ensures home[path[0]] == home[path[|path| - 1]]
    decreases |path|
  {
    if |path| > 1 {
      var i, j := path[0], path[1];
      assert same(records[i], records[j]);
      ChainSlice(records, same, path, 1, |path|);
      ChainShareHome(records, same, clusters, home, path[1..|path|]);
      if j < i {
        RelatedShareHome(records, same, clusters, home, i, j);
      } else if i < j {
        RelatedShareHome(records, same, clusters, home, j, i);
      }
    }
  }

  /** The clusters are the connected components exactly when no record bridges two of them. */
  lemma ComponentsIff<T(!new)>(records: seq<T>, same: Relation<T>, clusters: seq<Cluster>, home: seq<nat>)
    requires Symmetric(same) && Clustering(records, same, clusters, home) && |home| == |records|
    ensures AreComponents(records, same, home) <==> !Bridged(records, same, home)
  {
    if Bridged(records, same, home) {
      var i, j, k :| 0 <= j < i < |home| && 0 <= k < i && |home| <= |records|
        && same(records[i], records[j]) && same(records[i], records[k]) && home[j] != home[k];
      ConnectedSelf(records, same, j);
      ConnectedStep(records, same, j, j, i);
      ConnectedStep(records, same, j, i, k);
    } else {
      forall i, j | 0 <= i < |home| && 0 <= j < |home| && Connected(records, same, i, j)
        ensures home[i] == home[j]
      {
        var path :| Connects(records, same, path, i, j);
        ChainShareHome(records, same, clusters, home, path);
      }
    }
  }
}

/** Counting the distinct values of a map before and after a step that treats equal values alike. */
module MapImages {

  ghost function Distinct<K, V>(m: map<K, V>): nat {
    |m.Values|
  }

  /** What a key is mapped to afterwards depends on what it was mapped to alone. */
  ghost predicate Image<K, V, W>(m: map<K, V>, m': map<K, W>) {
    && m.Keys == m'.Keys
    && forall k, k' :: k in m && k' in m && m[k] == m[k'] ==> m'[k] == m'[k']
  }

  /** The entries whose value before was not `v`. */
  ghost function Rest<K, V, W>(m: map<K, V>, m': map<K, W>, v: V): map<K, W>
    requires m.Keys == m'.Keys
  {
    map x | x in m && m[x] != v :: m'[x]
  }

  lemma RestValues<K, V>(m: map<K, V>, k: K)
    requires k in m
    ensures Rest(m, m, m[k]).Values == m.Values - {m[k]} && m[k] in m.Values
  {
    forall w | w in m.Values - {m[k]}
      ensures w in Rest(m, m, m[k]).Values
    {
      var x :| x in m && m[x] == w;
      assert x in Rest(m, m, m[k]);
    }
  }

  lemma RestImage<K, V, W>(m: map<K, V>, m': map<K, W>, k: K)
    requires Image(m, m') && k in m
    ensures Image(Rest(m, m, m[k]), Rest(m, m', m[k]))
    ensures m'.Values == Rest(m, m', m[k]).Values + {m'[k]}
  {
    var rest' := Rest(m, m', m[k]);
    forall w | w in m'.Values
      ensures w in rest'.Values + {m'[k]}
    {
      var x :| x in m' && m'[x] == w;
      assert m[x] != m[k] ==> x in rest';
    }
    forall w | w in rest'.Values
      ensures w in m'.Values
    {
      var x :| x in rest' && rest'[x] == w;
      assert x in m';
    }
    assert k in m' && m'[k] in m'.Values;
  }

  /** An image has no more distinct values. */
  lemma {:induction false} ImageShrinks<K, V, W>(m: map<K, V>, m': map<K, W>)
    requires Image(m, m')
    ensures Distinct(m') <= Distinct(m)
    decreases m.Values
  {
    if k :| k in m {
      RestValues(m, k);
      RestImage(m, m', k);
      ImageShrinks(Rest(m, m, m[k]), Rest(m, m', m[k]));
    } else {
      assert m'.Values == {};
    }
  }

  /** It has fewer if it makes two different values equal. */
  lemma ImageMerges<K, V, W>(m: map<K, V>, m': map<K, W>, k: K, k': K)
    requires Image(m, m') && k in m && k' in m && m[k] != m[k'] && m'[k] == m'[k']
    ensures Distinct(m') < Distinct(m)
  {
    var rest, rest' := Rest(m, m, m[k]), Rest(m, m', m[k]);
    RestValues(m, k);
    RestImage(m, m', k);
    ImageShrinks(rest, rest');
    assert k' in rest' && rest'[k'] in rest'.Values;
    assert m'.Values == rest'.Values;
  }

  lemma DistinctPositive<K, V>(m: map<K, V>, k: K)
    requires k in m
    ensures Distinct(m) >= 1
  {
    assert m[k] in m.Values;
  }
}

/** Counting the entries of a finite map or set that satisfy a predicate. */
module Counting {
  function Where<K, V>(m: map<K, V>, p: V -> bool): set<K> {
    set k | k in m && p(m[k])
  }

  function Count<K, V>(m: map<K, V>, p: V -> bool): nat {
    |Where(m, p)|
  }

  function One(b: bool): nat {
    if b then 1 else 0
  }

  /** Updating one entry changes the count by that entry alone. */
  lemma CountUpdate<K, V>(m: map<K, V>, k: K, v: V, p: V -> bool)
    ensures Count(m[k := v], p) == Count(m, p) - One(k in m && p(m[k])) + One(p(v))
  {
    WithoutKey(m, k, p);
    WithoutKey(m[k := v], k, p);
    assert Where(m[k := v], p) - {k} == Where(m, p) - {k} by {
      forall x ensures x in Where(m[k := v], p) - {k} <==> x in Where(m, p) - {k} {}
    }
  }

  lemma WithoutKey<K, V>(m: map<K, V>, k: K, p: V -> bool)
    ensures |Where(m, p)| == |Where(m, p) - {k}| + One(k in m && p(m[k]))
  {
    var w := Where(m, p);
    if k in w {
      assert w == (w - {k}) + {k};
    } else {
      assert w - {k} == w;
    }
  }

  lemma CountNone<K, V>(m: map<K, V>, p: V -> bool)
    requires forall k :: k in m ==> !p(m[k])
    ensures Count(m, p) == 0
  {
    assert Where(m, p) == {};
  }

  lemma CountSome<K, V>(m: map<K, V>, k: K, p: V -> bool)
    requires k in m && p(m[k])
    ensures Count(m, p) >= 1
  {
    assert {k} <= Where(m, p);
    CardinalityMonotone({k}, Where(m, p));
  }

  lemma CountWeaker<K, V>(m: map<K, V>, p: V -> bool, q: V -> bool)
    requires forall v :: p(v) ==> q(v)
    ensures Count(m, p) <= Count(m, q)
  {
    CardinalityMonotone(Where(m, p), Where(m, q));
  }

  lemma CardinalityMonotone<T>(a: set<T>, b: set<T>)
    requires a <= b
    ensures |a| <= |b|
  {
    assert b == a + (b - a);
  }
}

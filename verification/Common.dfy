/** What several components share. */
module Common {

  const U32_SPAN: nat := 0x1_0000_0000
  const NANOS_PER_SEC: nat := 1_000_000_000

  datatype Option<+T> = None | Some(value: T)

  lemma {:induction false} SubsetSize<T>(a: set<T>, b: set<T>)
    requires a <= b
    ensures |a| <= |b|
    decreases |a|
  {
    if a != {} {
      var x :| x in a;
      SubsetSize(a - {x}, b - {x});
    }
  }

  lemma BindingSize<K, V>(m: map<K, V>, k: K, v: V)
    ensures |m[k := v]| == if k in m then |m| else |m| + 1
  {
    assert m[k := v].Keys == m.Keys + {k};
    assert |m[k := v].Keys| == |m[k := v]| && |m.Keys| == |m|;
    assert k in m ==> m[k := v].Keys == m.Keys;
  }

  lemma RemovalSize<K, V>(m: map<K, V>, k: K)
    requires k in m
    ensures |m - {k}| == |m| - 1
  {
    assert (m - {k}).Keys == m.Keys - {k};
    assert |(m - {k}).Keys| == |m - {k}| && |m.Keys| == |m|;
  }

  lemma FewerKeys<K, V>(m: map<K, V>, n: map<K, V>)
    requires m.Keys <= n.Keys
    ensures |m| <= |n|
  {
    SubsetSize(m.Keys, n.Keys);
    assert |m.Keys| == |m| && |n.Keys| == |n|;
  }

  lemma RemovalShrinks<K, V>(m: map<K, V>, gone: set<K>)
    ensures |m - gone| <= |m|
  {
    FewerKeys(m - gone, m);
  }
}

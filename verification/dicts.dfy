/** Python's insertion-ordered `dict`, as an association list whose keys
    are distinct. Assigning to a present key keeps its position; assigning
    to a new key appends it. */
module Dicts {
  import opened Wrappers

  type Dict<K, V> = seq<(K, V)>

  function Keys<K, V>(d: Dict<K, V>): (ks: seq<K>)
    ensures |ks| == |d|
    ensures forall i :: 0 <= i < |d| ==> ks[i] == d[i].0
  {
    seq(|d|, i requires 0 <= i < |d| => d[i].0)
  }

  function Values<K, V>(d: Dict<K, V>): (vs: seq<V>)
    ensures |vs| == |d|
    ensures forall i :: 0 <= i < |d| ==> vs[i] == d[i].1
  {
    seq(|d|, i requires 0 <= i < |d| => d[i].1)
  }

  /** No key occurs twice. */
  predicate Valid<K(==), V>(d: Dict<K, V>) {
    forall i, j :: 0 <= i < j < |d| ==> d[i].0 != d[j].0
  }

  predicate HasKey<K(==), V>(d: Dict<K, V>, k: K) {
    exists i :: 0 <= i < |d| && d[i].0 == k
  }

  /** `d[k]`, or None where Python would raise KeyError. */
  function Get<K(==), V>(d: Dict<K, V>, k: K): (r: Option<V>)
    ensures r.Some? <==> HasKey(d, k)
    ensures r.Some? ==> exists i :: 0 <= i < |d| && d[i] == (k, r.value)
    decreases |d|
  {
    if |d| == 0 then None
    else if d[0].0 == k then Some(d[0].1)
    else
      var r := Get(d[1..], k);
      assert HasKey(d, k) ==> HasKey(d[1..], k) by {
        if HasKey(d, k) {
          var i :| 0 <= i < |d| && d[i].0 == k;
          assert d[1..][i - 1].0 == k;
        }
      }
      r
  }

  /** `d[k] = v`. */
  function Put<K(==), V>(d: Dict<K, V>, k: K, v: V): (r: Dict<K, V>)
    ensures |r| == if HasKey(d, k) then |d| else |d| + 1
    ensures forall i :: 0 <= i < |d| ==> r[i].0 == d[i].0
    ensures forall i :: 0 <= i < |d| && d[i].0 != k ==> r[i] == d[i]
    ensures !HasKey(d, k) ==> r[|d|] == (k, v)
    ensures HasKey(r, k)
    decreases |d|
  {
    if |d| == 0 then [(k, v)]
    else if d[0].0 == k then [(k, v)] + d[1..]
    else
      var t := Put(d[1..], k, v);
      HasKeyTail(d, k);
      HasKeyCons(d[0], t, k);
      [d[0]] + t
  }

  /** Past a first entry with another key, the key is in the dict exactly
      when it is in the rest. */
  lemma HasKeyTail<K, V>(d: Dict<K, V>, k: K)
    requires |d| > 0 && d[0].0 != k
    ensures HasKey(d, k) <==> HasKey(d[1..], k)
  {
    if HasKey(d, k) {
      var i :| 0 <= i < |d| && d[i].0 == k;
      assert d[1..][i - 1].0 == k;
    }
    if HasKey(d[1..], k) {
      var i :| 0 <= i < |d[1..]| && d[1..][i].0 == k;
      assert d[i + 1].0 == k;
    }
  }

  lemma HasKeyCons<K, V>(e: (K, V), t: Dict<K, V>, k: K)
    requires HasKey(t, k)
    ensures HasKey([e] + t, k)
  {
    var i :| 0 <= i < |t| && t[i].0 == k;
    assert ([e] + t)[i + 1].0 == k;
  }

  lemma PutValid<K, V>(d: Dict<K, V>, k: K, v: V)
    requires Valid(d)
    ensures Valid(Put(d, k, v))
  {
    var r := Put(d, k, v);
    forall i, j | 0 <= i < j < |r|
      ensures r[i].0 != r[j].0
    {
      if j == |d| {
        assert !HasKey(d, k) && r[j].0 == k;
        assert r[i].0 == d[i].0;
      }
    }
  }

  /** Reading back after an assignment: the assigned key yields the new
      value, every other key what it yielded before. */
  lemma PutGet<K, V>(d: Dict<K, V>, k: K, v: V, k': K)
    requires Valid(d)
    ensures Get(Put(d, k, v), k') == if k' == k then Some(v) else Get(d, k')
  {
    PutValid(d, k, v);
    var r := Put(d, k, v);
    var g := Get(r, k');
    GetUnique(r, k');
    GetUnique(d, k');
    if k' == k {
      var i :| 0 <= i < |r| && r[i].0 == k;
      if i < |d| {
        assert d[i].0 == k;
        PutSlot(d, k, v, i);
      }
    } else {
      if HasKey(d, k') {
        var i :| 0 <= i < |d| && d[i].0 == k';
        assert r[i] == d[i];
      } else {
        forall i | 0 <= i < |r|
          ensures r[i].0 != k'
        {
          if i == |d| {
            assert r[i].0 == k;
          }
        }
      }
    }
  }

  lemma PutSlot<K, V>(d: Dict<K, V>, k: K, v: V, i: int)
    requires Valid(d)
    requires 0 <= i < |d| && d[i].0 == k
    ensures Put(d, k, v)[i] == (k, v)
    decreases |d|
  {
    if d[0].0 != k {
      assert Valid(d[1..]) by {
        forall a, b | 0 <= a < b < |d[1..]|
          ensures d[1..][a].0 != d[1..][b].0
        {
          assert d[1..][a] == d[a + 1] && d[1..][b] == d[b + 1];
        }
      }
      PutSlot(d[1..], k, v, i - 1);
    }
  }

  /** In a valid dict the entry that Get finds is the only one with its key. */
  lemma GetUnique<K, V>(d: Dict<K, V>, k: K)
    requires Valid(d)
    ensures forall i :: 0 <= i < |d| && d[i].0 == k ==> Get(d, k) == Some(d[i].1)
  {
    forall i | 0 <= i < |d| && d[i].0 == k
      ensures Get(d, k) == Some(d[i].1)
    {
      var j :| 0 <= j < |d| && d[j] == (k, Get(d, k).value);
      assert i == j;
    }
  }

  /** An assignment adds its key and keeps every other. */
  lemma PutHasKey<K, V>(d: Dict<K, V>, k: K, v: V, k': K)
    requires Valid(d)
    ensures HasKey(Put(d, k, v), k') <==> HasKey(d, k') || k' == k
  {
    PutGet(d, k, v, k');
  }

  /** A dict with one more entry at its end: that entry's key reads its
      value, every other key what the shorter dict gave it. */
  lemma GetSnoc<K, V>(d: Dict<K, V>, k: K, v: V, k': K)
    requires Valid(d + [(k, v)])
    ensures Valid(d) && !HasKey(d, k)
    ensures Get(d + [(k, v)], k') == if k' == k then Some(v) else Get(d, k')
  {
    var r := d + [(k, v)];
    assert forall i :: 0 <= i < |d| ==> r[i] == d[i];
    forall i | 0 <= i < |d| ensures d[i].0 != k {
      assert r[i].0 != r[|d|].0;
    }
    GetUnique(r, k');
    GetUnique(d, k');
    if k' == k {
      assert r[|d|].0 == k;
    } else if HasKey(d, k') {
      var i :| 0 <= i < |d| && d[i].0 == k';
      assert r[i].0 == k';
    } else {
      forall i | 0 <= i < |r| ensures r[i].0 != k' {
        if i < |d| {
          assert r[i] == d[i];
        }
      }
    }
  }

  /** Assigning keeps the keys where they are and appends a new one. */
  lemma PutKeys<K, V>(d: Dict<K, V>, k: K, v: V)
    ensures Keys(Put(d, k, v)) == if HasKey(d, k) then Keys(d) else Keys(d) + [k]
  {
    var a := Keys(Put(d, k, v));
    var b := if HasKey(d, k) then Keys(d) else Keys(d) + [k];
    assert |a| == |b|;
    forall i | 0 <= i < |a|
      ensures a[i] == b[i]
    {
    }
  }

  /** Assigning to a present key replaces its value in place. */
  lemma PutValuesAt<K, V>(d: Dict<K, V>, k: K, v: V, i: int)
    requires Valid(d) && 0 <= i < |d| && d[i].0 == k
    ensures Values(Put(d, k, v)) == Values(d)[i := v]
  {
    var d' := Put(d, k, v);
    assert HasKey(d, k);
    PutSlot(d, k, v, i);
    var a, b := Values(d'), Values(d)[i := v];
    forall j | 0 <= j < |d|
      ensures a[j] == b[j]
    {
      if j != i {
        assert d[j].0 != k;
        assert d'[j] == d[j];
      }
    }
    assert a == b;
  }

  /** Assigning to a new key appends its value. */
  lemma PutValuesNew<K, V>(d: Dict<K, V>, k: K, v: V)
    requires !HasKey(d, k)
    ensures Values(Put(d, k, v)) == Values(d) + [v]
  {
    var d' := Put(d, k, v);
    forall j | 0 <= j < |d| ensures d'[j].1 == d[j].1 {
      assert d[j].0 != k;
    }
  }
}

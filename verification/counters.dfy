/** Counter dictionaries: items counted by a key, keys kept in the order
    they were first seen, as the analysis view's buckets are built. */
module Counters {
  import opened Wrappers
  import Seqs
  import Dicts

  /** A counter dictionary: counts by key, keys in first-seen order. */
  type Counter<K> = Dicts.Dict<K, int>

  /** `inc`: one more under the key. */
  function Inc<K(==)>(d: Counter<K>, k: K): Counter<K> {
    Dicts.Put(d, k, Next(Dicts.Get(d, k)))
  }

  /** The count after one more: a missing count is zero. */
  function Next(count: Option<int>): int {
    count.GetOr(0) + 1
  }

  /** Counts the items by `keyOf`. */
  function CountBy<T, K(==)>(xs: seq<T>, keyOf: T -> K): (d: Counter<K>)
    ensures Dicts.Valid(d)
    decreases |xs|
  {
    if |xs| == 0 then []
    else
      var d := CountBy(xs[..|xs| - 1], keyOf);
      var k := keyOf(xs[|xs| - 1]);
      Dicts.PutValid(d, k, Next(Dicts.Get(d, k)));
      Inc(d, k)
  }

  /** The count a key should have: none if no item has it. */
  function CountAfter<T, K(==)>(xs: seq<T>, keyOf: T -> K, k: K): Option<int> {
    var n := |Seqs.Filter(xs, Seqs.KeyIs(keyOf, k))|;
    if n == 0 then None else Some(n)
  }

  /** A key is present exactly when some item has it, with the number of
      items that have it. */
  lemma {:induction false} CountByGet<T, K>(xs: seq<T>, keyOf: T -> K, k: K)
    ensures Dicts.Get(CountBy(xs, keyOf), k) == CountAfter(xs, keyOf, k)
    decreases |xs|
  {
    if |xs| > 0 {
      var init := xs[..|xs| - 1];
      var t := xs[|xs| - 1];
      var d := CountBy(init, keyOf);
      CountByGet(init, keyOf, k);
      IncGet(d, keyOf(t), k);
      CountAfterLast(xs, keyOf, k);
      SameStep(Dicts.Get(Inc(d, keyOf(t)), k), CountAfter(xs, keyOf, k),
               Dicts.Get(d, k), CountAfter(init, keyOf, k), keyOf(t) == k);
    }
  }

  lemma SameStep(after: Option<int>, after': Option<int>, before: Option<int>, before': Option<int>, hit: bool)
    requires before == before'
    requires after == if hit then Some(Next(before)) else before
    requires after' == if hit then Some(Next(before')) else before'
    ensures after == after'
  {
  }

  /** Reading back after `inc`: the key's count is one more, every other
      key's count is unchanged. */
  lemma IncGet<K>(d: Counter<K>, kt: K, k: K)
    requires Dicts.Valid(d)
    ensures Dicts.Get(Inc(d, kt), k) == if kt == k then Some(Next(Dicts.Get(d, k))) else Dicts.Get(d, k)
  {
    Dicts.PutGet(d, kt, Next(Dicts.Get(d, kt)), k);
  }

  /** One more item adds one to its own key's count and leaves the other
      keys' counts alone. */
  lemma CountAfterLast<T, K>(xs: seq<T>, keyOf: T -> K, k: K)
    requires |xs| > 0
    ensures CountAfter(xs, keyOf, k)
      == if keyOf(xs[|xs| - 1]) == k then Some(Next(CountAfter(xs[..|xs| - 1], keyOf, k)))
         else CountAfter(xs[..|xs| - 1], keyOf, k)
  {
    var p := Seqs.KeyIs(keyOf, k);
    assert p(xs[|xs| - 1]) <==> keyOf(xs[|xs| - 1]) == k;
  }

  /** Counts as the naturals they are. */
  function CountValue(v: int): nat {
    if v < 0 then 0 else v
  }

  /** Every item is counted under exactly one key: the counts add up to
      the number of items. */
  lemma {:induction false} CountByTotal<T, K>(xs: seq<T>, keyOf: T -> K)
    ensures Seqs.Sum(Dicts.Values(CountBy(xs, keyOf)), CountValue) == |xs|
    decreases |xs|
  {
    if |xs| > 0 {
      var init := xs[..|xs| - 1];
      var k := keyOf(xs[|xs| - 1]);
      CountByTotal(init, keyOf);
      CountByGet(init, keyOf, k);
      IncTotal(CountBy(init, keyOf), k);
    }
  }

  lemma IncTotal<K>(d: Counter<K>, k: K)
    requires Dicts.Valid(d) && Dicts.Get(d, k).GetOr(0) >= 0
    ensures Seqs.Sum(Dicts.Values(Inc(d, k)), CountValue) == Seqs.Sum(Dicts.Values(d), CountValue) + 1
  {
    if Dicts.HasKey(d, k) {
      var i :| 0 <= i < |d| && d[i].0 == k;
      IncAt(d, k, i);
    } else {
      assert Inc(d, k) == Dicts.Put(d, k, 1);
      Dicts.PutValuesNew(d, k, 1);
      SumSnocOne(Dicts.Values(d));
    }
  }

  lemma IncAt<K>(d: Counter<K>, k: K, i: int)
    requires Dicts.Valid(d) && 0 <= i < |d| && d[i].0 == k && d[i].1 >= 0
    ensures Seqs.Sum(Dicts.Values(Inc(d, k)), CountValue) == Seqs.Sum(Dicts.Values(d), CountValue) + 1
  {
    Dicts.GetUnique(d, k);
    var v := Next(Some(d[i].1));
    assert Inc(d, k) == Dicts.Put(d, k, v);
    Dicts.PutValuesAt(d, k, v, i);
    SumBump(Dicts.Values(d), i, v);
  }

  lemma SumBump(vs: seq<int>, i: int, v: int)
    requires 0 <= i < |vs| && vs[i] >= 0 && v == Next(Some(vs[i]))
    ensures Seqs.Sum(vs[i := v], CountValue) == Seqs.Sum(vs, CountValue) + 1
  {
    Seqs.SumUpdate(vs, CountValue, i, v);
  }

  lemma SumSnocOne(vs: seq<int>)
    ensures Seqs.Sum(vs + [1], CountValue) == Seqs.Sum(vs, CountValue) + 1
  {
    var v := 1;
    Seqs.SumAppend(vs, [v], CountValue);
    assert Seqs.Sum([v], CountValue) == 1 by {
      assert [v][..0] == [];
    }
  }

}

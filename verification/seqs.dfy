/** Sequence helpers shared by the model: order-preserving filtering,
    subsequences, sums and distinctness. */
module Seqs {

  /** `a` can be obtained from `b` by deleting elements. */
  predicate IsSubseq<T(==)>(a: seq<T>, b: seq<T>)
    decreases |b|
  {
    if |b| == 0 then |a| == 0
    else
      (|a| > 0 && a[|a| - 1] == b[|b| - 1] && IsSubseq(a[..|a| - 1], b[..|b| - 1]))
      || IsSubseq(a, b[..|b| - 1])
  }

  /** The elements of `s` that satisfy `p`, in their original order. */
  function Filter<T>(s: seq<T>, p: T -> bool): (r: seq<T>)
    ensures |r| <= |s|
    ensures forall i :: 0 <= i < |r| ==> p(r[i])
    decreases |s|
  {
    if |s| == 0 then []
    else Filter(s[..|s| - 1], p) + (if p(s[|s| - 1]) then [s[|s| - 1]] else [])
  }

  /** Filtering keeps the chosen elements in their order. */
  lemma {:induction false} FilterIsSubseq<T>(s: seq<T>, p: T -> bool)
    ensures IsSubseq(Filter(s, p), s)
    decreases |s|
  {
    if |s| > 0 {
      var init := s[..|s| - 1];
      FilterIsSubseq(init, p);
      var r := Filter(s, p);
      if p(s[|s| - 1]) {
        assert r[..|r| - 1] == Filter(init, p);
      } else {
        assert r == Filter(init, p);
        assert IsSubseq(r, s[..|s| - 1]);
      }
    }
  }

  /** Filtering keeps every occurrence of a chosen element and no other. */
  lemma {:induction false} FilterCount<T>(s: seq<T>, p: T -> bool, x: T)
    ensures multiset(Filter(s, p))[x] == if p(x) then multiset(s)[x] else 0
    decreases |s|
  {
    if |s| > 0 {
      var init := s[..|s| - 1];
      assert s == init + [s[|s| - 1]];
      FilterCount(init, p, x);
    }
  }

  lemma FilterMembers<T>(s: seq<T>, p: T -> bool, x: T)
    ensures x in Filter(s, p) <==> x in s && p(x)
  {
    FilterCount(s, p, x);
    assert multiset(s)[x] > 0 <==> x in s;
    assert multiset(Filter(s, p))[x] > 0 <==> x in Filter(s, p);
  }

  lemma {:induction false} FilterAppend<T>(a: seq<T>, b: seq<T>, p: T -> bool)
    ensures Filter(a + b, p) == Filter(a, p) + Filter(b, p)
    decreases |b|
  {
    if |b| == 0 {
      assert a + b == a;
    } else {
      var b' := b[..|b| - 1];
      assert (a + b)[..|a + b| - 1] == a + b';
      FilterAppend(a, b', p);
    }
  }

  /** Sum of `f` over the elements of `s`. */
  function Sum<T>(s: seq<T>, f: T -> nat): nat
    decreases |s|
  {
    if |s| == 0 then 0 else Sum(s[..|s| - 1], f) + f(s[|s| - 1])
  }

  lemma {:induction false} SumAppend<T>(a: seq<T>, b: seq<T>, f: T -> nat)
    ensures Sum(a + b, f) == Sum(a, f) + Sum(b, f)
    decreases |b|
  {
    if |b| == 0 {
      assert a + b == a;
    } else {
      var b' := b[..|b| - 1];
      assert (a + b)[..|a + b| - 1] == a + b';
      SumAppend(a, b', f);
    }
  }

  /** Sums agree when the summed values agree position by position. */
  lemma {:induction false} SumPointwise<T, U>(a: seq<T>, f: T -> nat, b: seq<U>, g: U -> nat)
    requires |a| == |b|
    requires forall i :: 0 <= i < |a| ==> f(a[i]) == g(b[i])
    ensures Sum(a, f) == Sum(b, g)
    decreases |a|
  {
    if |a| > 0 {
      SumPointwise(a[..|a| - 1], f, b[..|b| - 1], g);
    }
  }

  /** Filters keep as many elements when their predicates agree position
      by position. */
  lemma {:induction false} FilterLengthPointwise<T, U>(a: seq<T>, p: T -> bool, b: seq<U>, q: U -> bool)
    requires |a| == |b|
    requires forall i :: 0 <= i < |a| ==> p(a[i]) == q(b[i])
    ensures |Filter(a, p)| == |Filter(b, q)|
    decreases |a|
  {
    if |a| > 0 {
      FilterLengthPointwise(a[..|a| - 1], p, b[..|b| - 1], q);
    }
  }

  /** No element occurs twice. */
  predicate Distinct<T(==)>(s: seq<T>) {
    forall i, j :: 0 <= i < j < |s| ==> s[i] != s[j]
  }

  /** Applies `f` to every element, keeping the order. */
  function Map<T, U>(s: seq<T>, f: T -> U): (r: seq<U>)
    ensures |r| == |s|
    ensures forall i :: 0 <= i < |s| ==> r[i] == f(s[i])
  {
    seq(|s|, i requires 0 <= i < |s| => f(s[i]))
  }

  lemma MapAppend<T, U>(a: seq<T>, b: seq<T>, f: T -> U)
    ensures Map(a + b, f) == Map(a, f) + Map(b, f)
  {
  }

  /** The elements whose key is `k`. */
  function KeyIs<T, K(==)>(key: T -> K, k: K): T -> bool {
    (x: T) => key(x) == k
  }

  /** Filtering by a stronger predicate keeps a subsequence of what the
      weaker one keeps. */
  lemma {:induction false} FilterStronger<T>(s: seq<T>, p: T -> bool, q: T -> bool)
    requires forall x :: p(x) ==> q(x)
    ensures IsSubseq(Filter(s, p), Filter(s, q))
    decreases |s|
  {
    if |s| > 0 {
      var init := s[..|s| - 1];
      var last := s[|s| - 1];
      FilterStronger(init, p, q);
      var a, b := Filter(s, p), Filter(s, q);
      if p(last) {
        assert a[..|a| - 1] == Filter(init, p);
        assert b[..|b| - 1] == Filter(init, q);
      } else if q(last) {
        assert a == Filter(init, p);
        assert b == Filter(init, q) + [last];
        assert b[..|b| - 1] == Filter(init, q);
        assert IsSubseq(a, b[..|b| - 1]);
      } else {
        assert a == Filter(init, p) && b == Filter(init, q);
      }
    }
  }

  /** Mapping keeps the subsequence relation. */
  lemma {:induction false} MapSubseq<T, U>(a: seq<T>, b: seq<T>, f: T -> U)
    requires IsSubseq(a, b)
    ensures IsSubseq(Map(a, f), Map(b, f))
    decreases |b|
  {
    if |b| > 0 {
      var ma, mb := Map(a, f), Map(b, f);
      assert mb[..|mb| - 1] == Map(b[..|b| - 1], f);
      if |a| > 0 && a[|a| - 1] == b[|b| - 1] && IsSubseq(a[..|a| - 1], b[..|b| - 1]) {
        MapSubseq(a[..|a| - 1], b[..|b| - 1], f);
        assert ma[..|ma| - 1] == Map(a[..|a| - 1], f);
      } else {
        MapSubseq(a, b[..|b| - 1], f);
      }
    }
  }

  /** Predicates that agree everywhere filter alike. */
  lemma {:induction false} FilterSame<T>(s: seq<T>, p: T -> bool, q: T -> bool)
    requires forall x :: p(x) == q(x)
    ensures Filter(s, p) == Filter(s, q)
    decreases |s|
  {
    if |s| > 0 {
      FilterSame(s[..|s| - 1], p, q);
    }
  }

  /** A predicate nothing satisfies filters everything out. */
  lemma {:induction false} FilterNone<T>(s: seq<T>, p: T -> bool)
    requires forall x :: !p(x)
    ensures Filter(s, p) == []
    decreases |s|
  {
    if |s| > 0 {
      FilterNone(s[..|s| - 1], p);
    }
  }

  lemma {:induction false} SubseqRefl<T>(s: seq<T>)
    ensures IsSubseq(s, s)
    decreases |s|
  {
    if |s| > 0 {
      SubseqRefl(s[..|s| - 1]);
    }
  }
  /** A filter is empty exactly when no element satisfies the predicate. */
  lemma {:induction false} FilterEmpty<T>(s: seq<T>, p: T -> bool)
    ensures |Filter(s, p)| == 0 <==> forall i :: 0 <= i < |s| ==> !p(s[i])
    decreases |s|
  {
    if |s| > 0 {
      var init := s[..|s| - 1];
      FilterEmpty(init, p);
      assert forall i :: 0 <= i < |init| ==> init[i] == s[i];
    }
  }

  /** Two satisfying positions leave at least two elements. */
  lemma {:induction false} FilterTwo<T>(s: seq<T>, p: T -> bool, j: int, k: int)
    requires 0 <= j < k < |s| && p(s[j]) && p(s[k])
    ensures |Filter(s, p)| >= 2
    decreases |s|
  {
    var init := s[..|s| - 1];
    if k < |s| - 1 {
      assert init[j] == s[j] && init[k] == s[k];
      FilterTwo(init, p, j, k);
    } else {
      assert init[j] == s[j];
      FilterEmpty(init, p);
    }
  }

  /** When only position `j` satisfies the predicate, the filter is that
      element alone. */
  lemma {:induction false} FilterOnly<T>(s: seq<T>, p: T -> bool, j: int)
    requires 0 <= j < |s| && p(s[j])
    requires forall k :: 0 <= k < |s| && k != j ==> !p(s[k])
    ensures Filter(s, p) == [s[j]]
    decreases |s|
  {
    var init := s[..|s| - 1];
    if j < |s| - 1 {
      FilterOnly(init, p, j);
    } else {
      FilterEmpty(init, p);
    }
  }

  /** Replacing one element changes the sum by the difference. */
  lemma {:induction false} SumUpdate<T>(s: seq<T>, f: T -> nat, i: int, v: T)
    requires 0 <= i < |s|
    ensures Sum(s[i := v], f) + f(s[i]) == Sum(s, f) + f(v)
    decreases |s|
  {
    var t := s[i := v];
    if i < |s| - 1 {
      assert t[..|t| - 1] == s[..|s| - 1][i := v];
      SumUpdate(s[..|s| - 1], f, i, v);
    } else {
      assert t[..|t| - 1] == s[..|s| - 1];
    }
  }

  /** Sums do not depend on the order of the elements. */
  lemma {:induction false} SumPermutation<T>(a: seq<T>, b: seq<T>, f: T -> nat)
    requires multiset(a) == multiset(b)
    ensures Sum(a, f) == Sum(b, f)
    decreases |a|
  {
    if |a| == 0 {
      assert |b| == |multiset(b)| == 0;
    } else {
      var x := a[|a| - 1];
      var init := a[..|a| - 1];
      assert x in multiset(b) by {
        assert a == init + [x];
      }
      var j :| 0 <= j < |b| && b[j] == x;
      var rest := b[..j] + b[j + 1..];
      assert multiset(init) == multiset(rest) by {
        RemoveLast(a);
        RemoveAt(b, j);
      }
      SumPermutation(init, rest, f);
      SumRemove(b, j, f);
    }
  }

  lemma RemoveLast<T>(a: seq<T>)
    requires |a| > 0
    ensures multiset(a[..|a| - 1]) == multiset(a) - multiset{a[|a| - 1]}
  {
    assert a == a[..|a| - 1] + [a[|a| - 1]];
  }

  lemma RemoveAt<T>(b: seq<T>, j: int)
    requires 0 <= j < |b|
    ensures multiset(b[..j] + b[j + 1..]) == multiset(b) - multiset{b[j]}
  {
    assert b == b[..j] + [b[j]] + b[j + 1..];
  }

  /** Taking one element out of a sequence takes its value off the sum. */
  lemma SumRemove<T>(b: seq<T>, j: int, f: T -> nat)
    requires 0 <= j < |b|
    ensures Sum(b, f) == Sum(b[..j] + b[j + 1..], f) + f(b[j])
  {
    var x, u, w := b[j], b[..j], b[j + 1..];
    assert b[..j + 1] == u + [x];
    assert b == b[..j + 1] + w;
    SumAppend(b[..j + 1], w, f);
    SumAppend(u, [x], f);
    SumAppend(u, w, f);
    assert Sum([x], f) == f(x) by {
      assert [x][..0] == [];
    }
  }

  /** A predicate every element satisfies filters nothing out. */
  lemma {:induction false} FilterAll<T>(s: seq<T>, p: T -> bool)
    requires forall i :: 0 <= i < |s| ==> p(s[i])
    ensures Filter(s, p) == s
    decreases |s|
  {
    if |s| > 0 {
      FilterAll(s[..|s| - 1], p);
    }
  }

  /** A property every element has is had by every element a filter
      keeps. */
  lemma FilterPreserves<T>(s: seq<T>, p: T -> bool, q: T -> bool)
    requires forall i :: 0 <= i < |s| ==> q(s[i])
    ensures forall i :: 0 <= i < |Filter(s, p)| ==> q(Filter(s, p)[i])
  {
    forall i | 0 <= i < |Filter(s, p)|
      ensures q(Filter(s, p)[i])
    {
      FilterMembers(s, p, Filter(s, p)[i]);
    }
  }

  /** Drops up to two leading elements that satisfy `p`. */
  function DropTwo<T>(s: seq<T>, p: T -> bool): (r: seq<T>)
    ensures |s| - 2 <= |r| <= |s| && r == s[|s| - |r|..]
    ensures forall i :: 0 <= i < |s| - |r| ==> p(s[i])
    ensures |r| > 0 && |s| - |r| < 2 ==> !p(r[0])
  {
    if |s| >= 2 && p(s[0]) && p(s[1]) then s[2..]
    else if |s| >= 1 && p(s[0]) then s[1..]
    else s
  }
}

/** Python's `sorted` with a key, as a stable insertion sort over a
    "may come before" relation. */
module Sorting {
  import Seqs

  /** `le` orders every pair and is transitive, as Python's `<=` on dates,
      integers and strings is. */
  ghost predicate TotalPreorder<T(!new)>(le: (T, T) -> bool) {
    (forall a, b :: le(a, b) || le(b, a))
    && (forall a, b, c :: le(a, b) && le(b, c) ==> le(a, c))
  }

  predicate SortedBy<T>(s: seq<T>, le: (T, T) -> bool) {
    forall i, j :: 0 <= i < j < |s| ==> le(s[i], s[j])
  }

  /** Places `x` after the last element that may come before it, so that
      equal elements keep their arrival order. */
  function InsertLast<T>(s: seq<T>, x: T, le: (T, T) -> bool): (r: seq<T>)
    ensures multiset(r) == multiset(s) + multiset{x}
    ensures |r| == |s| + 1
    decreases |s|
  {
    if |s| == 0 then [x]
    else if le(s[|s| - 1], x) then s + [x]
    else
      var init := s[..|s| - 1];
      assert s == init + [s[|s| - 1]];
      InsertLast(init, x, le) + [s[|s| - 1]]
  }

  lemma {:induction false} InsertLastSorted<T(!new)>(s: seq<T>, x: T, le: (T, T) -> bool)
    requires TotalPreorder(le)
    requires SortedBy(s, le)
    ensures SortedBy(InsertLast(s, x, le), le)
    decreases |s|
  {
    if |s| > 0 {
      var last := s[|s| - 1];
      var r := InsertLast(s, x, le);
      if !le(last, x) {
        var init := s[..|s| - 1];
        InsertLastSorted(init, x, le);
        var r' := InsertLast(init, x, le);
        assert r == r' + [last];
        forall i | 0 <= i < |r'|
          ensures le(r'[i], last)
        {
          assert r'[i] in multiset(r');
          if r'[i] != x {
            assert r'[i] in multiset(init);
            var k :| 0 <= k < |init| && init[k] == r'[i];
            assert s[k] == init[k];
          }
        }
      }
    }
  }

  /** Sorts `s` by `le`, keeping equal elements in their input order. */
  function SortBy<T>(s: seq<T>, le: (T, T) -> bool): (r: seq<T>)
    ensures multiset(r) == multiset(s)
    ensures |r| == |s|
    decreases |s|
  {
    if |s| == 0 then []
    else
      var init := s[..|s| - 1];
      assert s == init + [s[|s| - 1]];
      InsertLast(SortBy(init, le), s[|s| - 1], le)
  }

  /** The result of SortBy is ordered by `le`. */
  lemma {:induction false} SortBySorted<T(!new)>(s: seq<T>, le: (T, T) -> bool)
    requires TotalPreorder(le)
    ensures SortedBy(SortBy(s, le), le)
    decreases |s|
  {
    if |s| > 0 {
      SortBySorted(s[..|s| - 1], le);
      InsertLastSorted(SortBy(s[..|s| - 1], le), s[|s| - 1], le);
    }
  }

  /** The elements `le` ties with `p`: those that may come both before
      and after it. */
  function Tied<T>(le: (T, T) -> bool, p: T): T -> bool {
    (y: T) => le(y, p) && le(p, y)
  }

  /** One step of the stability proof: an element not tied together with
      `x` may change places with it without changing the tied elements'
      order. */
  lemma TiedSnocSwap<T>(m: seq<T>, init: seq<T>, last: T, x: T, t: T -> bool)
    requires Seqs.Filter(m, t) == Seqs.Filter(init, t) + Seqs.Filter([x], t)
    requires !(t(x) && t(last))
    ensures Seqs.Filter(m + [last], t) == Seqs.Filter(init + [last], t) + Seqs.Filter([x], t)
  {
    var r, s := m + [last], init + [last];
    assert r[..|r| - 1] == m;
    assert s[..|s| - 1] == init;
    assert Seqs.Filter([x], t) == (if t(x) then [x] else []) by {
      assert [x][..0] == [];
    }
  }

  /** The elements tied with `p` keep their order: an inserted element
      tied with `p` comes after every earlier one tied with `p`. */
  lemma {:induction false} InsertLastTied<T(!new)>(s: seq<T>, x: T, le: (T, T) -> bool, p: T)
    requires TotalPreorder(le)
    ensures Seqs.Filter(InsertLast(s, x, le), Tied(le, p))
      == Seqs.Filter(s, Tied(le, p)) + Seqs.Filter([x], Tied(le, p))
    decreases |s|
  {
    var t := Tied(le, p);
    if |s| == 0 {
      assert InsertLast(s, x, le) == [x];
    } else if le(s[|s| - 1], x) {
      var r := s + [x];
      assert InsertLast(s, x, le) == r;
      assert r[..|r| - 1] == s;
      assert Seqs.Filter([x], t) == (if t(x) then [x] else []) by {
        assert [x][..0] == [];
      }
    } else {
      var init, last := s[..|s| - 1], s[|s| - 1];
      var m := InsertLast(init, x, le);
      assert InsertLast(s, x, le) == m + [last];
      assert s == init + [last];
      InsertLastTied(init, x, le, p);
      assert !(t(x) && t(last)) by {
        if t(x) && t(last) {
          assert false;
        }
      }
      TiedSnocSwap(m, init, last, x, t);
    }
  }

  /** SortBy is stable: the elements tied with any `p` come out in the
      order they went in. */
  lemma {:induction false} SortByStable<T(!new)>(s: seq<T>, le: (T, T) -> bool, p: T)
    requires TotalPreorder(le)
    ensures Seqs.Filter(SortBy(s, le), Tied(le, p)) == Seqs.Filter(s, Tied(le, p))
    decreases |s|
  {
    if |s| > 0 {
      var init, last := s[..|s| - 1], s[|s| - 1];
      var t := Tied(le, p);
      SortByStable(init, le, p);
      InsertLastTied(SortBy(init, le), last, le, p);
      assert Seqs.Filter([last], t) == (if t(last) then [last] else []) by {
        assert [last][..0] == [];
      }
    }
  }

  /** Stability for every tie class at once. */
  lemma SortByStableAll<T(!new)>(s: seq<T>, le: (T, T) -> bool)
    requires TotalPreorder(le)
    ensures forall p :: Seqs.Filter(SortBy(s, le), Tied(le, p)) == Seqs.Filter(s, Tied(le, p))
  {
    forall p
      ensures Seqs.Filter(SortBy(s, le), Tied(le, p)) == Seqs.Filter(s, Tied(le, p))
    {
      SortByStable(s, le, p);
    }
  }

  /** Inserting commutes with a projection that keeps the order. */
  lemma {:induction false} InsertLastMap<T, U>(s: seq<T>, x: T, le: (T, T) -> bool, f: T -> U, le': (U, U) -> bool)
    requires forall a, b :: le'(f(a), f(b)) == le(a, b)
    ensures InsertLast(Seqs.Map(s, f), f(x), le') == Seqs.Map(InsertLast(s, x, le), f)
    decreases |s|
  {
    var ms := Seqs.Map(s, f);
    if |s| == 0 {
      assert Seqs.Map([x], f) == [f(x)];
    } else if le(s[|s| - 1], x) {
      assert InsertLast(s, x, le) == s + [x];
      assert Seqs.Map(s + [x], f) == ms + [f(x)];
    } else {
      var init := s[..|s| - 1];
      var last := s[|s| - 1];
      assert ms[..|ms| - 1] == Seqs.Map(init, f);
      InsertLastMap(init, x, le, f, le');
      var r := InsertLast(init, x, le);
      assert Seqs.Map(r + [last], f) == Seqs.Map(r, f) + [f(last)];
    }
  }

  /** Sorting commutes with a projection that keeps the order. */
  lemma {:induction false} SortByMap<T, U>(s: seq<T>, le: (T, T) -> bool, f: T -> U, le': (U, U) -> bool)
    requires forall a, b :: le'(f(a), f(b)) == le(a, b)
    ensures SortBy(Seqs.Map(s, f), le') == Seqs.Map(SortBy(s, le), f)
    decreases |s|
  {
    if |s| > 0 {
      var init := s[..|s| - 1];
      var last := s[|s| - 1];
      var ms := Seqs.Map(s, f);
      assert ms[..|ms| - 1] == Seqs.Map(init, f);
      assert ms[|ms| - 1] == f(last);
      assert SortBy(ms, le') == InsertLast(SortBy(Seqs.Map(init, f), le'), f(last), le');
      SortByMap(init, le, f, le');
      InsertLastMap(SortBy(init, le), last, le, f, le');
      assert SortBy(s, le) == InsertLast(SortBy(init, le), last, le);
    }
  }
}

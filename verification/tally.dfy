/** Counting folds. A collector visits tags in order and, for each, adds 1
    to each cell of the tag's placement; the first tag whose placement
    fails aborts the whole collection with that error. The counts form a
    multiset of cells, which is what a `defaultdict(int)` filled only by
    `+= 1` is. */
module Counting {
  import opened Wrappers
  import Seqs

  predicate AllPlaced<T, C(==)>(xs: seq<T>, place: T -> Result<seq<C>>) {
    forall i :: 0 <= i < |xs| ==> place(xs[i]).Ok?
  }

  /** Number of cells placed for one item; 0 when the placement fails. */
  function Placed<T, C(==)>(place: T -> Result<seq<C>>, x: T): nat {
    if place(x).Ok? then |place(x).value| else 0
  }

  /** Number of times one item's placement hits cell `c`. */
  function Hits<T, C(==)>(place: T -> Result<seq<C>>, x: T, c: C): nat {
    if place(x).Ok? then multiset(place(x).value)[c] else 0
  }

  function Tally<T, C(==)>(xs: seq<T>, place: T -> Result<seq<C>>): (r: Result<multiset<C>>)
    ensures r.Ok? <==> AllPlaced(xs, place)
    decreases |xs|
  {
    if |xs| == 0 then Ok(multiset{})
    else
      var init := xs[..|xs| - 1];
      var last := xs[|xs| - 1];
      assert AllPlaced(xs, place) <==> AllPlaced(init, place) && place(last).Ok? by {
        if AllPlaced(init, place) && place(last).Ok? {
          forall i | 0 <= i < |xs| ensures place(xs[i]).Ok? {
            if i < |xs| - 1 { assert xs[i] == init[i]; }
          }
        }
      }
      match Tally(init, place)
      case Err(e) => Err(e)
      case Ok(m) =>
        match place(last)
        case Err(e) => Err(e)
        case Ok(cells) => Ok(m + multiset(cells))
  }

  /** Collecting a concatenation collects each part and adds the counts. */
  lemma {:induction false} TallyAppend<T, C>(a: seq<T>, b: seq<T>, place: T -> Result<seq<C>>)
    requires AllPlaced(a + b, place)
    ensures Tally(a, place).Ok? && Tally(b, place).Ok?
    ensures Tally(a + b, place).value == Tally(a, place).value + Tally(b, place).value
    decreases |b|
  {
    assert AllPlaced(a, place) by {
      forall i | 0 <= i < |a| ensures place(a[i]).Ok? { assert a[i] == (a + b)[i]; }
    }
    assert AllPlaced(b, place) by {
      forall i | 0 <= i < |b| ensures place(b[i]).Ok? { assert b[i] == (a + b)[|a| + i]; }
    }
    if |b| == 0 {
      assert a + b == a;
    } else {
      var b' := b[..|b| - 1];
      assert (a + b)[..|a + b| - 1] == a + b';
      assert AllPlaced(a + b', place) by {
        forall i | 0 <= i < |a + b'| ensures place((a + b')[i]).Ok? { assert (a + b')[i] == (a + b)[i]; }
      }
      TallyAppend(a, b', place);
    }
  }

  /** The size of the result: every item contributes its placed cells. */
  lemma {:induction false} TallySize<T, C>(xs: seq<T>, place: T -> Result<seq<C>>)
    requires AllPlaced(xs, place)
    ensures |Tally(xs, place).value| == Seqs.Sum(xs, x => Placed(place, x))
    decreases |xs|
  {
    if |xs| > 0 {
      var init := xs[..|xs| - 1];
      assert AllPlaced(init, place) by {
        forall i | 0 <= i < |init| ensures place(init[i]).Ok? { assert init[i] == xs[i]; }
      }
      TallySize(init, place);
    }
  }

  /** When every failing placement fails with `e`, so does the collection. */
  lemma {:induction false} TallyErrorFrom<T, C>(xs: seq<T>, place: T -> Result<seq<C>>, e: Error)
    requires forall x :: place(x).Err? ==> place(x).error == e
    ensures Tally(xs, place).Err? ==> Tally(xs, place).error == e
    decreases |xs|
  {
    if |xs| > 0 {
      TallyErrorFrom(xs[..|xs| - 1], place, e);
    }
  }

  /** The collection fails with the error of the first item whose
      placement fails. */
  lemma {:induction false} TallyFirstError<T, C>(xs: seq<T>, place: T -> Result<seq<C>>, i: int)
    requires 0 <= i < |xs| && place(xs[i]).Err?
    requires forall j :: 0 <= j < i ==> place(xs[j]).Ok?
    ensures Tally(xs, place) == Err(place(xs[i]).error)
    decreases |xs|
  {
    var init := xs[..|xs| - 1];
    if i < |xs| - 1 {
      assert init[i] == xs[i];
      forall j | 0 <= j < i ensures place(init[j]).Ok? { assert init[j] == xs[j]; }
      TallyFirstError(init, place, i);
    } else {
      assert AllPlaced(init, place) by {
        forall j | 0 <= j < |init| ensures place(init[j]).Ok? { assert init[j] == xs[j]; }
      }
    }
  }

  /** The count of one cell: the number of hits summed over the items. */
  lemma {:induction false} TallyCount<T, C>(xs: seq<T>, place: T -> Result<seq<C>>, c: C)
    requires AllPlaced(xs, place)
    ensures Tally(xs, place).value[c] == Seqs.Sum(xs, x => Hits(place, x, c))
    decreases |xs|
  {
    if |xs| > 0 {
      var init := xs[..|xs| - 1];
      assert AllPlaced(init, place) by {
        forall i | 0 <= i < |init| ensures place(init[i]).Ok? { assert init[i] == xs[i]; }
      }
      TallyCount(init, place, c);
    }
  }

  /** When every item hits `c1` at most as often as `c2`, so does the
      whole collection. */
  lemma {:induction false} TallyDominated<T, C>(xs: seq<T>, place: T -> Result<seq<C>>, c1: C, c2: C)
    requires AllPlaced(xs, place)
    requires forall x :: Hits(place, x, c1) <= Hits(place, x, c2)
    ensures Tally(xs, place).value[c1] <= Tally(xs, place).value[c2]
    decreases |xs|
  {
    if |xs| > 0 {
      var init := xs[..|xs| - 1];
      assert AllPlaced(init, place) by {
        forall i | 0 <= i < |init| ensures place(init[i]).Ok? { assert init[i] == xs[i]; }
      }
      TallyDominated(init, place, c1, c2);
      assert Hits(place, xs[|xs| - 1], c1) <= Hits(place, xs[|xs| - 1], c2);
    }
  }

  /** When each item hits `c` once if it satisfies `p` and never otherwise,
      the count of `c` is the number of items satisfying `p`. */
  lemma {:induction false} TallyIndicator<T, C>(xs: seq<T>, place: T -> Result<seq<C>>, c: C, p: T -> bool)
    requires AllPlaced(xs, place)
    requires forall x :: Hits(place, x, c) == if p(x) then 1 else 0
    ensures Tally(xs, place).value[c] == |Seqs.Filter(xs, p)|
    decreases |xs|
  {
    if |xs| > 0 {
      var init := xs[..|xs| - 1];
      assert AllPlaced(init, place) by {
        forall i | 0 <= i < |init| ensures place(init[i]).Ok? { assert init[i] == xs[i]; }
      }
      TallyIndicator(init, place, c, p);
      assert Hits(place, xs[|xs| - 1], c) == if p(xs[|xs| - 1]) then 1 else 0;
    }
  }

  /** Every counted cell satisfies `ok` when every placed cell does. */
  lemma {:induction false} TallyCellsWithin<T, C>(xs: seq<T>, place: T -> Result<seq<C>>, ok: C -> bool)
    requires AllPlaced(xs, place)
    requires forall x, c :: place(x).Ok? && c in place(x).value ==> ok(c)
    ensures forall c :: c in Tally(xs, place).value ==> ok(c)
    decreases |xs|
  {
    if |xs| > 0 {
      var init := xs[..|xs| - 1];
      assert AllPlaced(init, place) by {
        forall i | 0 <= i < |init| ensures place(init[i]).Ok? { assert init[i] == xs[i]; }
      }
      TallyCellsWithin(init, place, ok);
    }
  }

  /** When every item places one cell, plus a second one exactly when it
      satisfies `p`, the counts add up to the number of items plus the
      number satisfying `p`. */
  lemma {:induction false} TallySizeBy<T, C>(xs: seq<T>, place: T -> Result<seq<C>>, p: T -> bool)
    requires AllPlaced(xs, place)
    requires forall x :: place(x).Ok? ==> |place(x).value| == if p(x) then 2 else 1
    ensures |Tally(xs, place).value| == |xs| + |Seqs.Filter(xs, p)|
    decreases |xs|
  {
    if |xs| > 0 {
      var init := xs[..|xs| - 1];
      assert AllPlaced(init, place) by {
        forall i | 0 <= i < |init| ensures place(init[i]).Ok? { assert init[i] == xs[i]; }
      }
      TallySizeBy(init, place, p);
    }
  }

  /** The counts of a collection, or none when it failed. */
  function BagOf<C>(r: Result<multiset<C>>): multiset<C> {
    if r.Ok? then r.value else multiset{}
  }

  /** Any selection of placeable items is placeable. */
  lemma FilterPlaced<T, C>(xs: seq<T>, place: T -> Result<seq<C>>, p: T -> bool)
    requires AllPlaced(xs, place)
    ensures AllPlaced(Seqs.Filter(xs, p), place)
  {
    var f := Seqs.Filter(xs, p);
    forall i | 0 <= i < |f| ensures place(f[i]).Ok? {
      Seqs.FilterMembers(xs, p, f[i]);
    }
  }

  /** The counts of each key's items, added up over `keys`: collecting
      group by group, as a per-game report does. */
  function GroupSum<T, C(==), K(==)>(xs: seq<T>, keys: seq<K>, key: T -> K, place: T -> Result<seq<C>>): multiset<C>
    decreases |keys|
  {
    if |keys| == 0 then multiset{}
    else GroupSum(xs, keys[..|keys| - 1], key, place) + BagOf(Tally(Seqs.Filter(xs, Seqs.KeyIs(key, keys[|keys| - 1])), place))
  }

  lemma {:induction false} GroupSumOfNothing<T, C, K>(keys: seq<K>, key: T -> K, place: T -> Result<seq<C>>)
    ensures GroupSum([], keys, key, place) == multiset{}
    decreases |keys|
  {
    if |keys| > 0 {
      GroupSumOfNothing(keys[..|keys| - 1], key, place);
    }
  }

  /** One more item adds its cells to the group of its key, if that key is
      listed, and to no other group. */
  lemma {:induction false} GroupSumSnoc<T, C, K>(init: seq<T>, x: T, keys: seq<K>, key: T -> K, place: T -> Result<seq<C>>)
    requires AllPlaced(init + [x], place)
    requires place(x).Ok?
    requires Seqs.Distinct(keys)
    ensures GroupSum(init + [x], keys, key, place)
      == GroupSum(init, keys, key, place) + (if key(x) in keys then multiset(place(x).value) else multiset{})
    decreases |keys|
  {
    var xs := init + [x];
    assert xs[..|xs| - 1] == init;
    if |keys| > 0 {
      var ks := keys[..|keys| - 1];
      var k := keys[|keys| - 1];
      assert Seqs.Distinct(ks);
      GroupSumSnoc(init, x, ks, key, place);
      var p := Seqs.KeyIs(key, k);
      FilterPlaced(xs, place, p);
      assert AllPlaced(init, place) by {
        forall i | 0 <= i < |init| ensures place(init[i]).Ok? { assert init[i] == xs[i]; }
      }
      FilterPlaced(init, place, p);
      var fi := Seqs.Filter(init, p);
      var fx := Seqs.Filter(xs, p);
      if p(x) {
        assert fx == fi + [x];
        assert fx[..|fx| - 1] == fi;
        assert key(x) !in ks;
      } else {
        assert fx == fi;
      }
      assert key(x) in keys <==> key(x) in ks || key(x) == k;
    }
  }

  /** When every item's key is listed once, collecting group by group and
      adding up gives the collection of all items. */
  lemma {:induction false} GroupSumTotal<T, C, K>(xs: seq<T>, keys: seq<K>, key: T -> K, place: T -> Result<seq<C>>)
    requires AllPlaced(xs, place)
    requires Seqs.Distinct(keys)
    requires forall i :: 0 <= i < |xs| ==> key(xs[i]) in keys
    ensures GroupSum(xs, keys, key, place) == Tally(xs, place).value
    decreases |xs|
  {
    if |xs| == 0 {
      GroupSumOfNothing(keys, key, place);
    } else {
      var init := xs[..|xs| - 1];
      var last := xs[|xs| - 1];
      assert xs == init + [last];
      assert AllPlaced(init, place) by {
        forall i | 0 <= i < |init| ensures place(init[i]).Ok? { assert init[i] == xs[i]; }
      }
      GroupSumTotal(init, keys, key, place);
      GroupSumSnoc(init, last, keys, key, place);
    }
  }
}

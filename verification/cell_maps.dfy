/** The cell dictionaries written to a sheet: counters turned into maps,
    and several section maps merged into one. */
module CellMaps {
  import opened Wrappers
  import opened Records

  /** The value a cell map gives a cell; absent cells read as zero. */
  function Count(m: map<Cell, nat>, c: Cell): nat {
    if c in m then m[c] else 0
  }

  /** The dictionary of a counter: exactly the counted cells, each with its
      count. */
  function CountsToMap(m: multiset<Cell>): (r: map<Cell, nat>)
    ensures forall c :: c in r <==> c in m
    ensures forall c :: Count(r, c) == m[c]
  {
    map c | c in m :: m[c]
  }

  /** Dictionary unpacking `{**a, **b, ...}`: every key of every part, the
      later part winning on a shared key. */
  function MergeCells(parts: seq<map<Cell, nat>>): map<Cell, nat>
    decreases |parts|
  {
    if |parts| == 0 then map[] else MergeCells(parts[..|parts| - 1]) + parts[|parts| - 1]
  }

  /** A cell held by no part is absent from the merge. */
  lemma {:induction false} MergeMissesStranger(parts: seq<map<Cell, nat>>, c: Cell)
    requires forall j :: 0 <= j < |parts| ==> c !in parts[j]
    ensures c !in MergeCells(parts)
    decreases |parts|
  {
    if |parts| > 0 {
      MergeMissesStranger(parts[..|parts| - 1], c);
    }
  }

  /** A cell held by one part only keeps that part's value. */
  lemma {:induction false} MergeKeepsOwner(parts: seq<map<Cell, nat>>, c: Cell, i: nat)
    requires i < |parts|
    requires forall j :: 0 <= j < |parts| && j != i ==> c !in parts[j]
    ensures Count(MergeCells(parts), c) == Count(parts[i], c)
    decreases |parts|
  {
    var n := |parts| - 1;
    if i < n {
      MergeKeepsOwner(parts[..n], c, i);
    } else {
      MergeMissesStranger(parts[..n], c);
    }
  }

  /** On a shared cell the later part wins. */
  lemma {:induction false} MergeLaterWins(parts: seq<map<Cell, nat>>, c: Cell, i: nat)
    requires i < |parts| && c in parts[i]
    requires forall j :: i < j < |parts| ==> c !in parts[j]
    ensures c in MergeCells(parts) && MergeCells(parts)[c] == parts[i][c]
    decreases |parts|
  {
    if i < |parts| - 1 {
      MergeLaterWins(parts[..|parts| - 1], c, i);
    }
  }

  /** A cell's values over all parts, added up. */
  function SumCounts(parts: seq<map<Cell, nat>>, c: Cell): nat
    decreases |parts|
  {
    if |parts| == 0 then 0 else SumCounts(parts[..|parts| - 1], c) + Count(parts[|parts| - 1], c)
  }

  /** When at most one part (the `owner`) holds a cell, the merge keeps the
      cell's total over all parts: nothing is overwritten. */
  lemma {:induction false} MergeOwnedAt(parts: seq<map<Cell, nat>>, c: Cell, owner: Option<nat>)
    requires forall j :: 0 <= j < |parts| && owner != Some(j) ==> c !in parts[j]
    ensures Count(MergeCells(parts), c) == SumCounts(parts, c)
    decreases |parts|
  {
    if |parts| > 0 {
      var n := |parts| - 1;
      var init := parts[..n];
      assert forall j :: 0 <= j < n ==> init[j] == parts[j];
      MergeOwnedAt(init, c, owner);
      if owner == Some(n) {
        MergeMissesStranger(init, c);
      } else {
        assert c !in parts[n];
      }
    }
  }

  lemma SumCountsFive(parts: seq<map<Cell, nat>>, c: Cell)
    requires |parts| == 5
    ensures SumCounts(parts, c) == Count(parts[0], c) + Count(parts[1], c) + Count(parts[2], c) + Count(parts[3], c) + Count(parts[4], c)
  {
    var p4 := parts[..4];
    var p3 := p4[..3];
    var p2 := p3[..2];
    var p1 := p2[..1];
    assert p1[..0] == [];
    assert p1[0] == parts[0] && p2[1] == parts[1] && p3[2] == parts[2] && p4[3] == parts[3];
    assert SumCounts(p1, c) == Count(parts[0], c);
    assert SumCounts(p2, c) == SumCounts(p1, c) + Count(parts[1], c);
    assert SumCounts(p3, c) == SumCounts(p2, c) + Count(parts[2], c);
    assert SumCounts(p4, c) == SumCounts(p3, c) + Count(parts[3], c);
    assert SumCounts(parts, c) == SumCounts(p4, c) + Count(parts[4], c);
  }
}

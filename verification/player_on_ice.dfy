/** The on-ice strength blocks of the player report: every tag the player
    was on ice for counts in the row-46 block of its strength, and once
    more in the row-38 block when the player took part in the play. Each
    block is the 2 x 2 outcome block, a goal also counting in its side's
    chance row. */
module PlayerOnIce {
  import opened Wrappers
  import opened Taxonomy
  import opened Records
  import opened ResultSets
  import opened Outcome
  import opened Counting
  import opened GameCollectors
  import Seqs

  function OnIceColumn(s: Strength): int {
    match s
    case EvenStrength => 'B' as int
    case PowerPlay => 'E' as int
    case PenaltyKill => 'H' as int
    case EmptyNetFor => 'K' as int
    case EmptyNetAgainst => 'N' as int
  }

  /** The block rows a tag counts in for player `p`. */
  function BaseRows(t: Tag, p: int): seq<int> {
    if p in t.participating then [38, 46] else [46]
  }

  /** An unknown strength label raises KeyError. */
  function OnIcePlacement(p: int): Tag -> Result<seq<Cell>> {
    (t: Tag) =>
      var s :- Need(ParseStrength(t.strengths), KeyError);
      Ok((if p in t.participating then BlockCells(OnIceColumn(s), 38, t.result) else [])
         + BlockCells(OnIceColumn(s), 46, t.result))
  }

  function CollectOnIceStrengths(tags: seq<Tag>, p: int): (r: Result<multiset<Cell>>)
    ensures r.Ok? <==> forall i :: 0 <= i < |tags| ==> ParseStrength(tags[i].strengths).Some?
    ensures r.Err? ==> r.error == KeyError
  {
    var r := Tally(tags, OnIcePlacement(p));
    TallyErrorFrom(tags, OnIcePlacement(p), KeyError);
    r
  }

  /** A block's cells, seen from another block's rows, are the same cells
      shifted by the difference of the base rows. */
  lemma BlockShift(base: int, r: ShotResult, c: int, k: int)
    requires k == 0 || k == 1
    ensures multiset(BlockCells(base, 38, r))[Cell(c, 38 + k)] == multiset(BlockCells(base, 46, r))[Cell(c, 46 + k)]
    ensures multiset(BlockCells(base, 46, r))[Cell(c, 38 + k)] == 0
  {
    BlockHitsAt(base, 38, r, Cell(c, 38 + k));
    BlockHitsAt(base, 46, r, Cell(c, 46 + k));
    BlockHitsAt(base, 46, r, Cell(c, 38 + k));
  }

  lemma OnIceHitsPlain(p: int, x: Tag, c: int, k: int)
    requires k == 0 || k == 1
    ensures Hits(OnIcePlacement(p), x, Cell(c, 38 + k)) <= Hits(OnIcePlacement(p), x, Cell(c, 46 + k))
  {
    var place := OnIcePlacement(p);
    if place(x).Ok? {
      var s := ParseStrength(x.strengths).value;
      var b := OnIceColumn(s);
      BlockShift(b, x.result, c, k);
      if p in x.participating {
        assert place(x).value == BlockCells(b, 38, x.result) + BlockCells(b, 46, x.result);
      } else {
        assert place(x).value == BlockCells(b, 46, x.result);
      }
    }
  }

  /** The participation block never exceeds the on-ice block: each cell of
      rows 38-39 is at most the cell eight rows below it. */
  lemma ParticipatingAtMostOnIce(tags: seq<Tag>, p: int, c: int, k: int)
    requires k == 0 || k == 1
    requires CollectOnIceStrengths(tags, p).Ok?
    ensures CollectOnIceStrengths(tags, p).value[Cell(c, 38 + k)] <= CollectOnIceStrengths(tags, p).value[Cell(c, 46 + k)]
  {
    var lo, hi := Cell(c, 38 + k), Cell(c, 46 + k);
    forall x ensures Hits(OnIcePlacement(p), x, lo) <= Hits(OnIcePlacement(p), x, hi) {
      OnIceHitsPlain(p, x, c, k);
    }
    TallyDominated(tags, OnIcePlacement(p), lo, hi);
  }

  lemma OnIceGoalHitsPlain(p: int, x: Tag, c: int, row: int)
    requires row == 38 || row == 46
    ensures Hits(OnIcePlacement(p), x, Cell(c, row + 1)) <= Hits(OnIcePlacement(p), x, Cell(c, row))
  {
    var place := OnIcePlacement(p);
    if place(x).Ok? {
      var s := ParseStrength(x.strengths).value;
      var b := OnIceColumn(s);
      BlockHitsAt(b, 38, x.result, Cell(c, row));
      BlockHitsAt(b, 38, x.result, Cell(c, row + 1));
      BlockHitsAt(b, 46, x.result, Cell(c, row));
      BlockHitsAt(b, 46, x.result, Cell(c, row + 1));
      if p in x.participating {
        assert place(x).value == BlockCells(b, 38, x.result) + BlockCells(b, 46, x.result);
      } else {
        assert place(x).value == BlockCells(b, 46, x.result);
      }
    }
  }

  /** Goal-implies-chance in both blocks: a goal row never exceeds the
      chance row above it. */
  lemma OnIceGoalImpliesChance(tags: seq<Tag>, p: int, c: int, row: int)
    requires row == 38 || row == 46
    requires CollectOnIceStrengths(tags, p).Ok?
    ensures CollectOnIceStrengths(tags, p).value[Cell(c, row + 1)] <= CollectOnIceStrengths(tags, p).value[Cell(c, row)]
  {
    forall x ensures Hits(OnIcePlacement(p), x, Cell(c, row + 1)) <= Hits(OnIcePlacement(p), x, Cell(c, row)) {
      OnIceGoalHitsPlain(p, x, c, row);
    }
    TallyDominated(tags, OnIcePlacement(p), Cell(c, row + 1), Cell(c, row));
  }

  /** Every tag places one or two cells per block it counts in (two for a
      goal), so the counts add up to that over the tags. */
  function OnIceWeight(p: int, t: Tag): nat {
    |BaseRows(t, p)| * (if IsGoal(t.result) then 2 else 1)
  }

  lemma OnIceCountSum(tags: seq<Tag>, p: int)
    requires CollectOnIceStrengths(tags, p).Ok?
    ensures |CollectOnIceStrengths(tags, p).value| == Seqs.Sum(tags, (t: Tag) => OnIceWeight(p, t))
  {
    TallySize(tags, OnIcePlacement(p));
    SumSame(tags, (t: Tag) => Placed(OnIcePlacement(p), t), (t: Tag) => OnIceWeight(p, t));
  }

  lemma {:induction false} SumSame(tags: seq<Tag>, f: Tag -> nat, g: Tag -> nat)
    requires forall i :: 0 <= i < |tags| ==> f(tags[i]) == g(tags[i])
    ensures Seqs.Sum(tags, f) == Seqs.Sum(tags, g)
    decreases |tags|
  {
    if |tags| > 0 {
      SumSame(tags[..|tags| - 1], f, g);
    }
  }
}

/** Exact counts of the game report's cells: each cell of a block counts
    precisely the tags of its attribute whose result belongs to the cell. */
module GameCellCounts {
  import opened Wrappers
  import opened Taxonomy
  import opened Records
  import opened ResultSets
  import opened Outcome
  import opened SheetColumns
  import opened Counting
  import opened GameCollectors
  import Seqs

  lemma AreaResultInApply(a: ShotArea, rs: set<ShotResult>, x: Tag)
    ensures AreaResultIn(a, rs)(x) == (x.area == Some(a) && x.result in rs)
  {
  }

  lemma ZoneHitsAreBlockCells(x: Tag, c: Cell)
    requires x.area.Some?
    ensures Hits(ZonePlacement, x, c) == multiset(BlockCells(ZoneColumn(x.area.value), 5, x.result))[c]
  {
  }

  /** Two area blocks either coincide or do not touch. */
  lemma ZoneBlocksApart(a: ShotArea, b: ShotArea)
    ensures ZoneColumn(b) == ZoneColumn(a) <==> a == b
    ensures ZoneColumn(b) + 1 != ZoneColumn(a) && ZoneColumn(a) + 1 != ZoneColumn(b)
  {
    ZoneColumnsTwoApart(b, a);
    ZoneColumnsTwoApart(a, b);
  }

  /** How often a tag from an area with column `zb` hits a cell of the
      block at column `z`. */
  lemma ZoneHitsFrom(x: Tag, z: int, dc: nat, dr: nat)
    requires x.area.Some?
    requires ZoneColumn(x.area.value) + 1 != z && z + 1 != ZoneColumn(x.area.value)
    requires dc <= 1 && dr <= 1
    ensures Hits(ZonePlacement, x, Cell(z + dc, 5 + dr)) == if ZoneColumn(x.area.value) == z && x.result in BlockResults(dc, dr) then 1 else 0
  {
    ZoneHitsAreBlockCells(x, Cell(z + dc, 5 + dr));
    BlockIndicatorAt(ZoneColumn(x.area.value), z, 5, x.result, dc, dr);
  }

  /** A tag from area `b` hits a cell of area `a`'s block once when the
      areas are the same and its result reaches that cell. */
  lemma ZoneTagFromHitAt(x: Tag, b: ShotArea, a: ShotArea, dc: nat, dr: nat)
    requires x.area == Some(b)
    requires dc <= 1 && dr <= 1
    ensures Hits(ZonePlacement, x, Cell(ZoneColumn(a) + dc, 5 + dr)) == if b == a && x.result in BlockResults(dc, dr) then 1 else 0
  {
    ZoneBlocksApart(a, b);
    ZoneHitsFrom(x, ZoneColumn(a), dc, dr);
  }

  /** How often one tag hits a cell of area `a`'s block: once when it is
      from the area and its result reaches that cell. */
  lemma ZoneTagHitAt(x: Tag, a: ShotArea, dc: nat, dr: nat)
    requires dc <= 1 && dr <= 1
    ensures Hits(ZonePlacement, x, Cell(ZoneColumn(a) + dc, 5 + dr)) == if AreaResultIn(a, BlockResults(dc, dr))(x) then 1 else 0
  {
    AreaResultInApply(a, BlockResults(dc, dr), x);
    if x.area.Some? {
      ZoneTagFromHitAt(x, x.area.value, a, dc, dr);
    } else {
      assert ZonePlacement(x).Err?;
    }
  }

  /** The cells of an area's block count exactly: the cell `dc` columns
      right of and `dr` rows below the area's origin counts the area's tags
      whose result is among BlockResults(dc, dr) -- the origin the own
      chances, goals and shots, the cell below it the own goals, the
      "against" column the opponent's chances and goals, and the cell below
      that the opponent's goals. */
  lemma ZoneCellCounts(tags: seq<Tag>, a: ShotArea, dc: nat, dr: nat)
    requires CollectShotZones(tags).Ok?
    requires dc <= 1 && dr <= 1
    ensures CollectShotZones(tags).value[Cell(ZoneColumn(a) + dc, 5 + dr)] == |Seqs.Filter(tags, AreaResultIn(a, BlockResults(dc, dr)))|
  {
    var c := Cell(ZoneColumn(a) + dc, 5 + dr);
    forall x: Tag ensures Hits(ZonePlacement, x, c) == if AreaResultIn(a, BlockResults(dc, dr))(x) then 1 else 0 {
      ZoneTagHitAt(x, a, dc, dr);
    }
    TallyIndicator(tags, ZonePlacement, c, AreaResultIn(a, BlockResults(dc, dr)));
  }



  /** Tags at width `w` and height `h` whose result is one of `rs`. */
  function NetSpotResultIn(w: NetWidth, h: NetHeight, rs: set<ShotResult>): Tag -> bool {
    (t: Tag) => NetLookup(t.netWidth, ParseNetWidth) == Ok(w) && NetLookup(t.netHeight, ParseNetHeight) == Ok(h) && t.result in rs
  }

  /** A cell and, optionally, a second one: how often they hit `c`. */
  lemma CellPairHits(a: Cell, b: Cell, both: bool, c: Cell)
    ensures multiset([a] + if both then [b] else [])[c] == (if c == a then 1 else 0) + (if both && c == b then 1 else 0)
  {
  }

  /** The cells of a placed net tag: its own cell, and the chance cell five
      to the right exactly when the result leaves the column unshifted. */
  lemma NetPlacementCells(x: Tag)
    requires NetPlacement(x).Ok?
    ensures var adj := NetAdjustment(x.result);
            var col := WidthColumn(NetLookup(x.netWidth, ParseNetWidth).value) + adj.column;
            var row := 19 + HeightOffset(NetLookup(x.netHeight, ParseNetHeight).value) + adj.row;
            NetPlacement(x).value == [Cell(col, row)] + if adj.column == 0 then [Cell(col + 5, row)] else []
  {
  }

  /** How often one tag hits a cell of the net section. */
  lemma NetTagHitsAt(x: Tag, c: Cell)
    requires NetPlacement(x).Ok?
    ensures var adj := NetAdjustment(x.result);
            var col := WidthColumn(NetLookup(x.netWidth, ParseNetWidth).value) + adj.column;
            var row := 19 + HeightOffset(NetLookup(x.netHeight, ParseNetHeight).value) + adj.row;
            Hits(NetPlacement, x, c) == (if c == Cell(col, row) then 1 else 0) + (if adj.column == 0 && c == Cell(col + 5, row) then 1 else 0)
  {
    var adj := NetAdjustment(x.result);
    var col := WidthColumn(NetLookup(x.netWidth, ParseNetWidth).value) + adj.column;
    var row := 19 + HeightOffset(NetLookup(x.netHeight, ParseNetHeight).value) + adj.row;
    NetPlacementCells(x);
    CellPairHits(Cell(col, row), Cell(col + 5, row), adj.column == 0, c);
  }

  /** The same for a tag placed at width `xw` and height `xh`. */
  lemma NetSpotHitsFrom(x: Tag, xw: NetWidth, xh: NetHeight, w: NetWidth, h: NetHeight)
    requires NetLookup(x.netWidth, ParseNetWidth) == Ok(xw) && NetLookup(x.netHeight, ParseNetHeight) == Ok(xh)
    ensures Hits(NetPlacement, x, Cell(WidthColumn(w), 19 + HeightOffset(h)))
      == if xw == w && xh == h && x.result in {GoalFor, ShotFor, ShotAgainst} then 1 else 0
    ensures Hits(NetPlacement, x, Cell(WidthColumn(w) + 5, 19 + HeightOffset(h)))
      == if xw == w && xh == h && x.result in {GoalFor, ShotFor, ShotAgainst, ChanceFor} then 1 else 0
  {
    assert WidthColumn(xw) == WidthColumn(w) <==> xw == w;
    assert HeightOffset(xh) == HeightOffset(h) <==> xh == h;
    NetTagHitsAt(x, Cell(WidthColumn(w), 19 + HeightOffset(h)));
    NetTagHitsAt(x, Cell(WidthColumn(w) + 5, 19 + HeightOffset(h)));
  }

  /** Seen from the own-side cells of a net spot, one tag hits the goal
      column when it is an own goal or a shot at that spot, and the chance
      column five to the right when it is any of those or an own chance. */
  lemma NetSpotHits(x: Tag, w: NetWidth, h: NetHeight)
    ensures Hits(NetPlacement, x, Cell(WidthColumn(w), 19 + HeightOffset(h)))
      == if NetSpotResultIn(w, h, {GoalFor, ShotFor, ShotAgainst})(x) then 1 else 0
    ensures Hits(NetPlacement, x, Cell(WidthColumn(w) + 5, 19 + HeightOffset(h)))
      == if NetSpotResultIn(w, h, {GoalFor, ShotFor, ShotAgainst, ChanceFor})(x) then 1 else 0
  {
    if NetPlacement(x).Ok? {
      NetSpotHitsFrom(x, NetLookup(x.netWidth, ParseNetWidth).value, NetLookup(x.netHeight, ParseNetHeight).value, w, h);
    }
  }

  /** The own-side cells of a net spot: the goal column counts own goals
      and the shots that fall through to it; the chance column five to the
      right counts those and the own chances. */
  lemma {:induction false} NetCellCounts(tags: seq<Tag>, w: NetWidth, h: NetHeight)
    requires CollectNetZones(tags).Ok?
    ensures CollectNetZones(tags).value[Cell(WidthColumn(w), 19 + HeightOffset(h))]
      == |Seqs.Filter(tags, NetSpotResultIn(w, h, {GoalFor, ShotFor, ShotAgainst}))|
    ensures CollectNetZones(tags).value[Cell(WidthColumn(w) + 5, 19 + HeightOffset(h))]
      == |Seqs.Filter(tags, NetSpotResultIn(w, h, {GoalFor, ShotFor, ShotAgainst, ChanceFor}))|
  {
    var goalCell := Cell(WidthColumn(w), 19 + HeightOffset(h));
    var chanceCell := Cell(WidthColumn(w) + 5, 19 + HeightOffset(h));
    forall x: Tag ensures Hits(NetPlacement, x, goalCell) == if NetSpotResultIn(w, h, {GoalFor, ShotFor, ShotAgainst})(x) then 1 else 0 {
      NetSpotHits(x, w, h);
    }
    TallyIndicator(tags, NetPlacement, goalCell, NetSpotResultIn(w, h, {GoalFor, ShotFor, ShotAgainst}));
    forall x: Tag ensures Hits(NetPlacement, x, chanceCell) == if NetSpotResultIn(w, h, {GoalFor, ShotFor, ShotAgainst, ChanceFor})(x) then 1 else 0 {
      NetSpotHits(x, w, h);
    }
    TallyIndicator(tags, NetPlacement, chanceCell, NetSpotResultIn(w, h, {GoalFor, ShotFor, ShotAgainst, ChanceFor}));
  }


  /** Tags of strength `s` whose result is one of `rs`. */
  function StrengthResultIn(s: Strength, rs: set<ShotResult>): Tag -> bool {
    (t: Tag) => ParseStrength(t.strengths) == Some(s) && t.result in rs
  }

  lemma StrengthResultInApply(s: Strength, rs: set<ShotResult>, x: Tag)
    ensures StrengthResultIn(s, rs)(x) == (ParseStrength(x.strengths) == Some(s) && x.result in rs)
  {
  }

  lemma StrengthHitsAreBlockCells(x: Tag, c: Cell)
    requires ParseStrength(x.strengths).Some?
    ensures Hits(StrengthPlacement, x, c) == multiset(BlockCells(StrengthColumn(ParseStrength(x.strengths).value), 35, x.result))[c]
  {
  }

  /** Two strength blocks either coincide or do not touch. */
  lemma StrengthBlocksApart(s: Strength, b: Strength)
    ensures StrengthColumn(b) == StrengthColumn(s) <==> s == b
    ensures StrengthColumn(b) + 1 != StrengthColumn(s) && StrengthColumn(s) + 1 != StrengthColumn(b)
  {
    StrengthColumnsTwoApart(b, s);
    StrengthColumnsTwoApart(s, b);
  }

  /** How often a tag of a strength with column `zb` hits a cell of the
      block at column `z`. */
  lemma StrengthHitsFrom(x: Tag, z: int, dc: nat, dr: nat)
    requires ParseStrength(x.strengths).Some?
    requires StrengthColumn(ParseStrength(x.strengths).value) + 1 != z && z + 1 != StrengthColumn(ParseStrength(x.strengths).value)
    requires dc <= 1 && dr <= 1
    ensures Hits(StrengthPlacement, x, Cell(z + dc, 35 + dr)) == if StrengthColumn(ParseStrength(x.strengths).value) == z && x.result in BlockResults(dc, dr) then 1 else 0
  {
    StrengthHitsAreBlockCells(x, Cell(z + dc, 35 + dr));
    BlockIndicatorAt(StrengthColumn(ParseStrength(x.strengths).value), z, 35, x.result, dc, dr);
  }

  /** How often one tag hits a cell of strength `s`'s block. */
  lemma StrengthTagHitAt(x: Tag, s: Strength, dc: nat, dr: nat)
    requires dc <= 1 && dr <= 1
    ensures Hits(StrengthPlacement, x, Cell(StrengthColumn(s) + dc, 35 + dr)) == if StrengthResultIn(s, BlockResults(dc, dr))(x) then 1 else 0
  {
    StrengthResultInApply(s, BlockResults(dc, dr), x);
    var ps := ParseStrength(x.strengths);
    if ps.Some? {
      StrengthBlocksApart(s, ps.value);
      StrengthHitsFrom(x, StrengthColumn(s), dc, dr);
    } else {
      assert StrengthPlacement(x).Err?;
    }
  }

  /** The cells of a strength's block count exactly, as for zones. */
  lemma StrengthCellCounts(tags: seq<Tag>, s: Strength, dc: nat, dr: nat)
    requires CollectStrengths(tags).Ok?
    requires dc <= 1 && dr <= 1
    ensures CollectStrengths(tags).value[Cell(StrengthColumn(s) + dc, 35 + dr)] == |Seqs.Filter(tags, StrengthResultIn(s, BlockResults(dc, dr)))|
  {
    var c := Cell(StrengthColumn(s) + dc, 35 + dr);
    forall x: Tag ensures Hits(StrengthPlacement, x, c) == if StrengthResultIn(s, BlockResults(dc, dr))(x) then 1 else 0 {
      StrengthTagHitAt(x, s, dc, dr);
    }
    TallyIndicator(tags, StrengthPlacement, c, StrengthResultIn(s, BlockResults(dc, dr)));
  }

}

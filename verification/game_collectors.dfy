/** The four cell collectors of the game report. Each places a tag in one
    cell of its section by the tag's attribute (column) and outcome (2 x 2
    block), and a goal also counts in its side's chance cell. Sections:
    shot zones rows 5-6, shot types rows 12-13, net zones rows 19-21 and
    26-28, strengths rows 35-36. */
module GameCollectors {
  import opened Wrappers
  import opened Taxonomy
  import opened Records
  import opened ResultSets
  import opened Outcome
  import opened SheetColumns
  import opened Counting
  import Seqs

  predicate IsGoalTag(t: Tag) { IsGoal(t.result) }

  /** Tags from area `a` whose result is one of `rs`. */
  function AreaResultIn(a: ShotArea, rs: set<ShotResult>): Tag -> bool {
    (t: Tag) => t.area == Some(a) && t.result in rs
  }

  /** Results whose cell is the block's origin (own chances and goals, and
      the shots that fall through to it). */
  const OriginResults: set<ShotResult> := {GoalFor, ChanceFor, ShotFor, ShotAgainst}
  /** Results whose cell is the block's "against" column. */
  const AgainstResults: set<ShotResult> := {GoalAgainst, ChanceAgainst}

  // ----- the 2 x 2 block shared by zones, types and strengths -----

  /** The cells a result places in a block whose origin is (`base`,
      `baseRow`): one cell shifted by the outcome, and for a cell on the
      goal row also the chance cell above it. */
  function BlockCells(base: int, baseRow: int, r: ShotResult): (cells: seq<Cell>)
    ensures |cells| == if IsGoal(r) then 2 else 1
  {
    var adj := OutcomeAdjustment(r);
    var cell := Cell(base + adj.column, baseRow + adj.row);
    [cell] + if cell.row == baseRow + 1 then [Cell(cell.col, cell.row - 1)] else []
  }

  /** How often a result's block cells hit cell `c`: once at the shifted
      cell on the chance row, and a goal once more on the goal row. */
  lemma BlockHitsAt(base: int, baseRow: int, r: ShotResult, c: Cell)
    ensures var col := base + OutcomeAdjustment(r).column;
            multiset(BlockCells(base, baseRow, r))[c]
              == (if c == Cell(col, baseRow) then 1 else 0) + (if IsGoal(r) && c == Cell(col, baseRow + 1) then 1 else 0)
  {
    var col := base + OutcomeAdjustment(r).column;
    assert multiset(BlockCells(base, baseRow, r))
      == if IsGoal(r) then multiset{Cell(col, baseRow + 1), Cell(col, baseRow)} else multiset{Cell(col, baseRow)};
  }

  /** Seen from a block with origin column `z`, the cells of a result
      placed in the block at `zb` (two blocks never overlap): the origin
      counts own chances, goals and shots, the goal row own goals, the
      "against" column the opponent's chances and goals, and the cell
      below it the opponent's goals. */
  lemma BlockIndicator(zb: int, z: int, baseRow: int, r: ShotResult)
    requires zb + 1 != z && z + 1 != zb
    ensures multiset(BlockCells(zb, baseRow, r))[Cell(z, baseRow)] == if zb == z && r in OriginResults then 1 else 0
    ensures multiset(BlockCells(zb, baseRow, r))[Cell(z, baseRow + 1)] == if zb == z && r == GoalFor then 1 else 0
    ensures multiset(BlockCells(zb, baseRow, r))[Cell(z + 1, baseRow)] == if zb == z && r in AgainstResults then 1 else 0
    ensures multiset(BlockCells(zb, baseRow, r))[Cell(z + 1, baseRow + 1)] == if zb == z && r == GoalAgainst then 1 else 0
  {
    BlockHitsAt(zb, baseRow, r, Cell(z, baseRow));
    BlockHitsAt(zb, baseRow, r, Cell(z, baseRow + 1));
    BlockHitsAt(zb, baseRow, r, Cell(z + 1, baseRow));
    BlockHitsAt(zb, baseRow, r, Cell(z + 1, baseRow + 1));
  }

  /** The results that reach the cell `dc` columns right of and `dr` rows
      below a block's origin. */
  function BlockResults(dc: nat, dr: nat): set<ShotResult> {
    if dc == 0 then (if dr == 0 then OriginResults else {GoalFor})
    else (if dr == 0 then AgainstResults else {GoalAgainst})
  }

  /** One cell of BlockIndicator at a time. */
  lemma BlockIndicatorAt(zb: int, z: int, baseRow: int, r: ShotResult, dc: nat, dr: nat)
    requires zb + 1 != z && z + 1 != zb
    requires dc <= 1 && dr <= 1
    ensures multiset(BlockCells(zb, baseRow, r))[Cell(z + dc, baseRow + dr)] == if zb == z && r in BlockResults(dc, dr) then 1 else 0
  {
    BlockHitsAt(zb, baseRow, r, Cell(z + dc, baseRow + dr));
  }

  // ----- shot zones -----

  function ZonePlacement(t: Tag): (r: Result<seq<Cell>>)
    ensures r.Ok? <==> t.area.Some?
    ensures r.Ok? ==> |r.value| == if IsGoal(t.result) then 2 else 1
  {
    var area :- Need(t.area, AttributeError);
    Ok(BlockCells(ZoneColumn(area), 5, t.result))
  }

  /** The shot-zone section; a tag without an area aborts it. */
  function CollectShotZones(tags: seq<Tag>): (r: Result<multiset<Cell>>)
    ensures r.Ok? <==> forall i :: 0 <= i < |tags| ==> tags[i].area.Some?
  {
    Tally(tags, ZonePlacement)
  }

  /** Every tag counts once, and a goal once more. */
  lemma ZoneCountSum(tags: seq<Tag>)
    requires CollectShotZones(tags).Ok?
    ensures |CollectShotZones(tags).value| == |tags| + |Seqs.Filter(tags, IsGoalTag)|
  {
    TallySizeBy(tags, ZonePlacement, IsGoalTag);
  }

  /** Cells stay in rows 5-6 and columns B to S. */
  lemma ZoneCellsInSection(tags: seq<Tag>)
    requires CollectShotZones(tags).Ok?
    ensures forall c :: c in CollectShotZones(tags).value ==> 5 <= c.row <= 6 && 'B' as int <= c.col <= 'S' as int
  {
    forall x: Tag, c | ZonePlacement(x).Ok? && c in ZonePlacement(x).value
      ensures 5 <= c.row <= 6 && 'B' as int <= c.col <= 'S' as int
    {
      ZoneColumnsTwoApart(x.area.value, x.area.value);
    }
    TallyCellsWithin(tags, ZonePlacement, (c: Cell) => 5 <= c.row <= 6 && 'B' as int <= c.col <= 'S' as int);
  }

  /** Goal-implies-chance: a goal cell never exceeds the chance cell above it. */
  lemma ZoneGoalImpliesChance(tags: seq<Tag>, col: int)
    requires CollectShotZones(tags).Ok?
    ensures CollectShotZones(tags).value[Cell(col, 6)] <= CollectShotZones(tags).value[Cell(col, 5)]
  {
    TallyDominated(tags, ZonePlacement, Cell(col, 6), Cell(col, 5));
  }

  // ----- shot types -----

  /** A truthy `crossice` moves the type's block six columns right. */
  function CrossIceShift(t: Tag): int {
    if t.crossice == Some(true) then 6 else 0
  }

  function TypePlacement(t: Tag): (r: Result<seq<Cell>>)
    ensures r.Ok? <==> t.shotType.Some?
    ensures r.Ok? ==> |r.value| == if IsGoal(t.result) then 2 else 1
  {
    var shotType :- Need(t.shotType, AttributeError);
    Ok(BlockCells(TypeColumn(shotType) + CrossIceShift(t), 12, t.result))
  }

  /** The shot-type section; a tag without a type aborts it. */
  function CollectShotTypes(tags: seq<Tag>): (r: Result<multiset<Cell>>)
    ensures r.Ok? <==> forall i :: 0 <= i < |tags| ==> tags[i].shotType.Some?
  {
    Tally(tags, TypePlacement)
  }

  lemma TypeCountSum(tags: seq<Tag>)
    requires CollectShotTypes(tags).Ok?
    ensures |CollectShotTypes(tags).value| == |tags| + |Seqs.Filter(tags, IsGoalTag)|
  {
    TallySizeBy(tags, TypePlacement, IsGoalTag);
  }

  /** Type cells stay in rows 12-13, between column B and the code point
      one past 'Z' (reached only by a cross-ice deflection against). */
  lemma TypeCellsInSection(tags: seq<Tag>)
    requires CollectShotTypes(tags).Ok?
    ensures forall c :: c in CollectShotTypes(tags).value ==> 12 <= c.row <= 13 && 'B' as int <= c.col <= 'Z' as int + 1
  {
    forall x: Tag, c | TypePlacement(x).Ok? && c in TypePlacement(x).value
      ensures 12 <= c.row <= 13 && 'B' as int <= c.col <= 'Z' as int + 1
    {
      TypeColumnsTwoApart(x.shotType.value, x.shotType.value);
    }
    TallyCellsWithin(tags, TypePlacement, (c: Cell) => 12 <= c.row <= 13 && 'B' as int <= c.col <= 'Z' as int + 1);
  }

  lemma TypeGoalImpliesChance(tags: seq<Tag>, col: int)
    requires CollectShotTypes(tags).Ok?
    ensures CollectShotTypes(tags).value[Cell(col, 13)] <= CollectShotTypes(tags).value[Cell(col, 12)]
  {
    TallyDominated(tags, TypePlacement, Cell(col, 13), Cell(col, 12));
  }

  /** The cross-ice shift is as wide as three type blocks: a cross-ice
      low-high shot lands on the plain deflection block, and a cross-ice
      deflection chance or goal against lands one column past 'Z'. */
  lemma TypeCrossIceCollisions(x: Tag, y: Tag)
    requires x.shotType == Some(LowHighShot) && x.crossice == Some(true)
    requires y.shotType == Some(DeflectionShot) && y.crossice != Some(true)
    requires x.result == y.result
    ensures TypePlacement(x) == TypePlacement(y)
    ensures y.result in AgainstResults ==>
      var z := y.(crossice := Some(true));
      TypePlacement(z).value[0].col == 'Z' as int + 1
  {
  }

  // ----- net zones -----

  /** The net-zone outcome rule: an own chance moves five columns right,
      a goal against seven rows down, a chance against both; every other
      result, shots included, stays at the origin with the own goals. */
  function NetAdjustment(r: ShotResult): (a: Adjustment)
    ensures a.column == if r in {ChanceFor, ChanceAgainst} then 5 else 0
    ensures a.row == if r in {GoalAgainst, ChanceAgainst} then 7 else 0
  {
    if r == ChanceFor then Adjustment(0, 5)
    else if r == GoalAgainst then Adjustment(7, 0)
    else if r == ChanceAgainst then Adjustment(7, 5)
    else Adjustment(0, 0)
  }

  /** Shots fall through to the own-goal block. */
  lemma NetShotsFallThrough(r: ShotResult)
    requires IsShot(r)
    ensures NetAdjustment(r) == NetAdjustment(GoalFor)
  {
  }

  function WidthColumn(w: NetWidth): int {
    match w
    case Left => 'C' as int
    case MidWidth => 'D' as int
    case Right => 'E' as int
  }

  function HeightOffset(h: NetHeight): nat {
    match h
    case Top => 0
    case MidHeight => 1
    case Bottom => 2
  }

  /** Looks a raw net label up in the width or height table; a missing
      label and an unknown one both raise KeyError. */
  function NetLookup<T>(raw: Option<string>, parse: string -> Option<T>): (r: Result<T>)
    ensures r.Ok? <==> raw.Some? && parse(raw.value).Some?
  {
    var s :- Need(raw, KeyError);
    Need(parse(s), KeyError)
  }

  /** The net cell of a tag, and for a cell in the goal columns C to E also
      the chance cell five columns right. */
  function NetPlacement(t: Tag): (r: Result<seq<Cell>>)
    ensures r.Ok? <==> NetLookup(t.netWidth, ParseNetWidth).Ok? && NetLookup(t.netHeight, ParseNetHeight).Ok?
    ensures r.Ok? ==> |r.value| == if t.result in {ChanceFor, ChanceAgainst} then 1 else 2
  {
    var w :- NetLookup(t.netWidth, ParseNetWidth);
    var h :- NetLookup(t.netHeight, ParseNetHeight);
    var adj := NetAdjustment(t.result);
    var cell := Cell(WidthColumn(w) + adj.column, 19 + HeightOffset(h) + adj.row);
    Ok([cell] + if 'C' as int <= cell.col <= 'E' as int then [Cell(cell.col + 5, cell.row)] else [])
  }

  predicate IsNetChanceTag(t: Tag) { t.result in {ChanceFor, ChanceAgainst} }
  predicate NotNetChanceTag(t: Tag) { !IsNetChanceTag(t) }

  function CollectNetZones(tags: seq<Tag>): (r: Result<multiset<Cell>>)
    ensures r.Ok? <==> forall i :: 0 <= i < |tags| ==> NetPlacement(tags[i]).Ok?
  {
    Tally(tags, NetPlacement)
  }

  /** Every tag counts once, and every tag that is not a chance (goals and
      shots) once more in the chance column. */
  lemma NetCountSum(tags: seq<Tag>)
    requires CollectNetZones(tags).Ok?
    ensures |CollectNetZones(tags).value| == |tags| + |Seqs.Filter(tags, NotNetChanceTag)|
  {
    TallySizeBy(tags, NetPlacement, NotNetChanceTag);
  }

  /** Net cells lie in columns C to J of rows 19-21 (own) and 26-28
      (against). */
  lemma NetCellsInSection(tags: seq<Tag>)
    requires CollectNetZones(tags).Ok?
    ensures forall c :: c in CollectNetZones(tags).value ==>
      ((19 <= c.row <= 21) || (26 <= c.row <= 28)) && 'C' as int <= c.col <= 'J' as int
  {
    TallyCellsWithin(tags, NetPlacement,
      (c: Cell) => ((19 <= c.row <= 21) || (26 <= c.row <= 28)) && 'C' as int <= c.col <= 'J' as int);
  }

  /** Goal-implies-chance for the net: a goal-column cell never exceeds the
      chance cell five columns right. */
  lemma NetGoalImpliesChance(tags: seq<Tag>, col: int, row: int)
    requires CollectNetZones(tags).Ok?
    requires 'C' as int <= col <= 'E' as int
    ensures CollectNetZones(tags).value[Cell(col, row)] <= CollectNetZones(tags).value[Cell(col + 5, row)]
  {
    TallyDominated(tags, NetPlacement, Cell(col, row), Cell(col + 5, row));
  }

  // ----- strengths -----

  function StrengthColumn(s: Strength): int {
    match s
    case EvenStrength => 'B' as int
    case PowerPlay => 'D' as int
    case PenaltyKill => 'F' as int
    case EmptyNetFor => 'H' as int
    case EmptyNetAgainst => 'J' as int
  }

  /** The five strength columns are distinct and two apart. */
  lemma StrengthColumnsTwoApart(a: Strength, b: Strength)
    ensures 'B' as int <= StrengthColumn(a) <= 'J' as int
    ensures a != b ==> StrengthColumn(a) != StrengthColumn(b)
    ensures StrengthColumn(a) + 1 != StrengthColumn(b)
  {
  }

  /** An unknown strength label raises KeyError. */
  function StrengthPlacement(t: Tag): (r: Result<seq<Cell>>)
    ensures r.Ok? <==> ParseStrength(t.strengths).Some?
    ensures r.Ok? ==> |r.value| == if IsGoal(t.result) then 2 else 1
  {
    var s :- Need(ParseStrength(t.strengths), KeyError);
    Ok(BlockCells(StrengthColumn(s), 35, t.result))
  }

  function CollectStrengths(tags: seq<Tag>): (r: Result<multiset<Cell>>)
    ensures r.Ok? <==> forall i :: 0 <= i < |tags| ==> ParseStrength(tags[i].strengths).Some?
  {
    Tally(tags, StrengthPlacement)
  }

  lemma StrengthCountSum(tags: seq<Tag>)
    requires CollectStrengths(tags).Ok?
    ensures |CollectStrengths(tags).value| == |tags| + |Seqs.Filter(tags, IsGoalTag)|
  {
    TallySizeBy(tags, StrengthPlacement, IsGoalTag);
  }

  lemma StrengthCellsInSection(tags: seq<Tag>)
    requires CollectStrengths(tags).Ok?
    ensures forall c :: c in CollectStrengths(tags).value ==> 35 <= c.row <= 36 && 'B' as int <= c.col <= 'K' as int
  {
    forall x: Tag, c | StrengthPlacement(x).Ok? && c in StrengthPlacement(x).value
      ensures 35 <= c.row <= 36 && 'B' as int <= c.col <= 'K' as int
    {
      var s := ParseStrength(x.strengths).value;
      StrengthColumnsTwoApart(s, s);
    }
    TallyCellsWithin(tags, StrengthPlacement, (c: Cell) => 35 <= c.row <= 36 && 'B' as int <= c.col <= 'K' as int);
  }

  lemma StrengthGoalImpliesChance(tags: seq<Tag>, col: int)
    requires CollectStrengths(tags).Ok?
    ensures CollectStrengths(tags).value[Cell(col, 36)] <= CollectStrengths(tags).value[Cell(col, 35)]
  {
    TallyDominated(tags, StrengthPlacement, Cell(col, 36), Cell(col, 35));
  }


}

/** The shooter-centred collectors of the player report: each of a
    player's own shots counts once in its section's cell, and an own goal
    once more in the goal cell beside it. Sections: zones row 4, shot
    types row 11, net zones rows 17-19, strengths rows 31-32. */
module PlayerCollectors {
  import opened Wrappers
  import opened Taxonomy
  import opened Records
  import opened SheetColumns
  import opened Counting
  import GameCollectors
  import Seqs

  predicate IsGoalForTag(t: Tag) { t.result == GoalFor }

  /** A shot's cell, and for an own goal also the goal cell. */
  function ShotCells(base: Cell, goal: Cell, r: ShotResult): (cells: seq<Cell>)
    ensures |cells| == if r == GoalFor then 2 else 1
  {
    [base] + if r == GoalFor then [goal] else []
  }

  lemma ShotCellsHits(base: Cell, goal: Cell, r: ShotResult, c: Cell)
    requires base != goal
    ensures multiset(ShotCells(base, goal, r))[c] == (if c == base then 1 else 0) + (if r == GoalFor && c == goal then 1 else 0)
  {
    if r == GoalFor {
      assert multiset(ShotCells(base, goal, r)) == multiset{base, goal};
    } else {
      assert multiset(ShotCells(base, goal, r)) == multiset{base};
    }
  }

  /** Tags whose key is `k` (and that are own goals, when `goalsOnly`). */
  function KeyedAs<K(==)>(key: Tag -> Option<K>, k: K, goalsOnly: bool): Tag -> bool {
    (t: Tag) => key(t) == Some(k) && (!goalsOnly || t.result == GoalFor)
  }

  /** A collector that places every tag with key `k` at `base(k)`, and an
      own goal also at `goal(k)`, where no base cell is a goal cell and
      both tables are one-to-one. */
  ghost predicate ShotCollector<K(!new)>(place: Tag -> Result<seq<Cell>>, key: Tag -> Option<K>, base: K -> Cell, goal: K -> Cell) {
    (forall t :: place(t).Ok? <==> key(t).Some?)
    && (forall t :: place(t).Ok? ==> place(t).value == ShotCells(base(key(t).value), goal(key(t).value), t.result))
    && (forall j, k :: base(j) != goal(k))
    && (forall j, k :: base(j) == base(k) ==> j == k)
    && (forall j, k :: goal(j) == goal(k) ==> j == k)
  }

  lemma ShotCollectorHits<K(!new)>(place: Tag -> Result<seq<Cell>>, key: Tag -> Option<K>, base: K -> Cell, goal: K -> Cell, k: K, x: Tag)
    requires ShotCollector(place, key, base, goal)
    ensures Hits(place, x, base(k)) == if KeyedAs(key, k, false)(x) then 1 else 0
    ensures Hits(place, x, goal(k)) == if KeyedAs(key, k, true)(x) then 1 else 0
  {
    if place(x).Ok? {
      var j := key(x).value;
      ShotCellsHits(base(j), goal(j), x.result, base(k));
      ShotCellsHits(base(j), goal(j), x.result, goal(k));
    }
  }

  /** The counts of such a collector: a key's base cell counts the tags
      with that key, its goal cell those of them that are own goals. */
  lemma ShotCollectorCounts<K(!new)>(tags: seq<Tag>, place: Tag -> Result<seq<Cell>>, key: Tag -> Option<K>, base: K -> Cell, goal: K -> Cell, k: K)
    requires ShotCollector(place, key, base, goal)
    requires AllPlaced(tags, place)
    ensures Tally(tags, place).value[base(k)] == |Seqs.Filter(tags, KeyedAs(key, k, false))|
    ensures Tally(tags, place).value[goal(k)] == |Seqs.Filter(tags, KeyedAs(key, k, true))|
    ensures |Tally(tags, place).value| == |tags| + |Seqs.Filter(tags, IsGoalForTag)|
  {
    forall x ensures Hits(place, x, base(k)) == if KeyedAs(key, k, false)(x) then 1 else 0 {
      ShotCollectorHits(place, key, base, goal, k, x);
    }
    TallyIndicator(tags, place, base(k), KeyedAs(key, k, false));
    forall x ensures Hits(place, x, goal(k)) == if KeyedAs(key, k, true)(x) then 1 else 0 {
      ShotCollectorHits(place, key, base, goal, k, x);
    }
    TallyIndicator(tags, place, goal(k), KeyedAs(key, k, true));
    TallySizeBy(tags, place, IsGoalForTag);
  }

  // ----- zones: row 4, goal one column right -----

  function AreaKey(t: Tag): Option<ShotArea> { t.area }
  function ZoneBase(a: ShotArea): Cell { Cell(ZoneColumn(a), 4) }
  function ZoneGoal(a: ShotArea): Cell { Cell(ZoneColumn(a) + 1, 4) }

  /** A tag without an area raises AttributeError. */
  function ShooterZonePlacement(t: Tag): Result<seq<Cell>> {
    var area :- Need(t.area, AttributeError);
    Ok(ShotCells(ZoneBase(area), ZoneGoal(area), t.result))
  }

  function CollectShooterZones(tags: seq<Tag>): (r: Result<multiset<Cell>>)
    ensures r.Ok? <==> forall i :: 0 <= i < |tags| ==> tags[i].area.Some?
    ensures r.Err? ==> r.error == AttributeError
  {
    var r := Tally(tags, ShooterZonePlacement);
    TallyErrorFrom(tags, ShooterZonePlacement, AttributeError);
    r
  }

  lemma ZoneIsShotCollector()
    ensures ShotCollector(ShooterZonePlacement, AreaKey, ZoneBase, ZoneGoal)
  {
    forall j: ShotArea, k: ShotArea ensures ZoneBase(j) != ZoneGoal(k) && (ZoneBase(j) == ZoneBase(k) ==> j == k) && (ZoneGoal(j) == ZoneGoal(k) ==> j == k) {
      ZoneColumnsTwoApart(j, k);
    }
  }

  /** An area's cell counts the player's shots from it, the cell beside it
      their goals; every shot counts once and a goal once more. */
  lemma ShooterZoneCounts(tags: seq<Tag>, a: ShotArea)
    requires CollectShooterZones(tags).Ok?
    ensures CollectShooterZones(tags).value[ZoneBase(a)] == |Seqs.Filter(tags, KeyedAs(AreaKey, a, false))|
    ensures CollectShooterZones(tags).value[ZoneGoal(a)] == |Seqs.Filter(tags, KeyedAs(AreaKey, a, true))|
    ensures |CollectShooterZones(tags).value| == |tags| + |Seqs.Filter(tags, IsGoalForTag)|
  {
    ZoneIsShotCollector();
    ShotCollectorCounts(tags, ShooterZonePlacement, AreaKey, ZoneBase, ZoneGoal, a);
  }

  // ----- shot types: row 11, goal one column right -----

  function TypeKey(t: Tag): Option<ShotType> { t.shotType }
  function TypeBase(ty: ShotType): Cell { Cell(TypeColumn(ty), 11) }
  function TypeGoal(ty: ShotType): Cell { Cell(TypeColumn(ty) + 1, 11) }

  /** A tag without a shot type raises AttributeError; cross-ice plays no
      part here. */
  function ShooterTypePlacement(t: Tag): Result<seq<Cell>> {
    var shotType :- Need(t.shotType, AttributeError);
    Ok(ShotCells(TypeBase(shotType), TypeGoal(shotType), t.result))
  }

  function CollectShooterTypes(tags: seq<Tag>): (r: Result<multiset<Cell>>)
    ensures r.Ok? <==> forall i :: 0 <= i < |tags| ==> tags[i].shotType.Some?
    ensures r.Err? ==> r.error == AttributeError
  {
    var r := Tally(tags, ShooterTypePlacement);
    TallyErrorFrom(tags, ShooterTypePlacement, AttributeError);
    r
  }

  lemma TypeIsShotCollector()
    ensures ShotCollector(ShooterTypePlacement, TypeKey, TypeBase, TypeGoal)
  {
    forall j: ShotType, k: ShotType ensures TypeBase(j) != TypeGoal(k) && (TypeBase(j) == TypeBase(k) ==> j == k) && (TypeGoal(j) == TypeGoal(k) ==> j == k) {
      TypeColumnsTwoApart(j, k);
    }
  }

  /** A type's cell counts the player's shots of that type, the cell beside
      it their goals. */
  lemma ShooterTypeCounts(tags: seq<Tag>, ty: ShotType)
    requires CollectShooterTypes(tags).Ok?
    ensures CollectShooterTypes(tags).value[TypeBase(ty)] == |Seqs.Filter(tags, KeyedAs(TypeKey, ty, false))|
    ensures CollectShooterTypes(tags).value[TypeGoal(ty)] == |Seqs.Filter(tags, KeyedAs(TypeKey, ty, true))|
    ensures |CollectShooterTypes(tags).value| == |tags| + |Seqs.Filter(tags, IsGoalForTag)|
  {
    TypeIsShotCollector();
    ShotCollectorCounts(tags, ShooterTypePlacement, TypeKey, TypeBase, TypeGoal, ty);
  }

  // ----- net zones: columns G-I, rows 17-19, goal five columns left -----

  function ShooterWidthColumn(w: NetWidth): int {
    match w
    case Left => 'G' as int
    case MidWidth => 'H' as int
    case Right => 'I' as int
  }

  function NetSpotKey(t: Tag): Option<(NetWidth, NetHeight)> {
    match (GameCollectors.NetLookup(t.netWidth, ParseNetWidth), GameCollectors.NetLookup(t.netHeight, ParseNetHeight))
    case (Ok(w), Ok(h)) => Some((w, h))
    case _ => None
  }

  function NetBase(spot: (NetWidth, NetHeight)): Cell {
    Cell(ShooterWidthColumn(spot.0), 17 + GameCollectors.HeightOffset(spot.1))
  }

  function NetGoal(spot: (NetWidth, NetHeight)): Cell {
    Cell(ShooterWidthColumn(spot.0) - 5, 17 + GameCollectors.HeightOffset(spot.1))
  }

  /** A missing or unknown width or height raises KeyError. */
  function ShooterNetPlacement(t: Tag): Result<seq<Cell>> {
    var w :- GameCollectors.NetLookup(t.netWidth, ParseNetWidth);
    var h :- GameCollectors.NetLookup(t.netHeight, ParseNetHeight);
    Ok(ShotCells(NetBase((w, h)), NetGoal((w, h)), t.result))
  }

  function CollectShooterNetZones(tags: seq<Tag>): (r: Result<multiset<Cell>>)
    ensures r.Ok? <==> forall i :: 0 <= i < |tags| ==> NetSpotKey(tags[i]).Some?
    ensures r.Err? ==> r.error == KeyError
  {
    var r := Tally(tags, ShooterNetPlacement);
    TallyErrorFrom(tags, ShooterNetPlacement, KeyError);
    r
  }

  lemma NetIsShotCollector()
    ensures ShotCollector(ShooterNetPlacement, NetSpotKey, NetBase, NetGoal)
  {
  }

  /** A spot's cell in G-I counts the player's shots there, the cell five
      columns left (B-D) their goals. */
  lemma ShooterNetCounts(tags: seq<Tag>, spot: (NetWidth, NetHeight))
    requires CollectShooterNetZones(tags).Ok?
    ensures CollectShooterNetZones(tags).value[NetBase(spot)] == |Seqs.Filter(tags, KeyedAs(NetSpotKey, spot, false))|
    ensures CollectShooterNetZones(tags).value[NetGoal(spot)] == |Seqs.Filter(tags, KeyedAs(NetSpotKey, spot, true))|
    ensures |CollectShooterNetZones(tags).value| == |tags| + |Seqs.Filter(tags, IsGoalForTag)|
  {
    NetIsShotCollector();
    ShotCollectorCounts(tags, ShooterNetPlacement, NetSpotKey, NetBase, NetGoal, spot);
  }

  // ----- strengths: columns B-F, row 31, goal on row 32 -----

  function ShooterStrengthColumn(s: Strength): int {
    match s
    case EvenStrength => 'B' as int
    case PowerPlay => 'C' as int
    case PenaltyKill => 'D' as int
    case EmptyNetFor => 'E' as int
    case EmptyNetAgainst => 'F' as int
  }

  function StrengthKey(t: Tag): Option<Strength> { ParseStrength(t.strengths) }
  function StrengthBase(s: Strength): Cell { Cell(ShooterStrengthColumn(s), 31) }
  function StrengthGoal(s: Strength): Cell { Cell(ShooterStrengthColumn(s), 32) }

  /** An unknown strength label raises KeyError. */
  function ShooterStrengthPlacement(t: Tag): Result<seq<Cell>> {
    var s :- Need(ParseStrength(t.strengths), KeyError);
    Ok(ShotCells(StrengthBase(s), StrengthGoal(s), t.result))
  }

  function CollectShooterStrengths(tags: seq<Tag>): (r: Result<multiset<Cell>>)
    ensures r.Ok? <==> forall i :: 0 <= i < |tags| ==> ParseStrength(tags[i].strengths).Some?
    ensures r.Err? ==> r.error == KeyError
  {
    var r := Tally(tags, ShooterStrengthPlacement);
    TallyErrorFrom(tags, ShooterStrengthPlacement, KeyError);
    r
  }

  lemma StrengthIsShotCollector()
    ensures ShotCollector(ShooterStrengthPlacement, StrengthKey, StrengthBase, StrengthGoal)
  {
  }

  /** A strength's row-31 cell counts the player's shots at it, the row-32
      cell their goals. */
  lemma ShooterStrengthCounts(tags: seq<Tag>, s: Strength)
    requires CollectShooterStrengths(tags).Ok?
    ensures CollectShooterStrengths(tags).value[StrengthBase(s)] == |Seqs.Filter(tags, KeyedAs(StrengthKey, s, false))|
    ensures CollectShooterStrengths(tags).value[StrengthGoal(s)] == |Seqs.Filter(tags, KeyedAs(StrengthKey, s, true))|
    ensures |CollectShooterStrengths(tags).value| == |tags| + |Seqs.Filter(tags, IsGoalForTag)|
  {
    StrengthIsShotCollector();
    ShotCollectorCounts(tags, ShooterStrengthPlacement, StrengthKey, StrengthBase, StrengthGoal, s);
  }
}

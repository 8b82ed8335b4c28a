/** The player report's sheets: for every player of the collecting
    dictionary, the merged cell values of the five sections (shot zones,
    shot types, net zones and strengths of the player's own shots, and the
    on-ice strength blocks), the header cells, and the per-game rows. */
module PlayerSheets {
  import opened Wrappers
  import opened Records
  import opened Counting
  import opened CellMaps
  import opened Taxonomy
  import PlayerCollectors
  import PlayerOnIce
  import PlayerGameRows
  import GameGroups
  import PlayersToAnalyze
  import Dicts
  import Seqs

  type Entry = PlayersToAnalyze.PlayerEntry

  function Zones(shot: seq<Tag>): Result<multiset<Cell>> { PlayerCollectors.CollectShooterZones(shot) }
  function Types(shot: seq<Tag>): Result<multiset<Cell>> { PlayerCollectors.CollectShooterTypes(shot) }
  function NetZones(shot: seq<Tag>): Result<multiset<Cell>> { PlayerCollectors.CollectShooterNetZones(shot) }
  function Strengths(shot: seq<Tag>): Result<multiset<Cell>> { PlayerCollectors.CollectShooterStrengths(shot) }
  function OnIce(onIce: seq<Tag>, p: int): Result<multiset<Cell>> { PlayerOnIce.CollectOnIceStrengths(onIce, p) }

  predicate SectionsOk(shot: seq<Tag>, onIce: seq<Tag>, p: int) {
    Zones(shot).Ok? && Types(shot).Ok? && NetZones(shot).Ok? && Strengths(shot).Ok? && OnIce(onIce, p).Ok?
  }

  /** The counts of the five sections together. */
  function SectionCounts(shot: seq<Tag>, onIce: seq<Tag>, p: int): multiset<Cell> {
    BagOf(Zones(shot)) + BagOf(Types(shot)) + BagOf(NetZones(shot)) + BagOf(Strengths(shot)) + BagOf(OnIce(onIce, p))
  }

  /** The five section maps in merge order. */
  function SectionMaps(shot: seq<Tag>, onIce: seq<Tag>, p: int): (parts: seq<map<Cell, nat>>)
    requires SectionsOk(shot, onIce, p)
    ensures |parts| == 5
  {
    [CountsToMap(Zones(shot).value), CountsToMap(Types(shot).value), CountsToMap(NetZones(shot).value),
     CountsToMap(Strengths(shot).value), CountsToMap(OnIce(onIce, p).value)]
  }

  /** The first failing section's error, in the order the sections are
      computed. */
  function FirstSectionError(shot: seq<Tag>, onIce: seq<Tag>, p: int): Error
    requires !SectionsOk(shot, onIce, p)
  {
    if Zones(shot).Err? then Zones(shot).error
    else if Types(shot).Err? then Types(shot).error
    else if NetZones(shot).Err? then NetZones(shot).error
    else if Strengths(shot).Err? then Strengths(shot).error
    else OnIce(onIce, p).error
  }

  /** A player's counted cells: the five sections in order, the first
      failing one aborting, merged into one dictionary. */
  function CellValues(shot: seq<Tag>, onIce: seq<Tag>, p: int): (r: Result<map<Cell, nat>>)
    ensures r.Ok? <==> SectionsOk(shot, onIce, p)
    ensures r.Err? ==> r.error == FirstSectionError(shot, onIce, p)
  {
    var zones :- Zones(shot);
    var types :- Types(shot);
    var net :- NetZones(shot);
    var strengths :- Strengths(shot);
    var totals :- OnIce(onIce, p);
    Ok(MergeCells(SectionMaps(shot, onIce, p)))
  }

  /** A missing area or shot type raises AttributeError, an unknown net
      spot or strength KeyError; nothing else fails. */
  lemma CellValuesErrors(shot: seq<Tag>, onIce: seq<Tag>, p: int)
    ensures CellValues(shot, onIce, p).Err? ==> CellValues(shot, onIce, p).error in {AttributeError, KeyError}
    ensures CellValues(shot, onIce, p).Err? && CellValues(shot, onIce, p).error == AttributeError
      <==> exists i :: 0 <= i < |shot| && (shot[i].area.None? || shot[i].shotType.None?)
  {
  }

  // ----- the sections' rows -----

  /** The section a row belongs to: zones on row 4, types on row 11, net
      zones on rows 17-19, strengths on rows 31-32, on-ice blocks on rows
      38-39 and 46-47. */
  function SectionOfRow(row: int): Option<nat> {
    if row == 4 then Some(0)
    else if row == 11 then Some(1)
    else if 17 <= row <= 19 then Some(2)
    else if 31 <= row <= 32 then Some(3)
    else if 38 <= row <= 39 || 46 <= row <= 47 then Some(4)
    else None
  }

  lemma ZoneRows(shot: seq<Tag>)
    requires Zones(shot).Ok?
    ensures forall c :: c in Zones(shot).value ==> c.row == 4
  {
    TallyCellsWithin(shot, PlayerCollectors.ShooterZonePlacement, (c: Cell) => c.row == 4);
  }

  lemma TypeRows(shot: seq<Tag>)
    requires Types(shot).Ok?
    ensures forall c :: c in Types(shot).value ==> c.row == 11
  {
    TallyCellsWithin(shot, PlayerCollectors.ShooterTypePlacement, (c: Cell) => c.row == 11);
  }

  lemma NetRows(shot: seq<Tag>)
    requires NetZones(shot).Ok?
    ensures forall c :: c in NetZones(shot).value ==> 17 <= c.row <= 19
  {
    TallyCellsWithin(shot, PlayerCollectors.ShooterNetPlacement, (c: Cell) => 17 <= c.row <= 19);
  }

  lemma StrengthRows(shot: seq<Tag>)
    requires Strengths(shot).Ok?
    ensures forall c :: c in Strengths(shot).value ==> 31 <= c.row <= 32
  {
    TallyCellsWithin(shot, PlayerCollectors.ShooterStrengthPlacement, (c: Cell) => 31 <= c.row <= 32);
  }

  lemma OnIceRows(onIce: seq<Tag>, p: int)
    requires OnIce(onIce, p).Ok?
    ensures forall c :: c in OnIce(onIce, p).value ==> 38 <= c.row <= 39 || 46 <= c.row <= 47
  {
    TallyCellsWithin(onIce, PlayerOnIce.OnIcePlacement(p), (c: Cell) => 38 <= c.row <= 39 || 46 <= c.row <= 47);
  }

  lemma SectionMapsOwnRows(shot: seq<Tag>, onIce: seq<Tag>, p: int, c: Cell)
    requires SectionsOk(shot, onIce, p)
    ensures SectionOfRow(c.row) != Some(0) ==> c !in SectionMaps(shot, onIce, p)[0]
    ensures SectionOfRow(c.row) != Some(1) ==> c !in SectionMaps(shot, onIce, p)[1]
    ensures SectionOfRow(c.row) != Some(2) ==> c !in SectionMaps(shot, onIce, p)[2]
    ensures SectionOfRow(c.row) != Some(3) ==> c !in SectionMaps(shot, onIce, p)[3]
    ensures SectionOfRow(c.row) != Some(4) ==> c !in SectionMaps(shot, onIce, p)[4]
  {
    var m := SectionMaps(shot, onIce, p);
    assert SectionOfRow(c.row) != Some(0) ==> c !in m[0] by {
      ZoneRows(shot);
    }
    assert SectionOfRow(c.row) != Some(1) ==> c !in m[1] by {
      TypeRows(shot);
    }
    assert SectionOfRow(c.row) != Some(2) ==> c !in m[2] by {
      NetRows(shot);
    }
    assert SectionOfRow(c.row) != Some(3) ==> c !in m[3] by {
      StrengthRows(shot);
    }
    assert SectionOfRow(c.row) != Some(4) ==> c !in m[4] by {
      OnIceRows(onIce, p);
    }
  }

  /** The sections' rows are disjoint, so merging drops nothing: every
      cell's value is its count over all five sections. */
  lemma CellValuesDropNothing(shot: seq<Tag>, onIce: seq<Tag>, p: int, c: Cell)
    requires CellValues(shot, onIce, p).Ok?
    ensures Count(CellValues(shot, onIce, p).value, c) == SectionCounts(shot, onIce, p)[c]
  {
    var parts := SectionMaps(shot, onIce, p);
    SectionMapsOwnRows(shot, onIce, p, c);
    MergeOwnedAt(parts, c, SectionOfRow(c.row));
    SumCountsFive(parts, c);
  }

  /** No section counts on row 1, so the header cells B1 (the name) and G1
      (the games count) never clash with a counted cell. */
  lemma HeaderCellsFree(shot: seq<Tag>, onIce: seq<Tag>, p: int)
    requires CellValues(shot, onIce, p).Ok?
    ensures Cell('B' as int, 1) !in CellValues(shot, onIce, p).value
    ensures Cell('G' as int, 1) !in CellValues(shot, onIce, p).value
  {
    SectionMapsOwnRows(shot, onIce, p, Cell('B' as int, 1));
    SectionMapsOwnRows(shot, onIce, p, Cell('G' as int, 1));
    MergeMissesStranger(SectionMaps(shot, onIce, p), Cell('B' as int, 1));
    MergeMissesStranger(SectionMaps(shot, onIce, p), Cell('G' as int, 1));
  }

  /** A player without tags gets an empty sheet body. */
  lemma NoTagsNoCells(p: int)
    ensures CellValues([], [], p) == Ok(map[])
  {
    assert Zones([]) == Ok(multiset{});
    assert Types([]) == Ok(multiset{});
    assert NetZones([]) == Ok(multiset{});
    assert Strengths([]) == Ok(multiset{});
    assert OnIce([], p) == Ok(multiset{});
    var parts := SectionMaps([], [], p);
    forall c ensures c !in MergeCells(parts) {
      MergeMissesStranger(parts, c);
    }
  }

  // ----- per-game rows -----

  /** Once the on-ice blocks are counted, the per-game rows cannot fail:
      both need exactly every on-ice tag's strength to parse. */
  lemma PerGameAfterOnIce(onIce: seq<Tag>, p: int)
    requires OnIce(onIce, p).Ok?
    ensures PlayerGameRows.CollectPlayersPerGameStats(onIce, p).Ok?
  {
    forall i | 0 <= i < |onIce| ensures PlayerGameRows.RowPlacement(p)(onIce[i]).Ok? {
      assert ParseStrength(onIce[i].strengths).Some?;
    }
  }

  // ----- sheets -----

  /** A player's sheet: the name for cell B1 (only in the package version
      of the report), the games count for cell G1, the counted cells and
      the per-game rows. */
  datatype PlayerSheet = PlayerSheet(id: int, nameCell: Option<string>, gamesCell: nat, cells: map<Cell, nat>,
                                     perGame: seq<GameGroups.GameRow<string>>)

  function FullName(e: Entry): string {
    e.firstName + " " + e.lastName
  }

  /** One player's sheet; `withName` selects the version that writes B1. */
  function PlayerStats(id: int, e: Entry, withName: bool): (r: Result<PlayerSheet>)
    ensures r.Ok? <==> SectionsOk(e.shooterTags, e.onIceTags, id)
    ensures r.Err? ==> r.error == FirstSectionError(e.shooterTags, e.onIceTags, id)
    ensures r.Ok? ==> (r.value.id == id && r.value.gamesCell == e.games
      && r.value.nameCell == (if withName then Some(FullName(e)) else None)
      && r.value.cells == CellValues(e.shooterTags, e.onIceTags, id).value
      && r.value.perGame == PlayerGameRows.CollectPlayersPerGameStats(e.onIceTags, id).value)
  {
    var cells :- CellValues(e.shooterTags, e.onIceTags, id);
    PerGameAfterOnIce(e.onIceTags, id);
    var rows := PlayerGameRows.CollectPlayersPerGameStats(e.onIceTags, id).value;
    Ok(PlayerSheet(id, if withName then Some(FullName(e)) else None, e.games, cells, rows))
  }

  function SheetOf(withName: bool): ((int, Entry)) -> Result<PlayerSheet> {
    (entry: (int, Entry)) => PlayerStats(entry.0, entry.1, withName)
  }

  /** Every player's sheet, in dictionary order; the first failing player
      aborts the report with its first failing section's error. */
  function AddPlayerStats(players: PlayersToAnalyze.Players, withName: bool): (r: Result<seq<PlayerSheet>>)
    ensures r.Ok? <==> forall i :: 0 <= i < |players| ==> SheetOf(withName)(players[i]).Ok?
    ensures r.Ok? ==> (|r.value| == |players|
      && forall i :: 0 <= i < |players| ==> r.value[i] == SheetOf(withName)(players[i]).value)
    ensures r.Err? ==> exists i :: (0 <= i < |players| && SheetOf(withName)(players[i]) == Err(r.error)
      && forall j :: 0 <= j < i ==> SheetOf(withName)(players[j]).Ok?)
  {
    MapAll(players, SheetOf(withName))
  }
}

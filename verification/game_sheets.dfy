/** The game report: per-game and total sheets, each holding the merged
    cell values of the four sections and the map points. */
module GameSheets {
  import opened Wrappers
  import opened Records
  import opened Counting
  import opened GameCollectors
  import opened MapPoints
  import opened CellMaps
  import Seqs

  /** The counts of the four sections together. */
  function SectionCounts(tags: seq<Tag>): multiset<Cell> {
    BagOf(CollectShotZones(tags)) + BagOf(CollectShotTypes(tags)) + BagOf(CollectNetZones(tags)) + BagOf(CollectStrengths(tags))
  }

  predicate SectionsOk(tags: seq<Tag>) {
    CollectShotZones(tags).Ok? && CollectShotTypes(tags).Ok? && CollectNetZones(tags).Ok? && CollectStrengths(tags).Ok?
  }

  /** The four section maps in sheet order: zones, types, net zones,
      strengths. */
  function SectionMaps(tags: seq<Tag>): seq<map<Cell, nat>>
    requires SectionsOk(tags)
  {
    [CountsToMap(CollectShotZones(tags).value), CountsToMap(CollectShotTypes(tags).value),
     CountsToMap(CollectNetZones(tags).value), CountsToMap(CollectStrengths(tags).value)]
  }

  /** The cell values of a sheet: the four sections computed in order, the
      first failing one aborting, then merged into one dictionary. */
  function CellValues(tags: seq<Tag>): (r: Result<map<Cell, nat>>)
    ensures r.Ok? <==> SectionsOk(tags)
    ensures r.Err? ==> r.error == (if CollectShotZones(tags).Err? then CollectShotZones(tags).error
                                   else if CollectShotTypes(tags).Err? then CollectShotTypes(tags).error
                                   else if CollectNetZones(tags).Err? then CollectNetZones(tags).error
                                   else CollectStrengths(tags).error)
  {
    var zones :- CollectShotZones(tags);
    var types :- CollectShotTypes(tags);
    var net :- CollectNetZones(tags);
    var strengths :- CollectStrengths(tags);
    Ok(MergeCells(SectionMaps(tags)))
  }

  /** The section a cell's row belongs to, if any. */
  function SectionOfRow(row: int): Option<nat> {
    if 5 <= row <= 6 then Some(0)
    else if 12 <= row <= 13 then Some(1)
    else if 19 <= row <= 28 then Some(2)
    else if 35 <= row <= 36 then Some(3)
    else None
  }

  /** Each section map holds only cells of its own rows. */
  lemma SectionMapsOwnRows(tags: seq<Tag>, c: Cell)
    requires SectionsOk(tags)
    ensures SectionOfRow(c.row) != Some(0) ==> c !in SectionMaps(tags)[0]
    ensures SectionOfRow(c.row) != Some(1) ==> c !in SectionMaps(tags)[1]
    ensures SectionOfRow(c.row) != Some(2) ==> c !in SectionMaps(tags)[2]
    ensures SectionOfRow(c.row) != Some(3) ==> c !in SectionMaps(tags)[3]
  {
    var m := SectionMaps(tags);
    assert SectionOfRow(c.row) != Some(0) ==> c !in m[0] by {
      ZoneCellsInSection(tags);
    }
    assert SectionOfRow(c.row) != Some(1) ==> c !in m[1] by {
      TypeCellsInSection(tags);
    }
    assert SectionOfRow(c.row) != Some(2) ==> c !in m[2] by {
      NetCellsInSection(tags);
    }
    assert SectionOfRow(c.row) != Some(3) ==> c !in m[3] by {
      StrengthCellsInSection(tags);
    }
  }

  /** The counts of one cell over the four sections. */
  lemma SectionCountsAt(tags: seq<Tag>, c: Cell)
    requires SectionsOk(tags)
    ensures SectionCounts(tags)[c] == Count(SectionMaps(tags)[0], c) + Count(SectionMaps(tags)[1], c)
      + Count(SectionMaps(tags)[2], c) + Count(SectionMaps(tags)[3], c)
  {
  }

  /** The merge of four maps of which only the `i`-th may hold `c`. */
  lemma MergeFourAt(parts: seq<map<Cell, nat>>, c: Cell, owner: Option<nat>)
    requires |parts| == 4
    requires forall j :: 0 <= j < 4 && owner != Some(j) ==> c !in parts[j]
    ensures Count(MergeCells(parts), c) == Count(parts[0], c) + Count(parts[1], c) + Count(parts[2], c) + Count(parts[3], c)
  {
    match owner
    case Some(i) =>
      if i < 4 { MergeKeepsOwner(parts, c, i); } else { MergeMissesStranger(parts, c); }
    case None => MergeMissesStranger(parts, c);
  }

  /** The sections' rows are disjoint, so the merge drops nothing: every
      cell's value is its count over all four sections. */
  lemma CellValuesDropNothing(tags: seq<Tag>, c: Cell)
    requires CellValues(tags).Ok?
    ensures Count(CellValues(tags).value, c) == SectionCounts(tags)[c]
  {
    var parts := SectionMaps(tags);
    SectionCountsAt(tags, c);
    SectionMapsOwnRows(tags, c);
    MergeFourAt(parts, c, SectionOfRow(c.row));
  }

  // ----- sheets -----

  /** A per-game sheet: the game's header values, its cell values, and its
      map points when the report version draws them. */
  datatype GameSheet = GameSheet(game: GameInfo, cells: map<Cell, nat>, coordinates: Option<ResultMap>)

  datatype TotalSheet = TotalSheet(cells: map<Cell, nat>, coordinates: ResultMap)

  /** The total sheet: cell values, then map points, of all the tags. */
  function BuildTotalStats(tags: seq<Tag>): (r: Result<TotalSheet>)
    ensures r.Ok? <==> SectionsOk(tags) && NoShots(tags)
    ensures r.Ok? ==> (forall c :: Count(r.value.cells, c) == SectionCounts(tags)[c]) && GroupedAs(r.value.coordinates, tags)
  {
    var cells :- CellValues(tags);
    var coordinates :- CollectMappedData(tags);
    assert forall c :: Count(cells, c) == SectionCounts(tags)[c] by {
      forall c ensures Count(cells, c) == SectionCounts(tags)[c] { CellValuesDropNothing(tags, c); }
    }
    Ok(TotalSheet(cells, coordinates))
  }

  /** One game's sheet, from that game's tags only. */
  function BuildGameSheet(tags: seq<Tag>, game: GameInfo, withCoordinates: bool): (r: Result<GameSheet>)
    ensures r.Ok? <==> SectionsOk(TagsOfGame(tags, game.id)) && (withCoordinates ==> NoShots(TagsOfGame(tags, game.id)))
    ensures r.Ok? ==> r.value.game == game
    ensures r.Ok? ==> forall c :: Count(r.value.cells, c) == SectionCounts(TagsOfGame(tags, game.id))[c]
    ensures r.Ok? ==> match r.value.coordinates
                      case Some(m) => withCoordinates && GroupedAs(m, TagsOfGame(tags, game.id))
                      case None => !withCoordinates
  {
    var gameTags := TagsOfGame(tags, game.id);
    var cells :- CellValues(gameTags);
    assert forall c :: Count(cells, c) == SectionCounts(gameTags)[c] by {
      forall c ensures Count(cells, c) == SectionCounts(gameTags)[c] { CellValuesDropNothing(gameTags, c); }
    }
    if withCoordinates then
      var coordinates :- CollectMappedData(gameTags);
      Ok(GameSheet(game, cells, Some(coordinates)))
    else
      Ok(GameSheet(game, cells, None))
  }

  predicate AllGamesOk(tags: seq<Tag>, games: seq<GameInfo>, withCoordinates: bool) {
    forall i :: 0 <= i < |games| ==> BuildGameSheet(tags, games[i], withCoordinates).Ok?
  }

  /** `sheets` are the sheets of `games`, one each, in order. */
  predicate SheetsOf(sheets: seq<GameSheet>, tags: seq<Tag>, games: seq<GameInfo>, withCoordinates: bool) {
    |sheets| == |games|
    && forall i :: 0 <= i < |games| ==> BuildGameSheet(tags, games[i], withCoordinates) == Ok(sheets[i])
  }

  lemma AllGamesOkSnoc(tags: seq<Tag>, init: seq<GameInfo>, g: GameInfo, withCoordinates: bool)
    ensures AllGamesOk(tags, init + [g], withCoordinates)
      <==> AllGamesOk(tags, init, withCoordinates) && BuildGameSheet(tags, g, withCoordinates).Ok?
  {
    var games := init + [g];
    if AllGamesOk(tags, games, withCoordinates) {
      forall i | 0 <= i < |init| ensures BuildGameSheet(tags, init[i], withCoordinates).Ok? {
        assert init[i] == games[i];
      }
      assert games[|init|] == g;
    }
  }

  lemma SheetsOfSnoc(sheets: seq<GameSheet>, s: GameSheet, tags: seq<Tag>, init: seq<GameInfo>, g: GameInfo, withCoordinates: bool)
    requires SheetsOf(sheets, tags, init, withCoordinates)
    requires BuildGameSheet(tags, g, withCoordinates) == Ok(s)
    ensures SheetsOf(sheets + [s], tags, init + [g], withCoordinates)
  {
  }

  /** The per-game sheets, in the order of the games; the first game whose
      tags fail aborts. */
  function BuildPerGameStats(tags: seq<Tag>, games: seq<GameInfo>, withCoordinates: bool): (r: Result<seq<GameSheet>>)
    ensures r.Ok? <==> AllGamesOk(tags, games, withCoordinates)
    ensures r.Ok? ==> SheetsOf(r.value, tags, games, withCoordinates)
    decreases |games|
  {
    if |games| == 0 then Ok([])
    else
      var init := games[..|games| - 1];
      var g := games[|games| - 1];
      assert games == init + [g];
      AllGamesOkSnoc(tags, init, g, withCoordinates);
      var sheets :- BuildPerGameStats(tags, init, withCoordinates);
      var sheet :- BuildGameSheet(tags, g, withCoordinates);
      SheetsOfSnoc(sheets, sheet, tags, init, g, withCoordinates);
      Ok(sheets + [sheet])
  }

  function GameIds(games: seq<GameInfo>): (ids: seq<int>)
    ensures |ids| == |games|
    ensures forall i :: 0 <= i < |games| ==> ids[i] == games[i].id
  {
    seq(|games|, i requires 0 <= i < |games| => games[i].id)
  }

  /** The tags the report reads: those of the selected games. */
  function InGames(ids: seq<int>): Tag -> bool {
    (t: Tag) => t.game.id in ids
  }

  function SelectedTags(allTags: seq<Tag>, games: seq<GameInfo>): (tags: seq<Tag>)
    ensures forall i :: 0 <= i < |tags| ==> GameIdOf(tags[i]) in GameIds(games)
  {
    Seqs.Filter(allTags, InGames(GameIds(games)))
  }

  /** The report of the package version: per-game sheets with map points
      first, then the total sheet. */
  function GameStats(allTags: seq<Tag>, games: seq<GameInfo>): (r: Result<(seq<GameSheet>, TotalSheet)>)
    ensures r.Ok? <==> AllGamesOk(SelectedTags(allTags, games), games, true) && BuildTotalStats(SelectedTags(allTags, games)).Ok?
  {
    var tags := SelectedTags(allTags, games);
    var perGame :- BuildPerGameStats(tags, games, true);
    var total :- BuildTotalStats(tags);
    Ok((perGame, total))
  }

  /** The report of the legacy version: the total sheet first, then
      per-game sheets without map points. */
  function LegacyGameStats(allTags: seq<Tag>, games: seq<GameInfo>): (r: Result<(seq<GameSheet>, TotalSheet)>)
    ensures r.Ok? <==> AllGamesOk(SelectedTags(allTags, games), games, false) && BuildTotalStats(SelectedTags(allTags, games)).Ok?
  {
    var tags := SelectedTags(allTags, games);
    var total :- BuildTotalStats(tags);
    var perGame :- BuildPerGameStats(tags, games, false);
    Ok((perGame, total))
  }

  /** The two versions agree whenever both succeed, apart from the
      per-game map points. */
  lemma VersionsAgree(allTags: seq<Tag>, games: seq<GameInfo>)
    requires GameStats(allTags, games).Ok? && LegacyGameStats(allTags, games).Ok?
    ensures GameStats(allTags, games).value.1 == LegacyGameStats(allTags, games).value.1
    ensures |GameStats(allTags, games).value.0| == |LegacyGameStats(allTags, games).value.0|
    ensures forall i :: 0 <= i < |games| ==>
      GameStats(allTags, games).value.0[i].game == LegacyGameStats(allTags, games).value.0[i].game
      && GameStats(allTags, games).value.0[i].cells == LegacyGameStats(allTags, games).value.0[i].cells
  {
  }

  /** A game without tags gets an empty cell map. */
  lemma TaglessGameIsEmpty(tags: seq<Tag>, game: GameInfo, withCoordinates: bool)
    requires forall i :: 0 <= i < |tags| ==> tags[i].game.id != game.id
    ensures BuildGameSheet(tags, game, withCoordinates).Ok?
    ensures BuildGameSheet(tags, game, withCoordinates).value.cells == map[]
  {
    var g := TagsOfGame(tags, game.id);
    if |g| > 0 {
      Seqs.FilterMembers(tags, Seqs.KeyIs(GameIdOf, game.id), g[0]);
      assert false;
    }
    assert g == [];
    var parts := SectionMaps(g);
    forall c ensures c !in MergeCells(parts) {
      MergeMissesStranger(parts, c);
    }
  }
}

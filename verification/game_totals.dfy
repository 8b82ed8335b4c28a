/** The total sheet against the per-game sheets: with distinct game ids,
    the per-game cell values add up to the total's. */
module GameTotals {
  import opened Wrappers
  import opened Records
  import opened Counting
  import opened GameCollectors
  import opened CellMaps
  import opened GameSheets
  import Seqs

  /** Adding up the sheets' values of a cell. */
  function SumCells(sheets: seq<GameSheet>, c: Cell): nat
    decreases |sheets|
  {
    if |sheets| == 0 then 0 else SumCells(sheets[..|sheets| - 1], c) + Count(sheets[|sheets| - 1].cells, c)
  }

  /** The section counts, added up game by game. */
  function GroupedSections(tags: seq<Tag>, ids: seq<int>): multiset<Cell> {
    GroupSum(tags, ids, GameIdOf, ZonePlacement) + GroupSum(tags, ids, GameIdOf, TypePlacement)
      + GroupSum(tags, ids, GameIdOf, NetPlacement) + GroupSum(tags, ids, GameIdOf, StrengthPlacement)
  }

  lemma GroupedSectionsSnoc(tags: seq<Tag>, ids: seq<int>)
    requires |ids| > 0
    ensures GroupedSections(tags, ids)
      == GroupedSections(tags, ids[..|ids| - 1]) + SectionCounts(TagsOfGame(tags, ids[|ids| - 1]))
  {
  }

  lemma {:induction false} SumCellsIsGrouped(tags: seq<Tag>, games: seq<GameInfo>, sheets: seq<GameSheet>, withCoordinates: bool, c: Cell)
    requires SheetsOf(sheets, tags, games, withCoordinates)
    ensures SumCells(sheets, c) == GroupedSections(tags, GameIds(games))[c]
    decreases |games|
  {
    if |games| > 0 {
      var n := |games| - 1;
      var ids := GameIds(games);
      assert ids[..n] == GameIds(games[..n]);
      assert SheetsOf(sheets[..n], tags, games[..n], withCoordinates);
      SumCellsIsGrouped(tags, games[..n], sheets[..n], withCoordinates, c);
      GroupedSectionsSnoc(tags, ids);
      assert BuildGameSheet(tags, games[n], withCoordinates) == Ok(sheets[n]);
    }
  }

  /** With distinct game ids and every tag belonging to a listed game, the
      per-game sheets add up, cell by cell, to the total sheet. */
  lemma {:induction false} SheetsAddUp(tags: seq<Tag>, games: seq<GameInfo>, sheets: seq<GameSheet>, withCoordinates: bool)
    requires Seqs.Distinct(GameIds(games))
    requires forall i :: 0 <= i < |tags| ==> GameIdOf(tags[i]) in GameIds(games)
    requires SheetsOf(sheets, tags, games, withCoordinates)
    requires BuildTotalStats(tags).Ok?
    ensures forall c :: SumCells(sheets, c) == Count(BuildTotalStats(tags).value.cells, c)
  {
    var ids := GameIds(games);
    GroupSumTotal(tags, ids, GameIdOf, ZonePlacement);
    GroupSumTotal(tags, ids, GameIdOf, TypePlacement);
    GroupSumTotal(tags, ids, GameIdOf, NetPlacement);
    GroupSumTotal(tags, ids, GameIdOf, StrengthPlacement);
    assert GroupedSections(tags, ids) == SectionCounts(tags);
    forall c ensures SumCells(sheets, c) == Count(BuildTotalStats(tags).value.cells, c) {
      SumCellsIsGrouped(tags, games, sheets, withCoordinates, c);
    }
  }

  /** Both report versions: the per-game sheets add up to the total sheet. */
  lemma PerGameSumsToTotal(allTags: seq<Tag>, games: seq<GameInfo>)
    requires Seqs.Distinct(GameIds(games))
    ensures GameStats(allTags, games).Ok? ==>
      forall c :: SumCells(GameStats(allTags, games).value.0, c) == Count(GameStats(allTags, games).value.1.cells, c)
    ensures LegacyGameStats(allTags, games).Ok? ==>
      forall c :: SumCells(LegacyGameStats(allTags, games).value.0, c) == Count(LegacyGameStats(allTags, games).value.1.cells, c)
  {
    var tags := SelectedTags(allTags, games);
    if GameStats(allTags, games).Ok? {
      SheetsAddUp(tags, games, GameStats(allTags, games).value.0, true);
    }
    if LegacyGameStats(allTags, games).Ok? {
      SheetsAddUp(tags, games, LegacyGameStats(allTags, games).value.0, false);
    }
  }
}

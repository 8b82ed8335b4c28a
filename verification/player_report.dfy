/** The player report end to end: the collecting dictionary built from the
    selected games and their tags, then one sheet per player. */
module PlayerReport {
  import opened Wrappers
  import opened Records
  import opened CellMaps
  import opened PlayersToAnalyze
  import opened PlayerSheets
  import Dicts
  import Seqs

  /** The package version: sheets carry the player's name in B1. */
  function PlayerReport(games: seq<Game>, tags: seq<Tag>): Result<seq<PlayerSheet>> {
    AddPlayerStats(GetPlayersToAnalyze(games, tags), true)
  }

  /** The route module's version: no name cell. */
  function LegacyPlayerReport(games: seq<Game>, tags: seq<Tag>): Result<seq<PlayerSheet>> {
    AddPlayerStats(LegacyPlayersToAnalyze(games, tags), false)
  }

  /** An entry of a valid dictionary is what the dictionary gives its key. */
  lemma EntryIsLookup(d: Players, i: int)
    requires Dicts.Valid(d) && 0 <= i < |d|
    ensures Lookup(d, d[i].0) == d[i].1
  {
    Dicts.GetUnique(d, d[i].0);
  }

  /** Sheet `i` of the report belongs to the `i`-th player of the
      dictionary; its G1 value is the player's roster-slot count, and every
      cell holds the player's count over the five sections, computed from
      exactly the tags the player shot and the player's on-ice links. */
  lemma ReportSheetContents(games: seq<Game>, tags: seq<Tag>, i: int, c: Cell)
    requires PlayerReport(games, tags).Ok?
    requires 0 <= i < |GetPlayersToAnalyze(games, tags)|
    ensures |PlayerReport(games, tags).value| == |GetPlayersToAnalyze(games, tags)|
    ensures PlayerReport(games, tags).value[i].id == GetPlayersToAnalyze(games, tags)[i].0
    ensures PlayerReport(games, tags).value[i].gamesCell
      == |Seqs.Filter(RosterPlayers(games), IdIs(PlayerReport(games, tags).value[i].id))|
    ensures Count(PlayerReport(games, tags).value[i].cells, c)
      == SectionCounts(Seqs.Filter(tags, ShotBy(PlayerReport(games, tags).value[i].id)),
                       OnIceLinks(tags, PlayerReport(games, tags).value[i].id),
                       PlayerReport(games, tags).value[i].id)[c]
  {
    var d := GetPlayersToAnalyze(games, tags);
    var id := d[i].0;
    var sheet := PlayerReport(games, tags).value[i];
    assert sheet == SheetOf(true)(d[i]).value;
    assert sheet == PlayerStats(id, d[i].1, true).value;
    GetPlayersToAnalyzeExact(games, tags, id);
    EntryIsLookup(d, i);
    CellValuesDropNothing(d[i].1.shooterTags, d[i].1.onIceTags, id, c);
  }

  /** Both versions build the same sheet for a player, but for the name
      cell only the package version writes. */
  lemma LegacySheetsAgree(games: seq<Game>, tags: seq<Tag>, id: int)
    ensures PlayerStats(id, Lookup(LegacyPlayersToAnalyze(games, tags), id), false).Ok?
      == PlayerStats(id, Lookup(GetPlayersToAnalyze(games, tags), id), true).Ok?
    ensures PlayerStats(id, Lookup(LegacyPlayersToAnalyze(games, tags), id), false).Ok? ==>
      PlayerStats(id, Lookup(LegacyPlayersToAnalyze(games, tags), id), false).value
        == PlayerStats(id, Lookup(GetPlayersToAnalyze(games, tags), id), true).value.(nameCell := None)
  {
    LegacyAgrees(games, tags, id);
  }
}

/** The flat plus-minus route's aggregation: the same per-game counting
    as the package, with each game's table replaced by its per-position
    lists, and an empty game list failing with IndexError when the first
    game's date is read. */
module PlusMinusLegacy {
  import opened Wrappers
  import opened Records
  import opened PlusMinusEntries
  import opened PlusMinusGames
  import Seqs
  import Sorting

  /** A game of the legacy report: its details and its players split by
      position. */
  datatype LegacyGame = LegacyGame(info: GameInfo, roster: ByPosition)

  function ToLegacy(g: GameData): LegacyGame {
    LegacyGame(g.info, g.byPosition)
  }

  function LegacyLaterFirst(a: LegacyGame, b: LegacyGame): bool {
    a.info.date >= b.info.date
  }

  /** The legacy aggregation: the games latest first and the totals split
      by position. A game that does not go through stops it first; with
      no games at all it fails with IndexError. */
  function LegacyGamesData(games: seq<Game>, tags: seq<Tag>): (r: Result<(seq<LegacyGame>, ByPosition)>)
    ensures r.Ok? <==> |games| > 0 && forall i :: 0 <= i < |games| ==> GameOk(games[i], tags)
    ensures r.Err? && |games| == 0 ==> r.error == IndexError
    ensures r.Err? && |games| > 0 ==> exists i :: FirstBad(games, tags, i) && r.error == GameError(games[i])
    ensures r.Ok? ==> |r.value.0| == |games| && Sorting.SortedBy(r.value.0, LegacyLaterFirst)
    ensures r.Ok? ==> GamesData(games, tags).Ok? && forall g :: (Seqs.Filter(r.value.0, Sorting.Tied(LegacyLaterFirst, g))
      == Seqs.Filter(Seqs.Map(GamesData(games, tags).value.0, ToLegacy), Sorting.Tied(LegacyLaterFirst, g)))
  {
    GamesDataOk(games, tags);
    var pr := GamesData(games, tags);
    if pr.Err? then
      GamesDataError(games, tags);
      Err(pr.error)
    else if |games| == 0 then Err(IndexError)
    else
      var lg := Seqs.Map(pr.value.0, ToLegacy);
      Sorting.SortBySorted(lg, LegacyLaterFirst);
      Sorting.SortByStableAll(lg, LegacyLaterFirst);
      Ok((Sorting.SortBy(lg, LegacyLaterFirst), ConvertRosterToLists(pr.value.1)))
  }

  /** On a non-empty game list the legacy route agrees with the package:
      it fails with the same error, or it lists the same games in the same
      order, each with the package's per-position lists, and the same
      totals. */
  lemma LegacyAgrees(games: seq<Game>, tags: seq<Tag>)
    requires |games| > 0
    ensures LegacyGamesData(games, tags).Ok? <==> PlusMinusGamesData(games, tags).Ok?
    ensures LegacyGamesData(games, tags).Err? ==> LegacyGamesData(games, tags).error == PlusMinusGamesData(games, tags).error
    ensures LegacyGamesData(games, tags).Ok? ==>
      LegacyGamesData(games, tags).value.0 == Seqs.Map(PlusMinusGamesData(games, tags).value.games, ToLegacy)
      && LegacyGamesData(games, tags).value.1 == PlusMinusGamesData(games, tags).value.totals
  {
    if GamesData(games, tags).Ok? {
      Sorting.SortByMap(GamesData(games, tags).value.0, LaterFirst, ToLegacy, LegacyLaterFirst);
    }
  }
}

/** The records the aggregations read: games, players, rosters and tags,
    and the spreadsheet cell a count is written to. */
module Records {
  import opened Wrappers
  import opened Taxonomy
  import Seqs

  /** The game a tag belongs to, as the tag's relationship exposes it.
      Dates are day numbers; later games have larger numbers. */
  datatype GameInfo = GameInfo(id: int, date: int, opponent: string, home: bool)

  datatype Player = Player(id: int, firstName: string, lastName: string, position: Position)

  /** One roster line: a player, the line number and the position text
      ("LW", "C", "RW", "LD", "RD", "G"). */
  datatype RosterEntry = RosterEntry(player: Player, line: int, position: string)

  datatype Game = Game(info: GameInfo, roster: seq<RosterEntry>)

  /** A tagged shot event. The shooter is optional; `onIce` and
      `participating` are the player ids of the tag's links, one per link. */
  datatype Tag = Tag(
    id: int,
    game: GameInfo,
    shooter: Option<int>,
    result: ShotResult,
    area: Option<ShotArea>,
    shotType: Option<ShotType>,
    crossice: Option<bool>,
    netWidth: Option<string>,
    netHeight: Option<string>,
    strengths: string,
    iceX: Option<int>,
    iceY: Option<int>,
    netX: Option<int>,
    netY: Option<int>,
    onIce: seq<int>,
    participating: seq<int>)

  /** A spreadsheet cell: the code point of its (single-letter) column and
      its row number. */
  datatype Cell = Cell(col: int, row: int)

  /** The code point of a column letter. */
  function Col(letter: char): int {
    letter as int
  }

  function GameIdOf(t: Tag): int {
    t.game.id
  }

  /** The tags of one game, in their original order. */
  function TagsOfGame(tags: seq<Tag>, gameId: int): seq<Tag> {
    Seqs.Filter(tags, Seqs.KeyIs(GameIdOf, gameId))
  }

  /** The player id of each roster slot, in slot order. */
  function RosterIds(roster: seq<RosterEntry>): (ids: seq<int>)
    ensures |ids| == |roster|
    ensures forall i :: 0 <= i < |ids| ==> ids[i] == roster[i].player.id
  {
    Seqs.Map(roster, (e: RosterEntry) => e.player.id)
  }

  /** An id is rostered exactly when an earlier slot or the last one holds it. */
  lemma RosterIdsSnoc(roster: seq<RosterEntry>, id: int)
    requires |roster| > 0
    ensures id in RosterIds(roster) <==> id in RosterIds(roster[..|roster| - 1]) || id == roster[|roster| - 1].player.id
  {
    var init := roster[..|roster| - 1];
    if id in RosterIds(roster) {
      var i :| 0 <= i < |roster| && RosterIds(roster)[i] == id;
      if i < |init| {
        assert RosterIds(init)[i] == id;
      }
    }
    if id in RosterIds(init) {
      var i :| 0 <= i < |init| && RosterIds(init)[i] == id;
      assert RosterIds(roster)[i] == id;
    }
    assert RosterIds(roster)[|roster| - 1] == roster[|roster| - 1].player.id;
  }
}

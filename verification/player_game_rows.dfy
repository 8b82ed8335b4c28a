/** The per-game rows of a player's sheet. Every tag the player was on ice
    for, at even strength, on the power play or short-handed, adds to the
    row of its game: the shooter columns C and D, the column of its
    strength and result, and that column six to the right when the player
    took part. Empty-net tags are passed over and any other strength text
    is an error. The rows come out latest game first. */
module PlayerGameRows {
  import opened Wrappers
  import opened Taxonomy
  import opened Records
  import opened SheetColumns
  import opened GameGroups
  import Counting
  import Dicts
  import Seqs
  import Sorting

  /** The 26 columns a new row starts with at zero. */
  const PerGameColumns: seq<string> := ["C", "D", "G", "H", "J", "K", "M", "N", "P", "Q", "T", "U", "W", "X",
                                        "Z", "AA", "AC", "AD", "AG", "AH", "AJ", "AK", "AM", "AN", "AP", "AQ"]

  /** Code point of the goal-for column of a counted strength (G, T and,
      past Z, AG); the empty-net strengths have no columns. */
  function GoalColumnCode(s: Strength): (r: Option<int>)
    ensures r.Some? <==> s in {EvenStrength, PowerPlay, PenaltyKill}
    ensures r.Some? ==> r.value in {71, 84, 97}
  {
    match s
    case EvenStrength => Some(71)
    case PowerPlay => Some(84)
    case PenaltyKill => Some(97)
    case _ => None
  }

  /** Distance of a result's column from the goal-for column. Shot results
      are not singled out and stay on the goal-for column. */
  function ResultOffset(r: ShotResult): (d: int)
    ensures 0 <= d <= 4
  {
    match r
    case GoalAgainst => 1
    case ChanceFor => 3
    case ChanceAgainst => 4
    case _ => 0
  }

  const ParticipatingShift := 6

  /** The columns one counted tag adds 1 to in its game's row. */
  function TagColumns(p: int, t: Tag, base: int): seq<string>
    requires base in {71, 84, 97}
  {
    var chance := base + ResultOffset(t.result);
    ColumnList(t.shooter == Some(p), t.result == GoalFor, WrapColumn(chance),
      p in t.participating, WrapColumn(chance + ParticipatingShift))
  }

  /** D for a shot by the player and C as well for a goal for, then the
      on-ice column `w`, then the participation column `w2` if the player
      took part. */
  function ColumnList(shot: bool, goal: bool, w: string, part: bool, w2: string): seq<string> {
    (if shot then ["D"] + (if goal then ["C"] else []) else []) + [w] + (if part then [w2] else [])
  }

  /** A tag of a counted strength. */
  predicate Counted(t: Tag) {
    ParseStrength(t.strengths).Some? && GoalColumnCode(ParseStrength(t.strengths).value).Some?
  }

  /** What one tag adds to its game's row for player `p`: nothing for an
      empty-net tag, ValueError for strength text that names no strength. */
  function RowPlacement(p: int): Tag -> Result<seq<string>> {
    (t: Tag) =>
      match ParseStrength(t.strengths)
      case None => Err(ValueError)
      case Some(s) =>
        match GoalColumnCode(s)
        case None => Ok([])
        case Some(b) => Ok(TagColumns(p, t, b))
  }

  /** The code point of the column a counted tag hits as an on-ice tag;
      the participation column is six to the right. */
  function ChanceCode(t: Tag): (c: int)
    requires Counted(t)
    ensures 71 <= c <= 101
  {
    GoalColumnCode(ParseStrength(t.strengths).value).value + ResultOffset(t.result)
  }

  /** The rows keyed by game id, in the order the games were first met. */
  function GameRows(tags: seq<Tag>, p: int): (r: Result<Dicts.Dict<int, GameRow<string>>>)
    ensures r.Ok? <==> Counting.AllPlaced(tags, RowPlacement(p))
    ensures r.Err? ==> r.error == ValueError
  {
    GroupRowsErrorFrom(tags, RowPlacement(p), Counted, ValueError);
    GroupRows(tags, RowPlacement(p), Counted)
  }

  /** Later games first; games of the same date keep their order. */
  function LaterFirst(a: GameRow<string>, b: GameRow<string>): bool {
    a.date >= b.date
  }

  /** The player's per-game rows, latest game first. */
  function CollectPlayersPerGameStats(tags: seq<Tag>, p: int): (r: Result<seq<GameRow<string>>>)
    ensures r.Ok? <==> Counting.AllPlaced(tags, RowPlacement(p))
    ensures r.Err? ==> r.error == ValueError
    ensures r.Ok? ==> multiset(r.value) == multiset(Dicts.Values(GameRows(tags, p).value))
    ensures r.Ok? ==> forall row :: (Seqs.Filter(r.value, Sorting.Tied(LaterFirst, row))
      == Seqs.Filter(Dicts.Values(GameRows(tags, p).value), Sorting.Tied(LaterFirst, row)))
  {
    var rows :- GameRows(tags, p);
    Sorting.SortByStableAll(Dicts.Values(rows), LaterFirst);
    Ok(Sorting.SortBy(Dicts.Values(rows), LaterFirst))
  }

  lemma RowPlacementSilent(p: int)
    ensures SilentUnlessCounted(RowPlacement(p), Counted)
  {
    forall t | RowPlacement(p)(t).Ok? && !Counted(t) ensures RowPlacement(p)(t).value == [] {
    }
  }

  /** The rows are ordered latest game first, there is one for every game
      with a counted tag and for no other, and each holds exactly the
      counts of its game's tags. Before sorting, the rows sit under
      distinct game ids, each under its own, in the order the games were
      first met; games of the same date keep that order. */
  lemma PerGameRowsExact(tags: seq<Tag>, p: int)
    requires CollectPlayersPerGameStats(tags, p).Ok?
    ensures Sorting.SortedBy(CollectPlayersPerGameStats(tags, p).value, LaterFirst)
    ensures forall row :: row in CollectPlayersPerGameStats(tags, p).value ==> RowOf(tags, RowPlacement(p), Counted, row.gameId, row)
    ensures forall id :: (HasCounted(tags, Counted, id)
      <==> exists i :: 0 <= i < |CollectPlayersPerGameStats(tags, p).value| && CollectPlayersPerGameStats(tags, p).value[i].gameId == id)
    ensures Dicts.Valid(GameRows(tags, p).value)
    ensures forall i :: 0 <= i < |GameRows(tags, p).value| ==> GameRows(tags, p).value[i].1.gameId == GameRows(tags, p).value[i].0
    ensures Dicts.Keys(GameRows(tags, p).value) == FirstSeen(CountedGameIds(tags, Counted))
    ensures forall row :: (Seqs.Filter(CollectPlayersPerGameStats(tags, p).value, Sorting.Tied(LaterFirst, row))
      == Seqs.Filter(Dicts.Values(GameRows(tags, p).value), Sorting.Tied(LaterFirst, row)))
  {
    var rows := GameRows(tags, p).value;
    GroupRowsOrder(tags, RowPlacement(p), Counted);
    Sorting.SortBySorted(Dicts.Values(rows), LaterFirst);
    RowPlacementSilent(p);
    GroupRowsExact(tags, RowPlacement(p), Counted);
    EntriesExact(tags, RowPlacement(p), Counted, rows);
    PermutedRowsExact(tags, RowPlacement(p), Counted, rows, CollectPlayersPerGameStats(tags, p).value);
  }

  /** Every column code a counted tag can reach: the on-ice columns of the
      three strengths and, six to the right, the participation columns. */
  lemma CodesListed(q: int)
    requires q in {71, 72, 74, 75, 77, 78, 80, 81, 84, 85, 87, 88, 90, 91, 93, 94, 97, 98, 100, 101, 103, 104, 106, 107}
    ensures WrapColumn(q) in PerGameColumns
  {
  }

  /** Every column one tag adds to is among the 26 a row starts with. */
  lemma PlacedColumnsListed(p: int, t: Tag)
    ensures RowPlacement(p)(t).Ok? ==> forall c :: c in RowPlacement(p)(t).value ==> c in PerGameColumns
  {
    if RowPlacement(p)(t).Ok? && Counted(t) {
      var b := GoalColumnCode(ParseStrength(t.strengths).value).value;
      var q := b + ResultOffset(t.result);
      assert RowPlacement(p)(t).value == TagColumns(p, t, b);
      CodesListed(q);
      CodesListed(q + ParticipatingShift);
    }
  }

  /** A counted tag hits the on-ice column of code `q` when its strength
      and result lead there, or the participation column of code `q` when
      the player took part and the code six to the left is its on-ice
      column. */
  function HitsAt(p: int, q: int): Tag -> bool {
    (t: Tag) => Counted(t) && (ChanceCode(t) == q || (p in t.participating && ChanceCode(t) + ParticipatingShift == q))
  }

  /** Tags the player shot, and those of them that were goals for. */
  function ShotBy(p: int): Tag -> bool {
    (t: Tag) => Counted(t) && t.shooter == Some(p)
  }

  function GoalBy(p: int): Tag -> bool {
    (t: Tag) => Counted(t) && t.shooter == Some(p) && t.result == GoalFor
  }

  /** The strength/result columns never coincide with the shooter columns
      C and D. */
  lemma ChanceColumnsAreNotShooterColumns(q: int)
    requires 71 <= q <= 116
    ensures WrapColumn(q) != "C" && WrapColumn(q) != "D"
  {
    if q <= 90 {
      assert WrapColumn(q)[0] == q as char;
    }
  }

  /** The goal-for column code of a counted tag's strength. */
  function BaseOf(t: Tag): (b: int)
    requires Counted(t)
    ensures b in {71, 84, 97}
  {
    GoalColumnCode(ParseStrength(t.strengths).value).value
  }

  lemma HitsOfTag(p: int, t: Tag, x: string)
    ensures Counting.Hits(RowPlacement(p), t, x) == if Counted(t) then multiset(TagColumns(p, t, BaseOf(t)))[x] else 0
  {
  }

  /** A counted tag's columns, spelled out. */
  lemma TagColumnsOf(p: int, t: Tag)
    requires Counted(t)
    ensures TagColumns(p, t, BaseOf(t)) == ColumnList(t.shooter == Some(p), t.result == GoalFor,
      WrapColumn(ChanceCode(t)), p in t.participating, WrapColumn(ChanceCode(t) + ParticipatingShift))
  {
  }

  /** An on-ice column `x` is hit once when it is the tag's column or its
      participation column, and otherwise not at all. */
  lemma OnIceColumnHits(shot: bool, goal: bool, w: string, part: bool, w2: string, x: string)
    requires x != "C" && x != "D"
    requires !(w == x && w2 == x)
    ensures multiset(ColumnList(shot, goal, w, part, w2))[x] == if w == x || (part && w2 == x) then 1 else 0
  {
  }

  /** D is hit once by a shot of the player's, C once more by a goal for. */
  lemma ShooterColumnHits(shot: bool, goal: bool, w: string, part: bool, w2: string)
    requires w != "C" && w != "D" && w2 != "C" && w2 != "D"
    ensures multiset(ColumnList(shot, goal, w, part, w2))["D"] == if shot then 1 else 0
    ensures multiset(ColumnList(shot, goal, w, part, w2))["C"] == if shot && goal then 1 else 0
  {
    assert "C" != "D" by { assert "C"[0] != "D"[0]; }
  }

  /** The same on column codes: code `q` is hit once when it is the tag's
      code `c` or, for a participant, `c` plus the shift. */
  lemma CodeHitsAt(shot: bool, goal: bool, c: int, part: bool, q: int)
    requires 71 <= q <= 116 && 71 <= c && c + ParticipatingShift <= 116
    ensures multiset(ColumnList(shot, goal, WrapColumn(c), part, WrapColumn(c + ParticipatingShift)))[WrapColumn(q)]
      == if c == q || (part && c + ParticipatingShift == q) then 1 else 0
  {
    ChanceColumnsAreNotShooterColumns(q);
    WrapColumnInjective(c, q);
    WrapColumnInjective(c + ParticipatingShift, q);
    OnIceColumnHits(shot, goal, WrapColumn(c), part, WrapColumn(c + ParticipatingShift), WrapColumn(q));
  }

  lemma TagHitsAt(p: int, t: Tag, q: int)
    requires 71 <= q <= 116
    ensures Counting.Hits(RowPlacement(p), t, WrapColumn(q)) == if HitsAt(p, q)(t) then 1 else 0
  {
    HitsOfTag(p, t, WrapColumn(q));
    if Counted(t) {
      TagColumnsOf(p, t);
      CodeHitsAt(t.shooter == Some(p), t.result == GoalFor, ChanceCode(t), p in t.participating, q);
    }
  }

  /** The same on column codes for the shooter columns. */
  lemma CodeShooterHits(shot: bool, goal: bool, c: int, part: bool)
    requires 71 <= c && c + ParticipatingShift <= 116
    ensures multiset(ColumnList(shot, goal, WrapColumn(c), part, WrapColumn(c + ParticipatingShift)))["D"]
      == if shot then 1 else 0
    ensures multiset(ColumnList(shot, goal, WrapColumn(c), part, WrapColumn(c + ParticipatingShift)))["C"]
      == if shot && goal then 1 else 0
  {
    ChanceColumnsAreNotShooterColumns(c);
    ChanceColumnsAreNotShooterColumns(c + ParticipatingShift);
    ShooterColumnHits(shot, goal, WrapColumn(c), part, WrapColumn(c + ParticipatingShift));
  }

  lemma TagHitsShooter(p: int, t: Tag)
    ensures Counting.Hits(RowPlacement(p), t, "D") == if ShotBy(p)(t) then 1 else 0
    ensures Counting.Hits(RowPlacement(p), t, "C") == if GoalBy(p)(t) then 1 else 0
  {
    HitsOfTag(p, t, "D");
    HitsOfTag(p, t, "C");
    if Counted(t) {
      TagColumnsOf(p, t);
      CodeShooterHits(t.shooter == Some(p), t.result == GoalFor, ChanceCode(t), p in t.participating);
    }
  }

  /** A row's cells, column by column: only the 26 listed columns occur;
      D counts the game's tags the player shot and C those that were goals
      for, so C never exceeds D; and each strength/result column counts
      exactly the tags that lead to it. A goal for therefore lands on the
      goal-for column alone and not on the chance-for column. */
  lemma RowColumnCounts(tags: seq<Tag>, p: int, row: GameRow<string>, q: int)
    requires Counting.AllPlaced(tags, RowPlacement(p))
    requires RowOf(tags, RowPlacement(p), Counted, row.gameId, row)
    requires 71 <= q <= 116
    ensures forall c :: c in row.counts ==> c in PerGameColumns
    ensures row.counts["D"] == |Seqs.Filter(TagsOfGame(tags, row.gameId), ShotBy(p))|
    ensures row.counts["C"] == |Seqs.Filter(TagsOfGame(tags, row.gameId), GoalBy(p))|
    ensures row.counts["C"] <= row.counts["D"]
    ensures row.counts[WrapColumn(q)] == |Seqs.Filter(TagsOfGame(tags, row.gameId), HitsAt(p, q))|
  {
    var f := TagsOfGame(tags, row.gameId);
    var place := RowPlacement(p);
    Counting.FilterPlaced(tags, place, Seqs.KeyIs(GameIdOf, row.gameId));
    forall x, c | place(x).Ok? && c in place(x).value ensures c in PerGameColumns {
      PlacedColumnsListed(p, x);
    }
    Counting.TallyCellsWithin(f, place, c => c in PerGameColumns);
    forall x ensures Counting.Hits(place, x, "D") == (if ShotBy(p)(x) then 1 else 0)
      && Counting.Hits(place, x, "C") == (if GoalBy(p)(x) then 1 else 0) {
      TagHitsShooter(p, x);
    }
    Counting.TallyIndicator(f, place, "D", ShotBy(p));
    Counting.TallyIndicator(f, place, "C", GoalBy(p));
    Counting.TallyDominated(f, place, "C", "D");
    forall x ensures Counting.Hits(place, x, WrapColumn(q)) == if HitsAt(p, q)(x) then 1 else 0 {
      TagHitsAt(p, x, q);
    }
    Counting.TallyIndicator(f, place, WrapColumn(q), HitsAt(p, q));
  }

  /** A goal for lands on its strength's goal-for column, never on the
      chance-for column three to the right, in either block. */
  lemma GoalForSkipsChanceColumn(p: int, t: Tag)
    requires Counted(t) && t.result == GoalFor
    ensures ChanceCode(t) == GoalColumnCode(ParseStrength(t.strengths).value).value
    ensures !HitsAt(p, ChanceCode(t) + 3)(t)
    ensures !HitsAt(p, ChanceCode(t) + 3 + ParticipatingShift)(t)
  {
  }
}

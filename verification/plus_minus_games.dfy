/** The dictionary-based plus-minus report over a list of games: each
    game's table and the running totals, built game by game, then the
    games ordered newest first and the totals split by position. */
module PlusMinusGames {
  import opened Wrappers
  import opened Taxonomy
  import opened Records
  import opened PlusMinusKeys
  import opened PlusMinusEntries
  import Dicts
  import Seqs
  import Sorting

  /** Every player with an entry in `a` has one in `b`. */
  ghost predicate Covers(b: Roster, a: Roster) {
    forall id :: Dicts.HasKey(a, id) ==> Dicts.HasKey(b, id)
  }

  ghost predicate AllCounted(incs: seq<(int, StatCell)>) {
    forall i :: 0 <= i < |incs| ==> Counted(incs[i].1)
  }

  /** The increments applied in order, each to the game's table and then
      to the totals; KeyError once an increment names a player without an
      entry in the game's table. */
  function ApplyIncs(gr: Roster, tot: Roster, incs: seq<(int, StatCell)>): (r: Result<(Roster, Roster)>)
    requires WellFormed(gr) && WellFormed(tot) && Covers(tot, gr) && AllCounted(incs)
    ensures r.Ok? <==> forall i :: 0 <= i < |incs| ==> Dicts.HasKey(gr, incs[i].0)
    ensures r.Err? ==> r.error == KeyError
    ensures r.Ok? ==> WellFormed(r.value.0) && WellFormed(r.value.1)
    ensures r.Ok? ==> forall id :: Dicts.HasKey(r.value.0, id) <==> Dicts.HasKey(gr, id)
    ensures r.Ok? ==> forall id :: Dicts.HasKey(r.value.1, id) <==> Dicts.HasKey(tot, id)
    decreases |incs|
  {
    if |incs| == 0 then Ok((gr, tot))
    else
      var init := incs[..|incs| - 1];
      var last := incs[|incs| - 1];
      assert (forall i :: 0 <= i < |incs| ==> Dicts.HasKey(gr, incs[i].0))
        <==> (forall i :: 0 <= i < |init| ==> Dicts.HasKey(gr, init[i].0)) && Dicts.HasKey(gr, last.0) by {
        assert forall i :: 0 <= i < |init| ==> init[i] == incs[i];
      }
      assert AllCounted(init) by {
        assert forall i :: 0 <= i < |init| ==> init[i] == incs[i];
      }
      var pr :- ApplyIncs(gr, tot, init);
      if !Dicts.HasKey(pr.0, last.0) then Err(KeyError)
      else
        BumpBoth(pr.0, pr.1, last.0, last.1);
        Ok((BumpEntry(pr.0, last.0, last.1).value, BumpEntry(pr.1, last.0, last.1).value))
  }

  /** An increment the game's table accepts, the totals accept too. */
  lemma BumpBoth(g: Roster, t: Roster, id: int, c: StatCell)
    requires WellFormed(g) && WellFormed(t) && Covers(t, g) && Counted(c) && Dicts.HasKey(g, id)
    ensures BumpEntry(t, id, c).Ok?
  {
  }

  /** Player `id`'s entry in `d` is the one in `d0` with every counter
      grown by the increments that name it. */
  ghost predicate Grown(d0: Roster, d: Roster, id: int, incs: seq<(int, StatCell)>) {
    Dicts.Get(d, id).Some? == Dicts.Get(d0, id).Some?
    && (Dicts.Get(d0, id).Some? ==>
      var e0, e := Dicts.Get(d0, id).value, Dicts.Get(d, id).value;
      e.name == e0.name && e.position == e0.position && e.gp == e0.gp
      && forall c :: Count(e, c) == Count(e0, c) + Hits(incs, id, c))
  }

  lemma HitsSnoc(incs: seq<(int, StatCell)>, id: int, c: StatCell)
    requires |incs| > 0
    ensures Hits(incs, id, c) == Hits(incs[..|incs| - 1], id, c) + (if incs[|incs| - 1] == (id, c) then 1 else 0)
  {
    var last := incs[|incs| - 1];
    assert incs == incs[..|incs| - 1] + [last];
    HitsAppend(incs[..|incs| - 1], [last], id, c);
    assert Seqs.Filter([last], IsIncrement(id, c)) == if last == (id, c) then [last] else [] by {
      assert [last][..0] == [];
    }
  }

  lemma GrownStep(d0: Roster, d: Roster, id: int, incs: seq<(int, StatCell)>)
    requires |incs| > 0 && WellFormed(d) && Counted(incs[|incs| - 1].1) && Dicts.HasKey(d, incs[|incs| - 1].0)
    requires Grown(d0, d, id, incs[..|incs| - 1])
    ensures Grown(d0, BumpEntry(d, incs[|incs| - 1].0, incs[|incs| - 1].1).value, id, incs)
  {
    var last := incs[|incs| - 1];
    BumpEntryGet(d, last.0, last.1, id);
    forall c ensures Hits(incs, id, c) == Hits(incs[..|incs| - 1], id, c) + (if last == (id, c) then 1 else 0) {
      HitsSnoc(incs, id, c);
    }
  }

  /** Applying the increments grows player `id`'s counters, in the game's
      table and in the totals alike, by the increments that name the
      player, and changes nothing else. */
  lemma {:induction false} ApplyIncsGet(gr: Roster, tot: Roster, incs: seq<(int, StatCell)>, id: int)
    requires WellFormed(gr) && WellFormed(tot) && Covers(tot, gr) && AllCounted(incs)
    requires ApplyIncs(gr, tot, incs).Ok?
    ensures Grown(gr, ApplyIncs(gr, tot, incs).value.0, id, incs)
    ensures Grown(tot, ApplyIncs(gr, tot, incs).value.1, id, incs)
    decreases |incs|
  {
    if |incs| == 0 {
      assert forall c :: Hits(incs, id, c) == 0;
    } else {
      var init := incs[..|incs| - 1];
      assert forall i :: 0 <= i < |init| ==> init[i] == incs[i];
      var pr := ApplyIncs(gr, tot, init).value;
      ApplyIncsGet(gr, tot, init, id);
      GrownStep(gr, pr.0, id, incs);
      GrownStep(tot, pr.1, id, incs);
    }
  }

  /** A game's increments: those of its kept tags, in tag order. */
  function GameIncs(game: Game, tags: seq<Tag>): (incs: seq<(int, StatCell)>)
    ensures AllCounted(incs)
  {
    KeptIncrements(TagsOfGame(tags, game.info.id))
  }

  /** One game of the report: its details, its table of players and the
      table split by position. */
  datatype GameData = GameData(info: GameInfo, roster: Roster, byPosition: ByPosition)

  /** A game goes through exactly when every rostered player's name can
      be formed and every link of its kept tags names a rostered player. */
  ghost predicate GameOk(game: Game, tags: seq<Tag>) {
    (forall i :: 0 <= i < |game.roster| ==> Nameable(game.roster[i].player, RosterPlayers(game)))
    && forall i :: 0 <= i < |GameIncs(game, tags)| ==> GameIncs(game, tags)[i].0 in RosterIds(game.roster)
  }

  /** A player's games played in a dictionary; 0 without an entry. */
  function GpIn(d: Roster, id: int): nat {
    match Dicts.Get(d, id)
    case Some(e) => e.gp
    case None => 0
  }

  /** A player's counter in a dictionary; 0 without an entry. */
  function CountIn(d: Roster, id: int, c: StatCell): nat {
    match Dicts.Get(d, id)
    case Some(e) => Count(e, c)
    case None => 0
  }

  lemma CoversAfterAdd(gr: Roster, total: Roster)
    requires WellFormed(gr) && WellFormed(total)
    ensures Covers(AddNewPlayers(gr, total), gr)
  {
    forall id | Dicts.HasKey(gr, id) ensures Dicts.HasKey(AddNewPlayers(gr, total), id) {
      AddNewPlayersGet(gr, total, id);
    }
  }

  lemma RosteredIffKey(game: Game, gr: Roster, incs: seq<(int, StatCell)>)
    requires forall id :: Dicts.HasKey(gr, id) <==> id in RosterIds(game.roster)
    ensures (forall i :: 0 <= i < |incs| ==> Dicts.HasKey(gr, incs[i].0))
      <==> (forall i :: 0 <= i < |incs| ==> incs[i].0 in RosterIds(game.roster))
  {
    forall i | 0 <= i < |incs| ensures Dicts.HasKey(gr, incs[i].0) <==> incs[i].0 in RosterIds(game.roster) {
      var id := incs[i].0;
      assert Dicts.HasKey(gr, id) <==> id in RosterIds(game.roster);
    }
  }

  /** One game processed: its table built, its players added to the
      totals, its kept tags counted in both; IndexError for a name that
      cannot be formed, KeyError for a link to a player not on the
      roster. */
  function ProcessGame(total: Roster, game: Game, tags: seq<Tag>): (r: Result<(GameData, Roster)>)
    requires WellFormed(total)
    ensures r.Ok? <==> GameOk(game, tags)
    ensures r.Err? ==> r.error == (if BuildRoster(game).Ok? then KeyError else IndexError)
  {
    var b := BuildRoster(game);
    if b.Err? then Err(b.error)
    else
      var gr := b.value;
      var tot := AddNewPlayers(gr, total);
      CoversAfterAdd(gr, total);
      var incs := GameIncs(game, tags);
      RosteredIffKey(game, gr, incs);
      var pr := ApplyIncs(gr, tot, incs);
      if pr.Err? then Err(pr.error)
      else Ok((GameData(game.info, pr.value.0, ConvertRosterToLists(pr.value.0)), pr.value.1))
  }

  lemma {:induction false} HitsAbsent(incs: seq<(int, StatCell)>, id: int, c: StatCell)
    requires forall i :: 0 <= i < |incs| ==> incs[i].0 != id
    ensures Hits(incs, id, c) == 0
    decreases |incs|
  {
    if |incs| > 0 {
      HitsSnoc(incs, id, c);
      HitsAbsent(incs[..|incs| - 1], id, c);
    }
  }

  /** The parts of a processed game, named for the lemmas below. */
  ghost predicate Processed(total: Roster, game: Game, tags: seq<Tag>, gr: Roster, tot: Roster, r: (GameData, Roster)) {
    WellFormed(total)
    && BuildRoster(game) == Ok(gr) && WellFormed(gr) && AllFresh(gr)
    && (forall id :: Dicts.HasKey(gr, id) <==> id in RosterIds(game.roster))
    && tot == AddNewPlayers(gr, total) && WellFormed(tot) && Covers(tot, gr)
    && ApplyIncs(gr, tot, GameIncs(game, tags)).Ok?
    && r.0.info == game.info
    && r.0.roster == ApplyIncs(gr, tot, GameIncs(game, tags)).value.0
    && r.1 == ApplyIncs(gr, tot, GameIncs(game, tags)).value.1
  }

  lemma ProcessedParts(total: Roster, game: Game, tags: seq<Tag>)
    requires WellFormed(total) && ProcessGame(total, game, tags).Ok?
    ensures BuildRoster(game).Ok?
    ensures Processed(total, game, tags, BuildRoster(game).value, AddNewPlayers(BuildRoster(game).value, total), ProcessGame(total, game, tags).value)
  {
    var gr := BuildRoster(game).value;
    CoversAfterAdd(gr, total);
  }

  /** A processed game's table and the new totals are well formed, and the
      game keeps its details. */
  lemma ProcessGameShape(total: Roster, game: Game, tags: seq<Tag>)
    requires WellFormed(total) && ProcessGame(total, game, tags).Ok?
    ensures WellFormed(ProcessGame(total, game, tags).value.0.roster) && WellFormed(ProcessGame(total, game, tags).value.1)
    ensures ProcessGame(total, game, tags).value.0.info == game.info
    ensures ProcessGame(total, game, tags).value.0.byPosition == ConvertRosterToLists(ProcessGame(total, game, tags).value.0.roster)
  {
    ProcessedParts(total, game, tags);
  }

  /** A processed game's table has an entry for exactly the rostered
      players, each with GP 0 and every counter equal to the number of
      the game's increments that name the player there. */
  lemma ProcessGameTable(total: Roster, game: Game, tags: seq<Tag>, id: int, c: StatCell)
    requires WellFormed(total) && ProcessGame(total, game, tags).Ok?
    ensures Dicts.HasKey(ProcessGame(total, game, tags).value.0.roster, id) <==> id in RosterIds(game.roster)
    ensures GpIn(ProcessGame(total, game, tags).value.0.roster, id) == 0
    ensures CountIn(ProcessGame(total, game, tags).value.0.roster, id, c) == Hits(GameIncs(game, tags), id, c)
  {
    ProcessedParts(total, game, tags);
    var gr := BuildRoster(game).value;
    var tot := AddNewPlayers(gr, total);
    var incs := GameIncs(game, tags);
    ApplyIncsGet(gr, tot, incs, id);
    FreshGrown(gr, ApplyIncs(gr, tot, incs).value.0, id, incs, c);
  }

  lemma FreshGrown(gr: Roster, d: Roster, id: int, incs: seq<(int, StatCell)>, c: StatCell)
    requires AllFresh(gr) && Grown(gr, d, id, incs)
    requires forall i :: 0 <= i < |incs| ==> Dicts.HasKey(gr, incs[i].0)
    ensures Dicts.HasKey(d, id) <==> Dicts.HasKey(gr, id)
    ensures GpIn(d, id) == 0
    ensures CountIn(d, id, c) == Hits(incs, id, c)
  {
    if !Dicts.HasKey(gr, id) {
      HitsAbsent(incs, id, c);
    }
  }

  lemma AfterGameFields(total: Roster, id: int, e: PlayerData)
    ensures AfterGame(total, id, e).gp == GpIn(total, id) + 1
    ensures forall c :: Count(AfterGame(total, id, e), c) == if Dicts.HasKey(total, id) then CountIn(total, id, c) else Count(e, c)
  {
  }

  lemma TotalsStep(total: Roster, gr: Roster, tot: Roster, d: Roster, id: int, incs: seq<(int, StatCell)>, c: StatCell)
    requires AllFresh(gr) && Dicts.Get(tot, id) == AddedEntry(gr, total, id) && Grown(tot, d, id, incs)
    requires forall i :: 0 <= i < |incs| ==> Dicts.HasKey(gr, incs[i].0)
    ensures Dicts.HasKey(d, id) <==> Dicts.HasKey(total, id) || Dicts.HasKey(gr, id)
    ensures GpIn(d, id) == GpIn(total, id) + (if Dicts.HasKey(gr, id) then 1 else 0)
    ensures CountIn(d, id, c) == CountIn(total, id, c) + Hits(incs, id, c)
  {
    match Dicts.Get(gr, id)
    case Some(e) =>
      AfterGameFields(total, id, e);
      assert Fresh(e);
    case None =>
      HitsAbsent(incs, id, c);
  }

  /** Processing a game adds one game played for each rostered player
      (a new entry with GP 1 for a player first seen) and grows every
      player's totals by the game's increments that name the player;
      nobody else's totals change. */
  lemma ProcessGameTotals(total: Roster, game: Game, tags: seq<Tag>, id: int, c: StatCell)
    requires WellFormed(total) && ProcessGame(total, game, tags).Ok?
    ensures Dicts.HasKey(ProcessGame(total, game, tags).value.1, id) <==> Dicts.HasKey(total, id) || id in RosterIds(game.roster)
    ensures GpIn(ProcessGame(total, game, tags).value.1, id) == GpIn(total, id) + (if id in RosterIds(game.roster) then 1 else 0)
    ensures CountIn(ProcessGame(total, game, tags).value.1, id, c) == CountIn(total, id, c) + Hits(GameIncs(game, tags), id, c)
  {
    ProcessedParts(total, game, tags);
    var gr := BuildRoster(game).value;
    var tot := AddNewPlayers(gr, total);
    var incs := GameIncs(game, tags);
    AddNewPlayersGet(gr, total, id);
    ApplyIncsGet(gr, tot, incs, id);
    TotalsStep(total, gr, tot, ApplyIncs(gr, tot, incs).value.1, id, incs, c);
  }

  /** Game `i` is the first that does not go through. */
  ghost predicate FirstBad(games: seq<Game>, tags: seq<Tag>, i: int) {
    0 <= i < |games| && !GameOk(games[i], tags) && forall j :: 0 <= j < i ==> GameOk(games[j], tags)
  }

  /** The error of a game that does not go through. */
  function GameError(game: Game): Error {
    if BuildRoster(game).Ok? then KeyError else IndexError
  }

  /** One more game processed against the report so far. */
  function AddGame(sofar: (seq<GameData>, Roster), game: Game, tags: seq<Tag>): (r: Result<(seq<GameData>, Roster)>)
    requires WellFormed(sofar.1)
    ensures r.Ok? <==> GameOk(game, tags)
    ensures r.Err? ==> r.error == GameError(game)
    ensures r.Ok? ==> WellFormed(r.value.1) && |r.value.0| == |sofar.0| + 1
  {
    var g :- ProcessGame(sofar.1, game, tags);
    ProcessGameShape(sofar.1, game, tags);
    Ok((sofar.0 + [g.0], g.1))
  }

  /** The games in order: each processed against the totals so far; the
      first game that does not go through stops the report. */
  function GamesData(games: seq<Game>, tags: seq<Tag>): (r: Result<(seq<GameData>, Roster)>)
    ensures r.Ok? ==> WellFormed(r.value.1) && |r.value.0| == |games|
    decreases |games|
  {
    if |games| == 0 then Ok(([], []))
    else
      var pr :- GamesData(games[..|games| - 1], tags);
      AddGame(pr, games[|games| - 1], tags)
  }

  /** The report goes through exactly when every game does. */
  lemma {:induction false} GamesDataOk(games: seq<Game>, tags: seq<Tag>)
    ensures GamesData(games, tags).Ok? <==> forall i :: 0 <= i < |games| ==> GameOk(games[i], tags)
    decreases |games|
  {
    if |games| > 0 {
      var init := games[..|games| - 1];
      GamesDataOk(init, tags);
      AllGamesOkSnoc(games, init, tags);
    }
  }

  lemma AllGamesOkSnoc(games: seq<Game>, init: seq<Game>, tags: seq<Tag>)
    requires |games| > 0 && init == games[..|games| - 1]
    ensures (forall i :: 0 <= i < |games| ==> GameOk(games[i], tags)) <==>
      (forall i :: 0 <= i < |init| ==> GameOk(init[i], tags)) && GameOk(games[|games| - 1], tags)
  {
    assert forall i :: 0 <= i < |init| ==> init[i] == games[i];
  }

  /** Otherwise the first game that does not go through decides the error. */
  lemma {:induction false} GamesDataError(games: seq<Game>, tags: seq<Tag>)
    requires GamesData(games, tags).Err?
    ensures exists i :: FirstBad(games, tags, i) && GamesData(games, tags).error == GameError(games[i])
    decreases |games|
  {
    var init := games[..|games| - 1];
    var pr := GamesData(init, tags);
    if pr.Err? {
      GamesDataError(init, tags);
      var i :| FirstBad(init, tags, i) && pr.error == GameError(init[i]);
      FirstBadExtends(games, init, tags, i);
    } else {
      GamesDataOk(init, tags);
      FirstBadLast(games, init, tags);
    }
  }

  lemma FirstBadExtends(games: seq<Game>, init: seq<Game>, tags: seq<Tag>, i: int)
    requires |games| > 0 && init == games[..|games| - 1]
    requires FirstBad(init, tags, i)
    ensures FirstBad(games, tags, i) && games[i] == init[i]
  {
    assert forall j :: 0 <= j < |init| ==> init[j] == games[j];
  }

  lemma FirstBadLast(games: seq<Game>, init: seq<Game>, tags: seq<Tag>)
    requires |games| > 0 && init == games[..|games| - 1]
    requires forall i :: 0 <= i < |init| ==> GameOk(init[i], tags)
    requires !GameOk(games[|games| - 1], tags)
    ensures FirstBad(games, tags, |games| - 1)
  {
    assert forall j :: 0 <= j < |init| ==> init[j] == games[j];
  }


  /** The report over some games is the report over all but the last
      with the last game processed against its totals. */
  lemma GamesDataSnoc(games: seq<Game>, tags: seq<Tag>)
    requires |games| > 0 && GamesData(games, tags).Ok?
    ensures GamesData(games[..|games| - 1], tags).Ok?
    ensures WellFormed(GamesData(games[..|games| - 1], tags).value.1)
    ensures ProcessGame(GamesData(games[..|games| - 1], tags).value.1, games[|games| - 1], tags).Ok?
    ensures GamesData(games, tags).value.0
      == GamesData(games[..|games| - 1], tags).value.0
         + [ProcessGame(GamesData(games[..|games| - 1], tags).value.1, games[|games| - 1], tags).value.0]
    ensures GamesData(games, tags).value.1
      == ProcessGame(GamesData(games[..|games| - 1], tags).value.1, games[|games| - 1], tags).value.1
  {
  }

  /** Entry `i` of the report is game `i`'s own table: its details, an
      entry for exactly its rostered players with GP 0, each counter the
      number of that game's increments for the player, and its split by
      position. */
  lemma {:induction false} GamesDataTables(games: seq<Game>, tags: seq<Tag>, i: int, id: int, c: StatCell)
    requires GamesData(games, tags).Ok? && 0 <= i < |games|
    ensures GamesData(games, tags).value.0[i].info == games[i].info
    ensures GamesData(games, tags).value.0[i].byPosition == ConvertRosterToLists(GamesData(games, tags).value.0[i].roster)
    ensures Dicts.HasKey(GamesData(games, tags).value.0[i].roster, id) <==> id in RosterIds(games[i].roster)
    ensures GpIn(GamesData(games, tags).value.0[i].roster, id) == 0
    ensures CountIn(GamesData(games, tags).value.0[i].roster, id, c) == Hits(GameIncs(games[i], tags), id, c)
    decreases |games|
  {
    var init := games[..|games| - 1];
    GamesDataSnoc(games, tags);
    var pr := GamesData(init, tags).value;
    if i == |games| - 1 {
      ProcessGameShape(pr.1, games[i], tags);
      ProcessGameTable(pr.1, games[i], tags, id, c);
    } else {
      GamesDataTables(init, tags, i, id, c);
      assert init[i] == games[i];
      assert GamesData(games, tags).value.0[i] == pr.0[i];
    }
  }

  /** Whether a game's roster lists the player. */
  function Rosters(id: int): Game -> bool {
    (g: Game) => id in RosterIds(g.roster)
  }

  /** A game's increments for one player and counter. */
  function GameHits(tags: seq<Tag>, id: int, c: StatCell): Game -> nat {
    (g: Game) => Hits(GameIncs(g, tags), id, c)
  }

  /** The totals give each player one game played per game whose roster
      lists them, an entry exactly when there is such a game, and each
      counter the sum over the games of that game's increments. */
  lemma {:induction false} GamesDataTotals(games: seq<Game>, tags: seq<Tag>, id: int, c: StatCell)
    requires GamesData(games, tags).Ok?
    ensures GpIn(GamesData(games, tags).value.1, id) == |Seqs.Filter(games, Rosters(id))|
    ensures Dicts.HasKey(GamesData(games, tags).value.1, id) <==> |Seqs.Filter(games, Rosters(id))| > 0
    ensures CountIn(GamesData(games, tags).value.1, id, c) == Seqs.Sum(games, GameHits(tags, id, c))
    decreases |games|
  {
    if |games| > 0 {
      var init := games[..|games| - 1];
      GamesDataSnoc(games, tags);
      var pr := GamesData(init, tags).value;
      GamesDataTotals(init, tags, id, c);
      ProcessGameTotals(pr.1, games[|games| - 1], tags, id, c);
    }
  }

  /** Each player's totals counter is the sum of that counter over the
      game tables, and their games played the number of game tables
      with an entry for them. */
  lemma TotalsAreSumOfTables(games: seq<Game>, tags: seq<Tag>, id: int, c: StatCell)
    requires GamesData(games, tags).Ok?
    ensures CountIn(GamesData(games, tags).value.1, id, c) == Seqs.Sum(GamesData(games, tags).value.0, TableCount(id, c))
    ensures GpIn(GamesData(games, tags).value.1, id) == |Seqs.Filter(GamesData(games, tags).value.0, HasEntry(id))|
  {
    var gs := GamesData(games, tags).value.0;
    GamesDataTotals(games, tags, id, c);
    forall i | 0 <= i < |games|
      ensures GameHits(tags, id, c)(games[i]) == TableCount(id, c)(gs[i])
      ensures Rosters(id)(games[i]) == HasEntry(id)(gs[i])
    {
      GamesDataTables(games, tags, i, id, c);
    }
    Seqs.SumPointwise(games, GameHits(tags, id, c), gs, TableCount(id, c));
    Seqs.FilterLengthPointwise(games, Rosters(id), gs, HasEntry(id));
  }

  function TableCount(id: int, c: StatCell): GameData -> nat {
    (g: GameData) => CountIn(g.roster, id, c)
  }

  function HasEntry(id: int): GameData -> bool {
    (g: GameData) => Dicts.HasKey(g.roster, id)
  }

  /** Later games first. Python's sort with `reverse=True` is stable, so
      games of the same date keep their order. */
  function LaterFirst(a: GameData, b: GameData): bool {
    a.info.date >= b.info.date
  }

  /** What the report returns: the game tables and the totals split by
      position. */
  datatype Report = Report(games: seq<GameData>, totals: ByPosition)

  /** The plus-minus report over the selected games: every game's table,
      latest game first, and the totals split by position; the first game
      that does not go through stops it with that game's error. */
  function PlusMinusGamesData(games: seq<Game>, tags: seq<Tag>): (r: Result<Report>)
    ensures r.Ok? <==> forall i :: 0 <= i < |games| ==> GameOk(games[i], tags)
    ensures r.Err? ==> exists i :: FirstBad(games, tags, i) && r.error == GameError(games[i])
    ensures r.Ok? ==> |r.value.games| == |games| && Sorting.SortedBy(r.value.games, LaterFirst)
    ensures r.Ok? ==> GamesData(games, tags).Ok? && multiset(r.value.games) == multiset(GamesData(games, tags).value.0)
    ensures r.Ok? ==> forall g :: (Seqs.Filter(r.value.games, Sorting.Tied(LaterFirst, g))
      == Seqs.Filter(GamesData(games, tags).value.0, Sorting.Tied(LaterFirst, g)))
  {
    GamesDataOk(games, tags);
    var pr := GamesData(games, tags);
    if pr.Err? then
      GamesDataError(games, tags);
      Err(pr.error)
    else
      Sorting.SortBySorted(pr.value.0, LaterFirst);
      Sorting.SortByStableAll(pr.value.0, LaterFirst);
      Ok(Report(Sorting.SortBy(pr.value.0, LaterFirst), ConvertRosterToLists(pr.value.1)))
  }

  /** A player listed in the report's totals is not a goalie, and has one
      game played per game whose roster lists them and each counter the
      sum over the games of that game's increments for them. */
  lemma ReportTotals(games: seq<Game>, tags: seq<Tag>, e: PlayerData, c: StatCell)
    requires PlusMinusGamesData(games, tags).Ok?
    requires e in PlusMinusGamesData(games, tags).value.totals.forwards + PlusMinusGamesData(games, tags).value.totals.defenders
    ensures e.position != Goalie
    ensures exists id :: e.gp == |Seqs.Filter(games, Rosters(id))| > 0 && Count(e, c) == Seqs.Sum(games, GameHits(tags, id, c))
  {
    var total := GamesData(games, tags).value.1;
    ListedIffNotGoalie(total, e);
    var k :| 0 <= k < |total| && Dicts.Values(total)[k] == e;
    var id := total[k].0;
    Dicts.GetUnique(total, id);
    GamesDataTotals(games, tags, id, c);
  }

  /** Every player on a selected game's roster has a totals entry, which
      is listed unless it is a goalie's. */
  lemma ReportListsRostered(games: seq<Game>, tags: seq<Tag>, id: int)
    requires PlusMinusGamesData(games, tags).Ok?
    requires exists i :: 0 <= i < |games| && id in RosterIds(games[i].roster)
    ensures Dicts.Get(GamesData(games, tags).value.1, id).Some?
    ensures Dicts.Get(GamesData(games, tags).value.1, id).value.position != Goalie ==>
      Dicts.Get(GamesData(games, tags).value.1, id).value in
        PlusMinusGamesData(games, tags).value.totals.forwards + PlusMinusGamesData(games, tags).value.totals.defenders
  {
    var total := GamesData(games, tags).value.1;
    var i :| 0 <= i < |games| && id in RosterIds(games[i].roster);
    Seqs.FilterMembers(games, Rosters(id), games[i]);
    GamesDataTotals(games, tags, id, StatCell(ES, OnIce, GoalFor));
    var e := Dicts.Get(total, id).value;
    ListedIffNotGoalie(total, e);
    var k :| 0 <= k < |total| && total[k] == (id, e);
    assert Dicts.Values(total)[k] == e;
  }
}

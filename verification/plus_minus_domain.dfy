/** The plus-minus player object: a player with tags filed under game id,
    from which per-game and total counters and games played are read. */
module PlusMinusDomain {
  import opened Wrappers
  import opened Taxonomy
  import opened Records
  import opened PlusMinusKeys
  import Dicts
  import Seqs

  /** One counted event for a player: the game, how the player took part,
      the strength and the result. */
  datatype PmTag = PmTag(gameId: int, role: Role, strength: PmStrength, result: ShotResult)

  function CellOf(t: PmTag): StatCell {
    StatCell(t.strength, t.role, t.result)
  }

  function HasCell(c: StatCell): PmTag -> bool {
    (t: PmTag) => CellOf(t) == c
  }

  /** The number of tags that fall in counter `c`. */
  function Occurrences(ts: seq<PmTag>, c: StatCell): nat {
    |Seqs.Filter(ts, HasCell(c))|
  }

  function CountOf(c: StatCell): seq<PmTag> -> nat {
    (ts: seq<PmTag>) => Occurrences(ts, c)
  }

  /** A player and their tags by game id; games are kept in the order
      they were first seen. */
  datatype PmPlayer = PmPlayer(player: Player, tags: Dicts.Dict<int, seq<PmTag>>)

  /** The tag dictionary has distinct keys, as every Python dict does. */
  predicate ValidPlayer(p: PmPlayer) {
    Dicts.Valid(p.tags)
  }

  /** The tags stored for a game; none when the game has no entry. */
  function TagsOf(p: PmPlayer, g: int): seq<PmTag> {
    Dicts.Get(p.tags, g).GetOr([])
  }

  /** The number of games with an entry. */
  function GamesPlayed(p: PmPlayer): nat {
    |p.tags|
  }

  /** Games played counts each game with an entry once. */
  lemma GamesPlayedCountsGames(p: PmPlayer)
    requires ValidPlayer(p)
    ensures GamesPlayed(p) == |Dicts.Keys(p.tags)|
    ensures Seqs.Distinct(Dicts.Keys(p.tags))
    ensures forall g :: g in Dicts.Keys(p.tags) <==> Dicts.HasKey(p.tags, g)
  {
    var ks := Dicts.Keys(p.tags);
    forall g ensures g in ks <==> Dicts.HasKey(p.tags, g) {
      if Dicts.HasKey(p.tags, g) {
        var i :| 0 <= i < |p.tags| && p.tags[i].0 == g;
        assert ks[i] == g;
      }
    }
  }

  /** A fresh player has no games. */
  function NewPmPlayer(p: Player): (r: PmPlayer)
    ensures ValidPlayer(r) && r.player == p
    ensures GamesPlayed(r) == 0
    ensures forall g :: TagsOf(r, g) == []
  {
    PmPlayer(p, [])
  }

  /** Files a tag under a game: that game's list grows by the tag at its
      end, every other game's entry stays as it was, and games played
      grows by one exactly when the game had no entry. */
  function AddTag(p: PmPlayer, g: int, t: PmTag): (r: PmPlayer)
    requires ValidPlayer(p)
    ensures ValidPlayer(r) && r.player == p.player
    ensures Dicts.HasKey(r.tags, g)
    ensures TagsOf(r, g) == TagsOf(p, g) + [t]
    ensures forall g' :: g' != g ==> Dicts.Get(r.tags, g') == Dicts.Get(p.tags, g')
    ensures GamesPlayed(r) == GamesPlayed(p) + (if Dicts.HasKey(p.tags, g) then 0 else 1)
  {
    var v := TagsOf(p, g) + [t];
    Dicts.PutValid(p.tags, g, v);
    Dicts.PutGet(p.tags, g, v, g);
    assert forall g' :: g' != g ==> Dicts.Get(Dicts.Put(p.tags, g, v), g') == Dicts.Get(p.tags, g') by {
      forall g' | g' != g ensures Dicts.Get(Dicts.Put(p.tags, g, v), g') == Dicts.Get(p.tags, g') {
        Dicts.PutGet(p.tags, g, v, g');
      }
    }
    p.(tags := Dicts.Put(p.tags, g, v))
  }

  /** Reading a game's tags through the default dictionary: an unseen game
      gets an empty entry, so games played grows by one, while the tags
      every game yields are unchanged. */
  function GetTagsForGame(p: PmPlayer, g: int): (r: (PmPlayer, seq<PmTag>))
    requires ValidPlayer(p)
    ensures r.1 == TagsOf(p, g)
    ensures ValidPlayer(r.0) && r.0.player == p.player
    ensures Dicts.HasKey(r.0.tags, g)
    ensures forall g' :: TagsOf(r.0, g') == TagsOf(p, g')
    ensures GamesPlayed(r.0) == GamesPlayed(p) + (if Dicts.HasKey(p.tags, g) then 0 else 1)
  {
    if Dicts.HasKey(p.tags, g) then (p, TagsOf(p, g))
    else
      Dicts.PutValid(p.tags, g, []);
      assert forall g' :: TagsOf(p.(tags := Dicts.Put(p.tags, g, [])), g') == TagsOf(p, g') by {
        forall g' ensures TagsOf(p.(tags := Dicts.Put(p.tags, g, [])), g') == TagsOf(p, g') {
          Dicts.PutGet(p.tags, g, [], g');
        }
      }
      (p.(tags := Dicts.Put(p.tags, g, [])), [])
  }

  /** `stats[strength][role][result] += 1`; a counter the dictionary
      lacks raises KeyError. */
  function Bump(m: map<StatCell, nat>, c: StatCell): (r: Result<map<StatCell, nat>>)
    ensures r.Ok? <==> c in m
    ensures r.Err? ==> r.error == KeyError
    ensures r.Ok? ==> r.value.Keys == m.Keys
  {
    if c in m then Ok(m[c := m[c] + 1]) else Err(KeyError)
  }

  /** One increment per tag, in order. Succeeds exactly when every tag's
      counter is in the dictionary, and then adds to each counter the
      number of tags that fall in it. */
  function CountTags(m: map<StatCell, nat>, ts: seq<PmTag>): (r: Result<map<StatCell, nat>>)
    ensures r.Ok? <==> forall i :: 0 <= i < |ts| ==> CellOf(ts[i]) in m
    ensures r.Err? ==> r.error == KeyError
    ensures r.Ok? ==> r.value.Keys == m.Keys
    ensures r.Ok? ==> forall c :: c in m ==> r.value[c] == m[c] + Occurrences(ts, c)
    decreases |ts|
  {
    if |ts| == 0 then Ok(m)
    else
      var init := ts[..|ts| - 1];
      AllCellsInSnoc(m, ts, init);
      var pr := CountTags(m, init);
      if pr.Err? then Err(pr.error)
      else
        CountStep(m, ts, pr.value);
        Bump(pr.value, CellOf(ts[|ts| - 1]))
  }

  lemma AllCellsInSnoc(m: map<StatCell, nat>, ts: seq<PmTag>, init: seq<PmTag>)
    requires |ts| > 0 && init == ts[..|ts| - 1]
    ensures (forall i :: 0 <= i < |ts| ==> CellOf(ts[i]) in m)
      <==> (forall i :: 0 <= i < |init| ==> CellOf(init[i]) in m) && CellOf(ts[|ts| - 1]) in m
  {
    assert forall i :: 0 <= i < |init| ==> init[i] == ts[i];
  }

  lemma CountStep(m: map<StatCell, nat>, ts: seq<PmTag>, m': map<StatCell, nat>)
    requires |ts| > 0
    requires m'.Keys == m.Keys
    requires forall c :: c in m ==> m'[c] == m[c] + Occurrences(ts[..|ts| - 1], c)
    ensures Bump(m', CellOf(ts[|ts| - 1])).Ok? ==>
      forall c :: c in m ==> Bump(m', CellOf(ts[|ts| - 1])).value[c] == m[c] + Occurrences(ts, c)
  {
  }

  /** The counters for one game: zero for a game without an entry (which
      gets none), otherwise one per tag in the tag's counter; a tag with a
      shot result raises KeyError. */
  function GameStats(p: PmPlayer, g: int): (r: Result<map<StatCell, nat>>)
    ensures r.Ok? <==> forall i :: 0 <= i < |TagsOf(p, g)| ==> CountedResult(TagsOf(p, g)[i].result)
    ensures r.Err? ==> r.error == KeyError
    ensures r.Ok? ==> forall c :: c in r.value <==> Counted(c)
    ensures r.Ok? ==> forall c :: Counted(c) ==> r.value[c] == Occurrences(TagsOf(p, g), c)
  {
    if !Dicts.HasKey(p.tags, g) then Ok(EmptyStatsDict(false))
    else CountTags(EmptyStatsDict(false), TagsOf(p, g))
  }

  /** The counting loop over every stored game in turn. */
  function CountGames(m: map<StatCell, nat>, entries: Dicts.Dict<int, seq<PmTag>>): (r: Result<map<StatCell, nat>>)
    ensures r.Ok? <==> forall i, j :: 0 <= i < |entries| && 0 <= j < |entries[i].1| ==> CellOf(entries[i].1[j]) in m
    ensures r.Err? ==> r.error == KeyError
    ensures r.Ok? ==> r.value.Keys == m.Keys
    ensures r.Ok? ==> forall c :: c in m ==> r.value[c] == m[c] + Seqs.Sum(Dicts.Values(entries), CountOf(c))
    decreases |entries|
  {
    if |entries| == 0 then Ok(m)
    else
      var init := entries[..|entries| - 1];
      var last := entries[|entries| - 1];
      assert forall i :: 0 <= i < |init| ==> init[i] == entries[i];
      assert Dicts.Values(entries) == Dicts.Values(init) + [last.1];
      assert Dicts.Values(entries)[..|entries| - 1] == Dicts.Values(init);
      var m' :- CountGames(m, init);
      CountTags(m', last.1)
  }

  /** The counters over all stored games. */
  function TotalStats(p: PmPlayer): (r: Result<map<StatCell, nat>>)
    ensures r.Err? ==> r.error == KeyError
    ensures r.Ok? ==> forall c :: c in r.value <==> Counted(c)
  {
    CountGames(EmptyStatsDict(false), p.tags)
  }

  function GameCount(p: PmPlayer, c: StatCell): int -> nat {
    (g: int) => Occurrences(TagsOf(p, g), c)
  }

  lemma EntryTags(p: PmPlayer, i: int)
    requires ValidPlayer(p) && 0 <= i < |p.tags|
    ensures TagsOf(p, p.tags[i].0) == p.tags[i].1
  {
    Dicts.GetUnique(p.tags, p.tags[i].0);
  }

  /** The totals succeed exactly when every game's counters do, and each
      total counter is the sum over the stored games of that game's count. */
  lemma TotalIsSumOfGames(p: PmPlayer, c: StatCell)
    requires ValidPlayer(p) && Counted(c)
    ensures TotalStats(p).Ok? <==> forall g :: GameStats(p, g).Ok?
    ensures TotalStats(p).Ok? ==> TotalStats(p).value[c] == Seqs.Sum(Dicts.Keys(p.tags), GameCount(p, c))
  {
    if TotalStats(p).Ok? {
      TotalGamesOk(p);
      TotalSum(p, c);
    }
    if forall g :: GameStats(p, g).Ok? {
      GamesOkTotal(p);
    }
  }

  lemma TotalGamesOk(p: PmPlayer)
    requires ValidPlayer(p) && TotalStats(p).Ok?
    ensures forall g :: GameStats(p, g).Ok?
  {
    forall g ensures GameStats(p, g).Ok? {
      if Dicts.HasKey(p.tags, g) {
        var i :| 0 <= i < |p.tags| && p.tags[i].0 == g;
        EntryTags(p, i);
      }
    }
  }

  lemma TotalSum(p: PmPlayer, c: StatCell)
    requires ValidPlayer(p) && Counted(c) && TotalStats(p).Ok?
    ensures TotalStats(p).value[c] == Seqs.Sum(Dicts.Keys(p.tags), GameCount(p, c))
  {
    forall i | 0 <= i < |p.tags| ensures CountOf(c)(Dicts.Values(p.tags)[i]) == GameCount(p, c)(Dicts.Keys(p.tags)[i]) {
      EntryTags(p, i);
    }
    Seqs.SumPointwise(Dicts.Values(p.tags), CountOf(c), Dicts.Keys(p.tags), GameCount(p, c));
  }

  lemma GamesOkTotal(p: PmPlayer)
    requires ValidPlayer(p) && forall g :: GameStats(p, g).Ok?
    ensures TotalStats(p).Ok?
  {
    var empty := EmptyStatsDict(false);
    forall i, j | 0 <= i < |p.tags| && 0 <= j < |p.tags[i].1| ensures CellOf(p.tags[i].1[j]) in empty {
      EntryTags(p, i);
      assert GameStats(p, p.tags[i].0).Ok?;
    }
  }
}

/** The player dictionaries of the dictionary-based plus-minus report: per
    player id a display name, position, games played ("GP") and the 24
    counters; building them from a roster, adding a game's players to the
    totals, the increments a tag makes, and the per-position lists.

    A counter is held under its `StatCell`; the report's string key for
    it is `StatKey(c)`, which names each of the 24 counters exactly once
    (`PlusMinusKeys.StatKeysExact`, `PlusMinusKeys.StatKeyInjective`). */
module PlusMinusEntries {
  import opened Wrappers
  import opened Taxonomy
  import opened Records
  import opened PlusMinusKeys
  import opened PlusMinusNames
  import Dicts
  import Seqs
  import Sorting
  import Text

  datatype PlayerData = PlayerData(name: string, position: Position, gp: nat, stats: map<StatCell, nat>)

  type Roster = Dicts.Dict<int, PlayerData>

  /** The counters are exactly the 24 counted cells. */
  ghost predicate CounterDomain(m: map<StatCell, nat>) {
    forall c :: c in m <==> Counted(c)
  }

  /** A counter's value; zero for a cell without one. */
  function Count(e: PlayerData, c: StatCell): nat {
    if c in e.stats then e.stats[c] else 0
  }

  /** Distinct ids, and every entry holding the 24 counters. */
  ghost predicate WellFormed(d: Roster) {
    Dicts.Valid(d) && forall i :: 0 <= i < |d| ==> CounterDomain(d[i].1.stats)
  }

  lemma GetWellFormed(d: Roster, id: int)
    requires WellFormed(d) && Dicts.Get(d, id).Some?
    ensures CounterDomain(Dicts.Get(d, id).value.stats)
  {
  }

  lemma PutWellFormed(d: Roster, id: int, e: PlayerData)
    requires WellFormed(d) && CounterDomain(e.stats)
    ensures WellFormed(Dicts.Put(d, id, e))
  {
    Dicts.PutValid(d, id, e);
    var r := Dicts.Put(d, id, e);
    forall i | 0 <= i < |r| ensures CounterDomain(r[i].1.stats) {
      if r[i].0 == id && i < |d| {
        Dicts.PutSlot(d, id, e, i);
      }
    }
  }

  /** The players on a game's roster, slot by slot. */
  function RosterPlayers(game: Game): (ps: seq<Player>)
    ensures |ps| == |game.roster|
    ensures forall i :: 0 <= i < |ps| ==> ps[i] == game.roster[i].player
  {
    Seqs.Map(game.roster, (e: RosterEntry) => e.player)
  }

  /** The player's display name can be formed among `all` by the rule as
      the program writes it. */
  predicate Nameable(p: Player, all: seq<Player>) {
    FormatPlayerNameAsWritten(p, all).Ok?
  }

  /** The same, by the corrected initials rule. */
  predicate NameableCorrected(p: Player, all: seq<Player>) {
    FormatPlayerName(p, all).Ok?
  }

  /** An entry as the roster builds it: GP 0 and every counter at zero. */
  ghost predicate Fresh(e: PlayerData) {
    e.gp == 0 && CounterDomain(e.stats) && forall c :: c in e.stats ==> e.stats[c] == 0
  }

  /** A rostered player's fresh entry under the display name `name`. */
  function FreshEntry(p: Player, name: string): (r: PlayerData)
    ensures Fresh(r) && r.name == name && r.position == p.position
  {
    PlayerData(name, p.position, 0, EmptyStatsDict(false))
  }

  /** Every entry is fresh. */
  ghost predicate AllFresh(d: Roster) {
    forall id :: Dicts.Get(d, id).Some? ==> Fresh(Dicts.Get(d, id).value)
  }

  lemma BuildStep(d: Roster, id: int, e: PlayerData)
    requires WellFormed(d) && AllFresh(d) && Fresh(e)
    ensures WellFormed(Dicts.Put(d, id, e)) && AllFresh(Dicts.Put(d, id, e))
    ensures forall id' :: Dicts.HasKey(Dicts.Put(d, id, e), id') <==> Dicts.HasKey(d, id') || id' == id
  {
    PutWellFormed(d, id, e);
    forall id' ensures Dicts.Get(Dicts.Put(d, id, e), id') == if id' == id then Some(e) else Dicts.Get(d, id') {
      Dicts.PutGet(d, id, e, id');
    }
  }

  /** The roster dictionary over the slots `slots`, each player named by
      `name`: one entry per player id, a later slot of the same id
      overwriting an earlier one; the first failing name's error
      otherwise. */
  function BuildRosterFrom(slots: seq<RosterEntry>, name: Player -> Result<string>): (r: Result<Roster>)
    ensures r.Ok? <==> forall i :: 0 <= i < |slots| ==> name(slots[i].player).Ok?
    ensures r.Err? ==> exists i :: 0 <= i < |slots| && name(slots[i].player) == Err(r.error)
    decreases |slots|
  {
    if |slots| == 0 then Ok([])
    else
      var init := slots[..|slots| - 1];
      var p := slots[|slots| - 1].player;
      NamedSnoc(slots, init, name);
      var d := BuildRosterFrom(init, name);
      if d.Err? then Err(d.error)
      else if name(p).Err? then Err(name(p).error)
      else Ok(Dicts.Put(d.value, p.id, FreshEntry(p, name(p).value)))
  }

  lemma NamedSnoc(slots: seq<RosterEntry>, init: seq<RosterEntry>, name: Player -> Result<string>)
    requires |slots| > 0 && init == slots[..|slots| - 1]
    ensures (forall i :: 0 <= i < |slots| ==> name(slots[i].player).Ok?)
      <==> (forall i :: 0 <= i < |init| ==> name(init[i].player).Ok?) && name(slots[|slots| - 1].player).Ok?
    ensures forall i :: 0 <= i < |init| ==> init[i] == slots[i]
  {
  }

  /** Every entry of the roster dictionary is fresh. */
  lemma {:induction false} BuildRosterFromFresh(slots: seq<RosterEntry>, name: Player -> Result<string>)
    requires BuildRosterFrom(slots, name).Ok?
    ensures WellFormed(BuildRosterFrom(slots, name).value) && AllFresh(BuildRosterFrom(slots, name).value)
    decreases |slots|
  {
    if |slots| > 0 {
      var init := slots[..|slots| - 1];
      var p := slots[|slots| - 1].player;
      assert BuildRosterFrom(init, name).Ok? && name(p).Ok? by {
        assert forall i :: 0 <= i < |init| ==> init[i] == slots[i];
      }
      BuildRosterFromFresh(init, name);
      BuildStep(BuildRosterFrom(init, name).value, p.id, FreshEntry(p, name(p).value));
    }
  }

  /** The roster dictionary has an entry for exactly the rostered ids. */
  lemma {:induction false} BuildRosterFromKeys(slots: seq<RosterEntry>, name: Player -> Result<string>, id: int)
    requires BuildRosterFrom(slots, name).Ok?
    ensures Dicts.Valid(BuildRosterFrom(slots, name).value)
    ensures Dicts.HasKey(BuildRosterFrom(slots, name).value, id) <==> id in RosterIds(slots)
    decreases |slots|
  {
    if |slots| > 0 {
      var init := slots[..|slots| - 1];
      var p := slots[|slots| - 1].player;
      assert BuildRosterFrom(init, name).Ok? && name(p).Ok? by {
        assert forall i :: 0 <= i < |init| ==> init[i] == slots[i];
      }
      var d := BuildRosterFrom(init, name).value;
      var e := FreshEntry(p, name(p).value);
      assert BuildRosterFrom(slots, name).value == Dicts.Put(d, p.id, e);
      BuildRosterFromKeys(init, name, id);
      Dicts.PutValid(d, p.id, e);
      Dicts.PutHasKey(d, p.id, e, id);
      RosterIdsSnoc(slots, id);
    }
  }

  /** The display names a game's roster gets, as the program forms them. */
  function NameIn(game: Game): Player -> Result<string> {
    (p: Player) => FormatPlayerNameAsWritten(p, RosterPlayers(game))
  }

  /** The display names by the corrected initials rule. */
  function NameInCorrected(game: Game): Player -> Result<string> {
    (p: Player) => FormatPlayerName(p, RosterPlayers(game))
  }

  /** A game's roster dictionary: exactly the rostered players have an
      entry, each with GP 0 and all 24 counters at zero, named by the
      initials rule as written; IndexError when some rostered player's
      name cannot be formed. */
  function BuildRoster(game: Game): (r: Result<Roster>)
    ensures r.Ok? <==> forall i :: 0 <= i < |game.roster| ==> Nameable(game.roster[i].player, RosterPlayers(game))
    ensures r.Err? ==> r.error == IndexError
    ensures r.Ok? ==> WellFormed(r.value) && AllFresh(r.value)
    ensures r.Ok? ==> forall id :: Dicts.HasKey(r.value, id) <==> id in RosterIds(game.roster)
  {
    var r := BuildRosterFrom(game.roster, NameIn(game));
    if r.Ok? then
      BuildRosterFromFresh(game.roster, NameIn(game));
      assert forall id :: Dicts.HasKey(r.value, id) <==> id in RosterIds(game.roster) by {
        forall id ensures Dicts.HasKey(r.value, id) <==> id in RosterIds(game.roster) {
          BuildRosterFromKeys(game.roster, NameIn(game), id);
        }
      }
      r
    else r
  }

  /** The roster dictionary with names by the corrected initials rule: the
      same entries, keys and error condition over that rule. */
  function BuildRosterCorrected(game: Game): (r: Result<Roster>)
    ensures r.Ok? <==> forall i :: 0 <= i < |game.roster| ==> NameableCorrected(game.roster[i].player, RosterPlayers(game))
    ensures r.Err? ==> r.error == IndexError
    ensures r.Ok? ==> WellFormed(r.value) && AllFresh(r.value)
    ensures r.Ok? ==> forall id :: Dicts.HasKey(r.value, id) <==> id in RosterIds(game.roster)
  {
    var r := BuildRosterFrom(game.roster, NameInCorrected(game));
    if r.Ok? then
      BuildRosterFromFresh(game.roster, NameInCorrected(game));
      assert forall id :: Dicts.HasKey(r.value, id) <==> id in RosterIds(game.roster) by {
        forall id ensures Dicts.HasKey(r.value, id) <==> id in RosterIds(game.roster) {
          BuildRosterFromKeys(game.roster, NameInCorrected(game), id);
        }
      }
      r
    else r
  }

  /** Two naming rules that agree on every rostered player build the same
      roster. */
  lemma {:induction false} BuildRosterFromAgrees(slots: seq<RosterEntry>, n1: Player -> Result<string>, n2: Player -> Result<string>)
    requires forall i :: 0 <= i < |slots| ==> n1(slots[i].player) == n2(slots[i].player)
    ensures BuildRosterFrom(slots, n1) == BuildRosterFrom(slots, n2)
    decreases |slots|
  {
    if |slots| > 0 {
      var init := slots[..|slots| - 1];
      assert forall i :: 0 <= i < |init| ==> init[i] == slots[i];
      BuildRosterFromAgrees(init, n1, n2);
    }
  }

  /** Where no rostered player has more than one namesake, the rule as
      written and the corrected rule build the same roster. */
  lemma BuildRosterAgrees(game: Game)
    requires forall i :: 0 <= i < |game.roster| ==> |Namesakes(game.roster[i].player, RosterPlayers(game))| <= 1
    ensures BuildRoster(game) == BuildRosterCorrected(game)
  {
    forall i | 0 <= i < |game.roster|
      ensures NameIn(game)(game.roster[i].player) == NameInCorrected(game)(game.roster[i].player)
    {
      FormatPlayerNameAgrees(game.roster[i].player, RosterPlayers(game));
    }
    BuildRosterFromAgrees(game.roster, NameIn(game), NameInCorrected(game));
  }

  /** What a game's entry `e` for player `id` makes of the totals: a copy
      with GP 1 for a new player, the old entry with GP one higher for a
      known one. */
  function AfterGame(total: Roster, id: int, e: PlayerData): PlayerData {
    match Dicts.Get(total, id)
    case Some(t) => t.(gp := t.gp + 1)
    case None => e.(gp := 1)
  }

  /** One game entry added to the totals. */
  function AddNewPlayer(total: Roster, id: int, e: PlayerData): (r: Roster)
    requires WellFormed(total) && CounterDomain(e.stats)
    ensures WellFormed(r)
  {
    var v := AfterGame(total, id, e);
    assert CounterDomain(v.stats) by {
      if Dicts.Get(total, id).Some? {
        GetWellFormed(total, id);
      }
    }
    PutWellFormed(total, id, v);
    Dicts.Put(total, id, v)
  }

  lemma AddNewPlayerGet(total: Roster, id: int, e: PlayerData, id': int)
    requires WellFormed(total) && CounterDomain(e.stats)
    ensures Dicts.Get(AddNewPlayer(total, id, e), id') == if id' == id then Some(AfterGame(total, id, e)) else Dicts.Get(total, id')
  {
    Dicts.PutGet(total, id, AfterGame(total, id, e), id');
  }

  /** The game's roster entries added to the totals in order. */
  function AddNewPlayers(game: Roster, total: Roster): (r: Roster)
    requires WellFormed(game) && WellFormed(total)
    ensures WellFormed(r)
    decreases |game|
  {
    if |game| == 0 then total
    else
      var init := game[..|game| - 1];
      var last := game[|game| - 1];
      assert WellFormed(init) by {
        assert forall i :: 0 <= i < |init| ==> init[i] == game[i];
      }
      AddNewPlayer(AddNewPlayers(init, total), last.0, last.1)
  }

  lemma AddNewPlayersSnoc(game: Roster, total: Roster, id: int)
    requires WellFormed(game) && WellFormed(total) && |game| > 0
    ensures WellFormed(game[..|game| - 1])
    ensures Dicts.Get(AddNewPlayers(game, total), id)
      == Dicts.Get(AddNewPlayer(AddNewPlayers(game[..|game| - 1], total), game[|game| - 1].0, game[|game| - 1].1), id)
    ensures Dicts.Get(game, id) == if id == game[|game| - 1].0 then Some(game[|game| - 1].1) else Dicts.Get(game[..|game| - 1], id)
    ensures id == game[|game| - 1].0 ==> Dicts.Get(game[..|game| - 1], id).None?
  {
    var init := game[..|game| - 1];
    var last := game[|game| - 1];
    assert game == init + [last];
    Dicts.GetSnoc(init, last.0, last.1, id);
    assert forall i :: 0 <= i < |init| ==> init[i] == game[i];
  }

  /** The expected entry for `id` after the game's players are added. */
  function AddedEntry(game: Roster, total: Roster, id: int): Option<PlayerData> {
    match Dicts.Get(game, id)
    case Some(e) => Some(AfterGame(total, id, e))
    case None => Dicts.Get(total, id)
  }

  lemma AddNewPlayersStep(game: Roster, total: Roster, id: int)
    requires WellFormed(game) && WellFormed(total) && |game| > 0
    requires WellFormed(game[..|game| - 1])
    requires Dicts.Get(AddNewPlayers(game[..|game| - 1], total), id) == AddedEntry(game[..|game| - 1], total, id)
    ensures Dicts.Get(AddNewPlayers(game, total), id) == AddedEntry(game, total, id)
  {
    var init := game[..|game| - 1];
    var last := game[|game| - 1];
    var mid := AddNewPlayers(init, total);
    AddNewPlayersSnoc(game, total, id);
    AddNewPlayerGet(mid, last.0, last.1, id);
    if id == last.0 {
      AfterGameSame(mid, total, id, last.1);
    }
  }

  lemma AfterGameSame(a: Roster, b: Roster, id: int, e: PlayerData)
    requires Dicts.Get(a, id) == Dicts.Get(b, id)
    ensures AfterGame(a, id, e) == AfterGame(b, id, e)
  {
  }

  /** After a game's players are added to the totals, a player of the
      game has GP one higher than before (a copy of the game entry with
      GP 1 when new), and every other player's entry is untouched. */
  lemma {:induction false} AddNewPlayersGet(game: Roster, total: Roster, id: int)
    requires WellFormed(game) && WellFormed(total)
    ensures Dicts.Get(AddNewPlayers(game, total), id) == AddedEntry(game, total, id)
    ensures Dicts.Get(AddNewPlayers(game, total), id).Some? <==> Dicts.HasKey(game, id) || Dicts.HasKey(total, id)
    decreases |game|
  {
    if |game| > 0 {
      AddNewPlayersSnoc(game, total, id);
      AddNewPlayersGet(game[..|game| - 1], total, id);
      AddNewPlayersStep(game, total, id);
    }
  }

  /** The increment `roster[id]["stats"][key] += 1` on player `id`'s
      counter `c`: KeyError for an id without an entry. */
  function BumpEntry(d: Roster, id: int, c: StatCell): (r: Result<Roster>)
    requires WellFormed(d) && Counted(c)
    ensures r.Ok? <==> Dicts.HasKey(d, id)
    ensures r.Err? ==> r.error == KeyError
    ensures r.Ok? ==> WellFormed(r.value)
    ensures r.Ok? ==> forall id' :: Dicts.HasKey(r.value, id') <==> Dicts.HasKey(d, id')
  {
    var e :- Need(Dicts.Get(d, id), KeyError);
    GetWellFormed(d, id);
    PutWellFormed(d, id, Bumped(e, c));
    assert forall id' :: Dicts.HasKey(Dicts.Put(d, id, Bumped(e, c)), id') <==> Dicts.HasKey(d, id') by {
      forall id' ensures Dicts.HasKey(Dicts.Put(d, id, Bumped(e, c)), id') <==> Dicts.HasKey(d, id') {
        Dicts.PutHasKey(d, id, Bumped(e, c), id');
      }
    }
    Ok(Dicts.Put(d, id, Bumped(e, c)))
  }

  /** An entry with counter `c` one higher. */
  function Bumped(e: PlayerData, c: StatCell): (r: PlayerData)
    requires CounterDomain(e.stats) && Counted(c)
    ensures CounterDomain(r.stats)
    ensures r.name == e.name && r.position == e.position && r.gp == e.gp
    ensures forall c' :: Count(r, c') == Count(e, c') + (if c' == c then 1 else 0)
  {
    e.(stats := e.stats[c := e.stats[c] + 1])
  }

  /** Only player `id`'s counter `c` grows, by one. */
  lemma BumpEntryGet(d: Roster, id: int, c: StatCell, id': int)
    requires WellFormed(d) && Counted(c) && Dicts.HasKey(d, id)
    ensures Dicts.Get(BumpEntry(d, id, c).value, id') ==
      if id' == id then Some(Bumped(Dicts.Get(d, id).value, c)) else Dicts.Get(d, id')
  {
    GetWellFormed(d, id);
    Dicts.PutGet(d, id, Bumped(Dicts.Get(d, id).value, c), id');
  }

  /** The increments a kept tag makes, as (player id, counter) pairs:
      each on-ice link's player on the tag's on-ice counter, then each
      participating link's player on its participation counter; the
      counters are those the report's keys name. */
  function Increments(t: Tag): (incs: seq<(int, StatCell)>)
    requires !ShouldSkip(t.strengths, t.result)
    ensures |incs| == |t.onIce| + |t.participating|
    ensures forall i :: 0 <= i < |incs| ==> Counted(incs[i].1)
    ensures forall i :: 0 <= i < |t.onIce| ==>
      incs[i].0 == t.onIce[i] && StatKey(incs[i].1) == KeyOfTag(t.strengths, OnIce, t.result)
    ensures forall i :: 0 <= i < |t.participating| ==>
      incs[|t.onIce| + i].0 == t.participating[i]
      && StatKey(incs[|t.onIce| + i].1) == KeyOfTag(t.strengths, Participating, t.result)
  {
    KeptTagsHaveKeys(t.strengths, t.result);
    var s := ParsePmStrength(t.strengths).value;
    Seqs.Map(t.onIce, (id: int) => (id, StatCell(s, OnIce, t.result)))
      + Seqs.Map(t.participating, (id: int) => (id, StatCell(s, Participating, t.result)))
  }

  /** The increments of a game's tags in order, skipped tags making none. */
  function KeptIncrements(ts: seq<Tag>): (incs: seq<(int, StatCell)>)
    ensures forall i :: 0 <= i < |incs| ==> Counted(incs[i].1)
    decreases |ts|
  {
    if |ts| == 0 then []
    else
      var last := ts[|ts| - 1];
      KeptIncrements(ts[..|ts| - 1]) + (if ShouldSkip(last.strengths, last.result) then [] else Increments(last))
  }

  function IsIncrement(id: int, c: StatCell): ((int, StatCell)) -> bool {
    (x: (int, StatCell)) => x == (id, c)
  }

  /** How many of the increments land on player `id`'s counter `c`. */
  function Hits(incs: seq<(int, StatCell)>, id: int, c: StatCell): nat {
    |Seqs.Filter(incs, IsIncrement(id, c))|
  }

  lemma HitsAppend(a: seq<(int, StatCell)>, b: seq<(int, StatCell)>, id: int, c: StatCell)
    ensures Hits(a + b, id, c) == Hits(a, id, c) + Hits(b, id, c)
  {
    Seqs.FilterAppend(a, b, IsIncrement(id, c));
  }

  lemma {:induction false} HitsOfMap(ids: seq<int>, cell: StatCell, id: int, c: StatCell)
    ensures Hits(Seqs.Map(ids, (x: int) => (x, cell)), id, c) == if c == cell then multiset(ids)[id] else 0
    decreases |ids|
  {
    var m := Seqs.Map(ids, (x: int) => (x, cell));
    if |ids| > 0 {
      var init := ids[..|ids| - 1];
      var init' := Seqs.Map(init, (x: int) => (x, cell));
      assert m == init' + [m[|m| - 1]];
      HitsOfMap(init, cell, id, c);
      HitsAppend(init', [m[|m| - 1]], id, c);
      assert ids == init + [ids[|ids| - 1]];
    }
  }

  /** A kept tag adds, to counter `c` of player `id`, the number of the
      tag's on-ice links (or participating links) that name the player
      when `c` is the tag's strength and result in that role, and nothing
      to any other counter: the roles stay apart and a goal is not also
      counted as a chance. */
  lemma IncrementsExact(t: Tag, id: int, c: StatCell)
    requires !ShouldSkip(t.strengths, t.result)
    ensures Hits(Increments(t), id, c) ==
      if PmStrengthLabel(c.strength) == t.strengths && c.result == t.result then
        (if c.role == OnIce then multiset(t.onIce)[id] else multiset(t.participating)[id])
      else 0
  {
    KeptTagsHaveKeys(t.strengths, t.result);
    ParsePmStrengthExact(t.strengths);
    var s := ParsePmStrength(t.strengths).value;
    var oi := StatCell(s, OnIce, t.result);
    var pa := StatCell(s, Participating, t.result);
    HitsAppend(Seqs.Map(t.onIce, (x: int) => (x, oi)), Seqs.Map(t.participating, (x: int) => (x, pa)), id, c);
    HitsOfMap(t.onIce, oi, id, c);
    HitsOfMap(t.participating, pa, id, c);
    PmStrengthRoundTrip(c.strength);
  }

  /** The per-position lists of a roster dictionary. */
  datatype ByPosition = ByPosition(forwards: seq<PlayerData>, defenders: seq<PlayerData>)

  function HasPosition(pos: Position): PlayerData -> bool {
    (e: PlayerData) => e.position == pos
  }

  function ByName(a: PlayerData, b: PlayerData): bool {
    Text.LexLe(a.name, b.name)
  }

  lemma ByNamePreorder()
    ensures Sorting.TotalPreorder(ByName)
  {
    forall a: PlayerData, b: PlayerData ensures ByName(a, b) || ByName(b, a) {
      Text.LexLeTotal(a.name, b.name);
    }
    forall a: PlayerData, b: PlayerData, c: PlayerData | ByName(a, b) && ByName(b, c) ensures ByName(a, c) {
      Text.LexLeTransitive(a.name, b.name, c.name);
    }
  }

  /** The entries split by position, forwards and defenders each in name
      order; goalies are on neither list. */
  function ConvertRosterToLists(d: Roster): (r: ByPosition)
    ensures multiset(r.forwards) == multiset(Seqs.Filter(Dicts.Values(d), HasPosition(Forward)))
    ensures multiset(r.defenders) == multiset(Seqs.Filter(Dicts.Values(d), HasPosition(Defender)))
    ensures Sorting.SortedBy(r.forwards, ByName) && Sorting.SortedBy(r.defenders, ByName)
    ensures forall e :: (Seqs.Filter(r.forwards, Sorting.Tied(ByName, e))
      == Seqs.Filter(Seqs.Filter(Dicts.Values(d), HasPosition(Forward)), Sorting.Tied(ByName, e)))
    ensures forall e :: (Seqs.Filter(r.defenders, Sorting.Tied(ByName, e))
      == Seqs.Filter(Seqs.Filter(Dicts.Values(d), HasPosition(Defender)), Sorting.Tied(ByName, e)))
  {
    var fs := Seqs.Filter(Dicts.Values(d), HasPosition(Forward));
    var ds := Seqs.Filter(Dicts.Values(d), HasPosition(Defender));
    ByNamePreorder();
    Sorting.SortBySorted(fs, ByName);
    Sorting.SortBySorted(ds, ByName);
    Sorting.SortByStableAll(fs, ByName);
    Sorting.SortByStableAll(ds, ByName);
    ByPosition(Sorting.SortBy(fs, ByName), Sorting.SortBy(ds, ByName))
  }

  /** An entry is listed exactly when it is in the dictionary and is not
      a goalie's, and it is listed under its own position. */
  lemma ListedIffNotGoalie(d: Roster, e: PlayerData)
    ensures e in ConvertRosterToLists(d).forwards <==> e in Dicts.Values(d) && e.position == Forward
    ensures e in ConvertRosterToLists(d).defenders <==> e in Dicts.Values(d) && e.position == Defender
    ensures e in ConvertRosterToLists(d).forwards + ConvertRosterToLists(d).defenders
      <==> e in Dicts.Values(d) && e.position != Goalie
  {
    var r := ConvertRosterToLists(d);
    Seqs.FilterMembers(Dicts.Values(d), HasPosition(Forward), e);
    Seqs.FilterMembers(Dicts.Values(d), HasPosition(Defender), e);
    assert e in r.forwards <==> e in multiset(r.forwards);
    assert e in r.defenders <==> e in multiset(r.defenders);
  }
}

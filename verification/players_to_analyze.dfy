/** The player report's collecting dictionary: every player of a selected
    game's roster, how many roster slots they filled, and the tags they
    shot and were on ice for. The dictionary hands out a fresh, empty entry
    for a player it has not seen, so shooters and on-ice players missing
    from every roster get an entry too. */
module PlayersToAnalyze {
  import opened Wrappers
  import opened Records
  import Dicts
  import Seqs

  datatype PlayerEntry = PlayerEntry(games: nat, firstName: string, lastName: string, shooterTags: seq<Tag>, onIceTags: seq<Tag>)

  /** The entry handed out for a player not seen before. */
  const Fresh := PlayerEntry(0, "", "", [], [])

  type Players = Dicts.Dict<int, PlayerEntry>

  /** Reading an entry, a fresh one when the player is absent. */
  function Lookup(d: Players, id: int): PlayerEntry {
    Dicts.Get(d, id).GetOr(Fresh)
  }

  lemma PutLookup(d: Players, k: int, v: PlayerEntry, k': int)
    requires Dicts.Valid(d)
    ensures Dicts.Valid(Dicts.Put(d, k, v))
    ensures Lookup(Dicts.Put(d, k, v), k') == if k' == k then v else Lookup(d, k')
    ensures Dicts.HasKey(Dicts.Put(d, k, v), k') <==> k' == k || Dicts.HasKey(d, k')
  {
    Dicts.PutValid(d, k, v);
    Dicts.PutGet(d, k, v, k');
  }

  // ----- rosters -----

  /** The players of the games' roster slots, game by game, slot by slot. */
  function RosterPlayers(games: seq<Game>): (ps: seq<Player>)
    decreases |games|
  {
    if |games| == 0 then []
    else RosterPlayers(games[..|games| - 1]) + Seqs.Map(games[|games| - 1].roster, (e: RosterEntry) => e.player)
  }

  /** One roster slot: the player's names are set on first sight, and the
      games count goes up by one. */
  function CountSlot(d: Players, pl: Player): Players {
    Dicts.Put(d, pl.id, SlotEntry(d, pl))
  }

  /** The player's entry once the slot is counted. */
  function SlotEntry(d: Players, pl: Player): PlayerEntry {
    if Dicts.HasKey(d, pl.id) then Lookup(d, pl.id).(games := Lookup(d, pl.id).games + 1)
    else Fresh.(firstName := pl.firstName, lastName := pl.lastName, games := 1)
  }

  function CountSlots(ps: seq<Player>): Players
    decreases |ps|
  {
    if |ps| == 0 then [] else CountSlot(CountSlots(ps[..|ps| - 1]), ps[|ps| - 1])
  }

  /** The dictionary built from the selected games' rosters. */
  function BuildPlayersToAnalyze(games: seq<Game>): Players {
    CountSlots(RosterPlayers(games))
  }

  function IdIs(id: int): Player -> bool {
    (pl: Player) => pl.id == id
  }

  /** The first slot player with the given id. */
  function FirstWith(ps: seq<Player>, id: int): Option<Player>
    decreases |ps|
  {
    if |ps| == 0 then None
    else if FirstWith(ps[..|ps| - 1], id).Some? then FirstWith(ps[..|ps| - 1], id)
    else if ps[|ps| - 1].id == id then Some(ps[|ps| - 1])
    else None
  }

  /** FirstWith finds the earliest slot of the player, and finds one
      exactly when the player has a slot. */
  lemma {:induction false} FirstWithIsFirst(ps: seq<Player>, id: int)
    ensures FirstWith(ps, id).Some? <==> exists i :: 0 <= i < |ps| && ps[i].id == id
    ensures FirstWith(ps, id).Some? ==>
      exists i :: 0 <= i < |ps| && ps[i] == FirstWith(ps, id).value && ps[i].id == id
        && forall j :: 0 <= j < i ==> ps[j].id != id
    decreases |ps|
  {
    if |ps| > 0 {
      var init := ps[..|ps| - 1];
      FirstWithIsFirst(init, id);
      if FirstWith(init, id).Some? {
        var i :| 0 <= i < |init| && init[i] == FirstWith(init, id).value && init[i].id == id
          && forall j :: 0 <= j < i ==> init[j].id != id;
        assert ps[i] == init[i];
        forall j | 0 <= j < i ensures ps[j].id != id { assert ps[j] == init[j]; }
      } else {
        forall i | 0 <= i < |init| ensures ps[i].id != id { assert ps[i] == init[i]; }
      }
    }
  }

  /** The entry a roster gives a player: the slot count and the names of
      the first slot, with no tags yet; a fresh entry for a player with no
      slot. */
  function RosterEntryOf(ps: seq<Player>, id: int): PlayerEntry {
    match FirstWith(ps, id)
    case None => Fresh
    case Some(pl) => PlayerEntry(|Seqs.Filter(ps, IdIs(id))|, pl.firstName, pl.lastName, [], [])
  }

  lemma CountSlotLookup(d: Players, pl: Player, id: int)
    requires Dicts.Valid(d)
    ensures Dicts.Valid(CountSlot(d, pl))
    ensures Dicts.HasKey(CountSlot(d, pl), id) <==> id == pl.id || Dicts.HasKey(d, id)
    ensures id != pl.id ==> Lookup(CountSlot(d, pl), id) == Lookup(d, id)
    ensures id == pl.id && Dicts.HasKey(d, id) ==> Lookup(CountSlot(d, pl), id) == Lookup(d, id).(games := Lookup(d, id).games + 1)
    ensures id == pl.id && !Dicts.HasKey(d, id) ==> Lookup(CountSlot(d, pl), id) == PlayerEntry(1, pl.firstName, pl.lastName, [], [])
  {
    PutLookup(d, pl.id, SlotEntry(d, pl), id);
  }

  /** The entry of the player `id` after the slots `ps`. */
  predicate SlotsAgree(ps: seq<Player>, id: int) {
    Dicts.Valid(CountSlots(ps))
    && (Dicts.HasKey(CountSlots(ps), id) <==> FirstWith(ps, id).Some?)
    && Lookup(CountSlots(ps), id) == RosterEntryOf(ps, id)
    && (FirstWith(ps, id).None? ==> Seqs.Filter(ps, IdIs(id)) == [])
  }

  lemma SlotOfOther(ps: seq<Player>, id: int)
    requires |ps| > 0 && ps[|ps| - 1].id != id
    requires SlotsAgree(ps[..|ps| - 1], id)
    ensures SlotsAgree(ps, id)
  {
    var init, pl := ps[..|ps| - 1], ps[|ps| - 1];
    CountSlotLookup(CountSlots(init), pl, id);
    assert FirstWith(ps, id) == FirstWith(init, id);
    assert Seqs.Filter(ps, IdIs(id)) == Seqs.Filter(init, IdIs(id));
  }

  lemma SlotOfSeen(ps: seq<Player>, id: int)
    requires |ps| > 0 && ps[|ps| - 1].id == id
    requires SlotsAgree(ps[..|ps| - 1], id)
    requires FirstWith(ps[..|ps| - 1], id).Some?
    ensures SlotsAgree(ps, id)
  {
    var init, pl := ps[..|ps| - 1], ps[|ps| - 1];
    CountSlotLookup(CountSlots(init), pl, id);
    assert FirstWith(ps, id) == FirstWith(init, id);
    assert Seqs.Filter(ps, IdIs(id)) == Seqs.Filter(init, IdIs(id)) + [pl];
  }

  lemma SlotOfNew(ps: seq<Player>, id: int)
    requires |ps| > 0 && ps[|ps| - 1].id == id
    requires SlotsAgree(ps[..|ps| - 1], id)
    requires FirstWith(ps[..|ps| - 1], id).None?
    ensures SlotsAgree(ps, id)
  {
    var init, pl := ps[..|ps| - 1], ps[|ps| - 1];
    CountSlotLookup(CountSlots(init), pl, id);
    assert FirstWith(ps, id) == Some(pl);
    assert Seqs.Filter(ps, IdIs(id)) == [pl];
  }

  lemma {:induction false} CountSlotsAt(ps: seq<Player>, id: int)
    ensures SlotsAgree(ps, id)
    decreases |ps|
  {
    if |ps| > 0 {
      var init := ps[..|ps| - 1];
      CountSlotsAt(init, id);
      if ps[|ps| - 1].id != id {
        SlotOfOther(ps, id);
      } else if FirstWith(init, id).Some? {
        SlotOfSeen(ps, id);
      } else {
        SlotOfNew(ps, id);
      }
    }
  }

  /** The player filled a roster slot in one of the games. */
  predicate Rostered(games: seq<Game>, id: int) {
    exists i :: 0 <= i < |RosterPlayers(games)| && RosterPlayers(games)[i].id == id
  }

  /** Every rostered player has an entry and nobody else does; `games` is
      the number of roster slots the player filled over the selected
      games, the names are those of the first slot, and no tag is listed
      yet. */
  lemma BuildPlayersToAnalyzeExact(games: seq<Game>, id: int)
    ensures Dicts.Valid(BuildPlayersToAnalyze(games))
    ensures Dicts.HasKey(BuildPlayersToAnalyze(games), id) <==> Rostered(games, id)
    ensures Lookup(BuildPlayersToAnalyze(games), id) == RosterEntryOf(RosterPlayers(games), id)
    ensures Lookup(BuildPlayersToAnalyze(games), id).games == |Seqs.Filter(RosterPlayers(games), IdIs(id))|
  {
    CountSlotsAt(RosterPlayers(games), id);
    FirstWithIsFirst(RosterPlayers(games), id);
  }

  // ----- tags -----

  function ShotBy(id: int): Tag -> bool {
    (t: Tag) => t.shooter == Some(id)
  }

  /** How many times `ids` lists `id`. */
  function Occurrences(ids: seq<int>, id: int): nat
    decreases |ids|
  {
    if |ids| == 0 then 0 else Occurrences(ids[..|ids| - 1], id) + (if ids[|ids| - 1] == id then 1 else 0)
  }

  lemma {:induction false} OccurrencesCount(ids: seq<int>, id: int)
    ensures Occurrences(ids, id) == multiset(ids)[id]
    ensures Occurrences(ids, id) > 0 <==> id in ids
    decreases |ids|
  {
    if |ids| > 0 {
      var init := ids[..|ids| - 1];
      assert ids == init + [ids[|ids| - 1]];
      OccurrencesCount(init, id);
    }
  }

  /** `n` copies of a tag. */
  function Copies(t: Tag, n: nat): (r: seq<Tag>)
    ensures |r| == n && forall i :: 0 <= i < n ==> r[i] == t
  {
    seq(n, _ => t)
  }

  /** The tags a player was on ice for, in tag order, a tag once per time
      its on-ice list names the player. */
  function OnIceLinks(tags: seq<Tag>, id: int): seq<Tag>
    decreases |tags|
  {
    if |tags| == 0 then []
    else OnIceLinks(tags[..|tags| - 1], id) + Copies(tags[|tags| - 1], Occurrences(tags[|tags| - 1].onIce, id))
  }

  /** A tag is among a player's on-ice tags exactly when it lists the
      player on ice. */
  lemma {:induction false} OnIceLinksMembers(tags: seq<Tag>, id: int, t: Tag)
    ensures t in OnIceLinks(tags, id) <==> t in tags && id in t.onIce
    decreases |tags|
  {
    if |tags| > 0 {
      var init, last := tags[..|tags| - 1], tags[|tags| - 1];
      OnIceLinksMembers(init, id, t);
      OccurrencesCount(last.onIce, id);
      var c := Copies(last, Occurrences(last.onIce, id));
      assert t in c <==> t == last && id in last.onIce by {
        if t == last && id in last.onIce { assert c[0] == t; }
      }
      assert t in tags <==> t in init || t == last by {
        if t in tags {
          var i :| 0 <= i < |tags| && tags[i] == t;
          if i < |init| { assert init[i] == t; }
        }
      }
    }
  }

  /** An entry with more shooter and on-ice tags appended. */
  function Grow(e: PlayerEntry, shot: seq<Tag>, onIce: seq<Tag>): PlayerEntry {
    e.(shooterTags := e.shooterTags + shot, onIceTags := e.onIceTags + onIce)
  }

  lemma GrowTwice(e: PlayerEntry, a: seq<Tag>, b: seq<Tag>, c: seq<Tag>, d: seq<Tag>)
    ensures Grow(Grow(e, a, b), c, d) == Grow(e, a + c, b + d)
  {
    assert e.shooterTags + a + c == e.shooterTags + (a + c);
    assert e.onIceTags + b + d == e.onIceTags + (b + d);
  }

  /** The shooter's list gets the tag. */
  function AddShooterTag(d: Players, t: Tag): Players {
    match t.shooter
    case None => d
    case Some(s) => Dicts.Put(d, s, Grow(Lookup(d, s), [t], []))
  }

  /** Each listed on-ice player's list gets the tag. */
  function AddOnIceTag(d: Players, t: Tag, ids: seq<int>): Players
    decreases |ids|
  {
    if |ids| == 0 then d
    else
      var d' := AddOnIceTag(d, t, ids[..|ids| - 1]);
      var id := ids[|ids| - 1];
      Dicts.Put(d', id, Grow(Lookup(d', id), [], [t]))
  }

  function AddTag(d: Players, t: Tag): Players {
    AddOnIceTag(AddShooterTag(d, t), t, t.onIce)
  }

  /** Every tag goes to its shooter's and its on-ice players' lists. */
  function AddPlayersTags(d: Players, tags: seq<Tag>): Players
    decreases |tags|
  {
    if |tags| == 0 then d else AddTag(AddPlayersTags(d, tags[..|tags| - 1]), tags[|tags| - 1])
  }

  /** The dictionary the player report works from. */
  function GetPlayersToAnalyze(games: seq<Game>, tags: seq<Tag>): Players {
    AddPlayersTags(BuildPlayersToAnalyze(games), tags)
  }

  /** Some tag names the player as its shooter. */
  predicate Shoots(tags: seq<Tag>, id: int) {
    exists i :: 0 <= i < |tags| && tags[i].shooter == Some(id)
  }

  /** Some tag lists the player on ice. */
  predicate OnIceListed(tags: seq<Tag>, id: int) {
    exists i :: 0 <= i < |tags| && id in tags[i].onIce
  }

  /** The tags name the player as shooter or as on ice. */
  predicate Linked(tags: seq<Tag>, id: int) {
    Shoots(tags, id) || OnIceListed(tags, id)
  }

  function ShotList(t: Tag, id: int): seq<Tag> {
    if t.shooter == Some(id) then [t] else []
  }

  lemma AddShooterTagAt(d: Players, t: Tag, id: int)
    requires Dicts.Valid(d)
    ensures Dicts.Valid(AddShooterTag(d, t))
    ensures Dicts.HasKey(AddShooterTag(d, t), id) <==> Dicts.HasKey(d, id) || t.shooter == Some(id)
    ensures Lookup(AddShooterTag(d, t), id) == Grow(Lookup(d, id), ShotList(t, id), [])
  {
    if t.shooter.Some? {
      var s := t.shooter.value;
      PutLookup(d, s, Grow(Lookup(d, s), [t], []), id);
    }
    if t.shooter != Some(id) {
      GrowNothing(Lookup(d, id));
    }
  }

  lemma GrowNothing(e: PlayerEntry)
    ensures Grow(e, [], []) == e
  {
    assert e.shooterTags + [] == e.shooterTags;
    assert e.onIceTags + [] == e.onIceTags;
  }

  /** One on-ice listing of `x`, seen from the entry of `id`. */
  lemma OnIceStep(d: Players, t: Tag, x: int, id: int, n: nat, e: PlayerEntry)
    requires Dicts.Valid(d)
    requires Lookup(d, id) == Grow(e, [], Copies(t, n))
    ensures Dicts.Valid(Dicts.Put(d, x, Grow(Lookup(d, x), [], [t])))
    ensures Dicts.HasKey(Dicts.Put(d, x, Grow(Lookup(d, x), [], [t])), id) <==> Dicts.HasKey(d, id) || x == id
    ensures Lookup(Dicts.Put(d, x, Grow(Lookup(d, x), [], [t])), id) == Grow(e, [], Copies(t, n + (if x == id then 1 else 0)))
  {
    PutLookup(d, x, Grow(Lookup(d, x), [], [t]), id);
    if x == id {
      assert Copies(t, n) + [t] == Copies(t, n + 1);
      GrowTwice(e, [], Copies(t, n), [], [t]);
    }
  }

  lemma {:induction false} AddOnIceTagAt(d: Players, t: Tag, ids: seq<int>, id: int)
    requires Dicts.Valid(d)
    ensures Dicts.Valid(AddOnIceTag(d, t, ids))
    ensures Dicts.HasKey(AddOnIceTag(d, t, ids), id) <==> Dicts.HasKey(d, id) || id in ids
    ensures Lookup(AddOnIceTag(d, t, ids), id) == Grow(Lookup(d, id), [], Copies(t, Occurrences(ids, id)))
    decreases |ids|
  {
    if |ids| == 0 {
      GrowNothing(Lookup(d, id));
    } else {
      var init, x := ids[..|ids| - 1], ids[|ids| - 1];
      assert ids == init + [x];
      AddOnIceTagAt(d, t, init, id);
      OnIceStep(AddOnIceTag(d, t, init), t, x, id, Occurrences(init, id), Lookup(d, id));
    }
  }

  lemma AddTagAt(d: Players, t: Tag, id: int)
    requires Dicts.Valid(d)
    ensures Dicts.Valid(AddTag(d, t))
    ensures Dicts.HasKey(AddTag(d, t), id) <==> Dicts.HasKey(d, id) || t.shooter == Some(id) || id in t.onIce
    ensures Lookup(AddTag(d, t), id) == Grow(Lookup(d, id), ShotList(t, id), Copies(t, Occurrences(t.onIce, id)))
  {
    var d1 := AddShooterTag(d, t);
    var links := Copies(t, Occurrences(t.onIce, id));
    assert AddTag(d, t) == AddOnIceTag(d1, t, t.onIce);
    AddShooterTagAt(d, t, id);
    AddOnIceTagAt(d1, t, t.onIce, id);
    GrowTwice(Lookup(d, id), ShotList(t, id), [], [], links);
    assert ShotList(t, id) + [] == ShotList(t, id);
    assert [] + links == links;
  }

  lemma ShootsSnoc(tags: seq<Tag>, id: int)
    requires |tags| > 0
    ensures Shoots(tags, id) <==> Shoots(tags[..|tags| - 1], id) || tags[|tags| - 1].shooter == Some(id)
  {
    var init := tags[..|tags| - 1];
    if Shoots(init, id) {
      var i :| 0 <= i < |init| && init[i].shooter == Some(id);
      assert tags[i] == init[i];
    }
    if Shoots(tags, id) {
      var i :| 0 <= i < |tags| && tags[i].shooter == Some(id);
      if i < |init| { assert init[i] == tags[i]; }
    }
  }

  lemma OnIceListedSnoc(tags: seq<Tag>, id: int)
    requires |tags| > 0
    ensures OnIceListed(tags, id) <==> OnIceListed(tags[..|tags| - 1], id) || id in tags[|tags| - 1].onIce
  {
    var init := tags[..|tags| - 1];
    if OnIceListed(init, id) {
      var i :| 0 <= i < |init| && id in init[i].onIce;
      assert tags[i] == init[i];
    }
    if OnIceListed(tags, id) {
      var i :| 0 <= i < |tags| && id in tags[i].onIce;
      if i < |init| { assert init[i] == tags[i]; }
    }
  }

  /** Over all tags: a player's shooter list gains the tags they shot and
      the on-ice list gains their on-ice links, both in tag order; games
      and names are untouched, and exactly the linked players gain an
      entry. */
  lemma {:induction false} AddPlayersTagsAt(d: Players, tags: seq<Tag>, id: int)
    requires Dicts.Valid(d)
    ensures Dicts.Valid(AddPlayersTags(d, tags))
    ensures Dicts.HasKey(AddPlayersTags(d, tags), id) <==> Dicts.HasKey(d, id) || Linked(tags, id)
    ensures Lookup(AddPlayersTags(d, tags), id) == Grow(Lookup(d, id), Seqs.Filter(tags, ShotBy(id)), OnIceLinks(tags, id))
    decreases |tags|
  {
    if |tags| == 0 {
      GrowNothing(Lookup(d, id));
    } else {
      var init, t := tags[..|tags| - 1], tags[|tags| - 1];
      AddPlayersTagsAt(d, init, id);
      AddTagAt(AddPlayersTags(d, init), t, id);
      assert Seqs.Filter(tags, ShotBy(id)) == Seqs.Filter(init, ShotBy(id)) + ShotList(t, id);
      GrowTwice(Lookup(d, id), Seqs.Filter(init, ShotBy(id)), OnIceLinks(init, id), ShotList(t, id), Copies(t, Occurrences(t.onIce, id)));
      ShootsSnoc(tags, id);
      OnIceListedSnoc(tags, id);
    }
  }

  /** The whole dictionary: exactly the rostered and the linked players
      have an entry, which holds the roster's count and names, the tags
      the player shot and the player's on-ice links. */
  lemma GetPlayersToAnalyzeExact(games: seq<Game>, tags: seq<Tag>, id: int)
    ensures Dicts.Valid(GetPlayersToAnalyze(games, tags))
    ensures Dicts.HasKey(GetPlayersToAnalyze(games, tags), id)
      <==> Rostered(games, id) || Linked(tags, id)
    ensures Lookup(GetPlayersToAnalyze(games, tags), id).games == |Seqs.Filter(RosterPlayers(games), IdIs(id))|
    ensures Lookup(GetPlayersToAnalyze(games, tags), id).shooterTags == Seqs.Filter(tags, ShotBy(id))
    ensures Lookup(GetPlayersToAnalyze(games, tags), id).onIceTags == OnIceLinks(tags, id)
  {
    GetPlayersToAnalyzeKeys(games, tags, id);
    GetPlayersToAnalyzeEntry(games, tags, id);
  }

  lemma GetPlayersToAnalyzeKeys(games: seq<Game>, tags: seq<Tag>, id: int)
    ensures Dicts.Valid(GetPlayersToAnalyze(games, tags))
    ensures Dicts.HasKey(GetPlayersToAnalyze(games, tags), id)
      <==> Rostered(games, id) || Linked(tags, id)
  {
    var d := BuildPlayersToAnalyze(games);
    BuildPlayersToAnalyzeExact(games, id);
    AddPlayersTagsAt(d, tags, id);
  }

  lemma GetPlayersToAnalyzeEntry(games: seq<Game>, tags: seq<Tag>, id: int)
    ensures Lookup(GetPlayersToAnalyze(games, tags), id).games == |Seqs.Filter(RosterPlayers(games), IdIs(id))|
    ensures Lookup(GetPlayersToAnalyze(games, tags), id).shooterTags == Seqs.Filter(tags, ShotBy(id))
    ensures Lookup(GetPlayersToAnalyze(games, tags), id).onIceTags == OnIceLinks(tags, id)
  {
    var d := BuildPlayersToAnalyze(games);
    var e, shot, on := Lookup(d, id), Seqs.Filter(tags, ShotBy(id)), OnIceLinks(tags, id);
    assert Dicts.Valid(d) && e == RosterEntryOf(RosterPlayers(games), id)
      && e.games == |Seqs.Filter(RosterPlayers(games), IdIs(id))| by {
      BuildPlayersToAnalyzeExact(games, id);
    }
    assert e.shooterTags == [] && e.onIceTags == [];
    assert Lookup(GetPlayersToAnalyze(games, tags), id) == Grow(e, shot, on) by {
      AddPlayersTagsAt(d, tags, id);
    }
    assert [] + shot == shot && [] + on == on;
  }

  // ----- the on-ice tags of each player -----

  type Links = Dicts.Dict<int, seq<Tag>>

  /** A player's on-ice list, empty when the player is absent. */
  function LinksOf(m: Links, id: int): seq<Tag> {
    Dicts.Get(m, id).GetOr([])
  }

  function AppendLink(m: Links, t: Tag, ids: seq<int>): Links
    decreases |ids|
  {
    if |ids| == 0 then m
    else
      var m' := AppendLink(m, t, ids[..|ids| - 1]);
      var id := ids[|ids| - 1];
      Dicts.Put(m', id, LinksOf(m', id) + [t])
  }

  /** Each player id mapped to the tags it was on ice for. */
  function FindPlayersOnIceTags(tags: seq<Tag>): Links
    decreases |tags|
  {
    if |tags| == 0 then [] else
      var last := tags[|tags| - 1];
      AppendLink(FindPlayersOnIceTags(tags[..|tags| - 1]), last, last.onIce)
  }

  lemma LinkStep(m: Links, t: Tag, x: int, id: int, before: seq<Tag>, n: nat)
    requires Dicts.Valid(m)
    requires LinksOf(m, id) == before + Copies(t, n)
    ensures Dicts.Valid(Dicts.Put(m, x, LinksOf(m, x) + [t]))
    ensures Dicts.HasKey(Dicts.Put(m, x, LinksOf(m, x) + [t]), id) <==> Dicts.HasKey(m, id) || x == id
    ensures LinksOf(Dicts.Put(m, x, LinksOf(m, x) + [t]), id) == before + Copies(t, n + (if x == id then 1 else 0))
  {
    Dicts.PutValid(m, x, LinksOf(m, x) + [t]);
    Dicts.PutGet(m, x, LinksOf(m, x) + [t], id);
    if x == id {
      assert Copies(t, n) + [t] == Copies(t, n + 1);
      assert before + Copies(t, n) + [t] == before + Copies(t, n + 1);
    }
  }

  lemma {:induction false} AppendLinkAt(m: Links, t: Tag, ids: seq<int>, id: int)
    requires Dicts.Valid(m)
    ensures Dicts.Valid(AppendLink(m, t, ids))
    ensures Dicts.HasKey(AppendLink(m, t, ids), id) <==> Dicts.HasKey(m, id) || id in ids
    ensures LinksOf(AppendLink(m, t, ids), id) == LinksOf(m, id) + Copies(t, Occurrences(ids, id))
    decreases |ids|
  {
    if |ids| == 0 {
      assert LinksOf(m, id) + [] == LinksOf(m, id);
    } else {
      var init, x := ids[..|ids| - 1], ids[|ids| - 1];
      assert ids == init + [x];
      var m' := AppendLink(m, t, init);
      assert AppendLink(m, t, ids) == Dicts.Put(m', x, LinksOf(m', x) + [t]);
      assert Occurrences(ids, id) == Occurrences(init, id) + (if x == id then 1 else 0);
      assert id in ids <==> id in init || x == id;
      AppendLinkAt(m, t, init, id);
      LinkStep(m', t, x, id, LinksOf(m, id), Occurrences(init, id));
    }
  }

  /** Exactly the players some tag lists on ice have a list, and each list
      holds the player's on-ice links in tag order. */
  lemma {:induction false} FindPlayersOnIceTagsAt(tags: seq<Tag>, id: int)
    ensures Dicts.Valid(FindPlayersOnIceTags(tags))
    ensures Dicts.HasKey(FindPlayersOnIceTags(tags), id) <==> OnIceListed(tags, id)
    ensures LinksOf(FindPlayersOnIceTags(tags), id) == OnIceLinks(tags, id)
    decreases |tags|
  {
    if |tags| > 0 {
      var init, t := tags[..|tags| - 1], tags[|tags| - 1];
      FindPlayersOnIceTagsAt(init, id);
      AppendLinkAt(FindPlayersOnIceTags(init), t, t.onIce, id);
      OnIceListedSnoc(tags, id);
    }
  }

  /** A player no tag lists on ice has no on-ice links. */
  lemma OnIceLinksUnlisted(tags: seq<Tag>, id: int)
    requires !OnIceListed(tags, id)
    ensures OnIceLinks(tags, id) == []
  {
    if |OnIceLinks(tags, id)| > 0 {
      var t := OnIceLinks(tags, id)[0];
      OnIceLinksMembers(tags, id, t);
      assert false;
    }
  }

  // ----- the route module's own version -----

  /** Only the shooters' lists, tag by tag. */
  function AddShooterTags(d: Players, tags: seq<Tag>): Players
    decreases |tags|
  {
    if |tags| == 0 then d else AddShooterTag(AddShooterTags(d, tags[..|tags| - 1]), tags[|tags| - 1])
  }

  /** Every listed player's on-ice list is replaced by the given one. */
  function AssignOnIce(d: Players, m: Links): Players
    decreases |m|
  {
    if |m| == 0 then d
    else
      var d' := AssignOnIce(d, m[..|m| - 1]);
      var k := m[|m| - 1].0;
      Dicts.Put(d', k, Lookup(d', k).(onIceTags := m[|m| - 1].1))
  }

  /** The same dictionary built the route module's way: shooter lists
      first, then the on-ice lists assigned from the on-ice finder. */
  function LegacyPlayersToAnalyze(games: seq<Game>, tags: seq<Tag>): Players {
    AssignOnIce(AddShooterTags(BuildPlayersToAnalyze(games), tags), FindPlayersOnIceTags(tags))
  }

  lemma {:induction false} AddShooterTagsAt(d: Players, tags: seq<Tag>, id: int)
    requires Dicts.Valid(d)
    ensures Dicts.Valid(AddShooterTags(d, tags))
    ensures Dicts.HasKey(AddShooterTags(d, tags), id) <==> Dicts.HasKey(d, id) || Shoots(tags, id)
    ensures Lookup(AddShooterTags(d, tags), id) == Grow(Lookup(d, id), Seqs.Filter(tags, ShotBy(id)), [])
    decreases |tags|
  {
    if |tags| == 0 {
      GrowNothing(Lookup(d, id));
    } else {
      var init, t := tags[..|tags| - 1], tags[|tags| - 1];
      AddShooterTagsAt(d, init, id);
      AddShooterTagAt(AddShooterTags(d, init), t, id);
      assert Seqs.Filter(tags, ShotBy(id)) == Seqs.Filter(init, ShotBy(id)) + ShotList(t, id);
      GrowTwice(Lookup(d, id), Seqs.Filter(init, ShotBy(id)), [], ShotList(t, id), []);
      ShootsSnoc(tags, id);
    }
  }

  /** Reading a dictionary grown by one entry at its end. */
  lemma GetSnoc<V>(m: Dicts.Dict<int, V>, id: int)
    requires |m| > 0 && Dicts.Valid(m)
    ensures Dicts.Valid(m[..|m| - 1])
    ensures Dicts.Get(m, id) == if id == m[|m| - 1].0 then Some(m[|m| - 1].1) else Dicts.Get(m[..|m| - 1], id)
  {
    var init := m[..|m| - 1];
    assert Dicts.Valid(init) by {
      forall i, j | 0 <= i < j < |init| ensures init[i].0 != init[j].0 { assert init[i] == m[i] && init[j] == m[j]; }
    }
    Dicts.GetUnique(m, id);
    Dicts.GetUnique(init, id);
    if id != m[|m| - 1].0 && Dicts.HasKey(m, id) {
      var i :| 0 <= i < |m| && m[i].0 == id;
      assert init[i] == m[i];
    }
    if id != m[|m| - 1].0 && Dicts.HasKey(init, id) {
      var i :| 0 <= i < |init| && init[i].0 == id;
      assert m[i] == init[i];
    }
  }

  lemma {:induction false} AssignOnIceAt(d: Players, m: Links, id: int)
    requires Dicts.Valid(d) && Dicts.Valid(m)
    ensures Dicts.Valid(AssignOnIce(d, m))
    ensures Dicts.HasKey(AssignOnIce(d, m), id) <==> Dicts.HasKey(d, id) || Dicts.HasKey(m, id)
    ensures Lookup(AssignOnIce(d, m), id)
      == if Dicts.HasKey(m, id) then Lookup(d, id).(onIceTags := LinksOf(m, id)) else Lookup(d, id)
    decreases |m|
  {
    if |m| > 0 {
      var init, k, v := m[..|m| - 1], m[|m| - 1].0, m[|m| - 1].1;
      GetSnoc(m, id);
      AssignOnIceAt(d, init, id);
      var d' := AssignOnIce(d, init);
      PutLookup(d', k, Lookup(d', k).(onIceTags := v), id);
    }
  }

  lemma GrowFromEmpty(e: PlayerEntry, a: seq<Tag>, b: seq<Tag>)
    requires e.shooterTags == [] && e.onIceTags == []
    ensures Grow(e, a, []).(onIceTags := b) == Grow(e, a, b)
    ensures b == [] ==> Grow(e, a, []) == Grow(e, a, b)
  {
    assert [] + a == a;
    assert [] + b == b;
  }

  /** Both ways of building the dictionary give every player the same
      entry, and the same players an entry. */
  lemma LegacyAgrees(games: seq<Game>, tags: seq<Tag>, id: int)
    ensures Dicts.Valid(LegacyPlayersToAnalyze(games, tags))
    ensures Dicts.HasKey(LegacyPlayersToAnalyze(games, tags), id) <==> Dicts.HasKey(GetPlayersToAnalyze(games, tags), id)
    ensures Lookup(LegacyPlayersToAnalyze(games, tags), id) == Lookup(GetPlayersToAnalyze(games, tags), id)
  {
    var d := BuildPlayersToAnalyze(games);
    var shot := Seqs.Filter(tags, ShotBy(id));
    var m := FindPlayersOnIceTags(tags);
    assert LegacyPlayersToAnalyze(games, tags) == AssignOnIce(AddShooterTags(d, tags), m);
    assert GetPlayersToAnalyze(games, tags) == AddPlayersTags(d, tags);
    BuildPlayersToAnalyzeExact(games, id);
    var e := Lookup(d, id);
    assert e.shooterTags == [] && e.onIceTags == [];
    AddPlayersTagsAt(d, tags, id);
    AddShooterTagsAt(d, tags, id);
    FindPlayersOnIceTagsAt(tags, id);
    AssignOnIceAt(AddShooterTags(d, tags), m, id);
    if !OnIceListed(tags, id) {
      OnIceLinksUnlisted(tags, id);
    }
    GrowFromEmpty(e, shot, OnIceLinks(tags, id));
  }
}

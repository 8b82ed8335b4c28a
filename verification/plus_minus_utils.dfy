/** The helpers of the player-object version of the plus-minus report:
    the game-id parameter, filing link tags with their players, and the
    players of a game in last-name order. */
module PlusMinusUtils {
  import opened Wrappers
  import opened Taxonomy
  import opened Records
  import opened PlusMinusKeys
  import opened PlusMinusDomain
  import Dicts
  import Seqs
  import Sorting
  import Text
  import GameSelection

  /** The `game_ids` parameter: no ids when it is missing or empty,
      otherwise one integer per comma-separated piece, in order and with
      repeats; a piece that is not an integer raises ValueError. */
  function SplitGameIds(text: Option<string>): (r: Result<seq<int>>)
    ensures (text.None? || text.value == "") ==> r == Ok([])
    ensures r.Err? ==> r.error == ValueError
    ensures text.Some? && text.value != "" ==>
      var pieces := Text.Split(text.value, ',');
      (r.Ok? <==> forall i :: 0 <= i < |pieces| ==> Text.PyInt(pieces[i]).Ok?)
      && (r.Ok? ==> |r.value| == |pieces| && forall i :: 0 <= i < |pieces| ==> r.value[i] == Text.PyInt(pieces[i]).value)
  {
    if text.None? || text.value == "" then Ok([])
    else GameSelection.ParseGameIds(text.value)
  }

  /** Writing any id list as the parameter and splitting it gives the
      list back. */
  lemma SplitGameIdsRoundTrip(ids: seq<int>)
    ensures SplitGameIds(Some(GameSelection.IdsText(ids))) == Ok(ids)
  {
    if |ids| >= 1 {
      GameSelection.IdsRoundTrip(ids);
    } else {
      assert GameSelection.IdsText(ids) == Text.Join([], ",");
    }
  }

  /** A link row between a player and a tag; the table it comes from
      gives the role: on-ice links are on-ice, all others participating. */
  datatype PmLink = PmLink(playerId: int, role: Role, tag: Tag)

  /** The link's tag is neither an empty-net tag nor a plain shot. */
  predicate Kept(l: PmLink) {
    !ShouldSkip(l.tag.strengths, l.tag.result)
  }

  /** The plus-minus tag a kept link becomes: filed under the tag's game,
      with the link's role, the tag's strength and result. */
  function PmTagOf(l: PmLink): (t: PmTag)
    requires Kept(l)
    ensures t.gameId == l.tag.game.id && t.role == l.role && t.result == l.tag.result
    ensures PmStrengthLabel(t.strength) == l.tag.strengths
  {
    KeptTagsHaveKeys(l.tag.strengths, l.tag.result);
    ParsePmStrengthExact(l.tag.strengths);
    PmTag(l.tag.game.id, l.role, ParsePmStrength(l.tag.strengths).value, l.tag.result)
  }

  /** The plus-minus tags of a list of kept links, in order. */
  function PmTagsOf(ls: seq<PmLink>): (ts: seq<PmTag>)
    requires forall i :: 0 <= i < |ls| ==> Kept(ls[i])
    ensures |ts| == |ls|
    ensures forall i :: 0 <= i < |ls| ==> ts[i] == PmTagOf(ls[i])
  {
    seq(|ls|, i requires 0 <= i < |ls| => PmTagOf(ls[i]))
  }

  /** The player dictionary: distinct ids, each player's tags valid. */
  predicate AllValid(d: Dicts.Dict<int, PmPlayer>) {
    Dicts.Valid(d) && forall i :: 0 <= i < |d| ==> ValidPlayer(d[i].1)
  }

  lemma GetValid(d: Dicts.Dict<int, PmPlayer>, id: int)
    requires AllValid(d) && Dicts.Get(d, id).Some?
    ensures ValidPlayer(Dicts.Get(d, id).value)
  {
  }

  lemma PutAllValid(d: Dicts.Dict<int, PmPlayer>, id: int, p: PmPlayer)
    requires AllValid(d) && ValidPlayer(p) && Dicts.HasKey(d, id)
    ensures AllValid(Dicts.Put(d, id, p))
    ensures Dicts.Keys(Dicts.Put(d, id, p)) == Dicts.Keys(d)
  {
    Dicts.PutValid(d, id, p);
    var r := Dicts.Put(d, id, p);
    forall i | 0 <= i < |r| ensures ValidPlayer(r[i].1) {
      if r[i].0 == id {
        Dicts.PutSlot(d, id, p, i);
      }
    }
  }

  /** One link: skipped links change nothing; a kept link's tag is filed
      with its player under its game; a player missing from the
      dictionary raises KeyError. */
  function AddLink(d: Dicts.Dict<int, PmPlayer>, l: PmLink): (r: Result<Dicts.Dict<int, PmPlayer>>)
    requires AllValid(d)
    ensures r.Ok? <==> !Kept(l) || Dicts.HasKey(d, l.playerId)
    ensures r.Err? ==> r.error == KeyError
    ensures r.Ok? ==> AllValid(r.value) && Dicts.Keys(r.value) == Dicts.Keys(d)
  {
    if !Kept(l) then Ok(d)
    else
      var p :- Need(Dicts.Get(d, l.playerId), KeyError);
      GetValid(d, l.playerId);
      PutAllValid(d, l.playerId, AddTag(p, l.tag.game.id, PmTagOf(l)));
      Ok(Dicts.Put(d, l.playerId, AddTag(p, l.tag.game.id, PmTagOf(l))))
  }

  /** Every link in order. */
  function AddTagsToPlayers(d: Dicts.Dict<int, PmPlayer>, links: seq<PmLink>): (r: Result<Dicts.Dict<int, PmPlayer>>)
    requires AllValid(d)
    ensures r.Ok? <==> forall i :: 0 <= i < |links| && Kept(links[i]) ==> Dicts.HasKey(d, links[i].playerId)
    ensures r.Err? ==> r.error == KeyError
    ensures r.Ok? ==> AllValid(r.value) && Dicts.Keys(r.value) == Dicts.Keys(d)
    decreases |links|
  {
    if |links| == 0 then Ok(d)
    else
      var init := links[..|links| - 1];
      assert forall i :: 0 <= i < |init| ==> init[i] == links[i];
      var d' :- AddTagsToPlayers(d, init);
      assert forall id :: Dicts.HasKey(d', id) <==> Dicts.HasKey(d, id) by {
        forall id ensures Dicts.HasKey(d', id) <==> Dicts.HasKey(d, id) {
          if Dicts.HasKey(d', id) {
            var i :| 0 <= i < |d'| && d'[i].0 == id;
            assert Dicts.Keys(d')[i] == id;
          }
          if Dicts.HasKey(d, id) {
            var i :| 0 <= i < |d| && d[i].0 == id;
            assert Dicts.Keys(d)[i] == id;
          }
        }
      }
      AddLink(d', links[|links| - 1])
  }

  /** The kept links of one player in one game. */
  function KeptIn(id: int, g: int): PmLink -> bool {
    (l: PmLink) => Kept(l) && l.playerId == id && l.tag.game.id == g
  }

  /** What the links did to player `id`'s entry for game `g`, relative to
      the dictionary `d0` the filing started from. */
  ghost predicate FiledAs(d0: Dicts.Dict<int, PmPlayer>, d: Dicts.Dict<int, PmPlayer>, links: seq<PmLink>, id: int, g: int) {
    (Dicts.Get(d, id).Some? <==> Dicts.Get(d0, id).Some?)
    && (Dicts.Get(d, id).Some? ==>
      var p0, p := Dicts.Get(d0, id).value, Dicts.Get(d, id).value;
      var mine := Seqs.Filter(links, KeptIn(id, g));
      p.player == p0.player
      && TagsOf(p, g) == TagsOf(p0, g) + PmTagsOf(mine)
      && (Dicts.HasKey(p.tags, g) <==> Dicts.HasKey(p0.tags, g) || |mine| > 0))
  }

  lemma FilterSnocKept(init: seq<PmLink>, last: PmLink, id: int, g: int)
    ensures Seqs.Filter(init + [last], KeptIn(id, g))
      == Seqs.Filter(init, KeptIn(id, g)) + (if KeptIn(id, g)(last) then [last] else [])
  {
    assert (init + [last])[..|init|] == init;
  }

  /** A kept link of another player leaves the entry as it was. */
  lemma FiledStepOtherPlayer(d0: Dicts.Dict<int, PmPlayer>, d: Dicts.Dict<int, PmPlayer>, init: seq<PmLink>, last: PmLink, id: int, g: int)
    requires AllValid(d) && AddLink(d, last).Ok? && Kept(last) && last.playerId != id
    requires FiledAs(d0, d, init, id, g)
    requires Seqs.Filter(init + [last], KeptIn(id, g)) == Seqs.Filter(init, KeptIn(id, g))
    ensures FiledAs(d0, AddLink(d, last).value, init + [last], id, g)
  {
    var p := Dicts.Get(d, last.playerId).value;
    GetValid(d, last.playerId);
    var q := AddTag(p, last.tag.game.id, PmTagOf(last));
    Dicts.PutGet(d, last.playerId, q, id);
    assert Dicts.Get(AddLink(d, last).value, id) == Dicts.Get(d, id);
  }

  /** A kept link of the player in another game leaves the entry as it was. */
  lemma FiledStepOtherGame(d0: Dicts.Dict<int, PmPlayer>, d: Dicts.Dict<int, PmPlayer>, init: seq<PmLink>, last: PmLink, id: int, g: int)
    requires AllValid(d) && AddLink(d, last).Ok? && Kept(last) && last.playerId == id && last.tag.game.id != g
    requires FiledAs(d0, d, init, id, g)
    requires Seqs.Filter(init + [last], KeptIn(id, g)) == Seqs.Filter(init, KeptIn(id, g))
    ensures FiledAs(d0, AddLink(d, last).value, init + [last], id, g)
  {
    var p := Dicts.Get(d, id).value;
    GetValid(d, id);
    var q := AddTag(p, last.tag.game.id, PmTagOf(last));
    Dicts.PutGet(d, id, q, id);
    assert Dicts.Get(AddLink(d, last).value, id) == Some(q);
    assert Dicts.Get(q.tags, g) == Dicts.Get(p.tags, g);
  }

  /** A link that does not belong to the entry leaves it as it was. */
  lemma FiledStepOther(d0: Dicts.Dict<int, PmPlayer>, d: Dicts.Dict<int, PmPlayer>, init: seq<PmLink>, last: PmLink, id: int, g: int)
    requires AllValid(d) && AddLink(d, last).Ok?
    requires FiledAs(d0, d, init, id, g)
    requires !KeptIn(id, g)(last)
    ensures FiledAs(d0, AddLink(d, last).value, init + [last], id, g)
  {
    FilterSnocKept(init, last, id, g);
    if !Kept(last) {
      assert AddLink(d, last).value == d;
    } else if last.playerId != id {
      FiledStepOtherPlayer(d0, d, init, last, id, g);
    } else {
      FiledStepOtherGame(d0, d, init, last, id, g);
    }
  }

  /** A kept link of the player in the game appends its tag to the entry. */
  lemma PmTagsSnoc(before: seq<PmLink>, last: PmLink)
    requires forall i :: 0 <= i < |before| ==> Kept(before[i])
    requires Kept(last)
    ensures PmTagsOf(before + [last]) == PmTagsOf(before) + [PmTagOf(last)]
  {
  }

  lemma AppendTags(p0: PmPlayer, p: PmPlayer, q: PmPlayer, g: int, before: seq<PmLink>, last: PmLink)
    requires forall i :: 0 <= i < |before| ==> Kept(before[i])
    requires Kept(last)
    requires TagsOf(p, g) == TagsOf(p0, g) + PmTagsOf(before)
    requires TagsOf(q, g) == TagsOf(p, g) + [PmTagOf(last)]
    ensures TagsOf(q, g) == TagsOf(p0, g) + PmTagsOf(before + [last])
  {
    PmTagsSnoc(before, last);
  }

  lemma FiledStepMine(d0: Dicts.Dict<int, PmPlayer>, d: Dicts.Dict<int, PmPlayer>, init: seq<PmLink>, last: PmLink, id: int, g: int)
    requires AllValid(d) && AddLink(d, last).Ok?
    requires FiledAs(d0, d, init, id, g)
    requires KeptIn(id, g)(last)
    ensures FiledAs(d0, AddLink(d, last).value, init + [last], id, g)
  {
    var before := Seqs.Filter(init, KeptIn(id, g));
    FilterSnocKept(init, last, id, g);
    var p0 := Dicts.Get(d0, id).value;
    var p := Dicts.Get(d, id).value;
    GetValid(d, id);
    var q := AddTag(p, g, PmTagOf(last));
    Dicts.PutGet(d, id, q, id);
    assert Dicts.Get(AddLink(d, last).value, id) == Some(q);
    AppendTags(p0, p, q, g, before, last);
  }

  /** After the links are filed, each player's tags for a game are the
      tags they had plus, in link order, the tags of that player's kept
      links in that game; players keep their identity, and a game has an
      entry exactly when it had one or such a link exists. */
  lemma {:induction false} AddTagsToPlayersExact(d: Dicts.Dict<int, PmPlayer>, links: seq<PmLink>, id: int, g: int)
    requires AllValid(d) && AddTagsToPlayers(d, links).Ok?
    ensures FiledAs(d, AddTagsToPlayers(d, links).value, links, id, g)
    decreases |links|
  {
    if |links| == 0 {
      assert Seqs.Filter(links, KeptIn(id, g)) == [];
    } else {
      var init := links[..|links| - 1];
      var last := links[|links| - 1];
      assert links == init + [last];
      AddTagsToPlayersExact(d, init, id, g);
      var d' := AddTagsToPlayers(d, init).value;
      if KeptIn(id, g)(last) {
        FiledStepMine(d, d', init, last, id, g);
      } else {
        FiledStepOther(d, d', init, last, id, g);
      }
    }
  }

  /** Links that are skipped can be dropped without changing the outcome. */
  lemma {:induction false} SkippedLinksChangeNothing(d: Dicts.Dict<int, PmPlayer>, links: seq<PmLink>)
    requires AllValid(d)
    ensures AddTagsToPlayers(d, links) == AddTagsToPlayers(d, Seqs.Filter(links, Kept))
    decreases |links|
  {
    if |links| > 0 {
      var init := links[..|links| - 1];
      var last := links[|links| - 1];
      SkippedLinksChangeNothing(d, init);
      var f := Seqs.Filter(init, Kept);
      if Kept(last) {
        assert Seqs.Filter(links, Kept) == f + [last];
        assert (f + [last])[..|f|] == f;
      } else {
        assert Seqs.Filter(links, Kept) == f;
      }
    }
  }

  /** A goalie is left off the sheets. */
  predicate ShouldSkipGoalie(p: PmPlayer) {
    p.player.position == Goalie
  }

  function Lookup(d: Dicts.Dict<int, PmPlayer>): int -> Result<PmPlayer> {
    (id: int) => Need(Dicts.Get(d, id), KeyError)
  }

  function ByLastName(a: PmPlayer, b: PmPlayer): bool {
    Text.LexLe(a.player.lastName, b.player.lastName)
  }

  lemma ByLastNamePreorder()
    ensures Sorting.TotalPreorder(ByLastName)
  {
    forall a: PmPlayer, b: PmPlayer ensures ByLastName(a, b) || ByLastName(b, a) {
      Text.LexLeTotal(a.player.lastName, b.player.lastName);
    }
    forall a: PmPlayer, b: PmPlayer, c: PmPlayer | ByLastName(a, b) && ByLastName(b, c) ensures ByLastName(a, c) {
      Text.LexLeTransitive(a.player.lastName, b.player.lastName, c.player.lastName);
    }
  }

  /** The players of a game's roster, one per roster slot, ordered by last
      name (stably); a roster player missing from the dictionary raises
      KeyError. */
  function GetPlayersInGame(game: Game, d: Dicts.Dict<int, PmPlayer>): (r: Result<seq<PmPlayer>>)
    ensures r.Ok? <==> forall i :: 0 <= i < |game.roster| ==> Dicts.HasKey(d, game.roster[i].player.id)
    ensures r.Err? ==> r.error == KeyError
    ensures r.Ok? ==> |r.value| == |game.roster|
    ensures r.Ok? ==> multiset(r.value) == multiset(MapAll(RosterIds(game.roster), Lookup(d)).value)
    ensures r.Ok? ==> Sorting.SortedBy(r.value, ByLastName)
    ensures r.Ok? ==> forall q :: (Seqs.Filter(r.value, Sorting.Tied(ByLastName, q))
      == Seqs.Filter(MapAll(RosterIds(game.roster), Lookup(d)).value, Sorting.Tied(ByLastName, q)))
  {
    var m := MapAll(RosterIds(game.roster), Lookup(d));
    LookupRoster(game, d);
    if m.Err? then Err(m.error)
    else
      ByLastNamePreorder();
      Sorting.SortBySorted(m.value, ByLastName);
      Sorting.SortByStableAll(m.value, ByLastName);
      Ok(Sorting.SortBy(m.value, ByLastName))
  }

  /** Looking up the roster's ids succeeds exactly when every one is in
      the dictionary, and fails only with KeyError. */
  lemma LookupRoster(game: Game, d: Dicts.Dict<int, PmPlayer>)
    ensures MapAll(RosterIds(game.roster), Lookup(d)).Ok? <==> forall i :: 0 <= i < |game.roster| ==> Dicts.HasKey(d, game.roster[i].player.id)
    ensures MapAll(RosterIds(game.roster), Lookup(d)).Err? ==> MapAll(RosterIds(game.roster), Lookup(d)).error == KeyError
  {
    var ids := RosterIds(game.roster);
    forall i | 0 <= i < |ids| ensures Lookup(d)(ids[i]).Ok? <==> Dicts.HasKey(d, game.roster[i].player.id) {
    }
  }

  /** Each roster slot's player is in the result as many times as the
      slot's player fills slots. */
  lemma PlayersInGameSlots(game: Game, d: Dicts.Dict<int, PmPlayer>, i: int)
    requires GetPlayersInGame(game, d).Ok?
    requires 0 <= i < |game.roster|
    ensures Dicts.Get(d, game.roster[i].player.id).value in GetPlayersInGame(game, d).value
  {
    var found := MapAll(RosterIds(game.roster), Lookup(d)).value;
    assert found[i] == Dicts.Get(d, game.roster[i].player.id).value;
    assert found[i] in multiset(found);
  }
}

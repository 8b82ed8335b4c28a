/** The roster editor: a selected spot name receives the clicked player
    and the selection moves on to the next spot; a spot can be emptied; a
    scraped lineup can replace the draft; and cancelling asks first when
    the draft differs from the saved roster. */
module RosterEditor {
  import opened Wrappers
  import opened RosterSpots
  import RosterSlots

  // ------------------------------------------------------------ finding

  /** Whether `k` is the first spot matching a line and position. */
  predicate FirstMatch(roster: seq<Spot>, line: Option<nat>, position: Option<string>, k: int) {
    0 <= k < |roster| && Matches(roster[k], line, position)
    && forall j :: 0 <= j < k ==> !Matches(roster[j], line, position)
  }

  /** `findIndex` on a line and position: the first matching spot, or -1
      when none matches. */
  function FindSpot(roster: seq<Spot>, line: Option<nat>, position: Option<string>): (r: int)
    ensures -1 <= r < |roster|
    ensures r >= 0 ==> FirstMatch(roster, line, position, r)
    ensures r == -1 <==> forall k :: 0 <= k < |roster| ==> !Matches(roster[k], line, position)
    decreases |roster|
  {
    if |roster| == 0 then -1
    else if Matches(roster[0], line, position) then 0
    else
      var t := FindSpot(roster[1..], line, position);
      assert forall k :: 1 <= k < |roster| ==> roster[k] == roster[1..][k - 1];
      if t == -1 then -1 else t + 1
  }

  /** There is at most one first match. */
  lemma FirstMatchUnique(roster: seq<Spot>, line: Option<nat>, position: Option<string>, j: int, k: int)
    requires FirstMatch(roster, line, position, j) && FirstMatch(roster, line, position, k)
    ensures j == k
  {
  }

  // ---------------------------------------------------------- assigning

  /** The roster with spot `idx` holding `player`; an index outside the
      roster changes nothing. */
  function WithPlayerAt(roster: seq<Spot>, idx: int, player: Option<Player>): (r: seq<Spot>)
    ensures |r| == |roster|
    ensures forall k :: 0 <= k < |r| && k != idx ==> r[k] == roster[k]
    ensures 0 <= idx < |r| ==> r[idx] == roster[idx].(player := player)
  {
    seq(|roster|, k requires 0 <= k < |roster| => if k == idx then roster[k].(player := player) else roster[k])
  }

  /** What a click on the player list does. Without a selection nothing
      changes (an alert is shown). Otherwise the draft is updated, and the
      selection either moves on or, when there is no spot after the
      found one, reading that spot's line throws a TypeError with the
      update already requested. */
  datatype Click =
    | NoSelection
    | Assigned(roster: seq<Spot>, selection: string)
    | Crashed(roster: seq<Spot>)

  /** `handlePlayerListClick` with the player `players[index]`. */
  function PlayerListClick(roster: seq<Spot>, selection: string, players: seq<Player>, index: nat): (r: Click)
    requires index < |players|
    ensures r.NoSelection? <==> |selection| == 0
    ensures !r.NoSelection? ==> |r.roster| == |roster|
    ensures !r.NoSelection? ==> var target := ParseSpotName(selection);
      forall k :: 0 <= k < |roster| ==>
        r.roster[k] == if FirstMatch(roster, target.0, target.1, k) then roster[k].(player := Some(players[index])) else roster[k]
  {
    if |selection| == 0 then NoSelection
    else
      var target := ParseSpotName(selection);
      var idx := FindSpot(roster, target.0, target.1);
      var updated := WithPlayerAt(roster, idx, Some(players[index]));
      assert forall k :: 0 <= k < |roster| ==> (FirstMatch(roster, target.0, target.1, k) <==> k == idx) by {
        forall k | 0 <= k < |roster| && FirstMatch(roster, target.0, target.1, k)
          ensures k == idx
        {
          if idx != -1 {
            FirstMatchUnique(roster, target.0, target.1, k, idx);
          }
        }
      }
      if idx < 24 then
        if idx + 1 < |roster| then Assigned(updated, SpotName(roster[idx + 1]))
        else Crashed(updated)
      else Assigned(updated, selection)
  }

  /** Where the selection goes: to the spot after the one found while
      that one is before index 24 (to the first spot when none is found),
      and nowhere from index 24 on. */
  lemma ClickAdvances(roster: seq<Spot>, selection: string, players: seq<Player>, index: nat, k: int)
    requires index < |players| && |selection| > 0
    requires var target := ParseSpotName(selection);
      FirstMatch(roster, target.0, target.1, k)
      || (k == -1 && forall j :: 0 <= j < |roster| ==> !Matches(roster[j], target.0, target.1))
    ensures var r := PlayerListClick(roster, selection, players, index);
      if k >= 24 then r.Assigned? && r.selection == selection
      else if k + 1 < |roster| then r.Assigned? && r.selection == SpotName(roster[k + 1])
      else r.Crashed?
  {
    var target := ParseSpotName(selection);
    var idx := FindSpot(roster, target.0, target.1);
    if k >= 0 {
      FirstMatchUnique(roster, target.0, target.1, k, idx);
    }
  }

  /** On the empty template, clicking a player while spot `k` is selected
      puts the player in spot `k` alone and selects the next spot, up to
      the last one. */
  lemma ClickOnTemplate(k: nat, players: seq<Player>, index: nat)
    requires k < 25 && index < |players|
    ensures var r := PlayerListClick(Template(), SpotName(Template()[k]), players, index);
      r.Assigned? && |r.roster| == 25
      && r.roster[k] == Template()[k].(player := Some(players[index]))
      && (forall j :: 0 <= j < 25 && j != k ==> r.roster[j] == Template()[j])
      && r.selection == SpotName(Template()[if k < 24 then k + 1 else k])
  {
    var t := Template();
    TemplateShape();
    var name := SpotName(t[k]);
    var target := ParseSpotName(name);
    assert |name| > 0 by {
      assert name == LineText(t[k].line) + "-" + PositionText(t[k].position);
    }
    forall j | 0 <= j < 25
      ensures FirstMatch(t, target.0, target.1, j) <==> j == k
    {
      TemplateNamesUnique(k, j);
      forall i | 0 <= i < j
        ensures Matches(t[i], target.0, target.1) <==> i == k
      {
        TemplateNamesUnique(k, i);
      }
    }
    ClickAdvances(t, name, players, index, k);
  }

  /** The editor of a new game behaves the same way: the selected spot
      alone receives the player, and the length is kept. */
  lemma ClickKeepsOthers(roster: seq<Spot>, selection: string, players: seq<Player>, index: nat, k: nat)
    requires index < |players| && |selection| > 0 && k < |roster|
    requires var target := ParseSpotName(selection); !Matches(roster[k], target.0, target.1)
    ensures var r := PlayerListClick(roster, selection, players, index);
      !r.NoSelection? && |r.roster| == |roster| && r.roster[k] == roster[k]
  {
  }

  // ----------------------------------------------------------- removing

  /** `removePlayerFromRosterSpot`: every spot the name points at loses its
      player. */
  function RemoveFromSpot(roster: seq<Spot>, name: string): (r: seq<Spot>)
    ensures |r| == |roster|
    ensures forall k :: 0 <= k < |r| ==> Key(r[k]) == Key(roster[k])
    ensures var target := ParseSpotName(name);
      forall k :: 0 <= k < |r| ==>
        r[k].player == if Matches(roster[k], target.0, target.1) then None else roster[k].player
  {
    var target := ParseSpotName(name);
    seq(|roster|, k requires 0 <= k < |roster| =>
      if Matches(roster[k], target.0, target.1) then roster[k].(player := None) else roster[k])
  }

  /** After a removal, no spot the name points at holds a player, and a
      second removal changes nothing. */
  lemma RemoveIdempotent(roster: seq<Spot>, name: string)
    ensures var target := ParseSpotName(name); var r := RemoveFromSpot(roster, name);
      (forall k :: 0 <= k < |r| && Matches(r[k], target.0, target.1) ==> r[k].player.None?)
      && RemoveFromSpot(r, name) == r
  {
    var r := RemoveFromSpot(roster, name);
    var rr := RemoveFromSpot(r, name);
    assert forall k :: 0 <= k < |r| ==> rr[k] == r[k];
  }

  /** Emptying the spot a player was just put in on the template gives
      the template back. */
  lemma RemoveUndoesClick(k: nat, players: seq<Player>, index: nat)
    requires k < 25 && index < |players|
    ensures var name := SpotName(Template()[k]);
      RemoveFromSpot(PlayerListClick(Template(), name, players, index).roster, name) == Template()
  {
    var t := Template();
    var name := SpotName(t[k]);
    ClickOnTemplate(k, players, index);
    TemplateShape();
    var r := PlayerListClick(t, name, players, index).roster;
    var target := ParseSpotName(name);
    var back := RemoveFromSpot(r, name);
    forall j | 0 <= j < 25
      ensures back[j] == t[j]
    {
      TemplateNamesUnique(k, j);
      assert Key(r[j]) == Key(t[j]);
    }
  }

  // ----------------------------------------------------------- filling

  /** A scraped entry: its slot name and the id of its player, absent
      when the player record has none. */
  datatype Entry = Entry(name: string, id: Option<int>)

  /** `playersInTeam.find(p => p.id === id)`: an absent id matches nobody. */
  function FindPlayer(team: seq<Player>, id: Option<int>): (r: Option<Player>)
    ensures r.Some? ==> (id == Some(r.value.id)
      && exists j :: 0 <= j < |team| && team[j] == r.value && forall i :: 0 <= i < j ==> Some(team[i].id) != id)
    ensures r.None? <==> forall j :: 0 <= j < |team| ==> Some(team[j].id) != id
    decreases |team|
  {
    if |team| == 0 then None
    else if Some(team[0].id) == id then Some(team[0])
    else
      var r := FindPlayer(team[1..], id);
      assert forall j :: 1 <= j < |team| ==> team[j] == team[1..][j - 1];
      if r.Some? then
        var j :| 0 <= j < |team[1..]| && team[1..][j] == r.value && forall i :: 0 <= i < j ==> Some(team[1..][i].id) != id;
        assert team[j + 1] == r.value && forall i :: 0 <= i < j + 1 ==> Some(team[i].id) != id;
        r
      else r
  }

  /** `fillRoster`: one spot per scraped entry, in order, its line and
      position read from the entry's name and its player the team player
      with the entry's id, or none. */
  function FillRoster(team: seq<Player>, entries: seq<Entry>): (r: seq<Spot>)
    ensures |r| == |entries|
    ensures forall i :: 0 <= i < |r| ==> Key(r[i]) == ParseSpotName(entries[i].name)
    ensures forall i :: 0 <= i < |r| ==>
      (r[i].player.Some? ==> r[i].player.value in team && Some(r[i].player.value.id) == entries[i].id)
      && (r[i].player.None? <==> forall j :: 0 <= j < |team| ==> Some(team[j].id) != entries[i].id)
  {
    seq(|entries|, i requires 0 <= i < |entries| =>
      var target := ParseSpotName(entries[i].name);
      Spot(target.0, target.1, FindPlayer(team, entries[i].id)))
  }

  /** Entries named by the scraper's slot keys give spots on the slot's
      line and position. */
  lemma FillFromSlotKeys(team: seq<Player>, entries: seq<Entry>, slots: seq<RosterSlots.SlotId>)
    requires |slots| == |entries|
    requires forall i :: 0 <= i < |entries| ==> entries[i].name == RosterSlots.SlotKey(slots[i])
    ensures forall i :: 0 <= i < |entries| ==>
      FillRoster(team, entries)[i].line == Some(slots[i].line)
      && FillRoster(team, entries)[i].position == Some(RosterSlots.PosText(slots[i].pos))
  {
    var r := FillRoster(team, entries);
    forall i | 0 <= i < |entries|
      ensures r[i].line == Some(slots[i].line) && r[i].position == Some(RosterSlots.PosText(slots[i].pos))
    {
      var s := Spot(Some(slots[i].line), Some(RosterSlots.PosText(slots[i].pos)), None);
      assert '-' !in RosterSlots.PosText(slots[i].pos);
      SpotNameRoundTrip(s);
      assert SpotName(s) == RosterSlots.SlotKey(slots[i]);
    }
  }

  // --------------------------------------------------------- comparing

  /** Both spots empty, or both holding players with the same id. */
  predicate SamePlayer(a: Spot, b: Spot) {
    (a.player.None? && b.player.None?)
    || (a.player.Some? && b.player.Some? && a.player.value.id == b.player.value.id)
  }

  /** `rostersAreEqual` from index `i` on: the draft is walked to its end,
      and reading past the end of the saved roster throws a TypeError. */
  function EqualFrom(draft: seq<Spot>, current: seq<Spot>, i: nat): (r: Result<bool>)
    requires i <= |draft| && i <= |current|
    ensures r == Ok(true) <==> |draft| <= |current| && forall k :: i <= k < |draft| ==> SamePlayer(draft[k], current[k])
    ensures r.Err? <==> |draft| > |current| && forall k :: i <= k < |current| ==> SamePlayer(draft[k], current[k])
    ensures r.Err? ==> r.error == TypeError
    decreases |draft| - i
  {
    if i == |draft| then Ok(true)
    else if i >= |current| then Err(TypeError)
    else if !SamePlayer(draft[i], current[i]) then Ok(false)
    else EqualFrom(draft, current, i + 1)
  }

  function RostersAreEqual(draft: seq<Spot>, current: seq<Spot>): (r: Result<bool>)
    ensures r == Ok(true) <==> |draft| <= |current| && forall k :: 0 <= k < |draft| ==> SamePlayer(draft[k], current[k])
    ensures r.Err? <==> |draft| > |current| && forall k :: 0 <= k < |current| ==> SamePlayer(draft[k], current[k])
  {
    EqualFrom(draft, current, 0)
  }

  /** A draft copied from the saved roster is equal to it, and so is any
      draft that only moved players between spots with the same ids. */
  lemma EqualReflexive(roster: seq<Spot>)
    ensures RostersAreEqual(roster, roster) == Ok(true)
  {
  }

  /** The comparison does not care which side is the draft when both have
      the same length. */
  lemma EqualSymmetric(a: seq<Spot>, b: seq<Spot>)
    requires |a| == |b|
    ensures RostersAreEqual(a, b) == RostersAreEqual(b, a)
  {
    forall k | 0 <= k < |a|
      ensures SamePlayer(a[k], b[k]) == SamePlayer(b[k], a[k])
    {
    }
    var ab, ba := RostersAreEqual(a, b), RostersAreEqual(b, a);
    assert ab.Ok?;
    assert ba.Ok?;
    assert ab == Ok(ab.value) && ba == Ok(ba.value);
    assert ab.value == ba.value;
  }

  /** What cancelling does: whether the user is asked, and whether the
      editor closes; or the TypeError the comparison throws. */
  datatype Cancel = Cancel(asked: bool, closes: bool) | CancelFailed

  /** `cancelRoster` with the user's answer to the confirmation. */
  function CancelRoster(draft: seq<Spot>, current: seq<Spot>, confirmed: bool): (r: Cancel)
    ensures r.CancelFailed? <==> RostersAreEqual(draft, current).Err?
    ensures r.Cancel? ==> (r.asked <==> RostersAreEqual(draft, current) == Ok(false))
    ensures r.Cancel? ==> (r.closes <==> !r.asked || confirmed)
  {
    match RostersAreEqual(draft, current)
    case Err(_) => CancelFailed
    case Ok(same) => if same then Cancel(false, true) else Cancel(true, confirmed)
  }

  /** Cancelling a draft nobody touched closes the editor without
      asking. */
  lemma CancelUntouched(roster: seq<Spot>, confirmed: bool)
    ensures CancelRoster(roster, roster, confirmed) == Cancel(false, true)
  {
    EqualReflexive(roster);
  }

  /** After a click on the template, cancelling asks the user, and the
      editor closes only on their confirmation. */
  lemma CancelAfterClick(k: nat, players: seq<Player>, index: nat, confirmed: bool)
    requires k < 25 && index < |players|
    ensures var r := PlayerListClick(Template(), SpotName(Template()[k]), players, index).roster;
      CancelRoster(r, Template(), confirmed) == Cancel(true, confirmed)
  {
    var r := PlayerListClick(Template(), SpotName(Template()[k]), players, index).roster;
    assert |r| == 25 && r[k].player.Some? by {
      ClickOnTemplate(k, players, index);
    }
    assert |Template()| == 25 && Template()[k].player.None? by {
      TemplateShape();
    }
    assert !SamePlayer(r[k], Template()[k]);
  }
}

/** Rows keyed by game: a fold that visits tags in order, opens a row for a
    game at the first tag of that game it counts, and adds each counted
    tag's placed cells to its game's row. The rows sit in an
    insertion-ordered dict, as the per-game report's `dict` of rows does. */
module GameGroups {
  import opened Wrappers
  import opened Records
  import Counting
  import Dicts
  import Seqs

  /** One row: its game, the date and opponent copied from that game, and
      the counts of its cells. */
  datatype GameRow<C> = GameRow(gameId: int, date: int, opponent: string, counts: multiset<C>)

  /** Adds `cells` to the row of game `g`, opening the row if the game has
      none yet. */
  function AddToRow<C>(rows: Dicts.Dict<int, GameRow<C>>, g: GameInfo, cells: seq<C>): Dicts.Dict<int, GameRow<C>> {
    match Dicts.Get(rows, g.id)
    case None => Dicts.Put(rows, g.id, GameRow(g.id, g.date, g.opponent, multiset(cells)))
    case Some(row) => Dicts.Put(rows, g.id, row.(counts := row.counts + multiset(cells)))
  }

  /** The fold: the first failing placement aborts it; a tag that is not
      `counted` is passed over without opening a row. */
  function GroupRows<C(==)>(tags: seq<Tag>, place: Tag -> Result<seq<C>>, counted: Tag -> bool): (r: Result<Dicts.Dict<int, GameRow<C>>>)
    ensures r.Ok? <==> Counting.AllPlaced(tags, place)
    decreases |tags|
  {
    if |tags| == 0 then Ok([])
    else
      var init := tags[..|tags| - 1];
      var last := tags[|tags| - 1];
      assert Counting.AllPlaced(tags, place) <==> Counting.AllPlaced(init, place) && place(last).Ok? by {
        if Counting.AllPlaced(init, place) && place(last).Ok? {
          forall i | 0 <= i < |tags| ensures place(tags[i]).Ok? {
            if i < |tags| - 1 { assert tags[i] == init[i]; }
          }
        }
      }
      var rows :- GroupRows(init, place, counted);
      var cells :- place(last);
      if counted(last) then Ok(AddToRow(rows, last.game, cells)) else Ok(rows)
  }

  /** The distinct values of `xs`, each where it first occurs. */
  function FirstSeen(xs: seq<int>): seq<int>
    decreases |xs|
  {
    if |xs| == 0 then []
    else
      var f := FirstSeen(xs[..|xs| - 1]);
      if xs[|xs| - 1] in f then f else f + [xs[|xs| - 1]]
  }

  /** FirstSeen lists every value of `xs` and nothing else, each once. */
  lemma {:induction false} FirstSeenExact(xs: seq<int>)
    ensures forall x :: x in FirstSeen(xs) <==> x in xs
    ensures Seqs.Distinct(FirstSeen(xs))
    decreases |xs|
  {
    if |xs| > 0 {
      var init, last := xs[..|xs| - 1], xs[|xs| - 1];
      FirstSeenExact(init);
      assert xs == init + [last];
      var f := FirstSeen(init);
      if last !in f {
        var r := f + [last];
        forall i, j | 0 <= i < j < |r|
          ensures r[i] != r[j]
        {
          if j == |f| {
            assert r[i] == f[i];
          }
        }
      }
    }
  }

  /** The game of every counted tag, in tag order. */
  function CountedGameIds(tags: seq<Tag>, counted: Tag -> bool): seq<int> {
    Seqs.Map(Seqs.Filter(tags, counted), GameIdOf)
  }

  lemma CountedGameIdsSnoc(init: seq<Tag>, last: Tag, counted: Tag -> bool)
    ensures CountedGameIds(init + [last], counted)
      == CountedGameIds(init, counted) + (if counted(last) then [last.game.id] else [])
  {
    var tags := init + [last];
    assert tags[..|tags| - 1] == init;
    var f := Seqs.Filter(init, counted);
    if counted(last) {
      Seqs.MapAppend(f, [last], GameIdOf);
    }
  }

  /** The rows sit in the order their games were first met among the
      counted tags. */
  lemma {:induction false} GroupRowsOrder<C>(tags: seq<Tag>, place: Tag -> Result<seq<C>>, counted: Tag -> bool)
    requires GroupRows(tags, place, counted).Ok?
    ensures Dicts.Keys(GroupRows(tags, place, counted).value) == FirstSeen(CountedGameIds(tags, counted))
    decreases |tags|
  {
    if |tags| > 0 {
      var init, last := tags[..|tags| - 1], tags[|tags| - 1];
      assert tags == init + [last];
      var rows := GroupRows(init, place, counted).value;
      GroupRowsOrder(init, place, counted);
      CountedGameIdsSnoc(init, last, counted);
      var ids := CountedGameIds(tags, counted);
      assert place(last).Ok? by {
        assert place(tags[|tags| - 1]).Ok?;
      }
      assert GroupRows(tags, place, counted).value
        == if counted(last) then AddToRow(rows, last.game, place(last).value) else rows;
      if counted(last) {
        var g := last.game;
        assert ids[..|ids| - 1] == CountedGameIds(init, counted);
        assert g.id in Dicts.Keys(rows) <==> Dicts.HasKey(rows, g.id) by {
          if g.id in Dicts.Keys(rows) {
            var i :| 0 <= i < |rows| && Dicts.Keys(rows)[i] == g.id;
            assert rows[i].0 == g.id;
          }
          if Dicts.HasKey(rows, g.id) {
            var i :| 0 <= i < |rows| && rows[i].0 == g.id;
            assert Dicts.Keys(rows)[i] == g.id;
          }
        }
        assert ids[|ids| - 1] == g.id;
        assert FirstSeen(ids) == if g.id in Dicts.Keys(rows) then Dicts.Keys(rows) else Dicts.Keys(rows) + [g.id];
        match Dicts.Get(rows, g.id)
        case None =>
          Dicts.PutKeys(rows, g.id, GameRow(g.id, g.date, g.opponent, multiset(place(last).value)));
        case Some(row) =>
          Dicts.PutKeys(rows, g.id, row.(counts := row.counts + multiset(place(last).value)));
      } else {
        assert ids == CountedGameIds(init, counted);
      }
    }
  }

  /** When every failing placement fails with `e`, so does the fold. */
  lemma {:induction false} GroupRowsErrorFrom<C>(tags: seq<Tag>, place: Tag -> Result<seq<C>>, counted: Tag -> bool, e: Error)
    requires forall t :: place(t).Err? ==> place(t).error == e
    ensures GroupRows(tags, place, counted).Err? ==> GroupRows(tags, place, counted).error == e
    decreases |tags|
  {
    if |tags| > 0 {
      GroupRowsErrorFrom(tags[..|tags| - 1], place, counted, e);
    }
  }

  /** A tag that is not counted places no cells. */
  ghost predicate SilentUnlessCounted<C>(place: Tag -> Result<seq<C>>, counted: Tag -> bool) {
    forall t :: place(t).Ok? && !counted(t) ==> place(t).value == []
  }

  /** Some counted tag belongs to game `id`. */
  predicate HasCounted(tags: seq<Tag>, counted: Tag -> bool, id: int) {
    exists i :: 0 <= i < |tags| && counted(tags[i]) && tags[i].game.id == id
  }

  /** `row` is right for game `id`: some counted tag of the game shows its
      date and opponent, and its counts are those of the game's tags. */
  ghost predicate RowOf<C>(tags: seq<Tag>, place: Tag -> Result<seq<C>>, counted: Tag -> bool, id: int, row: GameRow<C>)
    requires Counting.AllPlaced(tags, place)
  {
    Counting.FilterPlaced(tags, place, Seqs.KeyIs(GameIdOf, id));
    && row.gameId == id
    && (exists i :: 0 <= i < |tags| && counted(tags[i]) && tags[i].game.id == id
          && tags[i].game.date == row.date && tags[i].game.opponent == row.opponent)
    && row.counts == Counting.Tally(TagsOfGame(tags, id), place).value
  }

  /** One row per game with a counted tag, and nothing else, each right. */
  ghost predicate Exact<C>(tags: seq<Tag>, place: Tag -> Result<seq<C>>, counted: Tag -> bool, rows: Dicts.Dict<int, GameRow<C>>)
    requires Counting.AllPlaced(tags, place)
  {
    && Dicts.Valid(rows)
    && (forall id :: Dicts.HasKey(rows, id) <==> HasCounted(tags, counted, id))
    && (forall id :: Dicts.Get(rows, id).Some? ==> RowOf(tags, place, counted, id, Dicts.Get(rows, id).value))
  }

  /** A game's tags after one more tag. */
  lemma TagsOfGameSnoc(init: seq<Tag>, x: Tag, id: int)
    ensures TagsOfGame(init + [x], id) == TagsOfGame(init, id) + (if x.game.id == id then [x] else [])
  {
    assert (init + [x])[..|init + [x]| - 1] == init;
    assert Seqs.KeyIs(GameIdOf, id)(x) == (x.game.id == id);
  }

  lemma TallySnoc<C>(f: seq<Tag>, x: Tag, place: Tag -> Result<seq<C>>)
    requires Counting.AllPlaced(f + [x], place)
    ensures Counting.AllPlaced(f, place)
    ensures Counting.Tally(f + [x], place).value == Counting.Tally(f, place).value + multiset(place(x).value)
  {
    assert (f + [x])[..|f + [x]| - 1] == f;
    assert (f + [x])[|f + [x]| - 1] == x;
    assert Counting.AllPlaced(f, place) by {
      forall i | 0 <= i < |f| ensures place(f[i]).Ok? { assert f[i] == (f + [x])[i]; }
    }
  }

  lemma {:induction false} TallyOfUncounted<C>(f: seq<Tag>, place: Tag -> Result<seq<C>>, counted: Tag -> bool)
    requires SilentUnlessCounted(place, counted)
    requires Counting.AllPlaced(f, place)
    requires forall i :: 0 <= i < |f| ==> !counted(f[i])
    ensures Counting.Tally(f, place).value == multiset{}
    decreases |f|
  {
    if |f| > 0 {
      var init := f[..|f| - 1];
      assert Counting.AllPlaced(init, place) by {
        forall i | 0 <= i < |init| ensures place(init[i]).Ok? { assert init[i] == f[i]; }
      }
      TallyOfUncounted(init, place, counted);
      assert !counted(f[|f| - 1]);
    }
  }

  lemma HasCountedSnoc(init: seq<Tag>, last: Tag, counted: Tag -> bool, id: int)
    ensures HasCounted(init + [last], counted, id) <==> HasCounted(init, counted, id) || (counted(last) && last.game.id == id)
  {
    var tags := init + [last];
    if HasCounted(init, counted, id) {
      var i :| 0 <= i < |init| && counted(init[i]) && init[i].game.id == id;
      assert tags[i] == init[i];
    }
    if HasCounted(tags, counted, id) && !(counted(last) && last.game.id == id) {
      var i :| 0 <= i < |tags| && counted(tags[i]) && tags[i].game.id == id;
      assert i < |init| && init[i] == tags[i];
    }
    if counted(last) && last.game.id == id {
      assert tags[|init|] == last;
    }
  }

  /** A witness tag in a prefix is a witness in the whole sequence. */
  lemma WitnessExtends(init: seq<Tag>, last: Tag, counted: Tag -> bool, id: int, date: int, opponent: string)
    requires exists i :: 0 <= i < |init| && counted(init[i]) && init[i].game.id == id
               && init[i].game.date == date && init[i].game.opponent == opponent
    ensures exists i :: 0 <= i < |init + [last]| && counted((init + [last])[i]) && (init + [last])[i].game.id == id
              && (init + [last])[i].game.date == date && (init + [last])[i].game.opponent == opponent
  {
    var i :| 0 <= i < |init| && counted(init[i]) && init[i].game.id == id
             && init[i].game.date == date && init[i].game.opponent == opponent;
    assert (init + [last])[i] == init[i];
  }

  /** A row that the new tag does not add to stays right. */
  lemma StepUntouched<C>(init: seq<Tag>, last: Tag, place: Tag -> Result<seq<C>>, counted: Tag -> bool, id: int, row: GameRow<C>)
    requires SilentUnlessCounted(place, counted)
    requires Counting.AllPlaced(init + [last], place)
    requires !(counted(last) && last.game.id == id)
    requires Counting.AllPlaced(init, place) && RowOf(init, place, counted, id, row)
    ensures RowOf(init + [last], place, counted, id, row)
  {
    var tags := init + [last];
    TagsOfGameSnoc(init, last, id);
    Counting.FilterPlaced(tags, place, Seqs.KeyIs(GameIdOf, id));
    Counting.FilterPlaced(init, place, Seqs.KeyIs(GameIdOf, id));
    WitnessExtends(init, last, counted, id, row.date, row.opponent);
    if last.game.id == id {
      TallySnoc(TagsOfGame(init, id), last, place);
      assert tags[|init|] == last;
      assert place(last).Ok? && !counted(last);
      assert place(last).value == [];
      var f := TagsOfGame(init, id);
      assert TagsOfGame(tags, id) == f + [last];
      assert Counting.Tally(f + [last], place).value == Counting.Tally(f, place).value;
    } else {
      assert TagsOfGame(tags, id) == TagsOfGame(init, id);
      assert row.counts == Counting.Tally(TagsOfGame(tags, id), place).value;
    }
  }

  /** The row of the new tag's game gains the tag's cells. */
  lemma StepTouched<C>(init: seq<Tag>, last: Tag, place: Tag -> Result<seq<C>>, counted: Tag -> bool, oldRow: Option<GameRow<C>>)
    requires SilentUnlessCounted(place, counted)
    requires Counting.AllPlaced(init + [last], place)
    requires counted(last) && place(last).Ok?
    requires Counting.AllPlaced(init, place)
    requires oldRow.Some? ==> RowOf(init, place, counted, last.game.id, oldRow.value)
    requires oldRow.None? ==> !HasCounted(init, counted, last.game.id)
    ensures Counting.AllPlaced([last], place)
    ensures RowOf(init + [last], place, counted, last.game.id,
      match oldRow
      case None => GameRow(last.game.id, last.game.date, last.game.opponent, multiset(place(last).value))
      case Some(row) => row.(counts := row.counts + multiset(place(last).value)))
  {
    var tags := init + [last];
    var id := last.game.id;
    assert tags[|init|] == last;
    TagsOfGameSnoc(init, last, id);
    Counting.FilterPlaced(tags, place, Seqs.KeyIs(GameIdOf, id));
    Counting.FilterPlaced(init, place, Seqs.KeyIs(GameIdOf, id));
    TallySnoc(TagsOfGame(init, id), last, place);
    if oldRow.Some? {
      WitnessExtends(init, last, counted, id, oldRow.value.date, oldRow.value.opponent);
    } else {
      var f := TagsOfGame(init, id);
      forall i | 0 <= i < |f| ensures !counted(f[i]) {
        Seqs.FilterMembers(init, Seqs.KeyIs(GameIdOf, id), f[i]);
        assert Seqs.KeyIs(GameIdOf, id)(f[i]) ==> f[i].game.id == id;
        var j :| 0 <= j < |init| && init[j] == f[i];
      }
      TallyOfUncounted(f, place, counted);
    }
  }

  /** The row a counted tag leaves for its game. */
  function Touched<C>(oldRow: Option<GameRow<C>>, g: GameInfo, cells: seq<C>): GameRow<C> {
    match oldRow
    case None => GameRow(g.id, g.date, g.opponent, multiset(cells))
    case Some(row) => row.(counts := row.counts + multiset(cells))
  }

  /** A step on a counted tag, seen from game `id`. */
  lemma StepCountedAt<C>(init: seq<Tag>, last: Tag, place: Tag -> Result<seq<C>>, counted: Tag -> bool, rows: Dicts.Dict<int, GameRow<C>>, id: int)
    requires SilentUnlessCounted(place, counted)
    requires Counting.AllPlaced(init + [last], place)
    requires counted(last) && place(last).Ok?
    requires Counting.AllPlaced(init, place) && Exact(init, place, counted, rows)
    ensures Dicts.HasKey(AddToRow(rows, last.game, place(last).value), id) <==> HasCounted(init + [last], counted, id)
    ensures Dicts.Get(AddToRow(rows, last.game, place(last).value), id).Some? ==>
      RowOf(init + [last], place, counted, id, Dicts.Get(AddToRow(rows, last.game, place(last).value), id).value)
  {
    var g := last.game;
    var cells := place(last).value;
    var oldRow := Dicts.Get(rows, g.id);
    var newRow := Touched(oldRow, g, cells);
    assert AddToRow(rows, g, cells) == Dicts.Put(rows, g.id, newRow);
    HasCountedSnoc(init, last, counted, id);
    Dicts.PutGet(rows, g.id, newRow, id);
    if id == g.id {
      StepTouched(init, last, place, counted, oldRow);
    } else if Dicts.Get(rows, id).Some? {
      StepUntouched(init, last, place, counted, id, Dicts.Get(rows, id).value);
    }
  }

  /** A step on a counted tag keeps the rows exact. */
  lemma StepCounted<C>(init: seq<Tag>, last: Tag, place: Tag -> Result<seq<C>>, counted: Tag -> bool, rows: Dicts.Dict<int, GameRow<C>>)
    requires SilentUnlessCounted(place, counted)
    requires Counting.AllPlaced(init + [last], place)
    requires counted(last) && place(last).Ok?
    requires Counting.AllPlaced(init, place) && Exact(init, place, counted, rows)
    ensures Exact(init + [last], place, counted, AddToRow(rows, last.game, place(last).value))
  {
    var g := last.game;
    var cells := place(last).value;
    var newRow := Touched(Dicts.Get(rows, g.id), g, cells);
    assert AddToRow(rows, g, cells) == Dicts.Put(rows, g.id, newRow);
    Dicts.PutValid(rows, g.id, newRow);
    forall id
      ensures Dicts.HasKey(AddToRow(rows, g, cells), id) <==> HasCounted(init + [last], counted, id)
      ensures Dicts.Get(AddToRow(rows, g, cells), id).Some? ==>
        RowOf(init + [last], place, counted, id, Dicts.Get(AddToRow(rows, g, cells), id).value)
    {
      StepCountedAt(init, last, place, counted, rows, id);
    }
  }

  /** A step on a tag that is not counted keeps the rows exact. */
  lemma StepSkipped<C>(init: seq<Tag>, last: Tag, place: Tag -> Result<seq<C>>, counted: Tag -> bool, rows: Dicts.Dict<int, GameRow<C>>)
    requires SilentUnlessCounted(place, counted)
    requires Counting.AllPlaced(init + [last], place)
    requires !counted(last)
    requires Counting.AllPlaced(init, place) && Exact(init, place, counted, rows)
    ensures Exact(init + [last], place, counted, rows)
  {
    var tags := init + [last];
    forall id ensures HasCounted(tags, counted, id) <==> HasCounted(init, counted, id) {
      HasCountedSnoc(init, last, counted, id);
    }
    forall id | Dicts.Get(rows, id).Some?
      ensures RowOf(tags, place, counted, id, Dicts.Get(rows, id).value)
    {
      StepUntouched(init, last, place, counted, id, Dicts.Get(rows, id).value);
    }
  }

  /** The fold keeps one row per game with a counted tag and nothing else,
      each row holding exactly the counts of its game's tags. */
  lemma {:induction false} GroupRowsExact<C>(tags: seq<Tag>, place: Tag -> Result<seq<C>>, counted: Tag -> bool)
    requires SilentUnlessCounted(place, counted)
    requires GroupRows(tags, place, counted).Ok?
    ensures Exact(tags, place, counted, GroupRows(tags, place, counted).value)
    decreases |tags|
  {
    if |tags| > 0 {
      var init := tags[..|tags| - 1];
      var last := tags[|tags| - 1];
      assert tags == init + [last];
      GroupRowsExact(init, place, counted);
      assert place(last).Ok?;
      if counted(last) {
        StepCounted(init, last, place, counted, GroupRows(init, place, counted).value);
      } else {
        StepSkipped(init, last, place, counted, GroupRows(init, place, counted).value);
      }
    }
  }

  /** Each entry of exact rows is right for its own key. */
  lemma EntriesExact<C>(tags: seq<Tag>, place: Tag -> Result<seq<C>>, counted: Tag -> bool, rows: Dicts.Dict<int, GameRow<C>>)
    requires Counting.AllPlaced(tags, place) && Exact(tags, place, counted, rows)
    ensures forall i :: 0 <= i < |rows| ==> RowOf(tags, place, counted, rows[i].0, rows[i].1)
    ensures forall i :: 0 <= i < |rows| ==> rows[i].1.gameId == rows[i].0
  {
    forall i | 0 <= i < |rows|
      ensures RowOf(tags, place, counted, rows[i].0, rows[i].1)
    {
      Dicts.GetUnique(rows, rows[i].0);
    }
  }

  /** The rows of an exact dict, in any order, are each right for their
      game, and they cover exactly the games with a counted tag. */
  lemma PermutedRowsExact<C>(tags: seq<Tag>, place: Tag -> Result<seq<C>>, counted: Tag -> bool, rows: Dicts.Dict<int, GameRow<C>>, r: seq<GameRow<C>>)
    requires Counting.AllPlaced(tags, place) && Exact(tags, place, counted, rows)
    requires multiset(r) == multiset(Dicts.Values(rows))
    ensures forall row :: row in r ==> RowOf(tags, place, counted, row.gameId, row)
    ensures forall id :: HasCounted(tags, counted, id) <==> (exists i :: 0 <= i < |r| && r[i].gameId == id)
  {
    EntriesExact(tags, place, counted, rows);
    PermutedRowsRight(tags, place, counted, rows, r);
    forall id ensures HasCounted(tags, counted, id) <==> (exists i :: 0 <= i < |r| && r[i].gameId == id) {
      PermutedRowsCover(tags, place, counted, rows, r, id);
    }
  }

  lemma PermutedRowsRight<C>(tags: seq<Tag>, place: Tag -> Result<seq<C>>, counted: Tag -> bool, rows: Dicts.Dict<int, GameRow<C>>, r: seq<GameRow<C>>)
    requires Counting.AllPlaced(tags, place)
    requires forall i :: 0 <= i < |rows| ==> RowOf(tags, place, counted, rows[i].0, rows[i].1)
    requires multiset(r) == multiset(Dicts.Values(rows))
    ensures forall row :: row in r ==> RowOf(tags, place, counted, row.gameId, row)
  {
    var vs := Dicts.Values(rows);
    forall row | row in r ensures RowOf(tags, place, counted, row.gameId, row) {
      assert row in multiset(vs);
      var i :| 0 <= i < |vs| && vs[i] == row;
    }
  }

  lemma PermutedRowsCover<C>(tags: seq<Tag>, place: Tag -> Result<seq<C>>, counted: Tag -> bool, rows: Dicts.Dict<int, GameRow<C>>, r: seq<GameRow<C>>, id: int)
    requires Counting.AllPlaced(tags, place) && Exact(tags, place, counted, rows)
    requires multiset(r) == multiset(Dicts.Values(rows))
    ensures HasCounted(tags, counted, id) <==> (exists i :: 0 <= i < |r| && r[i].gameId == id)
  {
    if HasCounted(tags, counted, id) {
      CountedGameHasRow(tags, place, counted, rows, r, id);
    }
    if exists i :: 0 <= i < |r| && r[i].gameId == id {
      var i :| 0 <= i < |r| && r[i].gameId == id;
      RowGameIsCounted(tags, place, counted, rows, r, i);
    }
  }

  lemma CountedGameHasRow<C>(tags: seq<Tag>, place: Tag -> Result<seq<C>>, counted: Tag -> bool, rows: Dicts.Dict<int, GameRow<C>>, r: seq<GameRow<C>>, id: int)
    requires Counting.AllPlaced(tags, place) && Exact(tags, place, counted, rows)
    requires multiset(r) == multiset(Dicts.Values(rows))
    requires HasCounted(tags, counted, id)
    ensures exists i :: 0 <= i < |r| && r[i].gameId == id
  {
    EntriesExact(tags, place, counted, rows);
    var vs := Dicts.Values(rows);
    assert Dicts.HasKey(rows, id);
    var i :| 0 <= i < |rows| && rows[i].0 == id;
    assert vs[i] in multiset(r);
    var j :| 0 <= j < |r| && r[j] == vs[i];
  }

  lemma RowGameIsCounted<C>(tags: seq<Tag>, place: Tag -> Result<seq<C>>, counted: Tag -> bool, rows: Dicts.Dict<int, GameRow<C>>, r: seq<GameRow<C>>, i: int)
    requires Counting.AllPlaced(tags, place) && Exact(tags, place, counted, rows)
    requires multiset(r) == multiset(Dicts.Values(rows))
    requires 0 <= i < |r|
    ensures HasCounted(tags, counted, r[i].gameId)
  {
    EntriesExact(tags, place, counted, rows);
    var vs := Dicts.Values(rows);
    assert r[i] in multiset(vs);
    var j :| 0 <= j < |vs| && vs[j] == r[i];
    assert Dicts.HasKey(rows, rows[j].0);
  }
}

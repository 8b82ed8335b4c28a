/** The team-statistics report. Each team tag records one scoring chance by
    a handful of optional text attributes and is counted in one cell of a
    fixed sheet: the row comes from the first set attribute of a row table,
    the column from the attribute that names the chance's final form, moved
    right by a shift that depends on the play result. The report holds a
    total sheet and one sheet per game.

    The package version reads its tables from a constants module that is
    not part of this model, so its functions take the tables as a
    parameter; the legacy route spells its tables out, and they are given
    here in full. */
module TeamStats {
  import opened Wrappers
  import Seqs
  import Dicts
  import Counting
  import Taxonomy

  /** A team tag: its game, its play result and the description attributes
      by name. An attribute missing from `attrs` reads as None. */
  datatype TeamTag = TeamTag(gameId: int, playResult: string, attrs: map<string, string>)

  /** Python truthiness of an attribute: present and not the empty string. */
  predicate IsSet(t: TeamTag, name: string) {
    name in t.attrs && t.attrs[name] != ""
  }

  /** Position `j` holds the first name whose attribute is set. */
  predicate IsFirstSet(names: seq<string>, t: TeamTag, j: int) {
    0 <= j < |names| && IsSet(t, names[j]) && forall k :: 0 <= k < j ==> !IsSet(t, names[k])
  }

  /** Position `j` holds the only name whose attribute is set. */
  predicate IsOnlySet(names: seq<string>, t: TeamTag, j: int) {
    0 <= j < |names| && IsSet(t, names[j]) && forall k :: 0 <= k < |names| && k != j ==> !IsSet(t, names[k])
  }

  function FirstSetFrom(names: seq<string>, t: TeamTag, i: nat): (r: Option<nat>)
    requires i <= |names|
    ensures r.None? <==> forall j :: i <= j < |names| ==> !IsSet(t, names[j])
    ensures r.Some? ==> i <= r.value < |names| && IsSet(t, names[r.value])
    ensures r.Some? ==> forall j :: i <= j < r.value ==> !IsSet(t, names[j])
    decreases |names| - i
  {
    if i == |names| then None
    else if IsSet(t, names[i]) then Some(i)
    else FirstSetFrom(names, t, i + 1)
  }

  /** The loop over attribute names that stops at the first set one. */
  function FirstSet(names: seq<string>, t: TeamTag): (r: Option<nat>)
    ensures r.None? <==> forall j :: 0 <= j < |names| ==> !IsSet(t, names[j])
    ensures forall j :: IsFirstSet(names, t, j) <==> r == Some(j)
  {
    FirstSetFrom(names, t, 0)
  }

  // ---------------------------------------------------------------- rows

  /** The row table: attribute names in priority order, each with the rows
      of its values. */
  type RowTable = seq<(string, map<string, int>)>

  function RowNames(rows: RowTable): (ns: seq<string>)
    ensures |ns| == |rows|
    ensures forall i :: 0 <= i < |rows| ==> ns[i] == rows[i].0
  {
    seq(|rows|, i requires 0 <= i < |rows| => rows[i].0)
  }

  /** `get_chance_row`: the row of the first set attribute's value; None
      when no attribute of the table is set; ValueError (the re-raised
      KeyError) when that value has no row. */
  function ChanceRow(rows: RowTable, t: TeamTag): (r: Result<Option<int>>)
    ensures r == Ok(None) <==> forall j :: 0 <= j < |rows| ==> !IsSet(t, rows[j].0)
    ensures forall j :: IsFirstSet(RowNames(rows), t, j) ==>
      r == (if t.attrs[rows[j].0] in rows[j].1 then Ok(Some(rows[j].1[t.attrs[rows[j].0]])) else Err(ValueError))
    ensures r.Err? ==> r.error == ValueError
  {
    match FirstSet(RowNames(rows), t)
    case None => Ok(None)
    case Some(j) =>
      var v := t.attrs[rows[j].0];
      if v in rows[j].1 then Ok(Some(rows[j].1[v])) else Err(ValueError)
  }

  /** The legacy route's row table. */
  const LegacyRows: RowTable := [
    ("rush_type1", map["Tasavoimainen" := 10, "Ylivoimainen" := 11, "Alivoimainen" := 12, "Läpiajo" := 13]),
    ("takeaway_type", map["HAPP/PAHP" := 15, "KAPP/KAHP" := 17, "PAPP/HAHP" := 19, "Jatkopaine" := 21]),
    ("hahp_papp_type", map["Täyttö" := 23, "Alapeli" := 25, "Yläpeli" := 27]),
    ("rebound_type", map["SHP" := 29, "Riisto/Menetys" := 29, "HAHP/PAPP" := 29]),
    ("faceoff_type", map["Hyökkäysalue" := 31, "Keskialue" := 31, "Puolustusalue" := 31]),
    ("v5v5_other_type", map["IM" := 33, "TM" := 33, "4v4" := 33]),
    ("pp_faceoff_entry_type", map["Aloitus Vasen" := 38, "Aloitus Oikea" := 38, "Haku / vastaanotto" := 38]),
    ("pp_shot_deflection_low_type1", map["Päädystä" := 40, "Siiveltä" := 41, "Keskeltä" := 42, "Viivasta" := 43]),
    ("pp_blueline_shot_type", map["Suora" := 45, "Ohjuri" := 45, "Rebound" := 45]),
    ("pp_pressure_brokenplay_type", map["Paine" := 47, "Riisto" := 47, "Brokenplay" := 47]),
    ("pp_other_type", map["Kuljetus" := 49, "Punnerrus" := 49, "Rebound" := 49]),
    ("pp_5vs3_type", map["Suora" := 51, "Ohjuri" := 51, "Rebound" := 51]),
    ("pp_av_yv_type", map["Läpiajo" := 53, "YV" := 53, "TV" := 53]),
    ("v3vs3_type", map["Aloitus" := 58, "Hallinta" := 58, "Riisto / Menetys" := 58]),
    ("ps_type", map["Laukaus" := 60, "Harhautus" := 60, "Muu" := 60])
  ]

  // ------------------------------------------------------------- columns

  /** The legacy route's column attributes, in priority order. */
  const LegacyFinalColumns: seq<string> := [
    "rush_type2", "takeaway_happ_pahp_type", "takeaway_kapp_kahp_type", "takeaway_papp_hahp_type",
    "takeaway_jatkopaine_type", "hahp_papp_taytto_type", "hahp_papp_alapeli_type", "hahp_papp_ylapeli_type",
    "rebound_type", "faceoff_type", "v5v5_other_type", "pp_faceoff_entry_type",
    "pp_shot_deflection_low_type2", "pp_blueline_shot_type", "pp_pressure_brokenplay_type", "pp_other_type",
    "pp_5vs3_type", "pp_av_yv_type", "v3vs3_type", "ps_type"
  ]

  /** The values that select column G, H and I in the legacy route. */
  const GValues: seq<string> := [
    "PAHP", "1. Paine", "Syöttö", "Pohja", "Murtautuminen", "Syöttö sisään", "Suora", "SHP",
    "Hyökkäysalue", "IM", "Aloitus Vasen", "Kesk. / Pääty.", "Paine", "Kuljetus YV", "Läpiajo",
    "Aloitus", "Laukaus"
  ]

  const HValues: seq<string> := [
    "KAHP", "2. Paine", "Kuljetus", "Half Board", "Syöttö 3:lle", "Murtautuminen sisään", "Ohjaus",
    "Riisto/Menetys", "Keskialue", "TM", "Aloitus Oikea", "Vasen Siipi", "Ohjuri", "Riisto",
    "Punnerrus", "Ohjuri", "YV", "Hallinta", "Harhautus"
  ]

  const IValues: seq<string> := [
    "Kääntö", "3. / Puolustajan Paine", "Muu", "Viiva", "Syöttö 4/5:lle", "HAHP/PAPP", "Puolustusalue",
    "4v4", "Haku / vastaanotto", "Oikea siipi", "Rebound", "Brokenplay", "TV", "Riisto / Menetys"
  ]

  /** The legacy column lists: the column attributes in priority order and
      the values that select column G, H and I. */
  datatype ColumnLists = ColumnLists(finals: seq<string>, g: seq<string>, h: seq<string>, i: seq<string>)

  const LegacyColumns := ColumnLists(LegacyFinalColumns, GValues, HValues, IValues)

  /** The legacy column of one value: the first list that holds it decides. */
  function ValueColumn(lists: ColumnLists, v: string): (r: Result<char>)
    ensures r.Ok? ==> r.value == 'G' || r.value == 'H' || r.value == 'I'
  {
    if v in lists.g then Ok('G')
    else if v in lists.h then Ok('H')
    else if v in lists.i then Ok('I')
    else Err(ValueError)
  }

  /** A value takes the first of the lists G, H and I that holds it, and
      only listed values have a column. */
  lemma ValueColumnLists(lists: ColumnLists, v: string)
    ensures ValueColumn(lists, v) == Ok('G') <==> v in lists.g
    ensures ValueColumn(lists, v) == Ok('H') <==> v !in lists.g && v in lists.h
    ensures ValueColumn(lists, v) == Ok('I') <==> v !in lists.g && v !in lists.h && v in lists.i
    ensures ValueColumn(lists, v) == Err(ValueError) <==> v !in lists.g + lists.h + lists.i
  {
  }

  /** The legacy `get_chance_column`: the column of the first set column
      attribute; RuntimeError when none is set. */
  function LegacyChanceColumn(lists: ColumnLists, t: TeamTag): (r: Result<char>)
    ensures r == Err(RuntimeError) <==> forall j :: 0 <= j < |lists.finals| ==> !IsSet(t, lists.finals[j])
    ensures forall j :: IsFirstSet(lists.finals, t, j) ==> r == ValueColumn(lists, t.attrs[lists.finals[j]])
  {
    match FirstSet(lists.finals, t)
    case None => Err(RuntimeError)
    case Some(j) => ValueColumn(lists, t.attrs[lists.finals[j]])
  }

  /** The package `get_chance_column`: collects the set column attributes
      and insists on exactly one, whose value the column map then looks up. */
  function ChanceColumn(finals: seq<string>, columns: map<string, char>, t: TeamTag): (r: Result<char>)
  {
    var found := Seqs.Filter(finals, (name: string) => IsSet(t, name));
    if |found| != 1 then Err(RuntimeError)
    else
      var v := t.attrs[found[0]];
      if v in columns then Ok(columns[v]) else Err(KeyError)
  }

  /** No set column attribute and two set ones both raise RuntimeError;
      with exactly one, its value is looked up (KeyError when absent). */
  lemma ChanceColumnCases(finals: seq<string>, columns: map<string, char>, t: TeamTag)
    ensures (forall j :: 0 <= j < |finals| ==> !IsSet(t, finals[j])) ==> ChanceColumn(finals, columns, t) == Err(RuntimeError)
    ensures forall j, k :: 0 <= j < k < |finals| && IsSet(t, finals[j]) && IsSet(t, finals[k]) ==>
      ChanceColumn(finals, columns, t) == Err(RuntimeError)
    ensures forall j :: IsOnlySet(finals, t, j) ==>
      ChanceColumn(finals, columns, t)
        == (if t.attrs[finals[j]] in columns then Ok(columns[t.attrs[finals[j]]]) else Err(KeyError))
  {
    var p := (name: string) => IsSet(t, name);
    Seqs.FilterEmpty(finals, p);
    forall j, k | 0 <= j < k < |finals| && IsSet(t, finals[j]) && IsSet(t, finals[k])
      ensures ChanceColumn(finals, columns, t) == Err(RuntimeError)
    {
      Seqs.FilterTwo(finals, p, j, k);
    }
    forall j | IsOnlySet(finals, t, j)
      ensures ChanceColumn(finals, columns, t)
        == (if t.attrs[finals[j]] in columns then Ok(columns[t.attrs[finals[j]]]) else Err(KeyError))
    {
      Seqs.FilterOnly(finals, p, j);
    }
  }

  // --------------------------------------------------------------- shifts

  /** The package `get_result_column_shifter`: the play result's shift from
      the shift map; ValueError when the map has none (a shift of 0 is a
      shift, not a miss). */
  function ResultShift(shifts: map<string, int>, t: TeamTag): (r: Result<int>)
  {
    if t.playResult in shifts then Ok(shifts[t.playResult]) else Err(ValueError)
  }

  const LegacyShifts: map<string, int> := map["Maali +" := 0, "Maali -" := 3, "MP +" := 6, "MP -" := 9]

  /** The legacy `get_result_column_shifter`. */
  function LegacyResultShift(t: TeamTag): (r: Result<int>)
    ensures r.Ok? ==> r.value == 0 || r.value == 3 || r.value == 6 || r.value == 9
  {
    if t.playResult == "Maali +" then Ok(0)
    else if t.playResult == "Maali -" then Ok(3)
    else if t.playResult == "MP +" then Ok(6)
    else if t.playResult == "MP -" then Ok(9)
    else Err(ValueError)
  }

  /** Goals and scoring chances, for and against, take the four column
      groups in that order; every other result, shots included, is
      rejected. The legacy chain is the shift map read with `.get`. */
  lemma LegacyShiftByResult(t: TeamTag)
    ensures LegacyResultShift(t) == ResultShift(LegacyShifts, t)
    ensures LegacyResultShift(t) == Ok(0) <==> Taxonomy.ParseResult(t.playResult) == Some(Taxonomy.GoalFor)
    ensures LegacyResultShift(t) == Ok(3) <==> Taxonomy.ParseResult(t.playResult) == Some(Taxonomy.GoalAgainst)
    ensures LegacyResultShift(t) == Ok(6) <==> Taxonomy.ParseResult(t.playResult) == Some(Taxonomy.ChanceFor)
    ensures LegacyResultShift(t) == Ok(9) <==> Taxonomy.ParseResult(t.playResult) == Some(Taxonomy.ChanceAgainst)
    ensures LegacyResultShift(t).Err? ==> LegacyResultShift(t).error == ValueError
  {
  }

  // ---------------------------------------------------------------- cells

  /** A sheet cell: the column's code point and the row. The source keys a
      count by the text of the column letter followed by the row, where a
      missing row prints as "None"; since the letter is one character, the
      pair determines the key and back. */
  datatype TeamCell = TeamCell(col: int, row: Option<int>)

  const MaxCodePoint := 0x10FFFF

  /** The tables a placement reads. */
  datatype TeamTables = TeamTables(rows: RowTable, finals: seq<string>, columns: map<string, char>, shifts: map<string, int>)

  /** One tag's cell in the package version: row, then column, then shift,
      each raising as above, and `chr` of the shifted column raising
      ValueError outside the code-point range. */
  function PlaceTag(tb: TeamTables, t: TeamTag): (r: Result<TeamCell>)
  {
    match ChanceRow(tb.rows, t)
    case Err(e) => Err(e)
    case Ok(row) =>
      match ChanceColumn(tb.finals, tb.columns, t)
      case Err(e) => Err(e)
      case Ok(col) =>
        match ResultShift(tb.shifts, t)
        case Err(e) => Err(e)
        case Ok(shift) =>
          if 0 <= col as int + shift <= MaxCodePoint then Ok(TeamCell(col as int + shift, row))
          else Err(ValueError)
  }

  /** One tag's cell in the legacy route, from its row table and column
      lists. */
  function LegacyPlaceTag(rows: RowTable, lists: ColumnLists, t: TeamTag): (r: Result<TeamCell>)
  {
    match ChanceRow(rows, t)
    case Err(e) => Err(e)
    case Ok(row) =>
      match LegacyChanceColumn(lists, t)
      case Err(e) => Err(e)
      case Ok(col) =>
        match LegacyResultShift(t)
        case Err(e) => Err(e)
        case Ok(shift) => Ok(TeamCell(col as int + shift, row))
  }

  /** The legacy sheet has twelve count columns, G to R: column group G, H
      or I, moved by 0, 3, 6 or 9 for the play result. Each of the twelve
      columns belongs to one column group and one result, so a legacy cell
      tells both back. */
  lemma LegacyCellDecodes(rows: RowTable, lists: ColumnLists, t: TeamTag)
    requires LegacyPlaceTag(rows, lists, t).Ok?
    ensures 'G' as int <= LegacyPlaceTag(rows, lists, t).value.col <= 'R' as int
    ensures var d := LegacyPlaceTag(rows, lists, t).value.col - 'G' as int;
      LegacyChanceColumn(lists, t) == Ok(('G' as int + d % 3) as char) && LegacyResultShift(t) == Ok(d / 3 * 3)
    ensures LegacyPlaceTag(rows, lists, t).value.row == ChanceRow(rows, t).value
  {
    ShiftedColumnDecodes(LegacyChanceColumn(lists, t).value, LegacyResultShift(t).value);
  }

  lemma ShiftedColumnDecodes(col: char, shift: int)
    requires col == 'G' || col == 'H' || col == 'I'
    requires shift == 0 || shift == 3 || shift == 6 || shift == 9
    ensures var d := col as int + shift - 'G' as int;
      0 <= d < 12 && col == ('G' as int + d % 3) as char && shift == d / 3 * 3
  {
  }

  /** Column lists as the package's value-to-column map. */
  function ColumnMap(lists: ColumnLists): (m: map<string, char>)
    ensures forall v :: v in m <==> v in lists.g + lists.h + lists.i
    ensures forall v :: v in m ==> ValueColumn(lists, v) == Ok(m[v])
  {
    map v | v in lists.g + lists.h + lists.i :: if v in lists.g then 'G' else if v in lists.h then 'H' else 'I'
  }

  /** Legacy tables in the package's shape. */
  function AsPackageTables(rows: RowTable, lists: ColumnLists): TeamTables {
    TeamTables(rows, lists.finals, ColumnMap(lists), LegacyShifts)
  }

  /** Given the legacy tables, the package places every tag with at most one
      column attribute set where the legacy route does, and fails on the
      same tags. The two differ on a tag with two column attributes set:
      the package raises RuntimeError where the legacy route takes the
      first. */
  lemma PlaceTagVersionsAgree(rows: RowTable, lists: ColumnLists, t: TeamTag)
    requires forall j, k :: 0 <= j < k < |lists.finals| && IsSet(t, lists.finals[j]) ==> !IsSet(t, lists.finals[k])
    ensures PlaceTag(AsPackageTables(rows, lists), t).Ok? <==> LegacyPlaceTag(rows, lists, t).Ok?
    ensures PlaceTag(AsPackageTables(rows, lists), t).Ok? ==>
      PlaceTag(AsPackageTables(rows, lists), t).value == LegacyPlaceTag(rows, lists, t).value
  {
    var tb := AsPackageTables(rows, lists);
    var finals := lists.finals;
    LegacyShiftByResult(t);
    ChanceColumnCases(finals, tb.columns, t);
    match FirstSet(finals, t)
    case None =>
    case Some(j) =>
      assert IsFirstSet(finals, t, j);
      assert IsOnlySet(finals, t, j) by {
        forall k | 0 <= k < |finals| && k != j ensures !IsSet(t, finals[k]) {
          if k > j {
            assert !IsSet(t, finals[k]);
          }
        }
      }
      ValueColumnLists(lists, t.attrs[finals[j]]);
  }

  /** A package table whose column group of two set attributes raises,
      where the legacy route counts the tag under the first. */
  lemma PackageRejectsTwoColumns(tb: TeamTables, t: TeamTag, j: int, k: int)
    requires 0 <= j < k < |tb.finals| && IsSet(t, tb.finals[j]) && IsSet(t, tb.finals[k])
    requires ChanceRow(tb.rows, t).Ok?
    ensures PlaceTag(tb, t) == Err(RuntimeError)
  {
    ChanceColumnCases(tb.finals, tb.columns, t);
  }

  // ------------------------------------------------------------- counting

  /** One tag's placement as a list of cells, for the counting fold. */
  function AsCells(place: TeamTag -> Result<TeamCell>): TeamTag -> Result<seq<TeamCell>> {
    (t: TeamTag) => match place(t) case Ok(c) => Ok([c]) case Err(e) => Err(e)
  }

  /** `calculate_numbers_for_cells`: every tag adds 1 to its cell; the first
      tag that cannot be placed aborts the count with its error. */
  function CellNumbers(place: TeamTag -> Result<TeamCell>, tags: seq<TeamTag>): (r: Result<multiset<TeamCell>>)
    ensures r.Ok? <==> forall i :: 0 <= i < |tags| ==> place(tags[i]).Ok?
  {
    assert Counting.AllPlaced(tags, AsCells(place)) <==> forall i :: 0 <= i < |tags| ==> place(tags[i]).Ok?;
    Counting.Tally(tags, AsCells(place))
  }

  /** The tags whose cell is `c`. */
  function PlacedAt(place: TeamTag -> Result<TeamCell>, c: TeamCell): TeamTag -> bool {
    (t: TeamTag) => place(t) == Ok(c)
  }

  /** A cell's number is how many tags fall in it, and the numbers add up to
      the number of tags. */
  lemma CellNumbersCount(place: TeamTag -> Result<TeamCell>, tags: seq<TeamTag>, c: TeamCell)
    requires CellNumbers(place, tags).Ok?
    ensures CellNumbers(place, tags).value[c] == |Seqs.Filter(tags, PlacedAt(place, c))|
    ensures |CellNumbers(place, tags).value| == |tags|
  {
    var cells := AsCells(place);
    Counting.TallyIndicator(tags, cells, c, PlacedAt(place, c));
    var never := (t: TeamTag) => false;
    Counting.TallySizeBy(tags, cells, never);
    Seqs.FilterNone(tags, never);
  }

  /** The count fails with the error of the first tag that cannot be placed. */
  lemma CellNumbersFirstError(place: TeamTag -> Result<TeamCell>, tags: seq<TeamTag>, i: int)
    requires 0 <= i < |tags| && place(tags[i]).Err?
    requires forall j :: 0 <= j < i ==> place(tags[j]).Ok?
    ensures CellNumbers(place, tags) == Err(place(tags[i]).error)
  {
    Counting.TallyFirstError(tags, AsCells(place), i);
  }

  // ------------------------------------------------------------- grouping

  function GameOf(t: TeamTag): int {
    t.gameId
  }

  /** The tags of one game, in their order. */
  function TagsOfGame(tags: seq<TeamTag>, g: int): seq<TeamTag> {
    Seqs.Filter(tags, Seqs.KeyIs(GameOf, g))
  }

  /** `get_games_stats_dict`: appends every tag to the list of its game,
      games in the order of their first tag. */
  function GamesStatsDict(tags: seq<TeamTag>): (d: Dicts.Dict<int, seq<TeamTag>>)
    ensures Dicts.Valid(d)
    decreases |tags|
  {
    if |tags| == 0 then []
    else
      var d := GamesStatsDict(tags[..|tags| - 1]);
      var t := tags[|tags| - 1];
      var group := Dicts.Get(d, t.gameId).GetOr([]) + [t];
      Dicts.PutValid(d, t.gameId, group);
      Dicts.Put(d, t.gameId, group)
  }

  /** The list of game `g` after the tags `tags`, as a dict lookup gives it. */
  function GroupAfter(tags: seq<TeamTag>, g: int): Option<seq<TeamTag>> {
    if |TagsOfGame(tags, g)| == 0 then None else Some(TagsOfGame(tags, g))
  }

  /** A game has a list exactly when some tag belongs to it, and its list
      holds that game's tags in their order. */
  lemma {:induction false} GamesStatsDictGet(tags: seq<TeamTag>, g: int)
    ensures Dicts.Get(GamesStatsDict(tags), g) == GroupAfter(tags, g)
    decreases |tags|
  {
    if |tags| > 0 {
      var init := tags[..|tags| - 1];
      var t := tags[|tags| - 1];
      assert tags == init + [t];
      GamesStatsDictGet(init, g);
      GamesStatsDictGet(init, t.gameId);
      AppendStep(GamesStatsDict(init), init, t, g);
    }
  }

  lemma AppendStep(d: Dicts.Dict<int, seq<TeamTag>>, init: seq<TeamTag>, t: TeamTag, g: int)
    requires Dicts.Valid(d)
    requires Dicts.Get(d, g) == GroupAfter(init, g)
    requires Dicts.Get(d, t.gameId) == GroupAfter(init, t.gameId)
    ensures Dicts.Get(Dicts.Put(d, t.gameId, Dicts.Get(d, t.gameId).GetOr([]) + [t]), g) == GroupAfter(init + [t], g)
  {
    var group := Dicts.Get(d, t.gameId).GetOr([]) + [t];
    Dicts.PutGet(d, t.gameId, group, g);
    TagsOfGameSnoc(init, t, g);
    var f := TagsOfGame(init, g);
    if t.gameId == g {
      assert group == f + [t] by {
        if |f| == 0 {
          assert f == [];
        }
      }
      assert TagsOfGame(init + [t], g) == f + [t];
      assert GroupAfter(init + [t], g) == Some(f + [t]);
    } else {
      assert TagsOfGame(init + [t], g) == f;
      assert GroupAfter(init + [t], g) == GroupAfter(init, g);
    }
  }

  lemma TagsOfGameSnoc(init: seq<TeamTag>, t: TeamTag, g: int)
    ensures TagsOfGame(init + [t], g) == TagsOfGame(init, g) + (if t.gameId == g then [t] else [])
  {
    assert (init + [t])[..|init|] == init;
    assert Seqs.KeyIs(GameOf, g)(t) == (t.gameId == g);
  }

  /** The lists hold every tag once: their lengths add up to the number of
      tags. */
  lemma {:induction false} GamesStatsDictSizes(tags: seq<TeamTag>)
    ensures Seqs.Sum(Dicts.Values(GamesStatsDict(tags)), GroupLength) == |tags|
    decreases |tags|
  {
    if |tags| > 0 {
      var init := tags[..|tags| - 1];
      GamesStatsDictSizes(init);
      SizesStep(GamesStatsDict(init), tags[|tags| - 1]);
    }
  }

  function GroupLength(v: seq<TeamTag>): nat {
    |v|
  }

  /** Appending one tag to its game's list lengthens the lists by one. */
  lemma SizesStep(d: Dicts.Dict<int, seq<TeamTag>>, t: TeamTag)
    requires Dicts.Valid(d)
    ensures Seqs.Sum(Dicts.Values(Dicts.Put(d, t.gameId, Dicts.Get(d, t.gameId).GetOr([]) + [t])), GroupLength)
      == Seqs.Sum(Dicts.Values(d), GroupLength) + 1
  {
    var group := Dicts.Get(d, t.gameId).GetOr([]) + [t];
    if Dicts.HasKey(d, t.gameId) {
      var i :| 0 <= i < |d| && d[i].0 == t.gameId;
      Dicts.PutValuesAt(d, t.gameId, group, i);
      Dicts.GetUnique(d, t.gameId);
      Seqs.SumUpdate(Dicts.Values(d), GroupLength, i, group);
    } else {
      Dicts.PutValuesNew(d, t.gameId, group);
      Seqs.SumAppend(Dicts.Values(d), [group], GroupLength);
      assert Seqs.Sum([group], GroupLength) == |group| by {
        assert [group][..0] == [];
      }
    }
  }

  // --------------------------------------------------------------- report

  /** The report's counts: the total sheet and one sheet per game list,
      each with its game, in the order of the game lists. */
  datatype TeamSheets = TeamSheets(total: multiset<TeamCell>, games: seq<(int, multiset<TeamCell>)>)

  /** `build_team_stats_workbook` after the tags are grouped: the total
      sheet counts all tags, and each game list gets a sheet counting its
      own tags. The total is counted first, so its error is the report's. */
  function TeamReport(place: TeamTag -> Result<TeamCell>, tags: seq<TeamTag>): (r: Result<TeamSheets>)
    ensures r.Ok? <==> forall i :: 0 <= i < |tags| ==> place(tags[i]).Ok?
    ensures r.Ok? ==> r.value.total == CellNumbers(place, tags).value
  {
    match CellNumbers(place, tags)
    case Err(e) => Err(e)
    case Ok(total) =>
      var d := GamesStatsDict(tags);
      Ok(TeamSheets(total, seq(|d|, i requires 0 <= i < |d| => (d[i].0, Counting.BagOf(CellNumbers(place, d[i].1))))))
  }

  /** The package placement, with its tables. */
  function PackagePlacement(tb: TeamTables): TeamTag -> Result<TeamCell> {
    (t: TeamTag) => PlaceTag(tb, t)
  }

  /** The legacy route's placement, with its inline tables. */
  function LegacyPlacement(): TeamTag -> Result<TeamCell> {
    (t: TeamTag) => LegacyPlaceTag(LegacyRows, LegacyColumns, t)
  }

  /** The union of the game sheets. */
  function SheetSum(games: seq<(int, multiset<TeamCell>)>): multiset<TeamCell>
    decreases |games|
  {
    if |games| == 0 then multiset{} else SheetSum(games[..|games| - 1]) + games[|games| - 1].1
  }

  /** Game sheet `i` counts exactly the tags of its game. */
  lemma TeamSheetCountsGame(place: TeamTag -> Result<TeamCell>, tags: seq<TeamTag>, i: int)
    requires TeamReport(place, tags).Ok?
    requires 0 <= i < |TeamReport(place, tags).value.games|
    ensures CellNumbers(place, TagsOfGame(tags, TeamReport(place, tags).value.games[i].0))
      == Ok(TeamReport(place, tags).value.games[i].1)
  {
    var d := GamesStatsDict(tags);
    GroupIsGame(tags, i);
    Counting.FilterPlaced(tags, AsCells(place), Seqs.KeyIs(GameOf, d[i].0));
  }

  /** The game sheets belong to distinct games, and every tag's game has
      one. */
  lemma TeamSheetsCoverGames(place: TeamTag -> Result<TeamCell>, tags: seq<TeamTag>)
    requires TeamReport(place, tags).Ok?
    ensures forall i, j :: 0 <= i < j < |TeamReport(place, tags).value.games| ==>
      TeamReport(place, tags).value.games[i].0 != TeamReport(place, tags).value.games[j].0
    ensures forall i :: 0 <= i < |tags| ==>
      exists j :: 0 <= j < |TeamReport(place, tags).value.games| && TeamReport(place, tags).value.games[j].0 == tags[i].gameId
  {
    var d := GamesStatsDict(tags);
    var games := TeamReport(place, tags).value.games;
    SheetsFollowGroups(place, tags);
    forall i | 0 <= i < |tags| ensures exists j :: 0 <= j < |games| && games[j].0 == tags[i].gameId {
      EveryGameListed(tags, i);
      var j :| 0 <= j < |d| && d[j].0 == tags[i].gameId;
      assert games[j].0 == tags[i].gameId;
    }
  }

  /** The game sheets follow the game lists, one for one. */
  lemma SheetsFollowGroups(place: TeamTag -> Result<TeamCell>, tags: seq<TeamTag>)
    requires TeamReport(place, tags).Ok?
    ensures |TeamReport(place, tags).value.games| == |GamesStatsDict(tags)|
    ensures forall i :: 0 <= i < |GamesStatsDict(tags)| ==> TeamReport(place, tags).value.games[i].0 == GamesStatsDict(tags)[i].0
  {
  }

  /** The list at position `i` is the tags of its game. */
  lemma GroupIsGame(tags: seq<TeamTag>, i: int)
    requires 0 <= i < |GamesStatsDict(tags)|
    ensures GamesStatsDict(tags)[i].1 == TagsOfGame(tags, GamesStatsDict(tags)[i].0)
  {
    var d := GamesStatsDict(tags);
    Dicts.GetUnique(d, d[i].0);
    GamesStatsDictGet(tags, d[i].0);
  }

  /** Every tag's game has a list. */
  lemma EveryGameListed(tags: seq<TeamTag>, i: int)
    requires 0 <= i < |tags|
    ensures exists j :: 0 <= j < |GamesStatsDict(tags)| && GamesStatsDict(tags)[j].0 == tags[i].gameId
  {
    GamesStatsDictGet(tags, tags[i].gameId);
    Seqs.FilterMembers(tags, Seqs.KeyIs(GameOf, tags[i].gameId), tags[i]);
  }

  /** The game sheets add up to the total sheet: grouping by game loses and
      repeats no tag. */
  lemma TeamReportAddsUp(place: TeamTag -> Result<TeamCell>, tags: seq<TeamTag>)
    requires TeamReport(place, tags).Ok?
    ensures SheetSum(TeamReport(place, tags).value.games) == TeamReport(place, tags).value.total
  {
    var d := GamesStatsDict(tags);
    var games := TeamReport(place, tags).value.games;
    var keys := Dicts.Keys(d);
    assert SheetSum(games) == Counting.GroupSum(tags, keys, GameOf, AsCells(place)) by {
      SheetPrefix(place, tags, |d|);
      assert games[..|d|] == games;
      assert keys[..|d|] == keys;
    }
    forall i | 0 <= i < |tags| ensures GameOf(tags[i]) in keys {
      EveryGameListed(tags, i);
    }
    Counting.GroupSumTotal(tags, keys, GameOf, AsCells(place));
  }

  /** The first `n` game sheets add up to the counts of the first `n` games. */
  lemma {:induction false} SheetPrefix(place: TeamTag -> Result<TeamCell>, tags: seq<TeamTag>, n: nat)
    requires TeamReport(place, tags).Ok?
    requires n <= |GamesStatsDict(tags)|
    ensures SheetSum(TeamReport(place, tags).value.games[..n])
      == Counting.GroupSum(tags, Dicts.Keys(GamesStatsDict(tags))[..n], GameOf, AsCells(place))
  {
    var d := GamesStatsDict(tags);
    var games := TeamReport(place, tags).value.games;
    var keys := Dicts.Keys(d)[..n];
    if n > 0 {
      SheetPrefix(place, tags, n - 1);
      assert games[..n][..n - 1] == games[..n - 1];
      assert keys[..n - 1] == Dicts.Keys(d)[..n - 1];
      SheetOfGame(place, tags, n - 1);
    }
  }

  /** Game sheet `i` is the tally of its game's tags. */
  lemma SheetOfGame(place: TeamTag -> Result<TeamCell>, tags: seq<TeamTag>, i: nat)
    requires TeamReport(place, tags).Ok?
    requires i < |GamesStatsDict(tags)|
    ensures TeamReport(place, tags).value.games[i].1
      == Counting.BagOf(Counting.Tally(Seqs.Filter(tags, Seqs.KeyIs(GameOf, Dicts.Keys(GamesStatsDict(tags))[i])), AsCells(place)))
  {
    GroupIsGame(tags, i);
  }
}

/** The games picker of the report screens: the home/away filter, the
    sort-direction toggle of the column headers, and selecting all or
    none of the games shown. */
module GamesSelector {
  import opened Wrappers
  import Seqs

  /** A game as listed; `home` is null for a game whose venue is unknown. */
  datatype Game = Game(id: int, home: Option<bool>, opponent: string, date: string)

  // ------------------------------------------------------------ filter

  /** The home/away choice in force: a change of the home filter brings
      its new value, any other change keeps the current one. */
  function FilterInForce(filter: string, value: string, current: string): (r: string)
    ensures filter == "home" ==> r == value
    ensures filter != "home" ==> r == current
  {
    if filter == "home" then value else current
  }

  /** Whether a game is shown under a home/away choice: "HOME" shows the
      games with `home === true`, "AWAY" those with `home === false`, and
      every other choice shows all games. */
  predicate Shown(choice: string, g: Game) {
    match choice
    case "HOME" => g.home == Some(true)
    case "AWAY" => g.home == Some(false)
    case _ => true
  }

  function HomeIs(b: bool): Game -> bool {
    (g: Game) => g.home == Some(b)
  }

  /** `filterHome`. */
  function FilterHome(games: seq<Game>, filter: string, value: string, current: string): (r: seq<Game>)
    ensures var choice := FilterInForce(filter, value, current);
      choice != "HOME" && choice != "AWAY" ==> r == games
  {
    var choice := FilterInForce(filter, value, current);
    if choice == "BOTH" then games
    else if choice == "HOME" then Seqs.Filter(games, HomeIs(true))
    else if choice == "AWAY" then Seqs.Filter(games, HomeIs(false))
    else games
  }

  /** The filter keeps the games it shows, each as often as it was listed
      and in the listed order, and drops all others. */
  lemma FilterHomeExact(games: seq<Game>, filter: string, value: string, current: string, g: Game)
    ensures var choice := FilterInForce(filter, value, current);
      var r := FilterHome(games, filter, value, current);
      Seqs.IsSubseq(r, games)
      && multiset(r)[g] == (if Shown(choice, g) then multiset(games)[g] else 0)
      && (g in r <==> g in games && Shown(choice, g))
  {
    var choice := FilterInForce(filter, value, current);
    var r := FilterHome(games, filter, value, current);
    if choice == "HOME" || choice == "AWAY" {
      var p := HomeIs(choice == "HOME");
      assert r == Seqs.Filter(games, p);
      Seqs.FilterIsSubseq(games, p);
      Seqs.FilterCount(games, p, g);
      Seqs.FilterMembers(games, p, g);
    } else {
      Seqs.SubseqRefl(games);
    }
  }

  /** A game whose venue is unknown is shown only when neither side is
      chosen. */
  lemma UnknownVenueShown(games: seq<Game>, filter: string, value: string, current: string, g: Game)
    requires g in games && g.home.None?
    ensures var choice := FilterInForce(filter, value, current);
      g in FilterHome(games, filter, value, current) <==> choice != "HOME" && choice != "AWAY"
  {
    FilterHomeExact(games, filter, value, current, g);
  }

  // -------------------------------------------------------------- sort

  /** The column the list is sorted by, and the direction. */
  datatype SortState = SortState(column: string, direction: string)

  /** `handleSort`: descending when the column sorted ascending is clicked
      again, ascending otherwise. */
  function HandleSort(s: SortState, column: string): (r: SortState)
    ensures r.column == column
    ensures r.direction == "DESC" <==> s.column == column && s.direction == "ASC"
    ensures r.direction == "ASC" <==> !(s.column == column && s.direction == "ASC")
  {
    if column == s.column && s.direction == "ASC" then SortState(column, "DESC")
    else SortState(column, "ASC")
  }

  /** Clicking the same column again flips the direction, so the third
      click leaves the list as the first did. */
  lemma SortToggles(s: SortState, column: string)
    ensures HandleSort(HandleSort(s, column), column).direction != HandleSort(s, column).direction
    ensures HandleSort(HandleSort(HandleSort(s, column), column), column) == HandleSort(s, column)
  {
  }

  /** A click on another column always sorts ascending. */
  lemma NewColumnAscends(s: SortState, column: string)
    requires column != s.column
    ensures HandleSort(s, column) == SortState(column, "ASC")
  {
  }

  // --------------------------------------------------------- selection

  function Id(g: Game): int {
    g.id
  }

  /** `selectAll`: the ids of the games shown, in their order. */
  function SelectAll(shown: seq<Game>): (r: seq<int>)
    ensures |r| == |shown|
  {
    Seqs.Map(shown, Id)
  }

  /** After filtering, selecting all selects exactly the ids of the games
      the filter shows. */
  lemma SelectAllShown(games: seq<Game>, filter: string, value: string, current: string, id: int)
    ensures var choice := FilterInForce(filter, value, current);
      id in SelectAll(FilterHome(games, filter, value, current))
      <==> exists g :: g in games && Shown(choice, g) && g.id == id
  {
    var choice := FilterInForce(filter, value, current);
    var r := FilterHome(games, filter, value, current);
    var ids := SelectAll(r);
    if id in ids {
      var i :| 0 <= i < |ids| && ids[i] == id;
      FilterHomeExact(games, filter, value, current, r[i]);
    }
    if exists g :: g in games && Shown(choice, g) && g.id == id {
      var g :| g in games && Shown(choice, g) && g.id == id;
      FilterHomeExact(games, filter, value, current, g);
      var i :| 0 <= i < |r| && r[i] == g;
      assert ids[i] == id;
    }
  }

  /** `resetSelection`. */
  function ResetSelection(): (r: seq<int>)
    ensures forall id :: id !in r
  {
    []
  }
}

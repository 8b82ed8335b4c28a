# Scoring-app report engine, modelled in Dafny

The scoring app records hockey shot events ("tags": result, area, shot type,
net spot, strength label, shooter, the players on the ice and the players
participating) and turns them into spreadsheet reports. This project models
the aggregation engine behind those reports as pure functions over sequences
of tags, and proves what the reports contain.

- `Taxonomy`, `ResultSets`, `Outcome`: the result, area, shot-type,
  strength and net enumerations with their labels; the FOR/AGAINST/GOAL
  classification sets and the analysis toggles; the 2 x 2 outcome offset
  shared by every collector and the map-result expansion.
- `Counting` (tally.dfy): a spreadsheet counter (`defaultdict(int)` keyed by
  cell) is a `multiset<Cell>`; every collector is one `Tally` of a per-tag
  placement that may fail with the Python error it would raise.
- `GameCollectors`, `GameCellCounts`, `MapPoints`, `GameSheets`,
  `GameTotals`, `GameSelection`: the team game report (shot zones, shot
  types, net zones, strengths, map points; the total sheet and the per-game
  sheets; game selection by an id list), for both the package and the
  legacy route version.
- `PlayerCollectors`, `PlayerOnIce`, `PlayerGameRows`, `GameGroups`,
  `PlayersToAnalyze`, `PlayerSheets`, `PlayerReport`: the player report
  (shooter-centred sections, on-ice and participation strength blocks,
  per-game rows with the double-letter column wrap, the roster and tag
  dictionary, one sheet per player), again for both versions.
- `PlusMinusKeys`, `PlusMinusNames`, `PlusMinusDomain`, `PlusMinusUtils`,
  `PlusMinusEntries`, `PlusMinusGames`, `PlusMinusLegacy`: the plus-minus
  report. A player's counters are indexed by `StatCell(strength, role,
  result)` over the three counted strengths, on-ice or participating, and
  the four goal and chance results, rather than by the source's strings
  such as "PP-OIG+"; `StatKey` renders a cell as that string and the keys
  module proves it a bijection onto the 24 listed keys, so a counter map
  keyed by cells is the source's dictionary keyed by strings. The module
  covers the package's dictionary-based aggregation, the player-object
  version of the same counts, the column tables, the display names and
  the legacy route. Display names use the initials rule as the code
  writes it; the corrected rule (see Findings) builds a roster beside it,
  and the two agree whenever no player has two namesakes.
- `TeamStats`: the team-statistics report. A team tag is a game id, a
  play result and a map of text attributes (a missing one reads as None);
  its cell's row comes from the first set attribute of a row table, its
  column group (G, H or I) from the attribute naming the chance's final
  form, moved right by 0, 3, 6 or 9 for the result. The package functions
  take their tables as a parameter; the legacy route's tables are spelled
  out, and the legacy report is `TeamReport` with `LegacyPlacement()`.
- `Dashboard`: the dashboard figures of a game. Zone and player counters
  are one goal-and-chance record (`ZoneData`) folded tag by tag; ice-zone
  keys split the four mirrored areas at x = 50, and `ParseIceZone` reads a
  key back to the zone it names. Each game has the all-tags figures and the
  even-strength, power-play and penalty-kill situations.
- `Counters`, `Analysis`: the analysis view. The comma-separated request
  lists are parsed as the handler does (digit tokens for ids, stripped
  non-blank tokens for names); the database query becomes a filter over
  the stored tags; the result toggles, totals, per-key buckets (counter
  dictionaries in first-seen key order), crossice buckets, heat-map points
  and net bins are computed over the tags that remain.
- `CellMaps`: a written sheet is a `map<Cell, nat>` merged with Python's
  `{**a, **b}` (later part wins).
- `RosterScraper`, `RosterNames`, `RosterClean`, `RosterCells`,
  `RosterSlots`: the game-page roster scraper. A cell's raw text is split
  into stripped lines, up to two leading jersey numbers are dropped, the
  trailing role tag ((AM), (H), (P), any case) is read, and the display
  name is formed (an all-caps first line is the surname and goes last,
  words title-cased, one leading number removed, whitespace runs
  collapsed); inner role tags are then cleaned out of the name. A page is
  a map from element ids to cell texts, and the scrape writes each named
  cell into a dictionary keyed by "line-position" slots, with the extra
  cell at line 4, code 2 routed by its tag. The scrape takes the way a
  cell is read as a parameter: `AsWritten` as the code reads it, or
  `Peeled`, the corrected reading that takes the tag off the name (see
  Findings).
- `Participants`: the participants question of the tagging screen, whose
  clicks cycle a player from off the ice to on the ice to participating
  and back.
- `RosterSpots`, `RosterEditor`: the 25-spot roster template of a new
  game, the "line-position" spot names, and the roster editor's
  operations (assign the clicked player to the selected spot and move the
  selection on, empty a spot, fill from a scraped lineup, compare with the
  saved roster, cancel).
- `GamesSelector`: the home/away filter, the sort-direction toggle and
  select-all/none of the report screens' game list.
- Generic helpers: `Wrappers` (Result/Option, `MapAll`), `Seqs`, `Dicts`
  (insertion-ordered dictionaries as association lists), `Sorting` (stable
  sort), `Text` (the Python string methods the code relies on),
  `SheetColumns` (column letters).

Cells are `Cell(col, row)` with `col` the code point of the column letter,
so `chr(ord(c) + k)` is plain addition. Python exceptions are the
`Error` values `KeyError`, `AttributeError`, `ValueError`, `IndexError`,
`RuntimeError` and `TypeError`; the analysis view's HTTP 400 is
`BadRequest`, and the web framework's refusal of an answer that does not
fit the declared response model is `ResponseValidation`. Database queries are replaced by their results: the model
takes the team's games, rosters and tags as inputs.

## Model

| member | source | states |
|---|---|---|
| Outcome.OutcomeAdjustment | backend/routes/excel/excel_utils.py:35-47 | the row shift is 1 exactly for goals and the column shift 1 exactly for "against" goals and chances; anything else stays at the block origin |
| Outcome.AdjustmentInjective | backend/routes/excel/excel_utils.py:39-45 | the four goal and chance results land on four different cells of the 2 x 2 block |
| Outcome.ShotsShareChanceForCell | backend/routes/excel/game_stats.py:53-65 | a plain shot falls through to the same cell as an own scoring chance |
| Outcome.MapResultMapping | backend/routes/excel/stats_utils.py:14-19 | only goals and chances have an entry; a goal expands to its side's chance and itself, a chance to itself |
| ResultSets.Partition | backend/utils.py:36-48 | FOR and AGAINST split the results, and goal, chance and shot are mutually exclusive and exhaustive |
| ResultSets.SideOf | backend/utils.py:50-52 | "FOR" exactly for FOR results, "AGAINST" exactly for the others |
| ResultSets.AllowResult | backend/utils.py:57-80 | each result is shown exactly when its own toggle is on |
| ResultSets.DefaultsAllowAll | backend/utils.py:57-64 | with the default toggles every result is shown |
| ResultSets.ToLabel | backend/utils.py:28-32 | none stays none, a string passes through, an enumeration value becomes a label that parses back to it |
| ResultSets.ParseShotTypeValues | backend/utils.py:89-100 | none gives an empty list; otherwise the known strings, in their input order, each read as the shot type it names, and the unknown strings skipped |
| ResultSets.ParseShotTypeNames | backend/utils.py:89-100 | parsing the names of a list of shot types gives the list back |
| Taxonomy.ParseResult | backend/routes/excel/team_stats.py:15-25 | a parsed result label is the label of the parsed result |
| Taxonomy.ResultLabelRoundTrip | backend/routes/excel/team_stats.py:15-25 | every result label parses back to its result |
| Taxonomy.ParseStrength | backend/routes/excel/game_stats/get_stats.py:154-160 | a parsed strength label is that strength's label |
| Taxonomy.StrengthLabelRoundTrip | backend/routes/excel/game_stats/get_stats.py:154-160 | every strength label parses back to its strength |
| Taxonomy.ParseShotType | backend/utils.py:96-98 | a parsed shot-type name is that type's name |
| Taxonomy.ShotTypeNameRoundTrip | backend/utils.py:96-98 | every shot-type name parses back to its type |
| Taxonomy.ParseNetWidth | backend/routes/excel/game_stats/get_stats.py:98-102 | exactly "Left", "Mid" and "Right" are widths, each read as the third it names |
| Taxonomy.ParseNetHeight | backend/routes/excel/game_stats/get_stats.py:104-108 | exactly "Top", "Mid" and "Bottom" are heights, each read as the third it names |
| Taxonomy.NetLabelRoundTrip | backend/routes/excel/game_stats/get_stats.py:98-108 | every width and height label reads back as its own third |
| SheetColumns.ZoneColumnsTwoApart | backend/routes/excel/player_stats/player_stats_utils.py:14-24 | the nine area columns are distinct, B to R, two apart, and the goal column beside the last one is S |
| SheetColumns.TypeColumnsTwoApart | backend/routes/excel/game_stats/get_stats.py:69-77 | the seven type columns are distinct, B to T, and no type's neighbour column is another type's column |
| SheetColumns.WrapColumnIsColumnName | backend/routes/excel/player_stats/stat_collectors.py:186-189 | the "A"+chr(ord-26) wrap is the ordinary spreadsheet column name |
| SheetColumns.WrapColumnInjective | backend/routes/excel/player_stats/stat_collectors.py:186-189 | different code points are written as different column names |
| GameSelection.ParseGameIds | backend/routes/excel/stats_utils.py:35 | a non-integer piece of the id list fails with ValueError |
| GameSelection.SelectGames | backend/routes/excel/stats_utils.py:31-36 | a missing or empty id text selects every game; otherwise the selection is an order-preserving subsequence of the team's games, or ValueError |
| GameSelection.IdsRoundTrip | backend/routes/excel/game_stats/game_stats_utils.py:31-32 | the comma-joined text of a non-empty id list parses back to the same list |
| GameSelection.SelectByIdsText | backend/routes/excel/game_stats.py:347-354 | selecting by the text of an id list keeps exactly the team's games whose id is listed, in team order |
| GameCollectors.BlockHitsAt | backend/routes/excel/game_stats/get_stats.py:43-51 | a tag hits its shifted cell once, and the cell one row up once more exactly for a goal |
| GameCollectors.BlockIndicator | backend/routes/excel/game_stats/get_stats.py:43-51 | seen from any block, a tag hits each of the four cells exactly when its area and result select that cell |
| GameCollectors.ZonePlacement | backend/routes/excel/game_stats/get_stats.py:42-51 | a tag without an area fails; otherwise it places two cells for a goal and one otherwise |
| GameCollectors.CollectShotZones | backend/routes/excel/game_stats/get_stats.py:41-53 | the section succeeds exactly when every tag has an area |
| GameCollectors.ZoneCountSum | backend/routes/excel/game_stats/get_stats.py:41-53 | the counts add up to the number of tags plus the number of goals |
| GameCollectors.ZoneCellsInSection | backend/routes/excel/game_stats/get_stats.py:27-45 | zone cells lie in rows 5-6, columns B to S |
| GameCollectors.ZoneGoalImpliesChance | backend/routes/excel/game_stats/get_stats.py:49-51 | every row-6 goal cell is at most the chance cell above it |
| GameCollectors.TypePlacement | backend/routes/excel/game_stats/get_stats.py:81-92 | a tag without a shot type fails; otherwise two cells for a goal, one otherwise |
| GameCollectors.CollectShotTypes | backend/routes/excel/game_stats/get_stats.py:79-94 | the section succeeds exactly when every tag has a shot type |
| GameCollectors.TypeCountSum | backend/routes/excel/game_stats/get_stats.py:79-94 | the counts add up to tags plus goals |
| GameCollectors.TypeCellsInSection | backend/routes/excel/game_stats/get_stats.py:83-86 | type cells lie in rows 12-13, from B up to the code point after Z |
| GameCollectors.TypeGoalImpliesChance | backend/routes/excel/game_stats/get_stats.py:90-92 | every row-13 goal cell is at most the chance cell above it |
| GameCollectors.TypeCrossIceCollisions | backend/routes/excel/game_stats/get_stats.py:73-85 | a cross-ice low-high shot lands on the same cells as a plain deflection, and a cross-ice deflection against leaves the letters |
| GameCollectors.NetAdjustment | backend/routes/excel/game_stats/get_stats.py:110-122 | own and opponent chances move five columns right, opponent goals and chances seven rows down |
| GameCollectors.NetShotsFallThrough | backend/routes/excel/game_stats/get_stats.py:110-122 | a plain shot is placed like an own goal |
| GameCollectors.NetLookup | backend/routes/excel/game_stats/get_stats.py:129-130 | a missing or unknown net label fails the lookup |
| GameCollectors.NetPlacement | backend/routes/excel/game_stats/get_stats.py:127-136 | a tag fails exactly on a bad width or height; chances place one cell, everything else two |
| GameCollectors.CollectNetZones | backend/routes/excel/game_stats/get_stats.py:126-138 | the section succeeds exactly when every tag's net spot is known |
| GameCollectors.NetCountSum | backend/routes/excel/game_stats/get_stats.py:126-138 | the counts add up to tags plus the tags that are not chances |
| GameCollectors.NetCellsInSection | backend/routes/excel/game_stats/get_stats.py:124-136 | net cells lie in columns C to J of rows 19-21 and 26-28 |
| GameCollectors.NetGoalImpliesChance | backend/routes/excel/game_stats/get_stats.py:134-136 | a cell in columns C to E is at most the cell five columns right |
| GameCollectors.StrengthColumnsTwoApart | backend/routes/excel/game_stats/get_stats.py:154-160 | the five strength columns are distinct, B to J, two apart |
| GameCollectors.StrengthPlacement | backend/routes/excel/game_stats/get_stats.py:164-173 | an unknown strength label fails; otherwise two cells for a goal, one otherwise |
| GameCollectors.CollectStrengths | backend/routes/excel/game_stats/get_stats.py:162-175 | the section succeeds exactly when every strength label is known |
| GameCollectors.StrengthCountSum | backend/routes/excel/game_stats/get_stats.py:162-175 | the counts add up to tags plus goals |
| GameCollectors.StrengthCellsInSection | backend/routes/excel/game_stats/get_stats.py:166-167 | strength cells lie in rows 35-36, columns B to K |
| GameCollectors.StrengthGoalImpliesChance | backend/routes/excel/game_stats/get_stats.py:171-173 | every row-36 goal cell is at most the chance cell above it |
| GameCellCounts.ZoneCellCounts | backend/routes/excel/game_stats/get_stats.py:41-53 | each of an area's four cells counts exactly the area's tags whose result reaches it: the origin own chances, goals and shots; the cell below own goals; the cell beside opponent chances and goals; the diagonal opponent goals |
| GameCellCounts.NetCellCounts | backend/routes/excel/game_stats/get_stats.py:126-136 | the own-goal cell of a net spot counts the spot's non-chance own-side tags, and the chance cell five columns right counts all own-side tags of the spot |
| GameCellCounts.StrengthCellCounts | backend/routes/excel/game_stats/get_stats.py:162-175 | each of a strength's four cells counts exactly the tags of that strength whose result reaches it, with the same four result sets as the zones |
| MapPoints.CollectMappedData | backend/routes/excel/game_stats/get_stats.py:191-198 | every result has its lists, each equal to the points of the tags drawn for it; a plain shot has no mapping and fails with KeyError |
| MapPoints.GoalPointsAreChancePoints | backend/routes/excel/game_stats/get_stats.py:196-198 | the goal points of a side are a subsequence of that side's chance points |
| MapPoints.ShotListsStayEmpty | backend/routes/excel/game_stats/get_stats.py:191 | shot results keep empty lists |
| MapPoints.ChancePointsCountSide | backend/routes/excel/game_stats/get_stats.py:196-198 | a side's chance lists hold one ice and one net point per chance or goal of that side |
| GameSheets.CellValues | backend/routes/excel/game_stats/get_stats.py:212-219 | the four sections are computed in order and the first failure is the report's; otherwise the merged map |
| GameSheets.SectionMapsOwnRows | backend/routes/excel/game_stats/get_stats.py:39-45 | each section's map holds only cells of its own rows |
| GameSheets.CellValuesDropNothing | backend/routes/excel/game_stats/get_stats.py:219 | the merge drops nothing: every cell holds its count over the four sections |
| GameSheets.BuildTotalStats | backend/routes/excel/game_stats/get_stats.py:203-221 | the total sheet carries the merged cell values and the map points of the same tags |
| GameSheets.BuildGameSheet | backend/routes/excel/game_stats/get_stats.py:230-246 | a game's sheet has the game's header and the cell values of that game's tags only |
| GameSheets.BuildPerGameStats | backend/routes/excel/game_stats/get_stats.py:224-248 | one sheet per game in game order, or the first game's failure |
| GameSheets.GameStats | backend/routes/excel/game_stats/get_stats.py:271-287 | the package report reads the tags of the selected games and builds the per-game and total sheets |
| GameSheets.LegacyGameStats | backend/routes/excel/game_stats.py:277-342 | the legacy report builds the total first and per-game sheets without map points |
| GameSheets.VersionsAgree | backend/routes/excel/game_stats.py:323-342 | both versions give the same cell values and total, apart from the per-game map points |
| GameSheets.TaglessGameIsEmpty | backend/routes/excel/game_stats/get_stats.py:236-244 | a game without tags gets an empty cell map |
| GameTotals.SheetsAddUp | backend/routes/excel/game_stats/get_stats.py:224-248 | with distinct game ids and every tag in a listed game, the per-game cell values add up to the section counts of all tags |
| GameTotals.PerGameSumsToTotal | backend/routes/excel/game_stats/get_stats.py:284-285 | for both report versions, each cell of the total sheet is the sum of that cell over the per-game sheets |
| PlayerCollectors.ShotCollectorCounts | backend/routes/excel/player_stats/stat_collectors.py:10-19 | for any shooter collector, a key's base cell counts the tags with that key and its goal cell counts their own goals |
| PlayerCollectors.CollectShooterZones | backend/routes/excel/player_stats/stat_collectors.py:7-21 | the section succeeds exactly when every tag has an area |
| PlayerCollectors.ShooterZoneCounts | backend/routes/excel/player_stats/stat_collectors.py:10-19 | an area's row-4 cell counts the player's shots from it and the cell beside it their own goals |
| PlayerCollectors.CollectShooterTypes | backend/routes/excel/player_stats/stat_collectors.py:24-48 | the section succeeds exactly when every tag has a shot type |
| PlayerCollectors.ShooterTypeCounts | backend/routes/excel/player_stats/stat_collectors.py:37-46 | a type's row-11 cell counts the player's shots of that type and the cell beside it their own goals |
| PlayerCollectors.CollectShooterNetZones | backend/routes/excel/player_stats/stat_collectors.py:51-77 | the section succeeds exactly when every net spot is known |
| PlayerCollectors.ShooterNetCounts | backend/routes/excel/player_stats/stat_collectors.py:66-75 | a spot's cell in G to I counts the player's shots there and the cell five columns left their own goals |
| PlayerCollectors.CollectShooterStrengths | backend/routes/excel/player_stats/stat_collectors.py:80-100 | the section succeeds exactly when every strength label is known |
| PlayerCollectors.ShooterStrengthCounts | backend/routes/excel/player_stats/stat_collectors.py:90-98 | a strength's row-31 cell counts the player's shots at it and the row-32 cell their own goals |
| PlayerOnIce.CollectOnIceStrengths | backend/routes/excel/player_stats/stat_collectors.py:121-150 | the section succeeds exactly when every strength label is known |
| PlayerOnIce.ParticipatingAtMostOnIce | backend/routes/excel/player_stats/stat_collectors.py:132-144 | each cell of the participation block (row 38 on) is at most the matching cell of the on-ice block (row 46 on) |
| PlayerOnIce.OnIceGoalImpliesChance | backend/routes/excel/player_stats/stat_collectors.py:146-148 | in both blocks a goal row never exceeds the chance row above it |
| PlayerOnIce.OnIceCountSum | backend/routes/excel/player_stats/stat_collectors.py:130-148 | the counts add up to one or two cells per block a tag counts in, two for goals |
| PlayerGameRows.GoalColumnCode | backend/routes/excel/player_stats/stat_collectors.py:156-165 | ES, PP and PK start at G, T and code 97; the empty-net labels are skipped and anything else is unknown |
| PlayerGameRows.CollectPlayersPerGameStats | backend/routes/excel/player_stats/stat_collectors.py:153-202 | an unknown strength fails with ValueError; otherwise the rows, latest game first |
| PlayerGameRows.PerGameRowsExact | backend/routes/excel/player_stats/stat_collectors.py:167-201 | rows are ordered latest first, there is one for every game with a counted tag and none other, and each holds exactly that game's columns; the games are grouped in the order their first counted tag meets them, and games of the same date keep that order in the result |
| PlayerGameRows.PlacedColumnsListed | backend/routes/excel/player_stats/stat_collectors.py:171-199 | every column a tag adds to is one of the 26 a row starts with |
| PlayerGameRows.ChanceColumnsAreNotShooterColumns | backend/routes/excel/player_stats/stat_collectors.py:174-190 | the strength/result columns never coincide with the shooter columns C and D |
| PlayerGameRows.RowColumnCounts | backend/routes/excel/player_stats/stat_collectors.py:171-199 | a row's D counts the player's shots in the game, C their own goals, and each strength/result column the game's tags hitting it |
| PlayerGameRows.GoalForSkipsChanceColumn | backend/routes/excel/player_stats/stat_collectors.py:179-190 | an own goal lands on its strength's goal column, never on the chance column |
| GameGroups.FirstSeenExact | backend/routes/excel/player_stats/stat_collectors.py:167-168 | the first-met order of ids holds each id of the input once and no other |
| GameGroups.GroupRowsOrder | backend/routes/excel/player_stats/stat_collectors.py:154-172 | the grouped games are keyed in the order their first counted tag meets them, as a dictionary keeps insertion order |
| GameGroups.GroupRowsExact | backend/routes/excel/player_stats/stat_collectors.py:167-172 | grouping keeps one row per game with a counted tag and nothing else, each with that game's cells |
| GameGroups.PermutedRowsExact | backend/routes/excel/player_stats/stat_collectors.py:201 | any reordering of the rows keeps each row right for its game |
| Sorting.SortBySorted | backend/routes/excel/player_stats/stat_collectors.py:201 | the sorted rows are ordered by the key |
| Sorting.SortByStable | backend/routes/excel/player_stats/stat_collectors.py:201 | the sort is stable: the rows tied on the key keep their input order |
| PlayersToAnalyze.FirstWithIsFirst | backend/routes/excel/player_stats/players_to_analyze.py:31-33 | the names come from the first roster slot of the player |
| PlayersToAnalyze.BuildPlayersToAnalyzeExact | backend/routes/excel/player_stats/players_to_analyze.py:28-35 | exactly the rostered players get an entry, named from their first slot, with games equal to their number of roster slots |
| PlayersToAnalyze.OnIceLinksMembers | backend/routes/excel/player_stats/players_to_analyze.py:81-82 | a tag is among a player's on-ice links exactly when the player is listed on the ice |
| PlayersToAnalyze.AddPlayersTagsAt | backend/routes/excel/player_stats/players_to_analyze.py:74-82 | a player's entry gains exactly the tags they shot and one copy of each tag per on-ice listing; a linked player absent before gets a fresh entry |
| PlayersToAnalyze.GetPlayersToAnalyzeExact | backend/routes/excel/player_stats/players_to_analyze.py:85-91 | the keys are the rostered and the linked players; games is the roster count, shooter tags the tags they shot, on-ice tags their links |
| PlayersToAnalyze.FindPlayersOnIceTagsAt | backend/routes/excel/player_stats/stat_collectors.py:103-118 | the keys are exactly the players listed on the ice, each with one copy of a tag per listing |
| PlayersToAnalyze.LegacyAgrees | backend/routes/excel/player_stats.py:271-287 | the legacy dictionary has the same keys and the same entries as the package one |
| CellMaps.MergeOwnedAt | backend/routes/excel/player_stats/stat_collectors.py:214 | when only one part may hold a cell, the merge keeps the sum of the parts' counts |
| PlayerSheets.CellValues | backend/routes/excel/player_stats/stat_collectors.py:208-214 | the five sections are computed in order; the first failure is the sheet's, otherwise the merged map |
| PlayerSheets.CellValuesErrors | backend/routes/excel/player_stats/stat_collectors.py:208-212 | a sheet fails only with AttributeError or KeyError, AttributeError exactly when a shot lacks an area or type |
| PlayerSheets.SectionMapsOwnRows | backend/routes/excel/player_stats/stat_collectors.py:8-148 | each section's map holds only cells of its own rows |
| PlayerSheets.CellValuesDropNothing | backend/routes/excel/player_stats/stat_collectors.py:214 | the merge drops nothing: every cell holds its count over the five sections |
| PlayerSheets.HeaderCellsFree | backend/routes/excel/player_stats/stat_collectors.py:214 | no section reaches B1 or G1, so the name and games cells are not overwritten |
| PlayerSheets.NoTagsNoCells | backend/routes/excel/player_stats/stat_collectors.py:205-215 | a player with no tags gets an empty cell map |
| PlayerSheets.PerGameAfterOnIce | backend/routes/excel/player_stats/stat_collectors.py:212-218 | once the on-ice section succeeds, the per-game rows cannot fail |
| PlayerSheets.PlayerStats | backend/routes/excel/player_stats/stat_collectors.py:205-219 | a player's sheet succeeds exactly when the sections do; it carries the name (package only), the games count, the cells and the per-game rows |
| PlayerSheets.AddPlayerStats | backend/routes/excel/player_stats/stat_collectors.py:205-219 | one sheet per dictionary entry in order, or the first failing player's error |
| PlayerReport.ReportSheetContents | backend/routes/excel/player_stats/players_to_analyze.py:85-91 | sheet i is player i's; its games cell is the roster count and every cell the player's section counts from the tags they shot and their on-ice links |
| PlayerReport.LegacySheetsAgree | backend/routes/excel/player_stats.py:289-299 | the legacy sheet of a player equals the package sheet without the name cell |
| PlusMinusKeys.ParsePmStrengthExact | backend/routes/excel/player_plus_minus/plus_minus_utils.py:12-16 | the strength lookup succeeds exactly for "ES", "PP" and "PK", returning the strength with that label; any other label raises KeyError |
| PlusMinusKeys.PmStrengthRoundTrip | backend/routes/excel/player_plus_minus/constants.py:58-67 | every strength's label converts back to that strength |
| PlusMinusKeys.ResultCode | backend/routes/excel/player_plus_minus/constants.py:9-14 | a result has a two-character code exactly when it is a goal or a chance; a shot raises KeyError |
| PlusMinusKeys.KeptTagsHaveKeys | backend/routes/excel/player_plus_minus/get_stats.py:171-201 | a tag passes the skip test exactly when its strength label converts and its result has a code, so building a kept tag's key cannot fail |
| PlusMinusKeys.KeyOfTag | backend/routes/excel/player_plus_minus/get_stats.py:200-213 | the string key built from a kept tag's strength, role and result is the key of that counter |
| PlusMinusKeys.StatKeyRoundTrip | backend/routes/excel/player_plus_minus/constants.py:22-48 | every counter's key parses back to that counter |
| PlusMinusKeys.ParseStatKeyExact | backend/routes/excel/player_plus_minus/constants.py:22-48 | a string that parses as a key is the key of the counter it parses to |
| PlusMinusKeys.StatKeyInjective | backend/routes/excel/player_plus_minus/constants.py:23-48 | two different counters never share a key |
| PlusMinusKeys.StatKeysExact | backend/routes/excel/player_plus_minus/constants.py:23-48 | the key tuple has 24 entries and holds a string exactly when it is some counter's key |
| PlusMinusKeys.StatKeysDistinct | backend/routes/excel/player_plus_minus/constants.py:23-48 | the 24 listed keys are pairwise distinct |
| PlusMinusKeys.StatKeyListed | backend/routes/excel/player_plus_minus/constants.py:23-48 | every counter's key is listed |
| PlusMinusKeys.EmptyStats | backend/routes/excel/player_plus_minus/constants.py:50 | the empty stats hold exactly the 24 listed keys, each at zero |
| PlusMinusKeys.EmptyStatsDict | backend/routes/excel/player_plus_minus/plus_minus_domain.py:130-149 | every strength, role and result combination is present at zero, the shot results only when shots are kept (the constants module's builder at constants.py:115-128 keeps them, the player class skips them) |
| PlusMinusKeys.DomainColumnLayout | backend/routes/excel/player_plus_minus/plus_minus_domain.py:32-75 | each counter's column is the letter for its strength block base plus its role and result offsets, wrapping to two letters past Z |
| PlusMinusKeys.DomainColumnsDistinct | backend/routes/excel/player_plus_minus/plus_minus_domain.py:32-75 | no two counters are written to the same column |
| PlusMinusKeys.DomainColumnsMissNames | backend/routes/excel/player_plus_minus/plus_minus_domain.py:11-75 | no counter column is one of the name columns G, U, AI and AW |
| PlusMinusKeys.ConstantsColumnsAgree | backend/routes/excel/player_plus_minus/constants.py:69-112 | the constants table agrees with the player class's table except that the power-play on-ice chance columns are swapped; its columns are still distinct and clear of the name columns |
| PlusMinusKeys.LegacyColumnsAgree | backend/routes/excel/player_plus_minus.py:219-252 | every stat key is in the legacy route's column table and maps to the player class's column for that counter |
| PlusMinusNames.Namesakes | backend/routes/excel/player_plus_minus/plus_minus_utils.py:36-39 | exactly the other roster players (another id) with the same last name |
| PlusMinusNames.FormatPlayerNameAsWritten | backend/routes/excel/player_plus_minus/get_stats.py:10-33 | the name as the code builds it fails only with IndexError, and only when the player has a namesake |
| PlusMinusNames.OneNamesake | backend/routes/excel/player_plus_minus/get_stats.py:26-33 | with one namesake the initials are the first name up to and including its first letter that differs from the namesake's; IndexError when the whole first name begins the namesake's |
| PlusMinusNames.FormatPlayerNameAgrees | backend/routes/excel/player_plus_minus.py:17-40 | with at most one namesake the code as written yields the intended name |
| PlusMinusNames.InitialsDistinguish | backend/routes/excel/player_plus_minus/get_stats.py:11-15 | the intended initials are the shortest prefix of the first name that begins no namesake's first name; they are missing exactly when the whole first name begins a namesake's |
| PlusMinusNames.TwoNamesakesRepeatLetter | backend/routes/excel/player_plus_minus/plus_minus_utils.py:44-52 | Anton beside Aaron and Alex Virtanen gets "VIRTANEN Ann." from the code as written and "VIRTANEN An." from the intended rule; "Ann" is not a prefix of "Anton" |
| PlusMinusDomain.NewPmPlayer | backend/routes/excel/player_plus_minus/plus_minus_domain.py:112-119 | a new player keeps the player's data, has no games and an empty tag list for every game |
| PlusMinusDomain.AddTag | backend/routes/excel/player_plus_minus/plus_minus_domain.py:121-123 | the tag is appended to that game's list, every other game is untouched, and the games played grow by one exactly when the game was new |
| PlusMinusDomain.GetTagsForGame | backend/routes/excel/player_plus_minus/plus_minus_domain.py:125-127 | returns the game's tags (empty for an unseen game); as a default-dictionary read it leaves every tag list as it was but adds an entry for an unseen game, raising the games played by one |
| PlusMinusDomain.GamesPlayedCountsGames | backend/routes/excel/player_plus_minus/plus_minus_domain.py:173-175 | the games played are the number of distinct games with a tag-list entry |
| PlusMinusDomain.Bump | backend/routes/excel/player_plus_minus/plus_minus_domain.py:159 | incrementing a counter succeeds exactly when it is a key of the table, keeping the keys; otherwise KeyError |
| PlusMinusDomain.CountTags | backend/routes/excel/player_plus_minus/plus_minus_domain.py:158-159 | counting tags into a table succeeds exactly when every tag's counter is a key; each counter then grows by the number of tags for it |
| PlusMinusDomain.GameStats | backend/routes/excel/player_plus_minus/plus_minus_domain.py:151-161 | a game's stats succeed exactly when all its tags are goals or chances; the table holds the 24 counters, each the number of the game's tags for it |
| PlusMinusDomain.CountGames | backend/routes/excel/player_plus_minus/plus_minus_domain.py:167-169 | counting every game's tags succeeds exactly when every tag's counter is a key; each counter then grows by its sum over the games |
| PlusMinusDomain.TotalIsSumOfGames | backend/routes/excel/player_plus_minus/plus_minus_domain.py:163-171 | the totals succeed exactly when every game's stats do, and each total counter is the sum over the player's games of that game's count |
| PlusMinusUtils.SplitGameIds | backend/routes/excel/player_plus_minus/plus_minus_utils.py:61-66 | no ids for a missing or empty parameter; otherwise one integer per comma-separated piece in order, or ValueError exactly when some piece is not an integer |
| PlusMinusUtils.SplitGameIdsRoundTrip | backend/routes/excel/player_plus_minus/plus_minus_utils.py:61-66 | splitting the comma-joined text of any id list gives the list back |
| PlusMinusUtils.PmTagOf | backend/routes/excel/player_plus_minus/plus_minus_utils.py:74-75 | a kept link's plus-minus tag carries the tag's game, the link's role, the tag's result and the strength whose label is the tag's |
| PlusMinusUtils.AddLink | backend/routes/excel/player_plus_minus/plus_minus_utils.py:71-76 | one link is filed without error exactly when it is skipped or its player is in the dictionary, else KeyError; the players stay the same |
| PlusMinusUtils.AddTagsToPlayers | backend/routes/excel/player_plus_minus/plus_minus_utils.py:69-76 | filing succeeds exactly when every kept link's player is in the dictionary, else KeyError; the players stay the same |
| PlusMinusUtils.AddTagsToPlayersExact | backend/routes/excel/player_plus_minus/plus_minus_utils.py:69-76 | afterwards each player's tags for a game are the old ones followed, in link order, by the tags of that player's kept links in that game, and a game has an entry exactly when it had one or such a link exists |
| PlusMinusUtils.SkippedLinksChangeNothing | backend/routes/excel/player_plus_minus/plus_minus_utils.py:72-73 | dropping the skipped links beforehand gives the same outcome |
| PlusMinusUtils.LookupRoster | backend/routes/excel/player_plus_minus/plus_minus_utils.py:81-84 | looking up a game's roster ids succeeds exactly when every rostered player is in the dictionary, and otherwise fails with KeyError |
| PlusMinusUtils.GetPlayersInGame | backend/routes/excel/player_plus_minus/plus_minus_utils.py:79-87 | one player per roster slot, a permutation of the looked-up players, sorted by last name, namesakes in roster order; KeyError exactly when a rostered player is missing |
| PlusMinusUtils.PlayersInGameSlots | backend/routes/excel/player_plus_minus/plus_minus_utils.py:81-84 | every roster slot's player is among the game's players |
| PlusMinusEntries.BuildRosterFrom | backend/routes/excel/player_plus_minus/get_stats.py:45-54 | building the entries succeeds exactly when every slot's name can be formed, and otherwise fails with some slot's naming error |
| PlusMinusEntries.BuildRosterFromKeys | backend/routes/excel/player_plus_minus/get_stats.py:47-49 | the entries are keyed by distinct ids, exactly the ids on the roster |
| PlusMinusEntries.BuildRoster | backend/routes/excel/player_plus_minus/get_stats.py:36-73 | a game's entries exist exactly for the rostered players, each with GP 0 and every counter at zero, named by the initials rule as written; IndexError exactly when some name cannot be formed by that rule |
| PlusMinusEntries.BuildRosterCorrected | backend/routes/excel/player_plus_minus/get_stats.py:36-73 | the same entries with names by the corrected initials rule; IndexError exactly when that rule cannot form some name |
| PlusMinusEntries.BuildRosterAgrees | backend/routes/excel/player_plus_minus/get_stats.py:26-33 | when no rostered player has two namesakes, the two rules build the same entries |
| PlusMinusEntries.AddNewPlayerGet | backend/routes/excel/player_plus_minus/get_stats.py:159-169 | a player new to the totals gets a copy of the game entry with GP 1, a known player only has GP raised by one; other players are untouched |
| PlusMinusEntries.AddNewPlayersGet | backend/routes/excel/player_plus_minus/get_stats.py:157-169 | after a game's players are added, the totals have an entry exactly for the players known before or rostered in the game, each the outcome of the one-player step |
| PlusMinusEntries.BumpEntry | backend/routes/excel/player_plus_minus/get_stats.py:206-207 | incrementing a player's counter succeeds exactly when the player has an entry, else KeyError; the ids stay the same |
| PlusMinusEntries.Bumped | backend/routes/excel/player_plus_minus/get_stats.py:206 | the entry's counter goes up by one and nothing else changes |
| PlusMinusEntries.BumpEntryGet | backend/routes/excel/player_plus_minus/get_stats.py:206-207 | only the bumped player's entry changes |
| PlusMinusEntries.Increments | backend/routes/excel/player_plus_minus/get_stats.py:200-213 | one increment per on-ice link and then one per participating link, in order, each naming the link's player and the counter for the tag's strength, that role and the tag's result |
| PlusMinusEntries.IncrementsExact | backend/routes/excel/player_plus_minus/get_stats.py:200-213 | a kept tag increments a player's counter as many times as the player is linked in that counter's role, and only the counter for the tag's strength and result |
| PlusMinusEntries.ConvertRosterToLists | backend/routes/excel/player_plus_minus/get_stats.py:76-88 | the forward list is a permutation of the forwards' entries and the defender list of the defenders', both sorted by name, namesakes in entry order |
| PlusMinusEntries.ListedIffNotGoalie | backend/routes/excel/player_plus_minus/get_stats.py:79-83 | an entry is listed exactly when it belongs to a forward or a defender, so goalies are left out |
| PlusMinusGames.ApplyIncs | backend/routes/excel/player_plus_minus/get_stats.py:205-213 | applying increments to the game and total entries succeeds exactly when every incremented player is in the game's entries, else KeyError; both keep their ids |
| PlusMinusGames.ApplyIncsGet | backend/routes/excel/player_plus_minus/get_stats.py:205-213 | each player's counters in both tables grow by that player's number of increments for them; names, positions and GP are untouched |
| PlusMinusGames.ProcessGame | backend/routes/excel/player_plus_minus/get_stats.py:226-238 | one game goes through exactly when every rostered name forms and every linked player of its kept tags is rostered; IndexError for a name, KeyError for an unrostered link |
| PlusMinusGames.ProcessGameTable | backend/routes/excel/player_plus_minus/get_stats.py:227-236 | the game table has an entry exactly for the rostered players, GP 0, each counter the player's increments from the game's kept tags |
| PlusMinusGames.ProcessGameTotals | backend/routes/excel/player_plus_minus/get_stats.py:228-234 | after a game the totals have an entry for players known before or rostered, GP up by one for the rostered, each counter up by the game's increments |
| PlusMinusGames.AddGame | backend/routes/excel/player_plus_minus/get_stats.py:226-238 | appending one game's data succeeds exactly when that game goes through and otherwise fails with its error |
| PlusMinusGames.GamesDataOk | backend/routes/excel/player_plus_minus/get_stats.py:226-238 | the loop over the games succeeds exactly when every game goes through |
| PlusMinusGames.GamesDataError | backend/routes/excel/player_plus_minus/get_stats.py:226-238 | when the loop fails, it fails with the error of the first game that does not go through |
| PlusMinusGames.GamesDataTables | backend/routes/excel/player_plus_minus/get_stats.py:226-238 | the i-th game's data carries that game's details, its by-position lists, an entry exactly for its rostered players with GP 0, and counters from its own tags only |
| PlusMinusGames.GamesDataTotals | backend/routes/excel/player_plus_minus/get_stats.py:226-238 | a player's total GP is the number of games whose roster lists them, they have a total entry exactly when that is positive, and each total counter is the sum over the games of that game's increments |
| PlusMinusGames.TotalsAreSumOfTables | backend/routes/excel/player_plus_minus/get_stats.py:226-241 | each total counter is the sum of the per-game tables' counters, and GP is the number of game tables with an entry for the player |
| PlusMinusGames.PlusMinusGamesData | backend/routes/excel/player_plus_minus/get_stats.py:217-242 | the report succeeds exactly when every game goes through, else fails with the first bad game's error; its games are a permutation of the per-game data sorted latest date first, games of one date in the order they were processed |
| PlusMinusGames.ReportTotals | backend/routes/excel/player_plus_minus/get_stats.py:241 | a listed total is never a goalie's, and belongs to some player id: its GP is the (positive) number of games whose roster lists that id and each counter is that id's sum over the games |
| PlusMinusGames.ReportListsRostered | backend/routes/excel/player_plus_minus/get_stats.py:226-241 | every player rostered in some game has a total entry, which is listed unless the player is a goalie |
| PlusMinusLegacy.LegacyGamesData | backend/routes/excel/player_plus_minus.py:100-193 | the legacy report succeeds exactly when there is a game and every game goes through; no games raise IndexError, otherwise the first bad game's error; games sorted latest date first, games of one date in the order they were processed |
| PlusMinusLegacy.LegacyAgrees | backend/routes/excel/player_plus_minus.py:153-193 | for a non-empty game list the legacy route and the package agree on success and error, its games are the package's with each roster replaced by its lists, and the totals are equal |
| TeamStats.FirstSet | backend/routes/excel/team_stats/workbook_writer.py:28-31 | the loop over attribute names stops at position j exactly when j holds the first set attribute, and finds nothing exactly when none is set |
| TeamStats.ChanceRow | backend/routes/excel/team_stats/workbook_writer.py:10-33 | None exactly when no attribute of the table is set; otherwise the row the first set attribute's table gives its value, or ValueError when it gives none; no other error |
| TeamStats.LegacyChanceColumn | backend/routes/excel/team_stats.py:73-167 | RuntimeError exactly when no column attribute is set; otherwise the column of the first set one's value |
| TeamStats.ValueColumnLists | backend/routes/excel/team_stats.py:154-164 | a value gets G when in the G list, H when in the H list but not G, I when only in the I list, and ValueError exactly when in none |
| TeamStats.ChanceColumnCases | backend/routes/excel/team_stats/workbook_writer.py:36-65 | RuntimeError when no column attribute is set and when two are; with exactly one, the column map's entry for its value, KeyError when it has none |
| TeamStats.LegacyShiftByResult | backend/routes/excel/team_stats.py:15-25 | goal for, goal against, chance for and chance against shift by 0, 3, 6 and 9, every other result (shots included) raises ValueError, and the chain equals the shift map read with `.get` |
| TeamStats.LegacyCellDecodes | backend/routes/excel/team_stats.py:170-183 | a legacy cell's column lies in G..R and gives back both the column group and the result shift; its row is the chance row |
| TeamStats.ColumnMap | backend/routes/excel/team_stats.py:97-164 | the lists as a value-to-column map: a value has an entry exactly when listed, and the entry is the column the lists give it |
| TeamStats.PlaceTagVersionsAgree | backend/routes/excel/team_stats/workbook_writer.py:90-111 | with the legacy tables the package places every tag with at most one column attribute set exactly where the legacy route does |
| TeamStats.PackageRejectsTwoColumns | backend/routes/excel/team_stats/workbook_writer.py:58-62 | a tag whose row resolves but with two column attributes set fails with RuntimeError |
| TeamStats.CellNumbers | backend/routes/excel/team_stats/workbook_writer.py:90-111 | the count succeeds exactly when every tag can be placed |
| TeamStats.CellNumbersCount | backend/routes/excel/team_stats/workbook_writer.py:99-111 | a cell's number is the number of tags placed in it, and the numbers add up to the number of tags |
| TeamStats.CellNumbersFirstError | backend/routes/excel/team_stats/workbook_writer.py:100-104 | a failing count fails with the error of the first tag that cannot be placed |
| TeamStats.GamesStatsDictGet | backend/routes/excel/team_stats/get_stats.py:21-34 | a game has a list exactly when some tag belongs to it, and the list is that game's tags in their order |
| TeamStats.GamesStatsDictSizes | backend/routes/excel/team_stats/get_stats.py:30-32 | the lists' lengths add up to the number of tags |
| TeamStats.TeamReport | backend/routes/excel/team_stats/workbook_writer.py:166-193 | the report succeeds exactly when every tag can be placed, and its total sheet is the count of all tags |
| TeamStats.TeamSheetCountsGame | backend/routes/excel/team_stats/workbook_writer.py:137-163 | each game sheet is the count of exactly its game's tags |
| TeamStats.TeamSheetsCoverGames | backend/routes/excel/team_stats/workbook_writer.py:154-163 | the game sheets belong to distinct games and every tag's game has one |
| TeamStats.TeamReportAddsUp | backend/routes/excel/team_stats.py:202-228 | the game sheets add up to the total sheet |
| Dashboard.Tally | backend/routes/dashboard.py:76-91 | after any tags no side has more goals than chances |
| Dashboard.TallyCounts | backend/routes/dashboard.py:47-50 | the per-tag zone increments count exactly the goals of each side and the chances-or-goals of each side, the four KPI sums |
| Dashboard.MirroredByName | backend/routes/dashboard.py:62 | the split areas are exactly the four whose names are listed |
| Dashboard.IceZoneNameRoundTrip | backend/routes/dashboard.py:60-67 | an ice-zone key reads back as its tag's zone: UNKNOWN without an area, the bare area name for unsplit areas, the area with its side for mirrored ones (left below x = 50 or without x) |
| Dashboard.IceZoneNamesDistinguish | backend/routes/dashboard.py:60-67 | two tags share an ice-zone key if and only if they have the same area and, for a mirrored area, the same side |
| Dashboard.NetZoneNameSplits | backend/routes/dashboard.py:69 | a net-zone key splits at its dash back into the net height and net width texts (None when missing) |
| Dashboard.ZoneTableGet | backend/routes/dashboard.py:58-91 | a zone key has an entry if and only if some tag has that key, whatever its result, and the entry counts exactly those tags |
| Dashboard.ZoneTableTotal | backend/routes/dashboard.py:58-91 | every tag is counted in exactly one zone: the entries add up to the counters of all tags |
| Dashboard.PlayerLineCounts | backend/routes/dashboard.py:95-140 | a player's shooter goals and chances count the goals-for and chances-or-goals-for the player shot; the on-ice and participating counters count independently the tags the player was on the ice for or took part in |
| Dashboard.UninvolvedPlayer | backend/routes/dashboard.py:95-101 | a rostered player with no role in any tag has an all-zero line |
| Dashboard.BuildKpi | backend/routes/dashboard.py:94-140 | there is one player line per player of the given list, in that list's order |
| Dashboard.KpiCounters | backend/routes/dashboard.py:47-50 | the four KPI sums are the counters of all tags, so goals never exceed chances |
| Dashboard.KpiZonesAddUp | backend/routes/dashboard.py:47-91 | the ice-zone entries and the net-zone entries each add up to the four KPI sums |
| Dashboard.KpiPlayerLine | backend/routes/dashboard.py:95-140 | the line of each rostered player counts that player's roles |
| Dashboard.TallyFourWay | backend/routes/dashboard.py:154-163 | when every tag falls in exactly one of four groups, the groups' counters add up to the counters of all tags |
| Dashboard.TallyByStrength | backend/routes/dashboard.py:154-163 | the counters of all tags are those of the ES, PP and PK tags plus those of every other strength |
| Dashboard.SituationsAddUp | backend/routes/dashboard.py:154-163 | the "yht" sums are the "5v5", "YV" and "AV" sums plus the counters of the tags of no situation, which count only in "yht" |
| Dashboard.Situations | backend/routes/dashboard.py:154-163 | the situation keys are distinct |
| Dashboard.GameKpiOf | backend/routes/dashboard.py:165-182 | the top-level figures are those stored under "yht", and their sums count all the game's tags |
| Dashboard.DashboardGames | backend/routes/dashboard.py:214-219 | one entry per game in the given order, each counting exactly that game's tags |
| Dashboard.DashboardAddsUp | backend/routes/dashboard.py:207-219 | over distinct games that hold all the tags, the games' top-level sums add up to the counters of all tags |
| Counters.CountByGet | backend/routes/analysis/analysis_router.py:96-98 | a key has a count exactly when some item has that key, and the count is the number of items with that key |
| Counters.CountByTotal | backend/routes/analysis/analysis_router.py:96-98 | every item is counted under exactly one key: the counts add up to the number of items |
| Analysis.IdList | backend/routes/analysis/analysis_router.py:50 | the id list is empty exactly when no comma-separated token is a number |
| Analysis.IdListRoundTrip | backend/routes/analysis/analysis_router.py:50 | numbers written as a comma-separated list read back as the same numbers in the same order |
| Analysis.GameIdList | backend/routes/analysis/analysis_router.py:50-56 | the request is rejected with 400 exactly when no token of the game-id list is a number |
| Analysis.TextList | backend/routes/analysis/analysis_router.py:52-53 | every parsed strength or shot-type name is non-empty and has no surrounding whitespace |
| Analysis.TextListRoundTrip | backend/routes/analysis/analysis_router.py:52-53 | stripped, non-empty, comma-free names written as a list read back as the same names |
| Analysis.FiltersOf | backend/routes/analysis/analysis_router.py:49-56 | the filters are built exactly when a game id is given, from the parsed id, shooter and strength lists |
| Analysis.AnalyzedTags | backend/routes/analysis/analysis_router.py:65-84 | an event is counted exactly when it is stored, its game is requested, it passes every non-empty filter list and its result's toggle is on |
| Analysis.QueryGamesOnly | backend/routes/analysis/analysis_router.py:65-67 | with no shooter, strength or shot-type list the query returns every tag of the requested games |
| Analysis.KeptTags | backend/routes/analysis/analysis_router.py:79-84 | a tag is kept exactly when its result's toggle is on; with the default toggles every tag is kept |
| Analysis.TotalsAddUp | backend/routes/analysis/analysis_router.py:86-90 | goals, chances and shots add up to the number of events |
| Analysis.AreaKeyNone | backend/routes/analysis/analysis_router.py:94-110 | a tag is counted under "NONE" by area exactly when it has no area |
| Analysis.CrossIceOf | backend/routes/analysis/analysis_router.py:119-121 | the three crossice buckets add up to the number of events |
| Analysis.CrossIceCounts | backend/routes/analysis/analysis_router.py:119-121 | each crossice bucket counts the events with that crossice value |
| Analysis.PointsDescribeTag | backend/routes/analysis/analysis_router.py:123-133 | a point carries its tag's coordinates; its result label reads back to the result, its side is FOR exactly for the team's results, and its area reads back to the area or is empty without one |
| Analysis.NetBins | backend/routes/analysis/analysis_router.py:135-154 | the bins are the net-zone counts, rearranged |
| Analysis.NetBinsSorted | backend/routes/analysis/analysis_router.py:154 | the bins are in zone-key order |
| Analysis.NetBinsCount | backend/routes/analysis/analysis_router.py:135-154 | a bin (zone, n) is listed exactly when n events, at least one, have that net zone |
| Analysis.NetBinsTotal | backend/routes/analysis/analysis_router.py:135-154 | the bin counts add up to the number of events |
| Analysis.Analyze | backend/routes/analysis/analysis_router.py:15-56 | the request is rejected with 400 exactly when no game id is given; otherwise the answer is refused by the response model exactly when a counted tag lacks a coordinate, and else carries the parsed game ids and integer points |
| Analysis.PointsFit | backend/routes/analysis/analysis_router.py:15-31 | an answer's points all have integer coordinates exactly when every counted tag has all four coordinates |
| Analysis.ResponseOf | backend/routes/analysis/analysis_router.py:86-154 | an answer has one ice point and one net point per event |
| Analysis.AnalysisAddsUp | backend/routes/analysis/analysis_router.py:86-154 | in an answer the results, types, strengths, areas, crossice buckets and net bins each add up to the number of events, as do goals, chances and shots |
| Analysis.AnalysisPoints | backend/routes/analysis/analysis_router.py:123-133 | the i-th ice and net points describe the i-th event |
| RosterScraper.SplitLines | backend/roster_scraper/roster_scraper.py:39-42 | every line kept is non-empty and has no whitespace at either end |
| RosterScraper.SplitLinesRoundTrip | backend/roster_scraper/roster_scraper.py:39-42 | non-empty stripped lines without line breaks, joined by newlines, split back into the same lines |
| RosterScraper.DropLeadingNumbers | backend/roster_scraper/roster_scraper.py:76-80 | at most two leading lines are dropped, each a one- or two-digit number, and unless two were dropped the first line left is not such a number |
| RosterScraper.DroppedNumbersFilteredAnyway | backend/roster_scraper/roster_scraper.py:76-85 | the non-number lines are the same whether or not the leading numbers were dropped first |
| RosterScraper.TagOfExact | backend/roster_scraper/roster_scraper.py:92-95 | a text has a given tag exactly when, trailing whitespace aside, it ends with that tag in parentheses in any letter case |
| RosterScraper.TagOfSuffixed | backend/roster_scraper/roster_scraper.py:92-95 | any text followed by a tag in any letter case has that tag |
| RosterNames.Collapse | backend/roster_scraper/roster_scraper.py:108 | collapsing never lengthens a text and keeps whether it starts and whether it ends with whitespace |
| RosterNames.CollapseSingleSpaced | backend/roster_scraper/roster_scraper.py:108 | after collapsing, the only whitespace left is single spaces |
| RosterNames.CollapseFixed | backend/roster_scraper/roster_scraper.py:108 | a single-spaced text is left as it is |
| RosterNames.CollapseIdempotent | backend/roster_scraper/roster_scraper.py:108 | collapsing twice gives what collapsing once gives |
| RosterNames.DropNumberPrefix | backend/roster_scraper/roster_scraper.py:107 | a leading one- or two-digit number and the whitespace after it are removed, leaving a suffix that does not start with whitespace; a text without that prefix is unchanged |
| RosterNames.DropsOneNumberOnly | backend/roster_scraper/roster_scraper.py:107 | only one number is removed: "12 34 Ari" becomes "34 Ari", which still starts with a number |
| Text.LatinSurname | backend/roster_scraper/roster_scraper.py:44-46 | a Finnish letter is cased as Python cases it: "Mäkinen" upper-cases to "MÄKINEN", which title-cases back to "Mäkinen" |
| RosterNames.FormatFirstLast | backend/roster_scraper/roster_scraper.py:53-54 | no lines give the empty name |
| RosterNames.FormatFirstLastOrder | backend/roster_scraper/roster_scraper.py:53-64 | for non-empty stripped lines the name is the title-cased lines joined by single spaces, an all-caps first line moved to the end |
| RosterNames.SurnameLast | backend/roster_scraper/roster_scraper.py:57-62 | an all-caps first line is the surname: the given names come first, then the surname |
| RosterNames.NameOf | backend/roster_scraper/roster_scraper.py:106-109 | a name found is non-empty, has no whitespace at either end and no whitespace but single spaces |
| RosterNames.NameOfSome | backend/roster_scraper/roster_scraper.py:99-109 | non-empty stripped lines always give a name |
| RosterNames.NameOfOrdered | backend/roster_scraper/roster_scraper.py:99-109 | when the formatted lines do not start with a number, the name is exactly the title-cased lines, surname last, joined by single spaces |
| RosterClean.CleanSuffixes | backend/roster_scraper/roster_scraper.py:303-311 | no name stays no name; the cleaned name is never longer and is empty exactly when the name was |
| RosterClean.NoParenUnchanged | backend/roster_scraper/roster_scraper.py:308-310 | a name without a parenthesis is left as it is |
| RosterClean.CleanRemovesInnerTag | backend/roster_scraper/roster_scraper.py:307-310 | a tag with a space on both sides inside a name is replaced by one space |
| RosterClean.OtherTagStays | backend/roster_scraper/roster_scraper.py:308-310 | replacing one tag leaves a different tag where it is |
| RosterClean.CleanKeepsTrailingTag | backend/roster_scraper/roster_scraper.py:307-310 | a tag at the very end of a name, with no space after it, stays in the name |
| RosterCells.ParseCell | backend/roster_scraper/roster_scraper.py:66-109 | a name found is non-empty, has no whitespace at either end and no whitespace but single spaces |
| RosterCells.NumbersIgnored | backend/roster_scraper/roster_scraper.py:85 | the cell read from the lines is the one read from their non-number lines alone |
| RosterCells.NoNameExactly | backend/roster_scraper/roster_scraper.py:74-87 | a cell has no name exactly when every line is a jersey number, and then it has no tag either |
| RosterCells.AsWrittenNameKeepsTag | backend/roster_scraper/roster_scraper.py:92-109 | as written, the cell "Ari (H)" is read as name "Ari (H)" with tag H, and the clean-up leaves that name |
| RosterCells.PeeledTagNeverInName | backend/roster_scraper/roster_scraper.py:92-109 | with the tag taken off the last line, the name is formed from the lines without it and the tag is still reported |
| RosterSlots.SlotKeyRoundTrip | backend/roster_scraper/roster_scraper.py:283 | a slot key reads back as its slot |
| RosterSlots.SlotKeyInjective | backend/roster_scraper/roster_scraper.py:283 | two slots have the same key exactly when they are the same slot |
| RosterSlots.SideOf | backend/roster_scraper/roster_scraper.py:314-316 | the home side is scraped exactly when the user's team plays at home |
| RosterSlots.Named | backend/roster_scraper/roster_scraper.py:268-282 | a cell is written exactly when its parsed name is non-empty, and what is written is the cleaned name; the cell is read as the program reads it (`AsWritten`) or with the tag peeled (`Peeled`) |
| RosterSlots.ExtraRouteLast | backend/roster_scraper/roster_scraper.py:271-283 | the extra cell at line 4, code 2 goes to 5-LW when tagged H and to 4-LD otherwise |
| RosterSlots.ApplyGet | backend/roster_scraper/roster_scraper.py:276-283 | after a run of writes a slot holds the last name written to it, or what it held before |
| RosterSlots.ScrapeTeamSlots | backend/roster_scraper/roster_scraper.py:258-260 | no roster frame gives the empty dictionary, and no key is ever stored twice |
| RosterSlots.ScrapeSlotsGet | backend/roster_scraper/roster_scraper.py:264-293 | for either cell reading, the program's included, each slot holds its reference value: the cleaned name of its own cell; goalies from code 1 of lines 1 and 2; 4-LD empty and 5-LW the extra cell's name (unless line 5's own left wing is named) when the extra cell is tagged H |
| RosterSlots.ScrapeSlotsByKey | backend/roster_scraper/roster_scraper.py:264-293 | the same holds when a slot is looked up by its "line-position" text key |
| Participants.ClickCycles | scoring-frontend/src/pages/Tagging/TaggingComponents/ParticipantsQuestion.jsx:26-44 | the clicked player moves from off the ice to on the ice to participating and back to off; every other player keeps their role |
| Participants.ThreeClicksRestoreRoles | scoring-frontend/src/pages/Tagging/TaggingComponents/ParticipantsQuestion.jsx:26-44 | three clicks on a player give every player the role they had |
| Participants.ThreeClicksRestoreLists | scoring-frontend/src/pages/Tagging/TaggingComponents/ParticipantsQuestion.jsx:30-43 | for a player in neither list, three clicks give back the very same lists |
| Participants.ClickConsistent | scoring-frontend/src/pages/Tagging/TaggingComponents/ParticipantsQuestion.jsx:26-44 | a click keeps every participating player on the ice and both lists free of repeats |
| Participants.ClicksConsistent | scoring-frontend/src/pages/Tagging/TaggingComponents/ParticipantsQuestion.jsx:23-44 | any run of clicks from consistent lists gives consistent lists |
| Participants.Submit | scoring-frontend/src/pages/Tagging/TaggingComponents/ParticipantsQuestion.jsx:46-51 | the tag's other fields are kept |
| Participants.SubmittedConsistent | scoring-frontend/src/pages/Tagging/TaggingComponents/ParticipantsQuestion.jsx:46-51 | a submitted tag keeps its other fields and lists every participating player among the on-ice players, each once |
| RosterSpots.BlockSpots | scoring-frontend/src/pages/CreateGame/CreateGame.jsx:11-25 | a block of n lines has n spots per position, each empty, on a line from 1 to n and at one of the block's positions |
| RosterSpots.BlockDistinct | scoring-frontend/src/pages/CreateGame/CreateGame.jsx:11-25 | no two spots of a block share a line and a position |
| RosterSpots.TemplateShape | scoring-frontend/src/pages/CreateGame/CreateGame.jsx:9-28 | the template has 25 empty spots, no two with the same line and position: forwards at indices 0-14, defenders at 15-22, goalies at 23-24 |
| RosterSpots.TemplateLast | scoring-frontend/src/pages/CreateGame/CreateGame.jsx:21-27 | the spot at index 24 is line 2, position G |
| RosterSpots.JsParseInt | scoring-frontend/src/components/RosterSelector/RosterSelector.jsx:31 | the line reads as NaN exactly when the text does not start with a digit |
| RosterSpots.ParseNat | scoring-frontend/src/components/RosterSelector/RosterSelector.jsx:31 | a number's decimal text reads back as that number |
| RosterSpots.SpotNameRoundTrip | scoring-frontend/src/components/RosterSelector/RosterSelector.jsx:29-43 | the name of a spot with a line and a dash-free position reads back as that line and position |
| RosterSpots.TemplateNamesUnique | scoring-frontend/src/components/RosterSelector/RosterSelector.jsx:29-32 | the name of template spot k matches spot k and no other template spot |
| RosterEditor.FindSpot | scoring-frontend/src/components/RosterSelector/RosterSelector.jsx:30-32 | the index found is the first spot matching the line and position, and -1 exactly when none matches |
| RosterEditor.PlayerListClick | scoring-frontend/src/components/RosterSelector/RosterSelector.jsx:25-48 | nothing changes exactly when no spot is selected; otherwise the length is kept and the first spot matching the selection alone receives the player |
| RosterEditor.ClickAdvances | scoring-frontend/src/components/RosterSelector/RosterSelector.jsx:41-44 | the selection moves to the spot after the one found while that one is before index 24 (to the first spot when none is found), stays from index 24 on, and a missing next spot throws |
| RosterEditor.ClickOnTemplate | scoring-frontend/src/components/RosterSelector/RosterSelector.jsx:25-44 | on the template, selecting spot k and clicking a player fills spot k alone and selects spot k + 1, up to the last spot |
| RosterEditor.ClickKeepsOthers | scoring-frontend/src/pages/CreateGame/RosterSelector.jsx:13-36 | a spot the selection does not point at is unchanged, and the length is kept |
| RosterEditor.RemoveFromSpot | scoring-frontend/src/components/RosterSelector/RosterSelector.jsx:50-61 | every spot keeps its line and position; the spots the name points at lose their player and the others keep theirs |
| RosterEditor.RemoveIdempotent | scoring-frontend/src/components/RosterSelector/RosterSelector.jsx:50-61 | after a removal no spot the name points at holds a player, and removing again changes nothing |
| RosterEditor.RemoveUndoesClick | scoring-frontend/src/components/RosterSelector/RosterSelector.jsx:25-61 | emptying the spot a player was just put in on the template gives the template back |
| RosterEditor.FindPlayer | scoring-frontend/src/components/RosterSelector/RosterSelector.jsx:104 | the player found is the first team player with the entry's id, and there is none exactly when no team player has that id |
| RosterEditor.FillRoster | scoring-frontend/src/components/RosterSelector/RosterSelector.jsx:100-113 | one spot per scraped entry, in order, on the line and position its name gives, holding a team player with the entry's id, or none exactly when the team has no such player |
| RosterEditor.FillFromSlotKeys | scoring-frontend/src/components/RosterSelector/RosterSelector.jsx:100-109 | entries named by the scraper's slot keys give spots on those slots' lines and positions |
| RosterEditor.RostersAreEqual | scoring-frontend/src/components/RosterSelector/RosterSelector.jsx:121-141 | true exactly when the draft is no longer than the saved roster and every draft spot has the same player (both empty or equal ids); a TypeError exactly when the draft is longer and agrees on the saved roster's length |
| RosterEditor.EqualFrom | scoring-frontend/src/components/RosterSelector/RosterSelector.jsx:122-140 | the comparison from an index on: true, false or a TypeError as for the whole rosters |
| RosterEditor.EqualReflexive | scoring-frontend/src/components/RosterSelector/RosterSelector.jsx:121-141 | a draft equals the roster it was copied from |
| RosterEditor.EqualSymmetric | scoring-frontend/src/components/RosterSelector/RosterSelector.jsx:121-141 | for rosters of the same length the comparison does not depend on which is the draft |
| RosterEditor.CancelRoster | scoring-frontend/src/components/RosterSelector/RosterSelector.jsx:143-151 | the user is asked exactly when the rosters differ, and the editor closes exactly when it did not ask or the user confirmed; a comparison error makes cancelling fail |
| RosterEditor.CancelUntouched | scoring-frontend/src/components/RosterSelector/RosterSelector.jsx:143-151 | cancelling an untouched draft closes the editor without asking |
| RosterEditor.CancelAfterClick | scoring-frontend/src/components/RosterSelector/RosterSelector.jsx:143-151 | after a player is put in a template spot, cancelling asks, and closes only on confirmation |
| GamesSelector.FilterInForce | scoring-frontend/src/pages/ExcelExporter/Components/GamesSelector.jsx:61-63 | a change of the home filter uses its new value, any other change the current one |
| GamesSelector.FilterHome | scoring-frontend/src/pages/ExcelExporter/Components/GamesSelector.jsx:60-75 | any choice but "HOME" and "AWAY" returns the games unchanged |
| GamesSelector.FilterHomeExact | scoring-frontend/src/pages/ExcelExporter/Components/GamesSelector.jsx:65-72 | the result is an order-preserving subsequence of the games; a game is kept, as often as it was listed, exactly when it is shown under the choice |
| GamesSelector.UnknownVenueShown | scoring-frontend/src/pages/ExcelExporter/Components/GamesSelector.jsx:65-74 | a game with no venue is shown exactly when neither home nor away is chosen |
| GamesSelector.HandleSort | scoring-frontend/src/pages/ExcelExporter/Components/GamesSelector.jsx:92-102 | the new column is the clicked one; descending exactly when the column sorted ascending is clicked again, ascending otherwise |
| GamesSelector.SortToggles | scoring-frontend/src/pages/ExcelExporter/Components/GamesSelector.jsx:92-102 | a second click on the same column flips the direction and a third gives the first click's state |
| GamesSelector.NewColumnAscends | scoring-frontend/src/pages/ExcelExporter/Components/GamesSelector.jsx:94-96 | a click on another column sorts ascending |
| GamesSelector.SelectAllShown | scoring-frontend/src/pages/ExcelExporter/Components/GamesSelector.jsx:77-80 | after filtering, an id is selected exactly when some game shown under the choice has it |
| GamesSelector.ResetSelection | scoring-frontend/src/pages/ExcelExporter/Components/GamesSelector.jsx:82-84 | no id is selected |

## Left out

- Database queries, sessions and permission checks: the model takes games, rosters and tags as inputs.
- Workbook writing, template sheets and image drawing: the values written are the modelled maps.
- Float arithmetic (percentages, averages).
- Web, authentication and caching plumbing.
- The game label text of the per-game sheets ("date vs opponent"): rows carry the date and opponent as values.
- The order of keys in the legacy player dictionary: it differs from the package one, and only per-player equality is stated.
- The per-game roster entries of the legacy route have no GP key; the model gives them GP 0, as the package does.
- The grouping of tags by game and of links by tag (`group_tags_by_game` and the two link queries in get_stats.py): the model takes each tag with its game and its on-ice and participating player lists.
- The plus-minus workbook writer, the average sheet and the plus-minus router: they only place the modelled values in a template.
- PlusMinusLegacy.LegacyAgrees: requires a non-empty game list, since the legacy route raises IndexError on an empty one where the package returns empty lists.
- The team-statistics constants module (row table, column attributes, value-to-column map, shift map) is not part of this model: the package functions take these tables as a `TeamTables` parameter, with the column map's entries taken as single characters.
- A team tag with no row attribute set is counted under the key of its column followed by "None", which the sheet write would reject; the model counts it under row None and does not model the write.
- The team-statistics tag query and the legacy route's game id parsing and query (team_stats.py:186-200): the model takes the selected tags as input.
- The dashboard's efficiency percentages (dashboard.py:52-53) are rounded floats and are not modelled; the jersey number a player line copies is not modelled either.
- The dashboard's user, team, roster, game and link queries and its 404 errors (dashboard.py:24-43, 194-212): the model takes each game with its roster players, in the order of the newest-first query, and each tag with its on-ice and participating player lists. The players of a game are taken as a given list: the player query's removal of a player listed twice on the roster and the order it returns players in are not modelled.
- Dashboard net-zone keys format the stored net height and width as text; how the database renders those values is not modelled.
- The analysis view's game lookup, team permission check and their 404 and 401 errors (backend/routes/analysis/analysis_router.py:58-62) are not modelled; its shooting percentage (backend/routes/analysis/analysis_router.py:93) is a rounded float and is not modelled.
- Records.Tag: every tag has a shot result; where the code reads `tag.shot_result.value` on a tag without one and fails with AttributeError, the model has no such tag.
- Analysis tags always have a result here; the handler's dropping of tags without one (backend/routes/analysis/analysis_router.py:81) is not modelled.
- Taxonomy.ShotTypeName: the stored value of a shot type is taken to be its enumeration member name (such as "ONE_TIMER"), and `from_string` to look that name up; the enumeration definitions are not part of this model, and ParseShotTypeNames and ToLabel's read-back hold under this assumption.
- Taxonomy.AreaName: likewise, the stored value of a shot area is taken to be its member name, read back by the same lookup; the area labels of the analysis and dashboard views rest on this.
- Analysis.DigitToken: Python's `isdigit` accepts non-ASCII digits; the model accepts only 0-9.
- Analysis.Point: the heat-map point's weight 1.0 is a constant float and is left out; the coordinates stay optional as the handler builds them, and `Analyze` refuses an answer in which one is missing.
- The roster scraper's browser automation (launching the page, finding the roster frame and the visible container, waiting) and its catch-all error handler that returns an empty dictionary: a page is modelled as a map from element ids to cell texts, or None when no roster frame is found.
- Python's `\s` and `\d` are modelled on ASCII whitespace and digits.
- Text.Upper: case mapping covers the ASCII and Latin-1 letters (with ÿ and Ÿ); ß (whose upper case is "SS"), µ, ª, º and letters of other scripts are left as they are, and are not counted as cased by `Text.Title` and `Text.IsUpper`.
- RosterSlots.ScrapeTeamSlots: the dictionary keeps insertion order as an association list, but the lemmas state per-slot lookups, not the key order.
- The extra cell's (P) route writes 4-LD, as the code does; the comment beside it names a fifth-line defence slot, and the model follows the code.
- RosterSpots.JsParseInt: `parseInt`'s leading whitespace, signs and other radixes are not modelled; spot names start with a line number or "NaN".
- RosterEditor.PlayerListClick: the alert shown without a selection and the React state updates are not modelled; a TypeError is modelled as the `Crashed` outcome with the roster update already requested.
- RosterEditor.FillRoster: how the scrape endpoint turns names into player records is not part of this model; an entry carries the id of its player record, absent when the record has none.
- The roster editor's fetch of the scraped lineup, its loading flag and `confirmRoster` (which only hands the draft to the caller) are not modelled.
- GamesSelector: the date filter and `sortByColumn` (JavaScript dates, `localeCompare`, subtraction of booleans) are not modelled; the sort state is.

## Findings

| source | as written | input that shows it | evidently intended | confidence | as-written member | corrected member |
|---|---|---|---|---|---|---|
| backend/routes/excel/player_plus_minus/get_stats.py:26-33 | with two or more namesakes the inner loop compares the grown initials with each namesake from position 0 and appends the player's next letter again for each namesake sharing the first letter | Anton, Aaron and Alex Virtanen on one roster: Anton is written "VIRTANEN Ann." | the shortest prefix of the first name that begins no namesake's first name, "VIRTANEN An." | high, not executed | PlusMinusNames.TwoNamesakesRepeatLetter | PlusMinusNames.InitialsDistinguish |
| backend/roster_scraper/roster_scraper.py:92-109 | the tag is taken off a joined copy of the text that is never used again; the name is formed from the lines that still hold it | the cell "Ari (H)": the name is "Ari (H)", and the clean-up keeps a tag at the very end | the tag is peeled off the name, which is "Ari" | medium, not executed | RosterCells.AsWrittenNameKeepsTag | RosterCells.PeeledTagNeverInName |

/** The roster scrape itself: each player cell of one side of a game page
    is read, and the names found fill a dictionary from slot keys such as
    "1-LW" or "2-G" to display names. The special cell at line 4, code 2
    holds the extra players: an (H) tag sends it to the fifth line's left
    wing. */
module RosterSlots {
  import opened Wrappers
  import Text
  import Dicts
  import RosterScraper
  import RosterClean
  import RosterCells

  // ------------------------------------------------------------- slots

  datatype Position = LW | C | RW | LD | RD | G

  /** A place in the lineup: a line number and a position on it. */
  datatype SlotId = SlotId(line: nat, pos: Position)

  function PosText(p: Position): string {
    match p
    case LW => "LW"
    case C => "C"
    case RW => "RW"
    case LD => "LD"
    case RD => "RD"
    case G => "G"
  }

  /** The site's position code inside a cell's element id. */
  function PosCode(p: Position): nat {
    match p
    case LW => 12
    case C => 3
    case RW => 13
    case LD => 2
    case RD => 11
    case G => 1
  }

  /** The dictionary key of a slot: `f"{line}-{slot}"`. */
  function SlotKey(id: SlotId): string {
    Text.NatToString(id.line) + "-" + PosText(id.pos)
  }

  function PositionOf(s: string): (r: Option<Position>)
    ensures r.Some? ==> PosText(r.value) == s
  {
    if s == "LW" then Some(LW)
    else if s == "C" then Some(C)
    else if s == "RW" then Some(RW)
    else if s == "LD" then Some(LD)
    else if s == "RD" then Some(RD)
    else if s == "G" then Some(G)
    else None
  }

  /** Reads a slot key back: a decimal line number, a dash and a
      position. */
  function ParseSlotKey(s: string): (r: Option<SlotId>)
    ensures r.Some? ==> Text.AllDigits(Text.Split(s, '-')[0])
  {
    var parts := Text.Split(s, '-');
    if |parts| == 2 && |parts[0]| > 0 && Text.AllDigits(parts[0]) && PositionOf(parts[1]).Some? then
      Some(SlotId(Text.DigitsValue(parts[0]), PositionOf(parts[1]).value))
    else None
  }

  lemma PositionOfText(p: Position)
    ensures PositionOf(PosText(p)) == Some(p)
  {
  }

  lemma NoDashInNumber(n: nat)
    ensures '-' !in Text.NatToString(n)
  {
    var s := Text.NatToString(n);
    assert forall i :: 0 <= i < |s| ==> s[i] != '-' by {
      assert Text.AllDigits(s);
    }
  }

  /** Every slot key reads back as its slot. */
  lemma SlotKeyRoundTrip(id: SlotId)
    ensures ParseSlotKey(SlotKey(id)) == Some(id)
  {
    var a, b := Text.NatToString(id.line), PosText(id.pos);
    NoDashInNumber(id.line);
    assert '-' !in b;
    Text.SplitJoin([a, b], '-');
    assert Text.Join([a, b], "-") == SlotKey(id);
    Text.DigitsOfNat(id.line);
    PositionOfText(id.pos);
  }

  /** Distinct slots have distinct keys. */
  lemma SlotKeyInjective(a: SlotId, b: SlotId)
    ensures SlotKey(a) == SlotKey(b) <==> a == b
  {
    SlotKeyRoundTrip(a);
    SlotKeyRoundTrip(b);
  }

  // ------------------------------------------------------------- page

  datatype Side = Home | Away

  function SideText(side: Side): string {
    match side
    case Home => "home"
    case Away => "away"
  }

  /** `scrape_slots` reads the user's own side. */
  function SideOf(userIsHome: bool): (r: Side)
    ensures r == Home <==> userIsHome
  {
    if userIsHome then Home else Away
  }

  /** The element id of a player cell: `f"{side}-roster-p-{line}-{code}"`. */
  function ElemId(side: Side, line: nat, code: nat): string {
    SideText(side) + "-roster-p-" + Text.NatToString(line) + "-" + Text.NatToString(code)
  }

  /** The inner text of the visible node of each element id on the page. */
  type Page = map<string, string>

  /** How a cell's text is read: `AsWritten` forms the name from lines that
      still hold the role tag, as the program does; `Peeled` takes the tag
      off the name first, as evidently intended. */
  datatype Reading = AsWritten | Peeled

  function Read(how: Reading, raw: string): RosterCells.Cell {
    match how
    case AsWritten => RosterCells.ParseCell(raw)
    case Peeled => RosterCells.ParseCellPeeled(raw)
  }

  /** The cell read from an element: nothing when the page has no such
      element, otherwise its text read the given way. */
  function CellAt(page: Page, how: Reading, id: string): (r: RosterCells.Cell)
    ensures id !in page ==> r == RosterCells.Cell(None, None)
  {
    if id in page then Read(how, page[id]) else RosterCells.Cell(None, None)
  }

  /** Python's truthiness of an optional string. */
  predicate Present(name: Option<string>) {
    name.Some? && |name.value| > 0
  }

  /** The cleaned name of the cell at a line and code, when there is one. */
  function Named(page: Page, how: Reading, side: Side, line: nat, code: nat): (r: Option<string>)
    ensures r.Some? <==> Present(CellAt(page, how, ElemId(side, line, code)).name)
    ensures r.Some? ==> r == RosterClean.CleanSuffixes(CellAt(page, how, ElemId(side, line, code)).name)
  {
    var name := RosterClean.CleanSuffixes(CellAt(page, how, ElemId(side, line, code)).name);
    if Present(name) then name else None
  }

  /** The tag of the cell at a line and code. */
  function TagAt(page: Page, how: Reading, side: Side, line: nat, code: nat): Option<RosterScraper.RoleTag> {
    CellAt(page, how, ElemId(side, line, code)).tag
  }

  // ------------------------------------------------------------ writes

  type Write = (SlotId, string)

  /** What the skater loop body writes for a cell with this cleaned name
      and tag. */
  function Route(line: nat, p: Position, name: Option<string>, tag: Option<RosterScraper.RoleTag>): (r: seq<Write>)
    ensures |r| <= 1
  {
    if name.None? then []
    else if line == 4 && p == LD && tag == Some(RosterScraper.H) then [(SlotId(5, LW), name.value)]
    else if line == 4 && p == LD && tag == Some(RosterScraper.P) then [(SlotId(4, LD), name.value)]
    else [(SlotId(line, p), name.value)]
  }

  function CellWrites(page: Page, how: Reading, side: Side, line: nat, p: Position): seq<Write> {
    Route(line, p, Named(page, how, side, line, PosCode(p)), TagAt(page, how, side, line, PosCode(p)))
  }

  /** One line of skaters, in the order of the position-code table. */
  function LineWrites(page: Page, how: Reading, side: Side, line: nat): seq<Write> {
    CellWrites(page, how, side, line, LW) + CellWrites(page, how, side, line, C) + CellWrites(page, how, side, line, RW)
      + CellWrites(page, how, side, line, LD) + CellWrites(page, how, side, line, RD)
  }

  /** A goalie cell: `if name: results[label] = clean(name)`. */
  function GoalieWrites(page: Page, how: Reading, side: Side, line: nat): (r: seq<Write>)
    ensures |r| <= 1
  {
    var name := Named(page, how, side, line, PosCode(G));
    if name.Some? then [(SlotId(line, G), name.value)] else []
  }

  /** Every write of a scrape, in program order: lines 1 to 5, then the
      starting and the backup goalie. */
  function Writes(page: Page, how: Reading, side: Side): seq<Write> {
    LineWrites(page, how, side, 1) + LineWrites(page, how, side, 2) + LineWrites(page, how, side, 3)
      + LineWrites(page, how, side, 4) + LineWrites(page, how, side, 5)
      + GoalieWrites(page, how, side, 1) + GoalieWrites(page, how, side, 2)
  }

  // ----------------------------------------------------------- folding

  /** `results[k] = v` for each write in turn. */
  function Apply(d: Dicts.Dict<SlotId, string>, ws: seq<Write>): (r: Dicts.Dict<SlotId, string>)
    decreases |ws|
  {
    if |ws| == 0 then d else Apply(Dicts.Put(d, ws[0].0, ws[0].1), ws[1..])
  }

  /** The value of the last write to a slot. */
  function LastFor(ws: seq<Write>, id: SlotId): (r: Option<string>)
    ensures r.Some? ==> exists i :: 0 <= i < |ws| && ws[i] == (id, r.value)
    decreases |ws|
  {
    if |ws| == 0 then None
    else
      var later := LastFor(ws[1..], id);
      if later.Some? then
        assert exists i :: 0 <= i < |ws[1..]| && ws[1..][i] == (id, later.value);
        var i :| 0 <= i < |ws[1..]| && ws[1..][i] == (id, later.value);
        assert ws[i + 1] == (id, later.value);
        later
      else if ws[0].0 == id then Some(ws[0].1)
      else None
  }

  lemma {:induction false} ApplyValid(d: Dicts.Dict<SlotId, string>, ws: seq<Write>)
    requires Dicts.Valid(d)
    ensures Dicts.Valid(Apply(d, ws))
    decreases |ws|
  {
    if |ws| > 0 {
      Dicts.PutValid(d, ws[0].0, ws[0].1);
      ApplyValid(Dicts.Put(d, ws[0].0, ws[0].1), ws[1..]);
    }
  }

  /** Applying writes to a dictionary: a slot holds its last write, or
      what it held before when nothing wrote to it. */
  lemma {:induction false} ApplyGet(d: Dicts.Dict<SlotId, string>, ws: seq<Write>, id: SlotId)
    requires Dicts.Valid(d)
    ensures Dicts.Get(Apply(d, ws), id) == if LastFor(ws, id).Some? then LastFor(ws, id) else Dicts.Get(d, id)
    decreases |ws|
  {
    if |ws| > 0 {
      var d' := Dicts.Put(d, ws[0].0, ws[0].1);
      Dicts.PutValid(d, ws[0].0, ws[0].1);
      Dicts.PutGet(d, ws[0].0, ws[0].1, id);
      ApplyGet(d', ws[1..], id);
    }
  }

  /** The last write in two runs of writes is the second run's, if it
      has one. */
  lemma {:induction false} LastForAppend(a: seq<Write>, b: seq<Write>, id: SlotId)
    ensures LastFor(a + b, id) == if LastFor(b, id).Some? then LastFor(b, id) else LastFor(a, id)
    decreases |a|
  {
    if |a| > 0 {
      assert (a + b)[1..] == a[1..] + b;
      LastForAppend(a[1..], b, id);
    } else {
      assert a + b == b;
    }
  }

  // ---------------------------------------------------------- scraping

  /** `scrape_team_slots`: no roster frame gives the empty dictionary;
      otherwise every write is applied to it. The program's scrape reads
      its cells `AsWritten`; `Peeled` gives the corrected scrape. */
  function ScrapeTeamSlots(page: Option<Page>, how: Reading, side: Side): (r: Dicts.Dict<SlotId, string>)
    ensures Dicts.Valid(r)
    ensures page.None? ==> r == []
  {
    if page.None? then []
    else
      var r := Apply([], Writes(page.value, how, side));
      ApplyValid([], Writes(page.value, how, side));
      r
  }

  /** The dictionary with the site's string keys. */
  function Keyed(d: Dicts.Dict<SlotId, string>): (r: Dicts.Dict<string, string>)
    ensures |r| == |d|
    decreases |d|
  {
    if |d| == 0 then [] else [(SlotKey(d[0].0), d[0].1)] + Keyed(d[1..])
  }

  /** Looking a slot up by its key finds what the slot holds. */
  lemma {:induction false} KeyedGet(d: Dicts.Dict<SlotId, string>, id: SlotId)
    ensures Dicts.Get(Keyed(d), SlotKey(id)) == Dicts.Get(d, id)
    decreases |d|
  {
    if |d| > 0 {
      SlotKeyInjective(d[0].0, id);
      var k := Keyed(d);
      assert k[0] == (SlotKey(d[0].0), d[0].1);
      assert k[1..] == Keyed(d[1..]);
      KeyedGet(d[1..], id);
    }
  }

  /** What the scrape promises for each slot: the skater cell of that
      line and position, except that line 5's left wing falls back on an
      (H)-tagged extra cell and line 4's left defence is empty when that
      cell is such an extra forward; the goalies come from code 1 on
      lines 1 and 2. */
  function Expected(page: Page, how: Reading, side: Side, id: SlotId): Option<string> {
    var extra := Named(page, how, side, 4, PosCode(LD));
    var extraIsForward := TagAt(page, how, side, 4, PosCode(LD)) == Some(RosterScraper.H);
    if id.pos == G then
      if id.line == 1 || id.line == 2 then Named(page, how, side, id.line, PosCode(G)) else None
    else if id.line < 1 || id.line > 5 then None
    else if id == SlotId(5, LW) then
      var own := Named(page, how, side, 5, PosCode(LW));
      if own.Some? then own else if extraIsForward then extra else None
    else if id == SlotId(4, LD) then
      if extraIsForward then None else extra
    else Named(page, how, side, id.line, PosCode(id.pos))
  }

  lemma LastForOne(w: Write, id: SlotId)
    ensures LastFor([w], id) == if w.0 == id then Some(w.1) else None
  {
  }

  /** An ordinary skater cell writes its own slot and nothing else. */
  lemma RouteLast(line: nat, p: Position, name: Option<string>, tag: Option<RosterScraper.RoleTag>, id: SlotId)
    requires !(line == 4 && p == LD)
    ensures LastFor(Route(line, p, name, tag), id) == if id == SlotId(line, p) then name else None
  {
    if name.Some? {
      LastForOne((SlotId(line, p), name.value), id);
    }
  }

  /** The extra cell writes line 5's left wing when tagged (H), and line
      4's left defence otherwise: a (P) tag changes nothing. */
  lemma ExtraRouteLast(name: Option<string>, tag: Option<RosterScraper.RoleTag>, id: SlotId)
    ensures LastFor(Route(4, LD, name, tag), id)
      == if tag == Some(RosterScraper.H) then
           (if id == SlotId(5, LW) then name else None)
         else
           (if id == SlotId(4, LD) then name else None)
  {
    if name.Some? {
      if tag == Some(RosterScraper.H) {
        LastForOne((SlotId(5, LW), name.value), id);
      } else {
        LastForOne((SlotId(4, LD), name.value), id);
      }
    }
  }

  lemma CellLast(page: Page, how: Reading, side: Side, line: nat, p: Position, id: SlotId)
    requires !(line == 4 && p == LD)
    ensures LastFor(CellWrites(page, how, side, line, p), id)
      == if id == SlotId(line, p) then Named(page, how, side, line, PosCode(p)) else None
  {
    RouteLast(line, p, Named(page, how, side, line, PosCode(p)), TagAt(page, how, side, line, PosCode(p)), id);
  }

  lemma ExtraCellLast(page: Page, how: Reading, side: Side, id: SlotId)
    ensures LastFor(CellWrites(page, how, side, 4, LD), id)
      == if TagAt(page, how, side, 4, PosCode(LD)) == Some(RosterScraper.H) then
           (if id == SlotId(5, LW) then Named(page, how, side, 4, PosCode(LD)) else None)
         else
           (if id == SlotId(4, LD) then Named(page, how, side, 4, PosCode(LD)) else None)
  {
    ExtraRouteLast(Named(page, how, side, 4, PosCode(LD)), TagAt(page, how, side, 4, PosCode(LD)), id);
  }

  /** A line's writes, slot by slot: the own cell of each skater
      position, and for line 4 the extra cell's redirection. */
  lemma LineLast(page: Page, how: Reading, side: Side, line: nat, id: SlotId)
    ensures LastFor(LineWrites(page, how, side, line), id)
      == if line == 4 && (id == SlotId(5, LW) || id == SlotId(4, LD)) then
           LastFor(CellWrites(page, how, side, 4, LD), id)
         else if id.line == line && id.pos != G then Named(page, how, side, line, PosCode(id.pos))
         else None
  {
    var a := CellWrites(page, how, side, line, LW);
    var b := CellWrites(page, how, side, line, C);
    var c := CellWrites(page, how, side, line, RW);
    var d := CellWrites(page, how, side, line, LD);
    var e := CellWrites(page, how, side, line, RD);
    LastForAppend(a + b + c + d, e, id);
    LastForAppend(a + b + c, d, id);
    LastForAppend(a + b, c, id);
    LastForAppend(a, b, id);
    CellLast(page, how, side, line, LW, id);
    CellLast(page, how, side, line, C, id);
    CellLast(page, how, side, line, RW, id);
    CellLast(page, how, side, line, RD, id);
    if line == 4 {
      ExtraCellLast(page, how, side, id);
    } else {
      CellLast(page, how, side, line, LD, id);
    }
  }

  lemma GoalieLast(page: Page, how: Reading, side: Side, line: nat, id: SlotId)
    ensures LastFor(GoalieWrites(page, how, side, line), id)
      == if id == SlotId(line, G) then Named(page, how, side, line, PosCode(G)) else None
  {
    var name := Named(page, how, side, line, PosCode(G));
    if name.Some? {
      LastForOne((SlotId(line, G), name.value), id);
    }
  }

  /** The scrape fills each slot as `Expected` says. */
  lemma ScrapeSlotsGet(page: Page, how: Reading, side: Side, id: SlotId)
    ensures Dicts.Get(ScrapeTeamSlots(Some(page), how, side), id) == Expected(page, how, side, id)
  {
    var ws := Writes(page, how, side);
    ApplyGet([], ws, id);
    WritesLast(page, how, side, id);
  }

  lemma WritesLast(page: Page, how: Reading, side: Side, id: SlotId)
    ensures LastFor(Writes(page, how, side), id) == Expected(page, how, side, id)
  {
    var l1, l2, l3 := LineWrites(page, how, side, 1), LineWrites(page, how, side, 2), LineWrites(page, how, side, 3);
    var l4, l5 := LineWrites(page, how, side, 4), LineWrites(page, how, side, 5);
    var g1, g2 := GoalieWrites(page, how, side, 1), GoalieWrites(page, how, side, 2);
    LastForAppend(l1 + l2 + l3 + l4 + l5 + g1, g2, id);
    LastForAppend(l1 + l2 + l3 + l4 + l5, g1, id);
    LastForAppend(l1 + l2 + l3 + l4, l5, id);
    LastForAppend(l1 + l2 + l3, l4, id);
    LastForAppend(l1 + l2, l3, id);
    LastForAppend(l1, l2, id);
    LineLast(page, how, side, 1, id);
    LineLast(page, how, side, 2, id);
    LineLast(page, how, side, 3, id);
    LineLast(page, how, side, 4, id);
    LineLast(page, how, side, 5, id);
    GoalieLast(page, how, side, 1, id);
    GoalieLast(page, how, side, 2, id);
    ExtraCellLast(page, how, side, id);
  }

  /** The same, looked up by the site's string keys. */
  lemma ScrapeSlotsByKey(page: Page, how: Reading, side: Side, id: SlotId)
    ensures Dicts.Get(Keyed(ScrapeTeamSlots(Some(page), how, side)), SlotKey(id)) == Expected(page, how, side, id)
  {
    KeyedGet(ScrapeTeamSlots(Some(page), how, side), id);
    ScrapeSlotsGet(page, how, side, id);
  }
}

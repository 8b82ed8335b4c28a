/** The vocabulary of the plus-minus report: its three strengths, the
    codes of the four counted results, the 24 stat keys
    "{strength}-{role}{result}" and the sheet column each counter is
    written to. */
module PlusMinusKeys {
  import opened Wrappers
  import opened Taxonomy
  import opened SheetColumns

  /** The strengths the report counts; empty-net play has no member. */
  datatype PmStrength = ES | PP | PK

  function PmStrengthLabel(s: PmStrength): string {
    match s
    case ES => "ES"
    case PP => "PP"
    case PK => "PK"
  }

  /** The strength whose label is `s`; any other text raises KeyError. */
  function ParsePmStrength(s: string): (r: Result<PmStrength>)
    ensures r.Err? ==> r.error == KeyError
  {
    if s == "ES" then Ok(ES)
    else if s == "PP" then Ok(PP)
    else if s == "PK" then Ok(PK)
    else Err(KeyError)
  }

  /** Parsing accepts exactly the three labels and inverts labelling. */
  lemma ParsePmStrengthExact(s: string)
    ensures ParsePmStrength(s).Ok? <==> s == "ES" || s == "PP" || s == "PK"
    ensures ParsePmStrength(s).Ok? ==> PmStrengthLabel(ParsePmStrength(s).value) == s
  {
  }

  lemma PmStrengthRoundTrip(s: PmStrength)
    ensures ParsePmStrength(PmStrengthLabel(s)) == Ok(s)
  {
  }

  /** Goals and chances; shots are not counted by the report. */
  predicate CountedResult(r: ShotResult) {
    r != ShotFor && r != ShotAgainst
  }

  /** The result's code in a stat key; shots have none (KeyError). */
  function ResultCode(r: ShotResult): (c: Result<string>)
    ensures c.Ok? <==> CountedResult(r)
    ensures c.Err? ==> c.error == KeyError
    ensures c.Ok? ==> |c.value| == 2
  {
    match r
    case GoalFor => Ok("G+")
    case GoalAgainst => Ok("G-")
    case ChanceFor => Ok("C+")
    case ChanceAgainst => Ok("C-")
    case _ => Err(KeyError)
  }

  function RoleCode(role: Role): string {
    match role
    case OnIce => "OI"
    case Participating => "P"
  }

  /** A tag is passed over when its strength text is not ES, PP or PK
      (the empty-net tags) or when it is a plain shot. */
  predicate ShouldSkip(strengths: string, r: ShotResult) {
    !(strengths == "ES" || strengths == "PP" || strengths == "PK") || r == ShotFor || r == ShotAgainst
  }

  /** The tags that are not skipped are exactly those whose strength and
      result both have a key part, so building their key never fails. */
  lemma KeptTagsHaveKeys(strengths: string, r: ShotResult)
    ensures !ShouldSkip(strengths, r) <==> ParsePmStrength(strengths).Ok? && ResultCode(r).Ok?
  {
  }

  /** One counter of a player: strength, role and result. */
  datatype StatCell = StatCell(strength: PmStrength, role: Role, result: ShotResult)

  predicate Counted(c: StatCell) {
    CountedResult(c.result)
  }

  /** The counter's key, e.g. "PP-OIG+" or "ES-PC-". */
  function StatKey(c: StatCell): (k: string)
    requires Counted(c)
  {
    PmStrengthLabel(c.strength) + "-" + RoleCode(c.role) + ResultCode(c.result).value
  }

  /** The key as the count loop spells it, from the tag's raw strength text. */
  function KeyOfTag(strengths: string, role: Role, r: ShotResult): (k: string)
    requires !ShouldSkip(strengths, r)
    ensures k == StatKey(StatCell(ParsePmStrength(strengths).value, role, r))
  {
    strengths + "-" + RoleCode(role) + ResultCode(r).value
  }

  function StrengthOfLabel(s: string): Option<PmStrength> {
    if s == "ES" then Some(ES) else if s == "PP" then Some(PP) else if s == "PK" then Some(PK) else None
  }

  function ResultOfCode(s: string): Option<ShotResult> {
    if s == "G+" then Some(GoalFor)
    else if s == "G-" then Some(GoalAgainst)
    else if s == "C+" then Some(ChanceFor)
    else if s == "C-" then Some(ChanceAgainst)
    else None
  }

  /** Reads a stat key back into its counter. */
  function ParseStatKey(k: string): (r: Option<StatCell>)
    ensures r.Some? ==> Counted(r.value)
  {
    if |k| < 5 || k[2] != '-' then None
    else
      var s := StrengthOfLabel(k[..2]);
      var role: Option<Role> :=
        if k[3..] [..1] == "P" then Some(Participating)
        else if |k| >= 6 && k[3..5] == "OI" then Some(OnIce)
        else None;
      if s.None? || role.None? then None
      else
        var rest := if role.value == Participating then k[4..] else k[5..];
        var res := ResultOfCode(rest);
        if res.None? then None else Some(StatCell(s.value, role.value, res.value))
  }

  /** Writing a key and reading it back gives the counter again. */
  lemma StatKeyRoundTrip(c: StatCell)
    requires Counted(c)
    ensures ParseStatKey(StatKey(c)) == Some(c)
  {
    var k := StatKey(c);
    assert k[..2] == PmStrengthLabel(c.strength);
    assert k[2] == '-';
    if c.role == Participating {
      assert k[3..][..1] == "P";
      assert k[4..] == ResultCode(c.result).value;
    } else {
      assert k[3..][..1] == "O";
      assert k[3..5] == "OI";
      assert k[5..] == ResultCode(c.result).value;
    }
  }

  /** Every text that reads as a counter is that counter's key. */
  lemma ParseStatKeyExact(k: string)
    requires ParseStatKey(k).Some?
    ensures StatKey(ParseStatKey(k).value) == k
  {
    var c := ParseStatKey(k).value;
    if c.role == Participating {
      assert k == k[..2] + [k[2]] + k[3..4] + k[4..];
    } else {
      assert k == k[..2] + [k[2]] + k[3..5] + k[5..];
    }
  }

  /** Different counters have different keys. */
  lemma StatKeyInjective(a: StatCell, b: StatCell)
    requires Counted(a) && Counted(b)
    ensures StatKey(a) == StatKey(b) ==> a == b
  {
    StatKeyRoundTrip(a);
    StatKeyRoundTrip(b);
  }

  /** The 24 keys in the report's order. */
  const StatKeys: seq<string> := [
    "ES-PG+", "ES-PG-", "ES-PC+", "ES-PC-", "ES-OIG+", "ES-OIG-", "ES-OIC+", "ES-OIC-",
    "PP-PG+", "PP-PG-", "PP-PC+", "PP-PC-", "PP-OIG+", "PP-OIG-", "PP-OIC+", "PP-OIC-",
    "PK-PG+", "PK-PG-", "PK-PC+", "PK-PC-", "PK-OIG+", "PK-OIG-", "PK-OIC+", "PK-OIC-"]

  /** The counter listed at position `i`: strengths in blocks of eight,
      participation before on-ice, results in the order G+, G-, C+, C-. */
  function CellAt(i: int): (c: StatCell)
    requires 0 <= i < 24
    ensures Counted(c)
  {
    var s := if i < 8 then ES else if i < 16 then PP else PK;
    var role := if i % 8 < 4 then Participating else OnIce;
    var r := match i % 4 { case 0 => GoalFor case 1 => GoalAgainst case 2 => ChanceFor case _ => ChanceAgainst };
    StatCell(s, role, r)
  }

  lemma StatKeysListCells(i: int)
    requires 0 <= i < 24
    ensures StatKeys[i] == StatKey(CellAt(i))
  {
    if i < 4 {
      StatKeysBlockESP();
      if i == 0 {} else if i == 1 {} else if i == 2 {} else {}
    } else if i < 8 {
      StatKeysBlockESOI();
      if i == 4 {} else if i == 5 {} else if i == 6 {} else {}
    } else if i < 12 {
      StatKeysBlockPPP();
      if i == 8 {} else if i == 9 {} else if i == 10 {} else {}
    } else if i < 16 {
      StatKeysBlockPPOI();
      if i == 12 {} else if i == 13 {} else if i == 14 {} else {}
    } else if i < 20 {
      StatKeysBlockPKP();
      if i == 16 {} else if i == 17 {} else if i == 18 {} else {}
    } else {
      StatKeysBlockPKOI();
      if i == 20 {} else if i == 21 {} else if i == 22 {} else {}
    }
  }

  lemma StatKeysBlockESP()
    ensures StatKeys[0] == StatKey(CellAt(0))
    ensures StatKeys[1] == StatKey(CellAt(1))
    ensures StatKeys[2] == StatKey(CellAt(2))
    ensures StatKeys[3] == StatKey(CellAt(3))
  {
  }

  lemma StatKeysBlockESOI()
    ensures StatKeys[4] == StatKey(CellAt(4))
    ensures StatKeys[5] == StatKey(CellAt(5))
    ensures StatKeys[6] == StatKey(CellAt(6))
    ensures StatKeys[7] == StatKey(CellAt(7))
  {
  }

  lemma StatKeysBlockPPP()
    ensures StatKeys[8] == StatKey(CellAt(8))
    ensures StatKeys[9] == StatKey(CellAt(9))
    ensures StatKeys[10] == StatKey(CellAt(10))
    ensures StatKeys[11] == StatKey(CellAt(11))
  {
  }

  lemma StatKeysBlockPPOI()
    ensures StatKeys[12] == StatKey(CellAt(12))
    ensures StatKeys[13] == StatKey(CellAt(13))
    ensures StatKeys[14] == StatKey(CellAt(14))
    ensures StatKeys[15] == StatKey(CellAt(15))
  {
  }

  lemma StatKeysBlockPKP()
    ensures StatKeys[16] == StatKey(CellAt(16))
    ensures StatKeys[17] == StatKey(CellAt(17))
    ensures StatKeys[18] == StatKey(CellAt(18))
    ensures StatKeys[19] == StatKey(CellAt(19))
  {
  }

  lemma StatKeysBlockPKOI()
    ensures StatKeys[20] == StatKey(CellAt(20))
    ensures StatKeys[21] == StatKey(CellAt(21))
    ensures StatKeys[22] == StatKey(CellAt(22))
    ensures StatKeys[23] == StatKey(CellAt(23))
  {
  }

  /** The positions of a counter in the list, inverse to CellAt. */
  function IndexOf(c: StatCell): (i: int)
    requires Counted(c)
    ensures 0 <= i < 24
  {
    var s := match c.strength { case ES => 0 case PP => 8 case PK => 16 };
    var role := if c.role == Participating then 0 else 4;
    var r := match c.result { case GoalFor => 0 case GoalAgainst => 1 case ChanceFor => 2 case _ => 3 };
    s + role + r
  }

  lemma CellAtIndexOf(c: StatCell)
    requires Counted(c)
    ensures CellAt(IndexOf(c)) == c
  {
  }

  /** The key list holds 24 different keys, and they are exactly the keys
      of the counted counters: three strengths times two roles times four
      results. */
  lemma StatKeysExact(k: string)
    ensures |StatKeys| == 24
    ensures k in StatKeys <==> ParseStatKey(k).Some?
  {
    if k in StatKeys {
      var i :| 0 <= i < 24 && StatKeys[i] == k;
      StatKeysListCells(i);
      StatKeyRoundTrip(CellAt(i));
    }
    if ParseStatKey(k).Some? {
      var c := ParseStatKey(k).value;
      ParseStatKeyExact(k);
      CellAtIndexOf(c);
      StatKeysListCells(IndexOf(c));
    }
  }

  lemma StatKeysDistinct(i: int, j: int)
    requires 0 <= i < j < 24
    ensures StatKeys[i] != StatKeys[j]
  {
    StatKeysListCells(i);
    StatKeysListCells(j);
    StatKeyInjective(CellAt(i), CellAt(j));
  }

  /** Every counted counter's key is listed. */
  lemma StatKeyListed(c: StatCell)
    requires Counted(c)
    ensures StatKey(c) in StatKeys
  {
    StatKeyRoundTrip(c);
    StatKeysExact(StatKey(c));
  }

  /** A fresh stat dictionary: every listed key at zero. */
  function EmptyStats(): (m: map<string, nat>)
    ensures forall k :: k in m <==> k in StatKeys
    ensures forall k :: k in m ==> m[k] == 0
  {
    map k | k in StatKeys :: 0
  }

  const PmStrengths: seq<PmStrength> := [ES, PP, PK]
  const Roles: seq<Role> := [OnIce, Participating]

  lemma EveryValueListed(c: StatCell)
    ensures c.strength in PmStrengths && c.role in Roles && c.result in AllResults
  {
    match c.strength { case ES => assert PmStrengths[0] == ES; case PP => assert PmStrengths[1] == PP; case PK => assert PmStrengths[2] == PK; }
    match c.role { case OnIce => assert Roles[0] == OnIce; case Participating => assert Roles[1] == Participating; }
    match c.result {
      case GoalFor => assert AllResults[0] == GoalFor;
      case GoalAgainst => assert AllResults[1] == GoalAgainst;
      case ChanceFor => assert AllResults[2] == ChanceFor;
      case ChanceAgainst => assert AllResults[3] == ChanceAgainst;
      case ShotFor => assert AllResults[4] == ShotFor;
      case ShotAgainst => assert AllResults[5] == ShotAgainst;
    }
  }

  /** The nested zero dictionary, flattened to its counters; the constants
      module's version has a zero for every result, shots included, the
      player class's version leaves the shots out. */
  function EmptyStatsDict(withShots: bool): (m: map<StatCell, nat>)
    ensures forall c: StatCell :: c in m <==> withShots || Counted(c)
    ensures forall c :: c in m ==> m[c] == 0
  {
    var cells := set s, role, r | s in PmStrengths && role in Roles && r in AllResults && (withShots || CountedResult(r)) :: StatCell(s, role, r);
    assert forall c: StatCell :: withShots || Counted(c) ==> c in cells by {
      forall c: StatCell | withShots || Counted(c) ensures c in cells {
        EveryValueListed(c);
      }
    }
    map c | c in cells :: 0
  }

  /** The column of each counter in the player class's table (also the
      legacy route's): on-ice before participating, G+, G-, then one
      column skipped, C+, C-. Shot results have no column (KeyError). */
  function DomainColumn(c: StatCell): (r: Result<string>)
    ensures r.Ok? <==> Counted(c)
  {
    match c.strength
    case ES =>
      (match c.role
       case OnIce => (match c.result case GoalFor => Ok("A") case GoalAgainst => Ok("B") case ChanceFor => Ok("D") case ChanceAgainst => Ok("E") case _ => Err(KeyError))
       case Participating => (match c.result case GoalFor => Ok("H") case GoalAgainst => Ok("I") case ChanceFor => Ok("K") case ChanceAgainst => Ok("L") case _ => Err(KeyError)))
    case PP =>
      (match c.role
       case OnIce => (match c.result case GoalFor => Ok("O") case GoalAgainst => Ok("P") case ChanceFor => Ok("R") case ChanceAgainst => Ok("S") case _ => Err(KeyError))
       case Participating => (match c.result case GoalFor => Ok("V") case GoalAgainst => Ok("W") case ChanceFor => Ok("Y") case ChanceAgainst => Ok("Z") case _ => Err(KeyError)))
    case PK =>
      (match c.role
       case OnIce => (match c.result case GoalFor => Ok("AC") case GoalAgainst => Ok("AD") case ChanceFor => Ok("AF") case ChanceAgainst => Ok("AG") case _ => Err(KeyError))
       case Participating => (match c.result case GoalFor => Ok("AJ") case GoalAgainst => Ok("AK") case ChanceFor => Ok("AM") case ChanceAgainst => Ok("AN") case _ => Err(KeyError)))
  }

  /** The constants module's table: the same as DomainColumn except that
      its power-play on-ice chances are swapped, C+ on S and C- on R. */
  function ConstantsColumn(c: StatCell): (r: Result<string>)
    ensures r.Ok? <==> Counted(c)
  {
    if c == StatCell(PP, OnIce, ChanceFor) then Ok("S")
    else if c == StatCell(PP, OnIce, ChanceAgainst) then Ok("R")
    else DomainColumn(c)
  }

  /** Code point of a counter's column: seven columns per strength and
      role block, fourteen per strength, result offsets 0, 1, 3, 4. */
  function ColumnCode(c: StatCell): (code: int)
    requires Counted(c)
    ensures 'A' as int <= code <= 104
  {
    var s := match c.strength { case ES => 0 case PP => 1 case PK => 2 };
    var role := if c.role == OnIce then 0 else 1;
    var off := match c.result { case GoalFor => 0 case GoalAgainst => 1 case ChanceFor => 3 case _ => 4 };
    65 + 14 * s + 7 * role + off
  }

  /** The player class's table is this arithmetic layout, spelled with
      the two-letter wrap past Z. */
  lemma DomainColumnLayout(c: StatCell)
    requires Counted(c)
    ensures DomainColumn(c) == Ok(WrapColumn(ColumnCode(c)))
  {
  }

  lemma ColumnCodeInjective(a: StatCell, b: StatCell)
    requires Counted(a) && Counted(b)
    ensures ColumnCode(a) == ColumnCode(b) ==> a == b
  {
  }

  /** The 24 columns of the player class's table are distinct. */
  lemma DomainColumnsDistinct(a: StatCell, b: StatCell)
    requires Counted(a) && Counted(b)
    ensures DomainColumn(a) == DomainColumn(b) ==> a == b
  {
    DomainColumnLayout(a);
    DomainColumnLayout(b);
    WrapColumnInjective(ColumnCode(a), ColumnCode(b));
    ColumnCodeInjective(a, b);
  }

  /** The name columns: G, U, AI and AW. */
  const NameColumns: seq<string> := ["G", "U", "AI", "AW"]

  /** No counter is written over a name column. */
  lemma DomainColumnsMissNames(c: StatCell)
    requires Counted(c)
    ensures DomainColumn(c).value !in NameColumns
  {
    DomainColumnLayout(c);
    var code := ColumnCode(c);
    WrapColumnInjective(code, 'G' as int);
    WrapColumnInjective(code, 'U' as int);
    WrapColumnInjective(code, 'I' as int + 26);
    WrapColumnInjective(code, 'W' as int + 26);
    assert WrapColumn('G' as int) == "G";
    assert WrapColumn('U' as int) == "U";
    assert WrapColumn('I' as int + 26) == "AI";
    assert WrapColumn('W' as int + 26) == "AW";
  }

  /** The two tables differ on the power-play on-ice chances only, and the
      constants module's table is a relabelling of the same 24 columns:
      still distinct and clear of the name columns. */
  lemma ConstantsColumnsAgree(a: StatCell, b: StatCell)
    requires Counted(a) && Counted(b)
    ensures ConstantsColumn(a) == DomainColumn(a) <==> a.strength != PP || a.role != OnIce || !(a.result == ChanceFor || a.result == ChanceAgainst)
    ensures ConstantsColumn(a) == ConstantsColumn(b) ==> a == b
    ensures ConstantsColumn(a).value !in NameColumns
  {
    var sf, sa := StatCell(PP, OnIce, ChanceFor), StatCell(PP, OnIce, ChanceAgainst);
    assert DomainColumn(sf) == Ok("R") && DomainColumn(sa) == Ok("S");
    var a' := if a == sf then sa else if a == sa then sf else a;
    var b' := if b == sf then sa else if b == sa then sf else b;
    assert ConstantsColumn(a) == DomainColumn(a');
    assert ConstantsColumn(b) == DomainColumn(b');
    DomainColumnsDistinct(a', b');
    DomainColumnsMissNames(a');
  }

  /** The legacy route's key-to-column table: eight keys without a
      strength prefix and the 24 prefixed ones. */
  const LegacyColumns: map<string, string> := map[
    "OIG+" := "A", "OIG-" := "B", "OIC+" := "D", "OIC-" := "E",
    "PG+" := "H", "PG-" := "I", "PC+" := "K", "PC-" := "L",
    "ES-OIG+" := "A", "ES-OIG-" := "B", "ES-OIC+" := "D", "ES-OIC-" := "E",
    "ES-PG+" := "H", "ES-PG-" := "I", "ES-PC+" := "K", "ES-PC-" := "L",
    "PP-OIG+" := "O", "PP-OIG-" := "P", "PP-OIC+" := "R", "PP-OIC-" := "S",
    "PP-PG+" := "V", "PP-PG-" := "W", "PP-PC+" := "Y", "PP-PC-" := "Z",
    "PK-OIG+" := "AC", "PK-OIG-" := "AD", "PK-OIC+" := "AF", "PK-OIC-" := "AG",
    "PK-PG+" := "AJ", "PK-PG-" := "AK", "PK-PC+" := "AM", "PK-PC-" := "AN"]

  /** Writing a counter through the legacy table lands on the player
      class's column for it; the legacy table has every stat key. */
  lemma LegacyColumnsAgree(i: int)
    requires 0 <= i < 24
    ensures StatKeys[i] in LegacyColumns
    ensures Ok(LegacyColumns[StatKeys[i]]) == DomainColumn(CellAt(i))
  {
    if i < 4 {
      LegacyColumnsBlockESP();
    } else if i < 8 {
      LegacyColumnsBlockESOI();
    } else if i < 12 {
      LegacyColumnsBlockPPP();
    } else if i < 16 {
      LegacyColumnsBlockPPOI();
    } else if i < 20 {
      LegacyColumnsBlockPKP();
    } else {
      LegacyColumnsBlockPKOI();
    }
  }

  lemma LegacyColumnsBlockESP()
    ensures StatKeys[0] in LegacyColumns && Ok(LegacyColumns[StatKeys[0]]) == DomainColumn(CellAt(0))
    ensures StatKeys[1] in LegacyColumns && Ok(LegacyColumns[StatKeys[1]]) == DomainColumn(CellAt(1))
    ensures StatKeys[2] in LegacyColumns && Ok(LegacyColumns[StatKeys[2]]) == DomainColumn(CellAt(2))
    ensures StatKeys[3] in LegacyColumns && Ok(LegacyColumns[StatKeys[3]]) == DomainColumn(CellAt(3))
  {
  }

  lemma LegacyColumnsBlockESOI()
    ensures StatKeys[4] in LegacyColumns && Ok(LegacyColumns[StatKeys[4]]) == DomainColumn(CellAt(4))
    ensures StatKeys[5] in LegacyColumns && Ok(LegacyColumns[StatKeys[5]]) == DomainColumn(CellAt(5))
    ensures StatKeys[6] in LegacyColumns && Ok(LegacyColumns[StatKeys[6]]) == DomainColumn(CellAt(6))
    ensures StatKeys[7] in LegacyColumns && Ok(LegacyColumns[StatKeys[7]]) == DomainColumn(CellAt(7))
  {
  }

  lemma LegacyColumnsBlockPPP()
    ensures StatKeys[8] in LegacyColumns && Ok(LegacyColumns[StatKeys[8]]) == DomainColumn(CellAt(8))
    ensures StatKeys[9] in LegacyColumns && Ok(LegacyColumns[StatKeys[9]]) == DomainColumn(CellAt(9))
    ensures StatKeys[10] in LegacyColumns && Ok(LegacyColumns[StatKeys[10]]) == DomainColumn(CellAt(10))
    ensures StatKeys[11] in LegacyColumns && Ok(LegacyColumns[StatKeys[11]]) == DomainColumn(CellAt(11))
  {
  }

  lemma LegacyColumnsBlockPPOI()
    ensures StatKeys[12] in LegacyColumns && Ok(LegacyColumns[StatKeys[12]]) == DomainColumn(CellAt(12))
    ensures StatKeys[13] in LegacyColumns && Ok(LegacyColumns[StatKeys[13]]) == DomainColumn(CellAt(13))
    ensures StatKeys[14] in LegacyColumns && Ok(LegacyColumns[StatKeys[14]]) == DomainColumn(CellAt(14))
    ensures StatKeys[15] in LegacyColumns && Ok(LegacyColumns[StatKeys[15]]) == DomainColumn(CellAt(15))
  {
  }

  lemma LegacyColumnsBlockPKP()
    ensures StatKeys[16] in LegacyColumns && Ok(LegacyColumns[StatKeys[16]]) == DomainColumn(CellAt(16))
    ensures StatKeys[17] in LegacyColumns && Ok(LegacyColumns[StatKeys[17]]) == DomainColumn(CellAt(17))
    ensures StatKeys[18] in LegacyColumns && Ok(LegacyColumns[StatKeys[18]]) == DomainColumn(CellAt(18))
    ensures StatKeys[19] in LegacyColumns && Ok(LegacyColumns[StatKeys[19]]) == DomainColumn(CellAt(19))
  {
  }

  lemma LegacyColumnsBlockPKOI()
    ensures StatKeys[20] in LegacyColumns && Ok(LegacyColumns[StatKeys[20]]) == DomainColumn(CellAt(20))
    ensures StatKeys[21] in LegacyColumns && Ok(LegacyColumns[StatKeys[21]]) == DomainColumn(CellAt(21))
    ensures StatKeys[22] in LegacyColumns && Ok(LegacyColumns[StatKeys[22]]) == DomainColumn(CellAt(22))
    ensures StatKeys[23] in LegacyColumns && Ok(LegacyColumns[StatKeys[23]]) == DomainColumn(CellAt(23))
  {
  }
}

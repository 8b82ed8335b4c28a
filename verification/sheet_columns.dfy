/** Spreadsheet column arithmetic: columns are handled as code points of
    their letter, `chr(ord(col) + shift)`, and the per-game player sheet
    spells code points past 'Z' as two letters. */
module SheetColumns {
  import opened Taxonomy

  /** Shot-area columns of the zone sections (B, D, ..., R). */
  function ZoneColumn(a: ShotArea): int {
    match a
    case Zone1 => 'B' as int
    case Zone2Middle => 'D' as int
    case Zone2Side => 'F' as int
    case HighSlot => 'H' as int
    case Blueline => 'J' as int
    case Zone4 => 'L' as int
    case OutsideFar => 'N' as int
    case OutsideClose => 'P' as int
    case Misc => 'R' as int
  }

  /** Shot-type columns of the type sections. */
  function TypeColumn(t: ShotType): int {
    match t
    case CarryShot => 'B' as int
    case CanShot => 'D' as int
    case OneTimer => 'F' as int
    case LowHighShot => 'N' as int
    case TakeawayShot => 'P' as int
    case ReboundShot => 'R' as int
    case DeflectionShot => 'T' as int
  }

  /** The nine zone columns are distinct, even-numbered letters from B to
      R, so a zone's goal or "against" column (one to the right) is never
      another zone's column, and the rightmost one, S, is still a single
      letter. */
  lemma ZoneColumnsTwoApart(a: ShotArea, b: ShotArea)
    ensures 'B' as int <= ZoneColumn(a) <= 'R' as int
    ensures (ZoneColumn(a) - 'B' as int) % 2 == 0
    ensures a != b ==> ZoneColumn(a) != ZoneColumn(b)
    ensures ZoneColumn(a) + 1 != ZoneColumn(b)
    ensures ZoneColumn(a) + 1 <= 'S' as int <= 'Z' as int
  {
  }

  /** The type columns are distinct and two apart as well. */
  lemma TypeColumnsTwoApart(a: ShotType, b: ShotType)
    ensures 'B' as int <= TypeColumn(a) <= 'T' as int
    ensures a != b ==> TypeColumn(a) != TypeColumn(b)
    ensures TypeColumn(a) + 1 != TypeColumn(b)
  {
  }

  /** The letters of column number `n` (1 is "A", 27 is "AA"). */
  function ColumnName(n: int): (s: string)
    requires n >= 1
    ensures |s| >= 1
    ensures forall i :: 0 <= i < |s| ==> 'A' <= s[i] <= 'Z'
    decreases n
  {
    if n <= 26 then [(64 + n) as char]
    else ColumnName((n - 1) / 26) + [(65 + (n - 1) % 26) as char]
  }

  /** The per-game player sheet's spelling of a column code point: one
      letter up to 'Z', otherwise "A" followed by the letter 26 places
      back. */
  function WrapColumn(code: int): (s: string)
    requires 'A' as int <= code <= 'Z' as int + 26
    ensures |s| == (if code > 'Z' as int then 2 else 1)
  {
    if code > 90 then ['A', (code - 26) as char] else [code as char]
  }

  /** The two-letter wrap is the ordinary spreadsheet column naming on the
      range it is used for (columns A to AZ). */
  lemma WrapColumnIsColumnName(code: int)
    requires 'A' as int <= code <= 'Z' as int + 26
    ensures WrapColumn(code) == ColumnName(code - 64)
  {
    if code > 90 {
      assert (code - 64 - 1) / 26 == 1;
    }
  }

  /** Different code points are spelled differently. */
  lemma WrapColumnInjective(a: int, b: int)
    requires 'A' as int <= a <= 'Z' as int + 26
    requires 'A' as int <= b <= 'Z' as int + 26
    ensures WrapColumn(a) == WrapColumn(b) ==> a == b
  {
    if WrapColumn(a) == WrapColumn(b) {
      if a > 90 && b > 90 {
        assert WrapColumn(a)[1] == WrapColumn(b)[1];
      } else if a <= 90 && b <= 90 {
        assert WrapColumn(a)[0] == WrapColumn(b)[0];
      }
    }
  }
}

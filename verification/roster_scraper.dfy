/** The roster scraper's text handling: a roster cell's lines, its jersey
    numbers, its trailing role tag and the player's display name, and the
    clean-up of role tags left inside a name. */
module RosterScraper {
  import opened Wrappers
  import Seqs
  import Text

  // ---------------------------------------------------------------- lines

  predicate NotReturn(c: char) {
    c != '\r'
  }

  /** `raw.replace("\r", "")`. */
  function DropReturns(raw: string): (r: string)
    ensures '\r' !in r
  {
    Seqs.FilterMembers(raw, NotReturn, '\r');
    Seqs.Filter(raw, NotReturn)
  }

  predicate NonEmpty(s: string) {
    |s| > 0
  }

  /** `_split_lines`: the stripped, non-empty lines of a cell. */
  function SplitLines(raw: string): (r: seq<string>)
    ensures forall i :: 0 <= i < |r| ==> NonEmpty(r[i]) && Text.Stripped(r[i])
  {
    var stripped := Seqs.Map(Text.Split(DropReturns(raw), '\n'), Text.Strip);
    StripsStripped(Text.Split(DropReturns(raw), '\n'));
    Seqs.FilterPreserves(stripped, NonEmpty, Text.Stripped);
    Seqs.Filter(stripped, NonEmpty)
  }

  lemma StripsStripped(parts: seq<string>)
    ensures forall i :: 0 <= i < |parts| ==> Text.Stripped(Seqs.Map(parts, Text.Strip)[i])
  {
    var m := Seqs.Map(parts, Text.Strip);
    forall i | 0 <= i < |parts|
      ensures Text.Stripped(m[i])
    {
      var x := Text.Strip(parts[i]);
      assert m[i] == x;
      assert Text.Stripped(x);
    }
  }

  /** A character that no part and no separator holds is not in the
      joined string. */
  lemma {:induction false} JoinExcludes(parts: seq<string>, sep: string, c: char)
    requires c !in sep
    requires forall i :: 0 <= i < |parts| ==> c !in parts[i]
    ensures c !in Text.Join(parts, sep)
    decreases |parts|
  {
    if |parts| > 1 {
      JoinExcludes(parts[1..], sep, c);
    }
  }

  lemma NoReturnsKept(raw: string)
    requires '\r' !in raw
    ensures DropReturns(raw) == raw
  {
    forall i | 0 <= i < |raw|
      ensures NotReturn(raw[i])
    {
      assert raw[i] in raw;
    }
    Seqs.FilterAll(raw, NotReturn);
  }

  /** Lines that are non-empty, stripped and free of line breaks, written
      one per line, are read back as the same lines. */
  lemma SplitLinesRoundTrip(lines: seq<string>)
    requires forall i :: 0 <= i < |lines| ==> |lines[i]| > 0 && Text.Stripped(lines[i])
    requires forall i :: 0 <= i < |lines| ==> '\n' !in lines[i] && '\r' !in lines[i]
    ensures SplitLines(Text.Join(lines, "\n")) == lines
  {
    var raw := Text.Join(lines, "\n");
    JoinExcludes(lines, "\n", '\r');
    NoReturnsKept(raw);
    if |lines| == 0 {
      assert Text.Split(raw, '\n') == [""];
      assert Seqs.Map([""], Text.Strip) == [""];
      assert Seqs.Filter([""], NonEmpty) == [] by {
        assert !NonEmpty([""][0]);
      }
    } else {
      Text.SplitJoin(lines, '\n');
      Text.StripAll(lines);
      assert Seqs.Map(lines, Text.Strip) == lines;
      Seqs.FilterAll(lines, NonEmpty);
    }
  }

  // -------------------------------------------------------- jersey numbers

  /** A line that `\d{1,2}` matches in full. */
  predicate JerseyNumber(line: string) {
    1 <= |line| <= 2 && Text.AllDigits(line)
  }

  predicate NotNumber(line: string) {
    !JerseyNumber(line)
  }

  /** Drops up to two leading jersey-number lines. */
  function DropLeadingNumbers(parts: seq<string>): (r: seq<string>)
    ensures |parts| - 2 <= |r| <= |parts| && r == parts[|parts| - |r|..]
    ensures forall i :: 0 <= i < |parts| - |r| ==> JerseyNumber(parts[i])
    ensures |r| > 0 && |parts| - |r| < 2 ==> !JerseyNumber(r[0])
  {
    Seqs.DropTwo(parts, JerseyNumber)
  }

  /** The number lines are filtered out afterwards anyway: dropping the
      leading ones changes nothing in the non-number lines. */
  lemma DroppedNumbersFilteredAnyway(parts: seq<string>)
    ensures Seqs.Filter(DropLeadingNumbers(parts), NotNumber) == Seqs.Filter(parts, NotNumber)
  {
    var r := DropLeadingNumbers(parts);
    var dropped := parts[..|parts| - |r|];
    assert parts == dropped + r;
    Seqs.FilterAppend(dropped, r, NotNumber);
    Seqs.FilterEmpty(dropped, NotNumber);
    assert Seqs.Filter(dropped, NotNumber) == [];
  }

  // ------------------------------------------------------------- role tags

  /** The role tags of a cell: starting goalie, extra forward, extra
      defender. */
  datatype RoleTag = AM | H | P

  function TagText(t: RoleTag): string {
    match t
    case AM => "AM"
    case H => "H"
    case P => "P"
  }

  /** The tag in parentheses, as the pattern spells it. */
  function Suffix(t: RoleTag): string {
    "(" + TagText(t) + ")"
  }

  /** Whether `s` ends with `suffix`, ignoring case. */
  predicate EndsWithIgnoringCase(s: string, suffix: string) {
    |suffix| <= |s| && Text.Upper(s[|s| - |suffix|..]) == suffix
  }

  /** The tag of a cell's text: the pattern `\((AM|H|P)\)\s*$`, ignoring
      case, upper-cased. */
  function TagOf(text: string): Option<RoleTag> {
    var t := Text.TrimRight(text);
    if EndsWithIgnoringCase(t, Suffix(AM)) then Some(AM)
    else if EndsWithIgnoringCase(t, Suffix(H)) then Some(H)
    else if EndsWithIgnoringCase(t, Suffix(P)) then Some(P)
    else None
  }

  /** A text has a tag exactly when it ends, trailing whitespace aside,
      with that tag in parentheses in any case. */
  lemma TagOfExact(text: string, x: RoleTag)
    ensures TagOf(text) == Some(x) <==> EndsWithIgnoringCase(Text.TrimRight(text), Suffix(x))
  {
    var t := Text.TrimRight(text);
    if EndsWithIgnoringCase(t, Suffix(AM)) {
      EndsLetter(t, AM);
    }
    if EndsWithIgnoringCase(t, Suffix(H)) {
      EndsLetter(t, H);
    }
    if EndsWithIgnoringCase(t, Suffix(P)) {
      EndsLetter(t, P);
    }
  }

  /** The letter before the closing parenthesis tells the tags apart. */
  function TagLetter(x: RoleTag): char {
    match x
    case AM => 'M'
    case H => 'H'
    case P => 'P'
  }

  lemma EndsLetter(t: string, x: RoleTag)
    requires EndsWithIgnoringCase(t, Suffix(x))
    ensures |t| >= 2 && Text.UpperChar(t[|t| - 2]) == TagLetter(x)
  {
    var n := |Suffix(x)|;
    var u := Text.Upper(t[|t| - n..]);
    assert Suffix(x)[n - 2] == TagLetter(x);
    assert u[n - 2] == Text.UpperChar(t[|t| - 2]);
  }

  /** A tag found is no longer than the text without its trailing
      whitespace. */
  lemma TagOfFits(text: string, x: RoleTag)
    requires TagOf(text) == Some(x)
    ensures |Suffix(x)| <= |Text.TrimRight(text)|
  {
  }

  /** A text followed by a tag in any case has that tag. */
  lemma TagOfSuffixed(s: string, w: string, x: RoleTag)
    requires Text.Upper(w) == Suffix(x)
    ensures TagOf(s + w) == Some(x)
  {
    var t := s + w;
    assert t[|t| - 1] == w[|w| - 1];
    assert Text.TrimRight(t) == t;
    assert t[|t| - |w|..] == w;
    TagOfExact(t, x);
  }
}

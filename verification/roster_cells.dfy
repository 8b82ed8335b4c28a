/** `_parse_cell`: a roster cell's text read as a player name and a role
    tag. Jersey-number lines are ignored, the tag is read from the end of
    the text, and the name is formatted from the remaining lines. */
module RosterCells {
  import opened Wrappers
  import Seqs
  import Text
  import RosterScraper
  import RosterNames
  import RosterClean

  type RoleTag = RosterScraper.RoleTag

  /** What a cell yields: a name and a tag, each possibly missing. */
  datatype Cell = Cell(name: Option<string>, tag: Option<RoleTag>)

  /** The tag of the joined non-number lines. */
  function TextTag(lines: seq<string>): Option<RoleTag> {
    RosterScraper.TagOf(Text.Strip(Text.Join(lines, " ")))
  }

  /** The cell reading with the name built by `nameOf` from the
      non-number lines. */
  function ParseWith(parts: seq<string>, nameOf: seq<string> -> Option<string>): (c: Cell)
    ensures c.name.Some? ==> exists i :: 0 <= i < |parts| && RosterScraper.NotNumber(parts[i])
  {
    var kept := RosterScraper.DropLeadingNumbers(parts);
    if |kept| == 0 then Cell(None, None)
    else
      var lines := Seqs.Filter(kept, RosterScraper.NotNumber);
      if |lines| == 0 then Cell(None, None)
      else
        assert lines[0] in kept by {
          Seqs.FilterMembers(kept, RosterScraper.NotNumber, lines[0]);
        }
        Cell(nameOf(lines), TextTag(lines))
  }

  /** `_parse_cell` on the cell's lines, as the source writes it: the
      name is formatted from the non-number lines with the tag still in
      them. */
  function ParseLines(parts: seq<string>): (c: Cell)
    ensures c.name.Some? ==> (|c.name.value| > 0 && Text.Stripped(c.name.value)
      && RosterNames.SingleSpaced(c.name.value))
  {
    ParseWith(parts, RosterNames.NameOf)
  }

  /** `_parse_cell` on a cell's raw text. */
  function ParseCell(raw: string): (c: Cell)
    ensures c.name.Some? ==> (|c.name.value| > 0 && Text.Stripped(c.name.value)
      && RosterNames.SingleSpaced(c.name.value))
  {
    ParseLines(RosterScraper.SplitLines(raw))
  }

  /** Where the jersey numbers stand does not matter: the reading is
      that of the non-number lines alone. */
  lemma NumbersIgnored(parts: seq<string>, nameOf: seq<string> -> Option<string>)
    ensures ParseWith(parts, nameOf) == ParseWith(Seqs.Filter(parts, RosterScraper.NotNumber), nameOf)
  {
    var f := Seqs.Filter(parts, RosterScraper.NotNumber);
    RosterScraper.DroppedNumbersFilteredAnyway(parts);
    Seqs.FilterAll(f, RosterScraper.NotNumber);
    var kept := RosterScraper.DropLeadingNumbers(f);
    if |f| > 0 {
      assert !RosterScraper.JerseyNumber(f[0]);
      assert kept == f;
    } else {
      assert |kept| == 0;
    }
  }

  /** A cell has no name exactly when every line is a jersey number, and
      then it has no tag either. */
  lemma NoNameExactly(raw: string)
    ensures var lines := RosterScraper.SplitLines(raw);
      ParseCell(raw).name.None? <==> forall i :: 0 <= i < |lines| ==> RosterScraper.JerseyNumber(lines[i])
    ensures var lines := RosterScraper.SplitLines(raw);
      (forall i :: 0 <= i < |lines| ==> RosterScraper.JerseyNumber(lines[i])) ==> ParseCell(raw) == Cell(None, None)
  {
    NoNameLines(RosterScraper.SplitLines(raw));
  }

  lemma NoNameLines(lines: seq<string>)
    requires forall i :: 0 <= i < |lines| ==> NameLine(lines[i])
    ensures ParseLines(lines).name.None? <==> forall i :: 0 <= i < |lines| ==> RosterScraper.JerseyNumber(lines[i])
    ensures (forall i :: 0 <= i < |lines| ==> RosterScraper.JerseyNumber(lines[i])) ==> ParseLines(lines) == Cell(None, None)
  {
    NumbersIgnored(lines, RosterNames.NameOf);
    Seqs.FilterEmpty(lines, RosterScraper.NotNumber);
    var f := Seqs.Filter(lines, RosterScraper.NotNumber);
    if |f| > 0 {
      Seqs.FilterPreserves(lines, RosterScraper.NotNumber, NameLine);
      NamedLines(f);
    } else {
      assert ParseLines(f) == Cell(None, None);
    }
  }

  /** Non-number name lines always give a name. */
  lemma NamedLines(f: seq<string>)
    requires |f| > 0
    requires forall i :: 0 <= i < |f| ==> NameLine(f[i])
    requires forall i :: 0 <= i < |f| ==> RosterScraper.NotNumber(f[i])
    ensures ParseLines(f).name.Some?
  {
    Seqs.FilterAll(f, RosterScraper.NotNumber);
    assert RosterScraper.DropLeadingNumbers(f) == f by {
      assert !RosterScraper.JerseyNumber(f[0]);
    }
    RosterNames.NameOfSome(f);
  }

  /** A line the splitter can produce. */
  predicate NameLine(line: string) {
    |line| > 0 && Text.Stripped(line)
  }

  // ------------------------------------------------------- role tag peel

  /** The line with its trailing tag, and the whitespace before it,
      removed. */
  function PeelTag(line: string): (r: string)
    ensures |r| <= |line|
  {
    match RosterScraper.TagOf(line)
    case None => line
    case Some(x) =>
      RosterScraper.TagOfFits(line, x);
      var t := Text.TrimRight(line);
      Text.TrimRight(t[..|t| - |RosterScraper.Suffix(x)|])
  }

  /** The name of the lines with the tag peeled off the last one, where
      a trailing tag of the joined text sits. */
  function PeeledName(lines: seq<string>): Option<string> {
    if |lines| == 0 then RosterNames.NameOf(lines)
    else RosterNames.NameOf(lines[..|lines| - 1] + [PeelTag(lines[|lines| - 1])])
  }

  /** `_parse_cell` as its comments describe it: the trailing tag is
      peeled before the name is formatted. */
  function ParseLinesPeeled(parts: seq<string>): (c: Cell)
    ensures c.name.Some? ==> (|c.name.value| > 0 && Text.Stripped(c.name.value)
      && RosterNames.SingleSpaced(c.name.value))
  {
    ParseWith(parts, PeeledName)
  }

  function ParseCellPeeled(raw: string): Cell {
    ParseLinesPeeled(RosterScraper.SplitLines(raw))
  }

  lemma TrimRightSpace(v: string)
    requires Text.Stripped(v)
    ensures Text.TrimRight(v + " ") == v
  {
    var s := v + " ";
    assert s[..|s| - 1] == v;
  }

  lemma TrimRightKeeps(s: string)
    requires |s| > 0 && !Text.IsSpace(s[|s| - 1])
    ensures Text.TrimRight(s) == s
  {
  }

  /** A tag after a line and a space peels back to the line. */
  lemma PeelSuffixed(v: string, w: string, x: RoleTag)
    requires Text.Stripped(v) && Text.Upper(w) == RosterScraper.Suffix(x)
    ensures PeelTag(v + " " + w) == v
  {
    var line := v + " " + w;
    RosterScraper.TagOfSuffixed(v + " ", w, x);
    SuffixEnd(v + " ", w, x);
    TrimRightKeeps(line);
    PeelCut(v, w, x);
    TrimRightSpace(v);
  }

  lemma SuffixEnd(s: string, w: string, x: RoleTag)
    requires Text.Upper(w) == RosterScraper.Suffix(x)
    ensures |w| == |RosterScraper.Suffix(x)| && |s + w| > 0 && !Text.IsSpace((s + w)[|s + w| - 1])
  {
    var u := Text.Upper(w);
    assert u[|u| - 1] == ')';
    assert (s + w)[|s + w| - 1] == w[|w| - 1];
  }

  lemma PeelCut(v: string, w: string, x: RoleTag)
    requires |w| == |RosterScraper.Suffix(x)|
    ensures var line := v + " " + w; line[..|line| - |RosterScraper.Suffix(x)|] == v + " "
  {
  }

  /** The tag of stripped lines ending with a tagged line is that tag. */
  lemma TagAtEnd(lines: seq<string>, u: string, w: string, x: RoleTag)
    requires forall i :: 0 <= i < |lines| ==> NameLine(lines[i])
    requires NameLine(u) && Text.Upper(w) == RosterScraper.Suffix(x)
    ensures TextTag(lines + [u + " " + w]) == Some(x)
  {
    if |lines| == 0 {
      assert lines + [u + " " + w] == [u + " " + w];
      TagAtEndSingle(u, w, x);
    } else {
      TagAtEndMore(lines, u, w, x);
    }
  }

  lemma TagAtEndSingle(u: string, w: string, x: RoleTag)
    requires NameLine(u) && Text.Upper(w) == RosterScraper.Suffix(x)
    ensures TextTag([u + " " + w]) == Some(x)
  {
    var last := u + " " + w;
    TaggedLine(u, w, x);
    assert Text.Join([last], " ") == last;
    Text.StripStripped(last);
    TagOfText(last, u + " ", w, x);
  }

  lemma TagAtEndMore(lines: seq<string>, u: string, w: string, x: RoleTag)
    requires |lines| > 0 && forall i :: 0 <= i < |lines| ==> NameLine(lines[i])
    requires NameLine(u) && Text.Upper(w) == RosterScraper.Suffix(x)
    ensures TextTag(lines + [u + " " + w]) == Some(x)
  {
    var j := Text.Join(lines + [u + " " + w], " ");
    JoinedStripped(lines, u, w, x);
    JoinedEnds(lines, u, w);
    TagOfText(j, Text.Join(lines, " ") + " " + u + " ", w, x);
  }

  /** Name lines joined with a tagged last line have no whitespace at
      either end. */
  lemma JoinedStripped(lines: seq<string>, u: string, w: string, x: RoleTag)
    requires |lines| > 0 && forall i :: 0 <= i < |lines| ==> NameLine(lines[i])
    requires NameLine(u) && Text.Upper(w) == RosterScraper.Suffix(x)
    ensures var j := Text.Join(lines + [u + " " + w], " "); Text.Strip(j) == j
  {
    var last := u + " " + w;
    var all := lines + [last];
    TaggedLine(u, w, x);
    SnocLines(lines, last);
    Text.JoinWordsStripped(all);
    Text.StripStripped(Text.Join(all, " "));
  }

  lemma JoinedEnds(lines: seq<string>, u: string, w: string)
    requires |lines| > 0
    ensures Text.Join(lines + [u + " " + w], " ") == (Text.Join(lines, " ") + " " + u + " ") + w
  {
    Text.JoinSnoc(lines, u + " " + w, " ");
    Regroup(Text.Join(lines, " "), u, w);
  }

  lemma TagOfText(j: string, pre: string, w: string, x: RoleTag)
    requires j == pre + w && Text.Strip(j) == j && Text.Upper(w) == RosterScraper.Suffix(x)
    ensures RosterScraper.TagOf(Text.Strip(j)) == Some(x)
  {
    RosterScraper.TagOfSuffixed(pre, w, x);
  }

  lemma Regroup(a: string, u: string, w: string)
    ensures a + " " + (u + " " + w) == (a + " " + u + " ") + w
  {
  }

  lemma TaggedLine(u: string, w: string, x: RoleTag)
    requires NameLine(u) && Text.Upper(w) == RosterScraper.Suffix(x)
    ensures NameLine(u + " " + w) && RosterScraper.NotNumber(u + " " + w)
  {
    var last := u + " " + w;
    SuffixEnd(u + " ", w, x);
    assert last[0] == u[0];
    assert !Text.IsDigit(last[|u|]);
  }

  lemma SnocLines(lines: seq<string>, last: string)
    requires forall i :: 0 <= i < |lines| ==> NameLine(lines[i])
    requires NameLine(last)
    ensures forall i :: 0 <= i < |lines + [last]| ==> NameLine((lines + [last])[i])
  {
  }

  /** The non-number lines of some lines and one more non-number line. */
  lemma FilterSnocKept(lines: seq<string>, last: string)
    requires RosterScraper.NotNumber(last)
    ensures Seqs.Filter(lines + [last], RosterScraper.NotNumber)
      == Seqs.Filter(lines, RosterScraper.NotNumber) + [last]
  {
    Seqs.FilterAppend(lines, [last], RosterScraper.NotNumber);
    Seqs.FilterAll([last], RosterScraper.NotNumber);
  }

  /** With the tag peeled, a tagged last line names the player exactly
      as the same line without the tag does. */
  lemma PeeledTagNeverInName(lines: seq<string>, v: string, w: string, x: RoleTag)
    requires forall i :: 0 <= i < |lines| ==> NameLine(lines[i])
    requires NameLine(v) && Text.Upper(w) == RosterScraper.Suffix(x)
    ensures ParseLinesPeeled(lines + [v + " " + w])
      == Cell(RosterNames.NameOf(Seqs.Filter(lines, RosterScraper.NotNumber) + [v]), Some(x))
  {
    var last := v + " " + w;
    TaggedLine(v, w, x);
    var f := Seqs.Filter(lines, RosterScraper.NotNumber);
    NumbersIgnored(lines + [last], PeeledName);
    FilterSnocKept(lines, last);
    Seqs.FilterPreserves(lines, RosterScraper.NotNumber, NameLine);
    PeeledLast(f, v, w, x);
  }

  /** The peeled reading of non-number name lines ending with a tagged
      line. */
  lemma PeeledLast(f: seq<string>, v: string, w: string, x: RoleTag)
    requires forall i :: 0 <= i < |f| ==> NameLine(f[i])
    requires NameLine(v) && Text.Upper(w) == RosterScraper.Suffix(x)
    requires forall i :: 0 <= i < |f| ==> RosterScraper.NotNumber(f[i])
    ensures ParseLinesPeeled(f + [v + " " + w]) == Cell(RosterNames.NameOf(f + [v]), Some(x))
  {
    var last := v + " " + w;
    TaggedLine(v, w, x);
    var all := f + [last];
    assert forall i :: 0 <= i < |all| ==> RosterScraper.NotNumber(all[i]);
    Seqs.FilterAll(all, RosterScraper.NotNumber);
    assert RosterScraper.DropLeadingNumbers(all) == all by {
      assert !RosterScraper.JerseyNumber(all[0]);
    }
    TagAtEnd(f, v, w, x);
    PeelSuffixed(v, w, x);
    assert all[..|all| - 1] == f;
  }

  // ------------------------------------------------ the tag left in names

  /** The one-line name "Ari (H)" is formatted as it stands. */
  lemma AriName()
    ensures RosterNames.NameOf(["Ari (H)"]) == Some("Ari (H)")
  {
    var line := "Ari (H)";
    AriFacts();
    AriFormatted();
    AriSingleSpaced();
    RosterNames.CollapseFixed(line);
  }

  lemma AriFormatted()
    ensures RosterNames.FormatFirstLast(["Ari (H)"]) == "Ari (H)"
  {
    var line := "Ari (H)";
    AriFacts();
    AriTitle();
    assert Seqs.Map([line], Text.Title) == [line];
    assert Text.Join([line], " ") == line;
    Text.StripStripped(line);
  }

  lemma AriTitle()
    ensures Text.Title("Ari (H)") == "Ari (H)"
  {
    var t := Text.Title("Ari (H)");
    assert t[0] == 'A' && t[1] == 'r' && t[2] == 'i' && t[3] == ' ';
    assert t[4] == '(' && t[5] == 'H' && t[6] == ')';
  }

  /** The plain facts about the sample line. */
  lemma AriFacts()
    ensures !Text.IsUpper("Ari (H)") && !RosterNames.NumberPrefixed("Ari (H)")
    ensures !RosterScraper.JerseyNumber("Ari (H)") && Text.Stripped("Ari (H)")
    ensures '(' !in "Ari" && "Ari" + " (H)" == "Ari (H)" && "Ari " + "(H)" == "Ari (H)"
  {
    assert Text.IsLowerLetter("Ari (H)"[1]);
  }

  lemma AriSingleSpaced()
    ensures RosterNames.SingleSpaced("Ari (H)")
  {
    var line := "Ari (H)";
    forall i, j | 0 <= i < j < |line| && j == i + 1
      ensures !(Text.IsSpace(line[i]) && Text.IsSpace(line[j]))
    {
    }
  }

  /** As written, a one-line cell "Ari (H)" keeps its tag in the name,
      and the later clean-up, which only removes tags followed by a
      space, leaves it there. */
  lemma AsWrittenNameKeepsTag()
    ensures ParseLines(["Ari (H)"]) == Cell(Some("Ari (H)"), Some(RosterScraper.H))
    ensures RosterClean.CleanSuffixes(Some("Ari (H)")) == Some("Ari (H)")
  {
    var line := "Ari (H)";
    AriFacts();
    assert RosterScraper.DropLeadingNumbers([line]) == [line];
    Seqs.FilterAll([line], RosterScraper.NotNumber);
    AriName();
    AriTag();
    RosterClean.CleanKeepsTrailingTag("Ari");
  }

  lemma AriTag()
    ensures TextTag(["Ari (H)"]) == Some(RosterScraper.H)
  {
    var line := "Ari (H)";
    AriFacts();
    assert Text.Join([line], " ") == line;
    Text.StripStripped(line);
    assert Text.Upper("(H)") == RosterScraper.Suffix(RosterScraper.H);
    RosterScraper.TagOfSuffixed("Ari ", "(H)", RosterScraper.H);
  }
}

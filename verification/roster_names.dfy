/** The display name of a roster cell: the name lines in first-name-first
    order, title-cased, without a leading jersey number and with every
    whitespace run collapsed to one space. */
module RosterNames {
  import opened Wrappers
  import Seqs
  import Text

  // ------------------------------------------------------------ spacing

  /** No whitespace but single spaces. */
  ghost predicate SingleSpaced(s: string) {
    (forall i :: 0 <= i < |s| && Text.IsSpace(s[i]) ==> s[i] == ' ')
    && (forall i, j :: 0 <= i < j < |s| && j == i + 1 ==> !(Text.IsSpace(s[i]) && Text.IsSpace(s[j])))
  }

  lemma SingleSpacedCons(c: char, t: string)
    requires SingleSpaced(t)
    requires Text.IsSpace(c) ==> c == ' ' && (|t| == 0 || !Text.IsSpace(t[0]))
    ensures SingleSpaced([c] + t)
  {
    var s := [c] + t;
    forall i, j | 0 <= i < j < |s| && j == i + 1
      ensures !(Text.IsSpace(s[i]) && Text.IsSpace(s[j]))
    {
      assert s[j] == t[i];
      if i > 0 {
        assert s[i] == t[i - 1];
      }
    }
  }

  lemma TrimLeftShorter(s: string)
    requires |s| > 0 && Text.IsSpace(s[0])
    ensures |Text.TrimLeft(s)| < |s|
  {
  }

  /** Trimming the left keeps the last character unless it trims
      everything, and it trims everything only when that character is
      whitespace. */
  lemma {:induction false} TrimLeftLast(s: string)
    requires |s| > 0
    ensures |Text.TrimLeft(s)| > 0 ==> Text.TrimLeft(s)[|Text.TrimLeft(s)| - 1] == s[|s| - 1]
    ensures !Text.IsSpace(s[|s| - 1]) ==> |Text.TrimLeft(s)| > 0
    decreases |s|
  {
    if |s| > 1 && Text.IsSpace(s[0]) {
      TrimLeftLast(s[1..]);
    }
  }

  /** One space before a non-space is all the left trim removes. */
  lemma TrimLeftOne(s: string)
    requires |s| > 0 && Text.IsSpace(s[0]) && (|s| == 1 || !Text.IsSpace(s[1]))
    ensures Text.TrimLeft(s) == s[1..]
  {
  }

  lemma SingleSpacedTail(s: string)
    requires |s| > 0 && SingleSpaced(s)
    ensures SingleSpaced(s[1..])
  {
    var t := s[1..];
    forall i, j | 0 <= i < j < |t| && j == i + 1
      ensures !(Text.IsSpace(t[i]) && Text.IsSpace(t[j]))
    {
      assert t[i] == s[i + 1] && t[j] == s[j + 1];
    }
  }

  /** `re.sub(r"\s+", " ", s)`: every whitespace run becomes one space. */
  function Collapse(s: string): (r: string)
    ensures |r| <= |s|
    ensures |s| > 0 ==> (|r| > 0
      && (Text.IsSpace(r[0]) <==> Text.IsSpace(s[0]))
      && (Text.IsSpace(r[|r| - 1]) <==> Text.IsSpace(s[|s| - 1])))
    decreases |s|
  {
    if |s| == 0 then ""
    else if Text.IsSpace(s[0]) then
      TrimLeftShorter(s);
      TrimLeftLast(s);
      " " + Collapse(Text.TrimLeft(s))
    else
      [s[0]] + Collapse(s[1..])
  }

  /** What `Collapse` returns has no whitespace but single spaces. */
  lemma {:induction false} CollapseSingleSpaced(s: string)
    ensures SingleSpaced(Collapse(s))
    decreases |s|
  {
    if |s| > 0 {
      if Text.IsSpace(s[0]) {
        TrimLeftShorter(s);
        var rest := Text.TrimLeft(s);
        CollapseSingleSpaced(rest);
        SingleSpacedCons(' ', Collapse(rest));
      } else {
        CollapseSingleSpaced(s[1..]);
        SingleSpacedCons(s[0], Collapse(s[1..]));
      }
    }
  }

  /** A non-space first character is kept as it is. */
  lemma CollapseKeeps(s: string)
    requires |s| > 0 && !Text.IsSpace(s[0]) && Collapse(s[1..]) == s[1..]
    ensures Collapse(s) == s
  {
    assert s == [s[0]] + s[1..];
  }

  /** A single space before a non-space is kept as it is. */
  lemma CollapseSpace(s: string)
    requires |s| > 0 && s[0] == ' ' && (|s| == 1 || !Text.IsSpace(s[1]))
    requires Collapse(s[1..]) == s[1..]
    ensures Collapse(s) == s
  {
    var t := s[1..];
    TrimLeftOne(s);
    assert Text.TrimLeft(s) == t;
    assert Collapse(s) == " " + Collapse(t);
    SpaceCons(s);
  }

  lemma SpaceCons(s: string)
    requires |s| > 0 && s[0] == ' '
    ensures s == " " + s[1..]
  {
  }

  /** Collapsing leaves a single-spaced string as it is, so collapsing
      twice is collapsing once. */
  lemma {:induction false} CollapseFixed(s: string)
    requires SingleSpaced(s)
    ensures Collapse(s) == s
    decreases |s|
  {
    if |s| > 0 {
      SingleSpacedTail(s);
      CollapseFixed(s[1..]);
      if Text.IsSpace(s[0]) {
        SingleSpacedHead(s);
        CollapseSpace(s);
      } else {
        CollapseKeeps(s);
      }
    }
  }

  lemma SingleSpacedHead(s: string)
    requires |s| > 0 && Text.IsSpace(s[0]) && SingleSpaced(s)
    ensures s[0] == ' ' && (|s| == 1 || !Text.IsSpace(s[1]))
  {
    if |s| > 1 {
      assert !(Text.IsSpace(s[0]) && Text.IsSpace(s[1]));
    }
  }

  lemma CollapseIdempotent(s: string)
    ensures Collapse(Collapse(s)) == Collapse(s)
  {
    CollapseSingleSpaced(s);
    CollapseFixed(Collapse(s));
  }

  // ------------------------------------------------------- number prefix

  /** `s` starts with one or two digits followed by whitespace. */
  predicate NumberPrefixed(s: string) {
    (|s| >= 2 && Text.IsDigit(s[0]) && Text.IsSpace(s[1]))
    || (|s| >= 3 && Text.IsDigit(s[0]) && Text.IsDigit(s[1]) && Text.IsSpace(s[2]))
  }

  /** `re.sub(r"^\d{1,2}\s+", "", s)`: one leading number and the
      whitespace after it are removed. */
  function DropNumberPrefix(s: string): (r: string)
    ensures |r| <= |s| && r == s[|s| - |r|..]
    ensures NumberPrefixed(s) ==> |r| < |s| && (|r| == 0 || !Text.IsSpace(r[0]))
    ensures !NumberPrefixed(s) ==> r == s
  {
    if |s| >= 3 && Text.IsDigit(s[0]) && Text.IsDigit(s[1]) && Text.IsSpace(s[2]) then
      Text.TrimLeft(s[2..])
    else if |s| >= 2 && Text.IsDigit(s[0]) && Text.IsSpace(s[1]) then
      Text.TrimLeft(s[1..])
    else s
  }

  /** Only one number is removed: a name that starts with two numbers
      keeps the second. */
  lemma DropsOneNumberOnly()
    ensures DropNumberPrefix("12 34 Ari") == "34 Ari"
    ensures NumberPrefixed("34 Ari")
  {
    var s := "12 34 Ari";
    assert s[2..] == " 34 Ari";
    TrimLeftOne(" 34 Ari");
    assert " 34 Ari"[1..] == "34 Ari";
  }

  // --------------------------------------------------------- formatting

  /** The order the name lines end up in: an all-caps first line is the
      surname and goes last. */
  function Order(parts: seq<string>): (r: seq<string>)
    ensures multiset(r) == multiset(parts)
  {
    if |parts| > 0 && Text.IsUpper(parts[0]) then
      assert parts == [parts[0]] + parts[1..];
      parts[1..] + [parts[0]]
    else parts
  }

  /** `_format_first_last`. */
  function FormatFirstLast(parts: seq<string>): (r: string)
    ensures |parts| == 0 ==> r == ""
  {
    if |parts| == 0 then ""
    else if Text.IsUpper(parts[0]) then
      var surname := Text.Title(parts[0]);
      var given := Text.Strip(Text.Join(Seqs.Map(parts[1..], Text.Title), " "));
      if |given| > 0 then Text.Strip(given + " " + surname) else surname
    else Text.Strip(Text.Join(Seqs.Map(parts, Text.Title), " "))
  }

  lemma TitledWord(p: string)
    requires |p| > 0 && Text.Stripped(p)
    ensures |Text.Title(p)| > 0 && Text.Stripped(Text.Title(p))
  {
    Text.TitleSpaces(p);
    assert Text.IsSpace(Text.Title(p)[0]) <==> Text.IsSpace(p[0]);
    assert Text.IsSpace(Text.Title(p)[|p| - 1]) <==> Text.IsSpace(p[|p| - 1]);
  }

  /** Title-cased non-empty stripped lines are non-empty and stripped. */
  lemma TitledWords(parts: seq<string>)
    requires forall i :: 0 <= i < |parts| ==> |parts[i]| > 0 && Text.Stripped(parts[i])
    ensures forall i :: 0 <= i < |parts| ==>
      |Seqs.Map(parts, Text.Title)[i]| > 0 && Text.Stripped(Seqs.Map(parts, Text.Title)[i])
  {
    var m := Seqs.Map(parts, Text.Title);
    forall i | 0 <= i < |parts|
      ensures |m[i]| > 0 && Text.Stripped(m[i])
    {
      TitledWord(parts[i]);
    }
  }

  /** For lines that are non-empty and stripped, as the line splitter
      gives them, the formatted name is the title-cased lines joined by
      spaces in `Order`: an all-caps surname line moves to the end and
      everything else stays in place. */
  lemma FormatFirstLastOrder(parts: seq<string>)
    requires |parts| > 0
    requires forall i :: 0 <= i < |parts| ==> |parts[i]| > 0 && Text.Stripped(parts[i])
    ensures FormatFirstLast(parts) == Text.Join(Seqs.Map(Order(parts), Text.Title), " ")
  {
    if Text.IsUpper(parts[0]) {
      SurnameLast(parts);
      SurnameOrder(parts);
    } else {
      InOrder(parts);
    }
  }

  lemma SurnameOrder(parts: seq<string>)
    requires |parts| > 0 && Text.IsUpper(parts[0])
    ensures Seqs.Map(Order(parts), Text.Title) == Seqs.Map(parts[1..], Text.Title) + [Text.Title(parts[0])]
  {
    Seqs.MapAppend(parts[1..], [parts[0]], Text.Title);
    assert Seqs.Map([parts[0]], Text.Title) == [Text.Title(parts[0])];
  }

  lemma InOrder(parts: seq<string>)
    requires |parts| > 0 && !Text.IsUpper(parts[0])
    requires forall i :: 0 <= i < |parts| ==> |parts[i]| > 0 && Text.Stripped(parts[i])
    ensures FormatFirstLast(parts) == Text.Join(Seqs.Map(parts, Text.Title), " ")
  {
    var words := Seqs.Map(parts, Text.Title);
    TitledWords(parts);
    Text.JoinWordsStripped(words);
    Text.StripStripped(Text.Join(words, " "));
  }

  /** An all-caps surname line goes after the given-name lines. */
  lemma SurnameLast(parts: seq<string>)
    requires |parts| > 0 && Text.IsUpper(parts[0])
    requires forall i :: 0 <= i < |parts| ==> |parts[i]| > 0 && Text.Stripped(parts[i])
    ensures FormatFirstLast(parts) == Text.Join(Seqs.Map(parts[1..], Text.Title) + [Text.Title(parts[0])], " ")
  {
    var others := parts[1..];
    var surname := Text.Title(parts[0]);
    var given := Seqs.Map(others, Text.Title);
    TitledWord(parts[0]);
    if |others| == 0 {
      assert given == [];
      assert Text.Join(given + [surname], " ") == surname;
    } else {
      assert forall i :: 0 <= i < |others| ==> others[i] == parts[i + 1];
      TitledWords(others);
      Text.JoinWordsStripped(given);
      var g := Text.Join(given, " ");
      Text.StripStripped(g);
      SpacedPair(g, surname);
      Text.JoinSnoc(given, surname, " ");
    }
  }

  /** Two non-empty stripped strings with a space between are stripped. */
  lemma SpacedPair(a: string, b: string)
    requires |a| > 0 && Text.Stripped(a) && |b| > 0 && Text.Stripped(b)
    ensures Text.Strip(a + " " + b) == a + " " + b
  {
    var w := a + " " + b;
    assert w[0] == a[0];
    assert w[|w| - 1] == b[|b| - 1];
    Text.StripStripped(w);
  }

  /** Reordering keeps every line non-empty and stripped. */
  lemma OrderWords(parts: seq<string>)
    requires forall i :: 0 <= i < |parts| ==> |parts[i]| > 0 && Text.Stripped(parts[i])
    ensures forall i :: 0 <= i < |Order(parts)| ==> |Order(parts)[i]| > 0 && Text.Stripped(Order(parts)[i])
  {
    var o := Order(parts);
    if |parts| > 0 && Text.IsUpper(parts[0]) {
      forall i | 0 <= i < |o|
        ensures |o[i]| > 0 && Text.Stripped(o[i])
      {
        if i < |parts| - 1 {
          assert o[i] == parts[i + 1];
        } else {
          assert o[i] == parts[0];
        }
      }
    }
  }

  /** The name of a cell's non-number lines: formatted, one leading number
      dropped, stripped and collapsed; an empty name is no name. */
  function NameOf(lines: seq<string>): (r: Option<string>)
    ensures r.Some? ==> |r.value| > 0 && Text.Stripped(r.value) && SingleSpaced(r.value)
  {
    var stripped := Text.Strip(DropNumberPrefix(FormatFirstLast(lines)));
    CollapseStripped(stripped);
    var name := Collapse(stripped);
    if |name| == 0 then None else Some(name)
  }

  /** Collapsing a stripped string gives a stripped, single-spaced one. */
  lemma CollapseStripped(s: string)
    requires Text.Stripped(s)
    ensures Text.Stripped(Collapse(s)) && SingleSpaced(Collapse(s))
  {
    CollapseSingleSpaced(s);
  }

  /** A non-empty stripped formatted name has a name after the number
      prefix goes. */
  lemma NamedWhenNonEmpty(f: string)
    requires |f| > 0 && Text.Stripped(f)
    ensures |DropNumberPrefix(f)| > 0 && !Text.IsSpace(DropNumberPrefix(f)[|DropNumberPrefix(f)| - 1])
  {
    if |f| >= 3 && Text.IsDigit(f[0]) && Text.IsDigit(f[1]) && Text.IsSpace(f[2]) {
      TrimTailKeepsLast(f, 2);
    } else if |f| >= 2 && Text.IsDigit(f[0]) && Text.IsSpace(f[1]) {
      TrimTailKeepsLast(f, 1);
    }
  }

  /** Trimming the left of a tail that ends in a non-space keeps that
      last character. */
  lemma TrimTailKeepsLast(f: string, k: nat)
    requires k < |f| && !Text.IsSpace(f[|f| - 1])
    ensures |Text.TrimLeft(f[k..])| > 0
    ensures Text.TrimLeft(f[k..])[|Text.TrimLeft(f[k..])| - 1] == f[|f| - 1]
  {
    var t := f[k..];
    assert t[|t| - 1] == f[|f| - 1];
    TrimLeftLast(t);
  }

  /** Non-empty stripped lines always give a name. */
  lemma NameOfSome(lines: seq<string>)
    requires |lines| > 0
    requires forall i :: 0 <= i < |lines| ==> |lines[i]| > 0 && Text.Stripped(lines[i])
    ensures NameOf(lines).Some?
  {
    FormatFirstLastOrder(lines);
    var ordered := Order(lines);
    OrderWords(lines);
    TitledWords(ordered);
    Text.JoinWordsStripped(Seqs.Map(ordered, Text.Title));
    NamedWhenNonEmpty(FormatFirstLast(lines));
  }

  // ------------------------------------------------- names as written

  lemma SingleSpacedConcat(a: string, b: string)
    requires SingleSpaced(a) && SingleSpaced(b)
    requires |a| > 0 && |b| > 0 ==> !(Text.IsSpace(a[|a| - 1]) && Text.IsSpace(b[0]))
    ensures SingleSpaced(a + b)
  {
    var s := a + b;
    forall i | 0 <= i < |s| && Text.IsSpace(s[i])
      ensures s[i] == ' '
    {
      if i >= |a| {
        assert s[i] == b[i - |a|];
      }
    }
    forall i, j | 0 <= i < j < |s| && j == i + 1
      ensures !(Text.IsSpace(s[i]) && Text.IsSpace(s[j]))
    {
      if j < |a| {
        assert s[i] == a[i] && s[j] == a[j];
      } else if i >= |a| {
        assert s[i] == b[i - |a|] && s[j] == b[j - |a|];
      } else {
        assert s[i] == a[|a| - 1] && s[j] == b[0];
      }
    }
  }

  /** Single-spaced words joined by single spaces stay single-spaced. */
  lemma {:induction false} JoinSingleSpaced(parts: seq<string>)
    requires forall i :: 0 <= i < |parts| ==> |parts[i]| > 0 && Text.Stripped(parts[i]) && SingleSpaced(parts[i])
    ensures SingleSpaced(Text.Join(parts, " "))
    decreases |parts|
  {
    if |parts| > 1 {
      var p := parts[0];
      JoinSingleSpaced(parts[1..]);
      Text.JoinWordsStripped(parts[1..]);
      var rest := Text.Join(parts[1..], " ");
      SingleSpacedConcat(p, " ");
      SingleSpacedConcat(p + " ", rest);
      assert Text.Join(parts, " ") == (p + " ") + rest;
    }
  }

  lemma TitledSingleSpaced(p: string)
    requires SingleSpaced(p)
    ensures SingleSpaced(Text.Title(p))
  {
    var t := Text.Title(p);
    Text.TitleSpaces(p);
    forall i | 0 <= i < |t| && Text.IsSpace(t[i])
      ensures t[i] == ' '
    {
      assert p[i] == ' ';
    }
    forall i, j | 0 <= i < j < |t| && j == i + 1
      ensures !(Text.IsSpace(t[i]) && Text.IsSpace(t[j]))
    {
      assert !(Text.IsSpace(p[i]) && Text.IsSpace(p[j]));
    }
  }

  /** Lines that are non-empty, stripped and single-spaced. */
  ghost predicate CleanLines(lines: seq<string>) {
    forall i :: 0 <= i < |lines| ==> |lines[i]| > 0 && Text.Stripped(lines[i]) && SingleSpaced(lines[i])
  }

  lemma OrderClean(lines: seq<string>)
    requires CleanLines(lines)
    ensures CleanLines(Seqs.Map(Order(lines), Text.Title))
  {
    OrderWords(lines);
    var o := Order(lines);
    assert forall i :: 0 <= i < |o| ==> o[i] in multiset(lines);
    TitledWords(o);
    var m := Seqs.Map(o, Text.Title);
    forall i | 0 <= i < |m|
      ensures SingleSpaced(m[i])
    {
      assert o[i] in multiset(lines);
      var k :| 0 <= k < |lines| && lines[k] == o[i];
      TitledSingleSpaced(o[i]);
    }
  }

  /** For clean lines whose formatted name does not start with a number,
      the cell's name is exactly the title-cased lines in `Order`, joined
      by single spaces. */
  lemma NameOfOrdered(lines: seq<string>)
    requires |lines| > 0 && CleanLines(lines)
    requires !NumberPrefixed(Text.Join(Seqs.Map(Order(lines), Text.Title), " "))
    ensures NameOf(lines) == Some(Text.Join(Seqs.Map(Order(lines), Text.Title), " "))
  {
    var words := Seqs.Map(Order(lines), Text.Title);
    var j := Text.Join(words, " ");
    FormatFirstLastOrder(lines);
    OrderClean(lines);
    Text.JoinWordsStripped(words);
    JoinSingleSpaced(words);
    Text.StripStripped(j);
    CollapseFixed(j);
  }
}

/** The clean-up of role tags left inside a scraped name:
    `clean_suffixes_from_name` replaces each " (H) ", " (Am) " and " (P) "
    with one space, Python `str.replace` style. */
module RosterClean {
  import opened Wrappers

  /** `pat` occurs in `s` at position `i`. */
  predicate MatchAt(s: string, pat: string, i: int) {
    0 <= i && i + |pat| <= |s| && s[i..i + |pat|] == pat
  }

  /** `pat in s`. */
  predicate Contains(s: string, pat: string) {
    exists i :: 0 <= i <= |s| - |pat| && MatchAt(s, pat, i)
  }

  /** `s.replace(pat, rep)`: occurrences are replaced left to right and
      never overlap. */
  function ReplaceAll(s: string, pat: string, rep: string): (r: string)
    requires |pat| > 0
    ensures |rep| <= |pat| ==> |r| <= |s|
    ensures |s| > 0 && |rep| > 0 ==> |r| > 0
    decreases |s|
  {
    if |s| < |pat| then s
    else if s[..|pat|] == pat then rep + ReplaceAll(s[|pat|..], pat, rep)
    else [s[0]] + ReplaceAll(s[1..], pat, rep)
  }

  /** When no occurrence starts at the front, the first character is
      copied. */
  lemma ReplaceCopiesHead(s: string, pat: string, rep: string)
    requires |pat| > 0 && |s| > 0
    requires |s| >= |pat| ==> s[..|pat|] != pat
    ensures ReplaceAll(s, pat, rep) == [s[0]] + ReplaceAll(s[1..], pat, rep)
  {
    if |s| < |pat| {
      assert ReplaceAll(s[1..], pat, rep) == s[1..];
      assert s == [s[0]] + s[1..];
    }
  }

  /** Replacing a pattern that does not occur changes nothing. */
  lemma {:induction false} ReplaceAbsent(s: string, pat: string, rep: string)
    requires |pat| > 0 && !Contains(s, pat)
    ensures ReplaceAll(s, pat, rep) == s
    decreases |s|
  {
    if |s| > 0 {
      if |s| >= |pat| {
        assert !MatchAt(s, pat, 0);
        assert s[0..0 + |pat|] == s[..|pat|];
      }
      assert !Contains(s[1..], pat) by {
        if i :| 0 <= i <= |s[1..]| - |pat| && MatchAt(s[1..], pat, i) {
          assert s[i + 1..i + 1 + |pat|] == s[1..][i..i + |pat|];
          assert MatchAt(s, pat, i + 1);
        }
      }
      ReplaceCopiesHead(s, pat, rep);
      ReplaceAbsent(s[1..], pat, rep);
      assert s == [s[0]] + s[1..];
    }
  }

  /** A prefix in which no occurrence can start is copied through: every
      window starting inside `a` has a character other than `pat[1]` in
      its second place. */
  lemma {:induction false} ReplaceSkip(a: string, rest: string, pat: string, rep: string)
    requires |pat| >= 2 && pat[1] !in a
    requires |rest| > 0 ==> rest[0] != pat[1]
    ensures ReplaceAll(a + rest, pat, rep) == a + ReplaceAll(rest, pat, rep)
    decreases |a|
  {
    if |a| > 0 {
      var s := a + rest;
      assert pat[1] !in a[1..] by {
        assert forall c :: c in a[1..] ==> c in a;
      }
      ReplaceSkip(a[1..], rest, pat, rep);
      assert s[1..] == a[1..] + rest;
      if |s| >= |pat| {
        if |a| > 1 {
          assert s[1] == a[1] && a[1] in a;
        } else {
          assert s[1] == rest[0];
        }
        assert s[..|pat|][1] == s[1];
      }
      ReplaceCopiesHead(s, pat, rep);
      var r := ReplaceAll(rest, pat, rep);
      assert ReplaceAll(s, pat, rep) == [a[0]] + (a[1..] + r);
      assert [a[0]] + (a[1..] + r) == a + r;
    } else {
      assert a + rest == rest;
    }
  }

  /** Replacing at the front. */
  lemma ReplaceHead(pat: string, b: string, rep: string)
    requires |pat| > 0
    ensures ReplaceAll(pat + b, pat, rep) == rep + ReplaceAll(b, pat, rep)
  {
    var s := pat + b;
    assert s[..|pat|] == pat;
    assert s[|pat|..] == b;
  }

  /** One step of the clean-up: `if pos in name: name = name.replace(pos, " ")`. */
  function CleanStep(name: string, pos: string): (r: string)
    requires |pos| > 0
    ensures |pos| >= 1 ==> |r| <= |name|
    ensures |name| > 0 ==> |r| > 0
  {
    if Contains(name, pos) then ReplaceAll(name, pos, " ") else name
  }

  /** The membership test is only a shortcut: the step is always the
      replacement. */
  lemma CleanStepReplaces(name: string, pos: string)
    requires |pos| > 0
    ensures CleanStep(name, pos) == ReplaceAll(name, pos, " ")
  {
    if !Contains(name, pos) {
      ReplaceAbsent(name, pos, " ");
    }
  }

  /** The three role tags as they look inside a title-cased name. */
  const Indicators: seq<string> := [" (H) ", " (Am) ", " (P) "]

  /** `clean_suffixes_from_name`: no name and the empty name come back
      as they are; otherwise each indicator is replaced by one space, in
      order. */
  function CleanSuffixes(name: Option<string>): (r: Option<string>)
    ensures r.None? <==> name.None?
    ensures r.Some? ==> |r.value| <= |name.value| && (|r.value| > 0 <==> |name.value| > 0)
  {
    if name.None? || |name.value| == 0 then name
    else Some(CleanStep(CleanStep(CleanStep(name.value, Indicators[0]), Indicators[1]), Indicators[2]))
  }

  /** A string without an opening parenthesis goes through every step
      unchanged. */
  lemma NoParenUnchanged(s: string, pos: string)
    requires |pos| >= 2 && pos[1] == '(' && '(' !in s
    ensures CleanStep(s, pos) == s
  {
    CleanStepReplaces(s, pos);
    ReplaceSkip(s, "", pos, " ");
    assert s + "" == s;
  }

  /** The shape every indicator has: a space, an opening parenthesis,
      a letter, and no other opening parenthesis. */
  predicate Shaped(pos: string) {
    |pos| >= 3 && pos[0] == ' ' && pos[1] == '(' && pos[2] != '(' && '(' !in pos[2..]
  }

  lemma IndicatorShapes(k: nat)
    requires k < |Indicators|
    ensures Shaped(Indicators[k])
    ensures forall q :: 0 <= q < |Indicators| && q != k ==> Indicators[q][2] != Indicators[k][2]
  {
    if k == 0 {
      assert Indicators[0][2..] == "H) ";
    } else if k == 1 {
      assert Indicators[1][2..] == "Am) ";
    } else {
      assert Indicators[2][2..] == "P) ";
    }
  }

  /** A tag between two words, in a name with no other parenthesis, is
      cut out and leaves one space. */
  lemma CleanRemovesInnerTag(a: string, b: string, k: nat)
    requires k < |Indicators|
    requires '(' !in a && '(' !in b
    ensures CleanSuffixes(Some(a + Indicators[k] + b)) == Some(a + " " + b)
  {
    var clean := a + " " + b;
    assert '(' !in clean by {
      assert forall c :: c in clean ==> c in a || c == ' ' || c in b;
    }
    IndicatorShapes(0);
    IndicatorShapes(1);
    IndicatorShapes(2);
    var p0, p1, p2 := Indicators[0], Indicators[1], Indicators[2];
    NoParenUnchanged(clean, p0);
    NoParenUnchanged(clean, p1);
    NoParenUnchanged(clean, p2);
    if k == 0 {
      TagCut(a, b, p0);
    } else if k == 1 {
      OtherTagStays(a, b, p1, p0);
      TagCut(a, b, p1);
    } else {
      OtherTagStays(a, b, p2, p0);
      OtherTagStays(a, b, p2, p1);
      TagCut(a, b, p2);
    }
  }

  /** The step for a name's own tag cuts it out. */
  lemma TagCut(a: string, b: string, pos: string)
    requires Shaped(pos) && '(' !in a && '(' !in b
    ensures CleanStep(a + pos + b, pos) == a + " " + b
  {
    var s := a + pos + b;
    assert s == a + (pos + b);
    CleanStepReplaces(s, pos);
    ReplaceSkip(a, pos + b, pos, " ");
    ReplaceHead(pos, b, " ");
    NoParenUnchanged(b, pos);
    CleanStepReplaces(b, pos);
  }

  /** A step for another tag leaves a name with this tag as it is. */
  lemma OtherTagStays(a: string, b: string, pos: string, pat: string)
    requires Shaped(pos) && Shaped(pat) && pos[2] != pat[2]
    requires '(' !in a && '(' !in b
    ensures CleanStep(a + pos + b, pat) == a + pos + b
  {
    var s := a + pos + b;
    assert s == a + (pos + b);
    CleanStepReplaces(s, pat);
    ReplaceSkip(a, pos + b, pat, " ");
    TagStaysAlone(pos, b, pat);
  }

  /** The other tag's pattern does not occur in a tag and what follows it. */
  lemma TagStaysAlone(pos: string, b: string, pat: string)
    requires Shaped(pos) && Shaped(pat) && pos[2] != pat[2] && '(' !in b
    ensures ReplaceAll(pos + b, pat, " ") == pos + b
  {
    var t := pos + b;
    var t1 := t[1..];
    assert t1[1..] == pos[2..] + b;
    TailStays(pos, b, pat);
    assert |t1| >= |pat| ==> t1[..|pat|] != pat by {
      if |t1| >= |pat| {
        assert t1[..|pat|][0] == '(';
      }
    }
    KeepsHead(t1, pat, " ");
    assert |t| >= |pat| ==> t[..|pat|] != pat by {
      if |t| >= |pat| {
        assert t[..|pat|][2] == pos[2];
      }
    }
    KeepsHead(t, pat, " ");
  }

  /** A string whose front starts no occurrence and whose tail is left as
      it is, is left as it is. */
  lemma KeepsHead(s: string, pat: string, rep: string)
    requires |pat| > 0 && |s| > 0
    requires |s| >= |pat| ==> s[..|pat|] != pat
    requires ReplaceAll(s[1..], pat, rep) == s[1..]
    ensures ReplaceAll(s, pat, rep) == s
  {
    ReplaceCopiesHead(s, pat, rep);
    assert [s[0]] + s[1..] == s;
  }

  /** After the parenthesis no window can start a tag. */
  lemma TailStays(pos: string, b: string, pat: string)
    requires Shaped(pos) && Shaped(pat) && '(' !in b
    ensures ReplaceAll(pos[2..] + b, pat, " ") == pos[2..] + b
  {
    ReplaceSkip(pos[2..], b, pat, " ");
    NoParenUnchanged(b, pat);
    CleanStepReplaces(b, pat);
  }

  /** A tag at the very end of a name has no space after it and stays. */
  lemma CleanKeepsTrailingTag(a: string)
    requires '(' !in a
    ensures CleanSuffixes(Some(a + " (H)")) == Some(a + " (H)")
  {
    var s := a + " (H)";
    forall k | 0 <= k < |Indicators|
      ensures CleanStep(s, Indicators[k]) == s
    {
      var pos := Indicators[k];
      CleanStepReplaces(s, pos);
      ReplaceSkip(a, " (H)", pos, " ");
      assert ReplaceAll(" (H)", pos, " ") == " (H)";
    }
  }
}

/** The string operations of Python and JavaScript that the modelled code
    uses: character classes, case mapping (ASCII and the Latin-1 letters),
    strip, split, join, integer parsing and the code-point order of
    strings. */
module Text {
  import opened Wrappers
  import Sorting

  /** Python's `str.isspace` on ASCII. */
  predicate IsSpace(c: char) {
    c == ' ' || c == '\t' || c == '\n' || c == '\r' || c == '\U{B}' || c == '\U{C}'
  }

  predicate IsDigit(c: char) {
    '0' <= c <= '9'
  }

  /** The upper-case letters of ASCII and Latin-1 (A to Z, À to Þ but ×),
      and Ÿ, the capital of Latin-1's ÿ. */
  predicate IsUpperLetter(c: char) {
    ('A' <= c <= 'Z') || ('\U{00C0}' <= c <= '\U{00DE}' && c != '\U{00D7}') || c == '\U{0178}'
  }

  /** The lower-case letters paired with them (a to z, à to þ but ÷, ÿ). */
  predicate IsLowerLetter(c: char) {
    ('a' <= c <= 'z') || ('\U{00E0}' <= c <= '\U{00FE}' && c != '\U{00F7}') || c == '\U{00FF}'
  }

  predicate IsCased(c: char) { IsUpperLetter(c) || IsLowerLetter(c) }

  function UpperChar(c: char): (r: char)
    ensures IsLowerLetter(c) ==> IsUpperLetter(r)
    ensures !IsLowerLetter(c) ==> r == c
  {
    if c == '\U{00FF}' then '\U{0178}'
    else if IsLowerLetter(c) then (c as int - 32) as char
    else c
  }

  function LowerChar(c: char): (r: char)
    ensures IsUpperLetter(c) ==> IsLowerLetter(r)
    ensures !IsUpperLetter(c) ==> r == c
  {
    if c == '\U{0178}' then '\U{00FF}'
    else if IsUpperLetter(c) then (c as int + 32) as char
    else c
  }

  /** Lower-casing undoes upper-casing on a lower-case letter, and the
      other way round. */
  lemma CaseRoundTrip(c: char)
    ensures IsLowerLetter(c) ==> LowerChar(UpperChar(c)) == c
    ensures IsUpperLetter(c) ==> UpperChar(LowerChar(c)) == c
  {
  }

  /** `str.upper()`. */
  function Upper(s: string): (r: string)
    ensures |r| == |s|
    ensures forall i :: 0 <= i < |s| ==> r[i] == UpperChar(s[i])
  {
    seq(|s|, i requires 0 <= i < |s| => UpperChar(s[i]))
  }

  /** `str.isupper()`: some letter, and no lower-case letter. */
  predicate IsUpper(s: string) {
    (exists i :: 0 <= i < |s| && IsCased(s[i]))
    && (forall i :: 0 <= i < |s| ==> !IsLowerLetter(s[i]))
  }

  /** `str.title()`: a letter is upper-cased when the character before it
      is not a letter, and lower-cased otherwise. */
  function Title(s: string): (r: string)
    ensures |r| == |s|
    ensures forall i :: 0 <= i < |s| ==> r[i] == if i > 0 && IsCased(s[i - 1]) then LowerChar(s[i]) else UpperChar(s[i])
  {
    seq(|s|, i requires 0 <= i < |s| => if i > 0 && IsCased(s[i - 1]) then LowerChar(s[i]) else UpperChar(s[i]))
  }

  /** A Finnish surname with a Latin-1 letter: upper-cased and title-cased
      as Python does. */
  lemma LatinSurname()
    ensures Upper("M\U{00E4}kinen") == "M\U{00C4}KINEN"
    ensures Title("M\U{00C4}KINEN") == "M\U{00E4}kinen"
  {
  }

  function TrimLeft(s: string): (r: string)
    ensures |r| <= |s| && r == s[|s| - |r|..]
    ensures |r| == 0 || !IsSpace(r[0])
    decreases |s|
  {
    if |s| > 0 && IsSpace(s[0]) then TrimLeft(s[1..]) else s
  }

  function TrimRight(s: string): (r: string)
    ensures |r| <= |s| && r == s[..|r|]
    ensures |r| == 0 || !IsSpace(r[|r| - 1])
    decreases |s|
  {
    if |s| > 0 && IsSpace(s[|s| - 1]) then TrimRight(s[..|s| - 1]) else s
  }

  /** `str.strip()`. */
  function Strip(s: string): (r: string)
    ensures |r| <= |s|
    ensures |r| == 0 || (!IsSpace(r[0]) && !IsSpace(r[|r| - 1]))
  {
    TrimRight(TrimLeft(s))
  }

  predicate Stripped(s: string) {
    |s| == 0 || (!IsSpace(s[0]) && !IsSpace(s[|s| - 1]))
  }

  lemma StripStripped(s: string)
    requires Stripped(s)
    ensures Strip(s) == s
  {
  }

  /** Stripping already stripped strings changes none of them. */
  lemma StripAll(items: seq<string>)
    requires forall i :: 0 <= i < |items| ==> Stripped(items[i])
    ensures seq(|items|, i requires 0 <= i < |items| => Strip(items[i])) == items
  {
    forall i | 0 <= i < |items|
      ensures Strip(items[i]) == items[i]
    {
      StripStripped(items[i]);
    }
  }

  /** `s.split(sep)` for a one-character separator: never empty, and no
      piece contains the separator. */
  function Split(s: string, sep: char): (r: seq<string>)
    ensures |r| >= 1
    ensures forall i :: 0 <= i < |r| ==> sep !in r[i]
    decreases |s|
  {
    if |s| == 0 then [""]
    else
      var rest := Split(s[1..], sep);
      if s[0] == sep then [""] + rest
      else [[s[0]] + rest[0]] + rest[1..]
  }

  /** `sep.join(parts)`. */
  function Join(parts: seq<string>, sep: string): string
    decreases |parts|
  {
    if |parts| == 0 then ""
    else if |parts| == 1 then parts[0]
    else parts[0] + sep + Join(parts[1..], sep)
  }

  /** Splitting undoes joining, for pieces free of the separator. */
  lemma {:induction false} SplitJoin(parts: seq<string>, sep: char)
    requires |parts| >= 1
    requires forall i :: 0 <= i < |parts| ==> sep !in parts[i]
    ensures Split(Join(parts, [sep]), sep) == parts
    decreases |parts|, |parts[0]|
  {
    if |parts[0]| > 0 {
      var p0 := parts[0];
      var rest := [p0[1..]] + parts[1..];
      assert sep !in p0[1..] by {
        assert forall c :: c in p0[1..] ==> c in p0;
      }
      SplitJoin(rest, sep);
      var j := Join(parts, [sep]);
      if |parts| == 1 {
        assert j == p0 == [p0[0]] + Join(rest, [sep]);
      } else {
        assert rest[1..] == parts[1..];
        assert j == [p0[0]] + Join(rest, [sep]);
      }
      assert j[1..] == Join(rest, [sep]);
      assert j[0] == p0[0] != sep by {
        assert p0[0] in p0;
      }
      var sp := Split(j[1..], sep);
      assert sp == rest;
      assert Split(j, sep) == [[p0[0]] + sp[0]] + sp[1..];
      assert [p0[0]] + p0[1..] == p0;
    } else if |parts| > 1 {
      SplitJoin(parts[1..], sep);
      var j := Join(parts, [sep]);
      assert j == [sep] + Join(parts[1..], [sep]);
      assert j[1..] == Join(parts[1..], [sep]);
    }
  }

  /** Joining one more part appends the separator and that part. */
  lemma {:induction false} JoinSnoc(parts: seq<string>, last: string, sep: string)
    requires |parts| > 0
    ensures Join(parts + [last], sep) == Join(parts, sep) + sep + last
    decreases |parts|
  {
    if |parts| > 1 {
      JoinSnoc(parts[1..], last, sep);
      assert (parts + [last])[1..] == parts[1..] + [last];
    } else {
      assert (parts + [last])[1..] == [last];
    }
  }

  /** Non-empty stripped words joined by spaces give a non-empty stripped
      string. */
  lemma {:induction false} JoinWordsStripped(parts: seq<string>)
    requires |parts| > 0
    requires forall i :: 0 <= i < |parts| ==> |parts[i]| > 0 && Stripped(parts[i])
    ensures |Join(parts, " ")| > 0 && Stripped(Join(parts, " "))
    decreases |parts|
  {
    if |parts| > 1 {
      JoinWordsStripped(parts[1..]);
      var rest := Join(parts[1..], " ");
      var j := Join(parts, " ");
      assert j == parts[0] + " " + rest;
      assert j[0] == parts[0][0];
      assert j[|j| - 1] == rest[|rest| - 1];
    }
  }

  /** Title-casing keeps spaces and creates none. */
  lemma TitleSpaces(s: string)
    ensures forall i :: 0 <= i < |s| ==> (IsSpace(Title(s)[i]) <==> IsSpace(s[i]))
  {
  }

  predicate AllDigits(s: string) {
    forall i :: 0 <= i < |s| ==> IsDigit(s[i])
  }

  /** The value of a string of decimal digits. */
  function DigitsValue(s: string): nat
    requires AllDigits(s)
    decreases |s|
  {
    if |s| == 0 then 0 else DigitsValue(s[..|s| - 1]) * 10 + (s[|s| - 1] as int - '0' as int)
  }

  /** The decimal digits of a natural number. */
  function NatToString(n: nat): (r: string)
    ensures |r| >= 1 && AllDigits(r)
    decreases n
  {
    if n < 10 then [('0' as int + n) as char]
    else NatToString(n / 10) + [('0' as int + n % 10) as char]
  }

  lemma {:induction false} DigitsOfNat(n: nat)
    ensures DigitsValue(NatToString(n)) == n
    decreases n
  {
    if n >= 10 {
      DigitsOfNat(n / 10);
      var s := NatToString(n);
      assert s[..|s| - 1] == NatToString(n / 10);
    }
  }

  /** Python's `int(s)` for a decimal literal: surrounding whitespace and
      one sign are allowed; anything else raises ValueError. */
  function PyInt(s: string): (r: Result<int>)
    ensures r.Ok? ==> |Strip(s)| > 0
    ensures r.Err? ==> r.error == ValueError
  {
    var t := Strip(s);
    if |t| > 0 && (t[0] == '+' || t[0] == '-') then
      var d := t[1..];
      if |d| > 0 && AllDigits(d) then
        var v: int := DigitsValue(d);
        Ok(if t[0] == '-' then -v else v)
      else Err(ValueError)
    else if |t| > 0 && AllDigits(t) then Ok(DigitsValue(t))
    else Err(ValueError)
  }

  /** `a <= b` on Python or JavaScript strings: code-point lexicographic. */
  predicate LexLe(a: string, b: string)
    decreases |a|
  {
    |a| == 0 || (|b| > 0 && (a[0] < b[0] || (a[0] == b[0] && LexLe(a[1..], b[1..]))))
  }

  lemma {:induction false} LexLeTotal(a: string, b: string)
    ensures LexLe(a, b) || LexLe(b, a)
    decreases |a|
  {
    if |a| > 0 && |b| > 0 && a[0] == b[0] {
      LexLeTotal(a[1..], b[1..]);
    }
  }

  lemma {:induction false} LexLeTransitive(a: string, b: string, c: string)
    requires LexLe(a, b) && LexLe(b, c)
    ensures LexLe(a, c)
    decreases |a|
  {
    if |a| > 0 && a[0] == b[0] && b[0] == c[0] {
      LexLeTransitive(a[1..], b[1..], c[1..]);
    }
  }

  /** Ordering records by a string key is a total preorder, so sorting by
      it yields an ordered list. */
  lemma StringKeyPreorder<T(!new)>(key: T -> string)
    ensures Sorting.TotalPreorder((x: T, y: T) => LexLe(key(x), key(y)))
  {
    forall a: T, b: T
      ensures LexLe(key(a), key(b)) || LexLe(key(b), key(a))
    {
      LexLeTotal(key(a), key(b));
    }
    forall a: T, b: T, c: T | LexLe(key(a), key(b)) && LexLe(key(b), key(c))
      ensures LexLe(key(a), key(c))
    {
      LexLeTransitive(key(a), key(b), key(c));
    }
  }
}

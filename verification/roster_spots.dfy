/** The roster a game is created with: 25 spots, one per line and
    position, each with no player yet; and the "line-position" text that
    names a spot in the roster screens. */
module RosterSpots {
  import opened Wrappers
  import Seqs
  import Text

  /** A team player; only the id matters to the roster screens. */
  datatype Player = Player(id: int, name: string)

  /** A roster spot. A line read with `parseInt` may be NaN (None), and a
      position read from a split may be undefined (None). */
  datatype Spot = Spot(line: Option<nat>, position: Option<string>, player: Option<Player>)

  // ----------------------------------------------------------- template

  /** One line of a block: a spot per position, in order. */
  function Row(line: nat, ps: seq<string>): (r: seq<Spot>)
    ensures |r| == |ps|
    ensures forall k :: 0 <= k < |ps| ==> r[k] == Spot(Some(line), Some(ps[k]), None)
  {
    seq(|ps|, k requires 0 <= k < |ps| => Spot(Some(line), Some(ps[k]), None))
  }

  /** `for (let i = 1; i <= lines; i++) positions.map(...)`. */
  function Block(lines: nat, ps: seq<string>): seq<Spot>
    decreases lines
  {
    if lines == 0 then [] else Block(lines - 1, ps) + Row(lines, ps)
  }

  /** `generateEmptyPlayersInRoster`: five forward lines, four defence
      pairs and two goalies. */
  function Template(): seq<Spot> {
    Block(5, ["LW", "C", "RW"]) + Block(4, ["LD", "RD"]) + Block(2, ["G"])
  }

  /** The line and position of a spot, the pair the screens match on. */
  function Key(s: Spot): (Option<nat>, Option<string>) {
    (s.line, s.position)
  }

  /** Every spot of a block is empty, on one of its lines and at one of
      its positions. */
  lemma {:induction false} BlockSpots(lines: nat, ps: seq<string>)
    ensures |Block(lines, ps)| == lines * |ps|
    ensures forall i :: 0 <= i < |Block(lines, ps)| ==>
      Block(lines, ps)[i].player.None? && Block(lines, ps)[i].line.Some?
      && 1 <= Block(lines, ps)[i].line.value <= lines
      && Block(lines, ps)[i].position.Some? && Block(lines, ps)[i].position.value in ps
    decreases lines
  {
    if lines > 0 {
      BlockSpots(lines - 1, ps);
      var b: seq<Spot>, r: seq<Spot> := Block(lines - 1, ps), Row(lines, ps);
      assert |b + r| == (lines - 1) * |ps| + |ps|;
      forall i | 0 <= i < |b + r|
        ensures (b + r)[i].player.None? && (b + r)[i].line.Some?
          && 1 <= (b + r)[i].line.value <= lines
          && (b + r)[i].position.Some? && (b + r)[i].position.value in ps
      {
        if i >= |b| {
          assert (b + r)[i] == r[i - |b|];
          assert ps[i - |b|] in ps;
        }
      }
    }
  }

  /** No two spots of a block share a line and a position. */
  lemma {:induction false} BlockDistinct(lines: nat, ps: seq<string>)
    requires Seqs.Distinct(ps)
    ensures forall i, j :: 0 <= i < j < |Block(lines, ps)| ==> Key(Block(lines, ps)[i]) != Key(Block(lines, ps)[j])
    decreases lines
  {
    if lines > 0 {
      BlockDistinct(lines - 1, ps);
      BlockSpots(lines - 1, ps);
      var b: seq<Spot>, r: seq<Spot> := Block(lines - 1, ps), Row(lines, ps);
      forall i, j | 0 <= i < j < |b + r|
        ensures Key((b + r)[i]) != Key((b + r)[j])
      {
        if j >= |b| {
          assert (b + r)[j] == r[j - |b|];
          if i >= |b| {
            assert (b + r)[i] == r[i - |b|];
          } else {
            assert (b + r)[i] == b[i];
          }
        } else {
          assert (b + r)[i] == b[i] && (b + r)[j] == b[j];
        }
      }
    }
  }

  /** Spots of blocks with no position in common have different keys. */
  lemma BlocksApart(b: seq<Spot>, c: seq<Spot>, ps: seq<string>, qs: seq<string>)
    requires forall i :: 0 <= i < |b| ==> b[i].position.Some? && b[i].position.value in ps
    requires forall i :: 0 <= i < |c| ==> c[i].position.Some? && c[i].position.value in qs
    requires forall p :: p in ps ==> p !in qs
    ensures forall i, j :: 0 <= i < |b| && 0 <= j < |c| ==> Key(b[i]) != Key(c[j])
  {
  }

  lemma SpotsDistinctAppend(b: seq<Spot>, c: seq<Spot>)
    requires forall i, j :: 0 <= i < j < |b| ==> Key(b[i]) != Key(b[j])
    requires forall i, j :: 0 <= i < j < |c| ==> Key(c[i]) != Key(c[j])
    requires forall i, j :: 0 <= i < |b| && 0 <= j < |c| ==> Key(b[i]) != Key(c[j])
    ensures forall i, j :: 0 <= i < j < |b + c| ==> Key((b + c)[i]) != Key((b + c)[j])
  {
    forall i, j | 0 <= i < j < |b + c|
      ensures Key((b + c)[i]) != Key((b + c)[j])
    {
      if j >= |b| {
        assert (b + c)[j] == c[j - |b|];
        if i >= |b| {
          assert (b + c)[i] == c[i - |b|];
        }
      }
    }
  }

  const Forwards: seq<string> := ["LW", "C", "RW"]
  const Defenders: seq<string> := ["LD", "RD"]
  const Goalies: seq<string> := ["G"]

  lemma PositionSets()
    ensures Seqs.Distinct(Forwards) && Seqs.Distinct(Defenders) && Seqs.Distinct(Goalies)
    ensures forall p :: p in Forwards ==> p !in Defenders && p !in Goalies
    ensures forall p :: p in Defenders ==> p !in Goalies
  {
  }

  /** The template has 25 empty spots, no two with the same line and
      position: forwards first, then defenders, then goalies. */
  lemma TemplateShape()
    ensures |Template()| == 25
    ensures forall i :: 0 <= i < 25 ==> Template()[i].player.None?
    ensures forall i, j :: 0 <= i < j < 25 ==> Key(Template()[i]) != Key(Template()[j])
    ensures forall i :: 0 <= i < 15 ==> Template()[i].position.Some? && Template()[i].position.value in Forwards
    ensures forall i :: 15 <= i < 23 ==> Template()[i].position.Some? && Template()[i].position.value in Defenders
    ensures forall i :: 23 <= i < 25 ==> Template()[i].position == Some("G")
  {
    var f, d, g := Block(5, Forwards), Block(4, Defenders), Block(2, Goalies);
    assert Template() == f + d + g;
    BlockSpots(5, Forwards);
    BlockSpots(4, Defenders);
    BlockSpots(2, Goalies);
    PositionSets();
    BlockDistinct(5, Forwards);
    BlockDistinct(4, Defenders);
    BlockDistinct(2, Goalies);
    BlocksApart(f, d, Forwards, Defenders);
    SpotsDistinctAppend(f, d);
    BlocksApart(f + d, g, Forwards + Defenders, Goalies);
    SpotsDistinctAppend(f + d, g);
    forall i | 0 <= i < 25
      ensures (i < 15 ==> Template()[i] == f[i])
      ensures (15 <= i < 23 ==> Template()[i] == d[i - 15])
      ensures (23 <= i ==> Template()[i] == g[i - 23])
    {
    }
  }

  /** The last spot is the backup goalie's. */
  lemma TemplateLast()
    ensures |Template()| == 25 && Template()[24] == Spot(Some(2), Some("G"), None)
  {
    TemplateShape();
    assert Block(2, Goalies) == Row(1, Goalies) + Row(2, Goalies) by {
      assert Block(1, Goalies) == [] + Row(1, Goalies);
    }
  }

  // ------------------------------------------------------- spot names

  /** JavaScript's text for a line number, NaN included. */
  function LineText(line: Option<nat>): string {
    if line.Some? then Text.NatToString(line.value) else "NaN"
  }

  function PositionText(position: Option<string>): string {
    if position.Some? then position.value else "undefined"
  }

  /** `${spot.line}-${spot.position}`. */
  function SpotName(s: Spot): string {
    LineText(s.line) + "-" + PositionText(s.position)
  }

  /** The longest prefix of decimal digits. */
  function DigitPrefix(s: string): (r: string)
    ensures Text.AllDigits(r) && |r| <= |s| && r == s[..|r|]
    ensures |r| < |s| ==> !Text.IsDigit(s[|r|])
    decreases |s|
  {
    if |s| > 0 && Text.IsDigit(s[0]) then [s[0]] + DigitPrefix(s[1..]) else ""
  }

  /** `parseInt` on text without sign or leading blanks: the value of the
      leading digits, NaN when there are none. */
  function JsParseInt(s: string): (r: Option<nat>)
    ensures r.None? <==> |s| == 0 || !Text.IsDigit(s[0])
  {
    var d := DigitPrefix(s);
    if |d| == 0 then None else Some(Text.DigitsValue(d))
  }

  /** `const [line, position] = text.split("-")`, with the line through
      `parseInt`. */
  function ParseSpotName(text: string): (Option<nat>, Option<string>) {
    var parts := Text.Split(text, '-');
    (JsParseInt(parts[0]), if |parts| >= 2 then Some(parts[1]) else None)
  }

  lemma DigitPrefixAll(s: string)
    requires Text.AllDigits(s)
    ensures DigitPrefix(s) == s
  {
  }

  lemma ParseNat(n: nat)
    ensures JsParseInt(Text.NatToString(n)) == Some(n)
  {
    DigitPrefixAll(Text.NatToString(n));
    Text.DigitsOfNat(n);
  }

  /** The text of a spot with a line and a dash-free position reads back
      as that spot's line and position. */
  lemma SpotNameRoundTrip(s: Spot)
    requires s.line.Some? && s.position.Some? && '-' !in s.position.value
    ensures ParseSpotName(SpotName(s)) == Key(s)
  {
    var a, b := Text.NatToString(s.line.value), s.position.value;
    assert '-' !in a by {
      assert forall i :: 0 <= i < |a| ==> Text.IsDigit(a[i]);
    }
    Text.SplitJoin([a, b], '-');
    assert Text.Join([a, b], "-") == SpotName(s);
    ParseNat(s.line.value);
  }

  /** Whether a spot is the one a parsed name points at: `===` on the
      line never holds for NaN, and an undefined position matches an
      undefined one. */
  predicate Matches(s: Spot, line: Option<nat>, position: Option<string>) {
    s.line.Some? && line.Some? && s.line == line && s.position == position
  }

  /** Every template spot's name picks out exactly that spot. */
  lemma TemplateNamesUnique(k: nat, i: nat)
    requires k < 25 && i < 25
    ensures var name := ParseSpotName(SpotName(Template()[k]));
      Matches(Template()[i], name.0, name.1) <==> i == k
  {
    TemplateShape();
    var t := Template();
    TemplatePositionsPlain(k);
    SpotNameRoundTrip(t[k]);
    if i != k {
      assert Key(t[i]) != Key(t[k]);
    }
  }

  /** Template positions have no dash, and template lines are numbers. */
  lemma TemplatePositionsPlain(k: nat)
    requires k < 25
    ensures Template()[k].line.Some? && Template()[k].position.Some? && '-' !in Template()[k].position.value
  {
    TemplateShape();
    var t := Template();
    BlockSpots(5, Forwards);
    BlockSpots(4, Defenders);
    BlockSpots(2, Goalies);
    var f, d, g := Block(5, Forwards), Block(4, Defenders), Block(2, Goalies);
    assert t == f + d + g;
    if k < 15 {
      assert t[k] == f[k];
    } else if k < 23 {
      assert t[k] == d[k - 15];
    } else {
      assert t[k] == g[k - 23];
    }
  }
}

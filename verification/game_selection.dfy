/** Choosing the games a report covers from the `game_ids` query
    parameter: absent or empty means all of the team's games; otherwise a
    comma-separated list of integers, each parsed like Python's `int`. */
module GameSelection {
  import opened Wrappers
  import opened Text
  import Seqs

  /** Every comma-separated piece parsed as an integer; a bad piece raises
      ValueError. */
  function ParseGameIds(text: string): (r: Result<seq<int>>)
    ensures r.Err? ==> r.error == ValueError
  {
    var parts := Split(text, ',');
    assert forall i :: 0 <= i < |parts| ==> PyInt(parts[i]).Err? ==> PyInt(parts[i]).error == ValueError;
    MapAll(parts, PyInt)
  }

  /** The games whose id is listed, in the team's order. */
  function GamesWithIds<G(!new)>(games: seq<G>, id: G -> int, ids: seq<int>): seq<G> {
    Seqs.Filter(games, (g: G) => id(g) in ids)
  }

  /** The selected games: all of them for a missing or empty parameter,
      otherwise those whose id is listed, in the team's order; an
      unparsable id raises ValueError. */
  function SelectGames<G(==, !new)>(games: seq<G>, id: G -> int, idsText: Option<string>): (r: Result<seq<G>>)
    ensures (idsText.None? || idsText.value == "") ==> r == Ok(games)
    ensures r.Err? ==> r.error == ValueError
    ensures r.Ok? ==> Seqs.IsSubseq(r.value, games)
    ensures idsText.Some? && idsText.value != "" ==>
      (r.Ok? <==> ParseGameIds(idsText.value).Ok?)
      && (r.Ok? ==> forall g :: g in r.value <==> g in games && id(g) in ParseGameIds(idsText.value).value)
  {
    if idsText.None? || idsText.value == "" then
      Seqs.SubseqRefl(games);
      Ok(games)
    else
      var ids :- ParseGameIds(idsText.value);
      var p := (g: G) => id(g) in ids;
      Seqs.FilterIsSubseq(games, p);
      assert forall g :: g in Seqs.Filter(games, p) <==> g in games && id(g) in ids by {
        forall g ensures g in Seqs.Filter(games, p) <==> g in games && id(g) in ids {
          Seqs.FilterMembers(games, p, g);
        }
      }
      Ok(Seqs.Filter(games, p))
  }

  /** The decimal text of an integer, as Python's `str` writes it. */
  function IntText(n: int): (s: string)
    ensures ',' !in s
  {
    var digits := NatToString(if n < 0 then -n else n);
    assert forall i :: 0 <= i < |digits| ==> digits[i] != ',' by {
      forall i | 0 <= i < |digits| ensures digits[i] != ',' { assert IsDigit(digits[i]); }
    }
    if n < 0 then "-" + digits else digits
  }

  lemma PyIntOfIntText(n: int)
    ensures PyInt(IntText(n)) == Ok(n)
  {
    var m: nat := if n < 0 then -n else n;
    var digits := NatToString(m);
    DigitsOfNat(m);
    var s := IntText(n);
    assert !IsSpace(s[0]) && !IsSpace(s[|s| - 1]) by {
      assert IsDigit(digits[0]) && IsDigit(digits[|digits| - 1]);
    }
    StripStripped(s);
    if n < 0 {
      assert s[1..] == digits;
    } else {
      assert !(s[0] == '+' || s[0] == '-') by { assert IsDigit(digits[0]); }
    }
  }

  /** The parameter text a client writes for a list of ids. */
  function IdsText(ids: seq<int>): string {
    Join(Seqs.Map(ids, IntText), ",")
  }

  /** Parsing undoes writing: a non-empty id list survives the round trip. */
  lemma IdsRoundTrip(ids: seq<int>)
    requires |ids| >= 1
    ensures ParseGameIds(IdsText(ids)) == Ok(ids)
  {
    var parts := Seqs.Map(ids, IntText);
    SplitJoin(parts, ',');
    forall i | 0 <= i < |parts| ensures PyInt(parts[i]) == Ok(ids[i]) {
      PyIntOfIntText(ids[i]);
    }
    MapAllOk(parts, PyInt, ids);
  }

  /** Selecting with the text of an id list picks the games with those ids. */
  lemma SelectByIdsText<G(!new)>(games: seq<G>, id: G -> int, ids: seq<int>)
    requires |ids| >= 1
    ensures SelectGames(games, id, Some(IdsText(ids))) == Ok(GamesWithIds(games, id, ids))
  {
    IdsRoundTrip(ids);
  }
}

/** The display name of a player in the plus-minus sheets: the upper-cased
    last name, followed by initials when someone else on the roster has
    the same last name. */
module PlusMinusNames {
  import opened Wrappers
  import opened Records
  import opened Taxonomy
  import Text
  import Seqs

  /** The test for a namesake of `p`: same last name, another id. */
  function SharesLastName(p: Player): Player -> bool {
    (o: Player) => o.lastName == p.lastName && o.id != p.id
  }

  /** The other players of the roster with the player's last name, in
      roster order. */
  function Namesakes(p: Player, roster: seq<Player>): (r: seq<Player>)
    ensures forall o :: o in r <==> o in roster && o.lastName == p.lastName && o.id != p.id
  {
    assert forall o :: o in Seqs.Filter(roster, SharesLastName(p)) <==> o in roster && SharesLastName(p)(o) by {
      forall o ensures o in Seqs.Filter(roster, SharesLastName(p)) <==> o in roster && SharesLastName(p)(o) {
        Seqs.FilterMembers(roster, SharesLastName(p), o);
      }
    }
    Seqs.Filter(roster, SharesLastName(p))
  }

  /** The first position from `i` on where `a` and `b` differ or one ends. */
  function CommonFrom(a: string, b: string, i: nat): (k: nat)
    requires i <= |a| && i <= |b|
    ensures i <= k <= |a| && k <= |b|
    ensures a[i..k] == b[i..k]
    ensures k < |a| && k < |b| ==> a[k] != b[k]
    decreases |a| - i
  {
    if i < |a| && i < |b| && a[i] == b[i] then CommonFrom(a, b, i + 1) else i
  }

  /** Length of the longest common prefix. */
  function CommonPrefix(a: string, b: string): (k: nat)
    ensures k <= |a| && k <= |b|
    ensures a[..k] == b[..k]
    ensures k < |a| && k < |b| ==> a[k] != b[k]
  {
    CommonFrom(a, b, 0)
  }

  /** `a` is a prefix of `b`. */
  predicate IsPrefix(a: string, b: string) {
    |a| <= |b| && b[..|a|] == a
  }

  /** The first name is a prefix of `b` exactly when the common prefix
      covers all of it. */
  lemma CommonPrefixCovers(a: string, b: string)
    ensures IsPrefix(a, b) <==> CommonPrefix(a, b) == |a|
  {
    var k := CommonPrefix(a, b);
    if k < |a| && k < |b| && |a| <= |b| {
      assert b[..|a|][k] != a[k];
    }
  }

  /** The inner loop over one namesake's first name, as written: at each
      position `i` of that name, while the initials' `i`-th letter matches
      it, the player's letter at `i + 1` is appended (IndexError past the
      end of the player's first name); the first mismatch ends the loop. */
  function ExtendInitials(initials: string, first: string, other: string, i: nat): (r: Result<string>)
    requires i < |initials|
    ensures r.Ok? ==> |r.value| >= |initials|
    ensures r.Err? ==> r.error == IndexError
    decreases |other| - i
  {
    if i >= |other| then Ok(initials)
    else if initials[i] != other[i] then Ok(initials)
    else if i + 1 >= |first| then Err(IndexError)
    else ExtendInitials(initials + [first[i + 1]], first, other, i + 1)
  }

  /** The outer loop: the inner loop for each namesake in turn, the
      initials carried over from one namesake to the next. */
  function InitialsOver(initials: string, first: string, others: seq<Player>): (r: Result<string>)
    requires |initials| >= 1
    ensures r.Err? ==> r.error == IndexError
    decreases |others|
  {
    if |others| == 0 then Ok(initials)
    else
      var next :- ExtendInitials(initials, first, others[0].firstName, 0);
      InitialsOver(next, first, others[1..])
  }

  /** The name as the three copies of the formatting code compute it:
      IndexError when initials are needed and the first name is empty. */
  function FormatPlayerNameAsWritten(p: Player, roster: seq<Player>): (r: Result<string>)
    ensures r.Err? ==> r.error == IndexError && |Namesakes(p, roster)| > 0
    ensures |Namesakes(p, roster)| == 0 ==> r == Ok(Text.Upper(p.lastName))
  {
    var same := Namesakes(p, roster);
    if |same| == 0 then Ok(Text.Upper(p.lastName))
    else if |p.firstName| == 0 then Err(IndexError)
    else
      var initials :- InitialsOver(p.firstName[..1], p.firstName, same);
      Ok(Text.Upper(p.lastName) + " " + initials + ".")
  }

  /** Started on a prefix of the first name that the namesake's name
      shares, the inner loop yields the first name up to and including the
      first letter that differs from the namesake's, or IndexError when the
      whole first name is shared. */
  lemma {:induction false} ExtendFromPrefix(first: string, other: string, i: nat)
    requires i < |first| && i <= |other|
    requires first[..i] == other[..i]
    ensures ExtendInitials(first[..i + 1], first, other, i)
      == if CommonFrom(first, other, i) == |first| then Err(IndexError) else Ok(first[..CommonFrom(first, other, i) + 1])
    decreases |other| - i
  {
    var initials := first[..i + 1];
    if i >= |other| {
    } else if initials[i] != other[i] {
    } else if i + 1 >= |first| {
    } else {
      assert initials + [first[i + 1]] == first[..i + 2];
      assert first[..i + 1] == other[..i + 1] by {
        assert first[..i + 1] == first[..i] + [first[i]];
        assert other[..i + 1] == other[..i] + [other[i]];
      }
      ExtendFromPrefix(first, other, i + 1);
    }
  }

  /** With a single namesake the initials are the first name up to its
      first letter that differs from the namesake's first name. */
  lemma OneNamesake(p: Player, roster: seq<Player>)
    requires |Namesakes(p, roster)| == 1
    ensures FormatPlayerNameAsWritten(p, roster)
      == if IsPrefix(p.firstName, Namesakes(p, roster)[0].firstName) then Err(IndexError)
         else Ok(Text.Upper(p.lastName) + " " + p.firstName[..CommonPrefix(p.firstName, Namesakes(p, roster)[0].firstName) + 1] + ".")
  {
    var o := Namesakes(p, roster)[0];
    CommonPrefixCovers(p.firstName, o.firstName);
    if |p.firstName| > 0 {
      var same := Namesakes(p, roster);
      ExtendFromPrefix(p.firstName, o.firstName, 0);
      assert same[1..] == [];
      var ext := ExtendInitials(p.firstName[..1], p.firstName, o.firstName, 0);
      if ext.Ok? {
        assert InitialsOver(ext.value, p.firstName, []) == Ok(ext.value);
      }
      assert InitialsOver(p.firstName[..1], p.firstName, same) == ext;
    }
  }

  /** The longest prefix the first name shares with any namesake's. */
  function SharedPrefix(first: string, others: seq<Player>): (m: nat)
    ensures m <= |first|
    ensures forall o :: o in others ==> CommonPrefix(first, o.firstName) <= m
    ensures |others| > 0 ==> exists o :: o in others && CommonPrefix(first, o.firstName) == m
    decreases |others|
  {
    if |others| == 0 then 0
    else
      var k := CommonPrefix(first, others[0].firstName);
      var rest := SharedPrefix(first, others[1..]);
      assert forall o :: o in others ==> o == others[0] || o in others[1..];
      if k >= rest then k else rest
  }

  /** The intended initials: the shortest prefix of the first name that
      starts no namesake's first name. IndexError, as for one namesake,
      when the whole first name starts some namesake's. */
  function Initials(first: string, others: seq<Player>): (r: Result<string>)
    ensures r.Err? ==> r.error == IndexError
  {
    var m := SharedPrefix(first, others);
    if m >= |first| then Err(IndexError) else Ok(first[..m + 1])
  }

  /** The intended initials are a prefix of the first name that begins no
      namesake's first name, and dropping their last letter gives a prefix
      some namesake shares: no shorter prefix would tell the players apart.
      They are missing only when the first name itself begins a
      namesake's. */
  lemma InitialsDistinguish(first: string, others: seq<Player>)
    requires |others| > 0
    ensures Initials(first, others).Err? <==> exists o :: o in others && IsPrefix(first, o.firstName)
    ensures Initials(first, others).Ok? ==>
      var ini := Initials(first, others).value;
      1 <= |ini| && IsPrefix(ini, first)
      && (forall o :: o in others ==> !IsPrefix(ini, o.firstName))
      && (exists o :: o in others && IsPrefix(ini[..|ini| - 1], o.firstName))
  {
    InitialsMissing(first, others);
    var m := SharedPrefix(first, others);
    if m < |first| {
      ShortestDistinguishing(first, others);
      assert first[..m + 1][..m] == first[..m];
    }
  }

  /** The initials are missing exactly when the whole first name begins
      a namesake's. */
  lemma InitialsMissing(first: string, others: seq<Player>)
    requires |others| > 0
    ensures SharedPrefix(first, others) >= |first| <==> exists o :: o in others && IsPrefix(first, o.firstName)
  {
    forall o | o in others
      ensures IsPrefix(first, o.firstName) <==> CommonPrefix(first, o.firstName) == |first|
    {
      CommonPrefixCovers(first, o.firstName);
    }
  }

  /** One letter past the longest shared prefix tells the first name
      apart from every namesake, and the shared prefix itself does not. */
  lemma ShortestDistinguishing(first: string, others: seq<Player>)
    requires |others| > 0 && SharedPrefix(first, others) < |first|
    ensures forall o :: o in others ==> !IsPrefix(first[..SharedPrefix(first, others) + 1], o.firstName)
    ensures exists o :: o in others && IsPrefix(first[..SharedPrefix(first, others)], o.firstName)
  {
    var m := SharedPrefix(first, others);
    forall o | o in others ensures !IsPrefix(first[..m + 1], o.firstName) {
      NotPrefixPast(first, o.firstName, m + 1);
    }
    var o :| o in others && CommonPrefix(first, o.firstName) == m;
    assert o.firstName[..m] == first[..m];
  }

  /** A prefix of `a` longer than its common prefix with `b` does not
      begin `b`. */
  lemma NotPrefixPast(a: string, b: string, n: nat)
    requires CommonPrefix(a, b) < n <= |a|
    ensures !IsPrefix(a[..n], b)
  {
    var k := CommonPrefix(a, b);
    if k < |b| && n <= |b| {
      assert b[..n][k] == b[k] && a[..n][k] == a[k];
    }
  }

  /** The name with the intended initials. */
  function FormatPlayerName(p: Player, roster: seq<Player>): (r: Result<string>)
    ensures r.Err? ==> r.error == IndexError
  {
    var same := Namesakes(p, roster);
    if |same| == 0 then Ok(Text.Upper(p.lastName))
    else
      var initials :- Initials(p.firstName, same);
      Ok(Text.Upper(p.lastName) + " " + initials + ".")
  }

  /** With no namesake or a single one, the code as written already gives
      the intended name. */
  lemma FormatPlayerNameAgrees(p: Player, roster: seq<Player>)
    requires |Namesakes(p, roster)| <= 1
    ensures FormatPlayerNameAsWritten(p, roster) == FormatPlayerName(p, roster)
  {
    var same := Namesakes(p, roster);
    if |same| == 1 {
      assert same == [same[0]];
      OneNamesake(p, roster);
      CommonPrefixCovers(p.firstName, same[0].firstName);
      assert same[0] in same;
    }
  }

  /** A roster where three players are called Virtanen. */
  const Anton := Player(1, "Anton", "Virtanen", Forward)
  const Aaron := Player(2, "Aaron", "Virtanen", Forward)
  const Alex := Player(3, "Alex", "Virtanen", Forward)

  lemma ExampleNamesakes()
    ensures Namesakes(Anton, [Anton, Aaron, Alex]) == [Aaron, Alex]
  {
    var roster := [Anton, Aaron, Alex];
    assert roster[..2] == [Anton, Aaron] && roster[..1] == [Anton] && roster[..0] == [];
    assert Seqs.Filter(roster[..1], SharesLastName(Anton)) == [];
    assert Seqs.Filter(roster[..2], SharesLastName(Anton)) == [Aaron];
  }

  lemma ExampleInitialsAsWritten()
    ensures InitialsOver("A", "Anton", [Aaron, Alex]) == Ok("Ann")
  {
    assert "A" + ["Anton"[1]] == "An";
    assert ExtendInitials("An", "Anton", "Aaron", 1) == Ok("An");
    assert ExtendInitials("A", "Anton", "Aaron", 0) == Ok("An");
    assert "An" + ["Anton"[1]] == "Ann";
    assert ExtendInitials("Ann", "Anton", "Alex", 1) == Ok("Ann");
    assert ExtendInitials("An", "Anton", "Alex", 0) == Ok("Ann");
    assert [Aaron, Alex][1..] == [Alex];
    assert [Alex][1..] == [];
    assert InitialsOver("Ann", "Anton", []) == Ok("Ann");
    assert InitialsOver("An", "Anton", [Alex]) == Ok("Ann");
  }

  lemma ExampleShared()
    ensures SharedPrefix("Anton", [Aaron, Alex]) == 1
  {
    assert CommonFrom("Anton", "Aaron", 1) == 1;
    assert CommonFrom("Anton", "Alex", 1) == 1;
    assert [Aaron, Alex][1..] == [Alex];
    assert [Alex][1..] == [];
  }

  /** With two namesakes the code as written can repeat a letter: Anton
      Virtanen beside Aaron and Alex Virtanen gets the initials "Ann",
      which are not even a prefix of his first name, where "An" was
      meant. */
  lemma TwoNamesakesRepeatLetter()
    ensures FormatPlayerNameAsWritten(Anton, [Anton, Aaron, Alex]) == Ok("VIRTANEN Ann.")
    ensures FormatPlayerName(Anton, [Anton, Aaron, Alex]) == Ok("VIRTANEN An.")
    ensures !IsPrefix("Ann", "Anton")
  {
    ExampleNamesakes();
    ExampleInitialsAsWritten();
    ExampleShared();
    var same := Namesakes(Anton, [Anton, Aaron, Alex]);
    assert Text.Upper("Virtanen") == "VIRTANEN";
    assert Anton.firstName[..1] == "A";
    assert InitialsOver(Anton.firstName[..1], Anton.firstName, same) == Ok("Ann");
    assert "VIRTANEN" + " " + "Ann" + "." == "VIRTANEN Ann.";
    assert SharedPrefix(Anton.firstName, same) == 1;
    assert Anton.firstName[..2] == "An";
    assert Initials(Anton.firstName, same) == Ok("An");
    assert "VIRTANEN" + " " + "An" + "." == "VIRTANEN An.";
    assert "Anton"[..3][2] == 't' && "Ann"[2] == 'n';
  }
}

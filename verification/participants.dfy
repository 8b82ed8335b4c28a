/** The participants question of the tagging screen: clicking a player
    cycles them from off the ice, to on the ice, to participating, and
    back to off; submitting copies both lists into the tag being built. */
module Participants {
  import Seqs

  /** The two lists of player ids the question keeps. */
  datatype Picks = Picks(onIces: seq<int>, participations: seq<int>)

  /** Where a player stands in the cycle. */
  datatype Role = Off | OnIce | Participating

  function NextRole(r: Role): Role {
    match r
    case Off => OnIce
    case OnIce => Participating
    case Participating => Off
  }

  /** A player's role: participating when listed as such, on the ice
      when only listed on the ice, off otherwise. */
  function RoleOf(s: Picks, id: int): Role {
    if id in s.participations then Participating
    else if id in s.onIces then OnIce
    else Off
  }

  /** Every id but `id`. */
  function Other(id: int): int -> bool {
    (y: int) => y != id
  }

  /** `clickPlayer`. */
  function Click(s: Picks, id: int): (r: Picks)
    ensures |r.onIces| <= |s.onIces| + 1 && |r.participations| <= |s.participations| + 1
  {
    if id in s.participations then
      Picks(Seqs.Filter(s.onIces, Other(id)), Seqs.Filter(s.participations, Other(id)))
    else if id in s.onIces then
      Picks(s.onIces, s.participations + [id])
    else
      Picks(s.onIces + [id], s.participations)
  }

  /** The state the question starts in. */
  const Start: Picks := Picks([], [])

  /** Every participating player is also on the ice, and neither list
      repeats a player. */
  predicate Consistent(s: Picks) {
    Seqs.Distinct(s.onIces) && Seqs.Distinct(s.participations)
    && forall i :: 0 <= i < |s.participations| ==> s.participations[i] in s.onIces
  }

  lemma RemovedMembers(s: seq<int>, id: int, x: int)
    ensures x in Seqs.Filter(s, Other(id)) <==> x in s && x != id
  {
    Seqs.FilterMembers(s, Other(id), x);
  }

  /** A click moves the clicked player one step along the cycle and
      leaves every other player's role as it was. */
  lemma ClickCycles(s: Picks, id: int, x: int)
    ensures RoleOf(Click(s, id), x) == if x == id then NextRole(RoleOf(s, id)) else RoleOf(s, x)
  {
    if id in s.participations {
      RemovedMembers(s.onIces, id, x);
      RemovedMembers(s.participations, id, x);
    }
  }

  /** Three clicks give every player the role they had. */
  lemma ThreeClicksRestoreRoles(s: Picks, id: int, x: int)
    ensures RoleOf(Click(Click(Click(s, id), id), id), x) == RoleOf(s, x)
  {
    var s1 := Click(s, id);
    var s2 := Click(s1, id);
    ClickCycles(s, id, x);
    ClickCycles(s1, id, x);
    ClickCycles(s2, id, x);
  }

  /** For a player in neither list, three clicks give back the very same
      lists. */
  lemma ThreeClicksRestoreLists(s: Picks, id: int)
    requires id !in s.onIces && id !in s.participations
    ensures Click(Click(Click(s, id), id), id) == s
  {
    var s1 := Click(s, id);
    assert s1 == Picks(s.onIces + [id], s.participations);
    var s2 := Click(s1, id);
    assert s2 == Picks(s.onIces + [id], s.participations + [id]);
    DropSnoc(s.onIces, id);
    DropSnoc(s.participations, id);
  }

  /** Removing a player just appended to a list without them gives the
      list back. */
  lemma DropSnoc(s: seq<int>, id: int)
    requires id !in s
    ensures Seqs.Filter(s + [id], Other(id)) == s
  {
    Seqs.FilterAppend(s, [id], Other(id));
    DropAbsent(s, id);
    assert Seqs.Filter([id], Other(id)) == [] by {
      assert [id][..0] == [];
    }
  }

  lemma DropAbsent(s: seq<int>, id: int)
    requires id !in s
    ensures Seqs.Filter(s, Other(id)) == s
  {
    forall i | 0 <= i < |s|
      ensures Other(id)(s[i])
    {
      assert s[i] in s;
    }
    Seqs.FilterAll(s, Other(id));
  }

  /** Removing a player from a list without repetitions leaves one
      without repetitions. */
  lemma {:induction false} FilterDistinct(s: seq<int>, id: int)
    requires Seqs.Distinct(s)
    ensures Seqs.Distinct(Seqs.Filter(s, Other(id)))
    decreases |s|
  {
    if |s| > 0 {
      var init, last := s[..|s| - 1], s[|s| - 1];
      assert Seqs.Distinct(init);
      FilterDistinct(init, id);
      if last != id {
        assert last !in init by {
          forall i | 0 <= i < |init|
            ensures init[i] != last
          {
            assert init[i] == s[i];
          }
        }
        RemovedMembers(init, id, last);
        SnocDistinct(Seqs.Filter(init, Other(id)), last);
      }
    }
  }

  lemma SnocDistinct(s: seq<int>, id: int)
    requires Seqs.Distinct(s) && id !in s
    ensures Seqs.Distinct(s + [id])
  {
    var r := s + [id];
    forall i, j | 0 <= i < j < |r|
      ensures r[i] != r[j]
    {
      if j == |s| {
        assert r[i] == s[i] && s[i] in s;
      }
    }
  }

  /** Clicking keeps the lists consistent. */
  lemma ClickConsistent(s: Picks, id: int)
    requires Consistent(s)
    ensures Consistent(Click(s, id))
  {
    var r := Click(s, id);
    if id in s.participations {
      FilterDistinct(s.onIces, id);
      FilterDistinct(s.participations, id);
      forall i | 0 <= i < |r.participations|
        ensures r.participations[i] in r.onIces
      {
        var x := r.participations[i];
        RemovedMembers(s.participations, id, x);
        RemovedMembers(s.onIces, id, x);
        var k :| 0 <= k < |s.participations| && s.participations[k] == x;
      }
    } else if id in s.onIces {
      SnocDistinct(s.participations, id);
    } else {
      SnocDistinct(s.onIces, id);
    }
  }

  /** The lists after a run of clicks. */
  function Clicks(s: Picks, ids: seq<int>): Picks
    decreases |ids|
  {
    if |ids| == 0 then s else Clicks(Click(s, ids[0]), ids[1..])
  }

  /** Any run of clicks from the start gives consistent lists. */
  lemma {:induction false} ClicksConsistent(s: Picks, ids: seq<int>)
    requires Consistent(s)
    ensures Consistent(Clicks(s, ids))
    decreases |ids|
  {
    if |ids| > 0 {
      ClickConsistent(s, ids[0]);
      ClicksConsistent(Click(s, ids[0]), ids[1..]);
    }
  }

  /** The tag being built: its other fields, and the two id lists. */
  datatype TagDraft<R> = TagDraft(rest: R, onIces: seq<int>, participations: seq<int>)

  /** `handleSubmit`: the lists replace the tag's lists; the rest of the
      tag is kept. */
  function Submit<R>(tag: TagDraft<R>, s: Picks): (r: TagDraft<R>)
    ensures r.rest == tag.rest
  {
    tag.(onIces := s.onIces, participations := s.participations)
  }

  /** Whatever was clicked, a submitted tag lists every participating
      player among the on-ice players, each once. */
  lemma SubmittedConsistent<R>(tag: TagDraft<R>, ids: seq<int>)
    ensures var r := Submit(tag, Clicks(Start, ids));
      r.rest == tag.rest && Seqs.Distinct(r.onIces) && Seqs.Distinct(r.participations)
      && forall i :: 0 <= i < |r.participations| ==> r.participations[i] in r.onIces
  {
    ClicksConsistent(Start, ids);
  }
}

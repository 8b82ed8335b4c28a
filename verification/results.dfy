/** The classification of shot results used by the analysis views:
    which side a result belongs to, and whether it is a goal, a chance or
    a shot. */
module ResultSets {
  import opened Taxonomy
  import opened Wrappers
  import Seqs

  /** Results of the analysed team. */
  const ForSet: set<ShotResult> := {GoalFor, ChanceFor, ShotFor}
  /** Results of the opponent. */
  const AgainstSet: set<ShotResult> := {GoalAgainst, ChanceAgainst, ShotAgainst}
  /** Goals only; shots and chances are not goals. */
  const GoalSet: set<ShotResult> := {GoalFor, GoalAgainst}

  predicate IsGoal(r: ShotResult) { r in GoalSet }
  predicate IsChance(r: ShotResult) { r in {ChanceFor, ChanceAgainst} }
  predicate IsShot(r: ShotResult) { r == ShotFor || r == ShotAgainst }

  /** Every result belongs to exactly one side and is exactly one of goal,
      chance or shot. */
  lemma Partition(r: ShotResult)
    ensures (r in ForSet) != (r in AgainstSet)
    ensures (IsGoal(r) && !IsChance(r) && !IsShot(r))
         || (!IsGoal(r) && IsChance(r) && !IsShot(r))
         || (!IsGoal(r) && !IsChance(r) && IsShot(r))
  {
  }

  /** "FOR" for the analysed team's results, "AGAINST" otherwise. */
  function SideOf(r: ShotResult): (side: string)
    ensures side == "FOR" <==> r in ForSet
    ensures side == "AGAINST" <==> r in AgainstSet
  {
    Partition(r);
    if r in ForSet then "FOR" else "AGAINST"
  }

  /** The six display toggles of the analysis view. */
  datatype Toggles = Toggles(gf: bool, ga: bool, cf: bool, ca: bool, sf: bool, sa: bool)

  /** The toggles' defaults when a caller passes none. */
  const DefaultToggles := Toggles(true, true, true, true, true, true)

  /** Whether a result is shown under the toggles: each result is gated by
      its own toggle and by no other. */
  function AllowResult(r: ShotResult, t: Toggles): (allowed: bool)
    ensures r == GoalFor ==> (allowed <==> t.gf)
    ensures r == GoalAgainst ==> (allowed <==> t.ga)
    ensures r == ChanceFor ==> (allowed <==> t.cf)
    ensures r == ChanceAgainst ==> (allowed <==> t.ca)
    ensures r == ShotFor ==> (allowed <==> t.sf)
    ensures r == ShotAgainst ==> (allowed <==> t.sa)
  {
    match r
    case GoalFor => t.gf
    case GoalAgainst => t.ga
    case ChanceFor => t.cf
    case ChanceAgainst => t.ca
    case ShotFor => t.sf
    case ShotAgainst => t.sa
  }

  /** With the default toggles every result is shown. */
  lemma DefaultsAllowAll(r: ShotResult)
    ensures AllowResult(r, DefaultToggles)
  {
  }

  /** The display string of an optional enumeration value; plain strings
      and missing values pass through. */
  datatype Labelled = ResultValue(result: ShotResult) | PlainText(text: string)

  function ToLabel(v: Option<Labelled>): (r: Option<string>)
    ensures v.None? <==> r.None?
    ensures v.Some? && v.value.PlainText? ==> r == Some(v.value.text)
    ensures v.Some? && v.value.ResultValue? ==> r.Some? && ParseResult(r.value) == Some(v.value.result)
  {
    match v
    case None => None
    case Some(ResultValue(res)) => Some(ResultLabel(res))
    case Some(PlainText(s)) => Some(s)
  }

  /** Converts shot-type strings, silently skipping the unknown ones: the
      known strings, in their order, each read as its shot type. */
  function ParseShotTypeValues(values: Option<seq<string>>): (r: seq<ShotType>)
    ensures values.None? ==> r == []
    ensures values.Some? ==> |r| == |Seqs.Filter(values.value, KnownShotType)|
    ensures values.Some? ==> forall i :: 0 <= i < |r| ==> ShotTypeName(r[i]) in values.value
    ensures values.Some? ==> Seqs.Map(r, ShotTypeName) == Seqs.Filter(values.value, KnownShotType)
    decreases if values.Some? then |values.value| else 0
  {
    match values
    case None => []
    case Some(vs) =>
      if |vs| == 0 then []
      else
        var init := ParseShotTypeValues(Some(vs[..|vs| - 1]));
        var last := vs[|vs| - 1];
        assert forall i :: 0 <= i < |init| ==> ShotTypeName(init[i]) in vs by {
          assert forall x :: x in vs[..|vs| - 1] ==> x in vs;
        }
        assert Seqs.Filter(vs, KnownShotType)
          == Seqs.Filter(vs[..|vs| - 1], KnownShotType) + (if KnownShotType(last) then [last] else []);
        match ParseShotType(last)
        case Some(t) =>
          Seqs.MapAppend(init, [t], ShotTypeName);
          init + [t]
        case None => init
  }

  predicate KnownShotType(s: string) {
    ParseShotType(s).Some?
  }

  /** Parsing the names of shot types gives back those shot types. */
  lemma ParseShotTypeNames(ts: seq<ShotType>)
    ensures ParseShotTypeValues(Some(Seqs.Map(ts, ShotTypeName))) == ts
  {
    var vs := Seqs.Map(ts, ShotTypeName);
    var r := ParseShotTypeValues(Some(vs));
    forall i | 0 <= i < |vs| ensures KnownShotType(vs[i]) {
      ShotTypeNameRoundTrip(ts[i]);
    }
    Seqs.FilterAll(vs, KnownShotType);
    assert Seqs.Map(r, ShotTypeName) == vs;
    forall i | 0 <= i < |ts| ensures r[i] == ts[i] {
      assert ShotTypeName(r[i]) == ShotTypeName(ts[i]);
      ShotTypeNameRoundTrip(r[i]);
      ShotTypeNameRoundTrip(ts[i]);
    }
  }
}

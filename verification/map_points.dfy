/** The map points of a report: every tag's ice and net coordinates,
    grouped by the results under which the maps draw them. */
module MapPoints {
  import opened Wrappers
  import opened Taxonomy
  import opened Records
  import opened ResultSets
  import opened Outcome
  import Seqs

  /** A point drawn on the ice or net picture; coordinates may be missing. */
  datatype Point = Point(x: Option<int>, y: Option<int>)

  /** The ice and net points drawn for one result. */
  datatype PointLists = PointLists(ice: seq<Point>, net: seq<Point>)

  type ResultMap = map<ShotResult, PointLists>

  function IcePoint(t: Tag): Point { Point(t.iceX, t.iceY) }
  function NetPoint(t: Tag): Point { Point(t.netX, t.netY) }

  /** A tag of result `r` is drawn in the lists of `k`. */
  predicate DrawnAs(k: ShotResult, r: ShotResult) {
    MapResultMapping(r).Some? && k in MapResultMapping(r).value
  }

  function DrawnIn(k: ShotResult): Tag -> bool {
    (t: Tag) => DrawnAs(k, t.result)
  }

  /** Reference definition: the points of `k` are those of the tags drawn
      as `k`, in tag order. */
  function PointsOf(tags: seq<Tag>, k: ShotResult): PointLists {
    var drawn := Seqs.Filter(tags, DrawnIn(k));
    PointLists(Seqs.Map(drawn, IcePoint), Seqs.Map(drawn, NetPoint))
  }

  /** Every result has its lists, and they are the reference points. */
  predicate GroupedAs(m: ResultMap, tags: seq<Tag>) {
    forall k: ShotResult :: k in m && m[k] == PointsOf(tags, k)
  }

  /** No tag is a plain shot (shots have no map entry). */
  predicate NoShots(tags: seq<Tag>) {
    forall i :: 0 <= i < |tags| ==> !IsShot(tags[i].result)
  }

  const NoPoints: ResultMap := map k | k in AllResults :: PointLists([], [])

  lemma NoPointsGrouped()
    ensures GroupedAs(NoPoints, [])
  {
    forall k: ShotResult ensures k in NoPoints {
      match k
      case GoalFor => assert k == AllResults[0];
      case GoalAgainst => assert k == AllResults[1];
      case ChanceFor => assert k == AllResults[2];
      case ChanceAgainst => assert k == AllResults[3];
      case ShotFor => assert k == AllResults[4];
      case ShotAgainst => assert k == AllResults[5];
    }
  }

  /** Appends a tag's two points to the lists of each target result. */
  function AppendPoints(m: ResultMap, targets: seq<ShotResult>, ice: Point, net: Point): ResultMap {
    map k | k in m :: if k in targets then PointLists(m[k].ice + [ice], m[k].net + [net]) else m[k]
  }

  lemma MapSnoc<T, U>(s: seq<T>, x: T, f: T -> U)
    ensures Seqs.Map(s + [x], f) == Seqs.Map(s, f) + [f(x)]
  {
  }

  lemma PointsOfSnoc(init: seq<Tag>, t: Tag, k: ShotResult)
    ensures PointsOf(init + [t], k) ==
      if DrawnAs(k, t.result) then PointLists(PointsOf(init, k).ice + [IcePoint(t)], PointsOf(init, k).net + [NetPoint(t)])
      else PointsOf(init, k)
  {
    var tags := init + [t];
    assert tags[..|tags| - 1] == init;
    var fi := Seqs.Filter(init, DrawnIn(k));
    if DrawnAs(k, t.result) {
      assert Seqs.Filter(tags, DrawnIn(k)) == fi + [t];
      MapSnoc(fi, t, IcePoint);
      MapSnoc(fi, t, NetPoint);
    } else {
      assert Seqs.Filter(tags, DrawnIn(k)) == fi;
    }
  }

  lemma AppendPointsGrouped(init: seq<Tag>, t: Tag, m: ResultMap)
    requires GroupedAs(m, init)
    requires MapResultMapping(t.result).Some?
    ensures GroupedAs(AppendPoints(m, MapResultMapping(t.result).value, IcePoint(t), NetPoint(t)), init + [t])
  {
    forall k: ShotResult
      ensures AppendPoints(m, MapResultMapping(t.result).value, IcePoint(t), NetPoint(t))[k] == PointsOf(init + [t], k)
    {
      PointsOfSnoc(init, t, k);
    }
  }

  lemma NoShotsSnoc(init: seq<Tag>, t: Tag)
    ensures NoShots(init + [t]) <==> NoShots(init) && !IsShot(t.result)
  {
    var tags := init + [t];
    if NoShots(tags) {
      forall i | 0 <= i < |init| ensures !IsShot(init[i].result) { assert init[i] == tags[i]; }
      assert tags[|init|] == t;
    }
  }

  /** The map points of the tags, grouped by result: every result has its
      (possibly empty) lists; a goal is drawn as its side's chance and as
      a goal; a shot has no entry in the result mapping, so the first shot
      tag aborts with KeyError. */
  function CollectMappedData(tags: seq<Tag>): (r: Result<ResultMap>)
    ensures r.Ok? <==> NoShots(tags)
    ensures r.Err? ==> r.error == KeyError
    ensures r.Ok? ==> GroupedAs(r.value, tags)
    decreases |tags|
  {
    if |tags| == 0 then
      NoPointsGrouped();
      Ok(NoPoints)
    else
      var init := tags[..|tags| - 1];
      var t := tags[|tags| - 1];
      assert tags == init + [t];
      NoShotsSnoc(init, t);
      var m :- CollectMappedData(init);
      var targets :- Need(MapResultMapping(t.result), KeyError);
      AppendPointsGrouped(init, t, m);
      Ok(AppendPoints(m, targets, IcePoint(t), NetPoint(t)))
  }

  /** Goal points are also chance points: the goal lists of a side are
      subsequences of that side's chance lists. */
  lemma GoalPointsAreChancePoints(tags: seq<Tag>, goal: ShotResult)
    requires IsGoal(goal)
    ensures var chance := if goal == GoalFor then ChanceFor else ChanceAgainst;
      Seqs.IsSubseq(PointsOf(tags, goal).ice, PointsOf(tags, chance).ice)
      && Seqs.IsSubseq(PointsOf(tags, goal).net, PointsOf(tags, chance).net)
  {
    var chance := if goal == GoalFor then ChanceFor else ChanceAgainst;
    forall t: Tag | DrawnIn(goal)(t) ensures DrawnIn(chance)(t) {
      assert DrawnAs(goal, t.result);
    }
    Seqs.FilterStronger(tags, DrawnIn(goal), DrawnIn(chance));
    Seqs.MapSubseq(Seqs.Filter(tags, DrawnIn(goal)), Seqs.Filter(tags, DrawnIn(chance)), IcePoint);
    Seqs.MapSubseq(Seqs.Filter(tags, DrawnIn(goal)), Seqs.Filter(tags, DrawnIn(chance)), NetPoint);
  }

  /** Shot results are drawn nowhere: their lists stay empty. */
  lemma ShotListsStayEmpty(tags: seq<Tag>, shot: ShotResult)
    requires IsShot(shot)
    ensures PointsOf(tags, shot) == PointLists([], [])
  {
    forall t: Tag ensures !DrawnIn(shot)(t) {
    }
    Seqs.FilterNone(tags, DrawnIn(shot));
  }

  /** The tags of a side that reach the chance lists: its chances and its goals. */
  function ChanceOrGoalOf(chance: ShotResult): Tag -> bool {
    (t: Tag) => t.result == chance || t.result == (if chance == ChanceFor then GoalFor else GoalAgainst)
  }

  /** A chance is drawn once for each goal or chance of its side, and for
      nothing else. */
  lemma ChancePointsCountSide(tags: seq<Tag>, chance: ShotResult)
    requires IsChance(chance)
    ensures |PointsOf(tags, chance).ice| == |Seqs.Filter(tags, ChanceOrGoalOf(chance))|
  {
    forall t: Tag ensures DrawnIn(chance)(t) == ChanceOrGoalOf(chance)(t) {
    }
    Seqs.FilterSame(tags, DrawnIn(chance), ChanceOrGoalOf(chance));
  }
}

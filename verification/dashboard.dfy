/** The dashboard's per-game figures: goals and scoring chances for and
    against, per ice zone, per net zone and per rostered player, for all
    tags and for the three strength situations. */
module Dashboard {
  import opened Wrappers
  import opened Taxonomy
  import opened Records
  import Seqs
  import Dicts
  import Text

  // ------------------------------------------------------------ counters

  /** The counters of a zone: goals and chances for and against. */
  datatype ZoneData = ZoneData(goalsFor: nat, goalsAgainst: nat, chancesFor: nat, chancesAgainst: nat)

  const NoEvents: ZoneData := ZoneData(0, 0, 0, 0)

  /** One tag's effect on a zone: a goal is also a chance of the same side,
      shots count nowhere. */
  function AddResult(z: ZoneData, r: ShotResult): ZoneData {
    match r
    case GoalFor => z.(goalsFor := z.goalsFor + 1, chancesFor := z.chancesFor + 1)
    case GoalAgainst => z.(goalsAgainst := z.goalsAgainst + 1, chancesAgainst := z.chancesAgainst + 1)
    case ChanceFor => z.(chancesFor := z.chancesFor + 1)
    case ChanceAgainst => z.(chancesAgainst := z.chancesAgainst + 1)
    case _ => z
  }

  function Plus(a: ZoneData, b: ZoneData): ZoneData {
    ZoneData(a.goalsFor + b.goalsFor, a.goalsAgainst + b.goalsAgainst,
             a.chancesFor + b.chancesFor, a.chancesAgainst + b.chancesAgainst)
  }

  /** No side has more goals than chances. */
  predicate Consistent(z: ZoneData) {
    z.goalsFor <= z.chancesFor && z.goalsAgainst <= z.chancesAgainst
  }

  /** The counters after the given tags, from zero. */
  function Tally(tags: seq<Tag>): (z: ZoneData)
    ensures Consistent(z)
    decreases |tags|
  {
    if |tags| == 0 then NoEvents
    else AddResult(Tally(tags[..|tags| - 1]), tags[|tags| - 1].result)
  }

  lemma TallySnoc(tags: seq<Tag>, t: Tag)
    ensures Tally(tags + [t]) == AddResult(Tally(tags), t.result)
  {
    assert (tags + [t])[..|tags|] == tags;
  }

  /** The counters after one more tag when only tags passing `p` count. */
  function StepIf(z: ZoneData, p: Tag -> bool, t: Tag): ZoneData {
    if p(t) then AddResult(z, t.result) else z
  }

  /** Filtering one more tag tallies it exactly when it passes the filter. */
  lemma TallyFilterSnoc(tags: seq<Tag>, t: Tag, p: Tag -> bool)
    ensures Tally(Seqs.Filter(tags + [t], p)) == StepIf(Tally(Seqs.Filter(tags, p)), p, t)
  {
    assert (tags + [t])[..|tags|] == tags;
    if p(t) {
      assert Seqs.Filter(tags + [t], p) == Seqs.Filter(tags, p) + [t];
      TallySnoc(Seqs.Filter(tags, p), t);
    } else {
      assert Seqs.Filter(tags + [t], p) == Seqs.Filter(tags, p);
    }
  }

  /** Adding a result is adding the counters of that result alone. */
  lemma AddResultIsPlus(z: ZoneData, r: ShotResult)
    ensures AddResult(z, r) == Plus(z, AddResult(NoEvents, r))
  {
  }

  function ResultIn(rs: set<ShotResult>): Tag -> bool {
    (t: Tag) => t.result in rs
  }

  /** How many tags have one of the results `rs`. */
  function CountOf(tags: seq<Tag>, rs: set<ShotResult>): nat {
    |Seqs.Filter(tags, ResultIn(rs))|
  }

  /** The zone counters count what the KPI sums count: goals of each side,
      and chances together with goals of each side. */
  lemma {:induction false} TallyCounts(tags: seq<Tag>)
    ensures Tally(tags) == ZoneData(CountOf(tags, {GoalFor}), CountOf(tags, {GoalAgainst}),
                                    CountOf(tags, {ChanceFor, GoalFor}), CountOf(tags, {ChanceAgainst, GoalAgainst}))
    decreases |tags|
  {
    if |tags| > 0 {
      TallyCounts(tags[..|tags| - 1]);
    }
  }

  /** Componentwise sum of a sequence of counters. */
  function ZoneSum(zs: seq<ZoneData>): ZoneData
    decreases |zs|
  {
    if |zs| == 0 then NoEvents else Plus(ZoneSum(zs[..|zs| - 1]), zs[|zs| - 1])
  }

  lemma ZoneSumSnoc(zs: seq<ZoneData>, z: ZoneData)
    ensures ZoneSum(zs + [z]) == Plus(ZoneSum(zs), z)
  {
    assert (zs + [z])[..|zs|] == zs;
  }

  /** Replacing one element changes the sum by the difference. */
  lemma {:induction false} ZoneSumUpdate(zs: seq<ZoneData>, i: int, z: ZoneData)
    requires 0 <= i < |zs|
    ensures Plus(ZoneSum(zs[i := z]), zs[i]) == Plus(ZoneSum(zs), z)
    decreases |zs|
  {
    var u := zs[i := z];
    if i < |zs| - 1 {
      assert u[..|u| - 1] == zs[..|zs| - 1][i := z];
      ZoneSumUpdate(zs[..|zs| - 1], i, z);
    } else {
      assert u[..|u| - 1] == zs[..|zs| - 1];
    }
  }

  // ---------------------------------------------------------- zone names

  datatype Side = LeftHalf | RightHalf

  /** The half of the rink a shot came from: below x = 50 is the left, and
      a shot without a coordinate counts as left. */
  function SideOf(iceX: Option<int>): Side {
    match iceX
    case None => LeftHalf
    case Some(x) => if x < 50 then LeftHalf else RightHalf
  }

  function SideSuffix(s: Side): string {
    match s
    case LeftHalf => "_LEFT"
    case RightHalf => "_RIGHT"
  }

  /** The areas the dashboard splits into a left and a right half. */
  predicate Mirrored(a: ShotArea) {
    a == Zone2Side || a == Zone4 || a == OutsideFar || a == OutsideClose
  }

  /** The split is decided on the area's name, as the dashboard does. */
  lemma MirroredByName(a: ShotArea)
    ensures Mirrored(a) <==> AreaName(a) in ["ZONE_2_SIDE", "ZONE_4", "OUTSIDE_FAR", "OUTSIDE_CLOSE"]
  {
    AreaNameRoundTrip(a);
  }

  /** The ice-zone key of a tag: "UNKNOWN" without an area, else the area's
      name, with the side appended for a mirrored area. */
  function IceZoneName(t: Tag): string {
    match t.area
    case None => "UNKNOWN"
    case Some(a) => if Mirrored(a) then AreaName(a) + SideSuffix(SideOf(t.iceX)) else AreaName(a)
  }

  /** What an ice-zone key denotes. */
  datatype IceZone = NoArea | WholeArea(area: ShotArea) | HalfArea(area: ShotArea, side: Side)

  /** The zone a tag is counted in. */
  function ZoneOfTag(t: Tag): IceZone {
    match t.area
    case None => NoArea
    case Some(a) => if Mirrored(a) then HalfArea(a, SideOf(t.iceX)) else WholeArea(a)
  }

  predicate EndsWith(s: string, suffix: string) {
    |suffix| <= |s| && s[|s| - |suffix|..] == suffix
  }

  function HalfOf(s: string, side: Side): Option<IceZone> {
    match ParseArea(s)
    case Some(a) => if Mirrored(a) then Some(HalfArea(a, side)) else None
    case None => None
  }

  /** Reads an ice-zone key back. */
  function ParseIceZone(s: string): (r: Option<IceZone>)
    ensures r.Some? && r.value.HalfArea? ==> Mirrored(r.value.area)
    ensures r.Some? && r.value.WholeArea? ==> !Mirrored(r.value.area)
  {
    if s == "UNKNOWN" then Some(NoArea)
    else if EndsWith(s, "_LEFT") then HalfOf(s[..|s| - 5], LeftHalf)
    else if EndsWith(s, "_RIGHT") then HalfOf(s[..|s| - 6], RightHalf)
    else
      match ParseArea(s)
      case Some(a) => if Mirrored(a) then None else Some(WholeArea(a))
      case None => None
  }

  lemma HalfRoundTrip(a: ShotArea, side: Side)
    requires Mirrored(a)
    ensures ParseIceZone(AreaName(a) + SideSuffix(side)) == Some(HalfArea(a, side))
  {
    var s := AreaName(a) + SideSuffix(side);
    AreaNameRoundTrip(a);
    assert s[..|AreaName(a)|] == AreaName(a);
    assert s[|AreaName(a)|..] == SideSuffix(side);
    assert s != "UNKNOWN" by {
      assert |s| > 7;
    }
    if side == RightHalf {
      assert s[|s| - 2] == 'H';
      assert s[|s| - 5..][3] == 'H';
    }
  }

  lemma WholeRoundTrip(a: ShotArea)
    requires !Mirrored(a)
    ensures ParseIceZone(AreaName(a)) == Some(WholeArea(a))
  {
    AreaNameRoundTrip(a);
  }

  /** Every key reads back as the zone its tag is counted in. */
  lemma IceZoneNameRoundTrip(t: Tag)
    ensures ParseIceZone(IceZoneName(t)) == Some(ZoneOfTag(t))
  {
    match t.area
    case None =>
    case Some(a) =>
      if Mirrored(a) {
        HalfRoundTrip(a, SideOf(t.iceX));
      } else {
        WholeRoundTrip(a);
      }
  }

  /** Two tags share an ice-zone key exactly when they are counted in the
      same zone: same area, and for a mirrored area the same side. */
  lemma IceZoneNamesDistinguish(t1: Tag, t2: Tag)
    ensures IceZoneName(t1) == IceZoneName(t2) <==> ZoneOfTag(t1) == ZoneOfTag(t2)
  {
    IceZoneNameRoundTrip(t1);
    IceZoneNameRoundTrip(t2);
  }

  /** How Python formats an optional text: None prints as "None". */
  function OptText(o: Option<string>): string {
    match o
    case None => "None"
    case Some(s) => s
  }

  /** The net-zone key: height and width joined by a dash. */
  function NetZoneName(t: Tag): string {
    OptText(t.netHeight) + "-" + OptText(t.netWidth)
  }

  /** For dash-free texts the key splits back into height and width. */
  lemma NetZoneNameSplits(t: Tag)
    requires '-' !in OptText(t.netHeight) && '-' !in OptText(t.netWidth)
    ensures Text.Split(NetZoneName(t), '-') == [OptText(t.netHeight), OptText(t.netWidth)]
  {
    var parts := [OptText(t.netHeight), OptText(t.netWidth)];
    assert parts[1..] == [OptText(t.netWidth)];
    assert Text.Join(parts, "-") == NetZoneName(t);
    Text.SplitJoin(parts, '-');
  }

  // ---------------------------------------------------------- zone tables

  /** Zone counters by key, keys in the order of their first tag. */
  type ZoneTable = Dicts.Dict<string, ZoneData>

  /** One tag's step: the zone gets an entry if it has none, then the
      result is added to it. */
  function AddTag(d: ZoneTable, k: string, r: ShotResult): ZoneTable {
    Dicts.Put(d, k, AddResult(Dicts.Get(d, k).GetOr(NoEvents), r))
  }

  /** The zone table of the tags, keyed by `nameOf`. */
  function ZoneTableOf(tags: seq<Tag>, nameOf: Tag -> string): (d: ZoneTable)
    ensures Dicts.Valid(d)
    decreases |tags|
  {
    if |tags| == 0 then []
    else
      var d := ZoneTableOf(tags[..|tags| - 1], nameOf);
      var t := tags[|tags| - 1];
      Dicts.PutValid(d, nameOf(t), AddResult(Dicts.Get(d, nameOf(t)).GetOr(NoEvents), t.result));
      AddTag(d, nameOf(t), t.result)
  }

  /** The entry a key should have after the tags: none if no tag has the
      key, else the counters of the tags that have it. */
  function ZoneAfter(tags: seq<Tag>, nameOf: Tag -> string, k: string): Option<ZoneData> {
    var named := Seqs.Filter(tags, Seqs.KeyIs(nameOf, k));
    if |named| == 0 then None else Some(Tally(named))
  }

  /** A key has an entry exactly when some tag has that key, even a tag
      whose result counts nowhere, and the entry counts those tags. */
  lemma {:induction false} ZoneTableGet(tags: seq<Tag>, nameOf: Tag -> string, k: string)
    ensures Dicts.Get(ZoneTableOf(tags, nameOf), k) == ZoneAfter(tags, nameOf, k)
    decreases |tags|
  {
    if |tags| > 0 {
      var init := tags[..|tags| - 1];
      var t := tags[|tags| - 1];
      assert tags == init + [t];
      ZoneTableGet(init, nameOf, k);
      ZoneTableGet(init, nameOf, nameOf(t));
      AddTagStep(ZoneTableOf(init, nameOf), init, t, nameOf, k);
    }
  }

  lemma AddTagStep(d: ZoneTable, init: seq<Tag>, t: Tag, nameOf: Tag -> string, k: string)
    requires Dicts.Valid(d)
    requires Dicts.Get(d, k) == ZoneAfter(init, nameOf, k)
    requires Dicts.Get(d, nameOf(t)) == ZoneAfter(init, nameOf, nameOf(t))
    ensures Dicts.Get(AddTag(d, nameOf(t), t.result), k) == ZoneAfter(init + [t], nameOf, k)
  {
    var z := AddResult(Dicts.Get(d, nameOf(t)).GetOr(NoEvents), t.result);
    Dicts.PutGet(d, nameOf(t), z, k);
    var p := Seqs.KeyIs(nameOf, k);
    TallyFilterSnoc(init, t, p);
    var f := Seqs.Filter(init, p);
    assert Seqs.Filter(init + [t], p) == f + (if p(t) then [t] else []) by {
      assert (init + [t])[..|init|] == init;
    }
    if nameOf(t) == k {
      assert Dicts.Get(d, nameOf(t)).GetOr(NoEvents) == Tally(f) by {
        if |f| == 0 {
          assert f == [];
        }
      }
    }
  }

  /** The counters of all entries of a table. */
  function TableTotal(d: ZoneTable): ZoneData {
    ZoneSum(Dicts.Values(d))
  }

  /** Every tag is counted in exactly one zone: the entries add up to the
      counters of all tags. */
  lemma {:induction false} ZoneTableTotal(tags: seq<Tag>, nameOf: Tag -> string)
    ensures TableTotal(ZoneTableOf(tags, nameOf)) == Tally(tags)
    decreases |tags|
  {
    if |tags| > 0 {
      var init := tags[..|tags| - 1];
      ZoneTableTotal(init, nameOf);
      var t := tags[|tags| - 1];
      TotalStep(ZoneTableOf(init, nameOf), nameOf(t), t.result);
    }
  }

  lemma TotalStep(d: ZoneTable, k: string, r: ShotResult)
    requires Dicts.Valid(d)
    ensures TableTotal(AddTag(d, k, r)) == AddResult(TableTotal(d), r)
  {
    if Dicts.HasKey(d, k) {
      var i :| 0 <= i < |d| && d[i].0 == k;
      Dicts.GetUnique(d, k);
      TotalStepAt(d, k, r, i);
    } else {
      TotalStepNew(d, k, r);
    }
  }

  lemma TotalStepAt(d: ZoneTable, k: string, r: ShotResult, i: int)
    requires Dicts.Valid(d) && 0 <= i < |d| && d[i].0 == k
    requires Dicts.Get(d, k) == Some(d[i].1)
    ensures TableTotal(AddTag(d, k, r)) == AddResult(TableTotal(d), r)
  {
    var z := AddResult(d[i].1, r);
    Dicts.PutValuesAt(d, k, z, i);
    ZoneSumUpdate(Dicts.Values(d), i, z);
    PlusCancel(d[i].1, TableTotal(d), TableTotal(AddTag(d, k, r)), r);
  }

  /** Adding a result to one summand adds it to the sum. */
  lemma PlusCancel(v: ZoneData, total: ZoneData, total': ZoneData, r: ShotResult)
    requires Plus(total', v) == Plus(total, AddResult(v, r))
    ensures total' == AddResult(total, r)
  {
  }

  lemma TotalStepNew(d: ZoneTable, k: string, r: ShotResult)
    requires !Dicts.HasKey(d, k)
    ensures TableTotal(AddTag(d, k, r)) == AddResult(TableTotal(d), r)
  {
    var z := AddResult(NoEvents, r);
    Dicts.PutValuesNew(d, k, z);
    ZoneSumSnoc(Dicts.Values(d), z);
    AddResultIsPlus(TableTotal(d), r);
  }

  // -------------------------------------------------------------- players

  /** A rostered player's line: goals and chances as shooter, and the
      counters of the tags the player was on the ice for or took part in. */
  datatype PlayerStats = PlayerStats(player: Player, goals: nat, chances: nat, onIce: ZoneData, participating: ZoneData)

  /** One tag's effect on a player's line. The three roles are tallied
      independently; as shooter only goals and chances for count. */
  function AddPlayerTag(s: PlayerStats, t: Tag): PlayerStats {
    var id := s.player.id;
    var shot :=
      if t.shooter == Some(id) then
        match t.result
        case GoalFor => s.(goals := s.goals + 1, chances := s.chances + 1)
        case ChanceFor => s.(chances := s.chances + 1)
        case _ => s
      else s;
    var ice := if id in t.onIce then shot.(onIce := AddResult(shot.onIce, t.result)) else shot;
    if id in t.participating then ice.(participating := AddResult(ice.participating, t.result)) else ice
  }

  /** The line of one player over the tags, from an all-zero line. */
  function PlayerLine(p: Player, tags: seq<Tag>): (s: PlayerStats)
    ensures s.player == p
    decreases |tags|
  {
    if |tags| == 0 then PlayerStats(p, 0, 0, NoEvents, NoEvents)
    else AddPlayerTag(PlayerLine(p, tags[..|tags| - 1]), tags[|tags| - 1])
  }

  function ShotBy(id: int): Tag -> bool {
    (t: Tag) => t.shooter == Some(id)
  }

  function OnIceWith(id: int): Tag -> bool {
    (t: Tag) => id in t.onIce
  }

  function ParticipatingWith(id: int): Tag -> bool {
    (t: Tag) => id in t.participating
  }

  /** A player's line counts, for each role separately, the tags in which
      the player had that role. */
  lemma {:induction false} PlayerLineCounts(p: Player, tags: seq<Tag>)
    ensures var shots := Tally(Seqs.Filter(tags, ShotBy(p.id)));
      PlayerLine(p, tags)
      == PlayerStats(p, shots.goalsFor, shots.chancesFor,
                     Tally(Seqs.Filter(tags, OnIceWith(p.id))), Tally(Seqs.Filter(tags, ParticipatingWith(p.id))))
    decreases |tags|
  {
    if |tags| > 0 {
      var init := tags[..|tags| - 1];
      var t := tags[|tags| - 1];
      assert tags == init + [t];
      PlayerLineCounts(p, init);
      TallyFilterSnoc(init, t, ShotBy(p.id));
      TallyFilterSnoc(init, t, OnIceWith(p.id));
      TallyFilterSnoc(init, t, ParticipatingWith(p.id));
      PlayerStep(p, Tally(Seqs.Filter(init, ShotBy(p.id))), Tally(Seqs.Filter(init, OnIceWith(p.id))),
                 Tally(Seqs.Filter(init, ParticipatingWith(p.id))), t);
    }
  }

  /** One tag moves each role's counters as that role's filter says. */
  lemma PlayerStep(p: Player, shots: ZoneData, ice: ZoneData, part: ZoneData, t: Tag)
    ensures var shots' := StepIf(shots, ShotBy(p.id), t);
      AddPlayerTag(PlayerStats(p, shots.goalsFor, shots.chancesFor, ice, part), t)
      == PlayerStats(p, shots'.goalsFor, shots'.chancesFor,
                     StepIf(ice, OnIceWith(p.id), t), StepIf(part, ParticipatingWith(p.id), t))
  {
  }

  /** A player with no role in any tag has an all-zero line. */
  lemma UninvolvedPlayer(p: Player, tags: seq<Tag>)
    requires forall i :: 0 <= i < |tags| ==> tags[i].shooter != Some(p.id)
    requires forall i :: 0 <= i < |tags| ==> p.id !in tags[i].onIce && p.id !in tags[i].participating
    ensures PlayerLine(p, tags) == PlayerStats(p, 0, 0, NoEvents, NoEvents)
  {
    PlayerLineCounts(p, tags);
    Seqs.FilterEmpty(tags, ShotBy(p.id));
    Seqs.FilterEmpty(tags, OnIceWith(p.id));
    Seqs.FilterEmpty(tags, ParticipatingWith(p.id));
  }

  // ------------------------------------------------------------------ KPI

  /** The figures of one tag subset. The efficiency percentages are not
      part of the model. */
  datatype Kpi = Kpi(
    goalsFor: nat, goalsAgainst: nat, chancesFor: nat, chancesAgainst: nat,
    iceZones: ZoneTable, netZones: ZoneTable, players: seq<PlayerStats>)

  /** `build_kpi_from_tags`: the four sums, the two zone tables and one
      line per player of the given list, in that list's order. */
  function BuildKpi(tags: seq<Tag>, players: seq<Player>): (k: Kpi)
    ensures |k.players| == |players|
    ensures forall i :: 0 <= i < |players| ==> k.players[i].player == players[i]
  {
    Kpi(CountOf(tags, {GoalFor}), CountOf(tags, {GoalAgainst}),
        CountOf(tags, {ChanceFor, GoalFor}), CountOf(tags, {ChanceAgainst, GoalAgainst}),
        ZoneTableOf(tags, IceZoneName), ZoneTableOf(tags, NetZoneName),
        Seqs.Map(players, (p: Player) => PlayerLine(p, tags)))
  }

  function Counters(k: Kpi): ZoneData {
    ZoneData(k.goalsFor, k.goalsAgainst, k.chancesFor, k.chancesAgainst)
  }

  /** The four sums are the zone counters of all tags, so goals never
      outnumber chances. */
  lemma KpiCounters(tags: seq<Tag>, players: seq<Player>)
    ensures Counters(BuildKpi(tags, players)) == Tally(tags)
    ensures Consistent(Counters(BuildKpi(tags, players)))
  {
    TallyCounts(tags);
  }

  /** The entries of each zone table add up to the four sums. */
  lemma KpiZonesAddUp(tags: seq<Tag>, players: seq<Player>)
    ensures TableTotal(BuildKpi(tags, players).iceZones) == Counters(BuildKpi(tags, players))
    ensures TableTotal(BuildKpi(tags, players).netZones) == Counters(BuildKpi(tags, players))
  {
    KpiCounters(tags, players);
    ZoneTableTotal(tags, IceZoneName);
    ZoneTableTotal(tags, NetZoneName);
  }

  /** The line of the `i`-th rostered player counts that player's roles. */
  lemma KpiPlayerLine(tags: seq<Tag>, players: seq<Player>, i: int)
    requires 0 <= i < |players|
    ensures var shots := Tally(Seqs.Filter(tags, ShotBy(players[i].id)));
      BuildKpi(tags, players).players[i]
      == PlayerStats(players[i], shots.goalsFor, shots.chancesFor,
                     Tally(Seqs.Filter(tags, OnIceWith(players[i].id))),
                     Tally(Seqs.Filter(tags, ParticipatingWith(players[i].id))))
  {
    PlayerLineCounts(players[i], tags);
  }

  // ----------------------------------------------------------- situations

  function StrengthIs(text: string): Tag -> bool {
    (t: Tag) => t.strengths == text
  }

  /** The tags of one strength; no tags give none. */
  function SituationTags(tags: seq<Tag>, text: string): seq<Tag> {
    if |tags| > 0 then Seqs.Filter(tags, StrengthIs(text)) else []
  }

  /** "yht" is every tag, "5v5" even strength, "YV" power play and "AV"
      penalty kill. */
  function Situations(tags: seq<Tag>, players: seq<Player>): (d: Dicts.Dict<string, Kpi>)
    ensures Dicts.Valid(d)
  {
    [("yht", BuildKpi(tags, players)),
     ("5v5", BuildKpi(SituationTags(tags, "ES"), players)),
     ("YV", BuildKpi(SituationTags(tags, "PP"), players)),
     ("AV", BuildKpi(SituationTags(tags, "PK"), players))]
  }

  /** The strength text of an empty-net or unknown situation. */
  function OtherStrength(): Tag -> bool {
    (t: Tag) => t.strengths != "ES" && t.strengths != "PP" && t.strengths != "PK"
  }

  /** Exactly one of the four predicates holds for `t`. */
  predicate OneOf(t: Tag, p1: Tag -> bool, p2: Tag -> bool, p3: Tag -> bool, p4: Tag -> bool) {
    (if p1(t) then 1 else 0) + (if p2(t) then 1 else 0) + (if p3(t) then 1 else 0) + (if p4(t) then 1 else 0) == 1
  }

  /** Tags split into four groups: the groups' counters add up to those of
      all tags. */
  lemma {:induction false} TallyFourWay(tags: seq<Tag>, p1: Tag -> bool, p2: Tag -> bool, p3: Tag -> bool, p4: Tag -> bool)
    requires forall i :: 0 <= i < |tags| ==> OneOf(tags[i], p1, p2, p3, p4)
    ensures Tally(tags)
      == Plus(Plus(Tally(Seqs.Filter(tags, p1)), Tally(Seqs.Filter(tags, p2))),
              Plus(Tally(Seqs.Filter(tags, p3)), Tally(Seqs.Filter(tags, p4))))
    decreases |tags|
  {
    if |tags| > 0 {
      var init := tags[..|tags| - 1];
      var t := tags[|tags| - 1];
      assert tags == init + [t];
      assert forall i :: 0 <= i < |init| ==> init[i] == tags[i];
      TallyFourWay(init, p1, p2, p3, p4);
      TallyFilterSnoc(init, t, p1);
      TallyFilterSnoc(init, t, p2);
      TallyFilterSnoc(init, t, p3);
      TallyFilterSnoc(init, t, p4);
      FourWayStep(Tally(init), Tally(Seqs.Filter(init, p1)), Tally(Seqs.Filter(init, p2)),
                  Tally(Seqs.Filter(init, p3)), Tally(Seqs.Filter(init, p4)),
                  Tally(Seqs.Filter(tags, p1)), Tally(Seqs.Filter(tags, p2)),
                  Tally(Seqs.Filter(tags, p3)), Tally(Seqs.Filter(tags, p4)), t, p1, p2, p3, p4);
    } else {
      assert Tally(Seqs.Filter(tags, p1)) == NoEvents;
      assert Tally(Seqs.Filter(tags, p2)) == NoEvents;
      assert Tally(Seqs.Filter(tags, p3)) == NoEvents;
      assert Tally(Seqs.Filter(tags, p4)) == NoEvents;
    }
  }

  /** A tag lands in exactly one of the four groups, so adding it to its
      group adds it to the sum of the groups. */
  lemma FourWayStep(total: ZoneData, a1: ZoneData, a2: ZoneData, a3: ZoneData, a4: ZoneData,
                    b1: ZoneData, b2: ZoneData, b3: ZoneData, b4: ZoneData, t: Tag,
                    p1: Tag -> bool, p2: Tag -> bool, p3: Tag -> bool, p4: Tag -> bool)
    requires OneOf(t, p1, p2, p3, p4)
    requires total == Plus(Plus(a1, a2), Plus(a3, a4))
    requires b1 == StepIf(a1, p1, t) && b2 == StepIf(a2, p2, t)
    requires b3 == StepIf(a3, p3, t) && b4 == StepIf(a4, p4, t)
    ensures AddResult(total, t.result) == Plus(Plus(b1, b2), Plus(b3, b4))
  {
    AddResultIsPlus(total, t.result);
    StepIfIsPlus(a1, p1, t);
    StepIfIsPlus(a2, p2, t);
    StepIfIsPlus(a3, p3, t);
    StepIfIsPlus(a4, p4, t);
  }

  lemma StepIfIsPlus(z: ZoneData, p: Tag -> bool, t: Tag)
    ensures StepIf(z, p, t) == Plus(z, if p(t) then AddResult(NoEvents, t.result) else NoEvents)
  {
    AddResultIsPlus(z, t.result);
  }

  /** The counters of all tags split by strength: even strength, power
      play, penalty kill and the rest. */
  lemma TallyByStrength(tags: seq<Tag>)
    ensures Tally(tags)
      == Plus(Plus(Tally(Seqs.Filter(tags, StrengthIs("ES"))), Tally(Seqs.Filter(tags, StrengthIs("PP")))),
              Plus(Tally(Seqs.Filter(tags, StrengthIs("PK"))), Tally(Seqs.Filter(tags, OtherStrength()))))
  {
    forall i | 0 <= i < |tags|
      ensures OneOf(tags[i], StrengthIs("ES"), StrengthIs("PP"), StrengthIs("PK"), OtherStrength())
    {
    }
    TallyFourWay(tags, StrengthIs("ES"), StrengthIs("PP"), StrengthIs("PK"), OtherStrength());
  }

  /** The total's sums are the three situations' sums plus the counters of
      the tags of no situation (the empty-net ones), which count only in
      the total. */
  lemma SituationsAddUp(tags: seq<Tag>, players: seq<Player>)
    ensures var d := Situations(tags, players);
      Counters(d[0].1)
      == Plus(Plus(Counters(d[1].1), Counters(d[2].1)),
              Plus(Counters(d[3].1), Tally(Seqs.Filter(tags, OtherStrength()))))
  {
    var d := Situations(tags, players);
    TallyByStrength(tags);
    KpiCounters(tags, players);
    KpiCounters(SituationTags(tags, "ES"), players);
    KpiCounters(SituationTags(tags, "PP"), players);
    KpiCounters(SituationTags(tags, "PK"), players);
  }

  /** A game's dashboard entry: the game, the total figures on top, and
      all four situations. */
  datatype GameKpi = GameKpi(game: GameInfo, top: Kpi, situations: Dicts.Dict<string, Kpi>)

  /** `calculate_game_kpi`: the top-level figures are those of "yht". */
  function GameKpiOf(game: GameInfo, tags: seq<Tag>, players: seq<Player>): (r: GameKpi)
    ensures Dicts.Get(r.situations, "yht") == Some(r.top)
    ensures Counters(r.top) == Tally(tags)
  {
    var s := Situations(tags, players);
    KpiCounters(tags, players);
    GameKpi(game, s[0].1, s)
  }

  // ------------------------------------------------------------ dashboard

  /** A game of the team with the players of its roster. */
  datatype GameEntry = GameEntry(info: GameInfo, players: seq<Player>)

  /** `get_dashboard`: one entry per game, in the given order, each over
      the tags of that game. */
  function DashboardGames(games: seq<GameEntry>, tags: seq<Tag>): (r: seq<GameKpi>)
    ensures |r| == |games|
    ensures forall i :: 0 <= i < |games| ==> r[i].game == games[i].info
    ensures forall i :: 0 <= i < |games| ==> Counters(r[i].top) == Tally(TagsOfGame(tags, games[i].info.id))
  {
    Seqs.Map(games, (g: GameEntry) => GameKpiOf(g.info, TagsOfGame(tags, g.info.id), g.players))
  }

  function GameIds(games: seq<GameEntry>): seq<int> {
    Seqs.Map(games, (g: GameEntry) => g.info.id)
  }

  /** The counters of each listed game's tags. */
  function GameTallies(tags: seq<Tag>, ids: seq<int>): (r: seq<ZoneData>)
    ensures |r| == |ids|
    ensures forall i :: 0 <= i < |ids| ==> r[i] == Tally(TagsOfGame(tags, ids[i]))
  {
    Seqs.Map(ids, (id: int) => Tally(TagsOfGame(tags, id)))
  }

  /** When the games are distinct and every tag belongs to one of them, the
      per-game counters add up to those of all tags. */
  lemma {:induction false} GameTalliesTotal(tags: seq<Tag>, ids: seq<int>)
    requires Seqs.Distinct(ids)
    requires forall i :: 0 <= i < |tags| ==> tags[i].game.id in ids
    ensures ZoneSum(GameTallies(tags, ids)) == Tally(tags)
    decreases |tags|
  {
    if |tags| == 0 {
      ZoneSumZero(GameTallies(tags, ids));
    } else {
      var init := tags[..|tags| - 1];
      var t := tags[|tags| - 1];
      assert tags == init + [t];
      GameTalliesTotal(init, ids);
      var j :| 0 <= j < |ids| && ids[j] == t.game.id;
      var before := GameTallies(init, ids);
      var after := GameTallies(tags, ids);
      forall i | 0 <= i < |ids|
        ensures after[i] == if i == j then AddResult(before[i], t.result) else before[i]
      {
        GameTallySnoc(init, t, ids[i]);
      }
      SumStepAt(before, after, j, t.result);
      TallySnoc(init, t);
    }
  }

  lemma GameTallySnoc(init: seq<Tag>, t: Tag, id: int)
    ensures Tally(TagsOfGame(init + [t], id))
      == if t.game.id == id then AddResult(Tally(TagsOfGame(init, id)), t.result) else Tally(TagsOfGame(init, id))
  {
    TallyFilterSnoc(init, t, Seqs.KeyIs(GameIdOf, id));
    assert TagsOfGame(init + [t], id) == Seqs.Filter(init + [t], Seqs.KeyIs(GameIdOf, id));
    assert Seqs.KeyIs(GameIdOf, id)(t) == (GameIdOf(t) == id);
  }

  /** Adding a result to one element adds it to the sum. */
  lemma SumStepAt(before: seq<ZoneData>, after: seq<ZoneData>, j: int, r: ShotResult)
    requires |after| == |before| && 0 <= j < |before|
    requires forall i :: 0 <= i < |before| ==> after[i] == if i == j then AddResult(before[i], r) else before[i]
    ensures ZoneSum(after) == AddResult(ZoneSum(before), r)
  {
    assert after == before[j := AddResult(before[j], r)];
    ZoneSumUpdate(before, j, AddResult(before[j], r));
    PlusCancel(before[j], ZoneSum(before), ZoneSum(after), r);
  }

  /** Counters of the tags of nothing are zero. */
  lemma {:induction false} ZoneSumZero(zs: seq<ZoneData>)
    requires forall i :: 0 <= i < |zs| ==> zs[i] == NoEvents
    ensures ZoneSum(zs) == NoEvents
    decreases |zs|
  {
    if |zs| > 0 {
      ZoneSumZero(zs[..|zs| - 1]);
    }
  }

  /** The season adds up: over distinct games that hold all the tags, the
      games' top-level sums add up to the counters of all tags. */
  lemma DashboardAddsUp(games: seq<GameEntry>, tags: seq<Tag>)
    requires Seqs.Distinct(GameIds(games))
    requires forall i :: 0 <= i < |tags| ==> tags[i].game.id in GameIds(games)
    ensures ZoneSum(Seqs.Map(DashboardGames(games, tags), (k: GameKpi) => Counters(k.top))) == Tally(tags)
  {
    var tops := Seqs.Map(DashboardGames(games, tags), (k: GameKpi) => Counters(k.top));
    assert tops == GameTallies(tags, GameIds(games));
    GameTalliesTotal(tags, GameIds(games));
  }
}

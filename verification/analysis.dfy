/** The analysis view: the comma-separated filter lists of the request,
    the result toggles, and the totals, buckets, points and net bins
    counted over the tags that pass them. */
module Analysis {
  import opened Wrappers
  import opened Taxonomy
  import opened Records
  import opened ResultSets
  import Seqs
  import Dicts
  import Text
  import Sorting
  import Dashboard
  import opened Counters

  // ----------------------------------------------------------- CSV lists

  /** A token whose stripped form is a non-empty run of digits. */
  predicate DigitToken(x: string) {
    |Text.Strip(x)| > 0 && Text.AllDigits(Text.Strip(x))
  }

  /** `int(x)` of a digit token. */
  function TokenValue(x: string): nat {
    if DigitToken(x) then Text.DigitsValue(Text.Strip(x)) else 0
  }

  /** No token of the list is a number. */
  predicate NoNumber(parts: seq<string>) {
    forall i :: 0 <= i < |parts| ==> !DigitToken(parts[i])
  }

  /** The integers of a comma-separated list, skipping every token that is
      not a number. */
  function IdList(csv: string): (r: seq<nat>)
    ensures |r| == 0 <==> NoNumber(Text.Split(csv, ','))
  {
    Seqs.FilterEmpty(Text.Split(csv, ','), DigitToken);
    Seqs.Map(Seqs.Filter(Text.Split(csv, ','), DigitToken), TokenValue)
  }

  /** Writing numbers as a comma-separated list and reading it back gives
      the numbers. */
  lemma IdListRoundTrip(ids: seq<nat>)
    ensures IdList(Text.Join(Seqs.Map(ids, Text.NatToString), ",")) == ids
  {
    var parts := Seqs.Map(ids, Text.NatToString);
    var csv := Text.Join(parts, ",");
    if |ids| == 0 {
      assert Text.Split(csv, ',') == [""];
      assert !DigitToken("");
    } else {
      forall i | 0 <= i < |parts|
        ensures ',' !in parts[i] && DigitToken(parts[i]) && TokenValue(parts[i]) == ids[i]
      {
        NumberToken(ids[i]);
      }
      Text.SplitJoin(parts, ',');
      Seqs.FilterAll(parts, DigitToken);
    }
  }

  lemma NumberToken(n: nat)
    ensures ',' !in Text.NatToString(n)
    ensures DigitToken(Text.NatToString(n)) && TokenValue(Text.NatToString(n)) == n
  {
    var s := Text.NatToString(n);
    Text.StripStripped(s);
    Text.DigitsOfNat(n);
    assert forall i :: 0 <= i < |s| ==> s[i] != ',';
  }

  /** The game ids of the request: at least one is required. */
  function GameIdList(csv: string): (r: Result<seq<nat>>)
    ensures r.Err? <==> NoNumber(Text.Split(csv, ','))
    ensures r.Err? ==> r.error == BadRequest
    ensures r.Ok? ==> r.value == IdList(csv)
  {
    var ids := IdList(csv);
    if |ids| == 0 then Err(BadRequest) else Ok(ids)
  }

  function OrEmpty(csv: Option<string>): string {
    match csv
    case None => ""
    case Some(s) => s
  }

  /** The shooter ids of the request; a missing list is an empty one. */
  function ShooterList(csv: Option<string>): seq<nat> {
    IdList(OrEmpty(csv))
  }

  predicate NonBlank(x: string) {
    |Text.Strip(x)| > 0
  }

  /** The stripped non-empty tokens of a comma-separated list (strength
      labels, shot-type names); a missing list is an empty one. */
  function TextList(csv: Option<string>): (r: seq<string>)
    ensures forall i :: 0 <= i < |r| ==> |r[i]| > 0 && Text.Stripped(r[i])
  {
    Seqs.Map(Seqs.Filter(Text.Split(OrEmpty(csv), ','), NonBlank), Text.Strip)
  }

  /** Writing stripped, non-empty, comma-free texts as a list and reading
      it back gives the texts. */
  lemma TextListRoundTrip(items: seq<string>)
    requires forall i :: 0 <= i < |items| ==> |items[i]| > 0 && Text.Stripped(items[i]) && ',' !in items[i]
    ensures TextList(Some(Text.Join(items, ","))) == items
  {
    if |items| == 0 {
      var parts := Text.Split(Text.Join(items, ","), ',');
      assert parts == [""];
      assert Seqs.Filter(parts, NonBlank) == [] by {
        assert !NonBlank(parts[0]);
      }
    } else {
      Text.SplitJoin(items, ',');
      CleanItems(items);
    }
  }

  /** Stripped, non-empty tokens pass the token clean-up unchanged. */
  lemma CleanItems(items: seq<string>)
    requires forall i :: 0 <= i < |items| ==> |items[i]| > 0 && Text.Stripped(items[i])
    ensures Seqs.Map(Seqs.Filter(items, NonBlank), Text.Strip) == items
  {
    forall i | 0 <= i < |items|
      ensures NonBlank(items[i])
    {
      Text.StripStripped(items[i]);
    }
    Seqs.FilterAll(items, NonBlank);
    Text.StripAll(items);
    assert Seqs.Map(items, Text.Strip) == items;
  }

  // ----------------------------------------------------- kept tags, totals

  function Shown(toggles: Toggles): Tag -> bool {
    (t: Tag) => AllowResult(t.result, toggles)
  }

  /** The tags whose result the toggles show, in their order. */
  function Kept(tags: seq<Tag>, toggles: Toggles): seq<Tag> {
    Seqs.Filter(tags, Shown(toggles))
  }

  /** A tag is kept exactly when it is one of the tags and its result's
      toggle is on; with the default toggles every tag is kept. */
  lemma KeptTags(tags: seq<Tag>, toggles: Toggles, t: Tag)
    ensures t in Kept(tags, toggles) <==> t in tags && AllowResult(t.result, toggles)
    ensures Kept(tags, DefaultToggles) == tags
  {
    Seqs.FilterMembers(tags, Shown(toggles), t);
    forall i | 0 <= i < |tags|
      ensures Shown(DefaultToggles)(tags[i])
    {
      DefaultsAllowAll(tags[i].result);
    }
    Seqs.FilterAll(tags, Shown(DefaultToggles));
  }

  function GoalTag(): Tag -> bool {
    (t: Tag) => IsGoal(t.result)
  }

  function ChanceTag(): Tag -> bool {
    (t: Tag) => IsChance(t.result)
  }

  function ShotTag(): Tag -> bool {
    (t: Tag) => IsShot(t.result)
  }

  /** The totals block; the shooting percentage is not part of the model. */
  datatype Totals = Totals(shots: nat, chances: nat, goals: nat, events: nat)

  function TotalsOf(kept: seq<Tag>): Totals {
    Totals(|Seqs.Filter(kept, ShotTag())|, |Seqs.Filter(kept, ChanceTag())|,
           |Seqs.Filter(kept, GoalTag())|, |kept|)
  }

  /** Every event is exactly one of goal, chance and shot, so the three
      buckets add up to the events. */
  lemma {:induction false} TotalsAddUp(kept: seq<Tag>)
    ensures TotalsOf(kept).goals + TotalsOf(kept).chances + TotalsOf(kept).shots == TotalsOf(kept).events
    decreases |kept|
  {
    if |kept| > 0 {
      TotalsAddUp(kept[..|kept| - 1]);
      Partition(kept[|kept| - 1].result);
    }
  }

  // -------------------------------------------------------------- buckets

  /** A missing value is counted under "NONE". */
  function KeyOrNone(o: Option<string>): string {
    match o
    case None => "NONE"
    case Some(k) => k
  }

  /** The bucket keys: the result label, the shot-type name, the strength
      text and the area name. */
  function ResultKey(t: Tag): string {
    ResultLabel(t.result)
  }

  function TypeKey(t: Tag): string {
    KeyOrNone(match t.shotType case None => None case Some(s) => Some(ShotTypeName(s)))
  }

  function StrengthKey(t: Tag): string {
    t.strengths
  }

  function AreaKey(t: Tag): string {
    KeyOrNone(match t.area case None => None case Some(a) => Some(AreaName(a)))
  }

  /** Tags without an area, and only those, are counted under "NONE". */
  lemma AreaKeyNone(t: Tag)
    ensures AreaKey(t) == "NONE" <==> t.area.None?
  {
    if t.area.Some? {
      AreaNameRoundTrip(t.area.value);
    }
  }

  /** The crossice buckets. */
  datatype CrossIce = CrossIce(yes: nat, no: nat, unknown: nat)

  function CrossIceOf(tags: seq<Tag>): (c: CrossIce)
    ensures c.yes + c.no + c.unknown == |tags|
    decreases |tags|
  {
    if |tags| == 0 then CrossIce(0, 0, 0)
    else
      var c := CrossIceOf(tags[..|tags| - 1]);
      match tags[|tags| - 1].crossice
      case Some(true) => c.(yes := c.yes + 1)
      case Some(false) => c.(no := c.no + 1)
      case None => c.(unknown := c.unknown + 1)
  }

  function CrossIs(v: Option<bool>): Tag -> bool {
    (t: Tag) => t.crossice == v
  }

  /** Each bucket counts the tags with that crossice value. */
  lemma {:induction false} CrossIceCounts(tags: seq<Tag>)
    ensures CrossIceOf(tags)
      == CrossIce(|Seqs.Filter(tags, CrossIs(Some(true)))|, |Seqs.Filter(tags, CrossIs(Some(false)))|,
                  |Seqs.Filter(tags, CrossIs(None))|)
    decreases |tags|
  {
    if |tags| > 0 {
      CrossIceCounts(tags[..|tags| - 1]);
    }
  }

  // --------------------------------------------------------------- points

  /** A heat-map point of one tag. */
  datatype Point = Point(x: Option<int>, y: Option<int>, result: string, side: string, isGoal: bool, area: string)

  /** The area name, or "" without an area. */
  function AreaLabel(t: Tag): string {
    match t.area
    case None => ""
    case Some(a) => AreaName(a)
  }

  function IcePoint(t: Tag): Point {
    Point(t.iceX, t.iceY, ResultLabel(t.result), SideOf(t.result), IsGoal(t.result), AreaLabel(t))
  }

  function NetPoint(t: Tag): Point {
    Point(t.netX, t.netY, ResultLabel(t.result), SideOf(t.result), IsGoal(t.result), AreaLabel(t))
  }

  /** What a point tells about its tag: the result reads back, the side is
      "FOR" exactly for the team's results, and the area reads back. */
  predicate Describes(p: Point, t: Tag) {
    && ParseResult(p.result) == Some(t.result)
    && (p.side == "FOR" <==> t.result in ForSet)
    && (p.isGoal <==> t.result in GoalSet)
    && (if p.area == "" then t.area.None? else ParseArea(p.area) == t.area)
  }

  lemma PointsDescribeTag(t: Tag)
    ensures Describes(IcePoint(t), t) && IcePoint(t).x == t.iceX && IcePoint(t).y == t.iceY
    ensures Describes(NetPoint(t), t) && NetPoint(t).x == t.netX && NetPoint(t).y == t.netY
  {
    ResultLabelRoundTrip(t.result);
    if t.area.Some? {
      AreaNameRoundTrip(t.area.value);
      assert |AreaName(t.area.value)| > 0;
    }
  }

  // ------------------------------------------------------------- net bins

  function KeyLe(a: (string, int), b: (string, int)): bool {
    Text.LexLe(a.0, b.0)
  }

  /** The net-zone counts as a list sorted by zone key. */
  function NetBins(tags: seq<Tag>): (r: seq<(string, int)>)
    ensures multiset(r) == multiset(CountBy(tags, Dashboard.NetZoneName))
  {
    Sorting.SortBy(CountBy(tags, Dashboard.NetZoneName), KeyLe)
  }

  lemma KeyLePreorder()
    ensures Sorting.TotalPreorder(KeyLe)
  {
    forall a: (string, int), b: (string, int)
      ensures KeyLe(a, b) || KeyLe(b, a)
    {
      Text.LexLeTotal(a.0, b.0);
    }
    forall a: (string, int), b: (string, int), c: (string, int) | KeyLe(a, b) && KeyLe(b, c)
      ensures KeyLe(a, c)
    {
      Text.LexLeTransitive(a.0, b.0, c.0);
    }
  }

  /** The bins are in zone-key order. */
  lemma NetBinsSorted(tags: seq<Tag>)
    ensures Sorting.SortedBy(NetBins(tags), KeyLe)
  {
    KeyLePreorder();
    Sorting.SortBySorted(CountBy(tags, Dashboard.NetZoneName), KeyLe);
  }

  /** A bin (zone, n) is listed exactly when n tags, at least one, have
      that net zone. */
  lemma NetBinsCount(tags: seq<Tag>, zone: string, n: int)
    ensures (zone, n) in NetBins(tags)
      <==> n > 0 && n == |Seqs.Filter(tags, Seqs.KeyIs(Dashboard.NetZoneName, zone))|
  {
    var d := CountBy(tags, Dashboard.NetZoneName);
    CountByGet(tags, Dashboard.NetZoneName, zone);
    Dicts.GetUnique(d, zone);
    assert (zone, n) in NetBins(tags) <==> (zone, n) in multiset(d);
    if (zone, n) in d {
      var i :| 0 <= i < |d| && d[i] == (zone, n);
    }
    if Dicts.Get(d, zone) == Some(n) {
      var i :| 0 <= i < |d| && d[i] == (zone, n);
      assert (zone, n) in d;
    }
  }

  function BinCount(b: (string, int)): nat {
    CountValue(b.1)
  }

  /** The bin counts add up to the number of tags. */
  lemma NetBinsTotal(tags: seq<Tag>)
    ensures Seqs.Sum(NetBins(tags), BinCount) == |tags|
  {
    var d := CountBy(tags, Dashboard.NetZoneName);
    CountByTotal(tags, Dashboard.NetZoneName);
    Seqs.SumPointwise(d, BinCount, Dicts.Values(d), CountValue);
    Seqs.SumPermutation(NetBins(tags), d, BinCount);
  }

  // ---------------------------------------------------------------- query

  /** The request's parameters as they arrive: the four comma-separated
      lists and the six toggles. */
  datatype Request = Request(
    gameIds: string, shooterIds: Option<string>, strengths: Option<string>, shotTypes: Option<string>,
    toggles: Toggles)

  /** The parsed filters; an empty optional list filters nothing. */
  datatype Filters = Filters(gameIds: seq<nat>, shooters: seq<nat>, strengths: seq<string>, shotTypes: seq<ShotType>)

  /** Parses the lists; the shot-type names that name no shot type are
      dropped. Rejected when no game id is given. */
  function FiltersOf(req: Request): (r: Result<Filters>)
    ensures r.Err? <==> NoNumber(Text.Split(req.gameIds, ','))
    ensures r.Err? ==> r.error == BadRequest
    ensures r.Ok? ==> |r.value.gameIds| > 0 && r.value.gameIds == IdList(req.gameIds)
    ensures r.Ok? ==> r.value.shooters == ShooterList(req.shooterIds) && r.value.strengths == TextList(req.strengths)
  {
    var ids :- GameIdList(req.gameIds);
    Ok(Filters(ids, ShooterList(req.shooterIds), TextList(req.strengths),
               ParseShotTypeValues(Some(TextList(req.shotTypes)))))
  }

  /** Whether the database query returns a tag: its game is requested, and
      each non-empty list holds its shooter, strength and shot type (a tag
      without a shooter or shot type fails a non-empty list). */
  predicate Selected(f: Filters, t: Tag) {
    && (exists i :: 0 <= i < |f.gameIds| && f.gameIds[i] == t.game.id)
    && (|f.shooters| == 0 || (t.shooter.Some? && exists i :: 0 <= i < |f.shooters| && f.shooters[i] == t.shooter.value))
    && (|f.strengths| == 0 || t.strengths in f.strengths)
    && (|f.shotTypes| == 0 || (t.shotType.Some? && t.shotType.value in f.shotTypes))
  }

  function SelectedBy(f: Filters): Tag -> bool {
    (t: Tag) => Selected(f, t)
  }

  /** The tags the query returns, in database order. */
  function Query(f: Filters, all: seq<Tag>): seq<Tag> {
    Seqs.Filter(all, SelectedBy(f))
  }

  /** The tags an answer counts are exactly the stored tags the query
      selects whose result the toggles show. */
  lemma AnalyzedTags(f: Filters, all: seq<Tag>, toggles: Toggles, t: Tag)
    ensures t in Kept(Query(f, all), toggles) <==> t in all && Selected(f, t) && AllowResult(t.result, toggles)
  {
    KeptTags(Query(f, all), toggles, t);
    Seqs.FilterMembers(all, SelectedBy(f), t);
  }

  /** Without shooter, strength or shot-type lists the query returns every
      tag of the requested games. */
  lemma QueryGamesOnly(f: Filters, all: seq<Tag>, t: Tag)
    requires |f.shooters| == 0 && |f.strengths| == 0 && |f.shotTypes| == 0
    ensures t in Query(f, all) <==> t in all && t.game.id in f.gameIds
  {
    Seqs.FilterMembers(all, SelectedBy(f), t);
    if t.game.id in f.gameIds {
      var i :| 0 <= i < |f.gameIds| && f.gameIds[i] == t.game.id;
    }
  }

  // ------------------------------------------------------------- response

  datatype Response = Response(
    gameIds: seq<nat>, totals: Totals,
    byResult: Counter<string>, byType: Counter<string>, byStrengths: Counter<string>, byArea: Counter<string>,
    crossice: CrossIce, icePoints: seq<Point>, netPoints: seq<Point>, netBins: seq<(string, int)>)

  /** The answer over given tags: everything is counted over them, in
      their order. */
  function ResponseOf(ids: seq<nat>, kept: seq<Tag>): (v: Response)
    ensures v.gameIds == ids && v.totals.events == |kept|
    ensures |v.icePoints| == |kept| && |v.netPoints| == |kept|
  {
    Response(ids, TotalsOf(kept),
             CountBy(kept, ResultKey), CountBy(kept, TypeKey), CountBy(kept, StrengthKey), CountBy(kept, AreaKey),
             CrossIceOf(kept), Seqs.Map(kept, IcePoint), Seqs.Map(kept, NetPoint), NetBins(kept))
  }

  /** A point fits the declared response model: both coordinates are
      integers. */
  predicate Fits(p: Point) {
    p.x.Some? && p.y.Some?
  }

  predicate AllFit(ps: seq<Point>) {
    forall i :: 0 <= i < |ps| ==> Fits(ps[i])
  }

  /** A tag both of whose points fit: it has all four coordinates. */
  predicate HasCoordinates(t: Tag) {
    t.iceX.Some? && t.iceY.Some? && t.netX.Some? && t.netY.Some?
  }

  predicate AllHaveCoordinates(kept: seq<Tag>) {
    forall i :: 0 <= i < |kept| ==> HasCoordinates(kept[i])
  }

  /** The points of an answer fit exactly when every counted tag has all
      its coordinates. */
  lemma PointsFit(ids: seq<nat>, kept: seq<Tag>)
    ensures AllFit(ResponseOf(ids, kept).icePoints) && AllFit(ResponseOf(ids, kept).netPoints)
      <==> AllHaveCoordinates(kept)
  {
    var v := ResponseOf(ids, kept);
    if AllFit(v.icePoints) && AllFit(v.netPoints) {
      forall i | 0 <= i < |kept| ensures HasCoordinates(kept[i]) {
        assert Fits(v.icePoints[i]) && Fits(v.netPoints[i]);
      }
    }
  }

  /** The analysis request over the stored tags `all`: rejected without a
      game id; else everything is counted over the selected tags whose
      result the toggles show, and the answer is refused by the response
      model when one of those tags lacks a coordinate. The game and
      permission checks are not part of the model. */
  function Analyze(req: Request, all: seq<Tag>): (r: Result<Response>)
    ensures NoNumber(Text.Split(req.gameIds, ',')) ==> r == Err(BadRequest)
    ensures !NoNumber(Text.Split(req.gameIds, ',')) ==>
      (r.Err? <==> !AllHaveCoordinates(Kept(Query(FiltersOf(req).value, all), req.toggles)))
    ensures r.Err? ==> r.error in {BadRequest, ResponseValidation}
    ensures r.Ok? ==> r.value.gameIds == IdList(req.gameIds)
    ensures r.Ok? ==> AllFit(r.value.icePoints) && AllFit(r.value.netPoints)
  {
    var f :- FiltersOf(req);
    var kept := Kept(Query(f, all), req.toggles);
    if !AllHaveCoordinates(kept) then Err(ResponseValidation)
    else
      PointsFit(f.gameIds, kept);
      Ok(ResponseOf(f.gameIds, kept))
  }

  /** Every bucket family of an answer adds up to the number of events, the
      goals, chances and shots add up to it too, and there is one ice point
      and one net point per event. */
  lemma AnalysisAddsUp(ids: seq<nat>, kept: seq<Tag>)
    ensures var v := ResponseOf(ids, kept);
      && v.totals.goals + v.totals.chances + v.totals.shots == v.totals.events
      && Seqs.Sum(Dicts.Values(v.byResult), CountValue) == v.totals.events
      && Seqs.Sum(Dicts.Values(v.byType), CountValue) == v.totals.events
      && Seqs.Sum(Dicts.Values(v.byStrengths), CountValue) == v.totals.events
      && Seqs.Sum(Dicts.Values(v.byArea), CountValue) == v.totals.events
      && v.crossice.yes + v.crossice.no + v.crossice.unknown == v.totals.events
      && Seqs.Sum(v.netBins, BinCount) == v.totals.events
  {
    TotalsAddUp(kept);
    CountByTotal(kept, ResultKey);
    CountByTotal(kept, TypeKey);
    CountByTotal(kept, StrengthKey);
    CountByTotal(kept, AreaKey);
    NetBinsTotal(kept);
  }

  /** The `i`-th points describe the `i`-th event and carry its
      coordinates. */
  lemma AnalysisPoints(ids: seq<nat>, kept: seq<Tag>, i: int)
    requires 0 <= i < |kept|
    ensures var v := ResponseOf(ids, kept);
      && Describes(v.icePoints[i], kept[i]) && v.icePoints[i].x == kept[i].iceX && v.icePoints[i].y == kept[i].iceY
      && Describes(v.netPoints[i], kept[i]) && v.netPoints[i].x == kept[i].netX && v.netPoints[i].y == kept[i].netY
  {
    PointsDescribeTag(kept[i]);
  }
}

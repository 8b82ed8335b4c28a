/** The enumerations a tag is classified by, with the strings the
    application stores or displays for them. */
module Taxonomy {
  import opened Wrappers

  /** The outcome of a tagged shot event, seen from the analysed team. */
  datatype ShotResult =
    | GoalFor | GoalAgainst | ChanceFor | ChanceAgainst | ShotFor | ShotAgainst

  const AllResults: seq<ShotResult> := [GoalFor, GoalAgainst, ChanceFor, ChanceAgainst, ShotFor, ShotAgainst]

  /** The display value of a result ("Maali" is a goal, "MP" a scoring
      chance, "Laukaus" a shot; "+" for, "-" against). */
  function ResultLabel(r: ShotResult): string {
    match r
    case GoalFor => "Maali +"
    case GoalAgainst => "Maali -"
    case ChanceFor => "MP +"
    case ChanceAgainst => "MP -"
    case ShotFor => "Laukaus +"
    case ShotAgainst => "Laukaus -"
  }

  function ParseResult(s: string): (r: Option<ShotResult>)
    ensures r.Some? ==> ResultLabel(r.value) == s
  {
    if s == "Maali +" then Some(GoalFor)
    else if s == "Maali -" then Some(GoalAgainst)
    else if s == "MP +" then Some(ChanceFor)
    else if s == "MP -" then Some(ChanceAgainst)
    else if s == "Laukaus +" then Some(ShotFor)
    else if s == "Laukaus -" then Some(ShotAgainst)
    else None
  }

  lemma ResultLabelRoundTrip(r: ShotResult)
    ensures ParseResult(ResultLabel(r)) == Some(r)
  {
  }

  /** Where on the ice a shot was taken from. */
  datatype ShotArea =
    | Zone1 | Zone2Middle | Zone2Side | HighSlot | Blueline | Zone4 | OutsideFar | OutsideClose | Misc

  const AllAreas: seq<ShotArea> := [Zone1, Zone2Middle, Zone2Side, HighSlot, Blueline, Zone4, OutsideFar, OutsideClose, Misc]

  /** The enumeration member name of an area. */
  function AreaName(a: ShotArea): string {
    match a
    case Zone1 => "ZONE_1"
    case Zone2Middle => "ZONE_2_MIDDLE"
    case Zone2Side => "ZONE_2_SIDE"
    case HighSlot => "HIGH_SLOT"
    case Blueline => "BLUELINE"
    case Zone4 => "ZONE_4"
    case OutsideFar => "OUTSIDE_FAR"
    case OutsideClose => "OUTSIDE_CLOSE"
    case Misc => "MISC"
  }

  function ParseArea(s: string): (r: Option<ShotArea>)
    ensures r.Some? ==> AreaName(r.value) == s
  {
    if s == "ZONE_1" then Some(Zone1)
    else if s == "ZONE_2_MIDDLE" then Some(Zone2Middle)
    else if s == "ZONE_2_SIDE" then Some(Zone2Side)
    else if s == "HIGH_SLOT" then Some(HighSlot)
    else if s == "BLUELINE" then Some(Blueline)
    else if s == "ZONE_4" then Some(Zone4)
    else if s == "OUTSIDE_FAR" then Some(OutsideFar)
    else if s == "OUTSIDE_CLOSE" then Some(OutsideClose)
    else if s == "MISC" then Some(Misc)
    else None
  }

  lemma AreaNameRoundTrip(a: ShotArea)
    ensures ParseArea(AreaName(a)) == Some(a)
  {
  }

  /** How the shot was produced. */
  datatype ShotType =
    | CarryShot | CanShot | OneTimer | LowHighShot | TakeawayShot | ReboundShot | DeflectionShot

  const AllShotTypes: seq<ShotType> := [CarryShot, CanShot, OneTimer, LowHighShot, TakeawayShot, ReboundShot, DeflectionShot]

  /** The enumeration member name of a shot type. */
  function ShotTypeName(t: ShotType): string {
    match t
    case CarryShot => "CARRY_SHOT"
    case CanShot => "CAN_SHOT"
    case OneTimer => "ONE_TIMER"
    case LowHighShot => "LOWHIGH_SHOT"
    case TakeawayShot => "TAKEAWAY_SHOT"
    case ReboundShot => "REBOUND_SHOT"
    case DeflectionShot => "DEFLECTION_SHOT"
  }

  function ParseShotType(s: string): (r: Option<ShotType>)
    ensures r.Some? ==> ShotTypeName(r.value) == s
  {
    if s == "CARRY_SHOT" then Some(CarryShot)
    else if s == "CAN_SHOT" then Some(CanShot)
    else if s == "ONE_TIMER" then Some(OneTimer)
    else if s == "LOWHIGH_SHOT" then Some(LowHighShot)
    else if s == "TAKEAWAY_SHOT" then Some(TakeawayShot)
    else if s == "REBOUND_SHOT" then Some(ReboundShot)
    else if s == "DEFLECTION_SHOT" then Some(DeflectionShot)
    else None
  }

  lemma ShotTypeNameRoundTrip(t: ShotType)
    ensures ParseShotType(ShotTypeName(t)) == Some(t)
  {
  }

  /** The man-strength situation of a tag: even strength, power play,
      penalty kill, and the two empty-net situations. */
  datatype Strength = EvenStrength | PowerPlay | PenaltyKill | EmptyNetFor | EmptyNetAgainst

  function StrengthLabel(s: Strength): string {
    match s
    case EvenStrength => "ES"
    case PowerPlay => "PP"
    case PenaltyKill => "PK"
    case EmptyNetFor => "EN+"
    case EmptyNetAgainst => "EN-"
  }

  /** Tags store the strength as free text; anything but the five labels is
      unknown and makes the column lookups fail. */
  function ParseStrength(s: string): (r: Option<Strength>)
    ensures r.Some? ==> StrengthLabel(r.value) == s
  {
    if s == "ES" then Some(EvenStrength)
    else if s == "PP" then Some(PowerPlay)
    else if s == "PK" then Some(PenaltyKill)
    else if s == "EN+" then Some(EmptyNetFor)
    else if s == "EN-" then Some(EmptyNetAgainst)
    else None
  }

  lemma StrengthLabelRoundTrip(s: Strength)
    ensures ParseStrength(StrengthLabel(s)) == Some(s)
  {
  }

  /** Horizontal third of the goal mouth the shot went to. */
  datatype NetWidth = Left | MidWidth | Right

  /** Vertical third of the goal mouth the shot went to. */
  datatype NetHeight = Top | MidHeight | Bottom

  function NetWidthLabel(w: NetWidth): string {
    match w
    case Left => "Left"
    case MidWidth => "Mid"
    case Right => "Right"
  }

  function NetHeightLabel(h: NetHeight): string {
    match h
    case Top => "Top"
    case MidHeight => "Mid"
    case Bottom => "Bottom"
  }

  /** A net-width label read back: exactly the three labels are known, and
      each names its own third. */
  function ParseNetWidth(s: string): (r: Option<NetWidth>)
    ensures r.Some? <==> s in {"Left", "Mid", "Right"}
    ensures r.Some? ==> NetWidthLabel(r.value) == s
  {
    if s == "Left" then Some(Left) else if s == "Mid" then Some(MidWidth) else if s == "Right" then Some(Right) else None
  }

  /** A net-height label read back, likewise. */
  function ParseNetHeight(s: string): (r: Option<NetHeight>)
    ensures r.Some? <==> s in {"Top", "Mid", "Bottom"}
    ensures r.Some? ==> NetHeightLabel(r.value) == s
  {
    if s == "Top" then Some(Top) else if s == "Mid" then Some(MidHeight) else if s == "Bottom" then Some(Bottom) else None
  }

  lemma NetLabelRoundTrip(w: NetWidth, h: NetHeight)
    ensures ParseNetWidth(NetWidthLabel(w)) == Some(w)
    ensures ParseNetHeight(NetHeightLabel(h)) == Some(h)
  {
  }

  datatype Position = Forward | Defender | Goalie

  function PositionName(p: Position): string {
    match p
    case Forward => "FORWARD"
    case Defender => "DEFENDER"
    case Goalie => "GOALIE"
  }

  /** How a player is linked to a tag: on the ice when it happened, or
      directly involved in the play. */
  datatype Role = OnIce | Participating
}

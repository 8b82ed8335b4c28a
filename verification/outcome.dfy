/** The outcome rule shared by the report collectors: a result picks one
    cell of a 2 x 2 block (row: chance or goal; column: for or against),
    and a goal also belongs to the chance list of its side. */
module Outcome {
  import opened Wrappers
  import opened Taxonomy
  import opened ResultSets

  datatype Adjustment = Adjustment(row: nat, column: nat)

  /** The offset inside the 2 x 2 block: one row down for goals, one
      column right for the opponent's goals and chances; shots fall through
      to the block's origin. */
  function OutcomeAdjustment(r: ShotResult): (a: Adjustment)
    ensures a.row == if IsGoal(r) then 1 else 0
    ensures a.column == if r in AgainstSet && !IsShot(r) then 1 else 0
  {
    if r == ChanceAgainst then Adjustment(0, 1)
    else if r == GoalFor then Adjustment(1, 0)
    else if r == GoalAgainst then Adjustment(1, 1)
    else Adjustment(0, 0)
  }

  /** Goals and chances occupy four different cells of the block. */
  lemma AdjustmentInjective(r1: ShotResult, r2: ShotResult)
    requires !IsShot(r1) && !IsShot(r2)
    requires OutcomeAdjustment(r1) == OutcomeAdjustment(r2)
    ensures r1 == r2
  {
  }

  /** A shot lands on the same cell as the team's own scoring chance. */
  lemma ShotsShareChanceForCell(r: ShotResult)
    requires IsShot(r)
    ensures OutcomeAdjustment(r) == OutcomeAdjustment(ChanceFor)
  {
  }

  /** The result lists a tag's map point is drawn in: a goal is drawn as a
      chance and as a goal of its side, a chance only as itself, and a
      shot has no entry (KeyError). */
  function MapResultMapping(r: ShotResult): (m: Option<seq<ShotResult>>)
    ensures m.Some? <==> !IsShot(r)
    ensures m.Some? ==> r in m.value
    ensures m.Some? ==> |m.value| == if IsGoal(r) then 2 else 1
    ensures m.Some? ==> IsChance(m.value[0]) && SideOf(m.value[0]) == SideOf(r)
    ensures m.Some? ==> forall x :: x in m.value ==> x == r || IsChance(x)
  {
    match r
    case ChanceFor => Some([ChanceFor])
    case GoalFor => Some([ChanceFor, GoalFor])
    case ChanceAgainst => Some([ChanceAgainst])
    case GoalAgainst => Some([ChanceAgainst, GoalAgainst])
    case ShotFor => None
    case ShotAgainst => None
  }
}

/**
 * `ReservationFlowForms`: a step counter over a fixed list of step names, moved one
 * step at a time and never past either end.
 */
module FlowForms {

  /** The step after `incrementStep`: one more, unless that would reach the number of steps. */
  function NextStep(step: int, count: int): (r: int)
    ensures 0 <= step < count ==> 0 <= r < count
    ensures r == step + 1 <==> step + 1 < count
    ensures step + 1 >= count ==> r == step
  {
    if step + 1 < count then step + 1 else step
  }

  /** The step after `decrementStep`: one less, unless that would go below zero. */
  function PreviousStep(step: int): (r: int)
    ensures 0 <= step ==> 0 <= r <= step
    ensures r == step - 1 <==> step - 1 >= 0
    ensures step - 1 < 0 ==> r == step
  {
    if step - 1 >= 0 then step - 1 else step
  }

  /** Moving back undoes moving forward, and moving forward undoes moving back, away from the ends. */
  lemma NextPreviousInverse(step: int, count: int)
    requires 0 <= step < count
    ensures step + 1 < count ==> PreviousStep(NextStep(step, count)) == step
    ensures step > 0 ==> NextStep(PreviousStep(step), count) == step
  {
  }

  /** The step after a run of moves: `true` for `incrementStep`, `false` for `decrementStep`. */
  function AfterMoves(step: int, count: int, moves: seq<bool>): int
    decreases |moves|
  {
    if moves == [] then step
    else AfterMoves(if moves[0] then NextStep(step, count) else PreviousStep(step), count, moves[1..])
  }

  /** However the counter is moved, it stays a valid index into the step names. */
  lemma {:induction false} MovesStayInRange(step: int, count: int, moves: seq<bool>)
    requires 0 <= step < count
    ensures 0 <= AfterMoves(step, count, moves) < count
    decreases |moves|
  {
    if moves != [] {
      MovesStayInRange(if moves[0] then NextStep(step, count) else PreviousStep(step), count, moves[1..]);
    }
  }

  class ReservationFlowForms {
    var step: int
    const stepNames: seq<string>

    predicate Valid()
      reads this
    {
      0 <= step < |stepNames|
    }

    /** A new form sits at step 0 of the single step `Dates`. */
    constructor()
      ensures Valid()
      ensures step == 0 && stepNames == ["Dates"]
    {
      step := 0;
      stepNames := ["Dates"];
    }

    method IncrementStep()
      requires Valid()
      modifies this
      ensures Valid()
      ensures step == NextStep(old(step), |stepNames|)
    {
      if step + 1 < |stepNames| {
        step := step + 1;
      }
    }

    method DecrementStep()
      requires Valid()
      modifies this
      ensures Valid()
      ensures step == PreviousStep(old(step))
    {
      if step - 1 >= 0 {
        step := step - 1;
      }
    }

    /** `getActiveStepName`: the name at the current step, always in bounds. */
    function ActiveStepName(): (r: string)
      reads this
      requires Valid()
      ensures r in stepNames
    {
      stepNames[step]
    }
  }
}

/**
 * The reservation wizard's flow state: which step is active and which are completed.
 * The transitions are deliberately simple; keeping them in step with the pages is
 * the controllers' job, which is not part of this model.
 */
module ReservationFlows {
  import opened Wrappers
  import opened JavaStrings

  /** The wizard's steps, each with its `flowStep` number. */
  datatype Step = Dates | Guests | Extras | Meals | Review | Payment
  {
    function FlowStep(): (n: int)
      ensures 0 <= n < StepCount
      ensures StepFrom(n) == this
    {
      match this
      case Dates => 0
      case Guests => 1
      case Extras => 2
      case Meals => 3
      case Review => 4
      case Payment => 5
    }

    /** The enum constant's name. */
    function Name(): string
    {
      match this
      case Dates => "Dates"
      case Guests => "Guests"
      case Extras => "Extras"
      case Meals => "Meals"
      case Review => "Review"
      case Payment => "Payment"
    }
  }

  const StepCount: int := 6

  /** `Step.from`: the step with that number; any other number gives `Dates`. */
  function StepFrom(flowStep: int): (s: Step)
    ensures !(0 <= flowStep < StepCount) ==> s == Dates
  {
    match flowStep
    case 0 => Dates
    case 1 => Guests
    case 2 => Extras
    case 3 => Meals
    case 4 => Review
    case 5 => Payment
    case _ => Dates
  }

  /** Every number in range names a different step, and that step carries the number back. */
  lemma StepFromInRange(flowStep: int)
    requires 0 <= flowStep < StepCount
    ensures StepFrom(flowStep).FlowStep() == flowStep
  {
  }

  /** `flowStep + 1` in Java's `int` arithmetic, followed by `". "` and the text. */
  function Numbered(flowStep: int, text: string): string
  {
    IntToString(Wrap32(flowStep + 1)) + ". " + text
  }

  /**
   * A numbered text reads back: the part before the first `.` parses to the one-based
   * step number, and the text follows it after `". "`.
   */
  lemma NumberedReadsBack(flowStep: int, text: string)
    requires 0 <= flowStep < MaxInt
    ensures var r := Numbered(flowStep, text);
      var number := BeforeFirst(r, {'.'});
      && ParseInt(number) == Some(flowStep + 1)
      && r == number + ". " + text
  {
    var number := IntToString(flowStep + 1);
    assert NoneIn(number, {'.'}) by {
      assert AllDigits(number);
    }
    assert Numbered(flowStep, text) == number + (". " + text);
    BeforeFirstOfConcat(number, ". " + text, {'.'});
    ParseIntOfIntToString(flowStep + 1);
  }

  /** `StepDescription`: a step's number, title and description. */
  datatype StepDescription = StepDescription(flowStep: int, title: string, description: string)
  {
    /** `getFlowStepWithTitle`: the one-based number, `". "` and the title. */
    function FlowStepWithTitle(): string
    {
      Numbered(flowStep, title)
    }

    /** `getFlowStepWithDescription`: the one-based number, `". "` and the description. */
    function FlowStepWithDescription(): string
    {
      Numbered(flowStep, description)
    }
  }

  /** The titles and descriptions shown for each step, read back out of the formatted texts. */
  lemma DescriptionReadsBack(d: StepDescription)
    requires 0 <= d.flowStep < StepCount
    ensures ParseInt(BeforeFirst(d.FlowStepWithTitle(), {'.'})) == Some(d.flowStep + 1)
    ensures d.FlowStepWithTitle() == BeforeFirst(d.FlowStepWithTitle(), {'.'}) + ". " + d.title
    ensures d.FlowStepWithDescription() == BeforeFirst(d.FlowStepWithDescription(), {'.'}) + ". " + d.description
  {
    NumberedReadsBack(d.flowStep, d.title);
    NumberedReadsBack(d.flowStep, d.description);
  }

  /** The six descriptions the constructor adds, in step order. */
  function StandardDescriptions(): (r: seq<StepDescription>)
    ensures DescriptionsNumbered(r)
    ensures forall i | 0 <= i < |r| :: r[i].title == StepFrom(i).Name()
  {
    [StepDescription(0, "Dates", "Choose your reservation dates"),
     StepDescription(1, "Guests", "Provide guest details"),
     StepDescription(2, "Extras", "Select optional extras"),
     StepDescription(3, "Meals", "Choose optional meal plans"),
     StepDescription(4, "Review", "Verify your reservation"),
     StepDescription(5, "Payment", "Provide payment details")]
  }

  /** One description per step, description `i` numbered `i`. */
  predicate DescriptionsNumbered(ds: seq<StepDescription>)
  {
    |ds| == StepCount && forall i | 0 <= i < |ds| :: ds[i].flowStep == i
  }

  class ReservationFlow {
    var stepDescriptions: seq<StepDescription>
    var completedSteps: set<Step>
    var activeStep: Step

    predicate Valid()
      reads this
    {
      DescriptionsNumbered(stepDescriptions)
    }

    /** A new flow: `Dates` active, nothing completed, the six descriptions added in order. */
    constructor()
      ensures Valid()
      ensures activeStep == Dates && completedSteps == {}
      ensures stepDescriptions == StandardDescriptions()
    {
      var descriptions := [];
      descriptions := descriptions + [StepDescription(0, "Dates", "Choose your reservation dates")];
      descriptions := descriptions + [StepDescription(1, "Guests", "Provide guest details")];
      descriptions := descriptions + [StepDescription(2, "Extras", "Select optional extras")];
      descriptions := descriptions + [StepDescription(3, "Meals", "Choose optional meal plans")];
      descriptions := descriptions + [StepDescription(4, "Review", "Verify your reservation")];
      descriptions := descriptions + [StepDescription(5, "Payment", "Provide payment details")];
      stepDescriptions := descriptions;
      completedSteps := {};
      activeStep := Dates;
    }

    method SetActive(step: Step)
      modifies this
      ensures activeStep == step
      ensures completedSteps == old(completedSteps) && stepDescriptions == old(stepDescriptions)
    {
      activeStep := step;
    }

    /** `getActiveStepDescription`: the description numbered like the active step. */
    function ActiveStepDescription(): (d: StepDescription)
      reads this
      requires Valid()
      ensures d in stepDescriptions && d.flowStep == activeStep.FlowStep()
    {
      stepDescriptions[activeStep.FlowStep()]
    }

    /** `completeStep`: the step joins the completed ones; the active step stays. */
    method CompleteStep(step: Step)
      modifies this
      ensures completedSteps == old(completedSteps) + {step}
      ensures activeStep == old(activeStep) && stepDescriptions == old(stepDescriptions)
    {
      completedSteps := completedSteps + {step};
    }

    /** `incompleteStep`: only that step leaves the completed ones. */
    method IncompleteStep(step: Step)
      modifies this
      ensures completedSteps == old(completedSteps) - {step}
      ensures activeStep == old(activeStep) && stepDescriptions == old(stepDescriptions)
    {
      completedSteps := completedSteps - {step};
    }

    predicate IsActive(step: Step)
      reads this
    {
      step == activeStep
    }

    predicate IsCompleted(step: Step)
      reads this
    {
      step in completedSteps
    }

    /**
     * `enterStep`: the step becomes active and is no longer completed; every other
     * step keeps its completion.
     */
    method EnterStep(step: Step)
      modifies this
      ensures IsActive(step) && !IsCompleted(step)
      ensures forall other: Step | other != step :: IsCompleted(other) == old(IsCompleted(other))
      ensures completedSteps == old(completedSteps) - {step}
      ensures stepDescriptions == old(stepDescriptions)
    {
      SetActive(step);
      IncompleteStep(step);
    }
  }

  /** Whatever the state, exactly one step is active. */
  lemma ExactlyOneActive(flow: ReservationFlow)
    ensures flow.IsActive(flow.activeStep)
    ensures forall s: Step, t: Step | flow.IsActive(s) && flow.IsActive(t) :: s == t
  {
  }
}

// The step-by-step wizard of the 5 Whys application
// (5Whys-main/src/app/components/five-whys/five-whys-wizard.component.ts):
// its own form fields, the guards of its Next and Back buttons, and the
// moves it asks the service to make.

module FiveWhysWizard {
  import opened JsText
  import opened JsValue
  import opened FiveWhysModels
  import opened FiveWhysService

  /** Whether Next is enabled at `step`, given the wizard's form fields and
    * the service's current validation errors. */
  function NextAllowed(step: WizardStep, problemStatement: string, currentAnswer: string,
                       rootCause: string, rootCauseValidated: bool,
                       errors: seq<ValidationError>): (b: bool)
    ensures step == ProblemDefinition ==> (b <==> ValidProblemStatement(problemStatement) && errors == [])
    ensures step == ProgressiveQuestioning ==> (b <==> Trim(currentAnswer) != "" && errors == [])
    ensures step == RootCauseConfirmation ==>
      (b <==> Trim(rootCause) != "" && rootCauseValidated && errors == [])
    ensures step == CorrectiveActions ==> b
    ensures step == Summary ==> !b
  {
    match step
    case ProblemDefinition => |Trim(problemStatement)| >= 10 && |errors| == 0
    case ProgressiveQuestioning => |Trim(currentAnswer)| > 0 && |errors| == 0
    case RootCauseConfirmation => |Trim(rootCause)| > 0 && rootCauseValidated && |errors| == 0
    case CorrectiveActions => true
    case Summary => false
  }

  /** Once the service has validated the problem statement the wizard
    * holds, Next is enabled exactly when the statement is long enough. */
  lemma NextAfterProblemEdit(s: string, answer: string, rootCause: string, validated: bool)
    ensures var errors := ValidateStep(ProblemDefinition, s);
      NextAllowed(ProblemDefinition, s, answer, rootCause, validated, errors) <==> ValidProblemStatement(s)
  {
  }

  /** Once the root cause has been validated, Next is enabled exactly when
    * it is not blank and the box is ticked. */
  lemma NextAfterRootCauseEdit(s: string, answer: string, rootCause: string, validated: bool)
    ensures var errors := ValidateStep(RootCauseConfirmation, rootCause);
      NextAllowed(RootCauseConfirmation, s, answer, rootCause, validated, errors) <==>
        Trim(rootCause) != "" && validated
  {
  }

  /** The step `goNext` asks for (the questioning step stays put). */
  function NextStep(step: WizardStep): (r: WizardStep)
    ensures step in {ProblemDefinition, RootCauseConfirmation, CorrectiveActions} ==>
      StepIndex(r) == StepIndex(step) + 1
    ensures step in {ProgressiveQuestioning, Summary} ==> r == step
  {
    match step
    case ProblemDefinition => ProgressiveQuestioning
    case ProgressiveQuestioning => ProgressiveQuestioning
    case RootCauseConfirmation => CorrectiveActions
    case CorrectiveActions => Summary
    case Summary => Summary
  }

  /** The step `goBack` asks for: exactly one step earlier, except at the
    * first step. */
  function PreviousStep(step: WizardStep): (r: WizardStep)
    ensures step != ProblemDefinition ==> StepIndex(r) == StepIndex(step) - 1
    ensures step == ProblemDefinition ==> r == step
  {
    match step
    case ProblemDefinition => ProblemDefinition
    case ProgressiveQuestioning => ProblemDefinition
    case RootCauseConfirmation => ProgressiveQuestioning
    case CorrectiveActions => RootCauseConfirmation
    case Summary => CorrectiveActions
  }

  /** `isStepCompleted(s)` while the wizard is at `current`: `s` comes
    * strictly before it. */
  function Completed(s: WizardStep, current: WizardStep): (b: bool)
    ensures b <==> StepIndex(s) < StepIndex(current)
    ensures b ==> s != current && s != Summary
    ensures current == ProblemDefinition ==> !b
  {
    StepIndex(s) < StepIndex(current)
  }

  /** Going back one step un-completes exactly the step gone back to. */
  lemma CompletedAfterBack(s: WizardStep, current: WizardStep)
    requires current != ProblemDefinition
    ensures Completed(s, current) <==> Completed(s, PreviousStep(current)) || s == PreviousStep(current)
  {
    StepIndexInjective(s, PreviousStep(current));
  }

  /** One entry of the progress indicator. */
  datatype ProgressStep = ProgressStep(key: WizardStep, number: nat, title: string, description: string)

  const ProgressSteps: seq<ProgressStep> := [
    ProgressStep(ProblemDefinition, 1, "Problem", "Define the problem"),
    ProgressStep(ProgressiveQuestioning, 2, "Analysis", "Ask why questions"),
    ProgressStep(RootCauseConfirmation, 3, "Root Cause", "Confirm root cause"),
    ProgressStep(CorrectiveActions, 4, "Actions", "Define corrective actions"),
    ProgressStep(Summary, 5, "Summary", "Review and submit")]

  /** `getCurrentStepNumber()`: the number of the current step's entry, or
    * 1 when none matches; it is the step's place in the order. */
  function StepNumber(current: WizardStep): (n: nat)
    ensures 1 <= n <= 5
    ensures n == StepIndex(current) + 1
  {
    var k := FindFirst(ProgressSteps, (p: ProgressStep) => p.key == current);
    assert ProgressSteps[StepIndex(current)].key == current;
    if k.Some? && ProgressSteps[k.value].number != 0 then ProgressSteps[k.value].number else 1
  }

  /** The form of the action being added. */
  datatype NewAction = NewAction(description: string, assignedTo: string,
                                 priority: ActionPriority, status: ActionStatus)

  const EmptyAction: NewAction := NewAction("", "", PriorityMedium, NotStarted)

  class Wizard {
    const service: Service
    var problemStatement: string
    var currentAnswer: string
    var rootCause: string
    var rootCauseValidated: bool
    var newAction: NewAction
    var newActionDueDate: string

    constructor (service: Service)
      ensures this.service == service
      ensures problemStatement == "" && currentAnswer == "" && rootCause == ""
      ensures !rootCauseValidated && newAction == EmptyAction && newActionDueDate == ""
    {
      this.service := service;
      problemStatement := "";
      currentAnswer := "";
      rootCause := "";
      rootCauseValidated := false;
      newAction := EmptyAction;
      newActionDueDate := "";
    }

    /** `canGoBack()`. */
    function CanGoBack(): (b: bool)
      reads service
      ensures b <==> PreviousStep(service.wizardState.currentStep) != service.wizardState.currentStep
    {
      service.wizardState.currentStep != ProblemDefinition
    }

    /** `canGoNext()`. */
    function CanGoNext(): (b: bool)
      reads this, service
      ensures b == NextAllowed(service.wizardState.currentStep, problemStatement, currentAnswer,
        rootCause, rootCauseValidated, service.validationErrors)
    {
      NextAllowed(service.wizardState.currentStep, problemStatement, currentAnswer,
        rootCause, rootCauseValidated, service.validationErrors)
    }

    /** `getCurrentWhyQuestion()`: the service's question rule applied to
      * the stored pairs and the current level. */
    function CurrentWhyQuestion(): (q: string)
      reads service
      ensures q == WhyQuestion(service.wizardState.currentWhyLevel, service.analysis.causalPairs)
    {
      WhyQuestion(service.wizardState.currentWhyLevel, service.analysis.causalPairs)
    }

    /** `goNext()`: moves on one step, sending the step's field to the
      * service first; on the questioning step the answer is recorded, the
      * level goes up by one and the answer box is cleared. Of the wizard's
      * own fields only the answer box can change. */
    method GoNext(now: int)
      modifies this`currentAnswer, service
      ensures service.wizardState.currentStep == NextStep(old(service.wizardState.currentStep))
      ensures old(service.wizardState.currentStep) == ProblemDefinition ==>
        service.analysis == old(service.analysis).(problemStatement := problemStatement, updatedAt := now)
      ensures old(service.wizardState.currentStep) == ProgressiveQuestioning ==>
        service.analysis == old(service.analysis).(causalPairs :=
          WithPair(old(service.analysis.causalPairs), old(service.wizardState.currentWhyLevel),
            old(currentAnswer)), updatedAt := now) &&
        service.wizardState.currentWhyLevel == old(service.wizardState.currentWhyLevel) + 1 &&
        currentAnswer == ""
      ensures old(service.wizardState.currentStep) == RootCauseConfirmation ==>
        service.analysis == old(service.analysis).(rootCause := rootCause, updatedAt := now)
      ensures old(service.wizardState.currentStep) in {CorrectiveActions, Summary} ==>
        service.analysis == old(service.analysis)
      ensures old(service.wizardState.currentStep) != ProgressiveQuestioning ==> currentAnswer == old(currentAnswer)
    {
      var step := service.wizardState.currentStep;
      match step
      case ProblemDefinition =>
        service.UpdateProblemStatement(problemStatement, now);
        service.GoToStep(ProgressiveQuestioning);
      case ProgressiveQuestioning =>
        service.UpdateCausalPair(service.wizardState.currentWhyLevel, currentAnswer, now);
        service.GoToNextWhy();
        currentAnswer := "";
      case RootCauseConfirmation =>
        service.SetRootCause(rootCause, now);
        service.GoToStep(CorrectiveActions);
      case CorrectiveActions =>
        service.GoToStep(Summary);
      case Summary =>
    }

    /** `goBack()`: one step earlier; nothing else changes. */
    method GoBack()
      modifies service
      ensures service.wizardState == old(service.wizardState).(currentStep :=
        PreviousStep(old(service.wizardState.currentStep)))
      ensures service.analysis == old(service.analysis)
    {
      var step := service.wizardState.currentStep;
      if step != ProblemDefinition {
        service.GoToStep(PreviousStep(step));
      }
    }

    /** `finalizeAsRootCause()`: the current answer is recorded at the
      * current level and becomes the root cause; on to the confirmation. Of
      * the wizard's own fields only the root cause changes. */
    method FinalizeAsRootCause(now: int)
      modifies this`rootCause, service
      ensures service.analysis == old(service.analysis).(causalPairs :=
        WithPair(old(service.analysis.causalPairs), old(service.wizardState.currentWhyLevel),
          old(currentAnswer)), updatedAt := now)
      ensures service.wizardState.currentStep == RootCauseConfirmation
      ensures service.wizardState.currentWhyLevel == old(service.wizardState.currentWhyLevel)
      ensures rootCause == old(currentAnswer)
    {
      service.UpdateCausalPair(service.wizardState.currentWhyLevel, currentAnswer, now);
      rootCause := currentAnswer;
      service.GoToStep(RootCauseConfirmation);
    }

    /** `addAction()`: a blank description adds nothing; otherwise the form
      * becomes one action item (with the parsed due date when one was
      * typed) and is reset. */
    method AddAction(id: string, now: int, parsedDueDate: int) returns (added: bool)
      modifies this, service
      ensures added <==> Trim(old(newAction.description)) != ""
      ensures added ==> (service.analysis.actionItems == old(service.analysis.actionItems) +
        [ActionItem(id, old(newAction.description), Some(old(newAction.assignedTo)),
          if old(newActionDueDate) != "" then Some(parsedDueDate) else None,
          old(newAction.priority), old(newAction.status))])
      ensures added ==> newAction == EmptyAction && newActionDueDate == ""
      ensures !added ==> (service.analysis == old(service.analysis) &&
        newAction == old(newAction) && newActionDueDate == old(newActionDueDate))
      ensures problemStatement == old(problemStatement) && currentAnswer == old(currentAnswer)
      ensures rootCause == old(rootCause) && rootCauseValidated == old(rootCauseValidated)
      ensures service.wizardState.currentStep == old(service.wizardState.currentStep)
    {
      if Trim(newAction.description) == "" {
        return false;
      }
      var due := if newActionDueDate != "" then Some(parsedDueDate) else None;
      var item := ActionDraft(newAction.description, Some(newAction.assignedTo), due,
        newAction.priority, newAction.status);
      service.AddActionItem(item, id, now);
      newAction := EmptyAction;
      newActionDueDate := "";
      added := true;
    }
  }
}

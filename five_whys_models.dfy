// The records and enumerations of the Angular 5 Whys application
// (5Whys-main/src/app/models/five-whys.models.ts): an analysis with its chain
// of causal pairs and its action items, the wizard's position and the
// component state the service holds. Dates are integer milliseconds.

module FiveWhysModels {
  import opened JsText

  datatype AnalysisStatus = Draft | InProgress | Submitted | Completed
  datatype ActionPriority = PriorityLow | PriorityMedium | PriorityHigh | PriorityCritical
  datatype ActionStatus = NotStarted | ActionInProgress | ActionCompleted | OnHold
  datatype WizardStep =
    ProblemDefinition | ProgressiveQuestioning | RootCauseConfirmation | CorrectiveActions | Summary
  datatype ComponentMode = SidePanel | FullPage
  datatype ViewMode = Create | Edit | View

  /** One "why" of the chain: its level, the question asked and the answer. */
  datatype CausalPair = CausalPair(level: int, question: string, answer: string)

  datatype ActionItem = ActionItem(
    id: string,
    description: string,
    assignedTo: Option<string>,
    dueDate: Option<int>,
    priority: ActionPriority,
    status: ActionStatus)

  /** An action item as the wizard hands it over, before the service adds
    * an id (`Omit<ActionItem, 'id'>`). */
  datatype ActionDraft = ActionDraft(
    description: string,
    assignedTo: Option<string>,
    dueDate: Option<int>,
    priority: ActionPriority,
    status: ActionStatus)

  datatype Analysis = Analysis(
    id: string,
    parentObjectId: Option<string>,
    parentObjectType: Option<string>,
    problemStatement: string,
    causalPairs: seq<CausalPair>,
    rootCause: string,
    actionItems: seq<ActionItem>,
    status: AnalysisStatus,
    createdAt: int,
    updatedAt: int,
    createdBy: string,
    lastSavedAt: Option<int>)

  datatype WizardState = WizardState(
    currentStep: WizardStep,
    currentWhyLevel: int,
    isValid: bool,
    hasUnsavedChanges: bool)

  datatype ValidationError = ValidationError(field: string, message: string)

  datatype Config = Config(
    autoSaveInterval: nat,
    maxWhyLevels: nat,
    minWhyLevels: nat,
    enableCollaboration: bool,
    parentObjectTypes: seq<string>)

  /** `DEFAULT_CONFIG`: a 30-second auto-save and chains of 1 to 10 whys. */
  const DefaultConfig: Config := Config(30000, 10, 1, false,
    ["incident", "non_conformance", "audit_finding", "customer_complaint"])

  /** The wizard's fixed order of steps, as the progress bar lists them. */
  const StepOrder: seq<WizardStep> :=
    [ProblemDefinition, ProgressiveQuestioning, RootCauseConfirmation, CorrectiveActions, Summary]

  /** `stepOrder.indexOf(step)`. */
  function StepIndex(step: WizardStep): (i: nat)
    ensures i < 5 && StepOrder[i] == step
  {
    match step
    case ProblemDefinition => 0
    case ProgressiveQuestioning => 1
    case RootCauseConfirmation => 2
    case CorrectiveActions => 3
    case Summary => 4
  }

  /** Every step occurs once in the order, so the index determines it. */
  lemma StepIndexInjective(s: WizardStep, t: WizardStep)
    ensures StepIndex(s) == StepIndex(t) <==> s == t
  {
    assert StepOrder[StepIndex(s)] == s && StepOrder[StepIndex(t)] == t;
  }
}

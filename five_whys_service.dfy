// The state service of the 5 Whys application
// (5Whys-main/src/app/services/five-whys.service.ts). The `componentState`
// signal becomes the fields of a class; each public method replaces some of
// them, as the signal update does. Ids and clock readings are parameters.

module FiveWhysService {
  import opened JsText
  import opened JsValue
  import opened KeyedSeq
  import opened FiveWhysModels
  import opened AnalysisStorage

  /** The problem statement is long enough: at least 10 characters once
    * trimmed. */
  predicate ValidProblemStatement(s: string)
  {
    |Trim(s)| >= 10
  }

  const ProblemError: ValidationError :=
    ValidationError("problemStatement", "Problem statement must be at least 10 characters long")
  const AnswerError: ValidationError :=
    ValidationError("answer", "Please provide an answer to continue the analysis")
  const RootCauseError: ValidationError :=
    ValidationError("rootCause", "Please confirm the root cause")

  /** `validateStep(step, data)`, where `text` is the one field of `data`
    * that the step looks at (problem statement, answer or root cause). */
  function ValidateStep(step: WizardStep, text: string): (r: seq<ValidationError>)
    ensures |r| <= 1
    ensures step == ProblemDefinition ==> (r != [] <==> !ValidProblemStatement(text))
    ensures step == ProgressiveQuestioning ==> (r != [] <==> Trim(text) == "")
    ensures step == RootCauseConfirmation ==> (r != [] <==> Trim(text) == "")
    ensures step in {CorrectiveActions, Summary} ==> r == []
    ensures r != [] ==> r[0] == match step
      case ProblemDefinition => ProblemError
      case ProgressiveQuestioning => AnswerError
      case _ => RootCauseError
  {
    match step
    case ProblemDefinition => if text == "" || |Trim(text)| < 10 then [ProblemError] else []
    case ProgressiveQuestioning => if text == "" || |Trim(text)| == 0 then [AnswerError] else []
    case RootCauseConfirmation => if text == "" || |Trim(text)| == 0 then [RootCauseError] else []
    case _ => []
  }

  /** After a problem-statement edit, the step is valid exactly when it
    * reports no error. */
  lemma ProblemValidIffNoErrors(s: string)
    ensures ValidProblemStatement(s) <==> ValidateStep(ProblemDefinition, s) == []
  {
  }

  /** The first pair at a level. */
  function FindLevel(pairs: seq<CausalPair>, level: int): (k: Option<nat>)
    ensures k.Some? ==> (k.value < |pairs| && pairs[k.value].level == level &&
      forall j :: 0 <= j < k.value ==> pairs[j].level != level)
    ensures k.None? ==> forall j :: 0 <= j < |pairs| ==> pairs[j].level != level
    decreases |pairs|
  {
    if pairs == [] then None
    else if pairs[0].level == level then Some(0)
    else
      match FindLevel(pairs[1..], level)
      case None => None
      case Some(j) => assert pairs[j + 1] == pairs[1..][j]; Some(j + 1)
  }

  /** `generateWhyQuestion(level, pairs)`: the fixed question at level 1;
    * above it the answer one level up, quoted, when there is a non-empty
    * one, and otherwise the fixed question tagged with the level. */
  function WhyQuestion(level: int, pairs: seq<CausalPair>): (q: string)
    ensures level == 1 ==> q == "Why did this happen?"
    ensures level != 1 ==>
      var k := FindLevel(pairs, level - 1);
      (k.Some? && pairs[k.value].answer != "" ==>
        q == "Why did \"" + pairs[k.value].answer + "\" happen?") &&
      (k.None? || pairs[k.value].answer == "" ==>
        q == "Why did this happen? (Level " + IntToString(level) + ")")
  {
    if level == 1 then "Why did this happen?"
    else
      var k := FindLevel(pairs, level - 1);
      var previous := if k.Some? then pairs[k.value].answer else "";
      if previous != "" then "Why did \"" + previous + "\" happen?"
      else "Why did this happen? (Level " + IntToString(level) + ")"
  }

  /** No two pairs share a level. */
  predicate DistinctLevels(pairs: seq<CausalPair>)
  {
    forall i, j :: 0 <= i < j < |pairs| ==> pairs[i].level != pairs[j].level
  }

  /** `filter(pair => pair.level <= level)`. */
  function UpToLevel(pairs: seq<CausalPair>, level: int): seq<CausalPair>
    decreases |pairs|
  {
    if pairs == [] then []
    else if pairs[0].level <= level then [pairs[0]] + UpToLevel(pairs[1..], level)
    else UpToLevel(pairs[1..], level)
  }

  /** The pairs kept are exactly those of the list no deeper than the
    * level. */
  lemma {:induction false} UpToLevelContents(pairs: seq<CausalPair>, level: int)
    ensures var r := UpToLevel(pairs, level);
      |r| <= |pairs| &&
      (forall i :: 0 <= i < |r| ==> r[i] in pairs && r[i].level <= level) &&
      (forall i :: 0 <= i < |pairs| && pairs[i].level <= level ==> pairs[i] in r)
    decreases |pairs|
  {
    if pairs != [] {
      var rest := UpToLevel(pairs[1..], level);
      UpToLevelContents(pairs[1..], level);
      assert forall i :: 0 <= i < |rest| ==> rest[i] in pairs;
      assert forall i :: 1 <= i < |pairs| ==> pairs[i] == pairs[1..][i - 1];
    }
  }

  /** The pair list with `p` written over the first pair at its level, or
    * appended. */
  function PutPair(pairs: seq<CausalPair>, p: CausalPair): (r: seq<CausalPair>)
    ensures FindLevel(pairs, p.level).Some? ==> r == pairs[FindLevel(pairs, p.level).value := p]
    ensures FindLevel(pairs, p.level).None? ==> r == pairs + [p]
  {
    match FindLevel(pairs, p.level)
    case Some(k) => pairs[k := p]
    case None => pairs + [p]
  }

  /** `updateCausalPair(level, answer)`'s new list: the pair at `level`
    * (with its generated question) stored, then every deeper level
    * dropped. */
  function WithPair(pairs: seq<CausalPair>, level: int, answer: string): seq<CausalPair>
  {
    UpToLevel(PutPair(pairs, CausalPair(level, WhyQuestion(level, pairs), answer)), level)
  }

  /** The new list holds the new pair, no level deeper than `level`, every
    * shallower pair of the old list, and nothing that was not either the
    * new pair or an old pair. */
  lemma WithPairContents(pairs: seq<CausalPair>, level: int, answer: string)
    ensures var r := WithPair(pairs, level, answer);
      CausalPair(level, WhyQuestion(level, pairs), answer) in r &&
      (forall i :: 0 <= i < |r| ==> r[i].level <= level) &&
      (forall i :: 0 <= i < |pairs| && pairs[i].level < level ==> pairs[i] in r) &&
      (forall i :: 0 <= i < |r| ==> r[i] == CausalPair(level, WhyQuestion(level, pairs), answer) || r[i] in pairs)
  {
    var p := CausalPair(level, WhyQuestion(level, pairs), answer);
    var u := PutPair(pairs, p);
    var r := UpToLevel(u, level);
    UpToLevelContents(u, level);
    assert p in u by {
      if FindLevel(pairs, level).Some? {
        assert u[FindLevel(pairs, level).value] == p;
      } else {
        assert u[|pairs|] == p;
      }
    }
    forall i | 0 <= i < |pairs| && pairs[i].level < level
      ensures pairs[i] in r
    {
      assert pairs[i] in u by {
        if FindLevel(pairs, level).Some? {
          assert u[i] == pairs[i];
        } else {
          assert u[i] == pairs[i];
        }
      }
    }
    forall i | 0 <= i < |r|
      ensures r[i] == p || r[i] in pairs
    {
      assert r[i] in u;
      var j :| 0 <= j < |u| && u[j] == r[i];
      if j < |pairs| && u[j] != p {
        assert u[j] == pairs[j];
      }
    }
  }

  lemma PutPairKeepsDistinct(pairs: seq<CausalPair>, p: CausalPair)
    requires DistinctLevels(pairs)
    ensures DistinctLevels(PutPair(pairs, p))
  {
    var u := PutPair(pairs, p);
    forall i, j | 0 <= i < j < |u|
      ensures u[i].level != u[j].level
    {
      if FindLevel(pairs, p.level).None? && j == |pairs| {
        assert u[i] == pairs[i];
      }
    }
  }

  /** The tail of a list with distinct levels has distinct levels, none of
    * them the head's. */
  lemma DistinctTail(t: seq<CausalPair>)
    requires t != [] && DistinctLevels(t)
    ensures DistinctLevels(t[1..])
    ensures forall x :: x in t[1..] ==> x.level != t[0].level
  {
    var s := t[1..];
    forall i, j | 0 <= i < j < |s| ensures s[i].level != s[j].level {
      assert s[i] == t[i + 1] && s[j] == t[j + 1];
    }
    forall x | x in s ensures x.level != t[0].level {
      var j :| 0 <= j < |s| && s[j] == x;
      assert t[j + 1] == x;
    }
  }

  /** A pair put in front of pairs with other levels keeps levels distinct. */
  lemma DistinctCons(p: CausalPair, rest: seq<CausalPair>)
    requires DistinctLevels(rest) && forall x :: x in rest ==> x.level != p.level
    ensures DistinctLevels([p] + rest)
  {
    var r := [p] + rest;
    forall i, j | 0 <= i < j < |r| ensures r[i].level != r[j].level {
      assert r[j] == rest[j - 1];
      if i > 0 {
        assert r[i] == rest[i - 1];
      }
    }
  }

  lemma {:induction false} UpToLevelKeepsDistinct(t: seq<CausalPair>, level: int)
    requires DistinctLevels(t)
    ensures DistinctLevels(UpToLevel(t, level))
    decreases |t|
  {
    if t != [] {
      DistinctTail(t);
      UpToLevelKeepsDistinct(t[1..], level);
      if t[0].level <= level {
        UpToLevelContents(t[1..], level);
        DistinctCons(t[0], UpToLevel(t[1..], level));
      }
    }
  }

  /** Distinct levels stay distinct under `updateCausalPair`. */
  lemma WithPairKeepsDistinct(pairs: seq<CausalPair>, level: int, answer: string)
    requires DistinctLevels(pairs)
    ensures DistinctLevels(WithPair(pairs, level, answer))
  {
    var p := CausalPair(level, WhyQuestion(level, pairs), answer);
    PutPairKeepsDistinct(pairs, p);
    UpToLevelKeepsDistinct(PutPair(pairs, p), level);
  }

  function ActionId(a: ActionItem): string
  {
    a.id
  }

  /** The other of the two component modes. */
  function OtherMode(m: ComponentMode): (r: ComponentMode)
    ensures r != m
  {
    if m == SidePanel then FullPage else SidePanel
  }

  /** Toggling twice restores the mode. */
  lemma OtherModeTwice(m: ComponentMode)
    ensures OtherMode(OtherMode(m)) == m
  {
  }

  /** The analysis object before the first `initializeNewAnalysis` or
    * `loadAnalysis`: the service starts from `{}`, whose lists read as
    * empty. */
  const NoAnalysis: Analysis :=
    Analysis("", None, None, "", [], "", [], Draft, 0, 0, "", None)

  const FreshWizard: WizardState := WizardState(ProblemDefinition, 1, false, false)

  class Service {
    var analysis: Analysis
    var wizardState: WizardState
    var viewMode: ViewMode
    var componentMode: ComponentMode
    var isLoading: bool
    var isSaving: bool
    var validationErrors: seq<ValidationError>
    var lastAutoSave: Option<int>

    /** The initial signal value. */
    constructor ()
      ensures analysis == NoAnalysis && wizardState == FreshWizard
      ensures viewMode == Create && componentMode == SidePanel
      ensures !isLoading && !isSaving && validationErrors == [] && lastAutoSave == None
    {
      analysis := NoAnalysis;
      wizardState := FreshWizard;
      viewMode := Create;
      componentMode := SidePanel;
      isLoading := false;
      isSaving := false;
      validationErrors := [];
      lastAutoSave := None;
    }

    /** `initializeNewAnalysis(parentId, parentType)`: a fresh draft with
      * the given id and clock, back at the first step and level 1, with no
      * errors and no unsaved changes. */
    method InitializeNewAnalysis(parentObjectId: Option<string>, parentObjectType: Option<string>,
                                 id: string, now: int)
      modifies this
      ensures analysis == Analysis(id, parentObjectId, parentObjectType, "", [], "", [], Draft,
        now, now, "current-user", None)
      ensures wizardState == FreshWizard && viewMode == Create && validationErrors == []
      ensures componentMode == old(componentMode) && isLoading == old(isLoading)
      ensures isSaving == old(isSaving) && lastAutoSave == old(lastAutoSave)
    {
      analysis := Analysis(id, parentObjectId, parentObjectType, "", [], "", [], Draft,
        now, now, "current-user", None);
      viewMode := Create;
      wizardState := FreshWizard;
      validationErrors := [];
    }

    /** `loadAnalysis(a)`: viewed at the summary, the level being the number
      * of pairs. */
    method LoadAnalysis(a: Analysis)
      modifies this
      ensures analysis == a && viewMode == View && validationErrors == []
      ensures wizardState == WizardState(Summary, |a.causalPairs|, true, false)
      ensures componentMode == old(componentMode) && isLoading == old(isLoading)
      ensures isSaving == old(isSaving) && lastAutoSave == old(lastAutoSave)
    {
      analysis := a;
      viewMode := View;
      wizardState := WizardState(Summary, |a.causalPairs|, true, false);
      validationErrors := [];
    }

    /** `updateProblemStatement(s)`. */
    method UpdateProblemStatement(s: string, now: int)
      modifies this`analysis, this`wizardState, this`validationErrors
      ensures analysis == old(analysis).(problemStatement := s, updatedAt := now)
      ensures wizardState == old(wizardState).(hasUnsavedChanges := true,
        isValid := ValidProblemStatement(s))
      ensures validationErrors == ValidateStep(ProblemDefinition, s)
      ensures wizardState.isValid <==> validationErrors == []
    {
      analysis := analysis.(problemStatement := s, updatedAt := now);
      wizardState := wizardState.(hasUnsavedChanges := true, isValid := |Trim(s)| >= 10);
      validationErrors := ValidateStep(ProblemDefinition, s);
    }

    /** `updateCausalPair(level, answer)`: the pair is written in place or
      * pushed, deeper levels are dropped, and the level becomes `level`;
      * only the analysis, the wizard state and the errors change. */
    method UpdateCausalPair(level: int, answer: string, now: int)
      modifies this`analysis, this`wizardState, this`validationErrors
      ensures analysis.causalPairs == WithPair(old(analysis.causalPairs), level, answer)
      ensures analysis == old(analysis).(causalPairs := analysis.causalPairs, updatedAt := now)
      ensures wizardState == old(wizardState).(hasUnsavedChanges := true, currentWhyLevel := level)
      ensures validationErrors == ValidateStep(ProgressiveQuestioning, answer)
    {
      var pairs := WithPair(analysis.causalPairs, level, answer);
      analysis := analysis.(causalPairs := pairs, updatedAt := now);
      wizardState := wizardState.(hasUnsavedChanges := true, currentWhyLevel := level);
      validationErrors := ValidateStep(ProgressiveQuestioning, answer);
    }

    /** `setRootCause(text)`. */
    method SetRootCause(text: string, now: int)
      modifies this`analysis, this`wizardState, this`validationErrors
      ensures analysis == old(analysis).(rootCause := text, updatedAt := now)
      ensures wizardState == old(wizardState).(hasUnsavedChanges := true)
      ensures validationErrors == ValidateStep(RootCauseConfirmation, text)
    {
      analysis := analysis.(rootCause := text, updatedAt := now);
      wizardState := wizardState.(hasUnsavedChanges := true);
      validationErrors := ValidateStep(RootCauseConfirmation, text);
    }

    /** `addActionItem(item)`: the item, with the new id, appended. */
    method AddActionItem(item: ActionDraft, id: string, now: int)
      modifies this
      ensures analysis == old(analysis).(actionItems := old(analysis.actionItems) +
        [ActionItem(id, item.description, item.assignedTo, item.dueDate, item.priority, item.status)],
        updatedAt := now)
      ensures wizardState == old(wizardState).(hasUnsavedChanges := true)
      ensures validationErrors == old(validationErrors) && viewMode == old(viewMode)
      ensures componentMode == old(componentMode) && isLoading == old(isLoading)
      ensures isSaving == old(isSaving) && lastAutoSave == old(lastAutoSave)
    {
      var a := ActionItem(id, item.description, item.assignedTo, item.dueDate, item.priority, item.status);
      analysis := analysis.(actionItems := analysis.actionItems + [a], updatedAt := now);
      wizardState := wizardState.(hasUnsavedChanges := true);
    }

    /** `removeActionItem(id)`: every item with that id filtered out. */
    method RemoveActionItem(id: string, now: int)
      modifies this
      ensures analysis == old(analysis).(actionItems := WithoutKey(old(analysis.actionItems), ActionId, id),
        updatedAt := now)
      ensures wizardState == old(wizardState).(hasUnsavedChanges := true)
      ensures validationErrors == old(validationErrors) && viewMode == old(viewMode)
      ensures componentMode == old(componentMode) && isLoading == old(isLoading)
      ensures isSaving == old(isSaving) && lastAutoSave == old(lastAutoSave)
    {
      analysis := analysis.(actionItems := WithoutKey(analysis.actionItems, ActionId, id), updatedAt := now);
      wizardState := wizardState.(hasUnsavedChanges := true);
    }

    /** `goToStep(step)`: only the current step changes. */
    method GoToStep(step: WizardStep)
      modifies this
      ensures wizardState == old(wizardState).(currentStep := step)
      ensures analysis == old(analysis) && validationErrors == old(validationErrors)
      ensures viewMode == old(viewMode) && componentMode == old(componentMode)
      ensures isLoading == old(isLoading) && isSaving == old(isSaving) && lastAutoSave == old(lastAutoSave)
    {
      wizardState := wizardState.(currentStep := step);
    }

    /** `goToNextWhy()`: one level deeper. */
    method GoToNextWhy()
      modifies this
      ensures wizardState == old(wizardState).(currentWhyLevel := old(wizardState.currentWhyLevel) + 1)
      ensures analysis == old(analysis) && validationErrors == old(validationErrors)
      ensures viewMode == old(viewMode) && componentMode == old(componentMode)
      ensures isLoading == old(isLoading) && isSaving == old(isSaving) && lastAutoSave == old(lastAutoSave)
    {
      wizardState := wizardState.(currentWhyLevel := wizardState.currentWhyLevel + 1);
    }

    /** `toggleComponentMode()`. */
    method ToggleComponentMode()
      modifies this
      ensures componentMode == OtherMode(old(componentMode))
      ensures analysis == old(analysis) && wizardState == old(wizardState)
      ensures validationErrors == old(validationErrors) && viewMode == old(viewMode)
      ensures isLoading == old(isLoading) && isSaving == old(isSaving) && lastAutoSave == old(lastAutoSave)
    {
      componentMode := if componentMode == SidePanel then FullPage else SidePanel;
    }

    /** The first half of `autoSave` (and `saveAnalysis`): saving starts. */
    method StartSaving()
      modifies this
      ensures isSaving
      ensures analysis == old(analysis) && wizardState == old(wizardState)
      ensures validationErrors == old(validationErrors) && viewMode == old(viewMode)
      ensures componentMode == old(componentMode) && isLoading == old(isLoading)
      ensures lastAutoSave == old(lastAutoSave)
    {
      isSaving := true;
    }

    /** The delayed second half: saved at `now`, nothing unsaved. */
    method SavingDone(now: int)
      modifies this
      ensures !isSaving && lastAutoSave == Some(now)
      ensures wizardState == old(wizardState).(hasUnsavedChanges := false)
      ensures analysis == old(analysis) && validationErrors == old(validationErrors)
      ensures viewMode == old(viewMode) && componentMode == old(componentMode) && isLoading == old(isLoading)
    {
      isSaving := false;
      lastAutoSave := Some(now);
      wizardState := wizardState.(hasUnsavedChanges := false);
    }

    /** `submitAnalysis()`: status submitted, nothing unsaved. */
    method SubmitAnalysis(now: int)
      modifies this
      ensures analysis == old(analysis).(status := Submitted, updatedAt := now)
      ensures wizardState == old(wizardState).(hasUnsavedChanges := false)
      ensures validationErrors == old(validationErrors) && viewMode == old(viewMode)
      ensures componentMode == old(componentMode) && isLoading == old(isLoading)
      ensures isSaving == old(isSaving) && lastAutoSave == old(lastAutoSave)
    {
      analysis := analysis.(status := Submitted, updatedAt := now);
      wizardState := wizardState.(hasUnsavedChanges := false);
    }
  }

  /** `toggleComponentMode()` twice leaves the mode as it was. */
  method ToggleTwice(s: Service)
    modifies s
    ensures s.componentMode == old(s.componentMode)
  {
    s.ToggleComponentMode();
    s.ToggleComponentMode();
    OtherModeTwice(old(s.componentMode));
  }

  /** An item added with an id no other item has is taken out again by
    * removing that id. */
  method AddThenRemove(s: Service, item: ActionDraft, id: string, now: int)
    requires forall j :: 0 <= j < |s.analysis.actionItems| ==> s.analysis.actionItems[j].id != id
    modifies s
    ensures s.analysis.actionItems == old(s.analysis.actionItems)
  {
    s.AddActionItem(item, id, now);
    WithoutFreshAppended(old(s.analysis.actionItems), ActionId,
      ActionItem(id, item.description, item.assignedTo, item.dueDate, item.priority, item.status));
    s.RemoveActionItem(id, now);
  }

  /** `hasDraft()`: a draft that has not expired and holds more than one
    * key. */
  method HasDraft(storage: StorageService, now: int) returns (b: bool)
    modifies storage
    ensures b <==> DraftAt(old(storage.draft), now).Some? && |DraftAt(old(storage.draft), now).value| > 1
  {
    var d := storage.GetDraft(now);
    b := d.Some? && |d.value| > 1;
  }
}

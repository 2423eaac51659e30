// The container of the 5 Whys wizard
// (5Whys-main/src/app/components/five-whys/five-whys-analysis.component.ts):
// it starts the service on a new or a given analysis, asks before closing
// over unsaved changes, submits, and prints how long ago something was
// saved. The clock, fresh ids and the confirmation dialog are parameters.

module AnalysisShell {
  import opened JsText
  import opened FiveWhysModels
  import opened FiveWhysService

  const MinuteMs: int := 60000

  /** `formatTime(date)` at time `now` (both in milliseconds): whole
    * minutes elapsed, rounded down. */
  function FormatTime(now: int, date: int): string
  {
    var diffMins := (now - date) / MinuteMs;
    if diffMins < 1 then "just now"
    else if diffMins < 60 then NatToString(diffMins) + "m ago"
    else NatToString(diffMins / 60) + "h ago"
  }

  /** Division by a positive number rounds down, as `Math.floor` does. */
  lemma DivBand(x: int, d: int, q: int)
    requires d > 0 && d * q <= x < d * (q + 1)
    ensures x / d == q
  {
    var r := x / d;
    assert x == d * r + x % d && 0 <= x % d < d;
    MulMonotone(d, r + 1, q);
    MulMonotone(d, q + 1, r);
  }

  /** Anything under a minute old, or dated in the future, is "just now". */
  lemma FormatTimeJustNow(now: int, date: int)
    requires now - date < MinuteMs
    ensures FormatTime(now, date) == "just now"
  {
    if now - date >= 0 {
      DivBand(now - date, MinuteMs, 0);
    } else {
      assert (now - date) / MinuteMs < 0;
    }
  }

  /** From one minute up to the hour the age is printed in minutes. */
  lemma FormatTimeMinutes(now: int, date: int, m: int)
    requires 1 <= m < 60
    requires MinuteMs * m <= now - date < MinuteMs * (m + 1)
    ensures FormatTime(now, date) == NatToString(m) + "m ago"
  {
    DivBand(now - date, MinuteMs, m);
    FormatTimeShort(now, date, m);
  }

  lemma FormatTimeShort(now: int, date: int, m: int)
    requires (now - date) / MinuteMs == m && 1 <= m < 60
    ensures FormatTime(now, date) == NatToString(m) + "m ago"
  {
  }

  /** From an hour up it is printed in whole hours, rounded down. */
  lemma FormatTimeHours(now: int, date: int, h: int)
    requires h >= 1
    requires 60 * MinuteMs * h <= now - date < 60 * MinuteMs * (h + 1)
    ensures FormatTime(now, date) == NatToString(h) + "h ago"
  {
    var x := now - date;
    assert MinuteMs * (60 * h) <= x < MinuteMs * (60 * h + 60);
    DivRange(x, MinuteMs, 60 * h, 60 * h + 60);
    DivBand(x / MinuteMs, 60, h);
    FormatTimeLong(now, date, h);
  }

  lemma FormatTimeLong(now: int, date: int, h: int)
    requires (now - date) / MinuteMs >= 60 && (now - date) / MinuteMs / 60 == h
    ensures FormatTime(now, date) == NatToString(h) + "h ago"
  {
  }

  /** A value between `d * lo` and `d * hi` divides by `d` to a quotient in
    * that range. */
  lemma DivRange(x: int, d: int, lo: int, hi: int)
    requires d > 0 && d * lo <= x < d * hi
    ensures lo <= x / d < hi
  {
    var r := x / d;
    assert x == d * r + x % d && 0 <= x % d < d;
    MulMonotone(d, r + 1, lo);
    MulMonotone(d, hi, r);
  }

  /** The component around the service it was given. */
  class Shell {
    const service: Service
    const initialAnalysis: Option<Analysis>
    const parentObjectId: Option<string>
    const parentObjectType: Option<string>

    constructor (service: Service, initialAnalysis: Option<Analysis>,
                 parentObjectId: Option<string>, parentObjectType: Option<string>)
      ensures this.service == service && this.initialAnalysis == initialAnalysis
      ensures this.parentObjectId == parentObjectId && this.parentObjectType == parentObjectType
    {
      this.service := service;
      this.initialAnalysis := initialAnalysis;
      this.parentObjectId := parentObjectId;
      this.parentObjectType := parentObjectType;
    }

    /** The initialising effect: a given analysis is loaded for viewing,
      * otherwise a new one is started for the parent object. */
    method Init(id: string, now: int)
      modifies service
      ensures initialAnalysis.Some? ==>
        service.analysis == initialAnalysis.value && service.viewMode == View
        && service.wizardState.currentStep == Summary
      ensures initialAnalysis.None? ==>
        service.analysis.id == id && service.analysis.parentObjectId == parentObjectId
        && service.analysis.parentObjectType == parentObjectType
        && service.analysis.status == Draft && service.viewMode == Create
        && service.wizardState == FreshWizard
      ensures service.componentMode == old(service.componentMode)
    {
      if initialAnalysis.Some? {
        service.LoadAnalysis(initialAnalysis.value);
      } else {
        service.InitializeNewAnalysis(parentObjectId, parentObjectType, id, now);
      }
    }

    /** `onClose()`: whether `close` is emitted, where `confirmed` is the
      * answer the dialog would give; it is only asked with unsaved
      * changes. */
    method OnClose(confirmed: bool) returns (closed: bool)
      ensures closed <==> !service.wizardState.hasUnsavedChanges || confirmed
    {
      if service.wizardState.hasUnsavedChanges {
        closed := confirmed;
      } else {
        closed := true;
      }
    }

    /** `onSubmit()`: the service submits first, and the analysis emitted
      * is the submitted one. */
    method OnSubmit(now: int) returns (submitted: Analysis)
      modifies service
      ensures submitted == service.analysis
      ensures submitted == old(service.analysis).(status := Submitted, updatedAt := now)
      ensures !service.wizardState.hasUnsavedChanges
      ensures service.componentMode == old(service.componentMode) && service.viewMode == old(service.viewMode)
    {
      service.SubmitAnalysis(now);
      submitted := service.analysis;
    }

    /** `toggleMode()`, also bound to a click on the full-page backdrop. */
    method ToggleMode()
      modifies service
      ensures service.componentMode == OtherMode(old(service.componentMode))
      ensures service.analysis == old(service.analysis) && service.wizardState == old(service.wizardState)
    {
      service.ToggleComponentMode();
    }
  }
}

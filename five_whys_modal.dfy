// The 5 Whys modal of the EHS dashboard (js/components/five_whys.js): a
// problem statement, an editable chain of "why" answers and a root-cause
// summary, validated on save.

module FiveWhysModal {
  import opened JsText
  import JsValue

  /** The modal's data object. */
  datatype WhysData = WhysData(problemStatement: string, whys: seq<string>, rootCause: string)

  /** `getDefaultData()`: an empty problem, three empty whys, no root cause. */
  function DefaultData(): (d: WhysData)
    ensures d.problemStatement == "" && d.rootCause == ""
    ensures |d.whys| == 3 && forall i :: 0 <= i < 3 ==> d.whys[i] == ""
  {
    WhysData("", ["", "", ""], "")
  }

  /** `k` empty strings. */
  function Blanks(k: nat): (r: seq<string>)
    ensures |r| == k && forall i :: 0 <= i < k ==> r[i] == ""
  {
    seq(k, _ => "")
  }

  /** The why list after the constructor's padding loop: the list itself,
    * followed by as many empty answers as it takes to reach three. */
  function Padded(whys: seq<string>): (r: seq<string>)
    ensures |r| == Max(3, |whys|)
    ensures r[..|whys|] == whys
    ensures forall i :: |whys| <= i < |r| ==> r[i] == ""
  {
    if |whys| >= 3 then whys else whys + Blanks(3 - |whys|)
  }

  /** The answers that are not blank after trimming, in order: the filter
    * `save` applies. */
  function NonBlank(whys: seq<string>): (r: seq<string>)
    ensures |r| <= |whys|
    ensures forall i :: 0 <= i < |r| ==> r[i] in whys && Trim(r[i]) != ""
    ensures forall i :: 0 <= i < |whys| && Trim(whys[i]) != "" ==> whys[i] in r
  {
    JsValue.Filter(whys, (w: string) => Trim(w) != "")
  }

  /** What `save` concludes about the (already filtered) data, in the order
    * the checks run. */
  datatype SaveOutcome = MissingProblem | NoWhys | MissingRootCause | Saved(data: WhysData)

  /** The three checks of `save`, first failure wins: an empty problem
    * statement, then an empty why list, then an empty root cause. */
  function Check(d: WhysData): (o: SaveOutcome)
    ensures o == MissingProblem <==> d.problemStatement == ""
    ensures o == NoWhys <==> d.problemStatement != "" && d.whys == []
    ensures o == MissingRootCause <==> d.problemStatement != "" && d.whys != [] && d.rootCause == ""
    ensures o.Saved? <==> d.problemStatement != "" && d.whys != [] && d.rootCause != ""
    ensures o.Saved? ==> o.data == d
  {
    if d.problemStatement == "" then MissingProblem
    else if d.whys == [] then NoWhys
    else if d.rootCause == "" then MissingRootCause
    else Saved(d)
  }

  /** Data handed to `onSave` holds only answers with some non-space
    * character, and at least one of them. */
  lemma SavedWhysNonBlank(d: WhysData)
    ensures var o := Check(d.(whys := NonBlank(d.whys)));
      o.Saved? ==> (o.data.whys != [] &&
        forall i :: 0 <= i < |o.data.whys| ==> !Blank(o.data.whys[i]))
  {
    var w := NonBlank(d.whys);
    forall i | 0 <= i < |w|
      ensures !Blank(w[i])
    {
      TrimEmptyIffBlank(w[i]);
    }
  }

  /** A chain whose answers are all blank is emptied by the filter, so it
    * is refused for a missing problem statement or for having no whys. */
  lemma AllBlankNeverSaved(d: WhysData)
    requires forall i :: 0 <= i < |d.whys| ==> Blank(d.whys[i])
    ensures NonBlank(d.whys) == []
    ensures Check(d.(whys := NonBlank(d.whys))) in {MissingProblem, NoWhys}
  {
    var w := NonBlank(d.whys);
    if w != [] {
      TrimEmptyIffBlank(w[0]);
    }
  }

  class Modal {
    var incidentId: int
    var data: WhysData

    /** `new FiveWhysModal(incidentId, existingData)`: a copy of the existing
      * data (or the defaults), its whys padded to three by a loop. */
    constructor (incidentId: int, existing: Option<WhysData>)
      ensures this.incidentId == incidentId
      ensures var d := if existing.Some? then existing.value else DefaultData();
        data == d.(whys := Padded(d.whys))
    {
      this.incidentId := incidentId;
      var d := if existing.Some? then existing.value else DefaultData();
      var whys := d.whys;
      while |whys| < 3
        invariant |d.whys| <= |whys| <= Max(3, |d.whys|)
        invariant whys == d.whys + Blanks(|whys| - |d.whys|)
        decreases 3 - |whys|
      {
        whys := whys + [""];
      }
      data := d.(whys := whys);
    }

    /** The `input` handler of the problem field. */
    method SetProblemStatement(value: string)
      modifies this
      ensures data == old(data).(problemStatement := value)
      ensures incidentId == old(incidentId)
    {
      data := data.(problemStatement := value);
    }

    /** The `input` handler of the root-cause field. */
    method SetRootCause(value: string)
      modifies this
      ensures data == old(data).(rootCause := value)
      ensures incidentId == old(incidentId)
    {
      data := data.(rootCause := value);
    }

    /** `addWhy()`: one empty answer at the end, nothing else changes. */
    method AddWhy()
      modifies this
      ensures data == old(data).(whys := old(data.whys) + [""])
      ensures incidentId == old(incidentId)
    {
      data := data.(whys := data.whys + [""]);
    }

    /** `removeWhy(index)`: refused (with a warning) while one answer or
      * fewer is left; otherwise `whys.splice(index, 1)`. */
    method RemoveWhy(index: int) returns (warned: bool)
      modifies this
      ensures warned <==> |old(data.whys)| <= 1
      ensures warned ==> data == old(data)
      ensures !warned ==> data == old(data).(whys := SpliceOne(old(data.whys), index))
      ensures !warned && 0 <= index < |old(data.whys)| ==> |data.whys| == |old(data.whys)| - 1
      ensures incidentId == old(incidentId)
    {
      if |data.whys| <= 1 {
        warned := true;
        return;
      }
      warned := false;
      data := data.(whys := SpliceOne(data.whys, index));
      if 0 <= index < |old(data.whys)| {
        SpliceOneInRange(old(data.whys), index);
      }
    }

    /** `updateWhy(index, value)`: only that answer changes. */
    method UpdateWhy(index: nat, value: string)
      requires index < |data.whys|
      modifies this
      ensures data == old(data).(whys := old(data.whys)[index := value])
      ensures incidentId == old(incidentId)
    {
      data := data.(whys := data.whys[index := value]);
    }

    /** `save()`: blank answers are dropped first (even when a check then
      * fails), then the three checks run; `Saved` is the call of `onSave`. */
    method Save() returns (outcome: SaveOutcome)
      modifies this
      ensures data == old(data).(whys := NonBlank(old(data.whys)))
      ensures outcome == Check(data)
      ensures incidentId == old(incidentId)
    {
      data := data.(whys := NonBlank(data.whys));
      if data.problemStatement == "" {
        return MissingProblem;
      }
      if |data.whys| == 0 {
        return NoWhys;
      }
      if data.rootCause == "" {
        return MissingRootCause;
      }
      outcome := Saved(data);
    }
  }
}

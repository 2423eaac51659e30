// The risk assessment pages (js/views/risks.js): scores as likelihood times
// severity, their badge colours, the status badges, the record the new
// assessment form submits and the patch the edit form merges, the list
// sorted newest first in the store's own table, and its filters.

module RisksView {
  import opened JsText
  import opened JsValue
  import opened ListView
  import EhsStore
  import Dashboard

  /** `initL * initS` and `resL * resS`. */
  function Score(likelihood: int, severity: int): int
  {
    likelihood * severity
  }

  /** With both factors on the form's 1..5 scale the score lies in 1..25,
    * and raising either factor never lowers it. */
  lemma ScoreRange(l: int, s: int, l2: int, s2: int)
    requires 1 <= l <= 5 && 1 <= s <= 5 && 1 <= l2 <= 5 && 1 <= s2 <= 5
    ensures 1 <= Score(l, s) <= 25
    ensures l <= l2 && s <= s2 ==> Score(l, s) <= Score(l2, s2)
  {
    MulMonotone(s, 1, l);
    MulMonotone(s, l, 5);
    MulMonotone(5, s, 5);
    if l <= l2 && s <= s2 {
      MulMonotone(s, l, l2);
      MulMonotone(l2, s, s2);
    }
  }

  /** `getRiskScoreClass(score)`: 15 and up is danger (high), 8 to 14
    * warning (medium), anything lower, or no number, success. */
  function ScoreClass(score: Value): (c: string)
    ensures c == "danger" <==> Dashboard.ScoreAtLeast(score, 15)
    ensures c == "warning" <==> Dashboard.ScoreAtLeast(score, 8) && !Dashboard.ScoreAtLeast(score, 15)
    ensures c == "success" <==> !Dashboard.ScoreAtLeast(score, 8)
  {
    if Dashboard.ScoreAtLeast(score, 15) then "danger"
    else if Dashboard.ScoreAtLeast(score, 8) then "warning"
    else "success"
  }

  /** The list's badge and the dashboard's doughnut agree: danger is the
    * Critical bucket, warning the High one, success Medium or Low. */
  lemma ScoreClassMatchesBucket(score: Value)
    ensures ScoreClass(score) == "danger" <==> Dashboard.Bucket(score) == Dashboard.Critical
    ensures ScoreClass(score) == "warning" <==> Dashboard.Bucket(score) == Dashboard.High
    ensures ScoreClass(score) == "success" <==> Dashboard.Bucket(score) in {Dashboard.Medium, Dashboard.Low}
  {
  }

  /** `getStatusBadgeClass(status)` of the risk pages. */
  function StatusBadge(status: Value): (c: string)
    ensures c == "success" <==> status == Str("Adequate")
    ensures c == "warning" <==> status == Str("Needs Improvement")
    ensures c == "danger" <==> status == Str("Inadequate")
    ensures c == "secondary" <==> status !in {Str("Adequate"), Str("Needs Improvement"), Str("Inadequate")}
  {
    if status == Str("Adequate") then "success"
    else if status == Str("Needs Improvement") then "warning"
    else if status == Str("Inadequate") then "danger"
    else "secondary"
  }

  /** The parsed numbers of the assessment form. */
  datatype Ratings = Ratings(initL: int, initS: int, resL: int, resS: int)

  /** The fields both forms submit: hazard, the four ratings with the two
    * scores computed from them, controls and status. */
  function RatedFields(hazard: string, r: Ratings, controls: string, status: string): (u: Record)
    ensures u.Keys == {"hazard", "initialLikelihood", "initialSeverity", "initialScore", "controls",
                       "residualLikelihood", "residualSeverity", "residualScore", "status"}
    ensures u["initialScore"] == IntV(Score(r.initL, r.initS))
    ensures u["residualScore"] == IntV(Score(r.resL, r.resS))
  {
    map["hazard" := Str(hazard), "initialLikelihood" := IntV(r.initL),
        "initialSeverity" := IntV(r.initS), "initialScore" := IntV(r.initL * r.initS),
        "controls" := Str(controls), "residualLikelihood" := IntV(r.resL),
        "residualSeverity" := IntV(r.resS), "residualScore" := IntV(r.resL * r.resS),
        "status" := Str(status)]
  }

  /** The record `showAddRiskModal` submits: the rated fields, the category
    * and the assessment time. */
  function NewRisk(hazard: string, category: string, r: Ratings, controls: string,
                   status: string, now: int): (rec: Record)
    ensures rec.Keys == RatedFields(hazard, r, controls, status).Keys + {"category", "assessmentDate"}
    ensures rec["category"] == Str(category) && rec["assessmentDate"] == Date(now)
    ensures forall k :: k in RatedFields(hazard, r, controls, status) ==>
      rec[k] == RatedFields(hazard, r, controls, status)[k]
  {
    RatedFields(hazard, r, controls, status)["category" := Str(category)]["assessmentDate" := Date(now)]
  }

  /** The patch `showEditRiskModal` hands to `updateRiskAssessment`: the
    * rated fields only, so an edit keeps the category and the assessment
    * date, and fresh ratings always come with their recomputed scores. */
  function EditPatch(hazard: string, r: Ratings, controls: string, status: string): (u: Record)
    ensures "category" !in u && "assessmentDate" !in u && "id" !in u
    ensures forall prev: Record ::
      (Get(prev + u, "initialScore") == IntV(Score(r.initL, r.initS)) &&
       Get(prev + u, "residualScore") == IntV(Score(r.resL, r.resS)))
    ensures forall prev: Record ::
      (Get(prev + u, "category") == Get(prev, "category") &&
       Get(prev + u, "assessmentDate") == Get(prev, "assessmentDate"))
  {
    RatedFields(hazard, r, controls, status)
  }

  /** `risks.sort(...)` on the array `getRiskAssessments` returns, which is
    * the store's own table: rendering the list reorders the store, newest
    * assessment first. */
  method SortList(store: EhsStore.Store)
    requires store.Valid()
    modifies store`tables
    ensures store.Valid()
    ensures store.tables == old(store.tables)[EhsStore.RiskAssessments :=
      NewestFirst(old(store.tables[EhsStore.RiskAssessments]), "assessmentDate")]
  {
    store.SortTableInPlace(EhsStore.RiskAssessments, StableSort.Negated(DateKey("assessmentDate")));
  }

  /** The list's columns: ID, Date, Hazard, Category, Initial Score,
    * Residual Score, Status and the action buttons. */
  const Columns: nat := 8

  /** `filterRisks`: the search and the selects on the Category (4th) and
    * Status (7th) cells. */
  method FilterRisks(rows: seq<Row>, display: array<bool>, typed: string, inputValue: string,
                     categoryFilter: string, statusFilter: string)
    requires display.Length == |rows|
    requires forall i :: 0 <= i < |rows| ==> |rows[i].cells| == Columns
    modifies display
    ensures forall i :: 0 <= i < |rows| ==>
      (display[i] <==>
        Includes(ToLower(rows[i].text), SearchTermAsWritten(typed, inputValue)) &&
        (categoryFilter == "" || rows[i].cells[3] == categoryFilter) &&
        (statusFilter == "" || rows[i].cells[6] == statusFilter))
  {
    var term := SearchTermAsWritten(typed, inputValue);
    var category, status := ColumnFilter(3, categoryFilter), ColumnFilter(6, statusFilter);
    forall i | 0 <= i < |rows|
      ensures HasColumns(rows[i], [category, status])
      ensures Shown(rows[i], term, [category, status]) <==>
        Includes(ToLower(rows[i].text), term) && Passes(rows[i], category) && Passes(rows[i], status)
    {
      ShownTwo(rows[i], term, category, status);
    }
    ApplyFilter(rows, display, term, [category, status]);
  }
}

// The electronic work permit pages (js/views/ewp.js): the permits sorted by
// start of validity, the status badges, the supervisor step of a permit's
// approval workflow, and the search with its status and type filters.

module EwpView {
  import opened JsText
  import opened JsValue
  import opened ListView
  import EhsStore

  /** `getStatusBadgeClass(status)` of the permit list; 'Expired/Cancelled'
    * has its own case with the same colour as the default. */
  function StatusBadge(status: Value): (c: string)
    ensures c == "success" <==> status == Str("Active")
    ensures c == "info" <==> status == Str("Completed")
    ensures c == "warning" <==> status == Str("Pending")
    ensures c == "secondary" <==> status !in {Str("Active"), Str("Completed"), Str("Pending")}
  {
    if status == Str("Active") then "success"
    else if status == Str("Completed") then "info"
    else if status == Str("Expired/Cancelled") then "secondary"
    else if status == Str("Pending") then "warning"
    else "secondary"
  }

  /** A step of the approval workflow: its class, its icon and its text. */
  datatype Step = Step(cls: string, icon: string, text: string)

  /** The supervisor step: approved exactly for an active permit. */
  function SupervisorStep(status: Value): (s: Step)
    ensures s.text == "Approved by Supervisor" <==> status == Str("Active")
    ensures s.text == "Approved by Supervisor" <==> s.cls == "active" && s.icon == "●"
    ensures s.text == "Pending" <==> s.icon == "○"
    ensures s.text == "Approved by Supervisor" <==> StatusBadge(status) == "success"
  {
    if status == Str("Active") then Step("active", "●", "Approved by Supervisor")
    else Step("", "○", "Pending")
  }

  /** `getWorkPermits()` sorted by `validFrom`, newest first; the joined
    * array is a fresh copy, so the store keeps its order. */
  function Listed(permits: seq<Record>, users: seq<Record>): (r: seq<Record>)
    ensures multiset(r) == multiset(EhsStore.JoinNames(permits, users, "applicantId", "applicantName"))
    ensures forall i, j :: 0 <= i < j < |r| ==> DateOf(r[i], "validFrom") >= DateOf(r[j], "validFrom")
  {
    NewestFirst(EhsStore.JoinNames(permits, users, "applicantId", "applicantName"), "validFrom")
  }

  /** The list shows every permit once: it has as many rows of each status
    * as the store has permits of that status, so as many active ones as
    * the dashboard counts. */
  lemma ListedStatusCounts(permits: seq<Record>, users: seq<Record>, status: string)
    ensures |Listed(permits, users)| == |permits|
    ensures Count(Listed(permits, users), FieldIs("status", status)) == Count(permits, FieldIs("status", status))
  {
    var joined := EhsStore.JoinNames(permits, users, "applicantId", "applicantName");
    assert |Listed(permits, users)| == |joined| by {
      assert |multiset(Listed(permits, users))| == |multiset(joined)|;
    }
    CountPermutation(Listed(permits, users), joined, FieldIs("status", status));
    forall i | 0 <= i < |joined|
      ensures FieldIs("status", status)(joined[i]) == FieldIs("status", status)(permits[i])
    {
      assert Get(joined[i], "status") == Get(permits[i], "status");
    }
    CountPointwise(joined, permits, FieldIs("status", status), FieldIs("status", status));
  }

  /** The list's columns: ID, Type, Location, Valid From, Valid To,
    * Applicant, Status and the action buttons. */
  const Columns: nat := 8

  /** `filterPermits`: the search and the selects on the Status (7th) and
    * Type (2nd) cells. */
  method FilterPermits(rows: seq<Row>, display: array<bool>, typed: string, inputValue: string,
                       statusFilter: string, typeFilter: string)
    requires display.Length == |rows|
    requires forall i :: 0 <= i < |rows| ==> |rows[i].cells| == Columns
    modifies display
    ensures forall i :: 0 <= i < |rows| ==>
      (display[i] <==>
        Includes(ToLower(rows[i].text), SearchTermAsWritten(typed, inputValue)) &&
        (statusFilter == "" || rows[i].cells[6] == statusFilter) &&
        (typeFilter == "" || rows[i].cells[1] == typeFilter))
  {
    var term := SearchTermAsWritten(typed, inputValue);
    var status, kind := ColumnFilter(6, statusFilter), ColumnFilter(1, typeFilter);
    forall i | 0 <= i < |rows|
      ensures HasColumns(rows[i], [status, kind])
      ensures Shown(rows[i], term, [status, kind]) <==>
        Includes(ToLower(rows[i].text), term) && Passes(rows[i], status) && Passes(rows[i], kind)
    {
      ShownTwo(rows[i], term, status, kind);
    }
    ApplyFilter(rows, display, term, [status, kind]);
  }
}

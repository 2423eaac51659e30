// The incident pages (js/views/incidents.js): the list sorted newest first
// with its search and its status and severity filters, the badge colours,
// the record the report form submits and the patch the edit form merges.

module IncidentsView {
  import opened JsText
  import opened JsValue
  import opened ListView
  import EhsStore
  import Dashboard

  /** `getSeverityBadgeClass(severity)`; First Aid, N/A and anything else
    * are 'success'. */
  function SeverityBadge(severity: Value): (c: string)
    ensures c == "danger" <==> severity == Str("Fatality/Serious")
    ensures c == "warning" <==> severity == Str("Recordable")
    ensures c == "info" <==> severity == Str("Medical Treatment")
    ensures c == "success" <==>
      severity !in {Str("Fatality/Serious"), Str("Recordable"), Str("Medical Treatment")}
  {
    if severity == Str("Fatality/Serious") then "danger"
    else if severity == Str("Recordable") then "warning"
    else if severity == Str("Medical Treatment") then "info"
    else "success"
  }

  /** `getStatusBadgeClass(status)`, also used for corrective actions. */
  function StatusBadge(status: Value): (c: string)
    ensures c == "success" <==> status == Str("Closed")
    ensures c == "warning" <==> status == Str("Under Investigation")
    ensures c == "secondary" <==> status !in {Str("Closed"), Str("Under Investigation")}
  {
    if status == Str("Closed") then "success"
    else if status == Str("Under Investigation") then "warning"
    else "secondary"
  }

  /** The incidents the dashboard counts as recordable are exactly those the
    * list marks with the danger or the warning badge. */
  lemma RecordableIffAlarmBadge(i: Record)
    ensures Dashboard.IsRecordable(i) <==> SeverityBadge(Get(i, "severity")) in {"danger", "warning"}
  {
  }

  /** An incident is under investigation, or past it, exactly when it has
    * moved on from 'Reported': it has an investigation unless it is still
    * 'Reported'. */
  predicate InvestigatedIffNotReported(r: Record)
  {
    !Truthy(Get(r, "investigation")) <==> Get(r, "status") == Str("Reported")
  }

  /** The record `showAddIncidentModal` submits: the form's fields, status
    * 'Reported', nobody involved yet and the creation time; the store adds
    * the id. */
  function NewIncident(title: string, date: int, kind: string, severity: string,
                       location: string, description: string, now: int): (r: Record)
    ensures r.Keys == {"title", "date", "type", "severity", "location", "description",
                       "status", "involved", "createdDate"}
    ensures r["status"] == Str("Reported") && r["involved"] == Arr([]) && r["createdDate"] == Date(now)
    ensures r["title"] == Str(title) && r["date"] == Date(date) && r["type"] == Str(kind)
    ensures r["severity"] == Str(severity) && r["location"] == Str(location)
    ensures r["description"] == Str(description)
    ensures InvestigatedIffNotReported(r)
  {
    map["title" := Str(title), "date" := Date(date), "type" := Str(kind),
        "severity" := Str(severity), "location" := Str(location),
        "description" := Str(description), "status" := Str("Reported"),
        "involved" := Arr([]), "createdDate" := Date(now)]
  }

  /** The patch `showEditIncidentModal` hands to `updateIncident`. */
  function EditPatch(title: string, date: int, status: string, description: string): (u: Record)
    ensures u.Keys == {"title", "date", "status", "description"}
    ensures u["title"] == Str(title) && u["date"] == Date(date)
    ensures u["status"] == Str(status) && u["description"] == Str(description)
  {
    map["title" := Str(title), "date" := Date(date), "status" := Str(status),
        "description" := Str(description)]
  }

  /** Editing an incident changes only the four fields of the form: its id,
    * type, severity, location, the people involved and everything else stay
    * as they were, and no other incident changes. */
  lemma EditKeepsOtherFields(rows: seq<Record>, idText: string, title: string, date: int,
                             status: string, description: string)
    requires FindById(rows, idText).Some?
    ensures var k := FindById(rows, idText).value;
      var after := EhsStore.MergeById(rows, idText, EditPatch(title, date, status, description));
      (forall key :: key in rows[k] && key !in {"title", "date", "status", "description"} ==>
         key in after[k] && after[k][key] == rows[k][key]) &&
      Get(after[k], "status") == Str(status) &&
      forall i :: 0 <= i < |rows| && i != k ==> after[i] == rows[i]
  {
    var k := FindById(rows, idText).value;
    var u := EditPatch(title, date, status, description);
    var after := EhsStore.MergeById(rows, idText, u);
    assert after[k] == rows[k] + u;
    forall key | key in rows[k] && key !in {"title", "date", "status", "description"}
      ensures key in after[k] && after[k][key] == rows[k][key]
    {
      assert key !in u.Keys;
    }
    assert "status" in u.Keys;
  }

  /** The list's columns: ID, Date, Type, Title, Location, Severity, Status
    * and the action buttons. */
  const Columns: nat := 8

  /** `filterIncidents`: the search over the row text and the selects on the
    * Status (7th) and Severity (6th) cells. The search term is taken as
    * written: the typed text as typed, the input's text lower-cased. */
  method FilterIncidents(rows: seq<Row>, display: array<bool>, typed: string, inputValue: string,
                         statusFilter: string, severityFilter: string)
    requires display.Length == |rows|
    requires forall i :: 0 <= i < |rows| ==> |rows[i].cells| == Columns
    modifies display
    ensures forall i :: 0 <= i < |rows| ==>
      (display[i] <==>
        Includes(ToLower(rows[i].text), SearchTermAsWritten(typed, inputValue)) &&
        (statusFilter == "" || rows[i].cells[6] == statusFilter) &&
        (severityFilter == "" || rows[i].cells[5] == severityFilter))
  {
    var term := SearchTermAsWritten(typed, inputValue);
    var status, severity := ColumnFilter(6, statusFilter), ColumnFilter(5, severityFilter);
    forall i | 0 <= i < |rows|
      ensures HasColumns(rows[i], [status, severity])
      ensures Shown(rows[i], term, [status, severity]) <==>
        Includes(ToLower(rows[i].text), term) && Passes(rows[i], status) && Passes(rows[i], severity)
    {
      ShownTwo(rows[i], term, status, severity);
    }
    ApplyFilter(rows, display, term, [status, severity]);
  }
}

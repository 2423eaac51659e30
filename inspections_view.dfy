// The inspection (Gemba walk) pages (js/views/inspections.js): the walks
// sorted newest first, the status badges, the record the start form
// submits, the findings shown in a walk's details, and the search with its
// status filter.

module InspectionsView {
  import opened JsText
  import opened JsValue
  import opened ListView
  import EhsStore

  /** `getStatusBadgeClass(status)` of the inspection list. */
  function StatusBadge(status: Value): (c: string)
    ensures c == "success" <==> status == Str("Completed")
    ensures c == "warning" <==> status == Str("In Progress")
    ensures c == "info" <==> status == Str("Scheduled")
    ensures c == "secondary" <==> status !in {Str("Completed"), Str("In Progress"), Str("Scheduled")}
  {
    if status == Str("Completed") then "success"
    else if status == Str("In Progress") then "warning"
    else if status == Str("Scheduled") then "info"
    else "secondary"
  }

  /** The record the start form submits: 'In Progress' with no findings and
    * no date, which `addInspection` stamps. */
  function NewInspection(title: string, inspectorId: string, description: string): (r: Record)
    ensures r.Keys == {"title", "inspectorId", "description", "status", "findings"}
    ensures "date" !in r
    ensures r["status"] == Str("In Progress") && r["findings"] == IntV(0)
    ensures r["title"] == Str(title) && r["description"] == Str(description)
    ensures r["inspectorId"] == ParsedNumber(inspectorId)
  {
    map["title" := Str(title), "inspectorId" := ParsedNumber(inspectorId),
        "description" := Str(description), "status" := Str("In Progress"), "findings" := IntV(0)]
  }

  /** The submit handler: the new walk goes through `addInspection`. */
  method StartInspection(store: EhsStore.Store, title: string, inspectorId: string,
                         description: string, now: int)
    requires store.Valid()
    modifies store`tables, store`calls
    ensures store.Valid()
    ensures store.tables == old(store.tables)[EhsStore.Inspections := old(store.tables[EhsStore.Inspections]) +
      [EhsStore.NewRecord(NewInspection(title, inspectorId, description),
                          NextIdUnfloored(old(store.tables[EhsStore.Inspections])), Some("date"), now)]]
    ensures store.calls == old(store.calls) + store.listeners
  {
    store.AddInspection(NewInspection(title, inspectorId, description), now);
  }

  /** `getInspections()` sorted by `date`, newest first; the joined array is
    * a fresh copy, so the store keeps its order. */
  function Listed(inspections: seq<Record>, users: seq<Record>): (r: seq<Record>)
    ensures multiset(r) == multiset(EhsStore.JoinNames(inspections, users, "inspectorId", "inspectorName"))
    ensures forall i, j :: 0 <= i < j < |r| ==> DateOf(r[i], "date") >= DateOf(r[j], "date")
  {
    NewestFirst(EhsStore.JoinNames(inspections, users, "inspectorId", "inspectorName"), "date")
  }

  /** A walk just started is dated now, so when no walk is dated later the
    * list opens with a walk of that date. */
  lemma StartedInspectionOnTop(t: seq<Record>, users: seq<Record>, title: string, inspectorId: string,
                               description: string, now: int)
    requires IdTable(t)
    requires forall i :: 0 <= i < |t| ==> DateOf(t[i], "date") <= now
    ensures var r := EhsStore.NewRecord(NewInspection(title, inspectorId, description),
                                        NextIdUnfloored(t), Some("date"), now);
      DateOf(Listed(t + [r], users)[0], "date") == now
  {
    var r := EhsStore.NewRecord(NewInspection(title, inspectorId, description), NextIdUnfloored(t), Some("date"), now);
    var rows := t + [r];
    assert DateOf(r, "date") == now;
    forall i | 0 <= i < |rows| ensures DateOf(rows[i], "date") <= now {
      if i < |t| { assert rows[i] == t[i]; }
    }
    LatestOnTop(rows, users, now);
  }

  /** When the last walk is dated `now` and none is later, the list opens
    * with a walk dated `now`. */
  lemma LatestOnTop(rows: seq<Record>, users: seq<Record>, now: int)
    requires rows != [] && DateOf(rows[|rows| - 1], "date") == now
    requires forall i :: 0 <= i < |rows| ==> DateOf(rows[i], "date") <= now
    ensures DateOf(Listed(rows, users)[0], "date") == now
  {
    var joined := EhsStore.JoinNames(rows, users, "inspectorId", "inspectorName");
    JoinKeepsDate(rows, users);
    NewestFirstHead(joined, "date");
    var head := Listed(rows, users)[0];
    assert DateOf(joined[|rows| - 1], "date") == now;
    var k :| 0 <= k < |joined| && joined[k] == head;
    assert DateOf(head, "date") <= now;
  }

  /** Joining the inspector names keeps every walk's date. */
  lemma JoinKeepsDate(rows: seq<Record>, users: seq<Record>)
    ensures forall i :: 0 <= i < |rows| ==>
      DateOf(EhsStore.JoinNames(rows, users, "inspectorId", "inspectorName")[i], "date") == DateOf(rows[i], "date")
  {
    var joined := EhsStore.JoinNames(rows, users, "inspectorId", "inspectorName");
    forall i | 0 <= i < |rows| ensures DateOf(joined[i], "date") == DateOf(rows[i], "date") {
      assert Get(joined[i], "date") == Get(rows[i], "date");
    }
  }

  /** `insp.findings > 0` for a number of findings. */
  predicate HasIssues(findings: Value)
  {
    findings.Number? && findings.num.Fin? && findings.num.n > 0
  }

  /** The findings paragraph of the details. */
  function FindingsText(findings: Value): string
  {
    if HasIssues(findings) then ToText(findings) + " issues identified during this walk."
    else "No issues found."
  }

  /** The mark of the walkways item of the details. */
  function WalkwaysMark(findings: Value): string
  {
    if HasIssues(findings) then "❌" else "✅"
  }

  /** The details report issues exactly when the walkways item is crossed,
    * and a walk just started reports none. */
  lemma FindingsAgree(findings: Value)
    ensures FindingsText(findings) != "No issues found." <==> WalkwaysMark(findings) == "❌"
    ensures findings == IntV(0) ==> FindingsText(findings) == "No issues found." && WalkwaysMark(findings) == "✅"
  {
    if HasIssues(findings) {
      var digits := ToText(findings);
      assert digits == NatToString(findings.num.n);
      assert IsDigit(digits[0]);
      assert FindingsText(findings)[0] == digits[0];
    }
  }

  /** The list's columns: Title, Date, Inspector, Findings, Status and the
    * action buttons. */
  const Columns: nat := 6

  /** `filterInspections`: the search and the select on the Status (5th)
    * cell. */
  method FilterInspections(rows: seq<Row>, display: array<bool>, typed: string, inputValue: string,
                           statusFilter: string)
    requires display.Length == |rows|
    requires forall i :: 0 <= i < |rows| ==> |rows[i].cells| == Columns
    modifies display
    ensures forall i :: 0 <= i < |rows| ==>
      (display[i] <==>
        Includes(ToLower(rows[i].text), SearchTermAsWritten(typed, inputValue)) &&
        (statusFilter == "" || rows[i].cells[4] == statusFilter))
  {
    var term := SearchTermAsWritten(typed, inputValue);
    var status := ColumnFilter(4, statusFilter);
    forall i | 0 <= i < |rows|
      ensures HasColumns(rows[i], [status])
      ensures Shown(rows[i], term, [status]) <==> Includes(ToLower(rows[i].text), term) && Passes(rows[i], status)
    {
      ShownOne(rows[i], term, status);
    }
    ApplyFilter(rows, display, term, [status]);
  }
}

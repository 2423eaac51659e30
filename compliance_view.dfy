// The compliance pages (js/views/compliance.js): the obligations sorted by
// due date in the store's own table, the assignee names, the overdue
// highlight of a due date, the status badges, the record the add form
// submits, and the search with its status and jurisdiction filters.

module ComplianceView {
  import opened JsText
  import opened JsValue
  import opened ListView
  import EhsStore

  /** The page's own directory of assignees, keyed by user id. */
  const Users: map<string, string> := map["1" := "Alice Smith", "2" := "Bob Johnson",
    "3" := "Charlie Brown", "4" := "Diana Prince", "5" := "Ethan Hunt"]

  /** `users[id] || 'Unknown User'`: the object is indexed with the id's
    * text. */
  function UserName(id: Value): string
  {
    if ToText(id) in Users then Users[ToText(id)] else "Unknown User"
  }

  /** A numeric assignee has a name exactly when it is one of the ids 1 to
    * 5, and then it is that user's. */
  lemma UserNameOfNumber(n: int)
    ensures UserName(IntV(n)) != "Unknown User" <==> 1 <= n <= 5
    ensures 1 <= n <= 5 ==>
      UserName(IntV(n)) == ["Alice Smith", "Bob Johnson", "Charlie Brown", "Diana Prince", "Ethan Hunt"][n - 1]
  {
    NumberKeyOfDigit(n, 1);
    NumberKeyOfDigit(n, 2);
    NumberKeyOfDigit(n, 3);
    NumberKeyOfDigit(n, 4);
    NumberKeyOfDigit(n, 5);
    assert NatToString(1) == "1" && NatToString(2) == "2" && NatToString(3) == "3";
    assert NatToString(4) == "4" && NatToString(5) == "5";
  }

  /** `isOverdue(date, status)`: a completed obligation never is; any other
    * is overdue once its due date has passed (an invalid date never has). */
  function IsOverdue(dueDate: Value, status: Value, now: int): (b: bool)
    ensures status == Str("Completed") ==> !b
    ensures b ==> dueDate.Date?
  {
    status != Str("Completed") && dueDate.Date? && dueDate.ms < now
  }

  /** Once overdue, an obligation stays overdue as time goes on, until it is
    * completed; before its due date it is not overdue. */
  lemma OverdueAsTimePasses(dueDate: Value, status: Value, now: int, later: int)
    requires now <= later
    ensures IsOverdue(dueDate, status, now) ==> IsOverdue(dueDate, status, later)
    ensures dueDate.Date? && now <= dueDate.ms ==> !IsOverdue(dueDate, status, now)
    ensures dueDate.Date? && dueDate.ms < now && status != Str("Completed") ==> IsOverdue(dueDate, status, now)
  {
  }

  /** `getStatusBadgeClass(status)` of the compliance list. */
  function StatusBadge(status: Value): (c: string)
    ensures c == "success" <==> status == Str("Completed")
    ensures c == "danger" <==> status == Str("Overdue")
    ensures c == "warning" <==> status == Str("Due")
    ensures c == "secondary" <==> status !in {Str("Completed"), Str("Overdue"), Str("Due")}
  {
    if status == Str("Completed") then "success"
    else if status == Str("Overdue") then "danger"
    else if status == Str("Due") then "warning"
    else "secondary"
  }

  /** The record the add form submits, status 'Due'; the store adds the id
    * and the creation date. */
  function NewObligation(title: string, jurisdiction: string, dueDate: int, assignedTo: string,
                         description: string): (r: Record)
    ensures r.Keys == {"title", "jurisdiction", "dueDate", "assignedTo", "description", "status"}
    ensures r["status"] == Str("Due") && r["dueDate"] == Date(dueDate)
    ensures r["title"] == Str(title) && r["jurisdiction"] == Str(jurisdiction)
    ensures r["description"] == Str(description)
    ensures r["assignedTo"] == ParsedNumber(assignedTo)
    ensures StatusBadge(r["status"]) == "warning"
  {
    map["title" := Str(title), "jurisdiction" := Str(jurisdiction), "dueDate" := Date(dueDate),
        "assignedTo" := ParsedNumber(assignedTo), "description" := Str(description),
        "status" := Str("Due")]
  }

  /** An obligation assigned through the form's select, whose options are
    * the ids 1 to 5, shows its assignee's name. */
  lemma AssigneeFromSelect(title: string, jurisdiction: string, dueDate: int, d: nat, description: string)
    requires 1 <= d <= 5
    ensures UserName(Get(NewObligation(title, jurisdiction, dueDate, NatToString(d), description), "assignedTo"))
      != "Unknown User"
  {
    ParseIntOfNatToString(d);
    UserNameOfNumber(d);
  }

  /** `records.sort(...)` on the array `getComplianceRecords` returns, which
    * is the store's own table: rendering the list reorders the store, the
    * earliest due date first. */
  method SortList(store: EhsStore.Store)
    requires store.Valid()
    modifies store`tables
    ensures store.Valid()
    ensures store.tables == old(store.tables)[EhsStore.ComplianceRecords :=
      OldestFirst(old(store.tables[EhsStore.ComplianceRecords]), "dueDate")]
  {
    store.SortTableInPlace(EhsStore.ComplianceRecords, DateKey("dueDate"));
  }

  /** The list's columns: Title, Jurisdiction, Due Date, Assigned To,
    * Status and the action buttons. */
  const Columns: nat := 6

  /** `filterCompliance`: the search and the selects on the Status (5th)
    * and Jurisdiction (2nd) cells. */
  method FilterCompliance(rows: seq<Row>, display: array<bool>, typed: string, inputValue: string,
                          statusFilter: string, jurisdictionFilter: string)
    requires display.Length == |rows|
    requires forall i :: 0 <= i < |rows| ==> |rows[i].cells| == Columns
    modifies display
    ensures forall i :: 0 <= i < |rows| ==>
      (display[i] <==>
        Includes(ToLower(rows[i].text), SearchTermAsWritten(typed, inputValue)) &&
        (statusFilter == "" || rows[i].cells[4] == statusFilter) &&
        (jurisdictionFilter == "" || rows[i].cells[1] == jurisdictionFilter))
  {
    var term := SearchTermAsWritten(typed, inputValue);
    var status, jurisdiction := ColumnFilter(4, statusFilter), ColumnFilter(1, jurisdictionFilter);
    forall i | 0 <= i < |rows|
      ensures HasColumns(rows[i], [status, jurisdiction])
      ensures Shown(rows[i], term, [status, jurisdiction]) <==>
        Includes(ToLower(rows[i].text), term) && Passes(rows[i], status) && Passes(rows[i], jurisdiction)
    {
      ShownTwo(rows[i], term, status, jurisdiction);
    }
    ApplyFilter(rows, display, term, [status, jurisdiction]);
  }
}

// The audit pages (js/views/audits.js): the audits sorted newest first in
// the store's own table, the statistics card, the auditor names, the status
// badges, the record the schedule form submits, and the search with its
// status filter.

module AuditsView {
  import opened JsText
  import opened JsValue
  import opened ListView
  import EhsStore

  /** The page's own directory of auditors, keyed by user id. */
  const Auditors: map<string, string> := map["1" := "Alice Smith", "2" := "Bob Johnson", "3" := "Charlie Brown"]

  /** `auditors[id] || 'Unknown Auditor'`. */
  function AuditorName(id: Value): string
  {
    if ToText(id) in Auditors then Auditors[ToText(id)] else "Unknown Auditor"
  }

  /** A numeric auditor id has a name exactly when it is 1, 2 or 3. */
  lemma AuditorNameOfNumber(n: int)
    ensures AuditorName(IntV(n)) != "Unknown Auditor" <==> 1 <= n <= 3
    ensures 1 <= n <= 3 ==> AuditorName(IntV(n)) == ["Alice Smith", "Bob Johnson", "Charlie Brown"][n - 1]
  {
    NumberKeyOfDigit(n, 1);
    NumberKeyOfDigit(n, 2);
    NumberKeyOfDigit(n, 3);
    assert NatToString(1) == "1" && NatToString(2) == "2" && NatToString(3) == "3";
  }

  /** `getStatusBadgeClass(status)` of the audit list. */
  function StatusBadge(status: Value): (c: string)
    ensures c == "success" <==> status == Str("Completed")
    ensures c == "warning" <==> status == Str("In Progress")
    ensures c == "info" <==> status == Str("Planned")
    ensures c == "secondary" <==> status !in {Str("Completed"), Str("In Progress"), Str("Planned")}
  {
    if status == Str("Completed") then "success"
    else if status == Str("In Progress") then "warning"
    else if status == Str("Planned") then "info"
    else "secondary"
  }

  /** A record's `findings` as a count: a number, or `None` when anything
    * else makes the sum NaN. */
  function FindingsOf(r: Record): Option<int>
  {
    match Get(r, "findings")
    case Number(Fin(n)) => Some(n)
    case _ => None
  }

  /** `audits.reduce((acc, curr) => acc + curr.findings, 0)`, left to right;
    * `None` (NaN) as soon as one record has no number of findings. */
  function TotalFindings(audits: seq<Record>): Option<int>
  {
    if audits == [] then Some(0)
    else
      match (TotalFindings(audits[..|audits| - 1]), FindingsOf(audits[|audits| - 1]))
      case (Some(a), Some(b)) => Some(a + b)
      case _ => None
  }

  /** Record counts of findings. */
  predicate CountsFindings(r: Record)
  {
    FindingsOf(r).Some? && FindingsOf(r).value >= 0
  }

  /** With every record counting its findings the total is a number, at
    * least as large as any one record's count. */
  lemma {:induction false} TotalFindingsBounds(audits: seq<Record>)
    requires forall i :: 0 <= i < |audits| ==> CountsFindings(audits[i])
    ensures TotalFindings(audits).Some? && TotalFindings(audits).value >= 0
    ensures forall i :: 0 <= i < |audits| ==>
      CountsFindings(audits[i]) && FindingsOf(audits[i]).value <= TotalFindings(audits).value
  {
    if audits != [] {
      var init := audits[..|audits| - 1];
      assert forall i :: 0 <= i < |init| ==> init[i] == audits[i];
      TotalFindingsBounds(init);
    }
  }

  /** Adding a record changes the total by exactly its findings. */
  lemma TotalFindingsAppend(audits: seq<Record>, r: Record)
    ensures FindingsOf(r) == Some(0) ==> TotalFindings(audits + [r]) == TotalFindings(audits)
    ensures TotalFindings(audits).Some? && FindingsOf(r).Some? ==>
      TotalFindings(audits + [r]) == Some(TotalFindings(audits).value + FindingsOf(r).value)
  {
    assert (audits + [r])[..|audits|] == audits;
  }

  /** The statistics card. */
  datatype AuditStats = AuditStats(total: nat, completed: nat, openFindings: Option<int>)

  /** Total audits, completed audits and the summed findings. */
  function Stats(audits: seq<Record>): (s: AuditStats)
    ensures s.total == |audits| && s.completed <= s.total
    ensures s.completed == Count(audits, FieldIs("status", "Completed"))
    ensures s.openFindings == TotalFindings(audits)
  {
    AuditStats(|audits|, Count(audits, FieldIs("status", "Completed")), TotalFindings(audits))
  }

  /** The record the schedule form submits: status 'Planned' with no
    * findings yet; the store adds the id and the creation date. */
  function NewAudit(title: string, date: int, auditorId: string, description: string): (r: Record)
    ensures r.Keys == {"title", "date", "auditorId", "description", "status", "findings"}
    ensures r["status"] == Str("Planned") && r["findings"] == IntV(0)
    ensures r["title"] == Str(title) && r["date"] == Date(date) && r["description"] == Str(description)
    ensures r["auditorId"] == ParsedNumber(auditorId)
  {
    map["title" := Str(title), "date" := Date(date), "auditorId" := ParsedNumber(auditorId),
        "description" := Str(description), "status" := Str("Planned"), "findings" := IntV(0)]
  }

  /** Scheduling an audit adds one to the total, nothing to the completed
    * audits and nothing to the open findings. */
  lemma ScheduledAuditStats(audits: seq<Record>, title: string, date: int, auditorId: string,
                            description: string, now: int)
    requires IdTable(audits)
    ensures var r := EhsStore.NewRecord(NewAudit(title, date, auditorId, description),
                                        NextIdFloored(audits), Some("createdDate"), now);
      Stats(audits + [r]) ==
        AuditStats(|audits| + 1, Count(audits, FieldIs("status", "Completed")), TotalFindings(audits))
  {
    var input := NewAudit(title, date, auditorId, description);
    assert "status" in input.Keys && "findings" in input.Keys;
    var r := EhsStore.NewRecord(input, NextIdFloored(audits), Some("createdDate"), now);
    assert r["status"] == input["status"] && r["findings"] == input["findings"];
    PlannedAuditStats(audits, r);
  }

  /** Appending a planned audit without findings changes only the total. */
  lemma PlannedAuditStats(audits: seq<Record>, r: Record)
    requires Get(r, "status") == Str("Planned") && Get(r, "findings") == IntV(0)
    ensures Stats(audits + [r]) ==
      AuditStats(|audits| + 1, Count(audits, FieldIs("status", "Completed")), TotalFindings(audits))
  {
    TotalFindingsAppend(audits, r);
    CountConcat(audits, [r], FieldIs("status", "Completed"));
    assert Filter([r], FieldIs("status", "Completed")) == [];
  }

  /** `audits.sort(...)` on the array `getAuditRecords` returns, which is
    * the store's own table: rendering the list reorders the store, newest
    * audit first. */
  method SortList(store: EhsStore.Store)
    requires store.Valid()
    modifies store`tables
    ensures store.Valid()
    ensures store.tables == old(store.tables)[EhsStore.AuditRecords :=
      NewestFirst(old(store.tables[EhsStore.AuditRecords]), "date")]
  {
    store.SortTableInPlace(EhsStore.AuditRecords, StableSort.Negated(DateKey("date")));
  }

  /** The list's columns: Title, Date, Auditor, Status, Findings and the
    * action buttons. */
  const Columns: nat := 6

  /** `filterAudits`: the search and the select on the Status (4th) cell. */
  method FilterAudits(rows: seq<Row>, display: array<bool>, typed: string, inputValue: string,
                      statusFilter: string)
    requires display.Length == |rows|
    requires forall i :: 0 <= i < |rows| ==> |rows[i].cells| == Columns
    modifies display
    ensures forall i :: 0 <= i < |rows| ==>
      (display[i] <==>
        Includes(ToLower(rows[i].text), SearchTermAsWritten(typed, inputValue)) &&
        (statusFilter == "" || rows[i].cells[3] == statusFilter))
  {
    var term := SearchTermAsWritten(typed, inputValue);
    var status := ColumnFilter(3, statusFilter);
    forall i | 0 <= i < |rows|
      ensures HasColumns(rows[i], [status])
      ensures Shown(rows[i], term, [status]) <==> Includes(ToLower(rows[i].text), term) && Passes(rows[i], status)
    {
      ShownOne(rows[i], term, status);
    }
    ApplyFilter(rows, display, term, [status]);
  }
}

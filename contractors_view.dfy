// The contractor pages (js/views/contractors.js): the contractors sorted by
// joining date in the store's own table, the status badges and the mock
// safety score, the record the registration form submits, the contact line
// of a contractor's profile, and the search with its status and trade
// filters.

module ContractorsView {
  import opened JsText
  import opened JsValue
  import opened ListView
  import EhsStore

  /** `getStatusBadgeClass(status)` of the contractor list. */
  function StatusBadge(status: Value): (c: string)
    ensures c == "success" <==> status == Str("Approved")
    ensures c == "warning" <==> status == Str("Pending")
    ensures c == "danger" <==> status == Str("Suspended")
    ensures c == "secondary" <==> status !in {Str("Approved"), Str("Pending"), Str("Suspended")}
  {
    if status == Str("Approved") then "success"
    else if status == Str("Pending") then "warning"
    else if status == Str("Suspended") then "danger"
    else "secondary"
  }

  /** The safety-score cell: its text class and its text. */
  datatype Score = Score(cls: string, text: string)

  /** `getSafetyScoreBadge(status)`: a score derived from the status alone. */
  function SafetyScore(status: Value): (s: Score)
    ensures s.text == "95%" <==> StatusBadge(status) == "success"
    ensures s.text == "-" <==> StatusBadge(status) == "warning"
    ensures s.text == "65%" <==> StatusBadge(status) in {"danger", "secondary"}
    ensures s.cls == "text-success font-weight-bold" <==> s.text == "95%"
    ensures s.cls == "text-danger font-weight-bold" <==> s.text == "65%"
  {
    if status == Str("Approved") then Score("text-success font-weight-bold", "95%")
    else if status == Str("Pending") then Score("text-muted", "-")
    else Score("text-danger font-weight-bold", "65%")
  }

  /** The record the registration form submits; the store adds the id and
    * the joining date. */
  function NewContractor(name: string, trade: string, email: string, status: string): (r: Record)
    ensures r.Keys == {"name", "trade", "email", "status"}
    ensures r["name"] == Str(name) && r["trade"] == Str(trade)
    ensures r["email"] == Str(email) && r["status"] == Str(status)
  {
    map["name" := Str(name), "trade" := Str(trade), "email" := Str(email), "status" := Str(status)]
  }

  /** The submit handler: the contractor goes through `addContractor`. */
  method Register(store: EhsStore.Store, name: string, trade: string, email: string, status: string,
                  now: int)
    requires store.Valid()
    modifies store`tables, store`calls
    ensures store.Valid()
    ensures store.tables == old(store.tables)[EhsStore.Contractors := old(store.tables[EhsStore.Contractors]) +
      [EhsStore.NewRecord(NewContractor(name, trade, email, status),
                          NextIdUnfloored(old(store.tables[EhsStore.Contractors])), Some("joinedDate"), now)]]
    ensures store.calls == old(store.calls) + store.listeners
  {
    store.AddContractor(NewContractor(name, trade, email, status), now);
  }

  /** `contractors.sort(...)` on the array `getContractors` returns, which
    * is the store's own table: rendering the list reorders the store, the
    * latest to join first. */
  method SortList(store: EhsStore.Store)
    requires store.Valid()
    modifies store`tables
    ensures store.Valid()
    ensures store.tables == old(store.tables)[EhsStore.Contractors :=
      NewestFirst(old(store.tables[EhsStore.Contractors]), "joinedDate")]
  {
    store.SortTableInPlace(EhsStore.Contractors, StableSort.Negated(DateKey("joinedDate")));
  }

  /** A contractor registered now heads the sorted list when nobody joined
    * later, and keeps the form's fields. */
  lemma RegisteredOnTop(t: seq<Record>, name: string, trade: string, email: string, status: string, now: int)
    requires IdTable(t)
    requires forall i :: 0 <= i < |t| ==> DateOf(t[i], "joinedDate") <= now
    ensures var r := EhsStore.NewRecord(NewContractor(name, trade, email, status),
                                        NextIdUnfloored(t), Some("joinedDate"), now);
      DateOf(NewestFirst(t + [r], "joinedDate")[0], "joinedDate") == now &&
      Get(r, "name") == Str(name) && Get(r, "trade") == Str(trade) && Get(r, "status") == Str(status)
  {
    var r := EhsStore.NewRecord(NewContractor(name, trade, email, status), NextIdUnfloored(t), Some("joinedDate"), now);
    var rows := t + [r];
    assert forall i :: 0 <= i < |rows| ==> DateOf(rows[i], "joinedDate") <= now by {
      forall i | 0 <= i < |rows| ensures DateOf(rows[i], "joinedDate") <= now {
        if i < |t| { assert rows[i] == t[i]; }
      }
    }
    NewestFirstHead(rows, "joinedDate");
    assert DateOf(rows[|t|], "joinedDate") == now;
    var head := NewestFirst(rows, "joinedDate")[0];
    var k :| 0 <= k < |rows| && rows[k] == head;
  }

  /** The profile's contact line, `c.email || 'N/A'`. */
  function Contact(email: Value): (s: string)
    ensures email == Str("") || email.Undefined? || email.Null? ==> s == "N/A"
    ensures email.Str? && email.s != "" ==> s == email.s
  {
    if Truthy(email) then ToText(email) else "N/A"
  }

  /** The list's columns: Company Name, Trade, Status, Date Joined, Safety
    * Score and the action buttons. */
  const Columns: nat := 6

  /** `filterContractors`: the search and the selects on the Status (3rd)
    * and Trade (2nd) cells. */
  method FilterContractors(rows: seq<Row>, display: array<bool>, typed: string, inputValue: string,
                           statusFilter: string, tradeFilter: string)
    requires display.Length == |rows|
    requires forall i :: 0 <= i < |rows| ==> |rows[i].cells| == Columns
    modifies display
    ensures forall i :: 0 <= i < |rows| ==>
      (display[i] <==>
        Includes(ToLower(rows[i].text), SearchTermAsWritten(typed, inputValue)) &&
        (statusFilter == "" || rows[i].cells[2] == statusFilter) &&
        (tradeFilter == "" || rows[i].cells[1] == tradeFilter))
  {
    var term := SearchTermAsWritten(typed, inputValue);
    var status, trade := ColumnFilter(2, statusFilter), ColumnFilter(1, tradeFilter);
    forall i | 0 <= i < |rows|
      ensures HasColumns(rows[i], [status, trade])
      ensures Shown(rows[i], term, [status, trade]) <==>
        Includes(ToLower(rows[i].text), term) && Passes(rows[i], status) && Passes(rows[i], trade)
    {
      ShownTwo(rows[i], term, status, trade);
    }
    ApplyFilter(rows, display, term, [status, trade]);
  }
}

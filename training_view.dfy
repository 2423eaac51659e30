// The training pages (js/views/training.js): the certifications sorted by
// expiry date, the "Needs Attention" list, the status badges, the pie of
// statuses, and the search with its status filter.

module TrainingView {
  import opened JsText
  import opened JsValue
  import opened StableSort
  import opened ListView
  import EhsStore
  import Dashboard

  /** `getTrainingRecords()` sorted by `expiryDate`, soonest first; the
    * joined array is a fresh copy, so the store keeps its order. */
  function Listed(training: seq<Record>, users: seq<Record>): (r: seq<Record>)
    ensures multiset(r) == multiset(EhsStore.JoinNames(training, users, "userId", "userName"))
    ensures SortedBy(r, DateKey("expiryDate"))
  {
    OldestFirst(EhsStore.JoinNames(training, users, "userId", "userName"), "expiryDate")
  }

  /** `records.filter(r => r.status === status).slice(0, 3)`. */
  function FirstWithStatus(records: seq<Record>, status: string): (r: seq<Record>)
    ensures |r| == Min(3, Count(records, FieldIs("status", status)))
    ensures forall i :: 0 <= i < |r| ==> r[i] in records && Get(r[i], "status") == Str(status)
  {
    FirstN(Filter(records, FieldIs("status", status)), 3)
  }

  /** The "Needs Attention" list: expired certifications, then those
    * expiring soon. */
  datatype Attention = Attention(expired: seq<Record>, expiring: seq<Record>)

  /** At most three of each, each with its status, no record in both. */
  function NeedsAttention(records: seq<Record>): (a: Attention)
    ensures |a.expired| <= 3 && |a.expiring| <= 3
    ensures |a.expired| == Min(3, Count(records, FieldIs("status", "Expired")))
    ensures |a.expiring| == Min(3, Count(records, FieldIs("status", "Expiring Soon")))
    ensures forall i :: 0 <= i < |a.expired| ==> Get(a.expired[i], "status") == Str("Expired")
    ensures forall i :: 0 <= i < |a.expiring| ==> Get(a.expiring[i], "status") == Str("Expiring Soon")
    ensures forall x :: x in a.expired ==> x !in a.expiring
  {
    Attention(FirstWithStatus(records, "Expired"), FirstWithStatus(records, "Expiring Soon"))
  }

  /** On a list sorted by expiry date, the records shown for a status are
    * the ones that expire first: every record of that status left out
    * expires no earlier than any shown. */
  lemma ShowsEarliest(records: seq<Record>, status: string)
    requires SortedBy(records, DateKey("expiryDate"))
    ensures forall x, y :: (x in records && Get(x, "status") == Str(status) &&
      x !in FirstWithStatus(records, status) && y in FirstWithStatus(records, status)) ==>
      DateOf(y, "expiryDate") <= DateOf(x, "expiryDate")
  {
    var filtered := Filter(records, FieldIs("status", status));
    FilterKeepsOrder(records, FieldIs("status", status), DateKey("expiryDate"));
    var shown := FirstWithStatus(records, status);
    forall x, y | x in records && Get(x, "status") == Str(status) && x !in shown && y in shown
      ensures DateOf(y, "expiryDate") <= DateOf(x, "expiryDate")
    {
      var i :| 0 <= i < |records| && records[i] == x;
      assert x in filtered;
      var j :| 0 <= j < |filtered| && filtered[j] == x;
      var k :| 0 <= k < |shown| && shown[k] == y;
      assert shown == filtered[..|shown|];
      assert filtered[k] == y;
    }
  }

  /** So the page's list shows, for each status, the certifications that
    * expire first. */
  lemma AttentionShowsEarliest(training: seq<Record>, users: seq<Record>)
    ensures var a := NeedsAttention(Listed(training, users));
      var records := Listed(training, users);
      (forall x, y :: (x in records && Get(x, "status") == Str("Expired") && x !in a.expired &&
         y in a.expired) ==> DateOf(y, "expiryDate") <= DateOf(x, "expiryDate")) &&
      (forall x, y :: (x in records && Get(x, "status") == Str("Expiring Soon") && x !in a.expiring &&
         y in a.expiring) ==> DateOf(y, "expiryDate") <= DateOf(x, "expiryDate"))
  {
    ShowsEarliest(Listed(training, users), "Expired");
    ShowsEarliest(Listed(training, users), "Expiring Soon");
  }

  /** `getStatusBadgeClass(status)` of the training list. */
  function StatusBadge(status: Value): (c: string)
    ensures c == "success" <==> status == Str("Active")
    ensures c == "warning" <==> status == Str("Expiring Soon")
    ensures c == "danger" <==> status == Str("Expired")
    ensures c == "secondary" <==> status !in {Str("Active"), Str("Expiring Soon"), Str("Expired")}
  {
    if status == Str("Active") then "success"
    else if status == Str("Expiring Soon") then "warning"
    else if status == Str("Expired") then "danger"
    else "secondary"
  }

  /** The record's status is one of the three the pie shows. */
  predicate KnownStatus(r: Record)
  {
    Get(r, "status") in {Str("Active"), Str("Expiring Soon"), Str("Expired")}
  }

  function ActiveOrExpiring(): Record -> bool
  {
    r => Get(r, "status") in {Str("Active"), Str("Expiring Soon")}
  }

  datatype PieCounts = PieCounts(active: nat, expiring: nat, expired: nat)

  /** `renderChart`: the three filter counts never add up to more than the
    * records, and to all of them when every status is one of the three. */
  function Pie(records: seq<Record>): (c: PieCounts)
    ensures c.active == Count(records, FieldIs("status", "Active"))
    ensures c.expiring == Count(records, FieldIs("status", "Expiring Soon"))
    ensures c.expired == Count(records, FieldIs("status", "Expired"))
    ensures c.active + c.expiring + c.expired == Count(records, KnownStatus)
    ensures c.active + c.expiring + c.expired <= |records|
    ensures (forall i :: 0 <= i < |records| ==> KnownStatus(records[i])) ==>
      c.active + c.expiring + c.expired == |records|
  {
    Dashboard.CountDisjoint(records, FieldIs("status", "Active"), FieldIs("status", "Expiring Soon"),
                            ActiveOrExpiring());
    Dashboard.CountDisjoint(records, ActiveOrExpiring(), FieldIs("status", "Expired"), KnownStatus);
    if forall i :: 0 <= i < |records| ==> KnownStatus(records[i]) then
      CountAll(records, KnownStatus);
      PieCounts(Count(records, FieldIs("status", "Active")), Count(records, FieldIs("status", "Expiring Soon")),
                Count(records, FieldIs("status", "Expired")))
    else
      PieCounts(Count(records, FieldIs("status", "Active")), Count(records, FieldIs("status", "Expiring Soon")),
                Count(records, FieldIs("status", "Expired")))
  }

  /** The list's columns: Employee, Course, Completion Date, Expiry Date,
    * Status and the action buttons. */
  const Columns: nat := 6

  /** `filterRecords`: the search and the select on the Status (5th) cell. */
  method FilterRecords(rows: seq<Row>, display: array<bool>, typed: string, inputValue: string,
                       statusFilter: string)
    requires display.Length == |rows|
    requires forall i :: 0 <= i < |rows| ==> |rows[i].cells| == Columns
    modifies display
    ensures forall i :: 0 <= i < |rows| ==>
      (display[i] <==>
        Includes(ToLower(rows[i].text), SearchTermAsWritten(typed, inputValue)) &&
        (statusFilter == "" || rows[i].cells[4] == statusFilter))
  {
    var term := SearchTermAsWritten(typed, inputValue);
    var status := ColumnFilter(4, statusFilter);
    forall i | 0 <= i < |rows|
      ensures HasColumns(rows[i], [status])
      ensures Shown(rows[i], term, [status]) <==> Includes(ToLower(rows[i].text), term) && Passes(rows[i], status)
    {
      ShownOne(rows[i], term, status);
    }
    ApplyFilter(rows, display, term, [status]);
  }
}

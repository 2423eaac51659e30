// The string-template dashboard (js/views/DashboardView.js): its KPI cards,
// among them the compliance rate, and the recent-activity list merged from
// the newest records of five tables.

module DashboardView {
  import opened JsText
  import opened JsValue
  import opened StableSort
  import opened ListView
  import Dashboard

  predicate IsOpenRisk(r: Record)
  {
    Dashboard.ScoreAtLeast(Get(r, "residualScore"), 15)
  }

  /** The compliance rate as written:
    * `Math.round(((n - overdue) / n) * 100) || 100`. The fallback meant for
    * an empty table also replaces a true 0 %. */
  function ComplianceRateAsWritten(records: seq<Record>): (r: int)
    ensures 1 <= r <= 100
    ensures records == [] ==> r == 100
    ensures records != [] ==>
      var ok := |records| - Count(records, FieldIs("status", "Overdue"));
      r == if 200 * ok < |records| then 100 else Dashboard.Percent(ok, |records|)
  {
    var overdue := Count(records, FieldIs("status", "Overdue"));
    Dashboard.RoundedPercent(|records| - overdue, |records|, 100)
  }

  /** As written, a table whose every record is overdue reads as fully
    * compliant. */
  lemma AllOverdueReadsFullAsWritten(records: seq<Record>)
    requires records != []
    requires forall i :: 0 <= i < |records| ==> Get(records[i], "status") == Str("Overdue")
    ensures ComplianceRateAsWritten(records) == 100
  {
    CountAll(records, FieldIs("status", "Overdue"));
  }

  /** The compliance rate as evidently intended: 100 for an empty table,
    * otherwise the rounded share of records that are not overdue. */
  function ComplianceRate(records: seq<Record>): (r: int)
    ensures 0 <= r <= 100
    ensures records == [] ==> r == 100
    ensures Count(records, FieldIs("status", "Overdue")) == 0 ==> r == 100
    ensures records != [] && Count(records, FieldIs("status", "Overdue")) == |records| ==> r == 0
    ensures records != [] ==>
      var ok := |records| - Count(records, FieldIs("status", "Overdue"));
      2 * |records| * r - |records| <= 200 * ok < 2 * |records| * r + |records|
  {
    if records == [] then 100
    else Dashboard.Percent(|records| - Count(records, FieldIs("status", "Overdue")), |records|)
  }

  /** The corrected rate only differs from the written one where the
    * written one shows 100 for a share that rounds to 0. */
  lemma RatesAgreeAboveHalfPercent(records: seq<Record>)
    requires 200 * (|records| - Count(records, FieldIs("status", "Overdue"))) >= |records|
    ensures ComplianceRate(records) == ComplianceRateAsWritten(records)
  {
  }

  datatype SummaryKpis = SummaryKpis(totalIncidents: nat, openRisks: nat, completedInspections: nat,
                                     complianceOverdue: nat, complianceRate: int)

  /** The KPI cards, with the compliance rate as written. */
  function Kpis(incidents: seq<Record>, risks: seq<Record>, inspections: seq<Record>,
                compliance: seq<Record>): (k: SummaryKpis)
    ensures k.totalIncidents == |incidents|
    ensures k.openRisks == Count(risks, IsOpenRisk) <= |risks|
    ensures k.completedInspections == Count(inspections, FieldIs("status", "Completed")) <= |inspections|
    ensures k.complianceOverdue == Count(compliance, FieldIs("status", "Overdue")) <= |compliance|
    ensures k.complianceRate == ComplianceRateAsWritten(compliance) && 1 <= k.complianceRate <= 100
    ensures compliance != [] && k.complianceOverdue == |compliance| ==> k.complianceRate == 100
  {
    SummaryKpis(|incidents|, Count(risks, IsOpenRisk), Count(inspections, FieldIs("status", "Completed")),
                Count(compliance, FieldIs("status", "Overdue")), ComplianceRateAsWritten(compliance))
  }

  /** An open risk of the summary is one in the dashboard doughnut's
    * Critical bucket, so the two pages count the same risks. */
  lemma OpenRisksAreCritical(risks: seq<Record>)
    ensures Count(risks, IsOpenRisk) == Count(risks, Dashboard.InBucket(Dashboard.Critical))
  {
    CountMonotone(risks, IsOpenRisk, Dashboard.InBucket(Dashboard.Critical));
    CountMonotone(risks, Dashboard.InBucket(Dashboard.Critical), IsOpenRisk);
  }

  /** One entry of the recent-activity list. */
  datatype Activity = Activity(kind: string, title: Value, date: Value, link: string)

  /** `new Date(a.date)` in milliseconds, 0 for anything but a date. */
  function ActivityTime(a: Activity): int
  {
    match a.date
    case Date(ms) => ms
    case _ => 0
  }

  function Activities(rows: seq<Record>, kind: string, titleKey: string, dateKey: string,
                      link: string): (r: seq<Activity>)
    ensures |r| == |rows|
    ensures forall i :: 0 <= i < |rows| ==>
      r[i] == Activity(kind, Get(rows[i], titleKey), Get(rows[i], dateKey), link)
  {
    seq(|rows|, i requires 0 <= i < |rows| => Activity(kind, Get(rows[i], titleKey), Get(rows[i], dateKey), link))
  }

  /** The candidates: the last three incidents, two risk assessments, two
    * inspections, one audit and one training record, in that order. */
  function ActivityPool(incidents: seq<Record>, risks: seq<Record>, inspections: seq<Record>,
                        audits: seq<Record>, training: seq<Record>): (r: seq<Activity>)
    ensures |r| == Min(3, |incidents|) + Min(2, |risks|) + Min(2, |inspections|) +
                   Min(1, |audits|) + Min(1, |training|)
  {
    Activities(LastN(incidents, 3), "incident", "title", "date", "#/incidents") +
    Activities(LastN(risks, 2), "risk", "hazard", "assessmentDate", "#/risks") +
    Activities(LastN(inspections, 2), "inspection", "title", "date", "#/inspections") +
    Activities(LastN(audits, 1), "audit", "title", "date", "#/audits") +
    Activities(LastN(training, 1), "training", "courseName", "completionDate", "#/training")
  }

  /** `[...].sort(newest first).slice(0, 5)`: at most five candidates,
    * newest first, and no candidate left out is newer than one shown. */
  function RecentActivity(pool: seq<Activity>): (r: seq<Activity>)
    ensures |r| == Min(5, |pool|)
    ensures multiset(r) <= multiset(pool)
    ensures forall i, j :: 0 <= i < j < |r| ==> ActivityTime(r[i]) >= ActivityTime(r[j])
    ensures forall x, i :: x in multiset(pool) - multiset(r) && 0 <= i < |r| ==>
      ActivityTime(x) <= ActivityTime(r[i])
  {
    Newest(pool, ActivityTime, 5)
  }
}

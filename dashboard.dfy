// The dashboard page (js/views/dashboard.js): the KPI figures computed from
// the store's tables, the residual-risk doughnut with its four buckets, the
// training compliance pie and the twelve-month incident line.

module Dashboard {
  import opened JsText
  import opened JsValue
  import opened ListView
  import EhsStore

  /** `Math.round((part / total) * 100)` for a positive total, as an exact
    * ratio: the nearest whole percent, halves rounded up. */
  function Percent(part: nat, total: nat): (r: int)
    requires part <= total && total > 0
    ensures 0 <= r <= 100
    ensures 2 * total * r - total <= 200 * part < 2 * total * r + total
    ensures part == total ==> r == 100
    ensures part == 0 ==> r == 0
    ensures 200 * part >= total <==> r >= 1
  {
    PercentBounds(part, total);
    RoundDiv(100 * part, total)
  }

  lemma PercentBounds(part: nat, total: nat)
    requires part <= total && total > 0
    ensures var r := RoundDiv(100 * part, total);
      0 <= r <= 100 && (part == total ==> r == 100) && (part == 0 ==> r == 0) &&
      (200 * part >= total <==> r >= 1)
  {
    var r := RoundDiv(100 * part, total);
    var v := 200 * part;
    assert total * (2 * r - 1) <= v < total * (2 * r + 1) by {
      assert 2 * total * r - total == total * (2 * r - 1);
      assert 2 * total * r + total == total * (2 * r + 1);
    }
    assert v <= total * 200;
    Squeeze(total, 2 * r - 1, 2 * r + 1, v, 200);
    Squeeze(total, 2 * r - 1, 2 * r + 1, v, 0);
    Squeeze(total, 2 * r - 1, 2 * r + 1, v, 1);
    if r >= 1 {
      MulMonotone(total, 1, 2 * r - 1);
    }
  }

  /** A value between `t * lo` and `t * hi` (a positive `t`) bounds the
    * factors `c` with `t * c` on either side of it. */
  lemma Squeeze(t: int, lo: int, hi: int, v: int, c: int)
    requires t > 0 && t * lo <= v < t * hi
    ensures v <= t * c ==> lo <= c
    ensures t * c <= v ==> c < hi
  {
    MulMonotone(t, lo, c);
    MulMonotone(t, c, hi);
  }

  /** `Math.round((part / total) * 100) || fallback`: an empty table gives
    * NaN, a share under half a percent rounds to 0, and both give the
    * fallback. */
  function RoundedPercent(part: nat, total: nat, fallback: int): (r: int)
    requires part <= total
    ensures total == 0 ==> r == fallback
    ensures total > 0 && 200 * part < total ==> r == fallback
    ensures total > 0 && 200 * part >= total ==> r == Percent(part, total) && 1 <= r <= 100
  {
    if total == 0 then fallback
    else
      var p := Percent(part, total);
      if p == 0 then fallback else p
  }

  predicate IsRecordable(i: Record)
  {
    Get(i, "severity") == Str("Recordable") || Get(i, "severity") == Str("Fatality/Serious")
  }

  predicate IsNearMiss(i: Record)
  {
    Get(i, "type") == Str("Near-miss")
  }

  /** The corrective actions `flatMap` takes from one incident: the
    * elements of its `actions` array, or the value itself (`undefined` when
    * the key is missing) when it is not an array. */
  function ActionsOfIncident(i: Record): seq<Value>
  {
    match Get(i, "actions")
    case Arr(items) => items
    case v => [v]
  }

  /** `incidents.flatMap(i => i.actions)`: a value is among the actions
    * exactly when some incident contributes it. */
  function FlatActions(incidents: seq<Record>): (r: seq<Value>)
    ensures forall v :: v in r <==> exists i :: 0 <= i < |incidents| && v in ActionsOfIncident(incidents[i])
    ensures (forall i :: 0 <= i < |incidents| ==> Get(incidents[i], "actions") == Arr([])) ==> r == []
  {
    if incidents == [] then []
    else
      var r := ActionsOfIncident(incidents[0]) + FlatActions(incidents[1..]);
      assert forall v :: v in r <==> exists i :: 0 <= i < |incidents| && v in ActionsOfIncident(incidents[i]) by {
        forall v | v in r
          ensures exists i :: 0 <= i < |incidents| && v in ActionsOfIncident(incidents[i])
        {
          if v !in ActionsOfIncident(incidents[0]) {
            var j :| 0 <= j < |incidents| - 1 && v in ActionsOfIncident(incidents[1..][j]);
            assert incidents[1..][j] == incidents[j + 1];
          }
        }
        forall v, i | 0 <= i < |incidents| && v in ActionsOfIncident(incidents[i])
          ensures v in r
        {
          if i > 0 {
            assert incidents[1..][i - 1] == incidents[i];
          }
        }
      }
      r
  }

  /** `flatMap` over two lists one after the other: the first list's
    * actions, then the second's. */
  lemma {:induction false} FlatActionsConcat(a: seq<Record>, b: seq<Record>)
    ensures FlatActions(a + b) == FlatActions(a) + FlatActions(b)
  {
    if a == [] {
      assert a + b == b;
    } else {
      assert (a + b)[0] == a[0] && (a + b)[1..] == a[1..] + b;
      FlatActionsConcat(a[1..], b);
    }
  }

  /** Lists joined end to end, as `flat()` joins them. */
  function Flatten(parts: seq<seq<Value>>): seq<Value>
  {
    if parts == [] then [] else parts[0] + Flatten(parts[1..])
  }

  /** The action arrays `getIncidents` joins to the incidents, one per
    * incident, in order. */
  function JoinedActionLists(incidents: seq<Record>, actions: seq<Record>): (r: seq<seq<Value>>)
    ensures |r| == |incidents|
    ensures forall i :: 0 <= i < |incidents| ==>
      r[i] == EhsStore.AsValues(EhsStore.ActionsOf(actions, Get(incidents[i], "id")))
  {
    seq(|incidents|, i requires 0 <= i < |incidents| =>
      EhsStore.AsValues(EhsStore.ActionsOf(actions, Get(incidents[i], "id"))))
  }

  /** On the incidents `getIncidents` returns, `flatMap` gives each
    * incident's corrective actions in turn, in table order. */
  lemma {:induction false} FlatActionsOfJoin(incidents: seq<Record>, actions: seq<Record>)
    ensures FlatActions(EhsStore.JoinActions(incidents, actions)) ==
      Flatten(JoinedActionLists(incidents, actions))
  {
    if incidents != [] {
      var joined := EhsStore.JoinActions(incidents, actions);
      assert joined[1..] == EhsStore.JoinActions(incidents[1..], actions);
      assert JoinedActionLists(incidents, actions)[1..] == JoinedActionLists(incidents[1..], actions);
      assert ActionsOfIncident(joined[0]) == JoinedActionLists(incidents, actions)[0];
      FlatActionsOfJoin(incidents[1..], actions);
    }
  }

  /** `a.status !== 'Completed'` on an array element: true for anything
    * but an object whose status is 'Completed'. On `undefined` or `null`
    * the source's `a.status` throws instead; joined incidents never carry
    * such an element (FlatActionsOfJoin). */
  predicate IsOpenAction(a: Value)
  {
    !(a.Obj? && Get(a.fields, "status") == Str("Completed"))
  }

  /** The number of corrective actions not yet 'Completed', incident by
    * incident. */
  function OpenActionCount(incidents: seq<Record>, actions: seq<Record>): nat
  {
    if incidents == [] then 0
    else
      Count(EhsStore.ActionsOf(actions, Get(incidents[0], "id")), Not(FieldIs("status", "Completed"))) +
        OpenActionCount(incidents[1..], actions)
  }

  /** Carried as objects, records count as open exactly when their status
    * is not 'Completed'. */
  lemma {:induction false} CountOpenAsValues(rows: seq<Record>)
    ensures Count(EhsStore.AsValues(rows), IsOpenAction) == Count(rows, Not(FieldIs("status", "Completed")))
  {
    if rows != [] {
      var vs := EhsStore.AsValues(rows);
      assert vs[1..] == EhsStore.AsValues(rows[1..]);
      CountCons(vs, IsOpenAction);
      CountCons(rows, Not(FieldIs("status", "Completed")));
      CountOpenAsValues(rows[1..]);
    }
  }

  /** The dashboard's open-actions figure on `getIncidents()` counts, over
    * every incident, exactly its corrective actions whose status is not
    * 'Completed'. */
  lemma {:induction false} OpenActionsOfJoin(incidents: seq<Record>, actions: seq<Record>)
    ensures Count(FlatActions(EhsStore.JoinActions(incidents, actions)), IsOpenAction) ==
      OpenActionCount(incidents, actions)
  {
    FlatActionsOfJoin(incidents, actions);
    OpenFlatten(incidents, actions);
  }

  lemma {:induction false} OpenFlatten(incidents: seq<Record>, actions: seq<Record>)
    ensures Count(Flatten(JoinedActionLists(incidents, actions)), IsOpenAction) ==
      OpenActionCount(incidents, actions)
  {
    if incidents != [] {
      var parts := JoinedActionLists(incidents, actions);
      assert parts[1..] == JoinedActionLists(incidents[1..], actions);
      CountConcat(parts[0], Flatten(parts[1..]), IsOpenAction);
      CountOpenAsValues(EhsStore.ActionsOf(actions, Get(incidents[0], "id")));
      OpenFlatten(incidents[1..], actions);
    }
  }

  /** The KPI line of the dashboard. */
  datatype Kpis = Kpis(totalRecordables: nat, openActions: nat, nearMisses: nat,
                       complianceRate: int, activePermits: nat, trainingCompliance: int)

  /** Recordable incidents, open actions, near misses, the share of
    * completed compliance records, active permits and the share of active
    * training records; the two shares are 0 for an empty table. */
  function DashboardKpis(incidents: seq<Record>, compliance: seq<Record>,
                         training: seq<Record>, permits: seq<Record>): (k: Kpis)
    ensures k.totalRecordables == Count(incidents, IsRecordable)
    ensures k.totalRecordables + Count(incidents, Not(IsRecordable)) == |incidents|
    ensures k.nearMisses == Count(incidents, IsNearMiss) <= |incidents|
    ensures k.openActions == Count(FlatActions(incidents), IsOpenAction) <= |FlatActions(incidents)|
    ensures k.activePermits == Count(permits, FieldIs("status", "Active")) <= |permits|
    ensures compliance != [] ==>
      k.complianceRate == Percent(Count(compliance, FieldIs("status", "Completed")), |compliance|)
    ensures training != [] ==>
      k.trainingCompliance == Percent(Count(training, FieldIs("status", "Active")), |training|)
    ensures 0 <= k.complianceRate <= 100 && 0 <= k.trainingCompliance <= 100
    ensures compliance == [] ==> k.complianceRate == 0
    ensures compliance != [] && Count(compliance, FieldIs("status", "Completed")) == |compliance| ==>
      k.complianceRate == 100
    ensures Count(compliance, FieldIs("status", "Completed")) == 0 ==> k.complianceRate == 0
    ensures training == [] ==> k.trainingCompliance == 0
    ensures training != [] && Count(training, FieldIs("status", "Active")) == |training| ==>
      k.trainingCompliance == 100
  {
    CountSplit(incidents, IsRecordable);
    Kpis(Count(incidents, IsRecordable),
         Count(FlatActions(incidents), IsOpenAction),
         Count(incidents, IsNearMiss),
         RoundedPercent(Count(compliance, FieldIs("status", "Completed")), |compliance|, 0),
         Count(permits, FieldIs("status", "Active")),
         RoundedPercent(Count(training, FieldIs("status", "Active")), |training|, 0))
  }

  /** The doughnut's buckets of residual risk. */
  datatype RiskLevel = Low | Medium | High | Critical

  /** `r.residualScore >= 15`, `>= 8`, `>= 4`: a score that is not a finite
    * number fails every comparison and falls in Low. */
  function Bucket(score: Value): (b: RiskLevel)
    ensures b == Critical <==> ScoreAtLeast(score, 15)
    ensures b == High <==> ScoreAtLeast(score, 8) && !ScoreAtLeast(score, 15)
    ensures b == Medium <==> ScoreAtLeast(score, 4) && !ScoreAtLeast(score, 8)
    ensures b == Low <==> !ScoreAtLeast(score, 4)
  {
    if ScoreAtLeast(score, 15) then Critical
    else if ScoreAtLeast(score, 8) then High
    else if ScoreAtLeast(score, 4) then Medium
    else Low
  }

  /** `score >= bound` on a number value. */
  predicate ScoreAtLeast(score: Value, bound: int)
  {
    score.Number? && score.num.Fin? && score.num.n >= bound
  }

  function InBucket(level: RiskLevel): Record -> bool
  {
    r => Bucket(Get(r, "residualScore")) == level
  }

  datatype RiskCounts = RiskCounts(low: nat, medium: nat, high: nat, critical: nat)

  /** `renderRiskChart`'s `forEach`: one counter per bucket, each the number
    * of assessments in it, together all of them. */
  method CountRiskBuckets(risks: seq<Record>) returns (c: RiskCounts)
    ensures c.low == Count(risks, InBucket(Low)) && c.medium == Count(risks, InBucket(Medium))
    ensures c.high == Count(risks, InBucket(High)) && c.critical == Count(risks, InBucket(Critical))
    ensures c.low + c.medium + c.high + c.critical == |risks|
  {
    c := RiskCounts(0, 0, 0, 0);
    var i := 0;
    while i < |risks|
      invariant 0 <= i <= |risks|
      invariant c.low == Count(risks[..i], InBucket(Low)) && c.medium == Count(risks[..i], InBucket(Medium))
      invariant c.high == Count(risks[..i], InBucket(High)) && c.critical == Count(risks[..i], InBucket(Critical))
      invariant c.low + c.medium + c.high + c.critical == i
    {
      var r := risks[i];
      BucketStep(risks, i);
      var level := Bucket(Get(r, "residualScore"));
      if level == Critical {
        c := c.(critical := c.critical + 1);
      } else if level == High {
        c := c.(high := c.high + 1);
      } else if level == Medium {
        c := c.(medium := c.medium + 1);
      } else {
        c := c.(low := c.low + 1);
      }
      i := i + 1;
    }
    assert risks[..i] == risks;
  }

  /** One more assessment adds one to its own bucket and nothing to the
    * others. */
  lemma BucketStep(risks: seq<Record>, i: nat)
    requires i < |risks|
    ensures var b := Bucket(Get(risks[i], "residualScore"));
      Count(risks[..i + 1], InBucket(Low)) == Count(risks[..i], InBucket(Low)) + (if b == Low then 1 else 0) &&
      Count(risks[..i + 1], InBucket(Medium)) == Count(risks[..i], InBucket(Medium)) + (if b == Medium then 1 else 0) &&
      Count(risks[..i + 1], InBucket(High)) == Count(risks[..i], InBucket(High)) + (if b == High then 1 else 0) &&
      Count(risks[..i + 1], InBucket(Critical)) == Count(risks[..i], InBucket(Critical)) + (if b == Critical then 1 else 0)
  {
    var r := risks[i];
    assert risks[..i + 1] == risks[..i] + [r];
    CountConcat(risks[..i], [r], InBucket(Low));
    CountConcat(risks[..i], [r], InBucket(Medium));
    CountConcat(risks[..i], [r], InBucket(High));
    CountConcat(risks[..i], [r], InBucket(Critical));
  }

  /** `renderComplianceChart`: active records and all others, which
    * together are every training record. */
  function TrainingSplit(training: seq<Record>): (r: (nat, nat))
    ensures r.0 + r.1 == |training|
    ensures r.0 == Count(training, FieldIs("status", "Active"))
  {
    CountSplit(training, FieldIs("status", "Active"));
    (Count(training, FieldIs("status", "Active")), Count(training, Not(FieldIs("status", "Active"))))
  }

  /** An incident dated in absolute month `m` (`12 * year + month` in local
    * time, which `monthOf` gives for a time in milliseconds); an invalid
    * date matches no month. */
  function InMonth(monthOf: int -> int, m: int): Record -> bool
  {
    r => Get(r, "date").Date? && monthOf(Get(r, "date").ms) == m
  }

  /** An incident dated in one of the `n` months from `m0` on. */
  function InMonths(monthOf: int -> int, m0: int, n: nat): Record -> bool
  {
    r => Get(r, "date").Date? && m0 <= monthOf(Get(r, "date").ms) < m0 + n
  }

  function Sum(s: seq<nat>): nat
  {
    if s == [] then 0 else Sum(s[..|s| - 1]) + s[|s| - 1]
  }

  /** Counting one more month extends the running total by that month's
    * count. */
  lemma MonthStep(incidents: seq<Record>, monthOf: int -> int, first: int, counts: seq<nat>)
    requires Sum(counts) == Count(incidents, InMonths(monthOf, first, |counts|))
    ensures var count := Count(incidents, InMonth(monthOf, first + |counts|));
      Sum(counts + [count]) == Count(incidents, InMonths(monthOf, first, |counts| + 1))
  {
    var count := Count(incidents, InMonth(monthOf, first + |counts|));
    CountDisjoint(incidents, InMonths(monthOf, first, |counts|), InMonth(monthOf, first + |counts|),
                  InMonths(monthOf, first, |counts| + 1));
    assert (counts + [count])[..|counts|] == counts;
  }

  /** Two tests no element passes together count as their union does. */
  lemma {:induction false} CountDisjoint(s: seq<Record>, p: Record -> bool, q: Record -> bool, u: Record -> bool)
    requires forall x :: u(x) <==> (p(x) || q(x))
    requires forall x :: !(p(x) && q(x))
    ensures Count(s, p) + Count(s, q) == Count(s, u)
  {
    if s != [] {
      CountDisjoint(s[1..], p, q, u);
    }
  }

  /** `renderIncidentChart`'s loop over the last twelve months, oldest
    * first and ending with the current one: each count is the number of
    * incidents dated in that month, and the counts add up to the incidents
    * dated in the whole year, so never to more than there are. */
  method MonthlyIncidents(incidents: seq<Record>, monthOf: int -> int, now: int)
    returns (months: seq<int>, counts: seq<nat>)
    ensures |months| == 12 && |counts| == 12
    ensures forall j :: 0 <= j < 12 ==> months[j] == monthOf(now) - 11 + j
    ensures forall j :: 0 <= j < 12 ==> counts[j] == Count(incidents, InMonth(monthOf, months[j]))
    ensures Sum(counts) == Count(incidents, InMonths(monthOf, monthOf(now) - 11, 12))
    ensures Sum(counts) <= |incidents|
  {
    var first := monthOf(now) - 11;
    months, counts := [], [];
    CountNone(incidents, InMonths(monthOf, first, 0));
    var i := 11;
    while i >= 0
      invariant -1 <= i <= 11
      invariant |months| == |counts| == 11 - i
      invariant forall j :: 0 <= j < |months| ==> months[j] == first + j
      invariant forall j :: 0 <= j < |counts| ==> counts[j] == Count(incidents, InMonth(monthOf, first + j))
      invariant Sum(counts) == Count(incidents, InMonths(monthOf, first, |counts|))
    {
      var d := monthOf(now) - i;
      var count := Count(incidents, InMonth(monthOf, d));
      MonthStep(incidents, monthOf, first, counts);
      months, counts := months + [d], counts + [count];
      i := i - 1;
    }
  }
}

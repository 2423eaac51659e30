// The generated seed tables of the EHS application (data/demo-data.js):
// incidents with their investigations, one corrective action per incident,
// risk assessments with their residual risk, three training records per
// user with a status derived from the expiry date, work permits and
// inspection walks. Every `Math.random()` value is an input `u` with
// `0 <= u < 1`, every `randomDate()` an input date and the clock the input
// `now`.

module DemoData {
  import opened JsText
  import opened JsValue
  import EhsStore
  import IncidentsView
  import RisksView
  import TrainingView
  import InspectionsView
  import EwpView
  import ListView

  /** A value `Math.random()` can return. */
  predicate IsRandom(u: real)
  {
    0.0 <= u < 1.0
  }

  /** `Math.floor(u * n)` is an index of an `n`-element array. */
  lemma FloorIndexInRange(u: real, n: nat)
    requires IsRandom(u) && n > 0
    ensures 0 <= (u * n as real).Floor < n
  {
    var m := n as real;
    var x := u * m;
    RealProductSigns(u, m);
    RealProductSigns(1.0 - u, m);
    assert m - x == (1.0 - u) * m;
    assert x.Floor as real <= x < m;
  }

  /** Signs of a product of two reals, the second one positive. */
  lemma RealProductSigns(a: real, b: real)
    requires b > 0.0
    ensures a >= 0.0 ==> a * b >= 0.0
    ensures a > 0.0 ==> a * b > 0.0
  {
  }

  /** `getRandomItem(arr)`: `arr[Math.floor(u * arr.length)]`. */
  function Pick<T>(arr: seq<T>, u: real): (x: T)
    requires arr != [] && IsRandom(u)
    ensures x in arr
  {
    FloorIndexInRange(u, |arr|);
    arr[(u * |arr| as real).Floor]
  }

  /** The six users of the seed. */
  function User(id: int, name: string, role: string, email: string): Record
  {
    map["id" := IntV(id), "name" := Str(name), "role" := Str(role), "email" := Str(email)]
  }

  const Users: seq<Record> := [
    User(1, "Alice Smith", "Admin", "alice.smith@example.com"),
    User(2, "Bob Johnson", "Manager", "bob.johnson@example.com"),
    User(3, "Charlie Brown", "Employee", "charlie.brown@example.com"),
    User(4, "Diana Prince", "Employee", "diana.prince@example.com"),
    User(5, "Ethan Hunt", "Employee", "ethan.hunt@example.com"),
    User(6, "Fiona Glenanne", "Contractor", "fiona.glenanne@example.com")]

  predicate IsManager(u: Record)
  {
    Get(u, "role") == Str("Manager")
  }

  /** `users.filter(u => u.role === 'Manager')`: Bob Johnson alone. */
  function Managers(): (m: seq<Record>)
    ensures m == [Users[1]]
  {
    assert Users[1..][1..] == Users[2..];
    NoLaterManager();
    Filter(Users, IsManager)
  }

  /** Nobody after Bob Johnson is a manager. */
  lemma NoLaterManager()
    ensures Filter(Users[2..], IsManager) == []
  {
    var later := Users[2..];
    assert later == [Users[2], Users[3], Users[4], Users[5]];
    ListView.CountNone(later, IsManager);
  }

  const IncidentTypes: seq<string> := ["Slip/Trip/Fall", "Equipment", "Chemical", "Ergonomic", "Near-miss", "Fire", "Vehicle"]
  const Severities: seq<string> := ["First Aid", "Medical Treatment", "Recordable", "Fatality/Serious"]
  const IncidentStatuses: seq<string> := ["Reported", "Under Investigation", "Closed"]
  const Locations: seq<string> := ["Main Lobby", "Workshop Area A", "Workshop Area B", "Warehouse Section C",
                                   "Loading Bay", "Office Floor 2", "Parking Lot"]

  /** The random values and the date one incident is generated from. */
  datatype IncidentDraw = IncidentDraw(status: real, severity: real, kind: real, date: int,
                                       location: real, involved: real)

  predicate ValidIncidentDraw(d: IncidentDraw)
  {
    IsRandom(d.status) && IsRandom(d.severity) && IsRandom(d.kind) && IsRandom(d.location) &&
    IsRandom(d.involved)
  }

  /** An incident record of the seed, with its fields given. */
  function IncidentRecord(id: Value, title: Value, kind: Value, severity: Value, status: Value,
                          date: Value, location: Value, description: Value, involved: Value,
                          investigation: Value): (r: Record)
    ensures Get(r, "id") == id && Get(r, "severity") == severity && Get(r, "status") == status
    ensures Get(r, "involved") == involved && Get(r, "investigation") == investigation
  {
    map["id" := id, "title" := title, "type" := kind, "severity" := severity, "status" := status,
        "date" := date, "location" := location, "description" := description,
        "involved" := involved, "investigation" := investigation]
  }

  /** Incident `i` of the seed. */
  function SeedIncident(i: nat, d: IncidentDraw): Record
    requires ValidIncidentDraw(d)
  {
    var status := Pick(IncidentStatuses, d.status);
    var severity := Pick(Severities, d.severity);
    IncidentRecord(IntV(i + 1),
      Str("Incident #" + NatToString(i + 1)),
      Str(Pick(IncidentTypes, d.kind)),
      Str(if severity == "Near-miss" then "N/A" else severity),
      Str(status),
      Date(d.date),
      Str(Pick(Locations, d.location)),
      Str("This is a detailed description for incident #" + NatToString(i + 1) + "."),
      Arr([Get(Pick(Users, d.involved), "id")]),
      if status != "Reported" then
        Obj(map["rootCause" := Str("A root cause has been identified."), "actions" := Arr([IntV(i + 1)])])
      else Null)
  }

  /** `Array.from({ length: 18 }, ...)` of incidents. */
  function Incidents(draws: seq<IncidentDraw>): (r: seq<Record>)
    requires |draws| == 18 && forall i :: 0 <= i < 18 ==> ValidIncidentDraw(draws[i])
    ensures |r| == 18
  {
    seq(18, i requires 0 <= i < 18 => SeedIncident(i, draws[i]))
  }

  /** Seeded incident `i` has id `i + 1`, an investigation exactly when it
    * is past 'Reported' (one listing action `i + 1`), one of the four
    * severities (so never 'N/A': 'Near-miss' is a type, not a severity)
    * and one of the users involved. */
  lemma SeedIncidentShape(i: nat, d: IncidentDraw)
    requires ValidIncidentDraw(d)
    ensures var r := SeedIncident(i, d);
      Get(r, "id") == IntV(i + 1) &&
      IncidentsView.InvestigatedIffNotReported(r) &&
      (Get(r, "status") != Str("Reported") ==>
        Get(r, "investigation").Obj? &&
        Get(Get(r, "investigation").fields, "actions") == Arr([IntV(i + 1)])) &&
      Get(r, "severity") in {Str("First Aid"), Str("Medical Treatment"), Str("Recordable"), Str("Fatality/Serious")} &&
      Get(r, "involved").Arr? && |Get(r, "involved").items| == 1 &&
      exists u :: 0 <= u < |Users| && Get(r, "involved").items[0] == Get(Users[u], "id")
  {
    SeedIncidentFields(i, d);
    IncidentShape(SeedIncident(i, d), i, Pick(IncidentStatuses, d.status), Pick(Severities, d.severity),
                  Pick(Users, d.involved));
  }

  /** A record with the seed's id, status, severity, involved user and
    * investigation has the shape above. */
  lemma IncidentShape(r: Record, i: nat, status: string, severity: string, who: Record)
    requires severity in Severities && who in Users
    requires Get(r, "id") == IntV(i + 1) && Get(r, "status") == Str(status)
    requires Get(r, "severity") == Str(severity) && Get(r, "involved") == Arr([Get(who, "id")])
    requires Get(r, "investigation") == (if status != "Reported" then
        Obj(map["rootCause" := Str("A root cause has been identified."), "actions" := Arr([IntV(i + 1)])])
        else Null)
    ensures IncidentsView.InvestigatedIffNotReported(r)
    ensures Get(r, "status") != Str("Reported") ==>
        Get(r, "investigation").Obj? &&
        Get(Get(r, "investigation").fields, "actions") == Arr([IntV(i + 1)])
    ensures Get(r, "severity") in {Str("First Aid"), Str("Medical Treatment"), Str("Recordable"), Str("Fatality/Serious")}
    ensures exists u :: 0 <= u < |Users| && Get(r, "involved").items[0] == Get(Users[u], "id")
  {
    if status != "Reported" {
      var inv := Get(r, "investigation").fields;
      assert Get(inv, "actions") == Arr([IntV(i + 1)]);
    } else {
      assert !Truthy(Null);
    }
    var k :| 0 <= k < |Severities| && Severities[k] == severity;
    var u :| 0 <= u < |Users| && Users[u] == who;
    assert Get(r, "involved").items[0] == Get(Users[u], "id");
  }

  /** The fields of seeded incident `i` the lemma above is about. */
  lemma SeedIncidentFields(i: nat, d: IncidentDraw)
    requires ValidIncidentDraw(d)
    ensures var r := SeedIncident(i, d);
      var status := Pick(IncidentStatuses, d.status);
      Get(r, "id") == IntV(i + 1) &&
      Get(r, "status") == Str(status) &&
      Get(r, "severity") == Str(Pick(Severities, d.severity)) &&
      Get(r, "involved") == Arr([Get(Pick(Users, d.involved), "id")]) &&
      Get(r, "investigation") == (if status != "Reported" then
        Obj(map["rootCause" := Str("A root cause has been identified."), "actions" := Arr([IntV(i + 1)])])
        else Null)
  {
    assert Pick(Severities, d.severity) != "Near-miss";
  }

  /** Every seeded incident has the shape above, and the ids are distinct. */
  lemma SeedIncidentsShape(draws: seq<IncidentDraw>)
    requires |draws| == 18 && forall i :: 0 <= i < 18 ==> ValidIncidentDraw(draws[i])
    ensures var r := Incidents(draws);
      IdTable(r) && EhsStore.UniqueIds(r) &&
      forall i :: 0 <= i < 18 ==>
        Get(r[i], "id") == IntV(i + 1) && IncidentsView.InvestigatedIffNotReported(r[i]) &&
        Get(r[i], "severity") != Str("N/A")
  {
    var r := Incidents(draws);
    forall i | 0 <= i < 18
      ensures Get(r[i], "id") == IntV(i + 1) && IncidentsView.InvestigatedIffNotReported(r[i]) &&
        Get(r[i], "severity") != Str("N/A")
    {
      SeedIncidentShape(i, draws[i]);
    }
  }

  /** The random values and the clock one corrective action is generated
    * from. */
  datatype ActionDraw = ActionDraw(assignee: real, status: real)

  predicate ValidActionDraw(d: ActionDraw)
  {
    IsRandom(d.assignee) && IsRandom(d.status)
  }

  /** Two weeks, in milliseconds. */
  const TwoWeeks: int := 14 * 24 * 60 * 60 * 1000

  /** Corrective action `i`: it points at incident id `i + 1`, is assigned
    * to a manager and is due two weeks from now. */
  function SeedAction(i: nat, d: ActionDraw, now: int): Record
    requires ValidActionDraw(d)
  {
    ActionRecord(IntV(i + 1), IntV(i + 1),
      Str("Corrective action for incident #" + NatToString(i + 1) + "."),
      Get(Pick(Managers(), d.assignee), "id"),
      Date(now + TwoWeeks),
      Str(Pick(["Pending", "In Progress", "Completed"], d.status)))
  }

  /** A corrective action of the seed, with its fields given. */
  function ActionRecord(id: Value, incidentId: Value, description: Value, assignee: Value,
                        dueDate: Value, status: Value): (r: Record)
    ensures Get(r, "incidentId") == incidentId && Get(r, "assignee") == assignee
    ensures Get(r, "dueDate") == dueDate
  {
    map["id" := id, "incidentId" := incidentId, "description" := description,
        "assignee" := assignee, "dueDate" := dueDate, "status" := status]
  }

  function CorrectiveActions(draws: seq<ActionDraw>, now: int): (r: seq<Record>)
    requires |draws| == 18 && forall i :: 0 <= i < 18 ==> ValidActionDraw(draws[i])
    ensures |r| == 18
  {
    seq(18, i requires 0 <= i < 18 => SeedAction(i, draws[i], now))
  }

  /** Picking among the managers always picks Bob Johnson, user 2. */
  lemma PickManager(u: real)
    requires IsRandom(u)
    ensures Pick(Managers(), u) == Users[1]
    ensures Get(Pick(Managers(), u), "id") == IntV(2)
  {
    UserIds();
  }

  lemma UserIds()
    ensures forall k :: 0 <= k < |Users| ==> Get(Users[k], "id") == IntV(k + 1)
  {
  }

  /** Action `i` points at incident `i + 1` and is assigned to Bob Johnson,
    * the only manager. */
  lemma SeedActionShape(i: nat, d: ActionDraw, now: int)
    requires ValidActionDraw(d)
    ensures Get(SeedAction(i, d, now), "incidentId") == IntV(i + 1)
    ensures Get(SeedAction(i, d, now), "assignee") == IntV(2)
    ensures Get(SeedAction(i, d, now), "dueDate") == Date(now + TwoWeeks)
  {
    PickManager(d.assignee);
  }

  /** Every seeded action is assigned to the manager, and each incident's
    * joined actions are exactly its own action: the one with the same
    * index. */
  lemma SeedActionsLink(idraws: seq<IncidentDraw>, adraws: seq<ActionDraw>, now: int)
    requires |idraws| == 18 && forall i :: 0 <= i < 18 ==> ValidIncidentDraw(idraws[i])
    requires |adraws| == 18 && forall i :: 0 <= i < 18 ==> ValidActionDraw(adraws[i])
    ensures var actions := CorrectiveActions(adraws, now);
      (forall i :: 0 <= i < 18 ==> Get(actions[i], "assignee") == IntV(2)) &&
      forall k, j :: 0 <= k < 18 && 0 <= j < 18 ==>
        (actions[j] in EhsStore.ActionsOf(actions, Get(Incidents(idraws)[k], "id")) <==> j == k)
  {
    var actions := CorrectiveActions(adraws, now);
    var incidents := Incidents(idraws);
    forall i | 0 <= i < 18
      ensures Get(actions[i], "incidentId") == IntV(i + 1) && Get(actions[i], "assignee") == IntV(2)
    {
      SeedActionShape(i, adraws[i], now);
    }
    forall k, j | 0 <= k < 18 && 0 <= j < 18
      ensures actions[j] in EhsStore.ActionsOf(actions, Get(incidents[k], "id")) <==> j == k
    {
      var id := Get(incidents[k], "id");
      SeedIncidentShape(k, idraws[k]);
      var joined := EhsStore.ActionsOf(actions, id);
      if actions[j] in joined {
        var m :| 0 <= m < |joined| && joined[m] == actions[j];
        assert StrictEq(Get(actions[j], "incidentId"), id);
      }
      if j == k {
        assert StrictEq(Get(actions[j], "incidentId"), id);
      }
    }
  }

  /** `Math.ceil(u * n)`, the likelihood and severity draw as written. */
  function CeilDraw(u: real, n: nat): int
  {
    -((-(u * n as real)).Floor)
  }

  /** The written draw lies in 0..`n`, and is 0 exactly when `Math.random()`
    * returned 0. */
  lemma CeilDrawInRange(u: real, n: nat)
    requires IsRandom(u) && n > 0
    ensures 0 <= CeilDraw(u, n) <= n
    ensures CeilDraw(u, n) == 0 <==> u == 0.0
  {
    var m := n as real;
    var x := u * m;
    RealProductSigns(u, m);
    RealProductSigns(1.0 - u, m);
    assert m - x == (1.0 - u) * m;
    var f := (-x).Floor;
    assert f as real <= -x < f as real + 1.0;
    if u > 0.0 {
      assert x > 0.0;
    }
  }

  /** `Math.floor(u * n) + 1`, the draw evidently intended for a 1-to-`n`
    * scale. */
  function ScaleDraw(u: real, n: nat): (k: int)
    requires IsRandom(u) && n > 0
    ensures 1 <= k <= n
  {
    FloorIndexInRange(u, n);
    (u * n as real).Floor + 1
  }

  /** `Math.max(1, Math.floor(L / 2))`: controls halve the likelihood. */
  function ResidualLikelihood(l: int): int
  {
    Max(1, if l >= 0 then l / 2 else -((-l + 1) / 2))
  }

  /** The random values and the date one risk assessment is generated from. */
  datatype RiskDraw = RiskDraw(likelihood: real, severity: real, category: real, status: real, date: int)

  predicate ValidRiskDraw(d: RiskDraw)
  {
    IsRandom(d.likelihood) && IsRandom(d.severity) && IsRandom(d.category) && IsRandom(d.status)
  }

  const RiskCategories: seq<string> := ["Physical", "Chemical", "Biological", "Ergonomic", "Psychosocial"]
  const RiskStatuses: seq<string> := ["Adequate", "Needs Improvement", "Inadequate"]

  /** Risk assessment `i` from its two ratings. */
  function RiskRecord(i: nat, l: int, s: int, d: RiskDraw): Record
    requires ValidRiskDraw(d)
  {
    var rl := ResidualLikelihood(l);
    map["id" := IntV(i + 1), "hazard" := Str("Hazard Example #" + NatToString(i + 1)),
        "category" := Str(Pick(RiskCategories, d.category)),
        "initialLikelihood" := IntV(l), "initialSeverity" := IntV(s),
        "initialScore" := IntV(RisksView.Score(l, s)),
        "controls" := Str("Standard control measures are in place."),
        "residualLikelihood" := IntV(rl), "residualSeverity" := IntV(s),
        "residualScore" := IntV(RisksView.Score(rl, s)),
        "status" := Str(Pick(RiskStatuses, d.status)),
        "assessmentDate" := Date(d.date)]
  }

  /** Risk assessment `i` as written, with `Math.ceil(Math.random() * 5)`. */
  function SeedRiskAsWritten(i: nat, d: RiskDraw): Record
    requires ValidRiskDraw(d)
  {
    RiskRecord(i, CeilDraw(d.likelihood, 5), CeilDraw(d.severity, 5), d)
  }

  /** `Math.random()` may return 0, and then the written draw rates the
    * likelihood 0: the initial score is 0 but the residual likelihood is
    * raised to 1, so the controls make the risk worse. */
  lemma ZeroDrawRaisesRiskAsWritten(i: nat, d: RiskDraw)
    requires ValidRiskDraw(d) && d.likelihood == 0.0 && d.severity > 0.0
    ensures var r := SeedRiskAsWritten(i, d);
      r["initialScore"] == IntV(0) && r["residualScore"].num.n > 0
  {
    var s := CeilDraw(d.severity, 5);
    assert 0.0 < d.severity * 5.0;
    assert s >= 1;
    assert CeilDraw(0.0, 5) == 0;
  }

  /** Risk assessment `i` with both ratings drawn on the 1-to-5 scale. */
  function SeedRisk(i: nat, d: RiskDraw): Record
    requires ValidRiskDraw(d)
  {
    RiskRecord(i, ScaleDraw(d.likelihood, 5), ScaleDraw(d.severity, 5), d)
  }

  /** With ratings from 1 to 5 the residual likelihood lies between 1 and
    * the initial likelihood, so the residual score never exceeds the
    * initial one, and both lie in 1..25. */
  lemma ResidualWithinInitial(l: int, s: int)
    requires 1 <= l <= 5 && 1 <= s <= 5
    ensures 1 <= ResidualLikelihood(l) <= l
    ensures 1 <= RisksView.Score(ResidualLikelihood(l), s) <= RisksView.Score(l, s) <= 25
  {
    RisksView.ScoreRange(ResidualLikelihood(l), s, l, s);
  }

  /** The twelve seeded risk assessments, drawn as written. */
  function RiskAssessments(draws: seq<RiskDraw>): (r: seq<Record>)
    requires |draws| == 12 && forall i :: 0 <= i < 12 ==> ValidRiskDraw(draws[i])
    ensures |r| == 12
    ensures forall i :: 0 <= i < 12 ==> r[i] == SeedRiskAsWritten(i, draws[i])
  {
    seq(12, i requires 0 <= i < 12 => SeedRiskAsWritten(i, draws[i]))
  }

  /** As written, one seeded rating pair lies in 0..5, and the residual
    * score lies in 1..25 and never exceeds the initial score unless a draw
    * was exactly 0. */
  lemma SeedRiskAsWrittenBounds(i: nat, d: RiskDraw)
    requires ValidRiskDraw(d)
    ensures var r := SeedRiskAsWritten(i, d);
      r["initialLikelihood"].Number? && r["initialSeverity"].Number? &&
      0 <= r["initialLikelihood"].num.n <= 5 && 0 <= r["initialSeverity"].num.n <= 5 &&
      (d.likelihood != 0.0 && d.severity != 0.0 ==>
        r["residualScore"].Number? && r["initialScore"].Number? &&
        1 <= r["residualScore"].num.n <= r["initialScore"].num.n <= 25)
  {
    CeilDrawInRange(d.likelihood, 5);
    CeilDrawInRange(d.severity, 5);
    if d.likelihood != 0.0 && d.severity != 0.0 {
      ResidualWithinInitial(CeilDraw(d.likelihood, 5), CeilDraw(d.severity, 5));
    }
  }

  /** As written, each seeded rating lies in 0..5, and the residual score
    * lies in 1..25 and never exceeds the initial score unless a draw was
    * exactly 0. */
  lemma SeedRisksAsWrittenBounds(draws: seq<RiskDraw>)
    requires |draws| == 12 && forall i :: 0 <= i < 12 ==> ValidRiskDraw(draws[i])
    ensures forall i :: 0 <= i < 12 ==>
      var r := RiskAssessments(draws)[i];
      r["initialLikelihood"].Number? && r["initialSeverity"].Number? &&
      0 <= r["initialLikelihood"].num.n <= 5 && 0 <= r["initialSeverity"].num.n <= 5 &&
      (draws[i].likelihood != 0.0 && draws[i].severity != 0.0 ==>
        r["residualScore"].Number? && r["initialScore"].Number? &&
        1 <= r["residualScore"].num.n <= r["initialScore"].num.n <= 25)
  {
    forall i | 0 <= i < 12
      ensures var r := RiskAssessments(draws)[i];
        r["initialLikelihood"].Number? && r["initialSeverity"].Number? &&
        0 <= r["initialLikelihood"].num.n <= 5 && 0 <= r["initialSeverity"].num.n <= 5 &&
        (draws[i].likelihood != 0.0 && draws[i].severity != 0.0 ==>
          r["residualScore"].Number? && r["initialScore"].Number? &&
          1 <= r["residualScore"].num.n <= r["initialScore"].num.n <= 25)
    {
      SeedRiskAsWrittenBounds(i, draws[i]);
    }
  }

  /** The twelve risk assessments with ratings drawn on the 1-to-5 scale. */
  function CorrectedRiskAssessments(draws: seq<RiskDraw>): (r: seq<Record>)
    requires |draws| == 12 && forall i :: 0 <= i < 12 ==> ValidRiskDraw(draws[i])
    ensures |r| == 12
    ensures forall i :: 0 <= i < 12 ==> r[i] == SeedRisk(i, draws[i])
  {
    seq(12, i requires 0 <= i < 12 => SeedRisk(i, draws[i]))
  }

  /** With the corrected draw every seeded assessment's residual score lies
    * in 1..25 and never exceeds its initial score. */
  lemma SeedRisksResidual(draws: seq<RiskDraw>)
    requires |draws| == 12 && forall i :: 0 <= i < 12 ==> ValidRiskDraw(draws[i])
    ensures forall i :: 0 <= i < 12 ==>
      var r := CorrectedRiskAssessments(draws)[i];
      r["residualScore"].Number? && r["initialScore"].Number? &&
      1 <= r["residualScore"].num.n <= r["initialScore"].num.n <= 25
  {
    forall i | 0 <= i < 12
      ensures var r := CorrectedRiskAssessments(draws)[i];
        r["residualScore"].Number? && r["initialScore"].Number? &&
        1 <= r["residualScore"].num.n <= r["initialScore"].num.n <= 25
    {
      ResidualWithinInitial(ScaleDraw(draws[i].likelihood, 5), ScaleDraw(draws[i].severity, 5));
    }
  }

  /** One day, in milliseconds. */
  const Day: int := 24 * 60 * 60 * 1000

  /** The status of a certification expiring at `expiry` on day `today`:
    * `(expiry - today) / day < 30` on exact numbers. */
  function TrainingStatus(expiry: int, today: int): (s: string)
    ensures s == "Expired" <==> expiry < today
    ensures s == "Expiring Soon" <==> today <= expiry < today + 30 * Day
    ensures s == "Active" <==> today + 30 * Day <= expiry
  {
    if expiry < today then "Expired"
    else if expiry - today < 30 * Day then "Expiring Soon"
    else "Active"
  }

  /** The random value and the completion date of one training record. */
  datatype TrainingDraw = TrainingDraw(course: real, completion: int)

  const TrainingCourses: seq<string> := ["Safety Orientation", "Equipment-specific: Forklift", "Regulatory: COSHH",
                                         "Emergency Response", "Fire Safety"]

  /** Record `i` of user `userId`; `nextYear` is `setFullYear(getFullYear() + 1)`
    * in the local calendar. */
  function TrainingRecord(userId: int, i: nat, d: TrainingDraw, nextYear: int -> int, today: int): Record
    requires IsRandom(d.course)
  {
    var expiry := nextYear(d.completion);
    map["id" := IntV(userId * 10 + i), "userId" := IntV(userId),
        "courseName" := Str(Pick(TrainingCourses, d.course)),
        "completionDate" := Date(d.completion), "expiryDate" := Date(expiry),
        "status" := Str(TrainingStatus(expiry, today))]
  }

  /** `users.flatMap(user => Array.from({ length: 3 }, ...))`: record `k`
    * belongs to user `k / 3` and is that user's record `k % 3`. */
  function TrainingRecords(draws: seq<TrainingDraw>, nextYear: int -> int, today: int): (r: seq<Record>)
    requires |draws| == 3 * |Users| && forall k :: 0 <= k < |draws| ==> IsRandom(draws[k].course)
    ensures |r| == 3 * |Users|
  {
    seq(3 * |Users|, k requires 0 <= k < 3 * |Users| =>
      TrainingRecord(Get(Users[k / 3], "id").num.n, k % 3, draws[k], nextYear, today))
  }

  /** Record `i` of a user has id `user.id * 10 + i` and a status the
    * training pie shows. */
  lemma TrainingRecordShape(userId: int, i: nat, d: TrainingDraw, nextYear: int -> int, today: int)
    requires IsRandom(d.course)
    ensures Get(TrainingRecord(userId, i, d, nextYear, today), "id") == IntV(userId * 10 + i)
    ensures TrainingView.KnownStatus(TrainingRecord(userId, i, d, nextYear, today))
  {
  }

  /** Ten ids per user: `(u + 1) * 10 + i` with `i < 3` tells the users and
    * the records apart. */
  lemma TrainingIdsDistinct(k: nat, m: nat)
    requires k < m
    ensures (k / 3 + 1) * 10 + k % 3 != (m / 3 + 1) * 10 + m % 3
  {
    if k / 3 == m / 3 {
      assert k % 3 != m % 3;
    } else {
      assert k / 3 < m / 3;
    }
  }

  /** The seeded training ids are distinct across users and records, and
    * every status is one the training pie shows, so its three slices add up
    * to all eighteen records. */
  lemma SeedTrainingShape(draws: seq<TrainingDraw>, nextYear: int -> int, today: int)
    requires |draws| == 3 * |Users| && forall k :: 0 <= k < |draws| ==> IsRandom(draws[k].course)
    ensures var r := TrainingRecords(draws, nextYear, today);
      EhsStore.UniqueIds(r) &&
      (forall k :: 0 <= k < |r| ==> TrainingView.KnownStatus(r[k])) &&
      var pie := TrainingView.Pie(r);
      pie.active + pie.expiring + pie.expired == 18
  {
    var r := TrainingRecords(draws, nextYear, today);
    SeedTrainingRecords(draws, nextYear, today);
    forall k, m | 0 <= k < m < |r| ensures Get(r[k], "id") != Get(r[m], "id") {
      TrainingIdsDistinct(k, m);
    }
  }

  /** Record `k` of the seed has id `(k / 3 + 1) * 10 + k % 3` and a status
    * the pie shows. */
  lemma SeedTrainingRecords(draws: seq<TrainingDraw>, nextYear: int -> int, today: int)
    requires |draws| == 3 * |Users| && forall k :: 0 <= k < |draws| ==> IsRandom(draws[k].course)
    ensures var r := TrainingRecords(draws, nextYear, today);
      forall k :: 0 <= k < |r| ==>
        Get(r[k], "id") == IntV((k / 3 + 1) * 10 + k % 3) && TrainingView.KnownStatus(r[k])
  {
    var r := TrainingRecords(draws, nextYear, today);
    UserIds();
    forall k | 0 <= k < |r|
      ensures Get(r[k], "id") == IntV((k / 3 + 1) * 10 + k % 3) && TrainingView.KnownStatus(r[k])
    {
      TrainingRecordShape(k / 3 + 1, k % 3, draws[k], nextYear, today);
    }
  }

  const PermitTypes: seq<string> := ["Hot Work", "Confined Space", "LOTO", "General"]

  /** Eight hours, in milliseconds. */
  const EightHours: int := 8 * 60 * 60 * 1000

  /** The random values and the start date of one work permit. */
  datatype PermitDraw = PermitDraw(kind: real, location: real, applicant: real, validFrom: int, status: real)

  predicate ValidPermitDraw(d: PermitDraw)
  {
    IsRandom(d.kind) && IsRandom(d.location) && IsRandom(d.applicant) && IsRandom(d.status)
  }

  function SeedPermit(i: nat, d: PermitDraw, now: int): Record
    requires ValidPermitDraw(d)
  {
    map["id" := IntV(i + 1), "type" := Str(Pick(PermitTypes, d.kind)),
        "location" := Str(Pick(Locations, d.location)),
        "applicantId" := Get(Pick(Users, d.applicant), "id"),
        "validFrom" := Date(d.validFrom), "validTo" := Date(now + EightHours),
        "status" := Str(Pick(["Active", "Completed", "Expired/Cancelled"], d.status))]
  }

  function WorkPermits(draws: seq<PermitDraw>, now: int): (r: seq<Record>)
    requires |draws| == 15 && forall i :: 0 <= i < 15 ==> ValidPermitDraw(draws[i])
    ensures |r| == 15
  {
    seq(15, i requires 0 <= i < 15 => SeedPermit(i, draws[i], now))
  }

  /** No seeded permit is 'Pending', so none carries the warning badge; every
    * one ends eight hours from now. */
  lemma SeedPermitsNeverPending(draws: seq<PermitDraw>, now: int)
    requires |draws| == 15 && forall i :: 0 <= i < 15 ==> ValidPermitDraw(draws[i])
    ensures forall i :: 0 <= i < 15 ==>
      EwpView.StatusBadge(Get(WorkPermits(draws, now)[i], "status")) != "warning" &&
      Get(WorkPermits(draws, now)[i], "validTo") == Date(now + EightHours)
  {
    forall i | 0 <= i < 15
      ensures EwpView.StatusBadge(Get(WorkPermits(draws, now)[i], "status")) != "warning"
    {
      var s := Pick(["Active", "Completed", "Expired/Cancelled"], draws[i].status);
      assert s in ["Active", "Completed", "Expired/Cancelled"];
    }
  }

  /** The random values and the date of one inspection walk. */
  datatype WalkDraw = WalkDraw(date: int, inspector: real, findings: real, status: real)

  predicate ValidWalkDraw(d: WalkDraw)
  {
    IsRandom(d.inspector) && IsRandom(d.findings) && IsRandom(d.status)
  }

  /** An inspection walk of the seed, with its fields given. */
  function WalkRecord(id: Value, title: Value, date: Value, inspectorId: Value, findings: Value,
                      status: Value): (r: Record)
    ensures "findings" in r && r["findings"] == findings
    ensures "inspectorId" in r && r["inspectorId"] == inspectorId
  {
    map["id" := id, "title" := title, "date" := date, "inspectorId" := inspectorId,
        "findings" := findings, "status" := status]
  }

  function SeedWalk(i: nat, d: WalkDraw): Record
    requires ValidWalkDraw(d)
  {
    FloorIndexInRange(d.findings, 10);
    WalkRecord(IntV(i + 1), Str("Scheduled Safety Walk #" + NatToString(i + 1)),
      Date(d.date), Get(Pick(Managers(), d.inspector), "id"),
      IntV((d.findings * 10.0).Floor + 5),
      Str(Pick(["Completed", "In Progress"], d.status)))
  }

  function Inspections(draws: seq<WalkDraw>): (r: seq<Record>)
    requires |draws| == 22 && forall i :: 0 <= i < 22 ==> ValidWalkDraw(draws[i])
    ensures |r| == 22
  {
    seq(22, i requires 0 <= i < 22 => SeedWalk(i, draws[i]))
  }

  /** Walk `i` has 5 to 14 findings, so its details report issues and cross
    * the walkways item, and the manager inspects it. */
  lemma SeedWalkShape(i: nat, d: WalkDraw)
    requires ValidWalkDraw(d)
    ensures var w := SeedWalk(i, d);
      w["findings"].Number? && 5 <= w["findings"].num.n <= 14 &&
      InspectionsView.WalkwaysMark(w["findings"]) == "❌" &&
      w["inspectorId"] == IntV(2)
  {
    FloorIndexInRange(d.findings, 10);
    PickManager(d.inspector);
  }

  /** Every seeded walk has the shape above. */
  lemma SeedWalksHaveIssues(draws: seq<WalkDraw>)
    requires |draws| == 22 && forall i :: 0 <= i < 22 ==> ValidWalkDraw(draws[i])
    ensures forall i :: 0 <= i < 22 ==>
      var w := Inspections(draws)[i];
      w["findings"].Number? && 5 <= w["findings"].num.n <= 14 &&
      InspectionsView.WalkwaysMark(w["findings"]) == "❌" &&
      w["inspectorId"] == IntV(2)
  {
    forall i | 0 <= i < 22
      ensures var w := Inspections(draws)[i];
        w["findings"].Number? && 5 <= w["findings"].num.n <= 14 &&
        InspectionsView.WalkwaysMark(w["findings"]) == "❌" &&
        w["inspectorId"] == IntV(2)
    {
      SeedWalkShape(i, draws[i]);
    }
  }
}

// The in-memory application store of the EHS front end (js/store.js): one
// table of records per entity, a list of change listeners that every
// mutation notifies in registration order, getters that join related tables,
// and the add/update operations with their id rules.

module EhsStore {
  import opened JsText
  import opened JsValue
  import StableSort

  /** The tables of the application state. */
  datatype Table =
    | Users | Incidents | CorrectiveActions | RiskAssessments | Checklists
    | AuditRecords | ComplianceRecords | Inspections | Contractors
    | TrainingRecords | WorkPermits

  /** A subscribed listener; JavaScript compares listener functions by
    * reference, the model by this token. */
  type ListenerId = nat

  /** The outcome of `getIncidentById`: the joined record, `null`, or the
    * TypeError thrown when the incident's `involved` is not an array. */
  datatype Lookup = Found(rec: Record) | NotFound | Throws

  /** All ids of the table pairwise distinct. */
  predicate UniqueIds(t: seq<Record>)
  {
    forall i, j :: 0 <= i < j < |t| ==> Get(t[i], "id") != Get(t[j], "id")
  }

  /** `{ ...input, id: newId }`, then the date field an operation stamps. */
  function NewRecord(input: Record, id: Num, stamp: Option<string>, now: int): (r: Record)
    requires stamp != Some("id")
    ensures "id" in r && r["id"] == Number(id) && HasNumId(r)
    ensures stamp.Some? ==> stamp.value in r && r[stamp.value] == Date(now)
    ensures forall k :: k in input && k != "id" && Some(k) != stamp ==> k in r && r[k] == input[k]
    ensures forall k :: k in r ==> k in input || k == "id" || Some(k) == stamp
  {
    var withId := input["id" := Number(id)];
    match stamp
    case None => withId
    case Some(key) =>
      assert key != "id";
      withId[key := Date(now)]
  }

  /** Appending a record with a fresh id keeps ids distinct. */
  lemma AppendFreshKeepsUnique(t: seq<Record>, r: Record)
    requires UniqueIds(t)
    requires forall i :: 0 <= i < |t| ==> Get(t[i], "id") != Get(r, "id")
    ensures UniqueIds(t + [r])
  {
    var u := t + [r];
    forall i, j | 0 <= i < j < |u| ensures Get(u[i], "id") != Get(u[j], "id") {
      if j < |t| { assert u[i] == t[i] && u[j] == t[j]; }
      else { assert u[i] == t[i] && u[j] == r; }
    }
  }

  /** Tables with the guarded id rule keep their ids distinct under every add. */
  lemma FlooredAddKeepsUnique(t: seq<Record>, input: Record, stamp: Option<string>, now: int)
    requires IdTable(t) && UniqueIds(t)
    requires stamp != Some("id")
    ensures UniqueIds(t + [NewRecord(input, NextIdFloored(t), stamp, now)])
  {
    NextIdFlooredFresh(t);
    var r := NewRecord(input, NextIdFloored(t), stamp, now);
    assert Get(r, "id") == Number(NextIdFloored(t));
    AppendFreshKeepsUnique(t, r);
  }

  /** With the unguarded rule, two records added to an empty table both get
    * the id -Infinity. */
  lemma UnflooredAddTwiceOnEmpty(a: Record, b: Record, stamp: Option<string>, now: int)
    requires stamp != Some("id")
    ensures var t1 := [NewRecord(a, NextIdUnfloored([]), stamp, now)];
      IdTable(t1) &&
      var t2 := t1 + [NewRecord(b, NextIdUnfloored(t1), stamp, now)];
      t2[0]["id"] == t2[1]["id"] == Number(NegInf) && !UniqueIds(t2)
  {
    var t1 := [NewRecord(a, NextIdUnfloored([]), stamp, now)];
    assert MaxId(t1) == NegInf;
  }

  /** `{ ...rows[k], ...updates }` at the first row whose id is
    * `parseInt(idText)`; the rows unchanged when there is none. */
  function MergeById(rows: seq<Record>, idText: string, updates: Record): (r: seq<Record>)
    ensures |r| == |rows|
    ensures FindById(rows, idText).None? ==> r == rows
    ensures FindById(rows, idText).Some? ==>
      var k := FindById(rows, idText).value;
      r[k] == rows[k] + updates &&
      forall i :: 0 <= i < |rows| && i != k ==> r[i] == rows[i]
  {
    match FindById(rows, idText)
    case None => rows
    case Some(k) => rows[k := rows[k] + updates]
  }

  /** A merge whose updates carry no id, or a numeric one, keeps every record
    * id-bearing. */
  lemma MergeKeepsIdTable(rows: seq<Record>, idText: string, updates: Record)
    requires IdTable(rows)
    requires "id" in updates ==> updates["id"].Number?
    ensures IdTable(MergeById(rows, idText, updates))
  {
  }

  /** Merging the same updates twice is the same as merging them once. */
  lemma MergeIdempotent(rows: seq<Record>, idText: string, updates: Record)
    requires "id" !in updates
    ensures MergeById(MergeById(rows, idText, updates), idText, updates) ==
      MergeById(rows, idText, updates)
  {
    var once := MergeById(rows, idText, updates);
    match FindById(rows, idText)
    case None =>
    case Some(k) =>
      var n := ParseInt(idText).value;
      assert Get(once[k], "id") == Get(rows[k], "id");
      assert forall j :: 0 <= j < k ==> once[j] == rows[j];
      assert FindById(once, idText) == Some(k) by {
        assert FindFirst(once, (x: Record) => IdIs(x, n)) == Some(k) by {
          FindFirstSame(rows, once, (x: Record) => IdIs(x, n), k);
        }
      }
      assert once[k] == rows[k] + updates;
      MergeTwice(rows[k], updates);
      assert MergeById(once, idText, updates) == once[k := once[k] + updates];
  }

  /** `Object.assign` with the same updates a second time adds nothing. */
  lemma MergeTwice(r: Record, updates: Record)
    ensures (r + updates) + updates == r + updates
  {
    var once := r + updates;
    assert (once + updates).Keys == once.Keys;
    forall key | key in once ensures (once + updates)[key] == once[key] {
    }
  }

  /** `find` gives the same answer on two sequences that agree on the prefix
    * up to and including the match and on the predicate at the match. */
  lemma {:induction false} FindFirstSame<T>(a: seq<T>, b: seq<T>, p: T -> bool, k: nat)
    requires FindFirst(a, p) == Some(k) && |a| == |b|
    requires forall j :: 0 <= j < k ==> a[j] == b[j]
    requires p(b[k])
    ensures FindFirst(b, p) == Some(k)
  {
    if k > 0 {
      assert !p(a[0]) && !p(b[0]);
      assert FindFirst(a[1..], p) == Some(k - 1);
      FindFirstSame(a[1..], b[1..], p, k - 1);
    }
  }

  /** The corrective actions of an incident: those whose `incidentId` is
    * strictly equal to the incident's id, in table order. */
  function ActionsOf(actions: seq<Record>, incidentId: Value): (r: seq<Record>)
    ensures |r| <= |actions|
    ensures forall i :: 0 <= i < |r| ==> r[i] in actions && StrictEq(Get(r[i], "incidentId"), incidentId)
    ensures forall i :: 0 <= i < |actions| && StrictEq(Get(actions[i], "incidentId"), incidentId) ==> actions[i] in r
  {
    Filter(actions, (a: Record) => StrictEq(Get(a, "incidentId"), incidentId))
  }

  /** The actions of an incident keep the table's order: an action appended
    * to the table comes last among them, if it belongs to the incident. */
  lemma ActionsOfAppend(actions: seq<Record>, a: Record, incidentId: Value)
    ensures ActionsOf(actions + [a], incidentId) ==
      ActionsOf(actions, incidentId) + (if StrictEq(Get(a, "incidentId"), incidentId) then [a] else [])
  {
    var p := (a: Record) => StrictEq(Get(a, "incidentId"), incidentId);
    FilterConcat(actions, [a], p);
    assert [a][1..] == [];
  }

  /** Each action of the incident occurs among its actions as often as in
    * the table, and no other action occurs. */
  lemma ActionsOfMultiplicity(actions: seq<Record>, incidentId: Value, a: Record)
    ensures multiset(ActionsOf(actions, incidentId))[a] ==
      if StrictEq(Get(a, "incidentId"), incidentId) then multiset(actions)[a] else 0
  {
    FilterMultiplicity(actions, (a: Record) => StrictEq(Get(a, "incidentId"), incidentId), a);
  }

  /** The name joined in for a user reference: the `name` of the first user
    * whose id is strictly equal to the reference, otherwise the fallback. */
  function UserName(users: seq<Record>, ref: Value, fallback: string): (v: Value)
    ensures (forall i :: 0 <= i < |users| ==> !StrictEq(Get(users[i], "id"), ref)) ==>
      v == Str(fallback)
    ensures (exists i :: 0 <= i < |users| && StrictEq(Get(users[i], "id"), ref)) ==>
      exists i :: 0 <= i < |users| && StrictEq(Get(users[i], "id"), ref) &&
        v == Get(users[i], "name") &&
        forall j :: 0 <= j < i ==> !StrictEq(Get(users[j], "id"), ref)
  {
    match FindFirst(users, (u: Record) => StrictEq(Get(u, "id"), ref))
    case None => Str(fallback)
    case Some(i) => Get(users[i], "name")
  }

  /** Each row with the name of the user its `refKey` points to added under
    * `nameKey`: the join of `getTrainingRecords`, `getWorkPermits` and
    * `getInspections`. */
  function JoinNames(rows: seq<Record>, users: seq<Record>, refKey: string, nameKey: string): (r: seq<Record>)
    ensures |r| == |rows|
    ensures forall i :: 0 <= i < |rows| ==>
      r[i] == rows[i][nameKey := UserName(users, Get(rows[i], refKey), "Unknown User")]
  {
    if rows == [] then []
    else
      [rows[0][nameKey := UserName(users, Get(rows[0], refKey), "Unknown User")]] +
        JoinNames(rows[1..], users, refKey, nameKey)
  }

  /** The names of a list of user ids, 'Unknown' where there is no such user. */
  function NamesOf(ids: seq<Value>, users: seq<Record>): (r: seq<Value>)
    ensures |r| == |ids|
    ensures forall i :: 0 <= i < |ids| ==> r[i] == UserName(users, ids[i], "Unknown")
  {
    if ids == [] then [] else [UserName(users, ids[0], "Unknown")] + NamesOf(ids[1..], users)
  }

  /** Each corrective action with its assignee's name. */
  function WithAssigneeNames(actions: seq<Record>, users: seq<Record>): (r: seq<Record>)
    ensures |r| == |actions|
    ensures forall i :: 0 <= i < |actions| ==>
      r[i] == actions[i]["assigneeName" := UserName(users, Get(actions[i], "assignee"), "Unknown")]
  {
    if actions == [] then []
    else
      [actions[0]["assigneeName" := UserName(users, Get(actions[0], "assignee"), "Unknown")]] +
        WithAssigneeNames(actions[1..], users)
  }

  /** Records as array elements. */
  function AsValues(rows: seq<Record>): (r: seq<Value>)
    ensures |r| == |rows|
    ensures forall i :: 0 <= i < |rows| ==> r[i] == Obj(rows[i])
  {
    if rows == [] then [] else [Obj(rows[0])] + AsValues(rows[1..])
  }

  /** `getIncidents()`: every incident with its corrective actions. */
  function JoinActions(incidents: seq<Record>, actions: seq<Record>): (r: seq<Record>)
    ensures |r| == |incidents|
    ensures forall i :: 0 <= i < |incidents| ==>
      r[i] == incidents[i]["actions" := Arr(AsValues(ActionsOf(actions, Get(incidents[i], "id"))))]
  {
    if incidents == [] then []
    else
      [incidents[0]["actions" := Arr(AsValues(ActionsOf(actions, Get(incidents[0], "id"))))]] +
        JoinActions(incidents[1..], actions)
  }

  /** What `updateIncidentInvestigation` leaves in `incident.investigation`,
    * and whether it then throws. */
  datatype Written = Written(investigation: Value, threw: bool)

  /** `incident.investigation[type] = data` and the root-cause copy, step by
    * step: a falsy investigation first becomes `{}`; setting a property on
    * a primitive throws in strict mode before anything is written; a
    * five-whys call with null or undefined data throws when it reads
    * `data.rootCause`, after the investigation has been written, so the
    * write stays. Arrays and dates take the property, but the model has no
    * slot for it. */
  function NewInvestigation(current: Value, kind: string, data: Value): (r: Written)
    ensures current.Obj? || !Truthy(current) ==>
      var f := if current.Obj? then current.fields else map[];
      r.investigation.Obj? && kind in r.investigation.fields &&
      r.investigation.fields - {"rootCause"} == f[kind := data] - {"rootCause"}
    ensures r.threw <==>
      !(current.Obj? || current.Arr? || current.Date? || !Truthy(current)) ||
      (kind == "fiveWhys" && (data.Null? || data.Undefined?))
    ensures !(current.Obj? || current.Arr? || current.Date? || !Truthy(current)) ==>
      r.investigation == current
    ensures (current.Arr? || current.Date?) ==> r.investigation == current
    ensures r.investigation.Obj? && kind == "fiveWhys" && data.Obj? && Truthy(Get(data.fields, "rootCause")) ==>
      !r.threw && "rootCause" in data.fields && "rootCause" in r.investigation.fields &&
      r.investigation.fields["rootCause"] == data.fields["rootCause"]
    ensures r.investigation.Obj? && !(kind == "fiveWhys" && data.Obj? && Truthy(Get(data.fields, "rootCause"))) ==>
      kind in r.investigation.fields && r.investigation.fields[kind] == data
  {
    var base := if !Truthy(current) then Obj(map[]) else current;
    var stored :=
      match base
      case Obj(f) => Some(Obj(f[kind := data]))
      case Arr(_) => Some(base)
      case Date(_) => Some(base)
      case _ => None;
    if stored.None? then Written(current, true)
    else if kind == "fiveWhys" && (data.Null? || data.Undefined?) then Written(stored.value, true)
    else if kind == "fiveWhys" && data.Obj? && Truthy(Get(data.fields, "rootCause")) && stored.value.Obj? then
      Written(Obj(stored.value.fields["rootCause" := data.fields["rootCause"]]), false)
    else Written(stored.value, false)
  }

  /** A five-whys call without data on an incident that has no
    * investigation writes `{ fiveWhys: null }` and then throws; on an array
    * or date investigation it throws as well. */
  lemma MissingFiveWhysDataThrows(current: Value, data: Value)
    requires data.Null? || data.Undefined?
    ensures !Truthy(current) ==>
      NewInvestigation(current, "fiveWhys", data) == Written(Obj(map["fiveWhys" := data]), true)
    ensures current.Arr? || current.Date? ==>
      NewInvestigation(current, "fiveWhys", data) == Written(current, true)
  {
  }

  /** The first copy of `l` taken out of the listener list. */
  function RemoveFirst(ls: seq<ListenerId>, l: ListenerId): (r: seq<ListenerId>)
    ensures l in ls ==> |r| == |ls| - 1
    ensures l !in ls ==> r == ls
  {
    if ls == [] then []
    else if ls[0] == l then ls[1..]
    else
      assert l in ls ==> l in ls[1..];
      [ls[0]] + RemoveFirst(ls[1..], l)
  }

  /** What stays registered is the list less one copy of `l`. */
  lemma {:induction false} RemoveFirstTakesOne(ls: seq<ListenerId>, l: ListenerId)
    requires l in ls
    ensures multiset(RemoveFirst(ls, l)) == multiset(ls) - multiset{l}
  {
    assert ls == [ls[0]] + ls[1..];
    if ls[0] != l {
      RemoveFirstTakesOne(ls[1..], l);
    }
  }

  /** Removing the first copy is cutting out the first index holding it. */
  lemma {:induction false} RemoveFirstAt(ls: seq<ListenerId>, l: ListenerId, k: nat)
    requires k < |ls| && ls[k] == l && l !in ls[..k]
    ensures RemoveFirst(ls, l) == ls[..k] + ls[k + 1..]
  {
    if k == 0 {
      assert ls[..0] + ls[1..] == ls[1..];
    } else {
      var t := ls[1..];
      assert ls[0] != l by { assert ls[0] == ls[..k][0]; }
      assert t[..k - 1] == ls[1..k];
      assert ls[1..k] == ls[..k][1..];
      RemoveFirstAt(t, l, k - 1);
      RemoveFirstSkips(ls, l);
      assert [ls[0]] + t[..k - 1] == ls[..k];
      assert t[k..] == ls[k + 1..];
    }
  }

  lemma RemoveFirstSkips(ls: seq<ListenerId>, l: ListenerId)
    requires ls != [] && ls[0] != l
    ensures RemoveFirst(ls, l) == [ls[0]] + RemoveFirst(ls[1..], l)
  {
  }

  /** Unsubscribing a just-subscribed new listener restores the list. */
  lemma {:induction false} SubscribeUnsubscribe(ls: seq<ListenerId>, l: ListenerId)
    requires l !in ls
    ensures RemoveFirst(ls + [l], l) == ls
  {
    RemoveFirstAt(ls + [l], l, |ls|);
    assert (ls + [l])[..|ls|] == ls;
  }

  /** The table every operation keeps well formed: each present with records
    * that carry numeric ids. */
  predicate WellFormed(tables: map<Table, seq<Record>>)
  {
    forall t: Table :: t in tables && IdTable(tables[t])
  }

  /** Replacing one table by id-bearing records keeps the tables well formed. */
  lemma ReplaceKeepsWellFormed(tables: map<Table, seq<Record>>, t: Table, rows: seq<Record>)
    requires WellFormed(tables) && IdTable(rows)
    ensures WellFormed(tables[t := rows])
  {
    var after := tables[t := rows];
    forall u: Table ensures u in after && IdTable(after[u]) {
      if u != t {
        assert after[u] == tables[u];
      }
    }
  }

  class Store {
    var tables: map<Table, seq<Record>>
    var listeners: seq<ListenerId>
    /** The listener calls made so far, in order. */
    var calls: seq<ListenerId>

    predicate Valid()
      reads this
    {
      WellFormed(tables)
    }

    /** The state the application starts with (the demo data, possibly
      * merged with a saved state). */
    constructor (initial: map<Table, seq<Record>>)
      requires WellFormed(initial)
      ensures Valid() && tables == initial && listeners == [] && calls == []
    {
      tables := initial;
      listeners := [];
      calls := [];
    }

    /** `subscribe(listener)`. */
    method Subscribe(l: ListenerId)
      modifies this`listeners
      ensures listeners == old(listeners) + [l]
    {
      listeners := listeners + [l];
    }

    /** The function `subscribe` returns: removes the first registration of
      * the listener, if any. */
    method Unsubscribe(l: ListenerId)
      modifies this`listeners
      ensures listeners == RemoveFirst(old(listeners), l)
    {
      var index := IndexOf(listeners, l);
      if index > -1 {
        RemoveFirstAt(listeners, l, index);
        listeners := SpliceOne(listeners, index);
      }
    }

    /** `notifyListeners()`: each registered listener once, in order. */
    method NotifyListeners()
      modifies this`calls
      ensures calls == old(calls) + listeners
    {
      var i := 0;
      while i < |listeners|
        invariant 0 <= i <= |listeners|
        invariant calls == old(calls) + listeners[..i]
      {
        calls := calls + [listeners[i]];
        i := i + 1;
      }
    }

    /** `getIncidents()`. */
    function GetIncidents(): (r: seq<Record>)
      requires Valid()
      reads this
      ensures |r| == |tables[Incidents]|
      ensures forall i :: 0 <= i < |r| ==>
        r[i] == tables[Incidents][i]["actions" :=
          Arr(AsValues(ActionsOf(tables[CorrectiveActions], Get(tables[Incidents][i], "id"))))]
    {
      JoinActions(tables[Incidents], tables[CorrectiveActions])
    }

    /** `getIncidentById(id)`. */
    function GetIncidentById(idText: string): (r: Lookup)
      requires Valid()
      reads this
      ensures r.NotFound? <==> FindById(tables[Incidents], idText).None?
      ensures r.Found? ==>
        var inc := tables[Incidents][FindById(tables[Incidents], idText).value];
        Get(inc, "involved").Arr? &&
        r.rec == inc["actions" := Arr(AsValues(WithAssigneeNames(
                   ActionsOf(tables[CorrectiveActions], Get(inc, "id")), tables[Users])))]
                 ["involvedNames" := Arr(NamesOf(Get(inc, "involved").items, tables[Users]))]
      ensures r.Throws? <==> (FindById(tables[Incidents], idText).Some? &&
        !Get(tables[Incidents][FindById(tables[Incidents], idText).value], "involved").Arr?)
    {
      match FindById(tables[Incidents], idText)
      case None => NotFound
      case Some(k) =>
        var inc := tables[Incidents][k];
        var actions := WithAssigneeNames(ActionsOf(tables[CorrectiveActions], Get(inc, "id")), tables[Users]);
        match Get(inc, "involved")
        case Arr(ids) =>
          Found(inc["actions" := Arr(AsValues(actions))]["involvedNames" := Arr(NamesOf(ids, tables[Users]))])
        case _ => Throws
    }

    /** `getRiskAssessmentById(id)`: the record itself, or `undefined`. */
    function GetRiskAssessmentById(idText: string): (r: Option<Record>)
      requires Valid()
      reads this
      ensures r.Some? <==> FindById(tables[RiskAssessments], idText).Some?
      ensures r.Some? ==> r.value in tables[RiskAssessments] && IdIs(r.value, ParseInt(idText).value)
    {
      match FindById(tables[RiskAssessments], idText)
      case None => None
      case Some(k) => Some(tables[RiskAssessments][k])
    }

    /** `getTrainingRecords()`, `getWorkPermits()`, `getInspections()`. */
    function GetTrainingRecords(): (r: seq<Record>)
      requires Valid()
      reads this
      ensures |r| == |tables[TrainingRecords]|
      ensures forall i :: 0 <= i < |r| ==> r[i] == tables[TrainingRecords][i]["userName" :=
        UserName(tables[Users], Get(tables[TrainingRecords][i], "userId"), "Unknown User")]
    {
      JoinNames(tables[TrainingRecords], tables[Users], "userId", "userName")
    }

    function GetWorkPermits(): (r: seq<Record>)
      requires Valid()
      reads this
      ensures |r| == |tables[WorkPermits]|
      ensures forall i :: 0 <= i < |r| ==> r[i] == tables[WorkPermits][i]["applicantName" :=
        UserName(tables[Users], Get(tables[WorkPermits][i], "applicantId"), "Unknown User")]
    {
      JoinNames(tables[WorkPermits], tables[Users], "applicantId", "applicantName")
    }

    function GetInspections(): (r: seq<Record>)
      requires Valid()
      reads this
      ensures |r| == |tables[Inspections]|
      ensures forall i :: 0 <= i < |r| ==> r[i] == tables[Inspections][i]["inspectorName" :=
        UserName(tables[Users], Get(tables[Inspections][i], "inspectorId"), "Unknown User")]
    {
      JoinNames(tables[Inspections], tables[Users], "inspectorId", "inspectorName")
    }

    /** Appends a record under the given id rule, then notifies. */
    method Append(t: Table, input: Record, floored: bool, stamp: Option<string>, now: int)
      requires Valid() && stamp != Some("id")
      modifies this`tables, this`calls
      ensures Valid()
      ensures var id := if floored then NextIdFloored(old(tables[t])) else NextIdUnfloored(old(tables[t]));
        tables == old(tables)[t := old(tables[t]) + [NewRecord(input, id, stamp, now)]]
      ensures calls == old(calls) + listeners
    {
      var rows := tables[t];
      var id := if floored then NextIdFloored(rows) else NextIdUnfloored(rows);
      var rec := NewRecord(input, id, stamp, now);
      assert IdTable(rows + [rec]) by {
        forall i | 0 <= i < |rows + [rec]| ensures HasNumId((rows + [rec])[i]) {
          if i < |rows| { assert (rows + [rec])[i] == rows[i]; }
        }
      }
      ReplaceKeepsWellFormed(tables, t, rows + [rec]);
      tables := tables[t := rows + [rec]];
      NotifyListeners();
    }

    /** `addChecklist(checklist)`: guarded id, `createdDate` stamped. */
    method AddChecklist(input: Record, now: int)
      requires Valid()
      modifies this`tables, this`calls
      ensures Valid()
      ensures tables == old(tables)[Checklists := old(tables[Checklists]) +
        [NewRecord(input, NextIdFloored(old(tables[Checklists])), Some("createdDate"), now)]]
      ensures calls == old(calls) + listeners
    {
      Append(Checklists, input, true, Some("createdDate"), now);
    }

    /** `addAuditRecord(record)`: guarded id, `createdDate` stamped. */
    method AddAuditRecord(input: Record, now: int)
      requires Valid()
      modifies this`tables, this`calls
      ensures Valid()
      ensures tables == old(tables)[AuditRecords := old(tables[AuditRecords]) +
        [NewRecord(input, NextIdFloored(old(tables[AuditRecords])), Some("createdDate"), now)]]
      ensures calls == old(calls) + listeners
    {
      Append(AuditRecords, input, true, Some("createdDate"), now);
    }

    /** `addComplianceRecord(record)`: guarded id, `createdDate` stamped. */
    method AddComplianceRecord(input: Record, now: int)
      requires Valid()
      modifies this`tables, this`calls
      ensures Valid()
      ensures tables == old(tables)[ComplianceRecords := old(tables[ComplianceRecords]) +
        [NewRecord(input, NextIdFloored(old(tables[ComplianceRecords])), Some("createdDate"), now)]]
      ensures calls == old(calls) + listeners
    {
      Append(ComplianceRecords, input, true, Some("createdDate"), now);
    }

    /** `addInspection(inspection)`: unguarded id, `date` stamped. */
    method AddInspection(input: Record, now: int)
      requires Valid()
      modifies this`tables, this`calls
      ensures Valid()
      ensures tables == old(tables)[Inspections := old(tables[Inspections]) +
        [NewRecord(input, NextIdUnfloored(old(tables[Inspections])), Some("date"), now)]]
      ensures calls == old(calls) + listeners
    {
      Append(Inspections, input, false, Some("date"), now);
    }

    /** `addContractor(contractor)`: unguarded id, `joinedDate` stamped. */
    method AddContractor(input: Record, now: int)
      requires Valid()
      modifies this`tables, this`calls
      ensures Valid()
      ensures tables == old(tables)[Contractors := old(tables[Contractors]) +
        [NewRecord(input, NextIdUnfloored(old(tables[Contractors])), Some("joinedDate"), now)]]
      ensures calls == old(calls) + listeners
    {
      Append(Contractors, input, false, Some("joinedDate"), now);
    }

    /** `addIncident(incident)`: unguarded id, no date stamped. */
    method AddIncident(input: Record)
      requires Valid()
      modifies this`tables, this`calls
      ensures Valid()
      ensures tables == old(tables)[Incidents := old(tables[Incidents]) +
        [NewRecord(input, NextIdUnfloored(old(tables[Incidents])), None, 0)]]
      ensures calls == old(calls) + listeners
    {
      Append(Incidents, input, false, None, 0);
    }

    /** `addCorrectiveAction(action)`: guarded id, no date stamped. */
    method AddCorrectiveAction(input: Record)
      requires Valid()
      modifies this`tables, this`calls
      ensures Valid()
      ensures tables == old(tables)[CorrectiveActions := old(tables[CorrectiveActions]) +
        [NewRecord(input, NextIdFloored(old(tables[CorrectiveActions])), None, 0)]]
      ensures calls == old(calls) + listeners
    {
      Append(CorrectiveActions, input, true, None, 0);
    }

    /** `addRiskAssessment(assessment)`: guarded id, `assessmentDate` stamped. */
    method AddRiskAssessment(input: Record, now: int)
      requires Valid()
      modifies this`tables, this`calls
      ensures Valid()
      ensures tables == old(tables)[RiskAssessments := old(tables[RiskAssessments]) +
        [NewRecord(input, NextIdFloored(old(tables[RiskAssessments])), Some("assessmentDate"), now)]]
      ensures calls == old(calls) + listeners
    {
      Append(RiskAssessments, input, true, Some("assessmentDate"), now);
    }

    /** Shallow-merges updates into the first row with the id; notifies only
      * when there is such a row. */
    method Merge(t: Table, idText: string, updates: Record)
      requires Valid()
      requires "id" in updates ==> updates["id"].Number?
      modifies this`tables, this`calls
      ensures Valid()
      ensures tables == old(tables)[t := MergeById(old(tables[t]), idText, updates)]
      ensures calls == if FindById(old(tables[t]), idText).Some? then old(calls) + listeners else old(calls)
    {
      var found := FindById(tables[t], idText).Some?;
      var rows := MergeById(tables[t], idText, updates);
      MergeKeepsIdTable(tables[t], idText, updates);
      ReplaceKeepsWellFormed(tables, t, rows);
      // when no row matches, `rows` is the table as it was
      tables := tables[t := rows];
      if found {
        NotifyListeners();
      }
    }

    /** `updateIncident(id, updates)`. */
    method UpdateIncident(idText: string, updates: Record)
      requires Valid()
      requires "id" in updates ==> updates["id"].Number?
      modifies this`tables, this`calls
      ensures Valid()
      ensures tables == old(tables)[Incidents := MergeById(old(tables[Incidents]), idText, updates)]
      ensures calls == if FindById(old(tables[Incidents]), idText).Some? then old(calls) + listeners else old(calls)
    {
      Merge(Incidents, idText, updates);
    }

    /** `updateRiskAssessment(id, updates)`. */
    method UpdateRiskAssessment(idText: string, updates: Record)
      requires Valid()
      requires "id" in updates ==> updates["id"].Number?
      modifies this`tables, this`calls
      ensures Valid()
      ensures tables == old(tables)[RiskAssessments := MergeById(old(tables[RiskAssessments]), idText, updates)]
      ensures calls == if FindById(old(tables[RiskAssessments]), idText).Some? then old(calls) + listeners else old(calls)
    {
      Merge(RiskAssessments, idText, updates);
    }

    /** `updateIncidentInvestigation(id, type, data)`: stores the analysis
      * under `investigation[type]` (creating the investigation when it is
      * missing) and, for a five-whys analysis with a root cause, copies the
      * root cause. `threw` when the code raises a TypeError: what was
      * written to the incident before the throw stays in the table, but no
      * listener runs. */
    method UpdateIncidentInvestigation(idText: string, kind: string, data: Value) returns (threw: bool)
      requires Valid()
      modifies this`tables, this`calls
      ensures Valid()
      ensures FindById(old(tables[Incidents]), idText).None? ==>
        !threw && tables == old(tables) && calls == old(calls)
      ensures FindById(old(tables[Incidents]), idText).Some? ==>
        var k := FindById(old(tables[Incidents]), idText).value;
        var inc := old(tables[Incidents])[k];
        var w := NewInvestigation(Get(inc, "investigation"), kind, data);
        threw == w.threw &&
        tables == old(tables)[Incidents := old(tables[Incidents])[k := inc["investigation" := w.investigation]]] &&
        calls == if w.threw then old(calls) else old(calls) + listeners
    {
      threw := false;
      var index := FindById(tables[Incidents], idText);
      if index.Some? {
        var k := index.value;
        var inc := tables[Incidents][k];
        var w := NewInvestigation(Get(inc, "investigation"), kind, data);
        var rows := tables[Incidents][k := inc["investigation" := w.investigation]];
        assert IdTable(rows) by {
          assert forall i :: 0 <= i < |rows| && i != k ==> rows[i] == tables[Incidents][i];
        }
        ReplaceKeepsWellFormed(tables, Incidents, rows);
        tables := tables[Incidents := rows];
        threw := w.threw;
        if !threw {
          NotifyListeners();
        }
      }
    }

    /** The getters for risks, contractors, compliance, audits and checklists
      * hand out the table itself, so a view's in-place `sort` reorders the
      * store's table: the stable sort by `key`. */
    method SortTableInPlace(t: Table, key: Record -> int)
      requires Valid()
      modifies this`tables
      ensures Valid()
      ensures tables == old(tables)[t := StableSort.SortBy(old(tables[t]), key)]
      ensures multiset(tables[t]) == multiset(old(tables[t]))
      ensures StableSort.SortedBy(tables[t], key)
    {
      var rows := StableSort.SortBy(tables[t], key);
      StableSort.SortBySorted(tables[t], key);
      assert IdTable(rows) by {
        forall i | 0 <= i < |rows| ensures HasNumId(rows[i]) {
          assert rows[i] in multiset(tables[t]);
        }
      }
      ReplaceKeepsWellFormed(tables, t, rows);
      tables := tables[t := rows];
    }
  }
}

// The storage service of the 5 Whys application
// (5Whys-main/src/app/services/storage.service.ts): a list of saved analyses
// kept by id, and one draft record that expires after a day. Each
// `localStorage` slot is modelled by what reading and parsing it yields.

module AnalysisStorage {
  import opened JsText
  import opened JsValue
  import opened KeyedSeq
  import opened FiveWhysModels

  /** The content of one storage key once `getItem` and `JSON.parse` ran:
    * nothing stored, text that does not parse, or a parsed value. */
  datatype Slot<T> = Absent | Unparsable | Stored(value: T)

  function AnalysisId(a: Analysis): string
  {
    a.id
  }

  /** One day in milliseconds. */
  const DayMs: int := 24 * 60 * 60 * 1000

  /** `getAllAnalyses()`: the stored list, and `[]` when nothing is stored
    * or the text does not parse. */
  function AllAnalyses(slot: Slot<seq<Analysis>>): (r: seq<Analysis>)
    ensures slot.Stored? ==> r == slot.value
    ensures !slot.Stored? ==> r == []
  {
    if slot.Stored? then slot.value else []
  }

  /** The draft as `saveDraft` writes it: the given fields and `lastSaved`. */
  function Stamped(partial: Record, now: int): (d: Record)
    ensures d.Keys == partial.Keys + {"lastSaved"}
    ensures d["lastSaved"] == Date(now)
    ensures forall k :: k in partial && k != "lastSaved" ==> d[k] == partial[k]
  {
    partial["lastSaved" := Date(now)]
  }

  /** The time a draft was saved, when its `lastSaved` reads as a date. */
  function SavedAt(d: Record): Option<int>
  {
    match Get(d, "lastSaved")
    case Date(ms) => Some(ms)
    case _ => None
  }

  /** A draft whose save time lies more than 24 hours before `now`; one
    * without a readable save time never expires. */
  predicate Expired(d: Record, now: int)
  {
    SavedAt(d).Some? && now - SavedAt(d).value > DayMs
  }

  /** What `getDraft()` returns at time `now`. */
  function DraftAt(slot: Slot<Record>, now: int): (r: Option<Record>)
    ensures r.Some? <==> slot.Stored? && !Expired(slot.value, now)
    ensures r.Some? ==> r.value == slot.value
  {
    if slot.Stored? && !Expired(slot.value, now) then Some(slot.value) else None
  }

  /** A draft saved at `t` is returned up to and including 24 hours later. */
  lemma DraftKeptForADay(partial: Record, t: int, now: int)
    requires t <= now <= t + DayMs
    ensures DraftAt(Stored(Stamped(partial, t)), now) == Some(Stamped(partial, t))
  {
    assert SavedAt(Stamped(partial, t)) == Some(t);
  }

  /** Later than that it is gone. */
  lemma DraftDroppedAfterADay(partial: Record, t: int, now: int)
    requires now > t + DayMs
    ensures DraftAt(Stored(Stamped(partial, t)), now) == None
  {
    assert SavedAt(Stamped(partial, t)) == Some(t);
  }

  /** A stamped draft has more than one key exactly when the saved fields
    * hold something besides `lastSaved`. */
  lemma StampedKeyCount(partial: Record, now: int)
    ensures |Stamped(partial, now)| > 1 <==> partial.Keys - {"lastSaved"} != {}
  {
    var ks := Stamped(partial, now).Keys;
    assert |Stamped(partial, now)| == |ks|;
    if partial.Keys - {"lastSaved"} == {} {
      assert ks == {"lastSaved"};
    } else {
      var y :| y in partial.Keys - {"lastSaved"};
      assert {"lastSaved", y} <= ks;
      SubsetCard({"lastSaved", y}, ks);
    }
  }

  lemma SubsetCard<T>(a: set<T>, b: set<T>)
    requires a <= b
    ensures |a| <= |b|
  {
    assert b == a + (b - a);
  }

  /** What a backup text parses to for `importData`: not JSON at all, the
    * literal `null` (reading a property of it throws), or a value whose
    * `analyses` is an array (`Some`) or not, and whose `draft` is truthy
    * (`Some`) or not. */
  datatype Backup =
    | NotJson
    | NullJson
    | Parsed(analyses: Option<seq<Analysis>>, draft: Option<Record>)

  class StorageService {
    var analyses: Slot<seq<Analysis>>
    var draft: Slot<Record>

    constructor (analyses: Slot<seq<Analysis>>, draft: Slot<Record>)
      ensures this.analyses == analyses && this.draft == draft
    {
      this.analyses := analyses;
      this.draft := draft;
    }

    /** `getAllAnalyses()`. */
    method GetAllAnalyses() returns (r: seq<Analysis>)
      ensures r == AllAnalyses(analyses)
    {
      if analyses.Stored? {
        r := analyses.value;
      } else {
        r := [];
      }
    }

    /** `saveAnalysis(a)`: an upsert by id written back to the slot. */
    method SaveAnalysis(a: Analysis)
      modifies this
      ensures analyses == Stored(Upsert(AllAnalyses(old(analyses)), AnalysisId, a))
      ensures draft == old(draft)
    {
      var all := GetAllAnalyses();
      var k := Position(all, AnalysisId, a.id);
      if k >= 0 {
        all := all[k := a];
      } else {
        all := all + [a];
      }
      analyses := Stored(all);
    }

    /** `getAnalysis(id)`: the first stored analysis with that id, or null. */
    method GetAnalysis(id: string) returns (r: Option<Analysis>)
      ensures var all := AllAnalyses(analyses);
        (r.None? <==> Position(all, AnalysisId, id) == -1) &&
        (r.Some? ==> r.value == all[Position(all, AnalysisId, id)])
    {
      var all := GetAllAnalyses();
      var k := Position(all, AnalysisId, id);
      r := if k >= 0 then Some(all[k]) else None;
    }

    /** `deleteAnalysis(id)`: every analysis with that id is filtered out. */
    method DeleteAnalysis(id: string)
      modifies this
      ensures analyses == Stored(WithoutKey(AllAnalyses(old(analyses)), AnalysisId, id))
      ensures draft == old(draft)
    {
      var all := GetAllAnalyses();
      analyses := Stored(WithoutKey(all, AnalysisId, id));
    }

    /** `saveDraft(partial)` at time `now`. */
    method SaveDraft(partial: Record, now: int)
      modifies this
      ensures draft == Stored(Stamped(partial, now))
      ensures analyses == old(analyses)
    {
      draft := Stored(partial["lastSaved" := Date(now)]);
    }

    /** `getDraft()` at time `now`: an expired draft is cleared. */
    method GetDraft(now: int) returns (r: Option<Record>)
      modifies this
      ensures r == DraftAt(old(draft), now)
      ensures draft == if old(draft).Stored? && Expired(old(draft).value, now) then Absent else old(draft)
      ensures analyses == old(analyses)
    {
      if !draft.Stored? {
        return None;
      }
      var d := draft.value;
      if SavedAt(d).Some? {
        var hoursOver := now - SavedAt(d).value > DayMs;
        if hoursOver {
          ClearDraft();
          return None;
        }
      }
      r := Some(d);
    }

    /** `clearDraft()`. */
    method ClearDraft()
      modifies this
      ensures draft == Absent && analyses == old(analyses)
    {
      draft := Absent;
    }

    /** `importData(json)`: false only when reading the backup throws; an
      * array of analyses and a truthy draft are each written over the
      * stored one. */
    method ImportData(backup: Backup) returns (ok: bool)
      modifies this
      ensures ok <==> backup.Parsed?
      ensures analyses == if backup.Parsed? && backup.analyses.Some?
        then Stored(backup.analyses.value) else old(analyses)
      ensures draft == if backup.Parsed? && backup.draft.Some?
        then Stored(backup.draft.value) else old(draft)
    {
      if !backup.Parsed? {
        return false;
      }
      if backup.analyses.Some? {
        analyses := Stored(backup.analyses.value);
      }
      if backup.draft.Some? {
        draft := Stored(backup.draft.value);
      }
      ok := true;
    }
  }

  /** Saving an analysis and then reading its id back returns it. */
  method SaveThenGet(st: StorageService, a: Analysis) returns (r: Option<Analysis>)
    modifies st
    ensures r == Some(a)
  {
    PositionAfterUpsert(AllAnalyses(st.analyses), AnalysisId, a);
    st.SaveAnalysis(a);
    r := st.GetAnalysis(a.id);
  }

  /** Deleting an id and then reading it back finds nothing. */
  method DeleteThenGet(st: StorageService, id: string) returns (r: Option<Analysis>)
    modifies st
    ensures r == None
  {
    PositionAfterWithout(AllAnalyses(st.analyses), AnalysisId, id);
    st.DeleteAnalysis(id);
    r := st.GetAnalysis(id);
  }
}

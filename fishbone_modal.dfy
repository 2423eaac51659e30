// The fishbone (Ishikawa) modal of the EHS dashboard
// (js/components/fishbone.js): a problem statement and category bones, each
// with a list of cause texts, edited through inline inputs.

module FishboneModal {
  import opened JsText
  import opened JsValue

  /** One bone: `{ id, title, causes: [{ text }] }`; a cause is its text. */
  datatype Category = Category(id: string, title: string, causes: seq<string>)

  datatype FishboneData = FishboneData(problemStatement: string, categories: seq<Category>)

  /** The titles of the six default bones, in order. */
  const DefaultTitles: seq<string> :=
    ["People", "Methods", "Machines", "Materials", "Environment", "Measurements"]

  /** `getDefaultData()`: 'Problem Statement' and the bones cat1 … cat6 with
    * the default titles and no causes. */
  function DefaultData(): (d: FishboneData)
    ensures d.problemStatement == "Problem Statement"
    ensures |d.categories| == 6
    ensures forall i :: 0 <= i < 6 ==>
      d.categories[i] == Category("cat" + NatToString(i + 1), DefaultTitles[i], [])
  {
    FishboneData("Problem Statement",
      [Category("cat1", "People", []), Category("cat2", "Methods", []),
       Category("cat3", "Machines", []), Category("cat4", "Materials", []),
       Category("cat5", "Environment", []), Category("cat6", "Measurements", [])])
  }

  /** The default bones have six distinct ids. */
  lemma DefaultIdsDistinct()
    ensures forall i, j :: 0 <= i < j < 6 ==>
      DefaultData().categories[i].id != DefaultData().categories[j].id
  {
    var c := DefaultData().categories;
    forall i, j | 0 <= i < j < 6
      ensures c[i].id != c[j].id
    {
      assert c[i].id[3] != c[j].id[3];
    }
  }

  /** `categories.find(c => c.id === catId)`, as an index. */
  function FindCategory(cats: seq<Category>, catId: string): (k: Option<nat>)
    ensures k.Some? ==> (k.value < |cats| && cats[k.value].id == catId &&
      forall j :: 0 <= j < k.value ==> cats[j].id != catId)
    ensures k.None? ==> forall j :: 0 <= j < |cats| ==> cats[j].id != catId
  {
    FindFirst(cats, (c: Category) => c.id == catId)
  }

  /** The categories after one cause text is committed to the bone `catId`:
    * exactly one trimmed, non-empty text is appended to the first bone with
    * that id; an empty text or an unknown bone changes nothing. */
  function WithCause(cats: seq<Category>, catId: string, text: string): (r: seq<Category>)
    ensures |r| == |cats|
    ensures Trim(text) == "" || FindCategory(cats, catId).None? ==> r == cats
    ensures Trim(text) != "" && FindCategory(cats, catId).Some? ==>
      var k := FindCategory(cats, catId).value;
      r[k] == cats[k].(causes := cats[k].causes + [Trim(text)]) &&
      forall j :: 0 <= j < |cats| && j != k ==> r[j] == cats[j]
  {
    var k := FindCategory(cats, catId);
    var t := Trim(text);
    if k.None? || t == "" then cats
    else cats[k.value := cats[k.value].(causes := cats[k.value].causes + [t])]
  }

  /** Whether the mouse has entered or left a delete button. */
  datatype Hover = Enter | Leave

  /** The delete button's opacity, in percent, after the given mouse events
    * from `start`: `mouseenter` sets 100 and `mouseleave` sets 20. */
  function Opacity(start: nat, events: seq<Hover>): nat
    decreases |events|
  {
    if events == [] then start
    else Opacity(if events[0] == Enter then 100 else 20, events[1..])
  }

  /** Starting from the drawn 20%, the button is at 100% exactly when the
    * last event was `mouseenter`, and at 20% otherwise. */
  lemma {:induction false} OpacityIsLastEvent(start: nat, events: seq<Hover>)
    requires start == 20 || start == 100
    ensures Opacity(start, events) == 20 || Opacity(start, events) == 100
    ensures events != [] ==> (Opacity(start, events) == 100 <==> events[|events| - 1] == Enter)
    decreases |events|
  {
    if events != [] {
      OpacityIsLastEvent(if events[0] == Enter then 100 else 20, events[1..]);
      if |events| > 1 {
        assert events[1..][|events| - 2] == events[|events| - 1];
      }
    }
  }

  /** The temporary input of `addCause`: the bone it adds to and whether its
    * `blur` handler is still attached. */
  datatype CauseInput = CauseInput(catId: string, blurAttached: bool)

  class Modal {
    var incidentId: int
    var data: FishboneData
    var causeInput: Option<CauseInput>

    /** `new FishboneModal(incidentId, existingData)`: a copy of the given
      * data or the defaults. */
    constructor (incidentId: int, existing: Option<FishboneData>)
      ensures this.incidentId == incidentId
      ensures data == if existing.Some? then existing.value else DefaultData()
      ensures causeInput.None?
    {
      this.incidentId := incidentId;
      data := if existing.Some? then existing.value else DefaultData();
      causeInput := None;
    }

    /** The `input` handler of the problem field. */
    method SetProblemStatement(value: string)
      modifies this
      ensures data == old(data).(problemStatement := value)
      ensures incidentId == old(incidentId) && causeInput == old(causeInput)
    {
      data := data.(problemStatement := value);
    }

    /** `save()`: the current data goes to `onSave`. */
    method Save() returns (saved: FishboneData)
      ensures saved == data
    {
      saved := data;
    }

    /** The "Add" button of `addCategory`: a non-empty trimmed title becomes
      * a new bone with id 'cat-' + the clock and no causes; an empty one is
      * refused and nothing changes. */
    method AddCategory(input: string, now: int) returns (added: bool)
      modifies this
      ensures added <==> Trim(input) != ""
      ensures added ==> data == old(data).(categories := old(data.categories) +
        [Category("cat-" + IntToString(now), Trim(input), [])])
      ensures !added ==> data == old(data)
      ensures incidentId == old(incidentId) && causeInput == old(causeInput)
    {
      var title := Trim(input);
      added := title != "";
      if added {
        data := data.(categories := data.categories + [Category("cat-" + IntToString(now), title, [])]);
      }
    }

    /** `resetDiagram()`: after confirmation the data are the defaults again. */
    method ResetDiagram(confirmed: bool)
      modifies this
      ensures data == if confirmed then DefaultData() else old(data)
      ensures incidentId == old(incidentId) && causeInput == old(causeInput)
    {
      if confirmed {
        data := DefaultData();
      }
    }

    /** `addCause(catId)`: opens the temporary input when the bone exists. */
    method StartCause(catId: string)
      modifies this
      ensures causeInput == if FindCategory(data.categories, catId).Some?
        then Some(CauseInput(catId, true)) else old(causeInput)
      ensures data == old(data) && incidentId == old(incidentId)
    {
      if FindCategory(data.categories, catId).Some? {
        causeInput := Some(CauseInput(catId, true));
      }
    }

    /** `onBlur`: commits the typed text if the handler is still attached;
      * the redraw then removes the input. */
    method CauseBlur(text: string)
      modifies this
      ensures old(causeInput).Some? && old(causeInput).value.blurAttached ==>
        data == old(data).(categories := WithCause(old(data.categories), old(causeInput).value.catId, text))
      ensures !(old(causeInput).Some? && old(causeInput).value.blurAttached) ==> data == old(data)
      ensures causeInput.None? && incidentId == old(incidentId)
    {
      if causeInput.Some? && causeInput.value.blurAttached {
        data := data.(categories := WithCause(data.categories, causeInput.value.catId, text));
      }
      causeInput := None;
    }

    /** Enter in the input: the blur handler is detached, then the text is
      * committed once. */
    method CauseEnter(text: string)
      modifies this
      ensures old(causeInput).Some? ==>
        data == old(data).(categories := WithCause(old(data.categories), old(causeInput).value.catId, text))
      ensures old(causeInput).None? ==> data == old(data)
      ensures causeInput.None? && incidentId == old(incidentId)
    {
      if causeInput.Some? {
        causeInput := Some(causeInput.value.(blurAttached := false));
        data := data.(categories := WithCause(data.categories, causeInput.value.catId, text));
      }
      causeInput := None;
    }

    /** Escape in the input: the diagram is redrawn without committing. */
    method CauseEscape()
      modifies this
      ensures causeInput.None? && data == old(data) && incidentId == old(incidentId)
    {
      causeInput := None;
    }

    /** `deleteCause(catId, causeIndex)`: the confirmation message reads the
      * cause's text, which throws for an index outside the list; after
      * confirmation the cause at that position is spliced out. An unknown
      * bone changes nothing. */
    method DeleteCause(catId: string, causeIndex: int, confirmed: bool) returns (threw: bool)
      modifies this
      ensures var k := FindCategory(old(data.categories), catId);
        threw <==> k.Some? && !(0 <= causeIndex < |old(data.categories)[k.value].causes|)
      ensures var k := FindCategory(old(data.categories), catId);
        if k.Some? && !threw && confirmed then
          var c := old(data.categories)[k.value];
          data == old(data).(categories := old(data.categories)[k.value :=
            c.(causes := c.causes[..causeIndex] + c.causes[causeIndex + 1..])])
        else data == old(data)
      ensures incidentId == old(incidentId) && causeInput == old(causeInput)
    {
      threw := false;
      var k := FindCategory(data.categories, catId);
      if k.Some? {
        var c := data.categories[k.value];
        if !(0 <= causeIndex < |c.causes|) {
          threw := true;
          return;
        }
        if confirmed {
          data := data.(categories := data.categories[k.value := c.(causes := SpliceOne(c.causes, causeIndex))]);
        }
      }
    }
  }

  /** Enter followed by the blur of the removed input adds the cause once. */
  method EnterThenBlur(m: Modal, text: string)
    requires m.causeInput.Some?
    modifies m
    ensures m.data == old(m.data).(categories :=
      WithCause(old(m.data.categories), old(m.causeInput).value.catId, text))
  {
    m.CauseEnter(text);
    m.CauseBlur(text);
  }
}

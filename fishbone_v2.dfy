// The Angular fishbone editor (FishboneV2-main/src/app/fishbone.component.ts):
// the diagram of categories and prioritised causes with its add / edit /
// delete operations, the add-cause dialog, the menu, focus and expansion
// state, and the integer arithmetic behind label sizes, bone lengths, sides
// and category tints.

module FishboneEditor {
  import opened JsText
  import opened KeyedSeq

  datatype Priority = Critical | High | Medium | Low

  datatype Cause = Cause(id: string, text: string, priority: Priority, subCauses: seq<Cause>)

  datatype Category = Category(id: string, title: string, causes: seq<Cause>, color: string)

  datatype Diagram = Diagram(problemStatement: string, categories: seq<Category>)

  function CatId(c: Category): string { c.id }

  function CauseId(c: Cause): string { c.id }

  /** The ten bone colours; a bone takes the colour at its position mod 10. */
  const CategoryColors: seq<string> :=
    ["#3b82f6", "#10b981", "#f59e0b", "#ef4444", "#8b5cf6",
     "#06b6d4", "#ec4899", "#14b8a6", "#f97316", "#8b5cf6"]

  const DefaultTitles: seq<string> :=
    ["Methods", "Machines", "Materials", "Measurements", "Mother Nature", "Manpower"]

  /** The colour `categoryColors[n % categoryColors.length]`. */
  function ColorAt(n: nat): (c: string)
    ensures c in CategoryColors
  {
    CategoryColors[n % |CategoryColors|]
  }

  /** `addDefaultCategories()` with the six generated ids. */
  function DefaultCategories(ids: seq<string>): (cats: seq<Category>)
    requires |ids| == 6
    ensures |cats| == 6
    ensures forall i :: 0 <= i < 6 ==>
      cats[i].id == ids[i] && cats[i].title == DefaultTitles[i] &&
      cats[i].causes == [] && cats[i].color == CategoryColors[i]
  {
    var cats := seq(6, i requires 0 <= i < 6 => Category(ids[i], DefaultTitles[i], [], ColorAt(i)));
    assert forall i :: 0 <= i < 6 ==> ColorAt(i) == CategoryColors[i] by {
      assert forall i :: 0 <= i < 6 ==> i % 10 == i;
    }
    cats
  }

  /** Ids stay distinct: among the bones, and among the causes of each bone.
    * These are the identities `indexOf` compares. */
  predicate WellFormed(d: Diagram)
  {
    Distinct(Keys(d.categories, CatId)) &&
    forall i :: 0 <= i < |d.categories| ==> Distinct(Keys(d.categories[i].causes, CauseId))
  }

  /** Removing a bone keeps the ids distinct. */
  lemma DeleteKeepsWellFormed(d: Diagram, catId: string)
    requires WellFormed(d)
    ensures WellFormed(d.(categories := RemoveFirst(d.categories, CatId, catId)))
  {
    var cs := d.categories;
    var k := Position(cs, CatId, catId);
    var r := RemoveFirst(cs, CatId, catId);
    RemoveKeepsDistinct(cs, CatId, catId);
    forall i | 0 <= i < |r| ensures Distinct(Keys(r[i].causes, CauseId)) {
      if k >= 0 {
        assert r[i] == cs[if i < k then i else i + 1];
      }
    }
  }

  /** An id used by no bone and no cause. */
  predicate FreshId(d: Diagram, id: string)
  {
    forall i :: 0 <= i < |d.categories| ==>
      d.categories[i].id != id &&
      forall j :: 0 <= j < |d.categories[i].causes| ==> d.categories[i].causes[j].id != id
  }

  /** The bones after the causes of bone `k` are replaced, ids unchanged. */
  lemma WithCausesWellFormed(d: Diagram, k: nat, causes: seq<Cause>)
    requires WellFormed(d) && k < |d.categories| && Distinct(Keys(causes, CauseId))
    ensures WellFormed(d.(categories := d.categories[k := d.categories[k].(causes := causes)]))
  {
    ReplaceKeepsDistinct(d.categories, CatId, k, d.categories[k].(causes := causes));
  }

  /** The `prompt` answer accepted as a new name: present and non-blank,
    * then trimmed. */
  function Accepted(answer: Option<string>): Option<string>
  {
    if answer.Some? && Trim(answer.value) != "" then Some(Trim(answer.value)) else None
  }

  /** An accepted answer is trimmed and non-empty; a cancelled prompt or a
    * blank answer is refused. */
  lemma AcceptedIsTrimmed(answer: Option<string>)
    ensures Accepted(answer).Some? ==> (Accepted(answer).value != "" &&
      Trim(Accepted(answer).value) == Accepted(answer).value)
    ensures answer.None? || Blank(answer.value) ==> Accepted(answer).None?
  {
    if answer.Some? {
      TrimEmptyIffBlank(answer.value);
      TrimIdempotent(answer.value);
    }
  }

  /** The dialog, menu, focus and expansion state of the component. */
  datatype Ui = Ui(showAddCauseModal: bool, newCauseText: string, selectedPriority: Priority,
                   currentCategory: Option<string>, openMenuForCauseId: Option<string>,
                   isExportMenuOpen: bool, focusedCategoryId: Option<string>,
                   expandedCauses: set<string>)

  const InitialUi := Ui(false, "", Medium, None, None, false, None, {})

  /** The dialog state after `cancelAddCause()`: closed, no target, empty
    * text, priority Medium; the rest is kept. */
  function Cancelled(u: Ui): Ui
  {
    u.(showAddCauseModal := false, currentCategory := None, newCauseText := "", selectedPriority := Medium)
  }

  class Editor {
    var diagram: Diagram
    var ui: Ui

    predicate Valid()
      reads this
    {
      WellFormed(diagram)
    }

    /** `ngOnInit()`: the sample problem and the six default bones, pushed
      * in order by a loop. */
    constructor (ids: seq<string>)
      requires |ids| == 6 && Distinct(ids)
      ensures Valid()
      ensures diagram == Diagram("Website Conversion Rate is Low", DefaultCategories(ids))
      ensures ui == InitialUi
    {
      var cats: seq<Category> := [];
      var i := 0;
      while i < 6
        invariant 0 <= i <= 6
        invariant cats == DefaultCategories(ids)[..i]
      {
        cats := cats + [Category(ids[i], DefaultTitles[i], [], ColorAt(i))];
        i := i + 1;
      }
      assert cats == DefaultCategories(ids);
      assert Keys(cats, CatId) == ids;
      diagram := Diagram("Website Conversion Rate is Low", cats);
      ui := InitialUi;
    }

    /** `addCategory()`: an accepted name becomes a new bone with no causes
      * and the colour of its position; otherwise nothing changes. */
    method AddCategory(answer: Option<string>, id: string)
      requires Valid() && FreshId(diagram, id)
      modifies this
      ensures Valid() && ui == old(ui)
      ensures Accepted(answer).Some? ==> diagram == old(diagram).(categories := old(diagram.categories) +
        [Category(id, Accepted(answer).value, [], ColorAt(|old(diagram.categories)|))])
      ensures Accepted(answer).None? ==> diagram == old(diagram)
    {
      var title := Accepted(answer);
      if title.Some? {
        var c := Category(id, title.value, [], ColorAt(|diagram.categories|));
        AppendFresh(diagram.categories, CatId, c);
        diagram := diagram.(categories := diagram.categories + [c]);
      }
    }

    /** `editCategory(category)`: an accepted name replaces the title. */
    method EditCategory(catId: string, answer: Option<string>)
      requires Valid()
      modifies this
      ensures Valid() && ui == old(ui)
      ensures var k := Position(old(diagram.categories), CatId, catId);
        if k >= 0 && Accepted(answer).Some? then
          diagram == old(diagram).(categories := old(diagram.categories)[k :=
            old(diagram.categories)[k].(title := Accepted(answer).value)])
        else diagram == old(diagram)
    {
      var k := Position(diagram.categories, CatId, catId);
      var title := Accepted(answer);
      if k >= 0 && title.Some? {
        ReplaceKeepsDistinct(diagram.categories, CatId, k, diagram.categories[k].(title := title.value));
        diagram := diagram.(categories := diagram.categories[k := diagram.categories[k].(title := title.value)]);
      }
    }

    /** `deleteCategory(category)`: after confirmation the bone found by
      * `indexOf` is spliced out with its causes. */
    method DeleteCategory(catId: string, confirmed: bool)
      requires Valid()
      modifies this
      ensures Valid() && ui == old(ui)
      ensures diagram == if confirmed
        then old(diagram).(categories := RemoveFirst(old(diagram.categories), CatId, catId))
        else old(diagram)
    {
      if confirmed {
        DeleteKeepsWellFormed(diagram, catId);
        diagram := diagram.(categories := RemoveFirst(diagram.categories, CatId, catId));
      }
    }

    /** `addCause(category)`: opens the dialog for that bone with empty text
      * and priority Medium. */
    method AddCause(catId: string)
      modifies this
      ensures diagram == old(diagram)
      ensures ui == old(ui).(currentCategory := Some(catId), newCauseText := "",
        selectedPriority := Medium, showAddCauseModal := true)
    {
      ui := ui.(currentCategory := Some(catId), newCauseText := "",
        selectedPriority := Medium, showAddCauseModal := true);
    }

    /** The dialog's text field and priority buttons. */
    method SetNewCause(text: string, priority: Priority)
      modifies this
      ensures diagram == old(diagram)
      ensures ui == old(ui).(newCauseText := text, selectedPriority := priority)
    {
      ui := ui.(newCauseText := text, selectedPriority := priority);
    }

    /** `confirmAddCause()`: with non-blank text and a target bone, a cause
      * with the trimmed text, the chosen priority and no sub-causes is
      * appended to that bone and the dialog is reset; otherwise nothing
      * happens. */
    method ConfirmAddCause(id: string) returns (added: bool)
      requires Valid() && FreshId(diagram, id)
      modifies this
      ensures Valid()
      ensures added <==> Trim(old(ui).newCauseText) != "" && old(ui).currentCategory.Some?
      ensures !added ==> diagram == old(diagram) && ui == old(ui)
      ensures added ==> ui == Cancelled(old(ui))
      ensures added ==>
        var k := Position(old(diagram.categories), CatId, old(ui).currentCategory.value);
        var c := Cause(id, Trim(old(ui).newCauseText), old(ui).selectedPriority, []);
        if k >= 0 then
          diagram == old(diagram).(categories := old(diagram.categories)[k :=
            old(diagram.categories)[k].(causes := old(diagram.categories)[k].causes + [c])])
        else diagram == old(diagram)
    {
      added := Trim(ui.newCauseText) != "" && ui.currentCategory.Some?;
      if added {
        var c := Cause(id, Trim(ui.newCauseText), ui.selectedPriority, []);
        var k := Position(diagram.categories, CatId, ui.currentCategory.value);
        if k >= 0 {
          var causes := diagram.categories[k].causes;
          AppendFresh(causes, CauseId, c);
          WithCausesWellFormed(diagram, k, causes + [c]);
          diagram := diagram.(categories := diagram.categories[k := diagram.categories[k].(causes := causes + [c])]);
        }
        ui := Cancelled(ui);
      }
    }

    /** `cancelAddCause()`. */
    method CancelAddCause()
      modifies this
      ensures diagram == old(diagram) && ui == Cancelled(old(ui))
    {
      ui := Cancelled(ui);
    }

    /** `editCause(cause)`: an accepted text replaces the cause's text. */
    method EditCause(catId: string, causeId: string, answer: Option<string>)
      requires Valid()
      modifies this
      ensures Valid() && ui == old(ui)
      ensures var k := Position(old(diagram.categories), CatId, catId);
        var j := if k >= 0 then Position(old(diagram.categories)[k].causes, CauseId, causeId) else -1;
        if j >= 0 && Accepted(answer).Some? then
          var cat := old(diagram.categories)[k];
          diagram == old(diagram).(categories := old(diagram.categories)[k :=
            cat.(causes := cat.causes[j := cat.causes[j].(text := Accepted(answer).value)])])
        else diagram == old(diagram)
    {
      var k := Position(diagram.categories, CatId, catId);
      var text := Accepted(answer);
      if k >= 0 && text.Some? {
        var cat := diagram.categories[k];
        var j := Position(cat.causes, CauseId, causeId);
        if j >= 0 {
          var causes := cat.causes[j := cat.causes[j].(text := text.value)];
          ReplaceKeepsDistinct(cat.causes, CauseId, j, cat.causes[j].(text := text.value));
          WithCausesWellFormed(diagram, k, causes);
          diagram := diagram.(categories := diagram.categories[k := cat.(causes := causes)]);
        }
      }
    }

    /** `deleteCause(category, cause)`: after confirmation the cause found by
      * `indexOf` in its bone is spliced out. */
    method DeleteCause(catId: string, causeId: string, confirmed: bool)
      requires Valid()
      modifies this
      ensures Valid() && ui == old(ui)
      ensures var k := Position(old(diagram.categories), CatId, catId);
        if confirmed && k >= 0 then
          var cat := old(diagram.categories)[k];
          diagram == old(diagram).(categories := old(diagram.categories)[k :=
            cat.(causes := RemoveFirst(cat.causes, CauseId, causeId))])
        else diagram == old(diagram)
    {
      var k := Position(diagram.categories, CatId, catId);
      if confirmed && k >= 0 {
        var cat := diagram.categories[k];
        var causes := RemoveFirst(cat.causes, CauseId, causeId);
        RemoveKeepsDistinct(cat.causes, CauseId, causeId);
        WithCausesWellFormed(diagram, k, causes);
        diagram := diagram.(categories := diagram.categories[k := cat.(causes := causes)]);
      }
    }

    /** `resetDiagram()`: after confirmation an empty diagram. */
    method ResetDiagram(confirmed: bool)
      requires Valid()
      modifies this
      ensures Valid() && ui == old(ui)
      ensures diagram == if confirmed then Diagram("", []) else old(diagram)
    {
      if confirmed {
        diagram := Diagram("", []);
      }
    }

    /** `isExpanded(cause)`. */
    function IsExpanded(causeId: string): bool
      reads this
    {
      causeId in ui.expandedCauses
    }

    /** `toggleExpand(cause)`: the cause's expansion flips, no other's does. */
    method ToggleExpand(causeId: string)
      modifies this
      ensures diagram == old(diagram)
      ensures IsExpanded(causeId) == !old(IsExpanded(causeId))
      ensures forall c :: c != causeId ==> (IsExpanded(c) <==> old(IsExpanded(c)))
      ensures ui == old(ui).(expandedCauses := ui.expandedCauses)
    {
      if causeId in ui.expandedCauses {
        ui := ui.(expandedCauses := ui.expandedCauses - {causeId});
      } else {
        ui := ui.(expandedCauses := ui.expandedCauses + {causeId});
      }
    }

    /** `toggleCauseMenu(cause)`: closes the menu if it is open for that
      * cause, otherwise opens it there. */
    method ToggleCauseMenu(causeId: string)
      modifies this
      ensures diagram == old(diagram)
      ensures ui == old(ui).(openMenuForCauseId :=
        if old(ui).openMenuForCauseId == Some(causeId) then None else Some(causeId))
    {
      ui := ui.(openMenuForCauseId := if ui.openMenuForCauseId == Some(causeId) then None else Some(causeId));
    }

    method CloseCauseMenu()
      modifies this
      ensures diagram == old(diagram) && ui == old(ui).(openMenuForCauseId := None)
    {
      ui := ui.(openMenuForCauseId := None);
    }

    method ToggleExportMenu()
      modifies this
      ensures diagram == old(diagram)
      ensures ui == old(ui).(isExportMenuOpen := !old(ui).isExportMenuOpen)
    {
      ui := ui.(isExportMenuOpen := !ui.isExportMenuOpen);
    }

    method CloseExportMenu()
      modifies this
      ensures diagram == old(diagram) && ui == old(ui).(isExportMenuOpen := false)
    {
      ui := ui.(isExportMenuOpen := false);
    }

    /** `onDocClick()`: a click anywhere closes both menus. */
    method OnDocClick()
      modifies this
      ensures diagram == old(diagram)
      ensures ui == old(ui).(openMenuForCauseId := None, isExportMenuOpen := false)
    {
      ui := ui.(openMenuForCauseId := None, isExportMenuOpen := false);
    }

    /** `setFocus(category)` and `clearFocus()`. */
    method SetFocus(catId: string)
      modifies this
      ensures diagram == old(diagram) && ui == old(ui).(focusedCategoryId := Some(catId))
    {
      ui := ui.(focusedCategoryId := Some(catId));
    }

    method ClearFocus()
      modifies this
      ensures diagram == old(diagram) && ui == old(ui).(focusedCategoryId := None)
    {
      ui := ui.(focusedCategoryId := None);
    }
  }

  /** Toggling a cause's menu twice leaves it as it was when it started
    * closed or open on that cause. */
  method ToggleMenuTwice(e: Editor, causeId: string)
    requires e.ui.openMenuForCauseId.None? || e.ui.openMenuForCauseId == Some(causeId)
    modifies e
    ensures e.ui == old(e.ui) && e.diagram == old(e.diagram)
  {
    e.ToggleCauseMenu(causeId);
    e.ToggleCauseMenu(causeId);
  }

  // ----- Label measurement -----

  /** `getCharsPerLine(width)`: `max(10, floor(width / 7))` for a width in
    * whole pixels. */
  function CharsPerLine(width: nat): (c: nat)
    ensures c >= 10
    ensures width >= 70 ==> 7 * c <= width < 7 * (c + 1)
    ensures width < 70 ==> c == 10
  {
    Max(10, width / 7)
  }

  /** `getTotalLines(text, width)`: the number of lines of `CharsPerLine`
    * characters the text fills, at least one. */
  function TotalLines(len: nat, width: nat): (n: nat)
    ensures n >= 1
    ensures len <= n * CharsPerLine(width)
    ensures len > 0 ==> (n - 1) * CharsPerLine(width) < len
    ensures len == 0 ==> n == 1
  {
    var c := CharsPerLine(width);
    Max(1, CeilDiv(len, c))
  }

  /** `needsClamp`: more lines than the three shown collapsed. */
  function NeedsClamp(len: nat, width: nat): bool
  {
    TotalLines(len, width) > 3
  }

  /** A label is clamped exactly when its text is longer than three lines. */
  lemma NeedsClampIff(len: nat, width: nat)
    ensures NeedsClamp(len, width) <==> len > 3 * CharsPerLine(width)
  {
    var c := CharsPerLine(width);
    var n := TotalLines(len, width);
    if n > 3 {
      MulMonotone(c, 3, n - 1);
      assert 3 * c <= (n - 1) * c < len;
    } else {
      MulMonotone(c, n, 3);
      assert len <= n * c <= 3 * c;
    }
  }

  /** `getLabelHeight`: 14 pixels per shown line (at most three) plus 12. */
  function LabelHeight(len: nat, width: nat): (h: nat)
    ensures 26 <= h <= 54
    ensures (h - 12) % 14 == 0
    ensures h == 54 <==> TotalLines(len, width) >= 3
    ensures h == 26 <==> len <= CharsPerLine(width)
  {
    var c := CharsPerLine(width);
    var total := TotalLines(len, width);
    assert total == 1 <==> len <= c by {
      if total >= 2 {
        if len > 0 { MulMonotone(c, 1, total - 1); }
      } else {
        assert len <= 1 * c;
      }
    }
    var lines := Min(total, 3);
    assert lines == 1 || lines == 2 || lines == 3;
    lines * 14 + 12
  }

  /** `getLabelWidth`: the measured width of the cause at that position, or
    * the fixed 240 when it has none (or there is no such cause). */
  function LabelWidth(cats: seq<Category>, ci: int, ki: int, measured: map<string, nat>): (w: nat)
    ensures (0 <= ci < |cats| && 0 <= ki < |cats[ci].causes| && cats[ci].causes[ki].id != "" &&
             cats[ci].causes[ki].id in measured) ==> w == measured[cats[ci].causes[ki].id]
    ensures !(0 <= ci < |cats| && 0 <= ki < |cats[ci].causes|) ==> w == 240
  {
    if 0 <= ci < |cats| && 0 <= ki < |cats[ci].causes| then
      var id := cats[ci].causes[ki].id;
      if id != "" && id in measured then measured[id] else 240
    else 240
  }

  // ----- Bones -----

  /** `getAntiCollisionStep()`: label height 20 plus the minimum gap 8. */
  const AntiCollisionStep: nat := 20 + 8

  /** `getCategoryLength(index)`: 80 for a bone with at most one cause, and
    * one step longer for each further cause; 80 for an index with no bone. */
  function CategoryLength(cats: seq<Category>, index: int): (len: nat)
    ensures len >= 80
    ensures !(0 <= index < |cats|) ==> len == 80
  {
    var n := if 0 <= index < |cats| then |cats[index].causes| else 0;
    Max(80, 80 + (if n > 0 then (n - 1) * AntiCollisionStep else 0))
  }

  /** Each cause beyond the first lengthens its bone by exactly 28. */
  lemma CategoryLengthSteps(cats: seq<Category>, index: nat)
    requires index < |cats|
    ensures CategoryLength(cats, index) == 80 + 28 * Max(0, |cats[index].causes| - 1)
  {
  }

  /** `isTopSide(index)`: even positions above the spine, odd ones below. */
  function IsTopSide(index: nat): bool
  {
    index % 2 == 0
  }

  /** Neighbouring bones sit on opposite sides, starting above. */
  lemma SidesAlternate(index: nat)
    ensures IsTopSide(0)
    ensures IsTopSide(index) != IsTopSide(index + 1)
    ensures IsTopSide(index) == IsTopSide(index + 2)
  {
  }

  // ----- Tints -----

  datatype Rgb = Rgb(r: nat, g: nat, b: nat)

  /** The value of a hexadecimal digit, if `c` is one. */
  function HexDigit(c: char): Option<nat>
  {
    if '0' <= c <= '9' then Some(c as int - '0' as int)
    else if 'a' <= c <= 'f' then Some(c as int - 'a' as int + 10)
    else if 'A' <= c <= 'F' then Some(c as int - 'A' as int + 10)
    else None
  }

  predicate AllHex(s: string)
  {
    forall i :: 0 <= i < |s| ==> HexDigit(s[i]).Some?
  }

  /** Value of a run of hexadecimal digits. */
  function HexValue(s: string): (v: nat)
    requires AllHex(s)
    ensures v < Pow16(|s|)
    decreases |s|
  {
    if s == [] then 0
    else
      assert HexDigit(s[|s| - 1]).Some?;
      assert HexDigit(s[|s| - 1]).value < 16;
      HexValue(s[..|s| - 1]) * 16 + HexDigit(s[|s| - 1]).value
  }

  function Pow16(n: nat): (p: nat)
    ensures p >= 1
  {
    if n == 0 then 1 else 16 * Pow16(n - 1)
  }

  /** Length of the longest run of hexadecimal digits at the front of `s`. */
  function HexPrefixLen(s: string): (k: nat)
    ensures k <= |s| && AllHex(s[..k])
    ensures k < |s| ==> HexDigit(s[k]).None?
  {
    if |s| > 0 && HexDigit(s[0]).Some? then
      var k := 1 + HexPrefixLen(s[1..]);
      assert forall i :: 1 <= i < k ==> s[..k][i] == s[1..][..k - 1][i - 1];
      k
    else 0
  }

  /** `parseInt(h, 16)`: leading white space, an optional sign and an
    * optional 0x / 0X are skipped, then the longest run of hexadecimal
    * digits; `None` (NaN) when there is none. */
  function ParseHex(s: string): Option<int>
  {
    var t := TrimStart(s);
    var neg := |t| > 0 && t[0] == '-';
    var u := if |t| > 0 && (t[0] == '-' || t[0] == '+') then t[1..] else t;
    var w := if |u| >= 2 && u[0] == '0' && (u[1] == 'x' || u[1] == 'X') then u[2..] else u;
    var k := HexPrefixLen(w);
    if k == 0 then None
    else
      var v: int := HexValue(w[..k]);
      Some(if neg then -v else v)
  }

  /** `hex.replace('#', '')`: the first '#' removed. */
  function DropFirstHash(s: string): (r: string)
    ensures '#' !in s ==> r == s
  {
    var k := IndexOf(s, '#');
    if k < 0 then s else s[..k] + s[k + 1..]
  }

  /** `hexToRgb(hex)`: bits 16-23, 8-15 and 0-7 of the parsed value, as the
    * 32-bit `>>` and `& 255` give them; NaN counts as 0. */
  function HexToRgb(hex: string): (c: Rgb)
    ensures c.r < 256 && c.g < 256 && c.b < 256
  {
    var p := ParseHex(DropFirstHash(hex));
    var n := if p.Some? then p.value else 0;
    Rgb((n / 65536) % 256, (n / 256) % 256, n % 256)
  }

  /** Dropping the last digit of a run of digits. */
  lemma HexValueLast(s: string)
    requires AllHex(s) && s != []
    ensures AllHex(s[..|s| - 1])
    ensures HexValue(s) == HexValue(s[..|s| - 1]) * 16 + HexDigit(s[|s| - 1]).value
  {
  }

  lemma Regroup(x: nat, p: nat, y: nat, d: nat)
    ensures (x * p + y) * 16 + d == x * (p * 16) + (y * 16 + d)
  {
  }

  lemma AllHexConcat(a: string, b: string)
    requires AllHex(a) && AllHex(b)
    ensures AllHex(a + b)
  {
    forall i | 0 <= i < |a + b| ensures HexDigit((a + b)[i]).Some? {
      if i < |a| { assert (a + b)[i] == a[i]; } else { assert (a + b)[i] == b[i - |a|]; }
    }
  }

  /** Digit values add up left to right. */
  lemma {:induction false} HexValueConcat(a: string, b: string)
    requires AllHex(a) && AllHex(b)
    ensures AllHex(a + b)
    ensures HexValue(a + b) == HexValue(a) * Pow16(|b|) + HexValue(b)
    decreases |b|
  {
    AllHexConcat(a, b);
    if b == [] {
      assert a + b == a;
    } else {
      var b' := b[..|b| - 1];
      HexValueLast(b);
      HexValueConcat(a, b');
      HexValueLast(a + b);
      assert (a + b)[..|a + b| - 1] == a + b';
      assert (a + b)[|a + b| - 1] == b[|b| - 1];
      var x: int, p: int, y: int, d: int := HexValue(a), Pow16(|b'|), HexValue(b'), HexDigit(b[|b| - 1]).value;
      assert HexValue(a + b) == HexValue(a + b') * 16 + d;
      assert HexValue(a + b') == x * p + y;
      assert HexValue(b) == y * 16 + d;
      assert Pow16(|b|) == p * 16;
      Regroup(x, p, y, d);
    }
  }

  /** The components of a six-digit colour. */
  lemma Components(v: nat, x: nat, y: nat, z: nat)
    requires x < 256 && y < 256 && z < 256 && v == (x * 256 + y) * 256 + z
    ensures v / 65536 % 256 == x && v / 256 % 256 == y && v % 256 == z
  {
    assert v == x * 65536 + (y * 256 + z);
    assert 0 <= y * 256 + z < 65536;
  }

  lemma HexDigitIsPlain(c: char)
    requires HexDigit(c).Some?
    ensures !IsSpace(c) && c != '-' && c != '+' && c != 'x' && c != 'X'
  {
  }

  /** A run of hexadecimal digits parses to its value. */
  lemma ParseHexOfDigits(s: string)
    requires AllHex(s) && |s| >= 2
    ensures ParseHex(s) == Some(HexValue(s))
  {
    HexDigitIsPlain(s[0]);
    HexDigitIsPlain(s[1]);
    ParseHexUnsigned(s);
    HexPrefixAll(s);
    assert s[..|s|] == s;
  }

  /** With no leading space, sign or `0x`, `parseInt` reads the leading run
    * of digits as it stands. */
  lemma ParseHexUnsigned(s: string)
    requires |s| >= 2 && !IsSpace(s[0]) && s[0] != '-' && s[0] != '+' && s[1] != 'x' && s[1] != 'X'
    ensures ParseHex(s) == if HexPrefixLen(s) == 0 then None else Some(HexValue(s[..HexPrefixLen(s)]))
  {
    TrimStartUnspaced(s);
  }

  lemma DropLeadingHash(d: string)
    ensures DropFirstHash("#" + d) == d
  {
    var hex := "#" + d;
    assert hex[0] == '#';
    assert IndexOf(hex, '#') == 0;
    assert hex[1..] == d;
  }

  lemma SixDigitValue(rr: string, gg: string, bb: string)
    requires |gg| == 2 && |bb| == 2 && AllHex(rr) && AllHex(gg) && AllHex(bb)
    ensures AllHex(rr + gg + bb)
    ensures HexValue(rr + gg + bb) == (HexValue(rr) * 256 + HexValue(gg)) * 256 + HexValue(bb)
  {
    HexValueConcat(rr, gg);
    HexValueConcat(rr + gg, bb);
    assert Pow16(2) == 256;
  }

  lemma TwoDigitBound(s: string)
    requires |s| == 2 && AllHex(s)
    ensures HexValue(s) < 256
  {
    assert Pow16(2) == 256;
  }

  /** `hexToRgb` of a string whose digits parse to `v`. */
  lemma HexToRgbOfValue(hex: string, v: nat)
    requires ParseHex(DropFirstHash(hex)) == Some(v)
    ensures HexToRgb(hex) == Rgb((v / 65536) % 256, (v / 256) % 256, v % 256)
  {
  }

  /** `hexToRgb` of a string whose digits parse to three packed bytes. */
  lemma HexToRgbOfBytes(hex: string, v: nat, x: nat, y: nat, z: nat)
    requires x < 256 && y < 256 && z < 256 && v == (x * 256 + y) * 256 + z
    requires ParseHex(DropFirstHash(hex)) == Some(v)
    ensures HexToRgb(hex) == Rgb(x, y, z)
  {
    HexToRgbOfValue(hex, v);
    Components(v, x, y, z);
  }

  /** A colour written '#rrggbb' yields the three two-digit values. */
  lemma HexToRgbOfColor(rr: string, gg: string, bb: string)
    requires |rr| == 2 && |gg| == 2 && |bb| == 2 && AllHex(rr) && AllHex(gg) && AllHex(bb)
    ensures HexToRgb("#" + rr + gg + bb) == Rgb(HexValue(rr), HexValue(gg), HexValue(bb))
  {
    var digits := rr + gg + bb;
    var hex := "#" + rr + gg + bb;
    assert hex == "#" + digits;
    DropLeadingHash(digits);
    SixDigitValue(rr, gg, bb);
    ParseHexOfDigits(digits);
    TwoDigitBound(rr);
    TwoDigitBound(gg);
    TwoDigitBound(bb);
    HexToRgbOfBytes(hex, HexValue(digits), HexValue(rr), HexValue(gg), HexValue(bb));
  }

  lemma {:induction false} HexPrefixAll(s: string)
    requires AllHex(s)
    ensures HexPrefixLen(s) == |s|
    decreases |s|
  {
    if s != [] {
      assert AllHex(s[1..]) by {
        forall i | 0 <= i < |s| - 1 ensures HexDigit(s[1..][i]).Some? { assert s[1..][i] == s[i + 1]; }
      }
      HexPrefixAll(s[1..]);
    }
  }
}

// The checklist pages (js/views/checklists.js): the status badges, the card
// preview of the first items, the items typed one per line into the create
// form, the record that form submits, cloning a checklist into a draft copy,
// and the search and category filter over the cards.

module ChecklistsView {
  import opened JsText
  import opened JsValue
  import opened ListView
  import EhsStore

  /** `getStatusBadgeClass(status)` of the checklist cards. */
  function StatusBadge(status: Value): (c: string)
    ensures c == "success" <==> status == Str("Active")
    ensures c == "warning" <==> status == Str("Draft")
    ensures c == "secondary" <==> status == Str("Archived")
    ensures c == "info" <==> status !in {Str("Active"), Str("Draft"), Str("Archived")}
  {
    if status == Str("Active") then "success"
    else if status == Str("Draft") then "warning"
    else if status == Str("Archived") then "secondary"
    else "info"
  }

  /** What the card shows of the items: the first three, and how many more
    * the "+ n more..." line counts (0: no such line). */
  datatype Preview = Preview(shown: seq<Value>, more: nat)

  /** `items.slice(0, 3)` and the `items.length > 3` line. */
  function ItemsPreview(items: seq<Value>): (p: Preview)
    ensures |p.shown| == Min(3, |items|) && p.shown == items[..|p.shown|]
    ensures |p.shown| + p.more == |items|
    ensures p.more > 0 <==> |items| > 3
  {
    Preview(FirstN(items, 3), if |items| > 3 then |items| - 3 else 0)
  }

  /** `line.trim() !== ''`. */
  predicate NonBlankLine(line: string)
  {
    Trim(line) != ""
  }

  function TrimAll(lines: seq<string>): (r: seq<string>)
    ensures |r| == |lines| && forall i :: 0 <= i < |lines| ==> r[i] == Trim(lines[i])
  {
    seq(|lines|, i requires 0 <= i < |lines| => Trim(lines[i]))
  }

  /** A line as it ends up in a checklist item: not empty, without white
    * space at either end and without a line break. */
  predicate ItemText(s: string)
  {
    s != "" && Trim(s) == s && '\n' !in s
  }

  /** The item texts of the textarea:
    * `split('\n').filter(line => line.trim() !== '').map(text => text.trim())`. */
  function ItemTexts(text: string): (r: seq<string>)
    ensures |r| <= |Split(text, '\n')|
    ensures forall k :: 0 <= k < |r| ==> ItemText(r[k])
  {
    var lines := Filter(Split(text, '\n'), NonBlankLine);
    TrimmedLines(lines);
    TrimAll(lines)
  }

  /** Trimming non-blank lines without line breaks gives item texts. */
  lemma TrimmedLines(lines: seq<string>)
    requires forall k :: 0 <= k < |lines| ==> '\n' !in lines[k] && NonBlankLine(lines[k])
    ensures forall k :: 0 <= k < |lines| ==> ItemText(TrimAll(lines)[k])
  {
    forall k | 0 <= k < |lines| ensures ItemText(TrimAll(lines)[k]) {
      var l := lines[k];
      TrimIdempotent(l);
      TrimSlice(l);
    }
  }

  /** Item texts are non-blank lines that trimming leaves as they are. */
  lemma ItemTextsAreLines(texts: seq<string>)
    requires forall k :: 0 <= k < |texts| ==> ItemText(texts[k])
    ensures forall k :: 0 <= k < |texts| ==> NonBlankLine(texts[k]) && '\n' !in texts[k]
    ensures Filter(texts, NonBlankLine) == texts
    ensures TrimAll(texts) == texts
  {
    FilterKeepsAll(texts, NonBlankLine);
  }

  /** Typing item texts one per line gives back exactly those items, in
    * order. */
  lemma ItemTextsRoundTrip(texts: seq<string>)
    requires forall k :: 0 <= k < |texts| ==> ItemText(texts[k])
    ensures ItemTexts(Join(texts, '\n')) == texts
  {
    var lines := Split(Join(texts, '\n'), '\n');
    if texts == [] {
      assert lines == [""];
      assert Filter(lines, NonBlankLine) == Filter([], NonBlankLine);
    } else {
      ItemTextsAreLines(texts);
      SplitJoin(texts, '\n');
      assert lines == texts;
    }
    assert ItemTexts(Join(texts, '\n')) == TrimAll(Filter(lines, NonBlankLine));
  }

  /** A blank line adds no item: items typed with a blank line between them
    * are the items of the two parts. */
  lemma BlankLineAddsNothing(texts: seq<string>, blank: string)
    requires |texts| >= 1
    requires forall k :: 0 <= k < |texts| ==> ItemText(texts[k])
    requires '\n' !in blank && Blank(blank)
    ensures ItemTexts(Join([texts[0], blank] + texts[1..], '\n')) == texts
  {
    var rest := texts[1..];
    var lines := [texts[0], blank] + rest;
    ItemTextsAreLines(texts);
    forall k | 0 <= k < |lines| ensures '\n' !in lines[k] {
      if k >= 2 { assert lines[k] == texts[k - 1]; }
    }
    SplitJoin(lines, '\n');
    TrimEmptyIffBlank(blank);
    assert Filter([blank] + rest, NonBlankLine) == Filter(rest, NonBlankLine);
    assert Filter(lines, NonBlankLine) == [texts[0]] + Filter([blank] + rest, NonBlankLine);
    assert Filter(lines, NonBlankLine) == Filter(texts, NonBlankLine) by {
      assert texts == [texts[0]] + rest;
    }
    assert ItemTexts(Join(lines, '\n')) == TrimAll(Filter(lines, NonBlankLine));
  }

  /** `{ text: text.trim(), completed: false }`. */
  function Item(text: string): Value
  {
    Obj(map["text" := Str(text), "completed" := Bool(false)])
  }

  function ParseItems(text: string): (r: seq<Value>)
    ensures |r| == |ItemTexts(text)|
    ensures forall k :: 0 <= k < |r| ==> r[k] == Item(ItemTexts(text)[k])
  {
    var texts := ItemTexts(text);
    seq(|texts|, k requires 0 <= k < |texts| => Item(texts[k]))
  }

  /** The record the create form submits: title, category, 'Active', and
    * one unchecked item per non-blank line; the store adds the id and the
    * creation date. */
  function NewChecklist(title: string, category: string, itemsText: string): (r: Record)
    ensures r.Keys == {"title", "category", "status", "items"}
    ensures r["status"] == Str("Active") && r["title"] == Str(title) && r["category"] == Str(category)
    ensures r["items"] == Arr(ParseItems(itemsText))
  {
    map["title" := Str(title), "category" := Str(category), "status" := Str("Active"),
        "items" := Arr(ParseItems(itemsText))]
  }

  /** `{ ...original, title: `${original.title} (Copy)`, status: 'Draft',
    * createdDate: new Date() }`. */
  function Copy(original: Record, now: int): Record
  {
    original["title" := Str(ToText(Get(original, "title")) + " (Copy)")]
            ["status" := Str("Draft")]["createdDate" := Date(now)]
  }

  /** `cloneChecklist(id)`: with no checklist of that id nothing happens;
    * otherwise the copy goes through `addChecklist`, which gives it the next
    * id and stamps the creation date again. */
  method CloneChecklist(store: EhsStore.Store, idText: string, now: int)
    requires store.Valid()
    modifies store`tables, store`calls
    ensures store.Valid()
    ensures FindById(old(store.tables[EhsStore.Checklists]), idText).None? ==>
      store.tables == old(store.tables) && store.calls == old(store.calls)
    ensures FindById(old(store.tables[EhsStore.Checklists]), idText).Some? ==>
      var t := old(store.tables[EhsStore.Checklists]);
      store.tables == old(store.tables)[EhsStore.Checklists := t +
        [EhsStore.NewRecord(Copy(t[FindById(t, idText).value], now), NextIdFloored(t),
                            Some("createdDate"), now)]] &&
      store.calls == old(store.calls) + store.listeners
  {
    var t := store.tables[EhsStore.Checklists];
    match FindById(t, idText) {
      case None =>
      case Some(k) =>
        store.AddChecklist(Copy(t[k], now), now);
    }
  }

  /** The stored clone is a draft titled "... (Copy)" with a fresh id and
    * the clone's date, and keeps every other field of the original, its
    * category and its items among them; the table's ids stay distinct. */
  lemma StoredCloneKeepsContent(t: seq<Record>, k: nat, now: int)
    requires IdTable(t) && EhsStore.UniqueIds(t) && k < |t|
    ensures var c := EhsStore.NewRecord(Copy(t[k], now), NextIdFloored(t), Some("createdDate"), now);
      Get(c, "status") == Str("Draft") &&
      Get(c, "title") == Str(ToText(Get(t[k], "title")) + " (Copy)") &&
      Get(c, "createdDate") == Date(now) &&
      (forall key :: key in t[k] && key !in {"id", "title", "status", "createdDate"} ==>
         key in c && c[key] == t[k][key]) &&
      (forall i :: 0 <= i < |t| ==> Get(t[i], "id") != Get(c, "id")) &&
      EhsStore.UniqueIds(t + [c])
  {
    var c := EhsStore.NewRecord(Copy(t[k], now), NextIdFloored(t), Some("createdDate"), now);
    NextIdFlooredFresh(t);
    EhsStore.FlooredAddKeepsUnique(t, Copy(t[k], now), Some("createdDate"), now);
    forall key | key in t[k] && key !in {"id", "title", "status", "createdDate"}
      ensures key in c && c[key] == t[k][key]
    {
      assert key in Copy(t[k], now) && Copy(t[k], now)[key] == t[k][key];
    }
  }

  /** `filterChecklists`: the search over the card's text and the category
    * select against the card's `.text-muted` line, its only cell here. */
  method FilterChecklists(cards: seq<Row>, display: array<bool>, typed: string, inputValue: string,
                          categoryFilter: string)
    requires display.Length == |cards|
    requires forall i :: 0 <= i < |cards| ==> |cards[i].cells| == 1
    modifies display
    ensures forall i :: 0 <= i < |cards| ==>
      (display[i] <==>
        Includes(ToLower(cards[i].text), SearchTermAsWritten(typed, inputValue)) &&
        (categoryFilter == "" || cards[i].cells[0] == categoryFilter))
  {
    var term := SearchTermAsWritten(typed, inputValue);
    var category := ColumnFilter(0, categoryFilter);
    forall i | 0 <= i < |cards|
      ensures HasColumns(cards[i], [category])
      ensures Shown(cards[i], term, [category]) <==>
        Includes(ToLower(cards[i].text), term) && Passes(cards[i], category)
    {
      ShownOne(cards[i], term, category);
    }
    ApplyFilter(cards, display, term, [category]);
  }
}

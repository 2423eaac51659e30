// What the list pages of the EHS front end (js/views/*.js) have in common:
// the records read from the store are sorted by one of their dates, each
// rendered row (or card) is shown or hidden by a free-text search and a few
// column filters, counts are `filter(...).length`, and every page keeps one
// store subscription that it renews each time it renders. Each page's own
// module supplies its columns, dates and badges.

module ListView {
  import opened JsText
  import opened JsValue
  import opened StableSort
  import EhsStore

  /** A rendered table row, or a checklist card: its `innerText` and the
    * text of each of its cells in column order (cell `k` is
    * `td:nth-child(k + 1)`). */
  datatype Row = Row(text: string, cells: seq<string>)

  /** The record a detail modal opens: `rows.find(r => r.id == id)` for the
    * id of the clicked button, the first record with that id; `None` when
    * there is none, and the modal then returns without showing anything. */
  function DetailRecord(rows: seq<Record>, idText: string): (r: Option<Record>)
    ensures r.Some? <==> FindById(rows, idText).Some?
    ensures r.Some? ==>
      exists k :: 0 <= k < |rows| && rows[k] == r.value && IdIs(rows[k], ParseInt(idText).value) &&
        forall j :: 0 <= j < k ==> !IdIs(rows[j], ParseInt(idText).value)
    ensures r.None? && ParseInt(idText).Some? ==>
      forall j :: 0 <= j < |rows| ==> !IdIs(rows[j], ParseInt(idText).value)
  {
    match FindById(rows, idText)
    case None => None
    case Some(k) => Some(rows[k])
  }

  /** A select whose option must equal the row's cell in `column`; the
    * empty option ("All ...") lets every row through. */
  datatype ColumnFilter = ColumnFilter(column: nat, value: string)

  /** `searchTerm || searchInput.value.toLowerCase()` as written: the input
    * event passes the typed text, which is used as typed; the change
    * handlers pass nothing, and then the input's value is lower-cased. */
  function SearchTermAsWritten(typed: string, inputValue: string): string
  {
    if typed != "" then typed else ToLower(inputValue)
  }

  /** The search term as evidently intended: lower-cased on both paths. */
  function SearchTerm(typed: string, inputValue: string): (term: string)
    ensures ToLower(term) == term
    ensures |term| == if typed != "" then |typed| else |inputValue|
  {
    ToLowerIdempotent(if typed != "" then typed else inputValue);
    ToLower(if typed != "" then typed else inputValue)
  }

  /** The row has every cell the filters read; a row rendered by the page's
    * own template always has. */
  predicate HasColumns(row: Row, filters: seq<ColumnFilter>)
  {
    forall i :: 0 <= i < |filters| ==> filters[i].column < |row.cells|
  }

  predicate Passes(row: Row, f: ColumnFilter)
    requires f.column < |row.cells|
  {
    f.value == "" || row.cells[f.column] == f.value
  }

  /** Whether the row stays displayed: its lower-cased text contains the
    * term and every filter lets it through. */
  predicate Shown(row: Row, term: string, filters: seq<ColumnFilter>)
    requires HasColumns(row, filters)
  {
    Includes(ToLower(row.text), term) &&
    forall i :: 0 <= i < |filters| ==> Passes(row, filters[i])
  }

  /** A page with one select: shown when the search and that select both
    * let the row through. */
  lemma ShownOne(row: Row, term: string, f: ColumnFilter)
    requires f.column < |row.cells|
    ensures HasColumns(row, [f])
    ensures Shown(row, term, [f]) <==> Includes(ToLower(row.text), term) && Passes(row, f)
  {
    assert [f][0] == f;
  }

  /** A page with two selects. */
  lemma ShownTwo(row: Row, term: string, f: ColumnFilter, g: ColumnFilter)
    requires f.column < |row.cells| && g.column < |row.cells|
    ensures HasColumns(row, [f, g])
    ensures Shown(row, term, [f, g]) <==>
      Includes(ToLower(row.text), term) && Passes(row, f) && Passes(row, g)
  {
    assert [f, g][0] == f && [f, g][1] == g;
  }

  /** The `forEach` over the rendered rows: each row's `style.display`
    * becomes '' (here `true`) when it is shown and 'none' otherwise. */
  method ApplyFilter(rows: seq<Row>, display: array<bool>, term: string, filters: seq<ColumnFilter>)
    requires display.Length == |rows|
    requires forall i :: 0 <= i < |rows| ==> HasColumns(rows[i], filters)
    modifies display
    ensures forall i :: 0 <= i < |rows| ==> display[i] == Shown(rows[i], term, filters)
  {
    var i := 0;
    while i < |rows|
      invariant 0 <= i <= |rows|
      invariant forall j :: 0 <= j < i ==> display[j] == Shown(rows[j], term, filters)
    {
      display[i] := Shown(rows[i], term, filters);
      i := i + 1;
    }
  }

  /** As written, typing a capital letter into the search box hides every
    * row, whatever the filters: the row text is lower-cased, the typed term
    * is not. */
  lemma CapitalSearchHidesAllAsWritten(row: Row, typed: string, inputValue: string,
                                       filters: seq<ColumnFilter>, k: nat)
    requires k < |typed| && IsUpper(typed[k])
    requires HasColumns(row, filters)
    ensures !Shown(row, SearchTermAsWritten(typed, inputValue), filters)
  {
    LowerTextMissesCapitals(row.text, typed, k);
  }

  /** A typed term without capitals is the same on both readings. */
  lemma SearchTermsAgreeWithoutCapitals(typed: string, inputValue: string)
    requires forall i :: 0 <= i < |typed| ==> !IsUpper(typed[i])
    ensures SearchTermAsWritten(typed, inputValue) == SearchTerm(typed, inputValue)
  {
    ToLowerNoCapitals(typed);
  }

  /** Corrected, searching for text a row shows, in whatever capitalisation
    * it is shown, keeps that row whenever the filters do. */
  lemma SearchFindsShownText(row: Row, typed: string, filters: seq<ColumnFilter>)
    requires HasColumns(row, filters)
    requires Includes(row.text, typed)
    requires forall i :: 0 <= i < |filters| ==> Passes(row, filters[i])
    ensures Shown(row, SearchTerm(typed, typed), filters)
  {
    ToLowerKeepsIncludes(row.text, typed);
  }

  /** With the search box cleared and every select on "All", every row is
    * shown again. */
  lemma ClearedFiltersShowAll(row: Row, inputValue: string, filters: seq<ColumnFilter>)
    requires HasColumns(row, filters)
    requires inputValue == ""
    requires forall i :: 0 <= i < |filters| ==> filters[i].value == ""
    ensures Shown(row, SearchTerm("", inputValue), filters)
  {
    IncludesEmpty(ToLower(row.text));
  }

  /** A directory object `{ 1: ..., 2: ..., ... }` indexed with a number:
    * the number's text is the key `d` exactly when the number is `d`. */
  lemma NumberKeyOfDigit(n: int, d: nat)
    requires 1 <= d <= 9
    ensures ToText(IntV(n)) == NatToString(d) <==> n == d
  {
    if n < 0 {
      assert IsDigit(NatToString(d)[0]);
    } else if ToText(IntV(n)) == NatToString(d) {
      ParseIntOfNatToString(n);
      ParseIntOfNatToString(d);
    }
  }

  /** `new Date(r[field])` in milliseconds; a missing or non-date field, for
    * which JavaScript gets NaN, counts as 0. */
  function DateOf(r: Record, field: string): int
  {
    match Get(r, field)
    case Date(ms) => ms
    case _ => 0
  }

  function DateKey(field: string): Record -> int
  {
    r => DateOf(r, field)
  }

  /** `rows.sort((a, b) => new Date(b[field]) - new Date(a[field]))`: the
    * same records, newest first, records of one date in their old order. */
  function NewestFirst(rows: seq<Record>, field: string): (r: seq<Record>)
    ensures multiset(r) == multiset(rows)
    ensures forall i, j :: 0 <= i < j < |r| ==> DateOf(r[i], field) >= DateOf(r[j], field)
    ensures forall t :: WithKey(r, Negated(DateKey(field)), t) == WithKey(rows, Negated(DateKey(field)), t)
  {
    SortDescending(rows, DateKey(field));
    forall t ensures WithKey(SortBy(rows, Negated(DateKey(field))), Negated(DateKey(field)), t)
                     == WithKey(rows, Negated(DateKey(field)), t) {
      SortByStable(rows, Negated(DateKey(field)), t);
    }
    SortBy(rows, Negated(DateKey(field)))
  }

  /** The record a newest-first list starts with is one of the records, and
    * none of them is dated later. */
  lemma NewestFirstHead(rows: seq<Record>, field: string)
    requires rows != []
    ensures NewestFirst(rows, field)[0] in rows
    ensures forall i :: 0 <= i < |rows| ==> DateOf(rows[i], field) <= DateOf(NewestFirst(rows, field)[0], field)
  {
    var sorted := NewestFirst(rows, field);
    assert sorted[0] in multiset(sorted);
    forall i | 0 <= i < |rows| ensures DateOf(rows[i], field) <= DateOf(sorted[0], field) {
      assert rows[i] in multiset(sorted);
      var j :| 0 <= j < |sorted| && sorted[j] == rows[i];
    }
  }

  /** `rows.sort((a, b) => new Date(a[field]) - new Date(b[field]))`: the
    * same records, oldest first, records of one date in their old order. */
  function OldestFirst(rows: seq<Record>, field: string): (r: seq<Record>)
    ensures multiset(r) == multiset(rows)
    ensures forall i, j :: 0 <= i < j < |r| ==> DateOf(r[i], field) <= DateOf(r[j], field)
    ensures forall t :: WithKey(r, DateKey(field), t) == WithKey(rows, DateKey(field), t)
  {
    SortBySorted(rows, DateKey(field));
    forall t ensures WithKey(SortBy(rows, DateKey(field)), DateKey(field), t) == WithKey(rows, DateKey(field), t) {
      SortByStable(rows, DateKey(field), t);
    }
    SortBy(rows, DateKey(field))
  }

  /** Filtering keeps the order of a sorted list. */
  lemma {:induction false} FilterKeepsOrder<T>(s: seq<T>, p: T -> bool, key: T -> int)
    requires SortedBy(s, key)
    ensures SortedBy(Filter(s, p), key)
  {
    if s != [] {
      SortedTail(s, key);
      FilterKeepsOrder(s[1..], p, key);
      if p(s[0]) {
        SortedCons(s[0], Filter(s[1..], p), key);
      }
    }
  }

  /** The tail of a sorted list is sorted and holds nothing below its head. */
  lemma SortedTail<T>(s: seq<T>, key: T -> int)
    requires s != [] && SortedBy(s, key)
    ensures SortedBy(s[1..], key)
    ensures forall x :: x in s[1..] ==> key(s[0]) <= key(x)
  {
    var t := s[1..];
    forall i, j | 0 <= i < j < |t| ensures key(t[i]) <= key(t[j]) {
      assert t[i] == s[i + 1] && t[j] == s[j + 1];
    }
    forall x | x in t ensures key(s[0]) <= key(x) {
      var j :| 0 <= j < |t| && t[j] == x;
      assert s[j + 1] == x;
    }
  }

  /** A head no larger than anything in a sorted list keeps it sorted. */
  lemma SortedCons<T>(x: T, rest: seq<T>, key: T -> int)
    requires SortedBy(rest, key) && forall y :: y in rest ==> key(x) <= key(y)
    ensures SortedBy([x] + rest, key)
  {
    var r := [x] + rest;
    forall i, j | 0 <= i < j < |r| ensures key(r[i]) <= key(r[j]) {
      assert r[j] == rest[j - 1];
      if i > 0 {
        assert r[i] == rest[i - 1];
      }
    }
  }

  /** `s.filter(p).length`. */
  function Count<T(==)>(s: seq<T>, p: T -> bool): nat
  {
    |Filter(s, p)|
  }

  /** The opposite test, `x => !p(x)`. */
  function Not<T>(p: T -> bool): T -> bool
  {
    x => !p(x)
  }

  /** Every element passes a test or its opposite: the two counts add up to
    * the length. */
  lemma {:induction false} CountSplit<T>(s: seq<T>, p: T -> bool)
    ensures Count(s, p) + Count(s, Not(p)) == |s|
  {
    if s != [] {
      CountSplit(s[1..], p);
    }
  }

  /** Counting over a concatenation. */
  lemma {:induction false} CountConcat<T>(a: seq<T>, b: seq<T>, p: T -> bool)
    ensures Count(a + b, p) == Count(a, p) + Count(b, p)
  {
    if a == [] {
      assert a + b == b;
    } else {
      var ab := a + b;
      assert ab[0] == a[0] && ab[1..] == a[1..] + b;
      CountConcat(a[1..], b, p);
      CountCons(ab, p);
      CountCons(a, p);
    }
  }

  /** The head's share of a count, then the tail's. */
  lemma CountCons<T>(s: seq<T>, p: T -> bool)
    requires s != []
    ensures Count(s, p) == (if p(s[0]) then 1 else 0) + Count(s[1..], p)
  {
  }

  /** Reordering does not change a count. */
  lemma {:induction false} CountPermutation<T>(a: seq<T>, b: seq<T>, p: T -> bool)
    requires multiset(a) == multiset(b)
    ensures Count(a, p) == Count(b, p)
    decreases |a|
  {
    if a != [] {
      var x := a[0];
      assert x in multiset(b);
      var k :| 0 <= k < |b| && b[k] == x;
      var rest := b[..k] + b[k + 1..];
      MatchFirst(a, b, k);
      CountPermutation(a[1..], rest, p);
      CountConcat([x], a[1..], p);
      CountRemoveAt(b, k, p);
    }
  }

  /** Matching the first element of `a` with `b[k]` leaves two rests with
    * the same elements. */
  lemma MatchFirst<T>(a: seq<T>, b: seq<T>, k: nat)
    requires multiset(a) == multiset(b) && a != [] && k < |b| && b[k] == a[0]
    ensures a == [a[0]] + a[1..]
    ensures multiset(a[1..]) == multiset(b[..k] + b[k + 1..])
  {
    RemoveAt(b, k);
    assert a == [a[0]] + a[1..];
    assert multiset(a) == multiset{a[0]} + multiset(a[1..]);
  }

  /** Taking out the element at `k` takes its share out of a count. */
  lemma CountRemoveAt<T>(b: seq<T>, k: nat, p: T -> bool)
    requires k < |b|
    ensures Count(b, p) == Count(b[..k] + b[k + 1..], p) + Count([b[k]], p)
  {
    assert b == b[..k] + [b[k]] + b[k + 1..];
    CountConcat(b[..k] + [b[k]], b[k + 1..], p);
    CountConcat(b[..k], [b[k]], p);
    CountConcat(b[..k], b[k + 1..], p);
  }

  lemma RemoveAt<T>(b: seq<T>, k: nat)
    requires k < |b|
    ensures b == b[..k] + [b[k]] + b[k + 1..]
    ensures multiset(b[..k] + b[k + 1..]) == multiset(b) - multiset{b[k]}
  {
    assert b == b[..k] + [b[k]] + b[k + 1..];
    calc {
      multiset(b);
      multiset(b[..k] + [b[k]] + b[k + 1..]);
      multiset(b[..k]) + multiset{b[k]} + multiset(b[k + 1..]);
    }
  }

  /** Two lists whose elements pass a test at the same places count the
    * same. */
  lemma {:induction false} CountPointwise<T, U>(a: seq<T>, b: seq<U>, p: T -> bool, q: U -> bool)
    requires |a| == |b|
    requires forall i :: 0 <= i < |a| ==> p(a[i]) == q(b[i])
    ensures Count(a, p) == Count(b, q)
  {
    if a != [] {
      CountPointwise(a[1..], b[1..], p, q);
    }
  }

  /** A test implied by another counts at least as many elements. */
  lemma {:induction false} CountMonotone<T>(s: seq<T>, p: T -> bool, q: T -> bool)
    requires forall x :: p(x) ==> q(x)
    ensures Count(s, p) <= Count(s, q)
  {
    if s != [] {
      CountMonotone(s[1..], p, q);
    }
  }

  /** A test every element passes counts them all. */
  lemma {:induction false} CountAll<T>(s: seq<T>, p: T -> bool)
    requires forall i :: 0 <= i < |s| ==> p(s[i])
    ensures Count(s, p) == |s|
  {
    if s != [] {
      CountAll(s[1..], p);
    }
  }

  /** A test no element passes counts nothing. */
  lemma {:induction false} CountNone<T>(s: seq<T>, p: T -> bool)
    requires forall i :: 0 <= i < |s| ==> !p(s[i])
    ensures Count(s, p) == 0
  {
    if s != [] {
      CountNone(s[1..], p);
    }
  }

  /** `r[field] === value` for a string value. */
  function FieldIs(field: string, value: string): Record -> bool
  {
    r => Get(r, field) == Str(value)
  }

  /** `s.slice(-n)` for a positive `n`: the last `n` elements, or all. */
  function LastN<T>(s: seq<T>, n: nat): (r: seq<T>)
    ensures |r| == Min(n, |s|)
    ensures r == s[|s| - |r|..]
  {
    if |s| <= n then s else s[|s| - n..]
  }

  /** `s.slice(0, n)`: the first `n` elements, or all. */
  function FirstN<T>(s: seq<T>, n: nat): (r: seq<T>)
    ensures |r| == Min(n, |s|)
    ensures r == s[..|r|]
  {
    if |s| <= n then s else s[..n]
  }

  /** The page's module-level `unsubscribe`: the handle of the store
    * listener the page holds, if any. */
  class Subscription {
    var current: Option<EhsStore.ListenerId>

    constructor ()
      ensures current == None
    {
      current := None;
    }

    /** `if (unsubscribe) unsubscribe(); unsubscribe = subscribe(listener)`,
      * run on every render. Rendering again drops the old listener before
      * adding the new one, so a page never piles up listeners. */
    method Renew(store: EhsStore.Store, l: EhsStore.ListenerId)
      modifies this, store`listeners
      ensures current == Some(l)
      ensures store.listeners ==
        (if old(current).Some? then EhsStore.RemoveFirst(old(store.listeners), old(current).value)
         else old(store.listeners)) + [l]
      ensures old(current).Some? && old(current).value in old(store.listeners) ==>
        |store.listeners| == |old(store.listeners)|
      ensures (l !in old(store.listeners) && old(current).Some? && old(current).value != l &&
               multiset(old(store.listeners))[old(current).value] == 1) ==>
        old(current).value !in store.listeners && multiset(store.listeners)[l] == 1
    {
      if current.Some? {
        if current.value in store.listeners {
          EhsStore.RemoveFirstTakesOne(store.listeners, current.value);
        }
        store.Unsubscribe(current.value);
      }
      store.Subscribe(l);
      current := Some(l);
    }
  }
}

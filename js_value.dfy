// The JavaScript values the EHS application stores and compares: plain
// objects (records), arrays, strings, integer numbers (with -Infinity, which
// `Math.max()` of no arguments produces), booleans, dates, null and
// undefined; truthiness, strict equality and the spread-merge of objects.

module JsValue {
  import opened JsText

  /** An integer JavaScript number, or -Infinity. */
  datatype Num = Fin(n: int) | NegInf

  datatype Value =
    | Undefined
    | Null
    | Bool(b: bool)
    | Number(num: Num)
    | Str(s: string)
    | Date(ms: int)
    | Arr(items: seq<Value>)
    | Obj(fields: map<string, Value>)

  /** A plain object. Spread `{ ...a, ...b }` is the map union `a + b`: the
    * keys of `b` win. */
  type Record = map<string, Value>

  /** JavaScript truthiness. */
  predicate Truthy(v: Value)
  {
    match v
    case Undefined => false
    case Null => false
    case Bool(b) => b
    case Number(x) => x != Fin(0)
    case Str(s) => s != ""
    case Date(_) => true
    case Arr(_) => true
    case Obj(_) => true
  }

  /** `a === b`. Dates, arrays and objects compare by reference; the model
    * treats two such values as distinct references. */
  predicate StrictEq(a: Value, b: Value)
  {
    match a
    case Undefined => b.Undefined?
    case Null => b.Null?
    case Bool(x) => b.Bool? && b.b == x
    case Number(x) => b.Number? && b.num == x
    case Str(x) => b.Str? && b.s == x
    case Date(_) => false
    case Arr(_) => false
    case Obj(_) => false
  }

  /** `obj[key]` on a plain object: `undefined` for an absent key. */
  function Get(r: Record, key: string): (v: Value)
    ensures key !in r ==> v == Undefined
  {
    if key in r then r[key] else Undefined
  }

  /** A number literal. */
  function IntV(n: int): Value
  {
    Number(Fin(n))
  }

  /** `String(v)`, or `${v}` in a template literal, for the values an id or
    * a title holds; dates and arrays, whose text depends on the locale or on
    * their elements, are left empty. */
  function ToText(v: Value): string
  {
    match v
    case Str(s) => s
    case Undefined => "undefined"
    case Null => "null"
    case Bool(b) => if b then "true" else "false"
    case Number(x) => if x.Fin? then IntToString(x.n) else "-Infinity"
    case Obj(_) => "[object Object]"
    case _ => ""
  }

  /** What `parseInt(text)` stores: the number, or `undefined` standing in
    * for NaN. */
  function ParsedNumber(text: string): (v: Value)
    ensures v.Number? <==> ParseInt(text).Some?
  {
    match ParseInt(text)
    case Some(n) => IntV(n)
    case None => Undefined
  }

  /** The record carries a numeric `id`. */
  predicate HasNumId(r: Record)
  {
    "id" in r && r["id"].Number?
  }

  /** Every record of a table carries a numeric `id`. */
  predicate IdTable(t: seq<Record>)
  {
    forall i :: 0 <= i < |t| ==> HasNumId(t[i])
  }

  /** `x <= y` on numbers with -Infinity. */
  predicate NumLe(x: Num, y: Num)
  {
    x.NegInf? || (y.Fin? && x.n <= y.n)
  }

  function MaxNum(x: Num, y: Num): (m: Num)
    ensures NumLe(x, m) && NumLe(y, m) && (m == x || m == y)
  {
    if NumLe(x, y) then y else x
  }

  /** `x + 1`; -Infinity stays -Infinity. */
  function Succ(x: Num): Num
  {
    if x.Fin? then Fin(x.n + 1) else NegInf
  }

  /** `Math.max(...t.map(r => r.id))`: -Infinity for an empty table. */
  function MaxId(t: seq<Record>): (m: Num)
    requires IdTable(t)
    ensures forall i :: 0 <= i < |t| ==> NumLe(t[i]["id"].num, m)
    ensures t == [] ==> m.NegInf?
    ensures t != [] ==> exists i :: 0 <= i < |t| && t[i]["id"].num == m
  {
    if t == [] then NegInf
    else
      var m := MaxNum(t[0]["id"].num, MaxId(t[1..]));
      assert forall i :: 1 <= i < |t| ==> t[i] == t[1..][i - 1];
      m
  }

  /** `Math.max(0, ...ids) + 1`: the id rule of tables that guard against an
    * empty table. */
  function NextIdFloored(t: seq<Record>): (id: Num)
    requires IdTable(t)
  {
    Succ(MaxNum(Fin(0), MaxId(t)))
  }

  /** `Math.max(...ids) + 1`: the id rule of tables without that guard. */
  function NextIdUnfloored(t: seq<Record>): (id: Num)
    requires IdTable(t)
  {
    Succ(MaxId(t))
  }

  /** The guarded rule always gives a positive id greater than every id in the
    * table, so the new record's id is fresh. */
  lemma NextIdFlooredFresh(t: seq<Record>)
    requires IdTable(t)
    ensures NextIdFloored(t).Fin? && NextIdFloored(t).n >= 1
    ensures forall i :: 0 <= i < |t| ==> t[i]["id"] != Number(NextIdFloored(t))
  {
  }

  /** The unguarded rule gives -Infinity on an empty table (and on a table
    * whose ids are all -Infinity), otherwise a fresh id one above the
    * largest. */
  lemma NextIdUnflooredCases(t: seq<Record>)
    requires IdTable(t)
    ensures t == [] ==> NextIdUnfloored(t) == NegInf
    ensures (exists i :: 0 <= i < |t| && t[i]["id"].num.Fin?) ==>
      NextIdUnfloored(t).Fin? &&
      forall i :: 0 <= i < |t| ==> t[i]["id"] != Number(NextIdUnfloored(t))
  {
  }

  /** The two id rules agree exactly when the table's largest id is a number
    * that is at least 0. */
  lemma NextIdRulesAgree(t: seq<Record>)
    requires IdTable(t)
    ensures NextIdFloored(t) == NextIdUnfloored(t) <==> (MaxId(t).Fin? && MaxId(t).n >= 0)
  {
  }

  /** The first element of `t` satisfying `p`: `Array.prototype.find`. */
  function FindFirst<T>(t: seq<T>, p: T -> bool): (r: Option<nat>)
    ensures r.Some? ==>
      (r.value < |t| && p(t[r.value]) && forall j :: 0 <= j < r.value ==> !p(t[j]))
    ensures r.None? ==> forall j :: 0 <= j < |t| ==> !p(t[j])
  {
    if t == [] then None
    else if p(t[0]) then Some(0)
    else
      match FindFirst(t[1..], p)
      case None => None
      case Some(k) =>
        assert forall j :: 1 <= j < k + 1 ==> t[j] == t[1..][j - 1];
        Some(k + 1)
  }

  /** `Array.prototype.filter`. */
  function Filter<T(==)>(t: seq<T>, p: T -> bool): (r: seq<T>)
    ensures |r| <= |t|
    ensures forall i :: 0 <= i < |r| ==> r[i] in t && p(r[i])
    ensures forall i :: 0 <= i < |t| && p(t[i]) ==> t[i] in r
  {
    if t == [] then []
    else if p(t[0]) then [t[0]] + Filter(t[1..], p)
    else Filter(t[1..], p)
  }

  /** A filter every element passes keeps the whole sequence. */
  lemma {:induction false} FilterKeepsAll<T>(t: seq<T>, p: T -> bool)
    requires forall k :: 0 <= k < |t| ==> p(t[k])
    ensures Filter(t, p) == t
  {
    if t != [] {
      var rest := t[1..];
      forall k | 0 <= k < |rest| ensures p(rest[k]) {
        assert rest[k] == t[k + 1];
      }
      FilterKeepsAll(rest, p);
      assert [t[0]] + rest == t;
    }
  }

  /** Filtering a concatenation filters each part, in order. */
  lemma {:induction false} FilterConcat<T>(a: seq<T>, b: seq<T>, p: T -> bool)
    ensures Filter(a + b, p) == Filter(a, p) + Filter(b, p)
  {
    if a == [] {
      assert a + b == b;
    } else {
      assert (a + b)[0] == a[0];
      assert (a + b)[1..] == a[1..] + b;
      FilterConcat(a[1..], b, p);
    }
  }

  /** Each element that passes occurs in the result as often as in the
    * input, and no other element occurs. */
  lemma {:induction false} FilterMultiplicity<T>(t: seq<T>, p: T -> bool, x: T)
    ensures multiset(Filter(t, p))[x] == if p(x) then multiset(t)[x] else 0
  {
    if t != [] {
      assert t == [t[0]] + t[1..];
      FilterMultiplicity(t[1..], p, x);
      assert multiset(t) == multiset{t[0]} + multiset(t[1..]);
      if p(t[0]) {
        assert Filter(t, p) == [t[0]] + Filter(t[1..], p);
        assert multiset(Filter(t, p)) == multiset{t[0]} + multiset(Filter(t[1..], p));
      } else {
        assert Filter(t, p) == Filter(t[1..], p);
        assert t[0] != x || !p(x);
      }
    }
  }

  /** The record whose `id` is the number `n`. */
  predicate IdIs(r: Record, n: int)
  {
    StrictEq(Get(r, "id"), IntV(n))
  }

  /** The first record of `t` whose id is `parseInt(idText)`; NaN matches
    * nothing. */
  function FindById(t: seq<Record>, idText: string): (r: Option<nat>)
    ensures ParseInt(idText).None? ==> r.None?
    ensures r.Some? ==> r.value < |t| && IdIs(t[r.value], ParseInt(idText).value)
  {
    match ParseInt(idText)
    case None => None
    case Some(n) => FindFirst(t, (x: Record) => IdIs(x, n))
  }
}

// String and number primitives of the JavaScript runtime that the
// application code relies on: String.prototype.trim, includes, split,
// toLowerCase, parseInt, template-literal number formatting, the `%`
// operator and Math.round.

module JsText {

  /** The characters JavaScript's `trim()` and the regex class `\s` treat as
    * white space (WhiteSpace and LineTerminator of ECMAScript 262, 12.2/12.3). */
  predicate IsSpace(c: char)
  {
    var n := c as int;
    n == 0x20 || (0x09 <= n <= 0x0D) || n == 0xA0 || n == 0x1680 ||
    (0x2000 <= n <= 0x200A) || n == 0x2028 || n == 0x2029 || n == 0x202F ||
    n == 0x205F || n == 0x3000 || n == 0xFEFF
  }

  /** The names every object literal inherits from `Object.prototype`: a
    * lookup `obj[name]` on a literal finds them although the literal never
    * defined them. */
  predicate PrototypeMember(name: string)
  {
    name in {"constructor", "toString", "toLocaleString", "valueOf",
             "hasOwnProperty", "isPrototypeOf", "propertyIsEnumerable",
             "__proto__", "__defineGetter__", "__defineSetter__",
             "__lookupGetter__", "__lookupSetter__"}
  }

  /** Every character of `s` is white space (the empty string included). */
  predicate Blank(s: string)
  {
    forall i :: 0 <= i < |s| ==> IsSpace(s[i])
  }

  /** Leading white space removed. */
  function TrimStart(s: string): (r: string)
    ensures |r| <= |s| && r == s[|s| - |r|..]
    ensures Blank(s[..|s| - |r|])
    ensures r == [] || !IsSpace(r[0])
  {
    if |s| > 0 && IsSpace(s[0]) then
      var t := TrimStart(s[1..]);
      assert s[..|s| - |t|] == [s[0]] + s[1..][..|s| - 1 - |t|];
      t
    else s
  }

  /** A string that does not start with white space trims to itself. */
  lemma TrimStartUnspaced(s: string)
    requires s == [] || !IsSpace(s[0])
    ensures TrimStart(s) == s
  {
  }

  /** Trailing white space removed. */
  function TrimEnd(s: string): (r: string)
    ensures |r| <= |s| && r == s[..|r|]
    ensures Blank(s[|r|..])
    ensures r == [] || !IsSpace(r[|r| - 1])
  {
    if |s| > 0 && IsSpace(s[|s| - 1]) then
      var t := TrimEnd(s[..|s| - 1]);
      assert s[|t|..] == s[..|s| - 1][|t|..] + [s[|s| - 1]];
      t
    else s
  }

  /** `s.trim()`: leading and trailing white space removed. */
  function Trim(s: string): (r: string)
    ensures |r| <= |s|
  {
    TrimEnd(TrimStart(s))
  }

  /** The trimmed string is the middle slice of `s` between white-space
    * ends, and begins and ends with a non-space character. */
  lemma TrimSlice(s: string)
    ensures exists i, j ::
      (0 <= i <= j <= |s| && Trim(s) == s[i..j] && Blank(s[..i]) && Blank(s[j..]))
    ensures Trim(s) == [] || (!IsSpace(Trim(s)[0]) && !IsSpace(Trim(s)[|Trim(s)| - 1]))
  {
    var a := TrimStart(s);
    var b := TrimEnd(a);
    var i := |s| - |a|;
    SliceOfSuffix(s, i, |b|);
    assert b == s[i..i + |b|] && Blank(s[..i]) && Blank(s[i + |b|..]);
    TrimEnds(s);
  }

  /** The trimmed string begins and ends with a non-space character. */
  lemma TrimEnds(s: string)
    ensures Trim(s) == [] || (!IsSpace(Trim(s)[0]) && !IsSpace(Trim(s)[|Trim(s)| - 1]))
  {
    var a := TrimStart(s);
    var b := TrimEnd(a);
    assert b != [] ==> b[0] == a[0];
  }

  /** A prefix and a suffix of the suffix from `i`. */
  lemma SliceOfSuffix<T>(s: seq<T>, i: nat, n: nat)
    requires i + n <= |s|
    ensures s[i..][..n] == s[i..i + n] && s[i..][n..] == s[i + n..]
  {
  }

  /** `s.trim() === ''` exactly when `s` consists of white space only. */
  lemma TrimEmptyIffBlank(s: string)
    ensures Trim(s) == [] <==> Blank(s)
  {
    TrimSlice(s);
    var r := Trim(s);
    var i, j :| 0 <= i <= j <= |s| && r == s[i..j] && Blank(s[..i]) && Blank(s[j..]);
    if r == [] {
      forall k | 0 <= k < |s| ensures IsSpace(s[k]) {
        if k < i { assert s[..i][k] == s[k]; } else { assert s[j..][k - j] == s[k]; }
      }
    }
  }

  /** Trimming is idempotent. */
  lemma TrimIdempotent(s: string)
    ensures Trim(Trim(s)) == Trim(s)
  {
    TrimSlice(s);
    var r := Trim(s);
    TrimSlice(r);
    var q := Trim(r);
    var i, j :| 0 <= i <= j <= |r| && q == r[i..j] && Blank(r[..i]) && Blank(r[j..]);
    assert r[0..|r|] == r;
  }

  /** `term` occurs in `text` starting at index `i`. */
  predicate OccursAt(text: string, term: string, i: int)
  {
    0 <= i && i + |term| <= |text| && text[i..i + |term|] == term
  }

  /** `text.includes(term)`, computed by scanning from the left. */
  function Includes(text: string, term: string): (b: bool)
    decreases |text|
  {
    if |term| <= |text| && text[..|term|] == term then true
    else if |text| == 0 then false
    else Includes(text[1..], term)
  }

  /** An occurrence in the tail is an occurrence one place further on. */
  lemma OccursShift(text: string, term: string, i: int)
    requires |text| > 0 && i >= 0
    ensures OccursAt(text[1..], term, i) <==> OccursAt(text, term, i + 1)
  {
    if 0 <= i && i + 1 + |term| <= |text| {
      assert text[1..][i..i + |term|] == text[i + 1..i + 1 + |term|];
    }
  }

  /** `Includes` agrees with the occurrence-based definition of a substring. */
  lemma {:induction false} IncludesIffOccurs(text: string, term: string)
    ensures Includes(text, term) <==> exists i :: OccursAt(text, term, i)
    decreases |text|
  {
    if |term| <= |text| && text[..|term|] == term {
      assert OccursAt(text, term, 0);
    } else if |text| > 0 {
      IncludesIffOccurs(text[1..], term);
      if exists i :: OccursAt(text[1..], term, i) {
        var i :| OccursAt(text[1..], term, i);
        OccursShift(text, term, i);
      }
      if exists i :: OccursAt(text, term, i) {
        var i :| OccursAt(text, term, i);
        if i > 0 {
          OccursShift(text, term, i - 1);
        }
      }
    }
  }

  /** The empty search term is found in every text. */
  lemma IncludesEmpty(text: string)
    ensures Includes(text, "")
  {
  }

  /** Lower-case mapping of one character (ASCII letters). */
  function LowerChar(c: char): (d: char)
    ensures 'A' <= c <= 'Z' ==> d as int == c as int + 32
    ensures !('A' <= c <= 'Z') ==> d == c
  {
    if 'A' <= c <= 'Z' then (c as int + 32) as char else c
  }

  /** `s.toLowerCase()`, character by character. */
  function ToLower(s: string): (r: string)
    ensures |r| == |s|
    ensures forall i :: 0 <= i < |s| ==> r[i] == LowerChar(s[i])
  {
    if s == [] then [] else [LowerChar(s[0])] + ToLower(s[1..])
  }

  /** Lower-casing is idempotent. */
  lemma ToLowerIdempotent(s: string)
    ensures ToLower(ToLower(s)) == ToLower(s)
  {
    var a := ToLower(s);
    var b := ToLower(a);
    assert forall i :: 0 <= i < |s| ==> b[i] == LowerChar(LowerChar(s[i])) == a[i];
  }

  /** An ASCII capital letter, the characters `toLowerCase` changes here. */
  predicate IsUpper(c: char)
  {
    'A' <= c <= 'Z'
  }

  /** A text without capitals is its own lower-case form. */
  lemma ToLowerNoCapitals(s: string)
    requires forall i :: 0 <= i < |s| ==> !IsUpper(s[i])
    ensures ToLower(s) == s
  {
  }

  /** Lower-casing both sides keeps an occurrence: a text containing a term
    * still contains it once both are lower-cased. */
  lemma ToLowerKeepsIncludes(text: string, term: string)
    requires Includes(text, term)
    ensures Includes(ToLower(text), ToLower(term))
  {
    IncludesIffOccurs(text, term);
    var i :| OccursAt(text, term, i);
    var lt := ToLower(text);
    assert lt[i..i + |term|] == ToLower(term) by {
      forall j | 0 <= j < |term|
        ensures lt[i..i + |term|][j] == ToLower(term)[j]
      {
        assert text[i..i + |term|][j] == term[j];
      }
    }
    assert OccursAt(lt, ToLower(term), i);
    IncludesIffOccurs(lt, ToLower(term));
  }

  /** No lower-cased text contains a term with a capital letter. */
  lemma LowerTextMissesCapitals(text: string, term: string, k: nat)
    requires k < |term| && IsUpper(term[k])
    ensures !Includes(ToLower(text), term)
  {
    var lt := ToLower(text);
    forall i | 0 <= i && i + |term| <= |lt|
      ensures !OccursAt(lt, term, i)
    {
      assert lt[i..i + |term|][k] == lt[i + k] == LowerChar(text[i + k]);
      assert !IsUpper(lt[i + k]);
    }
    IncludesIffOccurs(lt, term);
  }

  /** `parts.join(sep)`. */
  function Join(parts: seq<string>, sep: char): string
  {
    if |parts| == 0 then ""
    else if |parts| == 1 then parts[0]
    else parts[0] + [sep] + Join(parts[1..], sep)
  }

  /** `s.split(sep)` for a single-character separator: the pieces between
    * separators, at least one, none containing the separator. */
  function Split(s: string, sep: char): (parts: seq<string>)
    ensures |parts| >= 1
    ensures forall k :: 0 <= k < |parts| ==> sep !in parts[k]
    ensures Join(parts, sep) == s
    decreases |s|
  {
    if |s| == 0 then [""]
    else if s[0] == sep then
      var rest := Split(s[1..], sep);
      assert s == [] + [sep] + Join(rest, sep);
      [""] + rest
    else
      var rest := Split(s[1..], sep);
      var parts := [[s[0]] + rest[0]] + rest[1..];
      assert rest == [rest[0]] + rest[1..];
      assert sep !in [s[0]] + rest[0];
      JoinConsHead(s[0], rest, sep);
      parts
  }

  lemma JoinConsHead(c: char, parts: seq<string>, sep: char)
    requires |parts| >= 1
    ensures Join([[c] + parts[0]] + parts[1..], sep) == [c] + Join(parts, sep)
  {
    var q := [[c] + parts[0]] + parts[1..];
    if |parts| > 1 {
      assert q[1..] == parts[1..];
    }
  }

  /** The first piece of `s.split(sep)` never contains the separator and is a
    * prefix of `s`; it is all of `s` when `s` has no separator. */
  lemma SplitHead(s: string, sep: char)
    ensures Split(s, sep)[0] == s[..|Split(s, sep)[0]|]
    ensures sep !in s ==> Split(s, sep) == [s]
    decreases |s|
  {
    if |s| > 0 {
      var rest := Split(s[1..], sep);
      SplitHead(s[1..], sep);
      if s[0] != sep {
        var h := rest[0];
        assert Split(s, sep)[0] == [s[0]] + h;
        assert s[..1 + |h|] == [s[0]] + s[1..][..|h|];
        if sep !in s {
          assert sep !in s[1..];
          assert s == [s[0]] + s[1..];
        }
      }
    }
  }

  /** Splitting at a first separator: the piece before it, then the pieces
    * of the rest. */
  lemma {:induction false} SplitPrefix(a: string, t: string, sep: char)
    requires sep !in a
    ensures Split(a + [sep] + t, sep) == [a] + Split(t, sep)
    decreases |a|
  {
    if |a| == 0 {
      assert (a + [sep] + t)[1..] == t;
    } else {
      assert (a + [sep] + t)[1..] == a[1..] + [sep] + t;
      SplitPrefix(a[1..], t, sep);
      assert [a[0]] + a[1..] == a;
    }
  }

  /** `split` undoes `join` for pieces that hold no separator. */
  lemma {:induction false} SplitJoin(parts: seq<string>, sep: char)
    requires |parts| >= 1
    requires forall k :: 0 <= k < |parts| ==> sep !in parts[k]
    ensures Split(Join(parts, sep), sep) == parts
    decreases |parts|
  {
    if |parts| == 1 {
      SplitHead(parts[0], sep);
    } else {
      SplitJoin(parts[1..], sep);
      SplitPrefix(parts[0], Join(parts[1..], sep), sep);
      assert parts == [parts[0]] + parts[1..];
    }
  }

  /** An ASCII decimal digit. */
  predicate IsDigit(c: char)
  {
    '0' <= c <= '9'
  }

  /** The regular expression `^\d+$`: one or more decimal digits. */
  predicate AllDigits(s: string)
  {
    |s| > 0 && forall i :: 0 <= i < |s| ==> IsDigit(s[i])
  }

  /** The decimal spelling of a natural number, as `String(n)` gives it. */
  function NatToString(n: nat): (s: string)
    ensures AllDigits(s)
    ensures n > 0 ==> s[0] != '0'
    decreases n
  {
    if n < 10 then ["0123456789"[n]]
    else NatToString(n / 10) + ["0123456789"[n % 10]]
  }

  /** The decimal spelling of an integer, with a leading `-` when negative. */
  function IntToString(n: int): (s: string)
    ensures |s| > 0
    ensures n < 0 <==> s[0] == '-'
  {
    if n < 0 then "-" + NatToString(-n) else NatToString(n)
  }

  /** Value of a run of decimal digits. */
  function DigitsValue(s: string): (n: nat)
    requires forall i :: 0 <= i < |s| ==> IsDigit(s[i])
    decreases |s|
  {
    if |s| == 0 then 0
    else
      assert IsDigit(s[|s| - 1]);
      DigitsValue(s[..|s| - 1]) * 10 + (s[|s| - 1] as int - '0' as int)
  }

  /** Length of the longest run of digits at the front of `s`. */
  function DigitPrefixLen(s: string): (k: nat)
    ensures k <= |s|
    ensures forall i :: 0 <= i < k ==> IsDigit(s[i])
    ensures k < |s| ==> !IsDigit(s[k])
  {
    if |s| > 0 && IsDigit(s[0]) then 1 + DigitPrefixLen(s[1..]) else 0
  }

  /** `parseInt(s, 10)`: leading white space skipped, an optional sign, then
    * the longest run of digits; `None` (NaN) when there is no digit. */
  function ParseInt(s: string): Option<int>
  {
    var t := TrimStart(s);
    var neg := |t| > 0 && t[0] == '-';
    var u := if |t| > 0 && (t[0] == '-' || t[0] == '+') then t[1..] else t;
    var k := DigitPrefixLen(u);
    if k == 0 then None
    else
      var v: int := DigitsValue(u[..k]);
      var w: int := if neg then -v else v;
      Some(w)
  }

  datatype Option<T> = None | Some(value: T)

  lemma {:induction false} DigitPrefixAll(s: string)
    requires forall i :: 0 <= i < |s| ==> IsDigit(s[i])
    ensures DigitPrefixLen(s) == |s|
    decreases |s|
  {
    if |s| > 0 {
      DigitPrefixAll(s[1..]);
    }
  }

  /** A string of digits parses to the number it spells. */
  lemma ParseIntOfDigits(s: string)
    requires AllDigits(s)
    ensures ParseInt(s) == Some(DigitsValue(s))
  {
    assert !IsSpace(s[0]) && s[0] != '-' && s[0] != '+';
    assert TrimStart(s) == s;
    DigitPrefixAll(s);
    assert s[..|s|] == s;
  }

  lemma {:induction false} NatToStringValue(n: nat)
    ensures DigitsValue(NatToString(n)) == n
    decreases n
  {
    if n >= 10 {
      NatToStringValue(n / 10);
      var s := NatToString(n / 10) + ["0123456789"[n % 10]];
      assert s[..|s| - 1] == NatToString(n / 10);
    }
  }

  /** `parseInt(String(n))` gives back `n`. */
  lemma ParseIntOfNatToString(n: nat)
    ensures ParseInt(NatToString(n)) == Some(n)
  {
    ParseIntOfDigits(NatToString(n));
    NatToStringValue(n);
  }

  /** `Math.round(p / q)` for a positive denominator: the nearest integer,
    * halves rounded up. */
  function RoundDiv(p: int, q: int): (r: int)
    requires q > 0
    ensures 2 * q * r - q <= 2 * p < 2 * q * r + q
  {
    (2 * p + q) / (2 * q)
  }

  /** `d * a <= d * b` for a positive `d` exactly when `a <= b`. */
  lemma MulMonotone(d: int, a: int, b: int)
    requires d > 0
    ensures d * a <= d * b <==> a <= b
  {
    assert d * b - d * a == d * (b - a);
  }

  /** `Math.min(a, b)` and `Math.max(a, b)`. */
  function Min(a: int, b: int): (m: int)
    ensures m <= a && m <= b && (m == a || m == b)
  {
    if a <= b then a else b
  }

  function Max(a: int, b: int): (m: int)
    ensures m >= a && m >= b && (m == a || m == b)
  {
    if a >= b then a else b
  }

  /** `Math.ceil(p / q)` for a positive denominator. */
  function CeilDiv(p: int, q: int): (r: int)
    requires q > 0
    ensures q * (r - 1) < p <= q * r
  {
    (p + q - 1) / q
  }

  /** The left-most occurrence of `x` in `s`, or -1: `Array.prototype.indexOf`. */
  function IndexOf<T(==)>(s: seq<T>, x: T): (i: int)
    ensures -1 <= i < |s|
    ensures i >= 0 ==> s[i] == x && x !in s[..i]
    ensures i == -1 <==> x !in s
  {
    if |s| == 0 then -1
    else if s[0] == x then 0
    else
      var j := IndexOf(s[1..], x);
      assert s[1..] == s[1..][..|s| - 1];
      if j == -1 then -1
      else
        assert s[..j + 1] == [s[0]] + s[1..][..j];
        j + 1
  }

  /** An occurrence with no earlier occurrence is the one `indexOf` finds. */
  lemma {:induction false} IndexOfFirst<T>(s: seq<T>, x: T, i: nat)
    requires i < |s| && s[i] == x && x !in s[..i]
    ensures IndexOf(s, x) == i
  {
    if i > 0 {
      assert s[0] == s[..i][0];
      assert s[1..][..i - 1] == s[1..i];
      assert forall k :: 1 <= k < i ==> s[k] == s[..i][k];
      IndexOfFirst(s[1..], x, i - 1);
    }
  }

  /** `a.splice(start, 1)` on a sequence: a negative start counts from the
    * end (clamped to 0) and a start at or after the end removes nothing. */
  function SpliceOne<T>(s: seq<T>, start: int): (r: seq<T>)
    ensures var k := if start < 0 then Max(0, |s| + start) else start;
      if k < |s| then r == s[..k] + s[k + 1..] else r == s
  {
    var k := if start < 0 then Max(0, |s| + start) else start;
    if k < |s| then s[..k] + s[k + 1..] else s
  }

  /** Splicing an in-range index removes exactly one element. */
  lemma SpliceOneInRange<T>(s: seq<T>, k: int)
    requires 0 <= k < |s|
    ensures |SpliceOne(s, k)| == |s| - 1
    ensures multiset(SpliceOne(s, k)) + multiset{s[k]} == multiset(s)
  {
    assert s == s[..k] + [s[k]] + s[k + 1..];
  }

  /** JavaScript's `a % b` for a positive `b`: the remainder takes the sign
    * of `a` (truncating division), unlike Dafny's `%`. */
  function JsRem(a: int, b: int): (r: int)
    requires b > 0
    ensures a >= 0 ==> r == a % b
    ensures a < 0 ==> -b < r <= 0
  {
    if a >= 0 then a % b else -((-a) % b)
  }
}

// Lists of records that carry a string id: the id list, lookup of the first
// record with an id, removal of that record (`indexOf` + `splice`), removal
// of every record with an id (`filter`), and in-place replacement
// (`findIndex` + index assignment). Used by the editors and the storage
// service.

module KeyedSeq {
  import opened JsText

  /** The ids of the records, in order. */
  function Keys<T>(s: seq<T>, key: T -> string): (r: seq<string>)
    ensures |r| == |s| && forall i :: 0 <= i < |s| ==> r[i] == key(s[i])
  {
    seq(|s|, i requires 0 <= i < |s| => key(s[i]))
  }

  predicate Distinct(s: seq<string>)
  {
    forall i, j :: 0 <= i < j < |s| ==> s[i] != s[j]
  }

  /** The position of the first record with id `x`, or -1. */
  function Position<T>(s: seq<T>, key: T -> string, x: string): (k: int)
    ensures -1 <= k < |s|
    ensures k >= 0 ==> key(s[k]) == x && forall j :: 0 <= j < k ==> key(s[j]) != x
    ensures k == -1 ==> forall j :: 0 <= j < |s| ==> key(s[j]) != x
  {
    var ks := Keys(s, key);
    var k := IndexOf(ks, x);
    assert k >= 0 ==> forall j :: 0 <= j < k ==> ks[..k][j] == ks[j];
    assert k == -1 ==> forall j :: 0 <= j < |s| ==> ks[j] in ks;
    k
  }

  /** `s.splice(s.indexOf(r), 1)` after `indexOf` found `r` by identity, or
    * `s` unchanged when no record has that id. */
  function RemoveFirst<T>(s: seq<T>, key: T -> string, x: string): (r: seq<T>)
    ensures Position(s, key, x) == -1 ==> r == s
    ensures Position(s, key, x) >= 0 ==> |r| == |s| - 1
  {
    var k := Position(s, key, x);
    if k == -1 then s else s[..k] + s[k + 1..]
  }

  /** `s.filter(r => r.id !== x)`: every record without that id, in order. */
  function WithoutKey<T>(s: seq<T>, key: T -> string, x: string): (r: seq<T>)
    ensures |r| <= |s|
    ensures forall i :: 0 <= i < |r| ==> key(r[i]) != x
    decreases |s|
  {
    if s == [] then []
    else (if key(s[0]) == x then [] else [s[0]]) + WithoutKey(s[1..], key, x)
  }

  /** A list without the id is left as it is by the filter. */
  lemma {:induction false} WithoutAbsentKey<T>(s: seq<T>, key: T -> string, x: string)
    requires forall j :: 0 <= j < |s| ==> key(s[j]) != x
    ensures WithoutKey(s, key, x) == s
    decreases |s|
  {
    if s != [] {
      WithoutAbsentKey(s[1..], key, x);
      assert s == [s[0]] + s[1..];
    }
  }

  /** The ids of the tail of a list with distinct ids are distinct, and
    * differ from the head's. */
  lemma DistinctTail<T>(s: seq<T>, key: T -> string)
    requires s != [] && Distinct(Keys(s, key))
    ensures Distinct(Keys(s[1..], key))
    ensures forall j :: 0 <= j < |s| - 1 ==> key(s[1..][j]) != key(s[0])
  {
    var ks := Keys(s, key);
    forall i, j | 0 <= i < j < |s| - 1
      ensures Keys(s[1..], key)[i] != Keys(s[1..], key)[j]
    {
      assert ks[i + 1] != ks[j + 1];
    }
    forall j | 0 <= j < |s| - 1
      ensures key(s[1..][j]) != key(s[0])
    {
      assert ks[0] != ks[j + 1];
    }
  }

  /** Past a head with another id, removal works on the tail. */
  lemma RemoveFirstCons<T>(s: seq<T>, key: T -> string, x: string)
    requires s != [] && key(s[0]) != x
    ensures RemoveFirst(s, key, x) == [s[0]] + RemoveFirst(s[1..], key, x)
  {
    var t := s[1..];
    PositionCons(s, key, x);
    var k1 := Position(t, key, x);
    if k1 == -1 {
      assert s == [s[0]] + t;
    } else {
      SpliceCons(s, k1);
    }
  }

  /** Cutting out the element after position `k` of the tail. */
  lemma SpliceCons<T>(s: seq<T>, k: nat)
    requires k + 1 < |s|
    ensures s[..k + 1] + s[k + 2..] == [s[0]] + (s[1..][..k] + s[1..][k + 1..])
  {
    var t := s[1..];
    assert s[..k + 1] == [s[0]] + t[..k];
    assert s[k + 2..] == t[k + 1..];
  }

  /** Past a head with another id, the position is one more than in the
    * tail. */
  lemma PositionCons<T>(s: seq<T>, key: T -> string, x: string)
    requires s != [] && key(s[0]) != x
    ensures Position(s, key, x) ==
      if Position(s[1..], key, x) == -1 then -1 else Position(s[1..], key, x) + 1
  {
    var ks := Keys(s, key);
    assert ks[1..] == Keys(s[1..], key);
  }

  /** When ids are distinct, removing the first record with an id is the same
    * as filtering out every record with it: exactly that record goes and the
    * others keep their order. */
  lemma {:induction false} RemoveFirstIsFilter<T>(s: seq<T>, key: T -> string, x: string)
    requires Distinct(Keys(s, key))
    ensures RemoveFirst(s, key, x) == WithoutKey(s, key, x)
    decreases |s|
  {
    if s != [] {
      DistinctTail(s, key);
      if key(s[0]) == x {
        WithoutAbsentKey(s[1..], key, x);
      } else {
        RemoveFirstIsFilter(s[1..], key, x);
        RemoveFirstCons(s, key, x);
      }
    }
  }

  /** Appending a record with a fresh id keeps the ids distinct. */
  lemma AppendFresh<T>(s: seq<T>, key: T -> string, r: T)
    requires Distinct(Keys(s, key))
    requires forall j :: 0 <= j < |s| ==> key(s[j]) != key(r)
    ensures Distinct(Keys(s + [r], key))
  {
    var t := s + [r];
    forall i, j | 0 <= i < j < |t|
      ensures Keys(t, key)[i] != Keys(t, key)[j]
    {
      if j < |s| {
        assert Keys(s, key)[i] != Keys(s, key)[j];
      }
    }
  }

  /** Removing one record keeps the ids distinct. */
  lemma RemoveKeepsDistinct<T>(s: seq<T>, key: T -> string, x: string)
    requires Distinct(Keys(s, key))
    ensures Distinct(Keys(RemoveFirst(s, key, x), key))
  {
    var k := Position(s, key, x);
    if k >= 0 {
      var t := RemoveFirst(s, key, x);
      forall i, j | 0 <= i < j < |t|
        ensures Keys(t, key)[i] != Keys(t, key)[j]
      {
        var i' := if i < k then i else i + 1;
        var j' := if j < k then j else j + 1;
        assert t[i] == s[i'] && t[j] == s[j'];
        assert Keys(s, key)[i'] != Keys(s, key)[j'];
      }
    }
  }

  /** Replacing a record by one with the same id keeps the ids distinct. */
  lemma ReplaceKeepsDistinct<T>(s: seq<T>, key: T -> string, k: nat, r: T)
    requires Distinct(Keys(s, key)) && k < |s| && key(r) == key(s[k])
    ensures Distinct(Keys(s[k := r], key))
  {
    assert Keys(s[k := r], key) == Keys(s, key);
  }

  /** `findIndex` by id, then index assignment or `push`: the record
    * replaces the first one with its id, or is appended when none has it. */
  function Upsert<T>(s: seq<T>, key: T -> string, r: T): (t: seq<T>)
    ensures Position(s, key, key(r)) >= 0 ==> t == s[Position(s, key, key(r)) := r]
    ensures Position(s, key, key(r)) == -1 ==> t == s + [r]
  {
    var k := Position(s, key, key(r));
    if k >= 0 then s[k := r] else s + [r]
  }

  /** The list grows by at most one, and only when the id was new; every
    * record with another id keeps its place. */
  lemma UpsertShape<T>(s: seq<T>, key: T -> string, r: T)
    ensures var t := Upsert(s, key, r);
      (|t| == |s| <==> Position(s, key, key(r)) >= 0) &&
      (|t| == |s| + 1 <==> Position(s, key, key(r)) == -1) &&
      forall j :: 0 <= j < |s| && key(s[j]) != key(r) ==> t[j] == s[j]
  {
  }

  /** Looking the id up after an upsert finds the record just stored. */
  lemma {:induction false} PositionAfterUpsert<T>(s: seq<T>, key: T -> string, r: T)
    ensures var t := Upsert(s, key, r);
      0 <= Position(t, key, key(r)) < |t| && t[Position(t, key, key(r))] == r
  {
    var k := Position(s, key, key(r));
    var t := Upsert(s, key, r);
    if k >= 0 {
      assert forall j :: 0 <= j < k ==> t[j] == s[j];
      assert t[k] == r;
      var k' := Position(t, key, key(r));
      assert k' != -1 && !(k' < k) && !(k' > k);
    } else {
      assert forall j :: 0 <= j < |s| ==> t[j] == s[j];
      assert t[|s|] == r;
      var k' := Position(t, key, key(r));
      assert k' != -1 && !(k' < |s|);
    }
  }

  /** An upsert keeps the ids distinct. */
  lemma UpsertKeepsDistinct<T>(s: seq<T>, key: T -> string, r: T)
    requires Distinct(Keys(s, key))
    ensures Distinct(Keys(Upsert(s, key, r), key))
  {
    var k := Position(s, key, key(r));
    if k >= 0 {
      ReplaceKeepsDistinct(s, key, k, r);
    } else {
      AppendFresh(s, key, r);
    }
  }

  /** Filtering an id out of a list with one more record at the end. */
  lemma {:induction false} WithoutKeyAppend<T>(s: seq<T>, key: T -> string, r: T, x: string)
    ensures WithoutKey(s + [r], key, x) ==
      WithoutKey(s, key, x) + (if key(r) == x then [] else [r])
    decreases |s|
  {
    if s == [] {
      assert [] + [r] == [r];
      assert [r][1..] == [];
    } else {
      WithoutKeyAppend(s[1..], key, r, x);
      assert (s + [r])[1..] == s[1..] + [r];
      assert (s + [r])[0] == s[0];
    }
  }

  /** Removing the id of a record just appended with a fresh id gives the
    * list back. */
  lemma WithoutFreshAppended<T>(s: seq<T>, key: T -> string, r: T)
    requires forall j :: 0 <= j < |s| ==> key(s[j]) != key(r)
    ensures WithoutKey(s + [r], key, key(r)) == s
  {
    WithoutKeyAppend(s, key, r, key(r));
    WithoutAbsentKey(s, key, key(r));
  }

  /** After the filter no record with the id is found. */
  lemma PositionAfterWithout<T>(s: seq<T>, key: T -> string, x: string)
    ensures Position(WithoutKey(s, key, x), key, x) == -1
  {
  }

  /** The first position in a concatenation is the first one in its left
    * part, or failing that the first one in its right part. */
  lemma PositionConcat<T>(a: seq<T>, b: seq<T>, key: T -> string, x: string)
    ensures Position(a + b, key, x) ==
      if Position(a, key, x) >= 0 then Position(a, key, x)
      else if Position(b, key, x) >= 0 then |a| + Position(b, key, x)
      else -1
  {
    var pa := Position(a, key, x);
    var pb := Position(b, key, x);
    var p := Position(a + b, key, x);
    assert forall j :: 0 <= j < |a| ==> (a + b)[j] == a[j];
    assert forall j :: 0 <= j < |b| ==> (a + b)[|a| + j] == b[j];
    if pa >= 0 {
      assert (a + b)[pa] == a[pa];
      assert p != -1 && !(p < pa) && !(p > pa);
    } else if pb >= 0 {
      assert (a + b)[|a| + pb] == b[pb];
      assert p != -1 && p >= |a|;
      assert (a + b)[p] == b[p - |a|];
      assert !(p - |a| < pb) && !(p - |a| > pb);
    }
  }
}

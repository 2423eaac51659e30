// The visual causal chain of the 5 Whys wizard
// (5Whys-main/src/app/components/five-whys/visual-causal-chain.component.ts):
// the causal pairs shown in level order, the ordinal printed on each box and
// the highlight of the box for the level being edited.

module CausalChain {
  import opened JsText
  import opened StableSort
  import opened FiveWhysModels
  import FiveWhysTree

  function PairLevel(p: CausalPair): int
  {
    p.level
  }

  /** `getCausalChain()`: no pairs give an empty chain; otherwise a copy of
    * the pairs sorted by level with a stable sort, so the input is left as
    * it was and pairs of one level keep their order. */
  function Chain(causalPairs: Option<seq<CausalPair>>): (r: seq<CausalPair>)
    ensures causalPairs.None? ==> r == []
    ensures causalPairs.Some? ==>
      SortedBy(r, PairLevel) && multiset(r) == multiset(causalPairs.value) &&
      forall k :: WithKey(r, PairLevel, k) == WithKey(causalPairs.value, PairLevel, k)
  {
    if causalPairs.None? then []
    else
      var pairs := causalPairs.value;
      SortBySorted(pairs, PairLevel);
      forall k ensures WithKey(SortBy(pairs, PairLevel), PairLevel, k) == WithKey(pairs, PairLevel, k) {
        SortByStable(pairs, PairLevel, k);
      }
      SortBy(pairs, PairLevel)
  }

  /** A chain whose levels are already in order is shown as it is. */
  lemma {:induction false} ChainOfSorted(pairs: seq<CausalPair>)
    requires SortedBy(pairs, PairLevel)
    ensures Chain(Some(pairs)) == pairs
  {
    if pairs != [] {
      assert SortedBy(pairs[1..], PairLevel);
      ChainOfSorted(pairs[1..]);
      assert Chain(Some(pairs[1..])) == SortBy(pairs[1..], PairLevel);
    }
  }

  /** The fixed names of the first ten ordinals, with "" at index 0. */
  const OrdinalTable: seq<string> :=
    ["", "1st", "2nd", "3rd", "4th", "5th", "6th", "7th", "8th", "9th", "10th"]

  /** `getOrdinalNumber(num)` of the chain: the table up to 10 (a negative
    * index reads `undefined`, here `None`), the usual rule above it. */
  function ChainOrdinal(num: int): (r: Option<string>)
    ensures num > 10 ==> r == Some(FiveWhysTree.OrdinalNumber(num))
    ensures 0 <= num <= 10 ==> r == Some(OrdinalTable[num])
    ensures num < 0 ==> r.None?
  {
    if num <= 10 then
      if 0 <= num then Some(OrdinalTable[num]) else None
    else
      var lastDigit := num % 10;
      var lastTwoDigits := num % 100;
      var suffix :=
        if 11 <= lastTwoDigits <= 13 then "th"
        else if lastDigit == 1 then "st"
        else if lastDigit == 2 then "nd"
        else if lastDigit == 3 then "rd"
        else "th";
      Some(IntToString(num) + suffix)
  }

  /** For every positive level the chain and the tree name the level
    * alike; the table only differs in giving "" for 0. */
  lemma ChainOrdinalAgreesWithTree(num: int)
    requires num >= 1
    ensures ChainOrdinal(num) == Some(FiveWhysTree.OrdinalNumber(num))
  {
    if num <= 10 {
      assert FiveWhysTree.OrdinalSuffix(num) ==
        (if num == 1 then "st" else if num == 2 then "nd" else if num == 3 then "rd" else "th");
      if num < 10 {
        assert IntToString(num) == ["0123456789"[num]];
        assert OrdinalTable[num] == ["0123456789"[num]] + FiveWhysTree.OrdinalSuffix(num) by {
          assert OrdinalTable[1] == "1" + "st" && OrdinalTable[2] == "2" + "nd" && OrdinalTable[3] == "3" + "rd";
          assert OrdinalTable[4] == "4" + "th" && OrdinalTable[5] == "5" + "th" && OrdinalTable[6] == "6" + "th";
          assert OrdinalTable[7] == "7" + "th" && OrdinalTable[8] == "8" + "th" && OrdinalTable[9] == "9" + "th";
        }
      } else {
        assert NatToString(10) == NatToString(1) + ["0123456789"[0]];
        assert IntToString(10) == "10";
        assert OrdinalTable[10] == "10" + "th";
        assert num == 10 && FiveWhysTree.OrdinalSuffix(num) == "th";
      }
    }
  }

  const BoxClasses: string :=
    "bg-teal-50 border-2 rounded-lg p-4 text-center shadow-sm transition-all duration-200 hover:shadow-md"
  const HighlightedBox: string := BoxClasses + " border-teal-400 ring-2 ring-teal-200"
  const PlainBox: string := BoxClasses + " border-teal-200"

  /** `getWhyBoxClasses(level)`: the box of the wizard's current level is
    * the highlighted one, and only that box; no current level highlights
    * nothing. */
  function WhyBoxClasses(currentLevel: Option<int>, level: int): (r: string)
    ensures r == HighlightedBox <==> currentLevel == Some(level)
    ensures r == PlainBox <==> currentLevel != Some(level)
  {
    assert HighlightedBox[|BoxClasses| + 13] == " border-teal-400 ring-2 ring-teal-200"[13] == '4';
    assert PlainBox[|BoxClasses| + 13] == " border-teal-200"[13] == '2';
    if currentLevel == Some(level) then HighlightedBox else PlainBox
  }
}

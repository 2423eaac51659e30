// The 5 Whys tree editor
// (5Whys-main/src/app/components/five-whys-tree/five-whys-tree.component.ts
// and five-whys-tree.models.ts): a rooted tree of why-nodes with a rule on
// how many children a node may have, removal of a subtree, one node marked
// as the root cause, and questions that follow the parent's answer.
//
// The component edits node objects in place; here a tree is a value and
// every edit rebuilds the path to the node it changes. The node an edit
// touches is the one the component's own search finds: the first node in
// pre-order with the id.

module FiveWhysTree {
  import opened JsText
  import opened KeyedSeq
  import FiveWhysModels
  import FiveWhysService

  /** `FiveWhysNode` without its layout position; an absent `isRootCause`
    * reads as false. */
  datatype Node = Node(
    id: string,
    level: int,
    question: string,
    answer: string,
    parentId: Option<string>,
    children: seq<Node>,
    isRootCause: bool)

  datatype TreeData = TreeData(problemStatement: string, rootNode: Node)

  /** A node's own fields, without its children. */
  datatype Label = Label(id: string, level: int, question: string, answer: string,
                         parentId: Option<string>, isRootCause: bool)

  function LabelOf(n: Node): Label
  {
    Label(n.id, n.level, n.question, n.answer, n.parentId, n.isRootCause)
  }

  function LabelId(l: Label): string
  {
    l.id
  }

  function NodeId(n: Node): string
  {
    n.id
  }

  /** `generateQuestionForLevel(level, parentAnswer)`. */
  function QuestionForLevel(level: int, parentAnswer: string): string
  {
    if level == 1 then "Why did this happen?"
    else if parentAnswer != "" then "Why did \"" + parentAnswer + "\" happen?"
    else "Why did this happen? (Level " + IntToString(level) + ")"
  }

  /** The suffix `getOrdinalNumber` appends: 'th' when the last two digits
    * are 11 to 13, otherwise by the last digit; JavaScript's `%` keeps the
    * sign, so a negative number always gets 'th'. */
  function OrdinalSuffix(num: int): (s: string)
    ensures num >= 0 && 11 <= num % 100 <= 13 ==> s == "th"
    ensures num >= 0 && !(11 <= num % 100 <= 13) ==>
      s == (if num % 10 == 1 then "st" else if num % 10 == 2 then "nd"
            else if num % 10 == 3 then "rd" else "th")
    ensures num < 0 ==> s == "th"
  {
    var lastTwo := JsRem(num, 100);
    if 11 <= lastTwo <= 13 then "th"
    else
      var last := JsRem(num, 10);
      if last == 1 then "st" else if last == 2 then "nd" else if last == 3 then "rd" else "th"
  }

  /** `getOrdinalNumber(num)`. */
  function OrdinalNumber(num: int): string
  {
    IntToString(num) + OrdinalSuffix(num)
  }

  /** The labels of a tree in pre-order: the node, then each child's
    * subtree in turn. */
  function PreOrder(n: Node): (s: seq<Label>)
    ensures |s| >= 1 && s[0] == LabelOf(n)
    decreases n
  {
    [LabelOf(n)] + PreOrderAll(n.children)
  }

  function PreOrderAll(cs: seq<Node>): seq<Label>
    decreases cs
  {
    if cs == [] then [] else PreOrder(cs[0]) + PreOrderAll(cs[1..])
  }

  /** `findNodeRecursive(node, id)`: the node itself, else the first match
    * among the children's subtrees, in order. */
  function Find(n: Node, id: string): (r: Option<Node>)
    ensures r.Some? ==> r.value.id == id
    decreases n
  {
    if n.id == id then Some(n) else FindIn(n.children, id)
  }

  function FindIn(cs: seq<Node>, id: string): (r: Option<Node>)
    ensures r.Some? ==> r.value.id == id
    decreases cs
  {
    if cs == [] then None
    else
      var h := Find(cs[0], id);
      if h.Some? then h else FindIn(cs[1..], id)
  }

  /** The search finds a node exactly when some label in pre-order carries
    * the id, and it finds the first such. */
  lemma {:induction false} FindIsFirst(n: Node, id: string)
    ensures var k := Position(PreOrder(n), LabelId, id);
      (Find(n, id).Some? <==> k >= 0) &&
      (Find(n, id).Some? ==> LabelOf(Find(n, id).value) == PreOrder(n)[k])
    decreases n
  {
    PositionConcat([LabelOf(n)], PreOrderAll(n.children), LabelId, id);
    if n.id != id {
      FindInIsFirst(n.children, id);
    }
  }

  lemma {:induction false} FindInIsFirst(cs: seq<Node>, id: string)
    ensures var k := Position(PreOrderAll(cs), LabelId, id);
      (FindIn(cs, id).Some? <==> k >= 0) &&
      (FindIn(cs, id).Some? ==> LabelOf(FindIn(cs, id).value) == PreOrderAll(cs)[k])
    decreases cs
  {
    if cs != [] {
      FindIsFirst(cs[0], id);
      FindInIsFirst(cs[1..], id);
      PositionConcat(PreOrder(cs[0]), PreOrderAll(cs[1..]), LabelId, id);
    }
  }

  /** The outcome of rewriting the first node with an id. */
  datatype Updated = Updated(node: Node, found: bool)
  datatype UpdatedAll = UpdatedAll(nodes: seq<Node>, found: bool)

  /** The tree with `f` applied to the node `Find` returns, the path to it
    * rebuilt; with no such node the tree is unchanged. */
  function MapFirst(n: Node, id: string, f: Node -> Node): (r: Updated)
    ensures r.found <==> Find(n, id).Some?
    ensures !r.found ==> r.node == n
    decreases n
  {
    if n.id == id then Updated(f(n), true)
    else
      var u := MapFirstAll(n.children, id, f);
      Updated(n.(children := u.nodes), u.found)
  }

  function MapFirstAll(cs: seq<Node>, id: string, f: Node -> Node): (r: UpdatedAll)
    ensures r.found <==> FindIn(cs, id).Some?
    ensures |r.nodes| == |cs|
    ensures !r.found ==> r.nodes == cs
    decreases cs
  {
    if cs == [] then UpdatedAll([], false)
    else
      var h := MapFirst(cs[0], id, f);
      if h.found then UpdatedAll([h.node] + cs[1..], true)
      else
        var t := MapFirstAll(cs[1..], id, f);
        assert !t.found ==> [cs[0]] + t.nodes == cs;
        UpdatedAll([cs[0]] + t.nodes, t.found)
  }

  /** When `f` keeps ids, searching the rewritten tree finds the rewritten
    * node. */
  lemma {:induction false} FindAfterMapFirst(n: Node, id: string, f: Node -> Node)
    requires forall x :: f(x).id == x.id
    ensures Find(n, id).Some? ==> Find(MapFirst(n, id, f).node, id) == Some(f(Find(n, id).value))
    decreases n
  {
    if n.id != id {
      FindInAfterMapFirst(n.children, id, f);
    }
  }

  lemma {:induction false} FindInAfterMapFirst(cs: seq<Node>, id: string, f: Node -> Node)
    requires forall x :: f(x).id == x.id
    ensures FindIn(cs, id).Some? ==>
      FindIn(MapFirstAll(cs, id, f).nodes, id) == Some(f(FindIn(cs, id).value))
    decreases cs
  {
    if cs != [] {
      var h := MapFirst(cs[0], id, f);
      FindAfterMapFirst(cs[0], id, f);
      if h.found {
        assert ([h.node] + cs[1..])[0] == h.node;
        assert ([h.node] + cs[1..])[1..] == cs[1..];
      } else {
        var t := MapFirstAll(cs[1..], id, f);
        FindInAfterMapFirst(cs[1..], id, f);
        assert ([cs[0]] + t.nodes)[0] == cs[0];
        assert ([cs[0]] + t.nodes)[1..] == t.nodes;
      }
    }
  }

  /** The search ignores every node `f` is not applied to: two rewrites
    * that agree on the found node give the same tree. */
  lemma {:induction false} MapFirstOnlyTarget(n: Node, id: string, f: Node -> Node, g: Node -> Node)
    requires Find(n, id).Some? ==> f(Find(n, id).value) == g(Find(n, id).value)
    ensures MapFirst(n, id, f) == MapFirst(n, id, g)
    decreases n
  {
    if n.id != id {
      MapFirstAllOnlyTarget(n.children, id, f, g);
    }
  }

  lemma {:induction false} MapFirstAllOnlyTarget(cs: seq<Node>, id: string, f: Node -> Node, g: Node -> Node)
    requires FindIn(cs, id).Some? ==> f(FindIn(cs, id).value) == g(FindIn(cs, id).value)
    ensures MapFirstAll(cs, id, f) == MapFirstAll(cs, id, g)
    decreases cs
  {
    if cs != [] {
      MapFirstOnlyTarget(cs[0], id, f, g);
      if Find(cs[0], id).None? {
        MapFirstAllOnlyTarget(cs[1..], id, f, g);
      }
    }
  }

  /** Each rewritten child is either the old child or that child rewritten. */
  lemma {:induction false} MapFirstAllPointwise(cs: seq<Node>, id: string, f: Node -> Node)
    ensures forall i :: 0 <= i < |cs| ==>
      MapFirstAll(cs, id, f).nodes[i] == cs[i] || MapFirstAll(cs, id, f).nodes[i] == MapFirst(cs[i], id, f).node
    decreases cs
  {
    if cs != [] {
      MapFirstAllPointwise(cs[1..], id, f);
      var r := MapFirstAll(cs, id, f);
      forall i | 1 <= i < |cs|
        ensures r.nodes[i] == cs[i] || r.nodes[i] == MapFirst(cs[i], id, f).node
      {
        assert cs[1..][i - 1] == cs[i];
      }
    }
  }

  // ---------------------------------------------------------------------
  // The shape the editor keeps

  /** The rule `addChildNode` enforces at one node: below the first level a
    * node has at most one child, and every child is one level deeper and
    * names the node as its parent. */
  predicate LocalRule(n: Node)
  {
    (n.level >= 2 ==> |n.children| <= 1) &&
    forall i :: 0 <= i < |n.children| ==>
      n.children[i].level == n.level + 1 && n.children[i].parentId == Some(n.id)
  }

  predicate WellShaped(n: Node)
    decreases n
  {
    LocalRule(n) && forall i :: 0 <= i < |n.children| ==> WellShaped(n.children[i])
  }

  /** A rewrite that keeps a node's id, level and parent and keeps trees
    * well shaped keeps the whole tree well shaped. */
  lemma {:induction false} MapFirstKeepsShape(n: Node, id: string, f: Node -> Node)
    requires forall x :: f(x).id == x.id && f(x).level == x.level && f(x).parentId == x.parentId
    requires forall x :: WellShaped(x) ==> WellShaped(f(x))
    requires WellShaped(n)
    ensures var m := MapFirst(n, id, f).node;
      WellShaped(m) && m.id == n.id && m.level == n.level && m.parentId == n.parentId
    decreases n
  {
    if n.id != id {
      var u := MapFirstAll(n.children, id, f);
      MapFirstAllPointwise(n.children, id, f);
      forall i | 0 <= i < |n.children|
        ensures WellShaped(u.nodes[i]) && u.nodes[i].level == n.children[i].level
          && u.nodes[i].parentId == n.children[i].parentId
      {
        MapFirstKeepsShape(n.children[i], id, f);
      }
    }
  }

  // ---------------------------------------------------------------------
  // Sizes and occurrences

  function Size(n: Node): nat
    decreases n
  {
    1 + SizeAll(n.children)
  }

  function SizeAll(cs: seq<Node>): nat
    decreases cs
  {
    if cs == [] then 0 else Size(cs[0]) + SizeAll(cs[1..])
  }

  /** How many nodes of the tree carry the id. */
  function Count(n: Node, id: string): nat
    decreases n
  {
    (if n.id == id then 1 else 0) + CountAll(n.children, id)
  }

  function CountAll(cs: seq<Node>, id: string): nat
    decreases cs
  {
    if cs == [] then 0 else Count(cs[0], id) + CountAll(cs[1..], id)
  }

  lemma {:induction false} SizeAllConcat(a: seq<Node>, b: seq<Node>)
    ensures SizeAll(a + b) == SizeAll(a) + SizeAll(b)
  {
    if a != [] {
      assert (a + b)[0] == a[0] && (a + b)[1..] == a[1..] + b;
      SizeAllConcat(a[1..], b);
    } else {
      assert a + b == b;
    }
  }

  lemma {:induction false} CountAllConcat(a: seq<Node>, b: seq<Node>, id: string)
    ensures CountAll(a + b, id) == CountAll(a, id) + CountAll(b, id)
  {
    if a != [] {
      assert (a + b)[0] == a[0] && (a + b)[1..] == a[1..] + b;
      CountAllConcat(a[1..], b, id);
    } else {
      assert a + b == b;
    }
  }

  /** The search succeeds exactly when the id occurs in the tree. */
  lemma {:induction false} FindIffOccurs(n: Node, id: string)
    ensures Find(n, id).Some? <==> Count(n, id) > 0
    decreases n
  {
    FindInIffOccurs(n.children, id);
  }

  lemma {:induction false} FindInIffOccurs(cs: seq<Node>, id: string)
    ensures FindIn(cs, id).Some? <==> CountAll(cs, id) > 0
    decreases cs
  {
    if cs != [] {
      FindIffOccurs(cs[0], id);
      FindInIffOccurs(cs[1..], id);
    }
  }

  /** Splitting a child list around one child. */
  lemma Around(cs: seq<Node>, k: nat, id: string)
    requires k < |cs|
    ensures SizeAll(cs) == SizeAll(cs[..k]) + Size(cs[k]) + SizeAll(cs[k + 1..])
    ensures CountAll(cs, id) == CountAll(cs[..k], id) + Count(cs[k], id) + CountAll(cs[k + 1..], id)
    ensures SizeAll(cs[..k] + cs[k + 1..]) == SizeAll(cs[..k]) + SizeAll(cs[k + 1..])
    ensures CountAll(cs[..k] + cs[k + 1..], id) == CountAll(cs[..k], id) + CountAll(cs[k + 1..], id)
  {
    assert cs == cs[..k] + ([cs[k]] + cs[k + 1..]);
    SizeAllConcat(cs[..k], [cs[k]] + cs[k + 1..]);
    SizeAllConcat([cs[k]], cs[k + 1..]);
    CountAllConcat(cs[..k], [cs[k]] + cs[k + 1..], id);
    CountAllConcat([cs[k]], cs[k + 1..], id);
    SizeAllConcat(cs[..k], cs[k + 1..]);
    CountAllConcat(cs[..k], cs[k + 1..], id);
  }

  // ---------------------------------------------------------------------
  // Removal

  datatype Removal = Removal(node: Node, removed: bool)
  datatype RemovalAll = RemovalAll(nodes: seq<Node>, removed: bool)

  /** `removeNodeRecursive(node, id)`: a direct child with the id is spliced
    * out; otherwise the children are tried in order and the first that
    * removes something below itself stops the search. The node itself is
    * never removed. */
  function RemoveBelow(n: Node, id: string): (r: Removal)
    ensures r.node == n.(children := r.node.children)
    ensures !r.removed ==> r.node == n
    decreases n
  {
    var k := Position(n.children, NodeId, id);
    if k >= 0 then Removal(n.(children := SpliceOne(n.children, k)), true)
    else
      var r := RemoveAll(n.children, id);
      Removal(n.(children := r.nodes), r.removed)
  }

  function RemoveAll(cs: seq<Node>, id: string): (r: RemovalAll)
    ensures !r.removed ==> r.nodes == cs
    decreases cs
  {
    if cs == [] then RemovalAll([], false)
    else
      var h := RemoveBelow(cs[0], id);
      if h.removed then RemovalAll([h.node] + cs[1..], true)
      else
        var t := RemoveAll(cs[1..], id);
        RemovalAll([cs[0]] + t.nodes, t.removed)
  }

  /** Something is removed exactly when the id occurs below the node; the
    * tree then loses at least one node and at least one occurrence of the
    * id. */
  lemma {:induction false} RemoveBelowEffect(n: Node, id: string)
    ensures var r := RemoveBelow(n, id);
      (r.removed <==> CountAll(n.children, id) > 0) &&
      (r.removed ==> Size(r.node) < Size(n) && CountAll(r.node.children, id) < CountAll(n.children, id)) &&
      CountAll(r.node.children, id) <= CountAll(n.children, id)
    decreases n
  {
    var cs := n.children;
    var k := Position(cs, NodeId, id);
    var r := RemoveBelow(n, id);
    if k >= 0 {
      Around(cs, k, id);
      assert r.removed && r.node.children == cs[..k] + cs[k + 1..];
      assert NodeId(cs[k]) == id && Count(cs[k], id) >= 1;
    } else {
      assert forall i :: 0 <= i < |cs| ==> NodeId(cs[i]) != id;
      RemoveAllEffect(cs, id);
      assert r.node.children == RemoveAll(cs, id).nodes && r.removed == RemoveAll(cs, id).removed;
    }
    assert Size(r.node) == 1 + SizeAll(r.node.children) && Size(n) == 1 + SizeAll(cs);
  }

  lemma {:induction false} RemoveAllEffect(cs: seq<Node>, id: string)
    requires forall i :: 0 <= i < |cs| ==> cs[i].id != id
    ensures var r := RemoveAll(cs, id);
      (r.removed <==> CountAll(cs, id) > 0) &&
      (r.removed ==> SizeAll(r.nodes) < SizeAll(cs) && CountAll(r.nodes, id) < CountAll(cs, id)) &&
      CountAll(r.nodes, id) <= CountAll(cs, id)
    decreases cs
  {
    if cs != [] {
      var h := RemoveBelow(cs[0], id);
      RemoveBelowEffect(cs[0], id);
      if h.removed {
        var ns := [h.node] + cs[1..];
        assert ns[0] == h.node && ns[1..] == cs[1..];
      } else {
        var t := RemoveAll(cs[1..], id);
        RemoveAllEffect(cs[1..], id);
        var ns := [cs[0]] + t.nodes;
        assert ns[0] == cs[0] && ns[1..] == t.nodes;
      }
    }
  }

  /** When the id occurs exactly once below the node, removal takes it out
    * of the tree entirely. */
  lemma RemoveUnique(n: Node, id: string)
    requires CountAll(n.children, id) == 1
    ensures RemoveBelow(n, id).removed
    ensures FindIn(RemoveBelow(n, id).node.children, id).None?
  {
    RemoveBelowEffect(n, id);
    FindInIffOccurs(RemoveBelow(n, id).node.children, id);
  }

  /** Removal keeps a well-shaped tree well shaped and consistent questions
    * consistent. */
  lemma {:induction false} RemoveKeepsShape(n: Node, id: string)
    ensures WellShaped(n) ==> WellShaped(RemoveBelow(n, id).node)
    ensures Consistent(n) ==> Consistent(RemoveBelow(n, id).node)
    decreases n
  {
    var cs := n.children;
    var k := Position(cs, NodeId, id);
    if k >= 0 {
      var rest := SpliceOne(cs, k);
      assert rest == cs[..k] + cs[k + 1..];
      FewerChildrenKeepShape(n, rest);
    } else {
      RemoveAllKeepsShape(cs, id);
    }
  }

  /** Dropping children keeps a node well shaped and consistent. */
  lemma FewerChildrenKeepShape(n: Node, cs: seq<Node>)
    requires |cs| <= |n.children|
    requires forall c :: c in cs ==> c in n.children
    ensures WellShaped(n) ==> WellShaped(n.(children := cs))
    ensures Consistent(n) ==> Consistent(n.(children := cs))
  {
    var m := n.(children := cs);
    forall i | 0 <= i < |cs| ensures exists j :: 0 <= j < |n.children| && n.children[j] == cs[i] {
      assert cs[i] in n.children;
    }
    if WellShaped(n) {
      assert LocalRule(m);
    }
  }

  /** `b` is `a` with other children, and keeps `a`'s shape and
    * consistency. */
  predicate KeepsShape(a: Node, b: Node)
  {
    b == a.(children := b.children) &&
    (WellShaped(a) ==> WellShaped(b)) && (Consistent(a) ==> Consistent(b))
  }

  lemma {:induction false} RemoveAllKeepsShape(cs: seq<Node>, id: string)
    ensures var r := RemoveAll(cs, id);
      |r.nodes| == |cs| && forall i :: 0 <= i < |cs| ==> KeepsShape(cs[i], r.nodes[i])
    decreases cs
  {
    if cs != [] {
      var h := RemoveBelow(cs[0], id);
      RemoveKeepsShape(cs[0], id);
      var r := RemoveAll(cs, id);
      if h.removed {
        assert r.nodes == [h.node] + cs[1..];
        assert r.nodes[1..] == cs[1..];
      } else {
        RemoveAllKeepsShape(cs[1..], id);
        assert r.nodes == [cs[0]] + RemoveAll(cs[1..], id).nodes;
        assert r.nodes[1..] == RemoveAll(cs[1..], id).nodes;
      }
      KeepsShapeCons(cs, r.nodes);
    }
  }

  /** Shape kept at the head and all along the tails is shape kept
    * everywhere. */
  lemma KeepsShapeCons(a: seq<Node>, b: seq<Node>)
    requires a != [] && |b| == |a| && KeepsShape(a[0], b[0])
    requires forall i :: 0 <= i < |a| - 1 ==> KeepsShape(a[1..][i], b[1..][i])
    ensures forall i :: 0 <= i < |a| ==> KeepsShape(a[i], b[i])
  {
    forall i | 0 < i < |a| ensures KeepsShape(a[i], b[i]) {
      assert a[i] == a[1..][i - 1] && b[i] == b[1..][i - 1];
    }
  }

  // ---------------------------------------------------------------------
  // Root-cause marks

  function Mark(n: Node): nat
  {
    if n.isRootCause then 1 else 0
  }

  /** How many nodes of the tree are marked as the root cause. */
  function MarkCount(n: Node): nat
    decreases n
  {
    Mark(n) + MarkCountAll(n.children)
  }

  function MarkCountAll(cs: seq<Node>): nat
    decreases cs
  {
    if cs == [] then 0 else MarkCount(cs[0]) + MarkCountAll(cs[1..])
  }

  /** `clearAllRootCauses(node)`: every mark in the subtree set to false. */
  function ClearMarks(n: Node): (r: Node)
    ensures r.id == n.id && r.level == n.level && r.parentId == n.parentId
    ensures r.question == n.question && r.answer == n.answer
    ensures |r.children| == |n.children|
    decreases n
  {
    n.(isRootCause := false, children := ClearMarksAll(n.children))
  }

  function ClearMarksAll(cs: seq<Node>): (r: seq<Node>)
    ensures |r| == |cs|
    ensures forall i :: 0 <= i < |cs| ==> r[i] == ClearMarks(cs[i])
    decreases cs
  {
    if cs == [] then [] else [ClearMarks(cs[0])] + ClearMarksAll(cs[1..])
  }

  /** Clearing leaves no mark, changes nothing the search looks at, and
    * keeps a tree well shaped. */
  lemma {:induction false} ClearMarksEffect(n: Node, id: string)
    ensures MarkCount(ClearMarks(n)) == 0
    ensures Find(ClearMarks(n), id) ==
      (if Find(n, id).Some? then Some(ClearMarks(Find(n, id).value)) else None)
    ensures WellShaped(n) ==> WellShaped(ClearMarks(n))
    ensures Consistent(n) ==> Consistent(ClearMarks(n))
    decreases n
  {
    ClearMarksAllEffect(n.children, id);
  }

  lemma {:induction false} ClearMarksAllEffect(cs: seq<Node>, id: string)
    ensures MarkCountAll(ClearMarksAll(cs)) == 0
    ensures FindIn(ClearMarksAll(cs), id) ==
      (if FindIn(cs, id).Some? then Some(ClearMarks(FindIn(cs, id).value)) else None)
    ensures (forall i :: 0 <= i < |cs| ==> WellShaped(cs[i])) ==>
      forall i :: 0 <= i < |cs| ==> WellShaped(ClearMarksAll(cs)[i])
    ensures (forall i :: 0 <= i < |cs| ==> Consistent(cs[i])) ==>
      forall i :: 0 <= i < |cs| ==> Consistent(ClearMarksAll(cs)[i])
    decreases cs
  {
    if cs != [] {
      var r := ClearMarksAll(cs);
      ClearMarksEffect(cs[0], id);
      ClearMarksAllEffect(cs[1..], id);
      assert r[0] == ClearMarks(cs[0]) && r[1..] == ClearMarksAll(cs[1..]);
      forall i | 0 <= i < |cs|
        ensures (WellShaped(cs[i]) ==> WellShaped(r[i])) && (Consistent(cs[i]) ==> Consistent(r[i]))
      {
        ClearMarksEffect(cs[i], id);
      }
    }
  }

  /** Rewriting one node's mark changes the number of marks by the
    * difference at that node. */
  lemma {:induction false} MarksAfterMapFirst(n: Node, id: string, f: Node -> Node)
    requires forall x :: f(x).children == x.children
    ensures var t := Find(n, id);
      MarkCount(MapFirst(n, id, f).node) + (if t.Some? then Mark(t.value) else 0)
        == MarkCount(n) + (if t.Some? then Mark(f(t.value)) else 0)
    decreases n
  {
    if n.id != id {
      MarksAfterMapFirstAll(n.children, id, f);
    }
  }

  lemma {:induction false} MarksAfterMapFirstAll(cs: seq<Node>, id: string, f: Node -> Node)
    requires forall x :: f(x).children == x.children
    ensures var t := FindIn(cs, id);
      MarkCountAll(MapFirstAll(cs, id, f).nodes) + (if t.Some? then Mark(t.value) else 0)
        == MarkCountAll(cs) + (if t.Some? then Mark(f(t.value)) else 0)
    decreases cs
  {
    if cs != [] {
      var h := MapFirst(cs[0], id, f);
      MarksAfterMapFirst(cs[0], id, f);
      if h.found {
        var ns := [h.node] + cs[1..];
        assert ns[0] == h.node && ns[1..] == cs[1..];
      } else {
        var t := MapFirstAll(cs[1..], id, f);
        MarksAfterMapFirstAll(cs[1..], id, f);
        var ns := [cs[0]] + t.nodes;
        assert ns[0] == cs[0] && ns[1..] == t.nodes;
      }
    }
  }

  function Flip(): Node -> Node
  {
    (x: Node) => x.(isRootCause := !x.isRootCause)
  }

  function SetMark(b: bool): Node -> Node
  {
    (x: Node) => x.(isRootCause := b)
  }

  /** `toggleRootCause(id)` on the tree as written: the node is looked up,
    * every mark is cleared (the node's own included) and then the node's
    * now-false mark is negated. */
  function ToggleAsWritten(root: Node, id: string): Node
  {
    if Find(root, id).None? then root
    else MapFirst(ClearMarks(root), id, Flip()).node
  }

  /** As written, the toggled node ends up as the one and only root cause,
    * whatever its mark was before. */
  lemma ToggleAsWrittenMarksTarget(root: Node, id: string)
    requires Find(root, id).Some?
    ensures MarkCount(ToggleAsWritten(root, id)) == 1
    ensures Find(ToggleAsWritten(root, id), id).Some?
    ensures Find(ToggleAsWritten(root, id), id).value.isRootCause
  {
    var c := ClearMarks(root);
    ClearMarksEffect(root, id);
    MarksAfterMapFirst(c, id, Flip());
    FindAfterMapFirst(c, id, Flip());
  }

  /** The check box of a node already marked as root cause cannot be
    * cleared: toggling a marked node leaves the tree as it was. */
  lemma ToggleAsWrittenCannotUnmark()
    ensures var root := Node("r", 1, "Why did this happen?", "", None, [], true);
      ToggleAsWritten(root, "r") == root
  {
  }

  /** `toggleRootCause(id)` as evidently intended: the node's mark is read
    * before the marks are cleared, so a marked node becomes unmarked. */
  function ToggleMark(root: Node, id: string): Node
  {
    var t := Find(root, id);
    if t.None? then root
    else MapFirst(ClearMarks(root), id, SetMark(!t.value.isRootCause)).node
  }

  /** After the corrected toggle the node's mark is the opposite of what it
    * was, and no other node is marked. */
  lemma ToggleMarkFlips(root: Node, id: string)
    requires Find(root, id).Some?
    ensures var was := Find(root, id).value.isRootCause;
      var r := ToggleMark(root, id);
      Find(r, id).Some? && Find(r, id).value.isRootCause == !was &&
      MarkCount(r) == (if was then 0 else 1)
  {
    var was := Find(root, id).value.isRootCause;
    var c := ClearMarks(root);
    ClearMarksEffect(root, id);
    MarksAfterMapFirst(c, id, SetMark(!was));
    FindAfterMapFirst(c, id, SetMark(!was));
  }

  /** Toggling an unmarked node twice leaves no mark in the tree. */
  lemma ToggleMarkTwice(root: Node, id: string)
    requires Find(root, id).Some? && !Find(root, id).value.isRootCause
    ensures MarkCount(ToggleMark(ToggleMark(root, id), id)) == 0
  {
    ToggleMarkFlips(root, id);
    ToggleMarkFlips(ToggleMark(root, id), id);
  }

  /** The corrected toggle keeps a tree well shaped and its questions
    * consistent. */
  lemma ToggleMarkKeepsInvariants(root: Node, id: string)
    ensures WellShaped(root) ==> WellShaped(ToggleMark(root, id))
    ensures Consistent(root) ==> Consistent(ToggleMark(root, id))
  {
    var t := Find(root, id);
    if t.Some? {
      ClearMarksEffect(root, id);
      var f := SetMark(!t.value.isRootCause);
      forall x
        ensures f(x).id == x.id && f(x).level == x.level && f(x).parentId == x.parentId
          && f(x).question == x.question
          && (WellShaped(x) ==> WellShaped(f(x))) && (Consistent(x) ==> Consistent(f(x)))
      {
        assert f(x).children == x.children && f(x).answer == x.answer;
      }
      if WellShaped(root) {
        MapFirstKeepsShape(ClearMarks(root), id, f);
      }
      if Consistent(root) {
        MapFirstKeepsConsistent(ClearMarks(root), id, f);
      }
    }
  }

  /** The toggle as written keeps a tree well shaped and its questions
    * consistent. */
  lemma ToggleAsWrittenKeepsInvariants(root: Node, id: string)
    ensures WellShaped(root) ==> WellShaped(ToggleAsWritten(root, id))
    ensures Consistent(root) ==> Consistent(ToggleAsWritten(root, id))
  {
    if Find(root, id).Some? {
      ClearMarksEffect(root, id);
      var f := Flip();
      forall x
        ensures f(x).id == x.id && f(x).level == x.level && f(x).parentId == x.parentId
          && f(x).question == x.question
          && (WellShaped(x) ==> WellShaped(f(x))) && (Consistent(x) ==> Consistent(f(x)))
      {
        assert f(x).children == x.children && f(x).answer == x.answer;
      }
      if WellShaped(root) {
        MapFirstKeepsShape(ClearMarks(root), id, f);
      }
      if Consistent(root) {
        MapFirstKeepsConsistent(ClearMarks(root), id, f);
      }
    }
  }

  // ---------------------------------------------------------------------
  // Answers and the questions that follow them

  /** A node given the question `q`, and every node below it re-asked from
    * its own parent's answer (`updateChildrenQuestions`). */
  function Requestioned(c: Node, q: string): (r: Node)
    ensures r.id == c.id && r.level == c.level && r.parentId == c.parentId && r.answer == c.answer
    ensures r.question == q && |r.children| == |c.children|
    decreases c
  {
    c.(question := q, children := RequestionAll(c.children, c.answer))
  }

  function RequestionAll(cs: seq<Node>, parentAnswer: string): (r: seq<Node>)
    ensures |r| == |cs|
    ensures forall i :: 0 <= i < |cs| ==>
      r[i] == Requestioned(cs[i], QuestionForLevel(cs[i].level, parentAnswer))
    decreases cs
  {
    if cs == [] then []
    else [Requestioned(cs[0], QuestionForLevel(cs[0].level, parentAnswer))] + RequestionAll(cs[1..], parentAnswer)
  }

  /** What `saveAnswer` does to the node it finds: the trimmed answer, and
    * the questions below re-asked. */
  function SaveAnswerAt(editingAnswer: string): Node -> Node
  {
    (x: Node) =>
      var a := Trim(editingAnswer);
      x.(answer := a, children := RequestionAll(x.children, a))
  }

  /** Every child's question is the one generated from its level and its
    * parent's answer, all the way down. */
  predicate Consistent(n: Node)
    decreases n
  {
    forall i :: 0 <= i < |n.children| ==>
      n.children[i].question == QuestionForLevel(n.children[i].level, n.answer) && Consistent(n.children[i])
  }

  /** Re-asking makes a subtree consistent and keeps it well shaped. */
  lemma {:induction false} RequestionedEffect(c: Node, q: string)
    ensures Consistent(Requestioned(c, q))
    ensures WellShaped(c) ==> WellShaped(Requestioned(c, q))
    decreases c
  {
    var r := Requestioned(c, q);
    forall i | 0 <= i < |c.children|
      ensures Consistent(r.children[i]) && (WellShaped(c.children[i]) ==> WellShaped(r.children[i]))
    {
      RequestionedEffect(c.children[i], QuestionForLevel(c.children[i].level, c.answer));
    }
  }

  /** A rewrite that keeps a node's level and question and keeps subtrees
    * consistent keeps the whole tree consistent. */
  lemma {:induction false} MapFirstKeepsConsistent(n: Node, id: string, f: Node -> Node)
    requires forall x :: f(x).level == x.level && f(x).question == x.question
    requires forall x :: Consistent(x) ==> Consistent(f(x))
    requires Consistent(n)
    ensures var m := MapFirst(n, id, f).node;
      Consistent(m) && m.level == n.level && m.question == n.question
    decreases n
  {
    if n.id != id {
      var u := MapFirstAll(n.children, id, f);
      MapFirstAllPointwise(n.children, id, f);
      forall i | 0 <= i < |n.children|
        ensures Consistent(u.nodes[i]) && u.nodes[i].level == n.children[i].level
          && u.nodes[i].question == n.children[i].question
      {
        MapFirstKeepsConsistent(n.children[i], id, f);
      }
    }
  }

  /** A saved answer leaves every question consistent and the tree well
    * shaped, if it was so before. */
  lemma SaveAnswerKeepsInvariants(root: Node, id: string, editingAnswer: string)
    ensures Consistent(root) ==> Consistent(MapFirst(root, id, SaveAnswerAt(editingAnswer)).node)
    ensures WellShaped(root) ==> WellShaped(MapFirst(root, id, SaveAnswerAt(editingAnswer)).node)
  {
    var f := SaveAnswerAt(editingAnswer);
    forall x
      ensures f(x).level == x.level && f(x).question == x.question && f(x).id == x.id
        && f(x).parentId == x.parentId && Consistent(f(x)) && (WellShaped(x) ==> WellShaped(f(x)))
    {
      var a := Trim(editingAnswer);
      var y := f(x);
      assert y.children == RequestionAll(x.children, a) && y.answer == a;
      forall i | 0 <= i < |x.children|
        ensures Consistent(y.children[i]) && (WellShaped(x.children[i]) ==> WellShaped(y.children[i]))
      {
        RequestionedEffect(x.children[i], QuestionForLevel(x.children[i].level, a));
      }
    }
    if Consistent(root) {
      MapFirstKeepsConsistent(root, id, f);
    }
    if WellShaped(root) {
      MapFirstKeepsShape(root, id, f);
    }
  }

  // ---------------------------------------------------------------------
  // Adding a child

  /** The node `addChildNode` creates under `p`. */
  function NewChild(p: Node, childId: string): Node
  {
    Node(childId, p.level + 1, QuestionForLevel(p.level + 1, p.answer), "", Some(p.id), [], false)
  }

  /** `addChildNode`'s guard: a node at level 2 or deeper that already has
    * a child takes no other. */
  predicate HasRoom(p: Node)
  {
    !(p.level >= 2 && |p.children| >= 1)
  }

  /** `parentNode.children.push(newNode)`. */
  function Adopt(childId: string): Node -> Node
  {
    (x: Node) => x.(children := x.children + [NewChild(x, childId)])
  }

  function AdoptIfRoom(childId: string): Node -> Node
  {
    (x: Node) => if HasRoom(x) then x.(children := x.children + [NewChild(x, childId)]) else x
  }

  /** Adding a child where the guard lets it in keeps the tree well shaped
    * and its questions consistent. */
  lemma AddChildKeepsInvariants(root: Node, parentId: string, childId: string)
    requires Find(root, parentId).Some? && HasRoom(Find(root, parentId).value)
    ensures WellShaped(root) ==> WellShaped(MapFirst(root, parentId, Adopt(childId)).node)
    ensures Consistent(root) ==> Consistent(MapFirst(root, parentId, Adopt(childId)).node)
  {
    var f := Adopt(childId);
    var g := AdoptIfRoom(childId);
    forall x
      ensures g(x).id == x.id && g(x).level == x.level && g(x).parentId == x.parentId
        && g(x).question == x.question && f(x).level == x.level && f(x).question == x.question
        && (WellShaped(x) ==> WellShaped(g(x))) && (Consistent(x) ==> Consistent(f(x)))
    {
      var c := NewChild(x, childId);
      assert f(x).children == x.children + [c];
      assert f(x).children[|x.children|] == c;
      if HasRoom(x) {
        assert g(x) == f(x);
      }
    }
    MapFirstOnlyTarget(root, parentId, f, g);
    if WellShaped(root) {
      MapFirstKeepsShape(root, parentId, g);
    }
    if Consistent(root) {
      MapFirstKeepsConsistent(root, parentId, f);
    }
  }

  // ---------------------------------------------------------------------
  // Metrics

  /** `getMaxLevelRecursive(node)`: the node's level folded with the
    * children's results by `Math.max`, in order. */
  function MaxLevelRec(n: Node): int
    decreases n
  {
    MaxLevelFrom(n.level, n.children)
  }

  function MaxLevelFrom(acc: int, cs: seq<Node>): int
    decreases cs
  {
    if cs == [] then acc else MaxLevelFrom(Max(acc, MaxLevelRec(cs[0])), cs[1..])
  }

  /** The fold is the largest level of the tree. */
  lemma {:induction false} MaxLevelIsLargest(n: Node)
    ensures forall l :: l in PreOrder(n) ==> l.level <= MaxLevelRec(n)
    ensures exists l :: l in PreOrder(n) && l.level == MaxLevelRec(n)
    decreases n
  {
    MaxLevelFromIsLargest(n.level, n.children);
    if MaxLevelRec(n) == n.level {
      assert LabelOf(n) in PreOrder(n);
    }
  }

  lemma {:induction false} MaxLevelFromIsLargest(acc: int, cs: seq<Node>)
    ensures MaxLevelFrom(acc, cs) >= acc
    ensures forall l :: l in PreOrderAll(cs) ==> l.level <= MaxLevelFrom(acc, cs)
    ensures MaxLevelFrom(acc, cs) == acc || exists l :: l in PreOrderAll(cs) && l.level == MaxLevelFrom(acc, cs)
    decreases cs
  {
    if cs != [] {
      var m := MaxLevelRec(cs[0]);
      MaxLevelIsLargest(cs[0]);
      MaxLevelFromIsLargest(Max(acc, m), cs[1..]);
      assert PreOrderAll(cs) == PreOrder(cs[0]) + PreOrderAll(cs[1..]);
    }
  }

  /** `getMaxLevel()`: `|| 1` turns a missing tree (0) and a maximum of 0
    * into 1. */
  function TreeMaxLevel(t: Option<TreeData>): (m: int)
    ensures t.None? ==> m == 1
    ensures t.Some? ==> m == (if MaxLevelRec(t.value.rootNode) == 0 then 1 else MaxLevelRec(t.value.rootNode))
  {
    var m := if t.Some? then MaxLevelRec(t.value.rootNode) else 0;
    if m == 0 then 1 else m
  }

  /** For a tree whose levels start at 1 the level count is the deepest
    * level. */
  lemma TreeMaxLevelPositive(t: TreeData)
    requires t.rootNode.level >= 1
    ensures TreeMaxLevel(Some(t)) >= t.rootNode.level
    ensures forall l :: l in PreOrder(t.rootNode) ==> l.level <= TreeMaxLevel(Some(t))
    ensures exists l :: l in PreOrder(t.rootNode) && l.level == TreeMaxLevel(Some(t))
  {
    MaxLevelIsLargest(t.rootNode);
    assert LabelOf(t.rootNode) in PreOrder(t.rootNode);
  }

  /** `getSubtreeWidth(node, nodeWidth, gap)`: a leaf is one node wide; a
    * parent is as wide as its children side by side with `gap` between
    * them, and never narrower than one node. */
  function SubtreeWidth(n: Node, nodeWidth: int, gap: int): (w: int)
    ensures w >= nodeWidth
    ensures n.children == [] ==> w == nodeWidth
    decreases n
  {
    if n.children == [] then nodeWidth
    else Max(nodeWidth, WidthSum(n.children, nodeWidth, gap) + gap * Max(0, |n.children| - 1))
  }

  function WidthSum(cs: seq<Node>, nodeWidth: int, gap: int): int
    decreases cs
  {
    if cs == [] then 0 else SubtreeWidth(cs[0], nodeWidth, gap) + WidthSum(cs[1..], nodeWidth, gap)
  }

  function Leaves(n: Node): nat
    decreases n
  {
    if n.children == [] then 1 else LeavesAll(n.children)
  }

  function LeavesAll(cs: seq<Node>): nat
    decreases cs
  {
    if cs == [] then 0 else Leaves(cs[0]) + LeavesAll(cs[1..])
  }

  /** With non-negative sizes a subtree is at least as wide as its leaves
    * laid side by side with a gap between neighbours. */
  lemma {:induction false} WidthHoldsLeaves(n: Node, nodeWidth: int, gap: int)
    requires nodeWidth >= 0 && gap >= 0
    ensures SubtreeWidth(n, nodeWidth, gap) >= Leaves(n) * nodeWidth + (Leaves(n) - 1) * gap
    decreases n
  {
    if n.children != [] {
      WidthSumHoldsLeaves(n.children, nodeWidth, gap);
    }
  }

  lemma {:induction false} WidthSumHoldsLeaves(cs: seq<Node>, nodeWidth: int, gap: int)
    requires nodeWidth >= 0 && gap >= 0
    ensures WidthSum(cs, nodeWidth, gap) >= LeavesAll(cs) * nodeWidth + (LeavesAll(cs) - |cs|) * gap
    decreases cs
  {
    if cs != [] {
      var l0 := Leaves(cs[0]);
      var lr := LeavesAll(cs[1..]);
      WidthHoldsLeaves(cs[0], nodeWidth, gap);
      WidthSumHoldsLeaves(cs[1..], nodeWidth, gap);
      assert (l0 + lr) * nodeWidth == l0 * nodeWidth + lr * nodeWidth;
      assert (l0 + lr - |cs|) * gap == (l0 - 1) * gap + (lr - (|cs| - 1)) * gap;
    }
  }

  // ---------------------------------------------------------------------
  // Ordinals

  /** For numbers from 0 up the suffix repeats every hundred. */
  lemma OrdinalSuffixPeriodic(num: int)
    requires num >= 0
    ensures OrdinalSuffix(num + 100) == OrdinalSuffix(num)
  {
    var q, a := num / 100, num % 100;
    assert num + 100 == (q + 1) * 100 + a;
    assert (num + 100) % 100 == a;
    var p, b := num / 10, num % 10;
    assert num + 100 == (p + 10) * 10 + b;
    assert (num + 100) % 10 == b;
  }

  lemma OrdinalExamples()
    ensures OrdinalNumber(1) == "1st" && OrdinalNumber(2) == "2nd" && OrdinalNumber(3) == "3rd"
    ensures OrdinalNumber(4) == "4th" && OrdinalNumber(11) == "11th" && OrdinalNumber(12) == "12th"
    ensures OrdinalNumber(13) == "13th" && OrdinalNumber(21) == "21st" && OrdinalNumber(112) == "112th"
    ensures OrdinalNumber(-1) == "-1th"
  {
    assert IntToString(11) == "11" && IntToString(12) == "12" && IntToString(13) == "13";
    assert IntToString(21) == "21" && IntToString(112) == "112" && IntToString(-1) == "-1";
  }

  /** The tree asks the question the wizard asks for a chain whose answer
    * one level up is the parent's answer. */
  lemma QuestionAgreesWithChain(level: int, pairs: seq<FiveWhysModels.CausalPair>)
    ensures var k := FiveWhysService.FindLevel(pairs, level - 1);
      FiveWhysService.WhyQuestion(level, pairs)
        == QuestionForLevel(level, if level != 1 && k.Some? then pairs[k.value].answer else "")
  {
  }

  // ---------------------------------------------------------------------
  // The component

  /** The tree `initializeDefaultTree` builds: an unanswered first why. */
  function DefaultTree(rootId: string): TreeData
  {
    TreeData("", Node(rootId, 1, "Why did this happen?", "", None, [], false))
  }

  /** What the editor keeps for trees it builds. */
  predicate TreeValid(t: Option<TreeData>)
  {
    t.Some? ==> WellShaped(t.value.rootNode) && Consistent(t.value.rootNode)
  }

  lemma DefaultTreeValid(rootId: string)
    ensures TreeValid(Some(DefaultTree(rootId)))
    ensures Size(DefaultTree(rootId).rootNode) == 1 && TreeMaxLevel(Some(DefaultTree(rootId))) == 1
  {
    assert MaxLevelRec(DefaultTree(rootId).rootNode) == MaxLevelFrom(1, []) == 1;
  }

  /** `getNodeById(id)` on an optional tree. */
  function NodeById(t: Option<TreeData>, id: string): (r: Option<Node>)
    ensures t.None? ==> r.None?
    ensures r.Some? ==> r.value.id == id
  {
    if t.Some? then Find(t.value.rootNode, id) else None
  }

  /** The `FiveWhysTreeComponent`: the tree (a signal), the read-only flag
    * and the answer being edited. A fresh id and the timer-delayed start of
    * editing a new node are parameters and effects of the call. */
  class TreeEditor {
    var treeData: Option<TreeData>
    const readonly: bool
    var editingNodeId: Option<string>
    var editingAnswer: string

    /** Construction with the input tree; a missing tree is replaced by the
      * default one. */
    constructor (data: Option<TreeData>, readonly: bool, rootId: string)
      ensures treeData == (if data.Some? then data else Some(DefaultTree(rootId)))
      ensures this.readonly == readonly && editingNodeId == None && editingAnswer == ""
    {
      treeData := if data.Some? then data else Some(DefaultTree(rootId));
      this.readonly := readonly;
      editingNodeId := None;
      editingAnswer := "";
    }

    /** `canAddChild(node)`; for levels from 1 up it agrees with the guard
      * of `addChildNode`. */
    function CanAddChild(n: Node): (b: bool)
      reads this
      ensures readonly ==> !b
      ensures n.level >= 1 ==> (b <==> !readonly && HasRoom(n))
    {
      if readonly then false
      else if n.level == 1 then true
      else n.children == []
    }

    /** `getMaxLevel()`. */
    function MaxLevel(): int
      reads this
    {
      TreeMaxLevel(treeData)
    }

    /** `addChildNode(parentId)` with `childId` as the generated id; the
      * added node is returned (the `nodeAdded` event) and put in edit. */
    method AddChildNode(parentId: string, childId: string) returns (added: Option<Node>)
      modifies this
      ensures var p := NodeById(old(treeData), parentId);
        if readonly || p.None? || !HasRoom(p.value) then
          added.None? && treeData == old(treeData) && editingNodeId == old(editingNodeId)
          && editingAnswer == old(editingAnswer)
        else
          var t := old(treeData).value;
          added == Some(NewChild(p.value, childId)) &&
          treeData == Some(t.(rootNode := MapFirst(t.rootNode, parentId, Adopt(childId)).node)) &&
          NodeById(treeData, parentId) == Some(p.value.(children := p.value.children + [added.value])) &&
          editingNodeId == Some(childId) && editingAnswer == ""
      ensures TreeValid(old(treeData)) ==> TreeValid(treeData)
    {
      added := None;
      if readonly {
        return;
      }
      var p := NodeById(treeData, parentId);
      if p.None? {
        return;
      }
      var parent := p.value;
      if parent.level >= 2 && |parent.children| >= 1 {
        return;
      }
      var t := treeData.value;
      FindAfterMapFirst(t.rootNode, parentId, Adopt(childId));
      AddChildKeepsInvariants(t.rootNode, parentId, childId);
      var child := NewChild(parent, childId);
      treeData := Some(t.(rootNode := MapFirst(t.rootNode, parentId, Adopt(childId)).node));
      added := Some(child);
      StartEdit(childId, "");
    }

    /** `removeNode(nodeId)`; the result says whether `nodeRemoved` fired. */
    method RemoveNode(nodeId: string) returns (removed: bool)
      modifies this
      ensures removed <==> !readonly && old(treeData).Some? && CountAll(old(treeData).value.rootNode.children, nodeId) > 0
      ensures treeData == if removed
        then Some(old(treeData).value.(rootNode := RemoveBelow(old(treeData).value.rootNode, nodeId).node))
        else old(treeData)
      ensures removed ==> Size(treeData.value.rootNode) < Size(old(treeData).value.rootNode)
      ensures editingNodeId == old(editingNodeId) && editingAnswer == old(editingAnswer)
      ensures TreeValid(old(treeData)) ==> TreeValid(treeData)
    {
      removed := false;
      if readonly || treeData.None? {
        return;
      }
      var t := treeData.value;
      var r := RemoveBelow(t.rootNode, nodeId);
      RemoveBelowEffect(t.rootNode, nodeId);
      RemoveKeepsShape(t.rootNode, nodeId);
      if r.removed {
        treeData := Some(t.(rootNode := r.node));
        removed := true;
      }
    }

    /** `startEdit(nodeId, currentAnswer)`. */
    method StartEdit(nodeId: string, currentAnswer: string)
      modifies this
      ensures treeData == old(treeData)
      ensures readonly ==> editingNodeId == old(editingNodeId) && editingAnswer == old(editingAnswer)
      ensures !readonly ==> editingNodeId == Some(nodeId) && editingAnswer == currentAnswer
    {
      if readonly {
        return;
      }
      editingNodeId := Some(nodeId);
      editingAnswer := currentAnswer;
    }

    /** `saveAnswer(nodeId)`: the trimmed answer is stored and the questions
      * below re-asked, then editing ends; read-only mode leaves everything,
      * the edit included, as it was. The result is the `nodeUpdated` node. */
    method SaveAnswer(nodeId: string) returns (updated: Option<Node>)
      modifies this
      ensures readonly ==> (updated.None? && treeData == old(treeData)
        && editingNodeId == old(editingNodeId) && editingAnswer == old(editingAnswer))
      ensures !readonly ==> editingNodeId == None && editingAnswer == ""
      ensures !readonly && NodeById(old(treeData), nodeId).Some? ==>
        var t := old(treeData).value;
        treeData == Some(t.(rootNode := MapFirst(t.rootNode, nodeId, SaveAnswerAt(old(editingAnswer))).node)) &&
        updated.Some? && updated.value.answer == Trim(old(editingAnswer)) &&
        NodeById(treeData, nodeId) == updated
      ensures !readonly && NodeById(old(treeData), nodeId).None? ==> updated.None? && treeData == old(treeData)
      ensures TreeValid(old(treeData)) ==> TreeValid(treeData)
    {
      updated := None;
      if readonly {
        return;
      }
      var p := NodeById(treeData, nodeId);
      if p.Some? {
        var t := treeData.value;
        var f := SaveAnswerAt(editingAnswer);
        FindAfterMapFirst(t.rootNode, nodeId, f);
        SaveAnswerKeepsInvariants(t.rootNode, nodeId, editingAnswer);
        treeData := Some(t.(rootNode := MapFirst(t.rootNode, nodeId, f).node));
        updated := Some(f(p.value));
      }
      CancelEdit();
    }

    /** `cancelEdit()`. */
    method CancelEdit()
      modifies this
      ensures editingNodeId == None && editingAnswer == "" && treeData == old(treeData)
    {
      editingNodeId := None;
      editingAnswer := "";
    }

    /** `toggleRootCause(nodeId)` as written: every mark is cleared before
      * the node's flag is negated, so the node always ends up as the one
      * root cause; the result is the `nodeUpdated` node. */
    method ToggleRootCause(nodeId: string) returns (updated: Option<Node>)
      modifies this
      ensures var p := NodeById(old(treeData), nodeId);
        if readonly || p.None? then updated.None? && treeData == old(treeData)
        else
          var t := old(treeData).value;
          treeData == Some(t.(rootNode := ToggleAsWritten(t.rootNode, nodeId))) &&
          updated == NodeById(treeData, nodeId) && updated.Some? &&
          updated.value.isRootCause && MarkCount(treeData.value.rootNode) == 1
      ensures editingNodeId == old(editingNodeId) && editingAnswer == old(editingAnswer)
      ensures TreeValid(old(treeData)) ==> TreeValid(treeData)
    {
      updated := None;
      if readonly {
        return;
      }
      var p := NodeById(treeData, nodeId);
      if p.None? {
        return;
      }
      var t := treeData.value;
      ToggleAsWrittenMarksTarget(t.rootNode, nodeId);
      ToggleAsWrittenKeepsInvariants(t.rootNode, nodeId);
      treeData := Some(t.(rootNode := ToggleAsWritten(t.rootNode, nodeId)));
      updated := NodeById(treeData, nodeId);
    }
  }
}

// The demo page around the 5 Whys tree
// (5Whys-main/src/app/components/five-whys-tree/five-whys-tree-demo.component.ts):
// statistics computed over the tree, a log of the last twenty events, and
// the buttons that clear the tree or load a sample one. The clock and the
// confirmation dialog are parameters.

module FiveWhysTreeDemo {
  import opened JsText
  import opened FiveWhysTree

  // ---------------------------------------------------------------------
  // Statistics

  /** `getNodeCount()`: `countNodesRecursive` is one plus the children's
    * counts, which is `Size`; no tree counts 0. */
  function NodeCount(t: Option<TreeData>): nat
  {
    if t.Some? then Size(t.value.rootNode) else 0
  }

  /** `getRootCauseCount()`: `countRootCausesRecursive` adds 1 per marked
    * node, which is `MarkCount`. */
  function RootCauseCount(t: Option<TreeData>): nat
  {
    if t.Some? then MarkCount(t.value.rootNode) else 0
  }

  /** `countBranchesRecursive(node)`: nodes with more than one child. */
  function Branches(n: Node): nat
    decreases n
  {
    (if |n.children| > 1 then 1 else 0) + BranchesAll(n.children)
  }

  function BranchesAll(cs: seq<Node>): nat
    decreases cs
  {
    if cs == [] then 0 else Branches(cs[0]) + BranchesAll(cs[1..])
  }

  function BranchCount(t: Option<TreeData>): nat
  {
    if t.Some? then Branches(t.value.rootNode) else 0
  }

  /** `getMaxDepthRecursive(node)`: a leaf's level; otherwise
    * `level + (max - level)`, that is the largest of the children's
    * results. */
  function MaxDepthRec(n: Node): int
    decreases n
  {
    if n.children == [] then n.level else MaxDepthAll(n.children)
  }

  /** `Math.max(...childDepths)` over a non-empty list. */
  function MaxDepthAll(cs: seq<Node>): int
    requires cs != []
    decreases cs
  {
    if |cs| == 1 then MaxDepthRec(cs[0]) else Max(MaxDepthRec(cs[0]), MaxDepthAll(cs[1..]))
  }

  function MaxDepth(t: Option<TreeData>): int
  {
    if t.Some? then MaxDepthRec(t.value.rootNode) else 0
  }

  /** The node count is the number of nodes a pre-order walk visits. */
  lemma {:induction false} SizeIsPreOrderLength(n: Node)
    ensures Size(n) == |PreOrder(n)|
    decreases n
  {
    SizeAllIsPreOrderLength(n.children);
  }

  lemma {:induction false} SizeAllIsPreOrderLength(cs: seq<Node>)
    ensures SizeAll(cs) == |PreOrderAll(cs)|
    decreases cs
  {
    if cs != [] {
      SizeIsPreOrderLength(cs[0]);
      SizeAllIsPreOrderLength(cs[1..]);
    }
  }

  /** In a tree the editor keeps well shaped, where every child is one
    * level below its parent, the depth is the deepest level. */
  lemma {:induction false} MaxDepthIsMaxLevel(n: Node)
    requires WellShaped(n)
    ensures MaxDepthRec(n) == MaxLevelRec(n)
    decreases n
  {
    if n.children != [] {
      MaxLevelFromAgrees(n.level, n.children);
      MaxDepthAllBound(n.children);
      MaxLevelIsLargest(n.children[0]);
      MaxDepthIsMaxLevel(n.children[0]);
      assert LabelOf(n.children[0]) in PreOrder(n.children[0]);
      assert n.children[0].level == n.level + 1;
    }
  }

  lemma {:induction false} MaxLevelFromAgrees(acc: int, cs: seq<Node>)
    requires cs != []
    requires forall i :: 0 <= i < |cs| ==> WellShaped(cs[i])
    ensures MaxLevelFrom(acc, cs) == Max(acc, MaxDepthAll(cs))
    decreases cs
  {
    MaxDepthIsMaxLevel(cs[0]);
    if |cs| > 1 {
      MaxLevelFromAgrees(Max(acc, MaxLevelRec(cs[0])), cs[1..]);
    }
  }

  lemma MaxDepthAllBound(cs: seq<Node>)
    requires cs != []
    ensures MaxDepthAll(cs) >= MaxDepthRec(cs[0])
  {
  }

  // ---------------------------------------------------------------------
  // The two trees the page starts from

  /** The tree `initializeDemo` sets. */
  const InitialTree: TreeData := TreeData(
    "Production line stopped unexpectedly during peak hours",
    Node("1", 1, "Why did this happen?", "Machine overheated and triggered safety shutdown", None, [], false))

  /** The tree `loadSampleData` sets, built from its subtrees: nodes 2 to
    * 4 form one chain ending in the marked node 4, nodes 5 and 6 another. */
  const Sample4: Node := Node("4", 4, "Why were packaging guidelines not followed?",
    "Staff not properly trained on new guidelines", Some("3"), [], true)
  const Sample3: Node := Node("3", 3, "Why was there insufficient protective packaging?",
    "Packaging guidelines not followed", Some("2"), [Sample4], false)
  const Sample2: Node := Node("2", 2, "Why was the package damaged during shipping?",
    "Insufficient protective packaging", Some("1"), [Sample3], false)
  const Sample6: Node := Node("6", 3, "Why was there rough handling by shipping carrier?",
    "No fragile labels on package", Some("5"), [], false)
  const Sample5: Node := Node("5", 2, "Why was the package damaged during shipping?",
    "Rough handling by shipping carrier", Some("1"), [Sample6], false)
  const SampleTree: TreeData := TreeData("Customer complaint: Product arrived damaged",
    Node("1", 1, "Why did this happen?", "Package was damaged during shipping", None, [Sample2, Sample5], false))

  lemma SingleChild(c: Node)
    ensures SizeAll([c]) == Size(c) && MarkCountAll([c]) == MarkCount(c) && BranchesAll([c]) == Branches(c)
  {
    assert [c][1..] == [];
  }

  lemma TwoChildren(c: Node, d: Node)
    ensures SizeAll([c, d]) == Size(c) + Size(d)
    ensures MarkCountAll([c, d]) == MarkCount(c) + MarkCount(d)
    ensures BranchesAll([c, d]) == Branches(c) + Branches(d)
  {
    assert [c, d][1..] == [d];
    SingleChild(d);
  }

  /** The sample has six nodes. */
  lemma SampleNodeCount()
    ensures NodeCount(Some(SampleTree)) == 6
  {
    SingleChild(Sample4);
    SingleChild(Sample3);
    SingleChild(Sample6);
    TwoChildren(Sample2, Sample5);
  }

  /** Exactly one node of the sample, node 4, is marked as the root cause. */
  lemma SampleRootCauseCount()
    ensures RootCauseCount(Some(SampleTree)) == 1
  {
    SingleChild(Sample4);
    SingleChild(Sample3);
    SingleChild(Sample6);
    TwoChildren(Sample2, Sample5);
  }

  /** Only the first why branches. */
  lemma SampleBranchCount()
    ensures BranchCount(Some(SampleTree)) == 1
  {
    SingleChild(Sample4);
    SingleChild(Sample3);
    SingleChild(Sample6);
    TwoChildren(Sample2, Sample5);
  }

  /** The sample reaches the fourth why. */
  lemma SampleDepth()
    ensures MaxDepth(Some(SampleTree)) == 4
  {
    assert MaxDepthAll([Sample4]) == MaxDepthRec(Sample4) == 4;
    assert MaxDepthRec(Sample3) == MaxDepthAll([Sample4]);
    assert MaxDepthAll([Sample3]) == MaxDepthRec(Sample3);
    assert MaxDepthRec(Sample2) == 4;
    assert MaxDepthAll([Sample6]) == MaxDepthRec(Sample6) == 3;
    assert MaxDepthRec(Sample5) == 3;
    assert MaxDepthAll([Sample2, Sample5]) == Max(4, MaxDepthAll([Sample5]));
  }

  /** The sample obeys the editor's rule on levels, parents and child
    * counts. */
  lemma SampleWellShaped()
    ensures WellShaped(SampleTree.rootNode)
  {
    assert WellShaped(Sample4) && WellShaped(Sample6);
    assert WellShaped(Sample3) && WellShaped(Sample5);
    assert WellShaped(Sample2);
  }

  /** The initial tree is one node, unmarked, with nothing below it to be
    * inconsistent with. */
  lemma InitialTreeValid()
    ensures TreeValid(Some(InitialTree))
    ensures NodeCount(Some(InitialTree)) == 1 && MaxDepth(Some(InitialTree)) == 1
  {
  }

  // ---------------------------------------------------------------------
  // The event log and the page state

  datatype Event = Event(id: string, message: string, timestamp: int)

  /** The longest the event log grows. */
  const MaxEvents: nat := 20

  /** Event messages of the tree callbacks. */
  function AddedMessage(node: Node): string
  {
    "Added " + OrdinalNumber(node.level) + " Why node"
  }

  function UpdatedMessage(node: Node): string
  {
    "Updated " + OrdinalNumber(node.level) + " Why " + (if node.isRootCause then "(marked as root cause)" else "")
  }

  /** The log after `addEvent(message)` at time `now`: the new event
    * first, then the newest nineteen of the older ones, in their order. */
  function Logged(log: seq<Event>, message: string, now: int): (r: seq<Event>)
    ensures 1 <= |r| <= MaxEvents && |r| == Min(MaxEvents, |log| + 1)
    ensures r[0] == Event(IntToString(now), message, now)
    ensures r[1..] == log[..|r| - 1]
  {
    [Event(IntToString(now), message, now)] + log[..Min(19, |log|)]
  }

  class Demo {
    var treeData: Option<TreeData>
    var readonly: bool
    var problemStatement: string
    var eventLog: seq<Event>

    /** The constructor runs `initializeDemo`. */
    constructor ()
      ensures treeData == Some(InitialTree) && !readonly
      ensures problemStatement == InitialTree.problemStatement && eventLog == []
    {
      treeData := Some(InitialTree);
      readonly := false;
      problemStatement := InitialTree.problemStatement;
      eventLog := [];
    }

    /** `addEvent(message)` at time `now`: the new event first, then at most
      * nineteen of the older ones, newest first. */
    method AddEvent(message: string, now: int)
      modifies this
      ensures eventLog == Logged(old(eventLog), message, now)
      ensures treeData == old(treeData) && readonly == old(readonly) && problemStatement == old(problemStatement)
    {
      var kept := if |eventLog| <= 19 then eventLog else eventLog[..19];
      eventLog := [Event(IntToString(now), message, now)] + kept;
    }

    /** `updateProblemStatement()`: the text box is copied into the tree, if
      * there is one. */
    method UpdateProblemStatement()
      modifies this
      ensures treeData == if old(treeData).Some?
        then Some(old(treeData).value.(problemStatement := problemStatement)) else None
      ensures problemStatement == old(problemStatement) && eventLog == old(eventLog)
      ensures readonly == old(readonly)
    {
      if treeData.Some? {
        treeData := Some(treeData.value.(problemStatement := problemStatement));
      }
    }

    /** `onDataChange(data)`. */
    method OnDataChange(data: TreeData, now: int)
      modifies this
      ensures treeData == Some(data)
      ensures eventLog == Logged(old(eventLog), "Tree data updated", now)
      ensures readonly == old(readonly) && problemStatement == old(problemStatement)
    {
      treeData := Some(data);
      AddEvent("Tree data updated", now);
    }

    /** `onNodeAdded(node)`, `onNodeRemoved(id)` and `onNodeUpdated(node)`:
      * one event each. */
    method OnNodeAdded(node: Node, now: int)
      modifies this
      ensures eventLog == Logged(old(eventLog), AddedMessage(node), now)
      ensures treeData == old(treeData) && readonly == old(readonly) && problemStatement == old(problemStatement)
    {
      AddEvent(AddedMessage(node), now);
    }

    method OnNodeRemoved(nodeId: string, now: int)
      modifies this
      ensures eventLog == Logged(old(eventLog), "Removed node " + nodeId, now)
      ensures treeData == old(treeData) && readonly == old(readonly) && problemStatement == old(problemStatement)
    {
      AddEvent("Removed node " + nodeId, now);
    }

    method OnNodeUpdated(node: Node, now: int)
      modifies this
      ensures eventLog == Logged(old(eventLog), UpdatedMessage(node), now)
      ensures treeData == old(treeData) && readonly == old(readonly) && problemStatement == old(problemStatement)
    {
      AddEvent(UpdatedMessage(node), now);
    }

    /** `clearTree()`, with `confirmed` the answer to the dialog: only a
      * confirmed clear drops the tree. */
    method ClearTree(confirmed: bool, now: int)
      modifies this
      ensures !confirmed ==> (treeData == old(treeData) && problemStatement == old(problemStatement)
        && eventLog == old(eventLog))
      ensures confirmed ==> (treeData.None? && problemStatement == ""
        && eventLog == Logged(old(eventLog), "Tree cleared", now))
      ensures confirmed ==> NodeCount(treeData) == 0 && MaxDepth(treeData) == 0
      ensures readonly == old(readonly)
    {
      if confirmed {
        treeData := None;
        problemStatement := "";
        AddEvent("Tree cleared", now);
      }
    }

    /** `loadSampleData()`. */
    method LoadSampleData(now: int)
      modifies this
      ensures treeData == Some(SampleTree) && problemStatement == SampleTree.problemStatement
      ensures eventLog == Logged(old(eventLog), "Sample data loaded", now)
      ensures readonly == old(readonly)
    {
      treeData := Some(SampleTree);
      problemStatement := SampleTree.problemStatement;
      AddEvent("Sample data loaded", now);
    }

    /** `exportData()`: with a tree present the download is offered (not
      * modelled) and "Data exported" logged; without one nothing happens. */
    method ExportData(now: int)
      modifies this
      ensures treeData == old(treeData) && readonly == old(readonly) && problemStatement == old(problemStatement)
      ensures old(treeData).Some? ==> eventLog == Logged(old(eventLog), "Data exported", now)
      ensures old(treeData).None? ==> eventLog == old(eventLog)
    {
      if treeData.Some? {
        AddEvent("Data exported", now);
      }
    }
  }
}

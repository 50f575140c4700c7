/** `fn_avg_depth`: for every `function_item` node, the mean depth of the
    nodes of its subtree (the function node itself at depth 0), averaged
    over all functions of the file. */
module FnAvgDepth {
  import opened Syntax
  import opened Cursors
  import opened Common

  function DepthOf(it: Item): nat
  {
    it.depth
  }

  /** Sum of the depths of the nodes of a subtree, its root at depth 0. */
  function DepthSum(n: Node): nat
  {
    Tally(DepthOf, Preorder(n, 0))
  }

  /** Mean depth of the nodes of a subtree. */
  function MeanDepth(n: Node): real
  {
    DepthSum(n) as real / Size(n) as real
  }

  /** The mean depth of a subtree lies between 0 and its height, and is 0
      for a single node. */
  lemma MeanDepthBounds(n: Node)
    ensures 0.0 <= MeanDepth(n) <= Height(n) as real
    ensures n.children == [] ==> MeanDepth(n) == 0.0
  {
    var s := Preorder(n, 0);
    PreorderLength(n, 0);
    PreorderDepths(n, 0);
    TallyBound(DepthOf, s, Height(n));
    MeanBound(DepthSum(n), Size(n), Height(n));
    if n.children == [] {
      PreorderLeaf(Item(n, 0));
      TallyAppend(DepthOf, [], Item(n, 0));
      assert [] + [Item(n, 0)] == s;
    }
  }

  lemma MeanBound(sum: nat, count: nat, bound: nat)
    requires count > 0 && sum <= bound * count
    ensures 0.0 <= sum as real / count as real <= bound as real
  {
    assert sum as real <= bound as real * count as real;
  }

  /** The counters at the end of the walk give the mean depth. */
  lemma DepthPerNode(n: Node, sum: nat, count: nat)
    requires sum == DepthSum(n) && count == Size(n)
    ensures count > 0 && sum as real / count as real == MeanDepth(n)
  {
  }

  /** `calculate_node_depth`: a second cursor walk over the subtree, keeping
      the depth of the cursor in a counter that goes up with every step down
      and down with every step up. */
  method CalculateNodeDepth(n: Node) returns (r: real)
    ensures r == MeanDepth(n)
  {
    var c := new TreeCursor(n);
    var depthSum: nat := 0;
    var nodeCount: nat := 0;
    var depth: nat := 0;
    while true
      invariant c.Valid() && c.root == n
      invariant depthSum == Tally(DepthOf, c.done)
      invariant nodeCount == |c.done|
      invariant depth == c.here.depth
      decreases |Preorder(n, 0)| - |c.done|
    {
      ghost var seen := c.done + [c.here];
      TallyAppend(DepthOf, c.done, c.here);
      depthSum := depthSum + depth;
      nodeCount := nodeCount + 1;
      assert depthSum == Tally(DepthOf, seen) && nodeCount == |seen|;
      var down := c.GotoFirstChild();
      if down {
        depth := depth + 1;
      } else {
        PreorderLeaf(c.here);
        var found;
        found, depth := ClimbCounting(c, depth);
        if !found {
          assert seen == Preorder(n, 0);
          PreorderLength(n, 0);
          DepthPerNode(n, depthSum, nodeCount);
          return depthSum as real / nodeCount as real;
        }
      }
    }
  }

  /** The inner `while !goto_next_sibling()` loop of `calculate_node_depth`:
      `Climb` with the depth counter taken down at every step up. */
  method ClimbCounting(c: TreeCursor, depth0: nat) returns (found: bool, depth: nat)
    requires c.Valid() && depth0 == c.here.depth
    modifies c
    ensures c.Valid()
    ensures found ==> depth == c.here.depth
    ensures found ==> c.done == old(c.done) + Preorder(old(c.here).node, old(c.here).depth)
    ensures !found ==> old(c.done) + Preorder(old(c.here).node, old(c.here).depth) == Preorder(c.root, 0)
  {
    ghost var end := c.done + Preorder(c.here.node, c.here.depth);
    depth := depth0;
    var across := c.GotoNextSibling();
    while !across
      invariant c.Valid()
      invariant across ==> c.done == end
      invariant !across ==> c.atLast && c.done + Preorder(c.here.node, c.here.depth) == end
      invariant depth == c.here.depth
      decreases |c.path|
    {
      var up := c.GotoParent();
      if !up {
        return false, depth;
      }
      depth := depth - 1;
      across := c.GotoNextSibling();
    }
    return true, depth;
  }

  function FnWeight(it: Item): real
  {
    if IsFunction(it.node) then MeanDepth(it.node) else 0.0
  }

  /** Sum, over the functions of the tree, of their mean depths. */
  function DepthTotal(t: Node): real
  {
    RealTally(FnWeight, Preorder(t, 0))
  }

  /** A division of two floating-point numbers, where 0.0 / 0.0 is not a number. */
  datatype Quotient = Defined(value: real) | NotANumber

  /** What `fn_avg_depth` returns as written: the total divided by the
      function count with no guard, so a tree without functions gives NaN. */
  function AsWrittenAverage(t: Node): Quotient
  {
    if FunctionCount(t) == 0 then NotANumber
    else Defined(DepthTotal(t) / FunctionCount(t) as real)
  }

  /** The average as evidently intended: 0 when there are no functions, as
      the other averaging operators of the collector do. */
  function AverageFnDepth(t: Node): real
  {
    if FunctionCount(t) == 0 then 0.0 else DepthTotal(t) / FunctionCount(t) as real
  }

  /** `fn_avg_depth` as written. */
  method FnAvgDepthAsWritten(t: Node) returns (name: string, q: Quotient)
    ensures name == "fn_avg_depth"
    ensures q == AsWrittenAverage(t)
  {
    var c := new TreeCursor(t);
    var total: real := 0.0;
    var count: nat := 0;
    while true
      invariant c.Valid() && c.root == t
      invariant total == RealTally(FnWeight, c.done)
      invariant count == Tally(FunctionFlag, c.done)
      decreases |Preorder(t, 0)| - |c.done|
    {
      ghost var seen := c.done + [c.here];
      TallyAppend(FunctionFlag, c.done, c.here);
      RealTallyAppend(FnWeight, c.done, c.here);
      var node := c.Node();
      if IsFunction(node) {
        count := count + 1;
        var d := CalculateNodeDepth(node);
        total := total + d;
      }
      assert total == RealTally(FnWeight, seen) && count == Tally(FunctionFlag, seen);
      var down := c.GotoFirstChild();
      if !down {
        PreorderLeaf(c.here);
        var more := c.Climb();
        if !more {
          assert seen == Preorder(t, 0);
          // 0.0 / 0.0 is NaN; the total is 0.0 whenever the count is 0.
          name := "fn_avg_depth";
          q := if count == 0 then NotANumber else Defined(total / count as real);
          return;
        }
      }
    }
  }

  /** A file without functions makes the operator as written report NaN,
      and otherwise it agrees with the corrected average. */
  lemma AsWrittenNaN(t: Node)
    ensures AsWrittenAverage(t) == NotANumber <==> FunctionCount(t) == 0
    ensures AsWrittenAverage(t).Defined? ==> AsWrittenAverage(t).value == AverageFnDepth(t)
  {
  }

  /** A concrete file with one struct and no function: `struct S;`. */
  lemma StructOnlyFileGivesNaN()
    ensures AsWrittenAverage(Node("source_file", true, "struct S;", [Node("struct_item", true, "struct S;", [])])) == NotANumber
    ensures AverageFnDepth(Node("source_file", true, "struct S;", [Node("struct_item", true, "struct S;", [])])) == 0.0
  {
    var s := Node("struct_item", true, "struct S;", []);
    var t := Node("source_file", true, "struct S;", [s]);
    PreorderLeaf(Item(s, 1));
    assert [s][1..] == [];
    assert PreorderForest(t.children, 1) == [Item(s, 1)];
    assert Preorder(t, 0) == [Item(t, 0)] + [Item(s, 1)];
    TallyAppend(FunctionFlag, [], Item(t, 0));
    TallyAppend(FunctionFlag, [Item(t, 0)], Item(s, 1));
    assert [] + [Item(t, 0)] == [Item(t, 0)];
  }

  /** The corrected operator: the as-written average with NaN replaced by 0. */
  method FnAvgDepth(t: Node) returns (m: Metric)
    ensures m.name == "fn_avg_depth"
    ensures m.value == AverageFnDepth(t)
  {
    var name, q := FnAvgDepthAsWritten(t);
    m := Metric(name, if q.NotANumber? then 0.0 else q.value);
  }

  /** The average function depth lies between 0 and the height of the tree. */
  lemma AverageFnDepthBounds(t: Node)
    ensures 0.0 <= AverageFnDepth(t) <= Height(t) as real
  {
    var s := Preorder(t, 0);
    var h := Height(t) as real;
    forall it | it in s
      ensures 0.0 <= FnWeight(it) <= h * FunctionFlag(it) as real
    {
      FnWeightBound(t, it);
    }
    RealTallyDominated(FnWeight, FunctionFlag, h, s);
    if FunctionCount(t) > 0 {
      RatioBound(DepthTotal(t), FunctionCount(t), h);
    }
  }

  /** A function anywhere in the tree has a mean depth of at most the tree's height. */
  lemma FnWeightBound(t: Node, it: Item)
    requires it in Preorder(t, 0)
    ensures 0.0 <= FnWeight(it) <= Height(t) as real * FunctionFlag(it) as real
  {
    PreorderDepths(t, 0);
    if IsFunction(it.node) {
      MeanDepthBounds(it.node);
    }
  }

  lemma RatioBound(total: real, count: nat, bound: real)
    requires count > 0 && 0.0 <= total <= bound * count as real
    ensures 0.0 <= total / count as real <= bound
  {
  }
}

/** `struct_methods`: the number of methods found in `impl_item` nodes per
    `struct_item` node, 0 for a file without structs. */
module StructMethods {
  import opened Syntax
  import opened Cursors
  import opened Common

  /** Methods found below a node: a `function_item` counts 1 and its interior
      is not searched; any other node adds up its children. */
  function Methods(n: Node): nat
    decreases n, 1
  {
    if IsFunction(n) then 1 else ForestMethods(n.children)
  }

  function ForestMethods(fs: seq<Node>): nat
    decreases fs, 0
  {
    if fs == [] then 0 else Methods(fs[0]) + ForestMethods(fs[1..])
  }

  /** Methods still to be found in the pending subtrees of a walk. */
  function PendingMethods(s: seq<Item>): nat
  {
    if s == [] then 0 else Methods(s[0].node) + PendingMethods(s[1..])
  }

  lemma PendingCons(x: Item, rest: seq<Item>)
    ensures PendingMethods([x] + rest) == Methods(x.node) + PendingMethods(rest)
  {
    assert ([x] + rest)[0] == x;
    assert ([x] + rest)[1..] == rest;
  }

  /** Entering a node that is not a function replaces it by its children. */
  lemma {:induction false} PendingChildren(fs: seq<Node>, d: nat, rest: seq<Item>)
    ensures PendingMethods(Items(fs, d) + rest) == ForestMethods(fs) + PendingMethods(rest)
    decreases |fs|
  {
    if fs != [] {
      assert Items(fs, d) + rest == [Item(fs[0], d)] + (Items(fs[1..], d) + rest);
      PendingCons(Item(fs[0], d), Items(fs[1..], d) + rest);
      PendingChildren(fs[1..], d, rest);
    } else {
      assert Items(fs, d) + rest == rest;
    }
  }

  /** No more methods are found than there are functions: the search of a
      function's interior is skipped. */
  lemma {:induction false} MethodsAtMostFunctions(n: Node, d: nat)
    ensures Methods(n) <= NodeTally(FunctionFlag, n, d)
    decreases n, 1
  {
    ForestMethodsAtMostFunctions(n.children, d + 1);
  }

  lemma {:induction false} ForestMethodsAtMostFunctions(fs: seq<Node>, d: nat)
    ensures ForestMethods(fs) <= ForestTally(FunctionFlag, fs, d)
    decreases fs, 0
  {
    if fs != [] {
      MethodsAtMostFunctions(fs[0], d);
      ForestMethodsAtMostFunctions(fs[1..], d);
    }
  }

  /** A method with a nested function counts once for its impl, although
      the tree holds two functions. */
  lemma NestedFunctionSkipped()
    ensures Methods(Node("impl_item", true, "", [Node("function_item", true, "", [Node("function_item", true, "", [])])])) == 1
    ensures FunctionCount(Node("impl_item", true, "", [Node("function_item", true, "", [Node("function_item", true, "", [])])])) == 2
  {
    var t := Node("impl_item", true, "", [Node("function_item", true, "", [Node("function_item", true, "", [])])]);
    TallyRecursive(FunctionFlag, t, 0);
  }

  /** `find_methods`: a walk over the impl's subtree that, after a
      `function_item`, moves on to the next node not below it. */
  method FindMethods(n: Node) returns (methodCount: nat)
    ensures methodCount == Methods(n)
  {
    var c := new TreeCursor(n);
    methodCount := 0;
    while true
      invariant c.Valid() && c.root == n
      invariant methodCount + Methods(c.here.node) + PendingMethods(c.pending) == Methods(n)
      decreases |Preorder(n, 0)| - |c.done|
    {
      ghost var x, rest := c.here, c.pending;
      var node := c.Node();
      if IsFunction(node) {
        methodCount := methodCount + 1;
        var more := c.Climb();
        if !more {
          return;
        }
        PendingCons(c.here, c.pending);
        continue;
      }
      var down := c.GotoFirstChild();
      if down {
        PendingChildren(x.node.children, x.depth + 1, rest);
        PendingCons(c.here, c.pending);
        continue;
      }
      var more := c.Climb();
      if !more {
        return;
      }
      PendingCons(c.here, c.pending);
    }
  }

  predicate IsStruct(n: Node)
  {
    n.kind == "struct_item"
  }

  predicate IsImpl(n: Node)
  {
    n.kind == "impl_item"
  }

  function StructFlag(it: Item): nat
  {
    if IsStruct(it.node) then 1 else 0
  }

  function ImplMethods(it: Item): nat
  {
    if IsImpl(it.node) then Methods(it.node) else 0
  }

  /** Number of `struct_item` nodes of the tree. */
  function StructCount(t: Node): nat
  {
    Tally(StructFlag, Preorder(t, 0))
  }

  /** Methods of all `impl_item` nodes, whatever type each implements. */
  function TotalMethods(t: Node): nat
  {
    Tally(ImplMethods, Preorder(t, 0))
  }

  /** What `struct_methods` reports. */
  function AverageMethods(t: Node): real
  {
    if StructCount(t) == 0 then 0.0 else TotalMethods(t) as real / StructCount(t) as real
  }

  /** A file with structs but no impls gives 0, and the value is never negative. */
  lemma AverageMethodsFacts(t: Node)
    ensures AverageMethods(t) >= 0.0
    ensures Tally(ImplFlag, Preorder(t, 0)) == 0 ==> AverageMethods(t) == 0.0
  {
    if Tally(ImplFlag, Preorder(t, 0)) == 0 {
      NoImplsNoMethods(Preorder(t, 0));
    }
  }

  function ImplFlag(it: Item): nat
  {
    if IsImpl(it.node) then 1 else 0
  }

  lemma {:induction false} NoImplsNoMethods(s: seq<Item>)
    requires Tally(ImplFlag, s) == 0
    ensures Tally(ImplMethods, s) == 0
    decreases |s|
  {
    if s != [] {
      NoImplsNoMethods(s[..|s| - 1]);
    }
  }

  /** The two structs and two impls of the operator's own test, reduced to
      the nodes whose kinds the operator looks at: `Point` with the methods
      `new` and `distance`, `Circle` with the method `area`. */
  function TestTree(): Node
  {
    Node("source_file", true, "", [TestStruct(), TestImpl(2), TestStruct(), TestImpl(1)])
  }

  function TestStruct(): Node
  {
    Node("struct_item", true, "", [])
  }

  function TestMethod(): Node
  {
    Node("function_item", true, "", [])
  }

  /** An impl block with `k` methods. */
  function TestImpl(k: nat): Node
    requires k <= 2
  {
    Node("impl_item", true, "", [Node("declaration_list", true, "", seq(k, _ => TestMethod()))])
  }

  lemma TestTreeGivesOneAndAHalf()
    ensures StructCount(TestTree()) == 2 && TotalMethods(TestTree()) == 3
    ensures AverageMethods(TestTree()) == 1.5
  {
    ImplCounts(2);
    ImplCounts(1);
    assert NodeTally(StructFlag, TestStruct(), 1) == 1;
    assert NodeTally(ImplMethods, TestStruct(), 1) == 0;
    TestForest(StructFlag, 1, 0);
    TestForest(ImplMethods, 0, 1);
    TallyRecursive(StructFlag, TestTree(), 0);
    TallyRecursive(ImplMethods, TestTree(), 0);
    ThreeHalves(TotalMethods(TestTree()), StructCount(TestTree()));
  }

  lemma ThreeHalves(a: nat, b: nat)
    requires a == 3 && b == 2
    ensures a as real / b as real == 1.5
  {
    assert a as real == 3.0 && b as real == 2.0;
    assert 1.5 * 2.0 == 3.0;
  }

  /** The four top-level items add up one by one. */
  lemma TestForest(f: Item -> nat, perStruct: nat, perMethod: nat)
    requires NodeTally(f, TestStruct(), 1) == perStruct
    requires NodeTally(f, TestImpl(2), 1) == 2 * perMethod
    requires NodeTally(f, TestImpl(1), 1) == perMethod
    requires f(Item(TestTree(), 0)) == 0
    ensures NodeTally(f, TestTree(), 0) == 2 * perStruct + 3 * perMethod
  {
    var cs := TestTree().children;
    assert cs[1..][1..][1..][1..] == [];
    assert ForestTally(f, cs[1..][1..][1..], 1) == perMethod;
    assert ForestTally(f, cs[1..][1..], 1) == perStruct + perMethod;
    assert ForestTally(f, cs[1..], 1) == perStruct + 3 * perMethod;
  }

  /** An impl block with `k` methods holds `k` methods and no struct. */
  lemma ImplCounts(k: nat)
    requires k <= 2
    ensures NodeTally(StructFlag, TestImpl(k), 1) == 0
    ensures NodeTally(ImplMethods, TestImpl(k), 1) == k
  {
    var impl := TestImpl(k);
    var list := impl.children[0];
    MethodList(list.children, 3);
    assert impl.children == [list] && impl.children[1..] == [];
    assert NodeTally(StructFlag, list, 2) == 0 && NodeTally(ImplMethods, list, 2) == 0;
    assert ForestTally(StructFlag, impl.children, 2) == 0 && ForestTally(ImplMethods, impl.children, 2) == 0;
    assert Methods(list) == k;
    assert ForestMethods(impl.children) == k;
  }

  lemma {:induction false} MethodList(fs: seq<Node>, d: nat)
    requires forall i :: 0 <= i < |fs| ==> fs[i] == TestMethod()
    ensures ForestMethods(fs) == |fs|
    ensures ForestTally(StructFlag, fs, d) == 0 && ForestTally(ImplMethods, fs, d) == 0
    decreases |fs|
  {
    if fs != [] {
      MethodList(fs[1..], d);
      assert NodeTally(StructFlag, fs[0], d) == 0;
      assert NodeTally(ImplMethods, fs[0], d) == 0;
    }
  }

  /** The counters at the end of the walk give the reported average. */
  lemma MethodsPerStruct(t: Node, total: nat, structs: nat)
    requires total == TotalMethods(t) && structs == StructCount(t) && structs > 0
    ensures total as real / structs as real == AverageMethods(t)
  {
  }

  method StructMethods(t: Node, src: seq<bv8>) returns (m: Metric)
    ensures m.name == "struct_methods"
    ensures m.value == AverageMethods(t)
  {
    var c := new TreeCursor(t);
    var totalMethods: nat := 0;
    var structCount: nat := 0;
    while true
      invariant c.Valid() && c.root == t
      invariant totalMethods == Tally(ImplMethods, c.done)
      invariant structCount == Tally(StructFlag, c.done)
      decreases |Preorder(t, 0)| - |c.done|
    {
      ghost var seen := c.done + [c.here];
      TallyAppend(ImplMethods, c.done, c.here);
      TallyAppend(StructFlag, c.done, c.here);
      var node := c.Node();
      if IsStruct(node) {
        structCount := structCount + 1;
      } else if IsImpl(node) {
        var found := FindMethods(node);
        totalMethods := totalMethods + found;
      }
      assert totalMethods == Tally(ImplMethods, seen) && structCount == Tally(StructFlag, seen);
      var down := c.GotoFirstChild();
      if !down {
        PreorderLeaf(c.here);
        var more := c.Climb();
        if !more {
          assert seen == Preorder(t, 0);
          if structCount == 0 {
            return Metric("struct_methods", 0.0);
          }
          MethodsPerStruct(t, totalMethods, structCount);
          return Metric("struct_methods", totalMethods as real / structCount as real);
        }
      }
    }
  }
}

/** Syntax trees as the metric operators see them: a node has a kind tag,
    a "named" flag (tree-sitter distinguishes named nodes from anonymous
    tokens such as `::` or `(`), the source text it spans, and its children
    in source order. */
module Syntax {

  datatype Node = Node(kind: string, named: bool, text: string, children: seq<Node>)

  /** A node reached during a walk, with its distance below the node the walk
      started on. */
  datatype Item = Item(node: Node, depth: nat)

  /** A cursor position: child indices from the node the walk started on. */
  type Path = seq<nat>

  /** Number of nodes of a tree: the node itself plus its descendants. */
  function Size(n: Node): nat
    decreases n, 1
  {
    1 + ForestSize(n.children)
  }

  function ForestSize(fs: seq<Node>): nat
    decreases fs, 0
  {
    if fs == [] then 0 else Size(fs[0]) + ForestSize(fs[1..])
  }

  /** Height of a tree: 0 for a leaf. */
  function Height(n: Node): nat
    decreases n, 1
  {
    if n.children == [] then 0 else 1 + ForestHeight(n.children)
  }

  function ForestHeight(fs: seq<Node>): nat
    decreases fs, 0
  {
    if fs == [] then 0
    else var h := Height(fs[0]); var t := ForestHeight(fs[1..]); if h < t then t else h
  }

  /** The nodes of a tree in preorder (a node before its children, children
      left to right), each with its depth, the tree's root at depth d. */
  function Preorder(n: Node, d: nat): seq<Item>
    decreases n, 1
  {
    [Item(n, d)] + PreorderForest(n.children, d + 1)
  }

  function PreorderForest(fs: seq<Node>, d: nat): seq<Item>
    decreases fs, 0
  {
    if fs == [] then [] else Preorder(fs[0], d) + PreorderForest(fs[1..], d)
  }

  /** Preorder of a sequence of pending subtrees, each at its own depth. */
  function PreorderItems(s: seq<Item>): seq<Item>
  {
    if s == [] then [] else Preorder(s[0].node, s[0].depth) + PreorderItems(s[1..])
  }

  /** Sibling subtrees, all at depth d. */
  function Items(fs: seq<Node>, d: nat): (r: seq<Item>)
    ensures |r| == |fs|
  {
    if fs == [] then [] else [Item(fs[0], d)] + Items(fs[1..], d)
  }

  // ---------------------------------------------------------------------
  // Paths. A path lists child indices innermost first: [i] + q is the
  // i-th child of the node at q.

  predicate ValidPath(n: Node, p: Path)
    decreases |p|, 0
  {
    p == [] || (ValidPath(n, p[1..]) && p[0] < |Sub(n, p[1..]).children|)
  }

  /** The subtree a path leads to. */
  function Sub(n: Node, p: Path): Node
    requires ValidPath(n, p)
    decreases |p|, 1
  {
    if p == [] then n else Sub(n, p[1..]).children[p[0]]
  }

  /** The subtrees that follow the subtree at p in preorder, nearest first:
      the later siblings of the innermost step come before those of the
      steps above it. */
  function After(n: Node, p: Path): seq<Item>
    requires ValidPath(n, p)
    decreases |p|
  {
    if p == [] then []
    else Items(Sub(n, p[1..]).children[p[0] + 1..], |p|) + After(n, p[1..])
  }

  /** The nodes that come before the subtree at p in preorder: each ancestor
      followed by the subtrees of its earlier children. */
  function Before(n: Node, p: Path): seq<Item>
    requires ValidPath(n, p)
    decreases |p|
  {
    if p == [] then []
    else
      var parent := Sub(n, p[1..]);
      Before(n, p[1..]) + [Item(parent, |p| - 1)] + PreorderForest(parent.children[..p[0]], |p|)
  }

  lemma ItemsFrom(fs: seq<Node>, j: nat, d: nat)
    requires j < |fs|
    ensures Items(fs[j..], d) == [Item(fs[j], d)] + Items(fs[j + 1..], d)
  {
    assert fs[j..][0] == fs[j];
    assert fs[j..][1..] == fs[j + 1..];
  }

  lemma {:induction false} PreorderForestConcat(a: seq<Node>, b: seq<Node>, d: nat)
    ensures PreorderForest(a + b, d) == PreorderForest(a, d) + PreorderForest(b, d)
    decreases |a|
  {
    if a == [] {
      assert a + b == b;
    } else {
      assert (a + b)[0] == a[0];
      assert (a + b)[1..] == a[1..] + b;
      PreorderForestConcat(a[1..], b, d);
    }
  }

  lemma PreorderForestSnoc(fs: seq<Node>, i: nat, d: nat)
    requires i < |fs|
    ensures PreorderForest(fs[..i + 1], d) == PreorderForest(fs[..i], d) + Preorder(fs[i], d)
  {
    assert fs[..i + 1] == fs[..i] + [fs[i]];
    PreorderForestConcat(fs[..i], [fs[i]], d);
    assert [fs[i]][1..] == [];
  }

  /** The preorder of the whole tree splits at any path into what comes
      before the subtree, the subtree, and what comes after it. */
  lemma {:induction false} WholeSplit(n: Node, p: Path)
    requires ValidPath(n, p)
    ensures Before(n, p) + Preorder(Sub(n, p), |p|) + PreorderItems(After(n, p)) == Preorder(n, 0)
    decreases |p|
  {
    if p != [] {
      var k, q := p[0], p[1..];
      var parent := Sub(n, q);
      var ch, d := parent.children, |p|;
      WholeSplit(n, q);
      var b, x, a := Before(n, q), Item(parent, |q|), After(n, q);
      var early, mid, late := PreorderForest(ch[..k], d), Preorder(ch[k], d), PreorderForest(ch[k + 1..], d);
      PreorderItemsConcat(Items(ch[k + 1..], d), a);
      PreorderItemsForest(ch[k + 1..], d);
      PreorderForestSnoc(ch, k, d);
      assert ch == ch[..k + 1] + ch[k + 1..];
      PreorderForestConcat(ch[..k + 1], ch[k + 1..], d);
      SplitAlgebra(b, [x], early, mid, late, PreorderItems(a), Preorder(parent, |q|), Preorder(n, 0),
                   Before(n, p), Preorder(Sub(n, p), |p|), PreorderItems(After(n, p)));
    }
  }

  /** The bookkeeping step of WholeSplit, over plain sequences. */
  lemma SplitAlgebra(b: seq<Item>, x: seq<Item>, early: seq<Item>, mid: seq<Item>, late: seq<Item>,
                     rest: seq<Item>, parent: seq<Item>, whole: seq<Item>,
                     before: seq<Item>, sub: seq<Item>, after: seq<Item>)
    requires parent == x + (early + mid + late) && b + parent + rest == whole
    requires before == b + x + early && sub == mid && after == late + rest
    ensures before + sub + after == whole
  {
  }

  /** The preorder of a single node. */
  lemma PreorderLeaf(x: Item)
    requires x.node.children == []
    ensures Preorder(x.node, x.depth) == [x]
  {
    assert PreorderForest(x.node.children, x.depth + 1) == [];
  }

  // ---------------------------------------------------------------------
  // Preorder

  lemma {:induction false} PreorderItemsConcat(a: seq<Item>, b: seq<Item>)
    ensures PreorderItems(a + b) == PreorderItems(a) + PreorderItems(b)
  {
    if a != [] {
      assert (a + b)[0] == a[0];
      assert (a + b)[1..] == a[1..] + b;
      PreorderItemsConcat(a[1..], b);
    } else {
      assert a + b == b;
    }
  }

  lemma {:induction false} PreorderItemsForest(fs: seq<Node>, d: nat)
    ensures PreorderItems(Items(fs, d)) == PreorderForest(fs, d)
  {
    if fs != [] {
      assert Items(fs, d)[1..] == Items(fs[1..], d);
      PreorderItemsForest(fs[1..], d);
    }
  }

  /** Visiting a pending node replaces it by its children, one level deeper. */
  lemma EnterChildren(x: Item, pending: seq<Item>)
    ensures PreorderItems([x] + pending)
         == [x] + PreorderItems(Items(x.node.children, x.depth + 1) + pending)
  {
    assert ([x] + pending)[0] == x;
    assert ([x] + pending)[1..] == pending;
    PreorderItemsConcat(Items(x.node.children, x.depth + 1), pending);
    PreorderItemsForest(x.node.children, x.depth + 1);
  }

  /** The preorder sequence has one entry per node. */
  lemma {:induction false} PreorderLength(n: Node, d: nat)
    ensures |Preorder(n, d)| == Size(n)
    decreases n, 1
  {
    PreorderForestLength(n.children, d + 1);
  }

  lemma {:induction false} PreorderForestLength(fs: seq<Node>, d: nat)
    ensures |PreorderForest(fs, d)| == ForestSize(fs)
    decreases fs, 0
  {
    if fs != [] {
      PreorderLength(fs[0], d);
      PreorderForestLength(fs[1..], d);
    }
  }

  /** Every node in the preorder of a tree with root depth d lies at depth d
      or below, and no deeper than the tree's own deepest node: its depth plus
      its own height is at most d + Height(n). */
  lemma {:induction false} PreorderDepths(n: Node, d: nat)
    ensures forall it :: it in Preorder(n, d) ==> d <= it.depth && it.depth + Height(it.node) <= d + Height(n)
    decreases n, 1
  {
    PreorderForestDepths(n.children, d + 1);
    if n.children == [] {
      assert PreorderForest(n.children, d + 1) == [];
    }
  }

  lemma {:induction false} PreorderForestDepths(fs: seq<Node>, d: nat)
    ensures forall it :: it in PreorderForest(fs, d) ==> d <= it.depth && it.depth + Height(it.node) <= d + ForestHeight(fs)
    decreases fs, 0
  {
    if fs != [] {
      PreorderDepths(fs[0], d);
      PreorderForestDepths(fs[1..], d);
      forall it | it in PreorderForest(fs, d)
        ensures d <= it.depth && it.depth + Height(it.node) <= d + ForestHeight(fs)
      {
        if it in Preorder(fs[0], d) {
        } else {
          assert it in PreorderForest(fs[1..], d);
        }
      }
    }
  }

  // ---------------------------------------------------------------------
  // Sums over node sequences (the counters of the cursor loops)

  /** Sum of a weight over a sequence of walked nodes. */
  function Tally(f: Item -> nat, s: seq<Item>): nat
  {
    if s == [] then 0 else Tally(f, s[..|s| - 1]) + f(s[|s| - 1])
  }

  function RealTally(f: Item -> real, s: seq<Item>): real
  {
    if s == [] then 0.0 else RealTally(f, s[..|s| - 1]) + f(s[|s| - 1])
  }

  lemma TallyAppend(f: Item -> nat, s: seq<Item>, x: Item)
    ensures Tally(f, s + [x]) == Tally(f, s) + f(x)
  {
    assert (s + [x])[..|s + [x]| - 1] == s;
  }

  lemma RealTallyAppend(f: Item -> real, s: seq<Item>, x: Item)
    ensures RealTally(f, s + [x]) == RealTally(f, s) + f(x)
  {
    assert (s + [x])[..|s + [x]| - 1] == s;
  }

  lemma {:induction false} TallyConcat(f: Item -> nat, a: seq<Item>, b: seq<Item>)
    ensures Tally(f, a + b) == Tally(f, a) + Tally(f, b)
    decreases |b|
  {
    if b == [] {
      assert a + b == a;
    } else {
      var b' := b[..|b| - 1];
      assert a + b == (a + b') + [b[|b| - 1]];
      TallyAppend(f, a + b', b[|b| - 1]);
      TallyConcat(f, a, b');
      assert b == b' + [b[|b| - 1]];
      TallyAppend(f, b', b[|b| - 1]);
    }
  }

  lemma {:induction false} RealTallyConcat(f: Item -> real, a: seq<Item>, b: seq<Item>)
    ensures RealTally(f, a + b) == RealTally(f, a) + RealTally(f, b)
    decreases |b|
  {
    if b == [] {
      assert a + b == a;
    } else {
      var b' := b[..|b| - 1];
      assert a + b == (a + b') + [b[|b| - 1]];
      RealTallyAppend(f, a + b', b[|b| - 1]);
      RealTallyConcat(f, a, b');
      assert b == b' + [b[|b| - 1]];
      RealTallyAppend(f, b', b[|b| - 1]);
    }
  }

  /** A weight bounded by b on every element sums to at most b per element. */
  lemma {:induction false} TallyBound(f: Item -> nat, s: seq<Item>, b: nat)
    requires forall it :: it in s ==> f(it) <= b
    ensures Tally(f, s) <= b * |s|
    decreases |s|
  {
    if s != [] {
      var init := s[..|s| - 1];
      assert forall it :: it in init ==> it in s;
      assert s[|s| - 1] in s;
      TallyBound(f, init, b);
      MulSucc(b, |init|);
    }
  }

  lemma MulSucc(b: nat, n: nat)
    ensures b * (n + 1) == b * n + b
  {
  }

  /** A real weight bounded by c times a natural weight sums to at most c
      times the natural weight's sum. */
  lemma {:induction false} RealTallyDominated(f: Item -> real, g: Item -> nat, c: real, s: seq<Item>)
    requires c >= 0.0
    requires forall it :: it in s ==> 0.0 <= f(it) <= c * g(it) as real
    ensures 0.0 <= RealTally(f, s) <= c * Tally(g, s) as real
    decreases |s|
  {
    if s != [] {
      var init, last := s[..|s| - 1], s[|s| - 1];
      assert forall it :: it in init ==> it in s;
      assert last in s;
      RealTallyDominated(f, g, c, init);
      var a, b := Tally(g, init) as real, g(last) as real;
      assert Tally(g, s) as real == a + b;
      assert c * (a + b) == c * a + c * b;
    }
  }

  /** A weight that is 0 on every node sums to 0. */
  lemma {:induction false} TallyZero(f: Item -> nat, s: seq<Item>)
    requires forall k :: 0 <= k < |s| ==> f(s[k]) == 0
    ensures Tally(f, s) == 0
    decreases |s|
  {
    if s != [] {
      var init := s[..|s| - 1];
      assert forall k :: 0 <= k < |init| ==> init[k] == s[k];
      TallyZero(f, init);
    }
  }

  /** Tally of the preorder of a tree: its root's weight plus its children's tallies. */
  lemma TallyPreorder(f: Item -> nat, n: Node, d: nat)
    ensures Tally(f, Preorder(n, d)) == f(Item(n, d)) + Tally(f, PreorderForest(n.children, d + 1))
  {
    TallyConcat(f, [Item(n, d)], PreorderForest(n.children, d + 1));
    assert [Item(n, d)] == [] + [Item(n, d)];
  }

  lemma TallyPreorderForest(f: Item -> nat, fs: seq<Node>, d: nat)
    requires fs != []
    ensures Tally(f, PreorderForest(fs, d)) == Tally(f, Preorder(fs[0], d)) + Tally(f, PreorderForest(fs[1..], d))
  {
    TallyConcat(f, Preorder(fs[0], d), PreorderForest(fs[1..], d));
  }

  lemma RealTallyPreorder(f: Item -> real, n: Node, d: nat)
    ensures RealTally(f, Preorder(n, d)) == f(Item(n, d)) + RealTally(f, PreorderForest(n.children, d + 1))
  {
    RealTallyConcat(f, [Item(n, d)], PreorderForest(n.children, d + 1));
    assert [Item(n, d)] == [] + [Item(n, d)];
  }

  lemma RealTallyPreorderForest(f: Item -> real, fs: seq<Node>, d: nat)
    requires fs != []
    ensures RealTally(f, PreorderForest(fs, d)) == RealTally(f, Preorder(fs[0], d)) + RealTally(f, PreorderForest(fs[1..], d))
  {
    RealTallyConcat(f, Preorder(fs[0], d), PreorderForest(fs[1..], d));
  }

  /** The same sum as Tally over a preorder, written by recursion on the tree. */
  function NodeTally(f: Item -> nat, n: Node, d: nat): nat
    decreases n, 1
  {
    f(Item(n, d)) + ForestTally(f, n.children, d + 1)
  }

  function ForestTally(f: Item -> nat, fs: seq<Node>, d: nat): nat
    decreases fs, 0
  {
    if fs == [] then 0 else NodeTally(f, fs[0], d) + ForestTally(f, fs[1..], d)
  }

  lemma {:induction false} TallyRecursive(f: Item -> nat, n: Node, d: nat)
    ensures Tally(f, Preorder(n, d)) == NodeTally(f, n, d)
    decreases n, 1
  {
    TallyPreorder(f, n, d);
    ForestTallyRecursive(f, n.children, d + 1);
  }

  lemma {:induction false} ForestTallyRecursive(f: Item -> nat, fs: seq<Node>, d: nat)
    ensures Tally(f, PreorderForest(fs, d)) == ForestTally(f, fs, d)
    decreases fs, 0
  {
    if fs != [] {
      TallyPreorderForest(f, fs, d);
      TallyRecursive(f, fs[0], d);
      ForestTallyRecursive(f, fs[1..], d);
    }
  }

  /** A function definition, `function_item`. */
  predicate IsFunction(n: Node)
  {
    n.kind == "function_item"
  }

  /** 1 on a `function_item` node, 0 elsewhere. */
  function FunctionFlag(it: Item): nat
  {
    if IsFunction(it.node) then 1 else 0
  }

  /** Number of `function_item` nodes of a tree, at any depth. */
  function FunctionCount(t: Node): nat
  {
    Tally(FunctionFlag, Preorder(t, 0))
  }
}

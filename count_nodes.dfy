/** `count_nodes` and `node_type`: the number of nodes of a syntax tree,
    counted by a cursor walk in preorder. The two operators walk the tree
    the same way and differ only in the metric name they report. */
module CountNodes {
  import opened Syntax
  import opened Cursors
  import opened Common

  /** The shared walk: one increment per node visited. The extra cursor
      that `count_nodes` creates first and never moves has no part in it. */
  method CountWalk(t: Node) returns (count: nat)
    ensures count == Size(t)
  {
    var c := new TreeCursor(t);
    count := 0;
    while true
      invariant c.Valid() && c.root == t
      invariant count == |c.done|
      decreases |Preorder(t, 0)| - |c.done|
    {
      count := count + 1;
      var down := c.GotoFirstChild();
      if !down {
        PreorderLeaf(c.here);
        var more := c.Climb();
        if !more {
          PreorderLength(t, 0);
          return;
        }
      }
    }
  }

  method CountNodes(t: Node, src: seq<bv8>) returns (m: Metric)
    ensures m.name == "Node count"
    ensures m.value == Size(t) as real
  {
    var count := CountWalk(t);
    m := Metric("Node count", count as real);
  }

  /** Same walk as `CountNodes`; the statistics table and the benchmark name
      it receives are not used. */
  method NodeType(t: Node, src: seq<bv8>, stats: map<string, real>, benchmark: string) returns (m: Metric)
    ensures m.name == "node_count"
    ensures m.value == Size(t) as real
  {
    var count := CountWalk(t);
    m := Metric("node_count", count as real);
  }

  /** Every tree has at least its root, and a single leaf counts 1. */
  lemma SizePositive(n: Node)
    ensures Size(n) >= 1
    ensures n.children == [] ==> Size(n) == 1
  {
  }
}

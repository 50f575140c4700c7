/** `avg_args`: the mean number of parameters of the `function_item` nodes
    of a file, 0 for a file without functions. */
module AvgArgs {
  import opened Syntax
  import opened Cursors
  import opened Common

  /** Number of named children of a node (`named_child_count`). */
  function NamedChildCount(n: Node): nat
  {
    NamedIn(n.children)
  }

  function NamedIn(cs: seq<Node>): nat
  {
    if cs == [] then 0 else (if cs[0].named then 1 else 0) + NamedIn(cs[1..])
  }

  /** The parameter count of a function: the named children of its first
      direct child of kind `parameters`, or 0 when it has none. */
  function ParamCount(n: Node): nat
  {
    ParamsIn(n.children)
  }

  function ParamsIn(cs: seq<Node>): nat
  {
    if cs == [] then 0
    else if cs[0].kind == "parameters" then NamedChildCount(cs[0])
    else ParamsIn(cs[1..])
  }

  /** ParamCount stated without recursion, in both directions: either some
      direct child is the first of kind `parameters` and its named children
      are the count, or no direct child has that kind and the count is 0. */
  lemma {:induction false} ParamsInFirst(cs: seq<Node>)
    ensures (forall j :: 0 <= j < |cs| ==> cs[j].kind != "parameters") ==> ParamsIn(cs) == 0
    ensures forall i :: 0 <= i < |cs| && cs[i].kind == "parameters"
                        && (forall j :: 0 <= j < i ==> cs[j].kind != "parameters")
                        ==> ParamsIn(cs) == NamedChildCount(cs[i])
  {
    if cs != [] {
      ParamsInFirst(cs[1..]);
      assert forall j :: 1 <= j < |cs| ==> cs[1..][j - 1] == cs[j];
      forall i | 0 <= i < |cs| && cs[i].kind == "parameters"
                 && (forall j :: 0 <= j < i ==> cs[j].kind != "parameters")
        ensures ParamsIn(cs) == NamedChildCount(cs[i])
      {
        if i > 0 {
          assert cs[1..][i - 1] == cs[i];
          assert forall j :: 0 <= j < i - 1 ==> cs[1..][j] == cs[j + 1];
        }
      }
    }
  }

  /** `count_function_parameters`: a loop over the child indices that
      returns at the first `parameters` child. */
  method CountFunctionParameters(n: Node) returns (r: nat)
    ensures r == ParamCount(n)
  {
    var cs := n.children;
    for i := 0 to |cs|
      invariant ParamsIn(cs[i..]) == ParamCount(n)
    {
      assert cs[i..][1..] == cs[i + 1..];
      var child := cs[i];
      if child.kind == "parameters" {
        return NamedChildCount(child);
      }
    }
    return 0;
  }

  function ParamWeight(it: Item): nat
  {
    if IsFunction(it.node) then ParamCount(it.node) else 0
  }

  /** Sum of the parameter counts of all functions of the tree. */
  function TotalParams(t: Node): nat
  {
    Tally(ParamWeight, Preorder(t, 0))
  }

  /** What `avg_args` reports. */
  function AverageArgs(t: Node): real
  {
    if FunctionCount(t) == 0 then 0.0 else TotalParams(t) as real / FunctionCount(t) as real
  }

  /** The average is never negative, and is 0 exactly when no function has
      a parameter. */
  lemma AverageArgsSign(t: Node)
    ensures AverageArgs(t) >= 0.0
    ensures AverageArgs(t) == 0.0 <==> TotalParams(t) == 0 || FunctionCount(t) == 0
  {
    if FunctionCount(t) > 0 && TotalParams(t) > 0 {
      assert TotalParams(t) as real / FunctionCount(t) as real > 0.0;
    }
  }

  /** Only functions carry parameters: the total is 0 when there are none. */
  lemma {:induction false} NoFunctionsNoParams(s: seq<Item>)
    requires Tally(FunctionFlag, s) == 0
    ensures Tally(ParamWeight, s) == 0
    decreases |s|
  {
    if s != [] {
      NoFunctionsNoParams(s[..|s| - 1]);
    }
  }

  /** The counters at the end of the walk give the reported average. */
  lemma ParamsPerFunction(t: Node, total: nat, functions: nat)
    requires total == TotalParams(t) && functions == FunctionCount(t) && functions > 0
    ensures total as real / functions as real == AverageArgs(t)
  {
  }

  method AvgArgs(t: Node, src: seq<bv8>) returns (m: Metric)
    ensures m.name == "avg_args"
    ensures m.value == AverageArgs(t)
  {
    var c := new TreeCursor(t);
    var totalParams: nat := 0;
    var functionCount: nat := 0;
    while true
      invariant c.Valid() && c.root == t
      invariant totalParams == Tally(ParamWeight, c.done)
      invariant functionCount == Tally(FunctionFlag, c.done)
      decreases |Preorder(t, 0)| - |c.done|
    {
      ghost var seen := c.done + [c.here];
      TallyAppend(FunctionFlag, c.done, c.here);
      TallyAppend(ParamWeight, c.done, c.here);
      var node := c.Node();
      if IsFunction(node) {
        functionCount := functionCount + 1;
        var p := CountFunctionParameters(node);
        totalParams := totalParams + p;
      }
      assert totalParams == Tally(ParamWeight, seen) && functionCount == Tally(FunctionFlag, seen);
      var down := c.GotoFirstChild();
      if !down {
        PreorderLeaf(c.here);
        var more := c.Climb();
        if !more {
          assert seen == Preorder(t, 0);
          if functionCount == 0 {
            return Metric("avg_args", 0.0);
          }
          ParamsPerFunction(t, totalParams, functionCount);
          return Metric("avg_args", totalParams as real / functionCount as real);
        }
      }
    }
  }
}

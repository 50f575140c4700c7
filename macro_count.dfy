/** `macro_count`: the ratio of macro invocations to macro definitions, both
    counted from 1 so that the ratio is always defined. */
module MacroCount {
  import opened Syntax
  import opened Cursors
  import opened Common

  function InvocationFlag(it: Item): nat
  {
    if it.node.kind == "macro_invocation" then 1 else 0
  }

  function DefinitionFlag(it: Item): nat
  {
    if it.node.kind == "macro_definition" then 1 else 0
  }

  /** Number of `macro_invocation` nodes, at any depth. */
  function Invocations(t: Node): nat
  {
    Tally(InvocationFlag, Preorder(t, 0))
  }

  /** Number of `macro_definition` nodes, at any depth. */
  function Definitions(t: Node): nat
  {
    Tally(DefinitionFlag, Preorder(t, 0))
  }

  /** The quotient of two counters, as `f64` division computes it. */
  function Ratio(a: nat, b: nat): real
    requires b > 0
  {
    a as real / b as real
  }

  /** What `macro_count` reports. */
  function MacroRatio(t: Node): real
  {
    Ratio(Invocations(t) + 1, Definitions(t) + 1)
  }

  /** The ratio is always positive; it is 1 for a file without macros, and
      above 1 exactly when there are more invocations than definitions. */
  lemma MacroRatioFacts(t: Node)
    ensures MacroRatio(t) > 0.0
    ensures Invocations(t) == 0 && Definitions(t) == 0 ==> MacroRatio(t) == 1.0
    ensures MacroRatio(t) > 1.0 <==> Invocations(t) > Definitions(t)
  {
    RatioAboveOne((Invocations(t) + 1) as real, (Definitions(t) + 1) as real);
  }

  lemma RatioAboveOne(a: real, b: real)
    requires a > 0.0 && b > 0.0
    ensures a / b > 0.0
    ensures a / b > 1.0 <==> a > b
  {
    var q := a / b;
    assert q * b == a;
    assert q <= 1.0 ==> q * b <= b;
    assert q > 1.0 ==> q * b > b;
  }

  /** The counters at the end of the walk give the reported ratio. */
  lemma RatioOfCounters(t: Node, calls: nat, defs: nat)
    requires calls == Invocations(t) + 1 && defs == Definitions(t) + 1
    ensures defs > 0 && calls as real / defs as real == MacroRatio(t)
  {
  }

  method MacroCount(t: Node, src: seq<bv8>) returns (m: Metric)
    ensures m.name == "macro"
    ensures m.value == MacroRatio(t)
  {
    var c := new TreeCursor(t);
    var macroCalls: nat := 1;
    var macroDefinitions: nat := 1;
    while true
      invariant c.Valid() && c.root == t
      invariant macroCalls == Tally(InvocationFlag, c.done) + 1
      invariant macroDefinitions == Tally(DefinitionFlag, c.done) + 1
      decreases |Preorder(t, 0)| - |c.done|
    {
      ghost var seen := c.done + [c.here];
      var node := c.Node();
      TallyAppend(InvocationFlag, c.done, c.here);
      if node.kind == "macro_invocation" {
        macroCalls := macroCalls + 1;
      }
      assert macroCalls == Tally(InvocationFlag, seen) + 1;
      TallyAppend(DefinitionFlag, c.done, c.here);
      if node.kind == "macro_definition" {
        macroDefinitions := macroDefinitions + 1;
      }
      assert macroDefinitions == Tally(DefinitionFlag, seen) + 1;
      var more := c.Advance();
      if !more {
        assert seen == Preorder(t, 0);
        RatioOfCounters(t, macroCalls, macroDefinitions);
        return Metric("macro", macroCalls as real / macroDefinitions as real);
      }
    }
  }
}

/** `ast_ops`: the registry of the operators applied to every source file.
    `node_type` and `file_number` exist but are not registered. Every
    operator receives the tree and the source bytes. */
module Parse {
  import opened Syntax
  import opened Common
  import CountNodes
  import FnAvgDepth
  import AvgArgs
  import MacroCount
  import FieldCount
  import StructMethods
  import ParallelCalls

  datatype Op = CountNodesOp | FnAvgDepthOp | AvgArgsOp | MacroCountOp
              | FieldCountOp | StructMethodsOp | ParallelCallsOp

  /** The registry, in its fixed order. */
  function AstOps(): seq<Op>
  {
    [CountNodesOp, FnAvgDepthOp, AvgArgsOp, MacroCountOp, FieldCountOp, StructMethodsOp, ParallelCallsOp]
  }

  /** The metric name each operator reports. */
  function OpName(op: Op): string
  {
    match op
    case CountNodesOp => "Node count"
    case FnAvgDepthOp => "fn_avg_depth"
    case AvgArgsOp => "avg_args"
    case MacroCountOp => "macro"
    case FieldCountOp => "fields"
    case StructMethodsOp => "struct_methods"
    case ParallelCallsOp => "parallel_calls"
  }

  /** What each operator computes on a tree; `None` is a panic. */
  function OpValue(op: Op, t: Node): Option<real>
  {
    match op
    case CountNodesOp => Some(Size(t) as real)
    case FnAvgDepthOp => Some(FnAvgDepth.AverageFnDepth(t))
    case AvgArgsOp => Some(AvgArgs.AverageArgs(t))
    case MacroCountOp => Some(MacroCount.MacroRatio(t))
    case FieldCountOp => Some(FieldCount.AverageFields(t))
    case StructMethodsOp => Some(StructMethods.AverageMethods(t))
    case ParallelCallsOp =>
      match ParallelCalls.ParallelCount(t)
      case None => None
      case Some(k) => Some(k as real)
  }

  /** The registry holds seven operators whose names are pairwise distinct,
      so one file contributes one value to each of seven keys. */
  lemma RegistryNames()
    ensures |AstOps()| == 7
    ensures forall i, j :: 0 <= i < j < |AstOps()| ==> OpName(AstOps()[i]) != OpName(AstOps()[j])
  {
  }

  /** Only `parallel_calls` can panic. */
  lemma OnlyParallelCallsPanics(op: Op, t: Node)
    ensures OpValue(op, t).None? ==> op == ParallelCallsOp
    ensures op == ParallelCallsOp ==> (OpValue(op, t).None? <==> ParallelCalls.ParallelCount(t).None?)
  {
  }

  /** Runs one registered operator. */
  method RunOp(op: Op, t: Node, src: seq<bv8>) returns (r: Result<Metric>)
    ensures r.Ok? <==> OpValue(op, t).Some?
    ensures r.Ok? ==> r.value == Metric(OpName(op), OpValue(op, t).value)
    ensures r.Err? ==> r.failure.Panic?
  {
    match op
    case CountNodesOp =>
      var m := CountNodes.CountNodes(t, src);
      return Ok(m);
    case FnAvgDepthOp =>
      var m := FnAvgDepth.FnAvgDepth(t);
      return Ok(m);
    case AvgArgsOp =>
      var m := AvgArgs.AvgArgs(t, src);
      return Ok(m);
    case MacroCountOp =>
      var m := MacroCount.MacroCount(t, src);
      return Ok(m);
    case FieldCountOp =>
      var m := FieldCount.FieldCount(t, src);
      return Ok(m);
    case StructMethodsOp =>
      var m := StructMethods.StructMethods(t, src);
      return Ok(m);
    case ParallelCallsOp =>
      r := ParallelCalls.ParallelCalls(t, src);
  }
}

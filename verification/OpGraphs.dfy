// The dataflow graph to be mapped: operations, and the values that each carry
// the result of one operation to any number of others.
module OpGraphs {
  import opened Wrappers
  import opened Mrrg

  // Operations and values are identified by their position in the graph's lists.
  datatype Op = Op(name: string, opcode: string, bitwidth: nat, output: Option<nat>)
  datatype Val = Val(input: nat, outputs: seq<nat>, operandTags: seq<string>)
  datatype OpGraph = OpGraph(ops: seq<Op>, vals: seq<Val>)

  ghost predicate Consistent(og: OpGraph) {
    && (forall v :: 0 <= v < |og.vals| ==>
         && og.vals[v].input < |og.ops| && og.ops[og.vals[v].input].output == Some(v)
         && |og.vals[v].operandTags| == |og.vals[v].outputs|
         && forall i :: 0 <= i < |og.vals[v].outputs| ==> og.vals[v].outputs[i] < |og.ops|)
    && (forall o :: 0 <= o < |og.ops| && og.ops[o].output.Some? ==>
         og.ops[o].output.value < |og.vals| && og.vals[og.ops[o].output.value].input == o)
  }

  predicate CanMapOp(node: Node, op: Op) {
    op.bitwidth == node.bitwidth && op.opcode in node.supportedOps
  }

  /** An untagged operand may use any node, and a node without tags carries any operand. */
  predicate NodeIsCompatibleWithOperand(node: Node, tag: string) {
    tag == "" || node.operandTags == {} || tag in node.operandTags
  }
}

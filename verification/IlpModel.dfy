// The integer linear program of the ILP mapper: its variables, what its
// constraints mean, and the generators that emit them.
module IlpModel {
  import opened Seqs
  import opened Mrrg
  import opened OpGraphs

  datatype Var =
    | R(val: nat, node: NodeId)                      // the value uses the routing node
    | S(val: nat, node: NodeId, fanout: nat)         // ... on the way to its fanout-th sink
    | F(op: nat, node: NodeId)                       // the operation sits on the functional unit
    | EdgeUsed(val: nat, node: NodeId, next: NodeId) // both ends of the link are used
    | T(shared: bool, val: nat, node: NodeId)        // position in a topological order

  type Assignment = Var -> int

  datatype Sense = AtMost | Equal | AtLeast

  datatype Constraint =
    | Linear(lhs: seq<Var>, sense: Sense, rhs: seq<Var>, constant: int)
    | Conjunction(result: Var, a: Var, b: Var)
    | Indicator(on: Var, greater: Var, less: Var, gap: int)

  function Sum(a: Assignment, vars: seq<Var>): int {
    if vars == [] then 0 else Sum(a, vars[..|vars| - 1]) + a(vars[|vars| - 1])
  }

  predicate Holds(a: Assignment, c: Constraint) {
    match c
    case Linear(lhs, sense, rhs, constant) =>
      var l, r := Sum(a, lhs), Sum(a, rhs) + constant;
      (match sense case AtMost => l <= r case Equal => l == r case AtLeast => l >= r)
    case Conjunction(result, x, y) => a(result) == 1 <==> a(x) == 1 && a(y) == 1
    case Indicator(on, greater, less, gap) => a(on) == 1 ==> a(greater) - a(less) >= gap
  }

  /** Positions are natural numbers, and all other variables are binary. */
  ghost predicate InRange(a: Assignment) {
    forall v: Var :: if v.T? then a(v) >= 0 else a(v) == 0 || a(v) == 1
  }

  // Everything that the generators look at.
  datatype Problem = Problem(
    og: OpGraph,
    g: Graph,
    routing: seq<NodeId>,
    functions: seq<NodeId>,
    fixedPorts: map<string, string>,
    topologicalMode: bool,
    perValueOrder: bool)

  ghost predicate Posed(p: Problem) {
    && Consistent(p.og) && WellFormed(p.g)
    && (forall n :: n in p.routing <==> n in p.g.nodes && !p.g.nodes[n].kind.Function?)
    && (forall n :: n in p.functions <==> n in p.g.nodes && !p.g.nodes[n].kind.Routing?)
    && NoDup(p.routing) && NoDup(p.functions)
  }

  function Fanouts(p: Problem, v: nat): nat
    requires v < |p.og.vals|
  {
    |p.og.vals[v].outputs|
  }

  /** A value with a single sink has no S variables of its own: R takes their place. */
  function SVar(p: Problem, v: nat, r: NodeId, i: nat): Var
    requires v < |p.og.vals|
  {
    if Fanouts(p, v) > 1 then S(v, r, i) else R(v, r)
  }

  function TVar(p: Problem, v: nat, r: NodeId): Var {
    if p.perValueOrder then T(false, v, r) else T(true, 0, r)
  }

  // Which constraint of which group.
  datatype Id =
    | SubValue(v: nat, r: NodeId, i: nat)
    | RouteExclusivity(r: NodeId)
    | FunctionUnitExclusivity(f: NodeId)
    | OpMustBeMapped(op: nat)
    | FanoutRouting(v: nat, r: NodeId, i: nat)
    | MuxExclusivity(v: nat, r: NodeId)
    | FunctionUnitFanout(op: nat, f: NodeId, i: nat)
    | FunctionUnitFanin(v: nat, op: nat, f: NodeId, fanin: NodeId)
    | OpSupported(op: nat, f: NodeId)
    | EdgeUsage(v: nat, r: NodeId, next: NodeId)
    | TopologicalOrdering(v: nat, r: NodeId, next: NodeId)
    | OperandRouting(v: nat, r: NodeId, i: nat)

  datatype Entry = Entry(id: Id, c: Constraint)

  /** The values that may come out of routing node r towards sink i of v. */
  function FanoutTerms(p: Problem, v: nat, i: nat, r: NodeId, fanout: seq<NodeId>): seq<Var>
    requires v < |p.og.vals| && i < Fanouts(p, v)
    requires forall n :: n in fanout ==> n in p.g.nodes
  {
    if fanout == [] then []
    else
      var n := fanout[|fanout| - 1];
      FanoutTerms(p, v, i, r, fanout[..|fanout| - 1]) +
      (if p.g.nodes[n].kind.Routing? then [SVar(p, v, n, i)]
       else if p.g.nodes[n].kind.Function? && r in p.g.nodes[n].fanin then [F(p.og.vals[v].outputs[i], n)]
       else [])
  }

  /** The output indices of v that lead to op. */
  function OutputsTo(outputs: seq<nat>, op: nat): (r: seq<nat>)
    ensures forall i :: i in r <==> 0 <= i < |outputs| && outputs[i] == op
  {
    if outputs == [] then []
    else
      var k := |outputs| - 1;
      var before := OutputsTo(outputs[..k], op);
      assert forall i :: i in before ==> 0 <= i < k;
      if outputs[k] == op then before + [k] else before
  }

  lemma {:induction false} OutputsToNoDup(outputs: seq<nat>, op: nat)
    ensures NoDup(OutputsTo(outputs, op))
  {
    if outputs != [] {
      var k := |outputs| - 1;
      OutputsToNoDup(outputs[..k], op);
      if outputs[k] == op {
        AppendNoDup(OutputsTo(outputs[..k], op), k);
      }
    }
  }

  predicate HasSubstring(s: string, t: string) {
    exists i {:trigger s[i..]} :: 0 <= i <= |s| && t <= s[i..]
  }

  predicate MayHost(p: Problem, op: nat, f: NodeId)
    requires op < |p.og.ops| && f in p.g.nodes
  {
    var o := p.og.ops[op];
    CanMapOp(p.g.nodes[f], o) && (o.name in p.fixedPorts ==> HasSubstring(f.name, p.fixedPorts[o.name]))
  }

  predicate IsRoutingLink(p: Problem, r: NodeId, next: NodeId) {
    && r in p.routing && r in p.g.nodes && next in p.g.nodes[r].fanout
    && next in p.g.nodes && p.g.nodes[next].kind.Routing?
  }

  predicate IsValue(p: Problem, v: nat) {
    v < |p.og.vals|
  }

  predicate IsSink(p: Problem, v: nat, i: nat) {
    IsValue(p, v) && i < Fanouts(p, v)
  }

  predicate IsRouting(p: Problem, r: NodeId) {
    r in p.routing && r in p.g.nodes && forall n :: n in p.g.nodes[r].fanout ==> n in p.g.nodes
  }

  predicate IsFunction(p: Problem, f: NodeId) {
    f in p.functions && f in p.g.nodes
  }

  /** Which constraints the model has. */
  predicate Emitted(p: Problem, id: Id) {
    match id
    case SubValue(v, r, i) => IsSink(p, v, i) && IsRouting(p, r) && Fanouts(p, v) > 1
    case RouteExclusivity(r) => IsRouting(p, r)
    case FunctionUnitExclusivity(f) => IsFunction(p, f)
    case OpMustBeMapped(op) => op < |p.og.ops|
    case FanoutRouting(v, r, i) => IsSink(p, v, i) && IsRouting(p, r)
    case MuxExclusivity(v, r) =>
      !p.topologicalMode && IsValue(p, v) && IsRouting(p, r) && |p.g.nodes[r].fanin| > 1
    case FunctionUnitFanout(op, f, i) =>
      && op < |p.og.ops| && IsFunction(p, f) && |p.g.nodes[f].fanout| == 1
      && p.og.ops[op].output.Some? && IsSink(p, p.og.ops[op].output.value, i)
    case FunctionUnitFanin(v, op, f, fanin) =>
      && IsValue(p, v) && op < |p.og.ops| && IsFunction(p, f)
      && |OutputsTo(p.og.vals[v].outputs, op)| > 1
      && CanMapOp(p.g.nodes[f], p.og.ops[op]) && fanin in p.g.nodes[f].fanin
    case OpSupported(op, f) => op < |p.og.ops| && IsFunction(p, f) && !MayHost(p, op, f)
    case EdgeUsage(v, r, next) => p.topologicalMode && IsValue(p, v) && IsRoutingLink(p, r, next)
    case TopologicalOrdering(v, r, next) => p.topologicalMode && IsValue(p, v) && IsRoutingLink(p, r, next)
    case OperandRouting(v, r, i) =>
      && IsSink(p, v, i) && IsRouting(p, r) && i < |p.og.vals[v].operandTags|
      && !NodeIsCompatibleWithOperand(p.g.nodes[r], p.og.vals[v].operandTags[i])
  }

  /** What the constraint with the given id says. */
  function ConstraintFor(p: Problem, id: Id): Constraint
    requires Emitted(p, id)
  {
    match id
    case SubValue(v, r, i) => Linear([R(v, r)], AtLeast, [S(v, r, i)], 0)
    case RouteExclusivity(r) => Linear(Users(|p.og.vals|, r), AtMost, [], 1)
    case FunctionUnitExclusivity(f) => Linear(Hosted(|p.og.ops|, f), AtMost, [], 1)
    case OpMustBeMapped(op) => Linear(Units(p.functions, op), Equal, [], 1)
    case FanoutRouting(v, r, i) => Linear(FanoutTerms(p, v, i, r, p.g.nodes[r].fanout), AtLeast, [SVar(p, v, r, i)], 0)
    case MuxExclusivity(v, r) => Linear(Fanins(v, p.g.nodes[r].fanin), Equal, [R(v, r)], 0)
    case FunctionUnitFanout(op, f, i) =>
      Linear([F(op, f)], Equal, [SVar(p, p.og.ops[op].output.value, p.g.nodes[f].fanout[0], i)], 0)
    case FunctionUnitFanin(v, op, f, fanin) =>
      Linear(Inputs(p, v, fanin, OutputsTo(p.og.vals[v].outputs, op)), AtMost, [], 1)
    case OpSupported(op, f) => Linear([F(op, f)], Equal, [], 0)
    case EdgeUsage(v, r, next) => Conjunction(EdgeUsed(v, r, next), R(v, r), R(v, next))
    case TopologicalOrdering(v, r, next) => Indicator(EdgeUsed(v, r, next), TVar(p, v, next), TVar(p, v, r), 1)
    case OperandRouting(v, r, i) => Linear([SVar(p, v, r, i)], Equal, [], 0)
  }

  function Users(n: nat, r: NodeId): seq<Var> {
    seq(n, v requires 0 <= v < n => R(v, r))
  }

  function Hosted(n: nat, f: NodeId): seq<Var> {
    seq(n, op requires 0 <= op < n => F(op, f))
  }

  function Units(functions: seq<NodeId>, op: nat): seq<Var> {
    seq(|functions|, k requires 0 <= k < |functions| => F(op, functions[k]))
  }

  function Fanins(v: nat, fanin: seq<NodeId>): seq<Var> {
    seq(|fanin|, k requires 0 <= k < |fanin| => R(v, fanin[k]))
  }

  function Inputs(p: Problem, v: nat, fanin: NodeId, outputs: seq<nat>): seq<Var>
    requires IsValue(p, v)
  {
    seq(|outputs|, k requires 0 <= k < |outputs| => SVar(p, v, fanin, outputs[k]))
  }

  /** The entries are exactly those constraints of the model whose id is in scope. */
  ghost predicate Generated(p: Problem, entries: seq<Entry>, scope: Id -> bool) {
    && (forall e :: e in entries ==> Emitted(p, e.id) && scope(e.id) && e.c == ConstraintFor(p, e.id))
    && (forall id :: Emitted(p, id) && scope(id) ==> Entry(id, ConstraintFor(p, id)) in entries)
  }

  lemma Push(p: Problem, entries: seq<Entry>, scope: Id -> bool, id: Id, c: Constraint, scope': Id -> bool)
    requires Generated(p, entries, scope)
    requires Emitted(p, id) && c == ConstraintFor(p, id)
    requires forall x :: Emitted(p, x) ==> (scope'(x) <==> scope(x) || x == id)
    ensures Generated(p, entries + [Entry(id, c)], scope')
  {
  }

  lemma Rescope(p: Problem, entries: seq<Entry>, scope: Id -> bool, scope': Id -> bool)
    requires Generated(p, entries, scope)
    requires forall x :: Emitted(p, x) ==> (scope'(x) <==> scope(x))
    ensures Generated(p, entries, scope')
  {
  }

  lemma Join(p: Problem, a: seq<Entry>, scopeA: Id -> bool, b: seq<Entry>, scopeB: Id -> bool, scope: Id -> bool)
    requires Generated(p, a, scopeA) && Generated(p, b, scopeB)
    requires forall x :: Emitted(p, x) ==> (scope(x) <==> scopeA(x) || scopeB(x))
    ensures Generated(p, a + b, scope)
  {
  }
}

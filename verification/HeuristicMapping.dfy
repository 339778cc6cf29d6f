// The heuristic mappers end to end: what is decoded from a solution of their
// constraints passes the connectivity check.
module HeuristicMapping {
  import opened Wrappers
  import opened Seqs
  import opened Mrrg
  import opened OpGraphs
  import opened Mappings
  import opened PathExclusivity
  import opened EdgeNetwork
  import opened Walks
  import opened ParallelEdges
  import HeuristicPlans

  // The view of the exclusivity constraints on the problem, and that of the edge variables; and
  // for each edge its value, and which output of the value it is.
  datatype Task = Task(og: OpGraph, p: Problem, net: Network, outputOf: seq<(nat, nat)>)

  /** The e-th edge of the network is the i-th output of the value v. */
  ghost predicate IsEdge(k: Task, v: nat, i: nat, e: nat) {
    && e < |k.outputOf| && k.outputOf[e] == (v, i)
    && v < |k.og.vals| && i < |k.og.vals[v].outputs| && i < |k.og.vals[v].operandTags| && e < |k.net.edges|
    && k.net.edges[e].src == k.og.vals[v].input && k.net.edges[e].sink == k.og.vals[v].outputs[i]
    && k.net.edges[e].tag == k.og.vals[v].operandTags[i]
  }

  ghost predicate HasEdge(k: Task, v: nat, i: nat) {
    exists e: nat :: IsEdge(k, v, i, e)
  }

  /** Both views list the same routes, with the same numbers. */
  ghost predicate HasRoute(k: Task, id: PathId, j: nat)
    requires IsPathId(k.net, id)
  {
    && id.fus in k.p.routes && j < |k.p.routes[id.fus]|
    && k.p.routes[id.fus][j] == Route(id.tripCount, id.num, PathsOf(k.net, id.fus, id.tripCount)[id.num])
  }

  ghost predicate ListsRoute(k: Task, id: PathId)
    requires IsPathId(k.net, id)
  {
    exists j: nat :: HasRoute(k, id, j)
  }

  /** The units that an operation may use support it, each listed once; routes lead through routing nodes. */
  ghost predicate Legal(k: Task) {
    && (forall op: nat, fu :: op < |k.og.ops| && op < |k.net.compatible| && fu in k.net.compatible[op] ==>
          fu in k.net.g.nodes && CanMapOp(k.net.g.nodes[fu], k.og.ops[op]))
    && (forall op: nat :: op < |k.net.compatible| ==> NoDup(k.net.compatible[op]))
    && (forall id, i {:trigger PathsOf(k.net, id.fus, id.tripCount)[id.num][i]} ::
          IsPathId(k.net, id) && 1 <= i < |PathsOf(k.net, id.fus, id.tripCount)[id.num]| - 1 &&
          PathsOf(k.net, id.fus, id.tripCount)[id.num][i] in k.net.g.nodes ==>
            k.net.g.nodes[PathsOf(k.net, id.fus, id.tripCount)[id.num][i]].kind.Routing?)
  }

  /** The two views are of the same problem. */
  ghost predicate Posed(k: Task) {
    && Consistent(k.og) && Sorted(k.net) && Valid(k.p) && Legal(k)
    && HeuristicPlans.SameRoutes(k.net, k.p) && k.p.compatible == k.net.compatible && |k.net.compatible| == |k.og.ops|
    && (forall op: nat :: op < |k.og.ops| ==> op in k.net.single)
    && |k.outputOf| == |k.net.edges| && NoDup(k.outputOf)
    && (forall e: nat {:trigger k.outputOf[e]} :: e < |k.outputOf| ==> IsEdge(k, k.outputOf[e].0, k.outputOf[e].1, e))
    && (forall v: nat, i: nat :: v < |k.og.vals| && i < |k.og.vals[v].outputs| ==>
          HasEdge(k, v, i) && k.og.vals[v].outputs[i] in k.p.outputs[k.og.vals[v].input])
    && (forall id :: IsPathId(k.net, id) ==> ListsRoute(k, id))
  }

  /** The values of the variables that both views have. */
  function Shared(sol: Choice): Solution {
    Solution(sol.on, sol.paths)
  }

  // Only pairs of an operation and a unit that it may use have a variable.
  ghost predicate OnlyVariables(k: Task, sol: Choice) {
    forall op, fu :: (op, fu) in sol.on ==> op < |k.net.compatible| && fu in k.net.compatible[op]
  }

  /** A solution of all constraints: those of the network, and the limits on incompatible routes. */
  ghost predicate Solved(k: Task, limits: Limits, sol: Choice) {
    && Posed(k) && Solves(k.net, sol) && OnlyVariables(k, sol)
    && (forall ids :: ids in limits <==> Demanded(k.p, ids)) && (forall ids :: ids in limits ==> limits[ids] == 1)
    && MeetsLimits(limits, Shared(sol))
  }

  /** The mapping holds the units and routing nodes that the solution uses, the units once. */
  ghost predicate Decoded(k: Task, sol: Choice, lists: NodeLists) {
    && (forall op: nat :: op < |k.og.ops| ==>
          NoDup(ListOf(lists, OpNode(op))) &&
          forall fu :: fu in ListOf(lists, OpNode(op)) <==> Hosts(k.net, sol, op, fu))
    && (forall v: nat, n :: v < |k.og.vals| ==>
          (n in ListOf(lists, ValNode(v)) <==> Carries(k.p, Shared(sol), k.og.vals[v].input, n)))
  }

  /** Every operation is on exactly one unit, which supports it. */
  lemma UnitOf(k: Task, limits: Limits, sol: Choice, lists: NodeLists, op: nat)
    requires Solved(k, limits, sol) && Decoded(k, sol, lists) && op < |k.og.ops|
    ensures |ListOf(lists, OpNode(op))| == 1 && Hosts(k.net, sol, op, ListOf(lists, OpNode(op))[0])
    ensures ListOf(lists, OpNode(op))[0] in k.net.g.nodes
    ensures CanMapOp(k.net.g.nodes[ListOf(lists, OpNode(op))[0]], k.og.ops[op])
  {
    var list := ListOf(lists, OpNode(op));
    assert Wanted(k.net, MappedOnce(k.net, op)) && Holds(sol, MappedOnce(k.net, op));
    var unit := SomeMember(UnitsOf(k.net, op) * sol.on);
    assert Hosts(k.net, sol, op, unit.1);
    forall fu | fu in list
      ensures fu == unit.1
    {
      SingleHost(k.net, sol, op, fu, unit.1);
    }
    Singleton(list, unit.1);
  }

  /** No unit has two operations. */
  lemma UnitsApart(k: Task, limits: Limits, sol: Choice)
    requires Solved(k, limits, sol)
    ensures OneOpPerUnit(Shared(sol))
  {
    forall o1, o2, fu | (o1, fu) in sol.on && (o2, fu) in sol.on
      ensures o1 == o2
    {
      var c := OneOpOn(k.net, fu);
      assert Wanted(k.net, c) && Holds(sol, c);
      OneOf(c.units * sol.on, (o1, fu), (o2, fu));
    }
  }

  function One(n: NodeId): nat {
    1
  }

  lemma LimitsAreOne(limits: Limits)
    requires forall ids :: ids in limits ==> limits[ids] == 1
    ensures NodeLimits(limits, One)
  {
    assert One(NodeId(0, "")) == 1;
  }

  lemma TwoValuesApart(k: Task, limits: Limits, sol: Choice, v: nat, w: nat, n: NodeId)
    requires Solved(k, limits, sol) && v < |k.og.vals| && w < |k.og.vals| && v != w
    requires Carries(k.p, Shared(sol), k.og.vals[v].input, n)
    ensures !Carries(k.p, Shared(sol), k.og.vals[w].input, n)
  {
    UnitsApart(k, limits, sol);
    LimitsAreOne(limits);
    ValuesStayApart(k.p, One, limits, Shared(sol), k.og.vals[v].input, k.og.vals[w].input, n);
  }

  /** No routing node carries two values. */
  lemma ValuesApart(k: Task, limits: Limits, sol: Choice, lists: NodeLists)
    requires Solved(k, limits, sol) && Decoded(k, sol, lists)
    ensures NoShorts(k.og, lists)
  {
    forall v: nat, w: nat, n | v < |k.og.vals| && w < |k.og.vals| && v != w && n in ListOf(lists, ValNode(v))
      ensures n !in ListOf(lists, ValNode(w))
    {
      TwoValuesApart(k, limits, sol, v, w, n);
    }
  }

  /** A route in use between the units of an edge carries the value of its source. */
  lemma RouteCarries(k: Task, limits: Limits, sol: Choice, op: nat, sinkOp: nat, id: PathId, i: nat)
    requires Solved(k, limits, sol) && IsPathId(k.net, id) && id in sol.paths
    requires op < |k.net.compatible| && sinkOp < |k.net.compatible| && sinkOp in k.p.outputs[op]
    requires Hosts(k.net, sol, op, id.fus.src) && Hosts(k.net, sol, sinkOp, id.fus.sink)
    requires 1 <= i < |PathsOf(k.net, id.fus, id.tripCount)[id.num]| - 1
    ensures Carries(k.p, Shared(sol), op, PathsOf(k.net, id.fus, id.tripCount)[id.num][i])
  {
    var w := PathsOf(k.net, id.fus, id.tripCount)[id.num];
    assert PathOk(k.net.g, id.fus, id.tripCount, w);
    assert ListsRoute(k, id);
    var j: nat :| HasRoute(k, id, j);
    var r := k.p.routes[id.fus][j];
    assert IdOf(id.fus, r) == id && RouteOk(k.p, id.fus, r);
    assert Edge(k.p, op, sinkOp);
    assert InUse(k.p, Shared(sol), op, sinkOp, FuPair(id.fus.src, id.fus.sink), j, w[..|w| - 1]);
    assert WalkOf(k.p, Shared(sol), op, id.fus.src, w[..|w| - 1]);
    assert w[i] == w[..|w| - 1][i];
  }

  lemma RouteConnects(k: Task, limits: Limits, sol: Choice, lists: NodeLists, v: nat, i: nat, id: PathId)
    requires Solved(k, limits, sol) && Decoded(k, sol, lists) && v < |k.og.vals| && i < |k.og.vals[v].outputs|
    requires IsPathId(k.net, id) && id in sol.paths
    requires Hosts(k.net, sol, k.og.vals[v].input, id.fus.src) && Hosts(k.net, sol, k.og.vals[v].outputs[i], id.fus.sink)
    ensures Connects(k.net.g, ListOf(lists, ValNode(v)), id.fus.src, id.fus.sink,
                     PathsOf(k.net, id.fus, id.tripCount)[id.num])
  {
    var w := PathsOf(k.net, id.fus, id.tripCount)[id.num];
    assert PathOk(k.net.g, id.fus, id.tripCount, w);
    assert HasEdge(k, v, i);
    forall j | 1 <= j < |w| - 1
      ensures w[j] in ListOf(lists, ValNode(v))
    {
      RouteCarries(k, limits, sol, k.og.vals[v].input, k.og.vals[v].outputs[i], id, j);
    }
    assert w[|w| - 2 + 1] in k.net.g.nodes[w[|w| - 2]].fanout;
    assert NodeOk(k.net.g, w[|w| - 2]);
  }

  /** Every sink is connected to its source through the nodes of the value. */
  lemma SinkIsConnected(k: Task, limits: Limits, sol: Choice, lists: NodeLists, v: nat, i: nat)
    requires Solved(k, limits, sol) && Decoded(k, sol, lists) && OpsPlaced(k.og, k.net.g, lists)
    requires v < |k.og.vals| && i < |k.og.vals[v].outputs|
    ensures SinkConnected(k.og, k.net.g, lists, v, i)
  {
    var op, sinkOp := k.og.vals[v].input, k.og.vals[v].outputs[i];
    UnitOf(k, limits, sol, lists, op);
    UnitOf(k, limits, sol, lists, sinkOp);
    var src, sink := ListOf(lists, OpNode(op))[0], ListOf(lists, OpNode(sinkOp))[0];
    assert HasEdge(k, v, i);
    var e: nat :| IsEdge(k, v, i, e);
    var h := OperandIsRouted(k.net, sol, e, sink);
    var var', num: nat :| RouteOf(k.net, sol, e, h, var', num);
    var id := PathId(var'.fus, var'.trips, num);
    assert PathOk(k.net.g, id.fus, id.tripCount, h.walk);
    SingleHost(k.net, sol, op, h.walk[0], src);
    RouteConnects(k, limits, sol, lists, v, i, id);
  }

  /** Main result: whatever solution of its constraints the solver returns, with one unit for each operation and one
      value for each routing node, the mapping decoded from it passes the connectivity check. */
  lemma SolutionIsAccepted(k: Task, limits: Limits, sol: Choice, lists: NodeLists)
    requires Solved(k, limits, sol) && Decoded(k, sol, lists)
    ensures Accepted(k.og, k.net.g, lists)
  {
    forall op: nat | op < |k.og.ops| {
      UnitOf(k, limits, sol, lists, op);
    }
    ValuesApart(k, limits, sol, lists);
    forall v: nat, i: nat | v < |k.og.vals| && i < |k.og.vals[v].outputs| {
      SinkIsConnected(k, limits, sol, lists, v, i);
    }
  }

  /** Routes in use that share a routing node carry one signal there: they come from the same unit, and equally late. */
  lemma OneSignalPerNode(k: Task, limits: Limits, sol: Choice, x: PathId, i: nat, y: PathId, j: nat)
    requires Solved(k, limits, sol) && IsPathId(k.net, x) && IsPathId(k.net, y) && x in sol.paths && y in sol.paths
    requires HeuristicPlans.Meet(k.net.g, WalkOfId(k.net, x), i, WalkOfId(k.net, y), j)
    ensures x.fus.src == y.fus.src
    ensures var w, u := WalkOfId(k.net, x), WalkOfId(k.net, y);
            && HeuristicPlans.InGraph(k.net.g, w) && HeuristicPlans.InGraph(k.net.g, u)
            && Latency(k.net.g, w[..i + 1]) == Latency(k.net.g, u[..j + 1])
  {
    RouteIsListed(k, x);
    RouteIsListed(k, y);
    HeuristicPlans.UsedRoutesAgree(k.net, k.p, limits, Shared(sol), x, i, y, j);
  }

  lemma RouteIsListed(k: Task, id: PathId)
    requires Posed(k) && IsPathId(k.net, id)
    ensures HeuristicPlans.ListsIt(k.net, k.p, id)
  {
    assert ListsRoute(k, id);
    var j: nat :| HasRoute(k, id, j);
    assert RouteOk(k.p, id.fus, k.p.routes[id.fus][j]);
    assert HeuristicPlans.IsListedAt(k.net, k.p, id, j);
  }

  // Several operands from one operation to another.

  /** The i-th and the j-th output of v lead to the same operation, and no output there has a third tag. */
  ghost predicate IsPair(og: OpGraph, v: nat, i: nat, j: nat)
    requires Consistent(og)
  {
    && v < |og.vals| && i < |og.vals[v].outputs| && j < |og.vals[v].outputs| && i != j
    && og.vals[v].outputs[i] == og.vals[v].outputs[j]
    && forall m :: 0 <= m < |og.vals[v].outputs| && og.vals[v].outputs[m] == og.vals[v].outputs[i] ==>
         og.vals[v].operandTags[m] == og.vals[v].operandTags[i] || og.vals[v].operandTags[m] == og.vals[v].operandTags[j]
  }

  /** The value is connected to the unit of its i-th sink by a walk that carries the operand and enters by n. */
  ghost predicate EntersBy(og: OpGraph, g: Graph, lists: NodeLists, v: nat, i: nat, n: NodeId)
    requires Consistent(og) && OpsPlaced(og, g, lists) && v < |og.vals| && i < |og.vals[v].outputs|
  {
    exists w :: Enters(og, g, lists, v, i, n, w)
  }

  ghost predicate Enters(og: OpGraph, g: Graph, lists: NodeLists, v: nat, i: nat, n: NodeId, w: seq<NodeId>)
    requires Consistent(og) && OpsPlaced(og, g, lists) && v < |og.vals| && i < |og.vals[v].outputs|
  {
    && Connects(g, ListOf(lists, ValNode(v)), ListOf(lists, OpNode(og.vals[v].input))[0],
                ListOf(lists, OpNode(og.vals[v].outputs[i]))[0], w)
    && w[|w| - 2] == n && WalkIsCompatibleWithOperand(g, w, og.vals[v].operandTags[i]) == Some(true)
  }

  /** Both operands have an input of their own. */
  ghost predicate InputsApart(og: OpGraph, g: Graph, lists: NodeLists, v: nat, i: nat, j: nat)
    requires Consistent(og) && OpsPlaced(og, g, lists)
    requires v < |og.vals| && i < |og.vals[v].outputs| && j < |og.vals[v].outputs|
  {
    exists n, m :: n != m && EntersBy(og, g, lists, v, i, n) && EntersBy(og, g, lists, v, j, m)
  }

  /** The edge variable in use for an output of a value leads between the units of the two operations. */
  lemma VarOf(k: Task, limits: Limits, sol: Choice, lists: NodeLists, v: nat, i: nat) returns (x: EdgeVar)
    requires Solved(k, limits, sol) && Decoded(k, sol, lists) && OpsPlaced(k.og, k.net.g, lists)
    requires v < |k.og.vals| && i < |k.og.vals[v].outputs|
    ensures HasVar(k.net, x) && x in sol.used && IsEdge(k, v, i, x.edge)
    ensures x.fus == FuPair(ListOf(lists, OpNode(k.og.vals[v].input))[0],
                            ListOf(lists, OpNode(k.og.vals[v].outputs[i]))[0])
  {
    var op, sinkOp := k.og.vals[v].input, k.og.vals[v].outputs[i];
    UnitOf(k, limits, sol, lists, op);
    UnitOf(k, limits, sol, lists, sinkOp);
    assert HasEdge(k, v, i);
    var e: nat :| IsEdge(k, v, i, e);
    x := OperandIsUsed(k.net, sol, e, ListOf(lists, OpNode(sinkOp))[0]);
    var h := UsedEdgeRoutes(k.net, sol, x);
    SingleHost(k.net, sol, op, x.fus.src, ListOf(lists, OpNode(op))[0]);
  }

  lemma OwnRouteEnters(k: Task, limits: Limits, sol: Choice, lists: NodeLists, v: nat, i: nat, x: EdgeVar, id: PathId)
    requires Solved(k, limits, sol) && Decoded(k, sol, lists) && OpsPlaced(k.og, k.net.g, lists)
    requires v < |k.og.vals| && i < |k.og.vals[v].outputs|
    requires HasVar(k.net, x) && x in sol.used && IsEdge(k, v, i, x.edge) && id in OwnRoutes(k.net, sol, x)
    requires x.fus == FuPair(ListOf(lists, OpNode(k.og.vals[v].input))[0],
                             ListOf(lists, OpNode(k.og.vals[v].outputs[i]))[0])
    ensures |WalkOfId(k.net, id)| > 1
    ensures EntersBy(k.og, k.net.g, lists, v, i, WalkOfId(k.net, id)[|WalkOfId(k.net, id)| - 2])
  {
    UnitOf(k, limits, sol, lists, k.og.vals[v].input);
    UnitOf(k, limits, sol, lists, k.og.vals[v].outputs[i]);
    RouteConnects(k, limits, sol, lists, v, i, id);
    var w := WalkOfId(k.net, id);
    assert Enters(k.og, k.net.g, lists, v, i, w[|w| - 2], w);
  }

  lemma TagsOfPair(k: Task, v: nat, i: nat, j: nat, e: nat, f: nat)
    requires Posed(k) && IsPair(k.og, v, i, j) && IsEdge(k, v, i, e) && IsEdge(k, v, j, f)
    ensures e != f && SameEnds(k.net, e, f) && TagsAmong(k.net, e, f)
  {
    forall d: nat | d < |k.net.edges| && SameEnds(k.net, d, e)
      ensures k.net.edges[d].tag == k.net.edges[e].tag || k.net.edges[d].tag == k.net.edges[f].tag
    {
      var (w, m) := k.outputOf[d];
      assert IsEdge(k, w, m, d);
      assert k.og.ops[k.og.vals[w].input].output == Some(w) && k.og.ops[k.og.vals[v].input].output == Some(v);
    }
  }

  /** Main result: two operands from one operation to another enter its unit by different nodes. */
  lemma OperandsEnterApart(k: Task, limits: Limits, sol: Choice, lists: NodeLists, v: nat, i: nat, j: nat)
    requires Solved(k, limits, sol) && Decoded(k, sol, lists) && OpsPlaced(k.og, k.net.g, lists)
    requires IsPair(k.og, v, i, j)
    ensures InputsApart(k.og, k.net.g, lists, v, i, j)
  {
    var x := VarOf(k, limits, sol, lists, v, i);
    var y := VarOf(k, limits, sol, lists, v, j);
    TagsOfPair(k, v, i, j, x.edge, y.edge);
    ParallelEdgesEnterApart(k.net, sol, x, y);
    var a, b :| ApartBy(k.net, sol, x, y, a, b);
    OwnRouteEnters(k, limits, sol, lists, v, i, x, a);
    OwnRouteEnters(k, limits, sol, lists, v, j, y, b);
  }

  method UnitsInUse(k: Task, sol: Choice, op: nat) returns (units: seq<NodeId>)
    requires op < |k.net.compatible| && NoDup(k.net.compatible[op])
    ensures NoDup(units) && forall fu :: fu in units <==> Hosts(k.net, sol, op, fu)
  {
    units := [];
    var compatible := k.net.compatible[op];
    for i := 0 to |compatible|
      invariant NoDup(units)
      invariant forall fu :: fu in units <==> fu in compatible[..i] && (op, fu) in sol.on
    {
      assert compatible[..i + 1] == compatible[..i] + [compatible[i]];
      if (op, compatible[i]) in sol.on {
        units := units + [compatible[i]];
      }
    }
    assert compatible[..|compatible|] == compatible;
  }

  /** Decodes a solution: for each operation its units, and the routing nodes of its value. */
  method Decode(k: Task, sol: Choice) returns (lists: NodeLists)
    requires Posed(k)
    ensures Decoded(k, sol, lists)
  {
    lists := map[];
    for op := 0 to |k.og.ops|
      invariant forall o: nat :: o < op ==>
                  NoDup(ListOf(lists, OpNode(o))) &&
                  forall fu :: fu in ListOf(lists, OpNode(o)) <==> Hosts(k.net, sol, o, fu)
    {
      var units := UnitsInUse(k, sol, op);
      lists := lists[OpNode(op) := units];
    }
    for v := 0 to |k.og.vals|
      invariant forall o: nat :: o < |k.og.ops| ==>
                  NoDup(ListOf(lists, OpNode(o))) &&
                  forall fu :: fu in ListOf(lists, OpNode(o)) <==> Hosts(k.net, sol, o, fu)
      invariant forall x: nat, n :: x < v ==>
                  (n in ListOf(lists, ValNode(x)) <==> Carries(k.p, Shared(sol), k.og.vals[x].input, n))
    {
      var nodes := DecodeValue(k.p, Shared(sol), k.og.vals[v].input);
      lists := lists[ValNode(v) := nodes];
    }
  }

  type Solver = (set<Constraint>, Limits) -> Option<Choice>

  /** What the solver returns satisfies the constraints. */
  ghost predicate Trusted(k: Task, solve: Solver) {
    forall cs, limits :: solve(cs, limits).Some? ==>
      && (forall c :: c in cs ==> Holds(solve(cs, limits).value, c))
      && MeetsLimits(limits, Shared(solve(cs, limits).value)) && OnlyVariables(k, solve(cs, limits).value)
  }

  /** A solver that gives up only on constraints that nothing meets. */
  ghost predicate Exhaustive(k: Task, solve: Solver) {
    forall cs, limits, sol ::
      solve(cs, limits).None? && MeetsLimits(limits, Shared(sol)) && OnlyVariables(k, sol) ==>
        exists c :: c in cs && !Holds(sol, c)
  }

  /** The operations can be placed and the edges routed. */
  ghost predicate Mappable(k: Task)
    requires Sorted(k.net)
  {
    exists plan :: HeuristicPlans.IsPlan(k.net, plan)
  }

  /** A solver that gives up only on unsolvable constraints does not give up on a graph that can be mapped. */
  lemma MappableIsSolved(k: Task, cs: set<Constraint>, limits: Limits, solve: Solver)
    requires Posed(k) && Exhaustive(k, solve) && Mappable(k) && forall c :: c in cs ==> Wanted(k.net, c)
    requires forall ids :: ids in limits ==> Demanded(k.p, ids) && limits[ids] == 1
    ensures solve(cs, limits).Some?
  {
    var plan :| HeuristicPlans.IsPlan(k.net, plan);
    var sol := HeuristicPlans.ChoiceOf(plan);
    HeuristicPlans.PlanSolves(k.net, plan);
    HeuristicPlans.PlanMeetsLimits(k.net, k.p, plan, limits, Shared(sol));
    assert OnlyVariables(k, sol);
  }

  /** The whole mapper: build the constraints, solve them, decode the solution. */
  method MapHeuristically(k: Task, solve: Solver) returns (result: Option<NodeLists>)
    requires Posed(k) && Trusted(k, solve)
    ensures result.Some? ==> Accepted(k.og, k.net.g, result.value)
    ensures result.Some? ==>
              forall v, i, j {:trigger IsPair(k.og, v, i, j)} ::
                IsPair(k.og, v, i, j) ==> InputsApart(k.og, k.net.g, result.value, v, i, j)
    ensures Exhaustive(k, solve) && Mappable(k) ==> result.Some?
  {
    var cs := AddConstraints(k.net);
    var limits := LimitIncompatiblePaths(k.p, One);
    var sol := solve(cs, limits);
    if Exhaustive(k, solve) && Mappable(k) {
      MappableIsSolved(k, cs, limits, solve);
    }
    if sol.None? {
      return None;
    }
    var lists := Decode(k, sol.value);
    SolutionIsAccepted(k, limits, sol.value, lists);
    forall v: nat, i: nat, j: nat | IsPair(k.og, v, i, j) {
      OperandsEnterApart(k, limits, sol.value, lists, v, i, j);
    }
    result := Some(lists);
  }
}

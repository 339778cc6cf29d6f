// The constraints of the heuristic mappers lose no mapping: whatever can be placed and routed
// in the way that is spelled out here is a solution of them.
module HeuristicPlans {
  import opened Mrrg
  import opened Walks
  import opened PathExclusivity
  import opened EdgeNetwork
  import opened ParallelEdges

  // A unit for each operation, a route for each dataflow edge, and the numbers of the units.
  datatype Plan = Plan(place: seq<NodeId>, route: seq<PathId>, number: map<NodeId, int>)

  ghost predicate Shaped(net: Network, plan: Plan) {
    && |plan.place| == |net.compatible| && |plan.route| == |net.edges|
    && forall e: nat :: e < |plan.route| ==> IsPathId(net, plan.route[e])
  }

  /** The walk by which the edge is routed. */
  function Way(net: Network, plan: Plan, e: nat): seq<NodeId>
    requires Shaped(net, plan) && e < |net.edges|
  {
    WalkOfId(net, plan.route[e])
  }

  /** The route leads from the unit of the one operation to that of the other, through nodes that carry the operand. */
  ghost predicate Joined(net: Network, plan: Plan, e: nat)
    requires Sorted(net) && Shaped(net, plan) && e < |net.edges|
  {
    var w, edge := Way(net, plan, e), net.edges[e];
    && plan.route[e].fus == FuPair(plan.place[edge.src], plan.place[edge.sink]) && plan.route[e].fus in net.reachable
    && forall i :: 0 <= i < |w| - 1 ==> w[i] in net.g.nodes && Carries(net.g.nodes[w[i]], edge.tag)
  }

  predicate Carries(n: Node, tag: string) {
    tag == "" || n.operandTags == {} || tag in n.operandTags
  }

  /** Edges between the same operations enter the unit by different nodes. */
  ghost predicate OwnEntries(net: Network, plan: Plan)
    requires Shaped(net, plan)
  {
    forall e: nat, f: nat :: SameEnds(net, e, f) && e != f ==>
      var w, u := Way(net, plan, e), Way(net, plan, f);
      |w| > 1 && |u| > 1 ==> w[|w| - 2] != u[|u| - 2]
  }

  ghost predicate InGraph(g: Graph, w: seq<NodeId>) {
    forall k :: 0 <= k < |w| ==> w[k] in g.nodes
  }

  // The same routing node is at both places.
  ghost predicate Meet(g: Graph, w: seq<NodeId>, i: nat, u: seq<NodeId>, j: nat) {
    i < |w| && j < |u| && w[i] == u[j] && w[i] in g.nodes && g.nodes[w[i]].kind.Routing?
  }

  /** A routing node that is met twice is met by results of one operation, and equally late. */
  ghost predicate OneSignal(net: Network, plan: Plan, e: nat, i: nat, f: nat, j: nat)
    requires Sorted(net) && Shaped(net, plan) && e < |net.edges| && f < |net.edges|
  {
    var w, u := Way(net, plan, e), Way(net, plan, f);
    InGraph(net.g, w) && InGraph(net.g, u) && Meet(net.g, w, i, u, j) ==>
      net.edges[e].src == net.edges[f].src && Latency(net.g, w[..i + 1]) == Latency(net.g, u[..j + 1])
  }

  /** The numbers of the units rise by the trips of the route, less the latency of the edge. */
  ghost predicate Rises(net: Network, plan: Plan, e: nat)
    requires Sorted(net) && Shaped(net, plan) && e < |net.edges|
  {
    var from, to := plan.place[net.edges[e].src], plan.place[net.edges[e].sink];
    && from in plan.number && to in plan.number && net.g.ii > 0
    && InGraph(net.g, Way(net, plan, e))
    && plan.number[to] - plan.number[from] == Trips(net.g, Way(net, plan, e)) - net.edges[e].latency
  }

  ghost predicate IsPlan(net: Network, plan: Plan)
    requires Sorted(net)
  {
    && Shaped(net, plan)
    && (forall op: nat :: op < |plan.place| ==> plan.place[op] in net.compatible[op])
    && (forall op: nat, op': nat :: op < op' < |plan.place| ==> plan.place[op] != plan.place[op'])
    && (forall e: nat :: e < |net.edges| ==> Joined(net, plan, e) && (net.topological ==> Rises(net, plan, e)))
    && OwnEntries(net, plan)
    && (forall e: nat, i: nat, f: nat, j: nat {:trigger OneSignal(net, plan, e, i, f, j)} ::
          e < |net.edges| && f < |net.edges| ==> OneSignal(net, plan, e, i, f, j))
  }

  function VarFor(plan: Plan, e: nat): EdgeVar
    requires e < |plan.route|
  {
    EdgeVar(e, plan.route[e].fus, plan.route[e].tripCount)
  }

  /** What the variables say of the plan. */
  function ChoiceOf(plan: Plan): Choice {
    Choice(set op: nat | op < |plan.place| :: (op, plan.place[op]),
           set e: nat | e < |plan.route| :: VarFor(plan, e),
           set e: nat | e < |plan.route| :: plan.route[e],
           plan.number)
  }

  lemma {:induction false} AllowsEach(g: Graph, w: seq<NodeId>, tag: string)
    requires forall i :: 0 <= i < |w| ==> w[i] in g.nodes
    ensures AllButLastAllow(g, w, tag) <==> forall i :: 0 <= i < |w| - 1 ==> Carries(g.nodes[w[i]], tag)
  {
    if |w| >= 2 {
      AllowsEach(g, w[1..], tag);
      assert forall i :: 0 <= i < |w| - 2 ==> w[1..][i] == w[i + 1];
      forall i | 0 <= i < |w| - 1
        ensures i > 0 ==> w[i] == w[1..][i - 1]
      {
      }
    }
  }

  /** The variables in use exist, and their routes carry the operands. */
  lemma PlannedEdge(net: Network, plan: Plan, e: nat)
    requires Sorted(net) && IsPlan(net, plan) && e < |net.edges|
    ensures HasVar(net, VarFor(plan, e)) && Allows(net, VarFor(plan, e), plan.route[e].num)
    ensures PathOk(net.g, plan.route[e].fus, plan.route[e].tripCount, Way(net, plan, e))
    ensures plan.route[e].fus == FuPair(plan.place[net.edges[e].src], plan.place[net.edges[e].sink])
    ensures net.topological ==> Rises(net, plan, e)
  {
    assert Joined(net, plan, e) && (net.topological ==> Rises(net, plan, e));
    var id := plan.route[e];
    assert PathOk(net.g, id.fus, id.tripCount, PathsOf(net, id.fus, id.tripCount)[id.num]);
    AllowsEach(net.g, Way(net, plan, e), net.edges[e].tag);
  }

  lemma AtMostOne<T>(s: set<T>)
    requires forall x, y :: x in s && y in s ==> x == y
    ensures |s| <= 1
  {
    if s != {} {
      var x :| x in s;
      assert s == {x};
    }
  }

  lemma NotNone<T>(s: set<T>, x: T)
    requires x in s
    ensures |s| >= 1
  {
  }

  lemma MeetsMapped(net: Network, plan: Plan, op: nat)
    requires Sorted(net) && IsPlan(net, plan) && op < |net.compatible|
    ensures Holds(ChoiceOf(plan), MappedOnce(net, op))
  {
    assert UnitsOf(net, op) * ChoiceOf(plan).on == {(op, plan.place[op])};
  }

  lemma MeetsOneOp(net: Network, plan: Plan, fu: NodeId)
    requires Sorted(net) && IsPlan(net, plan)
    ensures Holds(ChoiceOf(plan), OneOpOn(net, fu))
  {
    AtMostOne(OneOpOn(net, fu).units * ChoiceOf(plan).on);
  }

  lemma MeetsFanin(net: Network, plan: Plan, e: nat, fu: NodeId)
    requires Sorted(net) && IsPlan(net, plan) && WantsFanin(net, e, fu)
    ensures Holds(ChoiceOf(plan), FaninOf(net, e, fu))
  {
    if (net.edges[e].sink, fu) in ChoiceOf(plan).on {
      PlannedEdge(net, plan, e);
      NotNone(FaninVars(net, e, fu) * ChoiceOf(plan).used, VarFor(plan, e));
    }
  }

  lemma MeetsOfVar(net: Network, plan: Plan, v: EdgeVar)
    requires Sorted(net) && IsPlan(net, plan) && HasVar(net, v)
    ensures Holds(ChoiceOf(plan), SrcUsed(net, v)) && Holds(ChoiceOf(plan), SinkUsed(net, v))
    ensures Holds(ChoiceOf(plan), PathOf(net, v)) && (net.topological ==> Holds(ChoiceOf(plan), RaiseOf(net, v)))
  {
    if v in ChoiceOf(plan).used {
      PlannedEdge(net, plan, v.edge);
      assert v == VarFor(plan, v.edge);
      NotNone(CarryingPaths(net, v) * ChoiceOf(plan).paths, plan.route[v.edge]);
    }
  }

  lemma OwnRoute(net: Network, plan: Plan, e: nat, f: nat)
    requires Sorted(net) && IsPlan(net, plan) && SameEnds(net, e, f) && plan.route[e] == plan.route[f]
    ensures e == f
  {
    PlannedEdge(net, plan, e);
  }

  lemma MeetsAllPaths(net: Network, plan: Plan, v: EdgeVar)
    requires Sorted(net) && IsPlan(net, plan) && HasVar(net, v)
    ensures Holds(ChoiceOf(plan), AllPathsOf(net, v))
  {
    var c, sol := AllPathsOf(net, v), ChoiceOf(plan);
    var route := (x: EdgeVar) => if x.edge < |plan.route| then plan.route[x.edge] else PathId(v.fus, 0, 0);
    forall x | x in c.vars * sol.used
      ensures x == VarFor(plan, x.edge) && SameEnds(net, x.edge, v.edge) && route(x) in c.paths * sol.paths
    {
      PlannedEdge(net, plan, x.edge);
    }
    forall x, y | x in c.vars * sol.used && y in c.vars * sol.used && route(x) == route(y)
      ensures x == y
    {
      OwnRoute(net, plan, x.edge, y.edge);
    }
    NoMore(c.vars * sol.used, route, c.paths * sol.paths);
  }

  lemma SamePair(net: Network, plan: Plan, e: nat, f: nat)
    requires Sorted(net) && IsPlan(net, plan) && e < |net.edges| && f < |net.edges|
    requires plan.route[e].fus == plan.route[f].fus
    ensures SameEnds(net, e, f)
  {
    PlannedEdge(net, plan, e);
    PlannedEdge(net, plan, f);
  }

  /** Edges whose routes enter the same unit from the same unit by the same node are the same. */
  lemma OwnEntry(net: Network, plan: Plan, e: nat, f: nat)
    requires Sorted(net) && IsPlan(net, plan) && e < |net.edges| && f < |net.edges|
    requires plan.route[e].fus == plan.route[f].fus && InputOf(net, plan.route[e]) == InputOf(net, plan.route[f])
    ensures e == f
  {
    SamePair(net, plan, e, f);
    PlannedEdge(net, plan, e);
    PlannedEdge(net, plan, f);
  }

  lemma MeetsOneByInput(net: Network, plan: Plan, id: PathId)
    requires Sorted(net) && IsPlan(net, plan) && IsPathId(net, id)
    ensures Holds(ChoiceOf(plan), OneByInput(net, id))
  {
    var s := OneByInput(net, id).paths * ChoiceOf(plan).paths;
    PathIdsAre(net);
    forall x, y | x in s && y in s
      ensures x == y
    {
      var e: nat :| e < |plan.route| && plan.route[e] == x;
      var f: nat :| f < |plan.route| && plan.route[f] == y;
      OwnEntry(net, plan, e, f);
    }
    AtMostOne(s);
  }

  lemma MeetsWantedOfUnits(net: Network, plan: Plan, c: Constraint)
    requires Sorted(net) && IsPlan(net, plan) && Wanted(net, c) && (c.MustBeMapped? || c.AtMostOneOp? || c.NeedsFanin?)
    ensures Holds(ChoiceOf(plan), c)
  {
    match c
    case MustBeMapped(units, once) =>
      var op: nat :| op < |net.compatible| && c == MappedOnce(net, op);
      MeetsMapped(net, plan, op);
    case AtMostOneOp(units) =>
      var op: nat, fu :| op < |net.compatible| && fu in net.compatible[op] && c == OneOpOn(net, fu);
      MeetsOneOp(net, plan, fu);
    case NeedsFanin(unit, vars) =>
      var e: nat, fu :| WantsFanin(net, e, fu) && c == FaninOf(net, e, fu);
      MeetsFanin(net, plan, e, fu);
  }

  lemma MeetsWantedOfRoutes(net: Network, plan: Plan, c: Constraint)
    requires Sorted(net) && IsPlan(net, plan) && Wanted(net, c) && (c.RequirePaths? || c.OnePathPerInput?)
    ensures Holds(ChoiceOf(plan), c)
  {
    match c
    case RequirePaths(vars, paths) =>
      var v :| HasVar(net, v) && c == AllPathsOf(net, v);
      MeetsAllPaths(net, plan, v);
    case OnePathPerInput(paths) =>
      var id :| IsPathId(net, id) && c == OneByInput(net, id);
      MeetsOneByInput(net, plan, id);
  }

  lemma MeetsWantedOfVar(net: Network, plan: Plan, c: Constraint)
    requires Sorted(net) && IsPlan(net, plan) && Wanted(net, c) && (c.ImpliesUsage? || c.RequiresPath? || c.Raises?)
    ensures Holds(ChoiceOf(plan), c)
  {
    MeetsOfVar(net, plan, c.v);
  }

  /** Main result: every plan is a solution of the network. */
  lemma PlanSolves(net: Network, plan: Plan)
    requires Sorted(net) && IsPlan(net, plan)
    ensures Solves(net, ChoiceOf(plan))
  {
    forall c | Wanted(net, c)
      ensures Holds(ChoiceOf(plan), c)
    {
      if c.MustBeMapped? || c.AtMostOneOp? || c.NeedsFanin? {
        MeetsWantedOfUnits(net, plan, c);
      } else if c.RequirePaths? || c.OnePathPerInput? {
        MeetsWantedOfRoutes(net, plan, c);
      } else {
        MeetsWantedOfVar(net, plan, c);
      }
    }
  }

  // The limits on incompatible routes.

  /** The exclusivity constraints see the routes of the network, under the same numbers. */
  ghost predicate SameRoutes(net: Network, p: Problem) {
    p.g == net.g && forall fus, j: nat :: fus in p.routes && j < |p.routes[fus]| ==> IsSameRoute(net, p, fus, j)
  }

  ghost predicate IsSameRoute(net: Network, p: Problem, fus: FuPair, j: nat)
    requires fus in p.routes && j < |p.routes[fus]|
  {
    var r := p.routes[fus][j];
    IsPathId(net, IdOf(fus, r)) && WalkOfId(net, IdOf(fus, r)) == r.walk
  }

  lemma {:induction false} ArrivalIsLatency(g: Graph, w: seq<NodeId>, i: nat)
    requires g.ii > 0 && i < |w| && forall k :: 0 <= k < |w| ==> w[k] in g.nodes
    ensures Arrival(g, w, i) == Latency(g, w[..i + 1]) + g.nodes[w[i]].latency
  {
    if i > 0 {
      ArrivalIsLatency(g, w, i - 1);
      var two := [w[i - 1], w[i]];
      TripsOfJoin(g, w[..i], two);
      assert w[..i] + two[1..] == w[..i + 1];
      assert Latency(g, two) == g.nodes[w[i - 1]].latency by {
        assert two[1..] == [w[i]];
      }
    }
  }

  lemma PlannedRoutesAgree(net: Network, plan: Plan, e: nat, f: nat)
    requires Sorted(net) && IsPlan(net, plan) && e < |net.edges| && f < |net.edges|
    ensures var w, u := Way(net, plan, e), Way(net, plan, f);
            && InGraph(net.g, w) && InGraph(net.g, u) && !Incompatible(net.g, w, u)
  {
    var w, u := Way(net, plan, e), Way(net, plan, f);
    PlannedEdge(net, plan, e);
    PlannedEdge(net, plan, f);
    if i: nat, j: nat :| i < |w| && j < |u| && Clash(net.g, w, u, i, j) {
      assert OneSignal(net, plan, e, i, f, j);
      ArrivalIsLatency(net.g, w, i);
      ArrivalIsLatency(net.g, u, j);
    }
  }

  /** What is kept apart is incompatible in the network. */
  lemma DemandedWalks(net: Network, p: Problem, ids: (PathId, PathId))
    requires Sorted(net) && SameRoutes(net, p) && Demanded(p, ids)
    ensures IsPathId(net, ids.0) && IsPathId(net, ids.1)
    ensures var a, b := WalkOfId(net, ids.0), WalkOfId(net, ids.1);
            && InGraph(net.g, a) && InGraph(net.g, b) && Incompatible(net.g, a, b)
  {
    var f1, k1: nat, f2, k2: nat :| Apart(p, f1, k1, f2, k2, ids);
    assert IsSameRoute(net, p, f1, k1) && IsSameRoute(net, p, f2, k2);
  }

  lemma NotDemanded(net: Network, p: Problem, plan: Plan, e: nat, f: nat)
    requires Sorted(net) && IsPlan(net, plan) && SameRoutes(net, p) && e < |net.edges| && f < |net.edges|
    ensures !Demanded(p, (plan.route[e], plan.route[f]))
  {
    PlannedRoutesAgree(net, plan, e, f);
    if Demanded(p, (plan.route[e], plan.route[f])) {
      DemandedWalks(net, p, (plan.route[e], plan.route[f]));
    }
  }

  /** Main result: no two routes of a plan are incompatible, so the plan meets all limits. */
  lemma PlanMeetsLimits(net: Network, p: Problem, plan: Plan, limits: Limits, sol: Solution)
    requires Sorted(net) && IsPlan(net, plan) && SameRoutes(net, p) && sol.used == ChoiceOf(plan).paths
    requires forall ids :: ids in limits ==> Demanded(p, ids) && limits[ids] == 1
    ensures MeetsLimits(limits, sol)
  {
    forall ids | ids in limits
      ensures Chosen(sol, ids.0) + Chosen(sol, ids.1) <= limits[ids]
    {
      if ids.0 in sol.used && ids.1 in sol.used {
        var e: nat :| e < |plan.route| && plan.route[e] == ids.0;
        var f: nat :| f < |plan.route| && plan.route[f] == ids.1;
        NotDemanded(net, p, plan, e, f);
      }
    }
  }

  /** Main result, the other way round: routes in use that share a routing node start from the same unit and
      reach the node equally late, so that it carries one signal. */
  lemma UsedRoutesAgree(net: Network, p: Problem, limits: Limits, sol: Solution, x: PathId, i: nat, y: PathId, j: nat)
    requires Sorted(net) && IsPathId(net, x) && IsPathId(net, y) && ListsIt(net, p, x) && ListsIt(net, p, y)
    requires forall ids :: Demanded(p, ids) ==> ids in limits && limits[ids] == 1
    requires MeetsLimits(limits, sol) && x in sol.used && y in sol.used && p.g == net.g
    requires Meet(net.g, WalkOfId(net, x), i, WalkOfId(net, y), j)
    ensures x.fus.src == y.fus.src
    ensures var w, u := WalkOfId(net, x), WalkOfId(net, y);
            && InGraph(net.g, w) && InGraph(net.g, u)
            && Latency(net.g, w[..i + 1]) == Latency(net.g, u[..j + 1])
  {
    var w, u := WalkOfId(net, x), WalkOfId(net, y);
    assert PathOk(net.g, x.fus, x.tripCount, w) && PathOk(net.g, y.fus, y.tripCount, u);
    ArrivalIsLatency(net.g, w, i);
    ArrivalIsLatency(net.g, u, j);
    if Clash(net.g, w, u, i, j) {
      var k1: nat :| IsListedAt(net, p, x, k1);
      var k2: nat :| IsListedAt(net, p, y, k2);
      assert Apart(p, x.fus, k1, y.fus, k2, (x, y));
    }
  }

  ghost predicate IsListedAt(net: Network, p: Problem, id: PathId, k: nat)
    requires IsPathId(net, id)
  {
    && id.fus in p.routes && k < |p.routes[id.fus]| && RouteOk(p, id.fus, p.routes[id.fus][k])
    && p.routes[id.fus][k] == Route(id.tripCount, id.num, WalkOfId(net, id))
  }

  /** The exclusivity constraints see the route. */
  ghost predicate ListsIt(net: Network, p: Problem, id: PathId)
    requires IsPathId(net, id)
  {
    exists k: nat :: IsListedAt(net, p, id, k)
  }
}

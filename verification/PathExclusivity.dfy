// The pairwise path exclusivity constraints of the heuristic mappers: two
// routes that would put different signals on a node may not both be used.
module PathExclusivity {
  import opened Mrrg

  datatype FuPair = FuPair(src: NodeId, sink: NodeId)
  datatype PathId = PathId(fus: FuPair, tripCount: int, num: nat)

  // A routing option between two units: its trip count, its number among the
  // options with that trip count, and its walk, units included.
  datatype Route = Route(tripCount: int, num: nat, walk: seq<NodeId>)

  // The operations with the operations they drive, the units each may use,
  // which units reach which, and the routes between them.
  datatype Problem = Problem(
    g: Graph,
    outputs: seq<seq<nat>>,
    compatible: seq<seq<NodeId>>,
    reachable: set<FuPair>,
    routes: map<FuPair, seq<Route>>)

  function IdOf(fus: FuPair, r: Route): PathId {
    PathId(fus, r.tripCount, r.num)
  }

  /** treatAsNeighbours: an operation that drives itself stays on one unit. */
  predicate Neighbours(p: Problem, op: nat, fu: NodeId, sinkOp: nat, sinkFu: NodeId) {
    (op == sinkOp ==> fu == sinkFu) && FuPair(fu, sinkFu) in p.reachable
  }

  ghost predicate Edge(p: Problem, op: nat, sinkOp: nat) {
    op < |p.outputs| && op < |p.compatible| && sinkOp in p.outputs[op] && sinkOp < |p.compatible|
  }

  /** Some edge of the dataflow graph can be mapped to the two units. */
  ghost predicate Candidate(p: Problem, fus: FuPair) {
    exists op: nat, sinkOp: nat :: Edge(p, op, sinkOp) && CanUse(p, op, sinkOp, fus)
  }

  ghost predicate CanUse(p: Problem, op: nat, sinkOp: nat, fus: FuPair)
    requires Edge(p, op, sinkOp)
  {
    fus.src in p.compatible[op] && fus.sink in p.compatible[sinkOp] && Neighbours(p, op, fus.src, sinkOp, fus.sink)
  }

  /** Routes exist for exactly the pairs of units that an edge can use; each
      starts at its first unit. */
  ghost predicate Valid(p: Problem) {
    && |p.outputs| == |p.compatible|
    && (forall op, k :: 0 <= op < |p.outputs| && 0 <= k < |p.outputs[op]| ==> p.outputs[op][k] < |p.compatible|)
    && (forall fus :: fus in p.routes <==> Candidate(p, fus))
    && (forall fus, k :: fus in p.routes && 0 <= k < |p.routes[fus]| ==> RouteOk(p, fus, p.routes[fus][k]))
  }

  ghost predicate RouteOk(p: Problem, fus: FuPair, r: Route) {
    r.walk != [] && r.walk[0] == fus.src && forall i :: 0 <= i < |r.walk| ==> r.walk[i] in p.g.nodes
  }

  /** The latency up to the end of the i-th node. */
  function Arrival(g: Graph, w: seq<NodeId>, i: nat): nat
    requires i < |w| && forall k :: 0 <= k < |w| ==> w[k] in g.nodes
  {
    g.nodes[w[i]].latency + if i == 0 then 0 else Arrival(g, w, i - 1)
  }

  /** Both walks use a routing node, and not for the same signal at the same time. */
  ghost predicate Clash(g: Graph, a: seq<NodeId>, b: seq<NodeId>, i: nat, j: nat)
    requires i < |a| && j < |b|
    requires (forall k :: 0 <= k < |a| ==> a[k] in g.nodes) && (forall k :: 0 <= k < |b| ==> b[k] in g.nodes)
  {
    && a[i] == b[j] && g.nodes[b[j]].kind.Routing?
    && !(a[0] == b[0] && Arrival(g, a, i) == Arrival(g, b, j))
  }

  ghost predicate Incompatible(g: Graph, a: seq<NodeId>, b: seq<NodeId>)
    requires (forall k :: 0 <= k < |a| ==> a[k] in g.nodes) && (forall k :: 0 <= k < |b| ==> b[k] in g.nodes)
  {
    exists i: nat, j: nat :: i < |a| && j < |b| && Clash(g, a, b, i, j)
  }

  type Limits = map<(PathId, PathId), nat>

  // Every limit is the one of some node.
  ghost predicate NodeLimits(limits: Limits, limit: NodeId -> nat) {
    forall k :: k in limits ==> exists n :: limits[k] == limit(n)
  }

  /** Limits the use of two routes if they are incompatible; a pair that is limited already is left alone. */
  method LimitPair(p: Problem, f1: FuPair, r1: Route, f2: FuPair, r2: Route, limit: NodeId -> nat, limits: Limits)
    returns (limits': Limits)
    requires RouteOk(p, f1, r1) && RouteOk(p, f2, r2) && NodeLimits(limits, limit)
    ensures NodeLimits(limits', limit) && limits.Keys <= limits'.Keys
    ensures Incompatible(p.g, r1.walk, r2.walk) ==> (IdOf(f1, r1), IdOf(f2, r2)) in limits'
    ensures forall ids :: ids in limits' && ids !in limits ==>
              ids == (IdOf(f1, r1), IdOf(f2, r2)) && Incompatible(p.g, r1.walk, r2.walk)
  {
    limits' := limits;
    var ids := (IdOf(f1, r1), IdOf(f2, r2));
    var latency1 := 0;
    for i := 0 to |r1.walk|
      invariant i > 0 ==> latency1 == Arrival(p.g, r1.walk, i - 1)
      invariant i == 0 ==> latency1 == 0
      invariant NodeLimits(limits', limit) && limits.Keys <= limits'.Keys <= limits.Keys + {ids}
      invariant limits'.Keys > limits.Keys ==> Incompatible(p.g, r1.walk, r2.walk)
      invariant forall x: nat, y: nat :: x < i && y < |r2.walk| && Clash(p.g, r1.walk, r2.walk, x, y) ==> ids in limits'
    {
      latency1 := latency1 + p.g.nodes[r1.walk[i]].latency;
      var latency2 := 0;
      for j := 0 to |r2.walk|
        invariant j > 0 ==> latency2 == Arrival(p.g, r2.walk, j - 1)
        invariant j == 0 ==> latency2 == 0
        invariant NodeLimits(limits', limit) && limits.Keys <= limits'.Keys <= limits.Keys + {ids}
        invariant limits'.Keys > limits.Keys ==> Incompatible(p.g, r1.walk, r2.walk)
        invariant forall x: nat, y: nat :: x < i && y < |r2.walk| && Clash(p.g, r1.walk, r2.walk, x, y) ==> ids in limits'
        invariant forall y: nat :: y < j && Clash(p.g, r1.walk, r2.walk, i, y) ==> ids in limits'
      {
        latency2 := latency2 + p.g.nodes[r2.walk[j]].latency;
        if p.g.nodes[r2.walk[j]].kind.Routing? && r1.walk[i] == r2.walk[j] &&
           !(r2.walk[0] == r1.walk[0] && latency1 == latency2) {
          assert Clash(p.g, r1.walk, r2.walk, i, j);
          if ids !in limits' {
            limits' := limits'[ids := limit(r1.walk[i])];
            break;
          }
        }
      }
    }
  }

  /** The two routes of these units are to be kept apart. */
  ghost predicate Apart(p: Problem, f1: FuPair, k1: nat, f2: FuPair, k2: nat, ids: (PathId, PathId))
  {
    && f1 in p.routes && f2 in p.routes && k1 < |p.routes[f1]| && k2 < |p.routes[f2]|
    && RouteOk(p, f1, p.routes[f1][k1]) && RouteOk(p, f2, p.routes[f2][k2])
    && Incompatible(p.g, p.routes[f1][k1].walk, p.routes[f2][k2].walk)
    && ids == (IdOf(f1, p.routes[f1][k1]), IdOf(f2, p.routes[f2][k2]))
  }

  ghost predicate Demanded(p: Problem, ids: (PathId, PathId))
  {
    exists f1, k1: nat, f2, k2: nat :: Apart(p, f1, k1, f2, k2, ids)
  }

  // All routes between these two pairs of units have been compared.
  ghost predicate Compared(p: Problem, f1: FuPair, f2: FuPair, limits: Limits)
  {
    forall k1: nat, k2: nat {:trigger ComparedRoutes(p, f1, k1, f2, k2, limits)} :: ComparedRoutes(p, f1, k1, f2, k2, limits)
  }

  ghost predicate ComparedRoutes(p: Problem, f1: FuPair, k1: nat, f2: FuPair, k2: nat, limits: Limits)
  {
    forall ids :: Apart(p, f1, k1, f2, k2, ids) ==> ids in limits
  }

  ghost predicate Sound(p: Problem, limit: NodeId -> nat, limits: Limits)
  {
    NodeLimits(limits, limit) && forall ids :: ids in limits ==> Demanded(p, ids)
  }

  /** LimitPair for the i-th and the j-th routes of two pairs of units. */
  method LimitRoutePair(p: Problem, f1: FuPair, i: nat, f2: FuPair, j: nat, limit: NodeId -> nat, limits: Limits)
    returns (limits': Limits)
    requires f1 in p.routes && f2 in p.routes && i < |p.routes[f1]| && j < |p.routes[f2]|
    requires RouteOk(p, f1, p.routes[f1][i]) && RouteOk(p, f2, p.routes[f2][j]) && Sound(p, limit, limits)
    ensures Sound(p, limit, limits') && limits.Keys <= limits'.Keys && ComparedRoutes(p, f1, i, f2, j, limits')
  {
    limits' := LimitPair(p, f1, p.routes[f1][i], f2, p.routes[f2][j], limit, limits);
    forall ids | ids in limits'
      ensures Demanded(p, ids)
    {
      if ids !in limits {
        assert Apart(p, f1, i, f2, j, ids);
      }
    }
  }

  lemma MoreLimits(p: Problem, f1: FuPair, k1: nat, f2: FuPair, k2: nat, limits: Limits, limits': Limits)
    requires ComparedRoutes(p, f1, k1, f2, k2, limits) && limits.Keys <= limits'.Keys
    ensures ComparedRoutes(p, f1, k1, f2, k2, limits')
  {
  }

  method LimitRoute(p: Problem, f1: FuPair, i: nat, f2: FuPair, limit: NodeId -> nat,
                    limits: Limits) returns (limits': Limits)
    requires f1 in p.routes && f2 in p.routes && i < |p.routes[f1]| && RouteOk(p, f1, p.routes[f1][i])
    requires forall k :: 0 <= k < |p.routes[f2]| ==> RouteOk(p, f2, p.routes[f2][k])
    requires Sound(p, limit, limits)
    ensures Sound(p, limit, limits') && limits.Keys <= limits'.Keys
    ensures forall k: nat {:trigger ComparedRoutes(p, f1, i, f2, k, limits')} :: ComparedRoutes(p, f1, i, f2, k, limits')
  {
    limits' := limits;
    for j := 0 to |p.routes[f2]|
      invariant Sound(p, limit, limits') && limits.Keys <= limits'.Keys
      invariant forall k: nat {:trigger ComparedRoutes(p, f1, i, f2, k, limits')} :: k < j ==>
                  ComparedRoutes(p, f1, i, f2, k, limits')
    {
      ghost var before := limits';
      limits' := LimitRoutePair(p, f1, i, f2, j, limit, limits');
      forall k: nat | k < j
        ensures ComparedRoutes(p, f1, i, f2, k, limits')
      {
        MoreLimits(p, f1, i, f2, k, before, limits');
      }
    }
  }

  method LimitRoutes(p: Problem, f1: FuPair, f2: FuPair, limit: NodeId -> nat, limits: Limits) returns (limits': Limits)
    requires Valid(p) && f1 in p.routes && f2 in p.routes && Sound(p, limit, limits)
    ensures Sound(p, limit, limits') && limits.Keys <= limits'.Keys && Compared(p, f1, f2, limits')
  {
    limits' := limits;
    for i := 0 to |p.routes[f1]|
      invariant Sound(p, limit, limits') && limits.Keys <= limits'.Keys
      invariant ComparedUpTo(p, f1, i, f2, limits')
    {
      ghost var before := limits';
      limits' := LimitRoute(p, f1, i, f2, limit, limits');
      forall k1: nat, k2: nat | k1 < i
        ensures ComparedRoutes(p, f1, k1, f2, k2, limits')
      {
        MoreLimits(p, f1, k1, f2, k2, before, limits');
      }
    }
  }

  ghost predicate ComparedUpTo(p: Problem, f1: FuPair, i: nat, f2: FuPair, limits: Limits)
  {
    forall k1: nat, k2: nat {:trigger ComparedRoutes(p, f1, k1, f2, k2, limits)} :: k1 < i ==>
      ComparedRoutes(p, f1, k1, f2, k2, limits)
  }

  /** The pairs of units that the edges can use, in the order of the loops, with repetitions. */
  method Candidates(p: Problem) returns (cands: seq<FuPair>)
    requires Valid(p)
    ensures forall fus :: fus in cands <==> fus in p.routes
  {
    cands := [];
    for op := 0 to |p.outputs|
      invariant forall fus :: fus in cands ==> fus in p.routes
      invariant forall o: nat, s: nat, fus :: o < op && Edge(p, o, s) && CanUse(p, o, s, fus) ==> fus in cands
    {
      for k := 0 to |p.outputs[op]|
        invariant forall fus :: fus in cands ==> fus in p.routes
        invariant forall o: nat, s: nat, fus :: o < op && Edge(p, o, s) && CanUse(p, o, s, fus) ==> fus in cands
        invariant forall s: nat, fus :: s in p.outputs[op][..k] && Edge(p, op, s) && CanUse(p, op, s, fus) ==> fus in cands
      {
        var sinkOp := p.outputs[op][k];
        assert p.outputs[op][..k + 1] == p.outputs[op][..k] + [sinkOp];
        assert Edge(p, op, sinkOp);
        var more := CandidatesOf(p, op, sinkOp);
        cands := cands + more;
      }
      assert p.outputs[op][..|p.outputs[op]|] == p.outputs[op];
    }
  }

  method CandidatesOf(p: Problem, op: nat, sinkOp: nat) returns (cands: seq<FuPair>)
    requires Valid(p) && Edge(p, op, sinkOp)
    ensures forall fus :: fus in cands <==> CanUse(p, op, sinkOp, fus)
    ensures forall fus :: fus in cands ==> fus in p.routes
  {
    cands := [];
    var srcs, sinks := p.compatible[op], p.compatible[sinkOp];
    for i := 0 to |srcs|
      invariant forall fus :: fus in cands <==> CanUse(p, op, sinkOp, fus) && fus.src in srcs[..i]
    {
      assert srcs[..i + 1] == srcs[..i] + [srcs[i]];
      ghost var before := cands;
      for j := 0 to |sinks|
        invariant forall fus :: fus in cands <==>
                    fus in before || (CanUse(p, op, sinkOp, fus) && fus.src == srcs[i] && fus.sink in sinks[..j])
      {
        assert sinks[..j + 1] == sinks[..j] + [sinks[j]];
        if Neighbours(p, op, srcs[i], sinkOp, sinks[j]) {
          cands := cands + [FuPair(srcs[i], sinks[j])];
        }
      }
      assert sinks[..|sinks|] == sinks;
    }
    assert srcs[..|srcs|] == srcs;
    assert forall fus :: CanUse(p, op, sinkOp, fus) ==> Candidate(p, fus);
  }

  // All routes of the pairs of units in these sets have been compared.
  ghost predicate AllCompared(p: Problem, visited: set<FuPair>, visitedPairs: set<(FuPair, FuPair)>, limits: Limits)
  {
    forall f1, f2 {:trigger Compared(p, f1, f2, limits)} ::
      (f1 in visited && f2 in p.routes) || (f1, f2) in visitedPairs ==> Compared(p, f1, f2, limits)
  }

  lemma ComparedStays(p: Problem, visited: set<FuPair>, visitedPairs: set<(FuPair, FuPair)>, limits: Limits,
                      limits': Limits)
    requires AllCompared(p, visited, visitedPairs, limits) && limits.Keys <= limits'.Keys
    ensures AllCompared(p, visited, visitedPairs, limits')
  {
    forall f1, f2 | (f1 in visited && f2 in p.routes) || (f1, f2) in visitedPairs
      ensures Compared(p, f1, f2, limits')
    {
      assert Compared(p, f1, f2, limits);
      forall k1: nat, k2: nat
        ensures ComparedRoutes(p, f1, k1, f2, k2, limits')
      {
        assert ComparedRoutes(p, f1, k1, f2, k2, limits);
      }
    }
  }

  /** Compares one pair of units with all, skipping the pairs of pairs that have been visited. */
  method LimitAgainstAll(p: Problem, f1: FuPair, cands: seq<FuPair>, ghost visited: set<FuPair>,
                         visitedPairs: set<(FuPair, FuPair)>, limit: NodeId -> nat, limits: Limits)
    returns (visitedPairs': set<(FuPair, FuPair)>, limits': Limits)
    requires Valid(p) && f1 in p.routes && forall fus :: fus in cands <==> fus in p.routes
    requires Sound(p, limit, limits) && AllCompared(p, visited, visitedPairs, limits)
    ensures Sound(p, limit, limits') && AllCompared(p, visited + {f1}, visitedPairs', limits')
  {
    visitedPairs', limits' := visitedPairs, limits;
    for j := 0 to |cands|
      invariant Sound(p, limit, limits') && AllCompared(p, visited, visitedPairs', limits')
      invariant forall k :: 0 <= k < j ==> (f1, cands[k]) in visitedPairs'
    {
      if (f1, cands[j]) !in visitedPairs' {
        assert cands[j] in cands;
        ghost var before := limits';
        limits' := LimitRoutes(p, f1, cands[j], limit, limits');
        ComparedStays(p, visited, visitedPairs', before, limits');
        visitedPairs' := visitedPairs' + {(f1, cands[j])};
      }
    }
  }

  /** The constraints: whatever pairs of units have been seen before, exactly
      the incompatible pairs of routes are limited. */
  method LimitIncompatiblePaths(p: Problem, limit: NodeId -> nat) returns (limits: Limits)
    requires Valid(p)
    ensures NodeLimits(limits, limit)
    ensures forall ids :: ids in limits <==> Demanded(p, ids)
  {
    limits := map[];
    var visited: set<FuPair> := {};
    var visitedPairs: set<(FuPair, FuPair)> := {};
    var cands := Candidates(p);
    for i := 0 to |cands|
      invariant forall k :: 0 <= k < i ==> cands[k] in visited
      invariant Sound(p, limit, limits) && AllCompared(p, visited, visitedPairs, limits)
    {
      if cands[i] !in visited {
        assert cands[i] in cands;
        visitedPairs, limits := LimitAgainstAll(p, cands[i], cands, visited, visitedPairs, limit, limits);
        visited := visited + {cands[i]};
      }
    }
    forall ids | Demanded(p, ids)
      ensures ids in limits
    {
      var f1, k1: nat, f2, k2: nat :| Apart(p, f1, k1, f2, k2, ids);
      assert f1 in cands && f1 in visited && Compared(p, f1, f2, limits) && ComparedRoutes(p, f1, k1, f2, k2, limits);
    }
  }

  // The variables of a solution that are 1: operations on units, and routes in use.
  datatype Solution = Solution(on: set<(nat, NodeId)>, used: set<PathId>)

  function Chosen(sol: Solution, id: PathId): nat {
    if id in sol.used then 1 else 0
  }

  ghost predicate MeetsLimits(limits: Limits, sol: Solution) {
    forall ids :: ids in limits ==> Chosen(sol, ids.0) + Chosen(sol, ids.1) <= limits[ids]
  }

  /** Functional unit exclusivity. */
  ghost predicate OneOpPerUnit(sol: Solution) {
    forall o1, o2, fu :: (o1, fu) in sol.on && (o2, fu) in sol.on ==> o1 == o2
  }

  /** The k-th route between the two units is in use for an edge out of op, and w is what remains without its sink. */
  ghost predicate InUse(p: Problem, sol: Solution, op: nat, sinkOp: nat, fus: FuPair, k: nat, w: seq<NodeId>) {
    && Edge(p, op, sinkOp) && fus.src in p.compatible[op] && fus.sink in p.compatible[sinkOp]
    && fus in p.routes && k < |p.routes[fus]| && RouteOk(p, fus, p.routes[fus][k])
    && RouteInUse(sol, op, sinkOp, fus, p.routes[fus][k]) && w == p.routes[fus][k].walk[..|p.routes[fus][k].walk| - 1]
  }

  predicate RouteInUse(sol: Solution, op: nat, sinkOp: nat, fus: FuPair, r: Route) {
    IdOf(fus, r) in sol.used && (op, fus.src) in sol.on && (sinkOp, fus.sink) in sol.on
  }

  ghost predicate WalkOf(p: Problem, sol: Solution, op: nat, fu: NodeId, w: seq<NodeId>) {
    exists sinkOp: nat, sinkFu, k: nat :: InUse(p, sol, op, sinkOp, FuPair(fu, sinkFu), k, w)
  }

  /** The value of op is routed through n. */
  ghost predicate Carries(p: Problem, sol: Solution, op: nat, n: NodeId) {
    && n in p.g.nodes && p.g.nodes[n].kind.Routing?
    && exists fu, w :: WalkOf(p, sol, op, fu, w) && n in w
  }

  /** The routes in use between two units for one edge. */
  method RoutesBetween(p: Problem, sol: Solution, op: nat, sinkOp: nat, fus: FuPair) returns (walks: seq<seq<NodeId>>)
    requires Valid(p) && Edge(p, op, sinkOp) && fus.src in p.compatible[op] && fus.sink in p.compatible[sinkOp]
    ensures forall w :: w in walks <==> exists k: nat :: InUse(p, sol, op, sinkOp, fus, k, w)
  {
    walks := [];
    if fus in p.routes {
      var routes := p.routes[fus];
      for k := 0 to |routes|
        invariant forall w :: w in walks <==> exists k': nat :: k' < k && InUse(p, sol, op, sinkOp, fus, k', w)
      {
        assert RouteOk(p, fus, routes[k]);
        if RouteInUse(sol, op, sinkOp, fus, routes[k]) {
          var w := routes[k].walk[..|routes[k].walk| - 1];
          assert InUse(p, sol, op, sinkOp, fus, k, w);
          walks := walks + [w];
        }
      }
    }
  }

  /** The routes in use out of one unit, without their sinks. */
  method RoutesOutOf(p: Problem, sol: Solution, op: nat, fu: NodeId) returns (walks: seq<seq<NodeId>>)
    requires Valid(p) && op < |p.outputs| && fu in p.compatible[op]
    ensures forall w :: w in walks <==> WalkOf(p, sol, op, fu, w)
  {
    walks := [];
    var outputs := p.outputs[op];
    for s := 0 to |outputs|
      invariant forall w :: w in walks ==> WalkOf(p, sol, op, fu, w)
      invariant forall sinkOp: nat, sinkFu, k: nat, w ::
                  InUse(p, sol, op, sinkOp, FuPair(fu, sinkFu), k, w) && sinkOp in outputs[..s] ==> w in walks
    {
      var sinkOp := outputs[s];
      assert outputs[..s + 1] == outputs[..s] + [sinkOp] && Edge(p, op, sinkOp);
      var sinks := p.compatible[sinkOp];
      for i := 0 to |sinks|
        invariant forall w :: w in walks ==> WalkOf(p, sol, op, fu, w)
        invariant forall sinkOp: nat, sinkFu, k: nat, w ::
                    InUse(p, sol, op, sinkOp, FuPair(fu, sinkFu), k, w) && sinkOp in outputs[..s] ==> w in walks
        invariant forall sinkFu, k: nat, w ::
                    InUse(p, sol, op, sinkOp, FuPair(fu, sinkFu), k, w) && sinkFu in sinks[..i] ==> w in walks
      {
        assert sinks[..i + 1] == sinks[..i] + [sinks[i]];
        var more := RoutesBetween(p, sol, op, sinkOp, FuPair(fu, sinks[i]));
        walks := walks + more;
      }
      assert sinks[..|sinks|] == sinks;
    }
    assert outputs[..|outputs|] == outputs;
  }

  /** The nodes that the value of op is mapped to, unit by unit. */
  method DecodeValue(p: Problem, sol: Solution, op: nat) returns (mapped: seq<NodeId>)
    requires Valid(p) && op < |p.outputs|
    ensures forall n :: n in mapped <==> Carries(p, sol, op, n)
  {
    mapped := [];
    var srcs := p.compatible[op];
    for i := 0 to |srcs|
      invariant forall n :: n in mapped ==> Carries(p, sol, op, n)
      invariant forall fu, w, n :: fu in srcs[..i] && WalkOf(p, sol, op, fu, w) && n in w && Carries(p, sol, op, n) ==>
                  n in mapped
    {
      assert srcs[..i + 1] == srcs[..i] + [srcs[i]];
      var walks := RoutesOutOf(p, sol, op, srcs[i]);
      var more := RoutingNodes(p.g, walks);
      mapped := mapped + more;
    }
    assert srcs[..|srcs|] == srcs;
  }

  /** The routing nodes of some walks, each once. */
  method RoutingNodes(g: Graph, walks: seq<seq<NodeId>>) returns (nodes: seq<NodeId>)
    ensures forall n :: n in nodes <==>
              n in g.nodes && g.nodes[n].kind.Routing? && exists w :: w in walks && n in w
  {
    nodes := [];
    for k := 0 to |walks|
      invariant forall n :: n in nodes <==>
                  n in g.nodes && g.nodes[n].kind.Routing? && exists w :: w in walks[..k] && n in w
    {
      assert walks[..k + 1] == walks[..k] + [walks[k]];
      ghost var before := nodes;
      for i := 0 to |walks[k]|
        invariant forall n :: n in nodes <==>
                    n in before || (n in g.nodes && g.nodes[n].kind.Routing? && n in walks[k][..i])
      {
        assert walks[k][..i + 1] == walks[k][..i] + [walks[k][i]];
        var n := walks[k][i];
        if n !in nodes && n in g.nodes && g.nodes[n].kind.Routing? {
          nodes := nodes + [n];
        }
      }
      assert walks[k][..|walks[k]|] == walks[k];
    }
    assert walks[..|walks|] == walks;
  }

  lemma SharedNodeClashes(p: Problem, f1: FuPair, k1: nat, f2: FuPair, k2: nat, i: nat, j: nat)
    requires f1 in p.routes && k1 < |p.routes[f1]| && RouteOk(p, f1, p.routes[f1][k1]) && i < |p.routes[f1][k1].walk|
    requires f2 in p.routes && k2 < |p.routes[f2]| && RouteOk(p, f2, p.routes[f2][k2]) && j < |p.routes[f2][k2].walk|
    requires f1.src != f2.src && p.routes[f1][k1].walk[i] == p.routes[f2][k2].walk[j]
    requires p.g.nodes[p.routes[f2][k2].walk[j]].kind.Routing?
    ensures Demanded(p, (IdOf(f1, p.routes[f1][k1]), IdOf(f2, p.routes[f2][k2])))
  {
    assert Clash(p.g, p.routes[f1][k1].walk, p.routes[f2][k2].walk, i, j);
    assert Apart(p, f1, k1, f2, k2, (IdOf(f1, p.routes[f1][k1]), IdOf(f2, p.routes[f2][k2])));
  }

  lemma RouteThrough(p: Problem, sol: Solution, op: nat, n: NodeId) returns (fus: FuPair, k: nat, i: nat)
    requires Carries(p, sol, op, n)
    ensures fus in p.routes && k < |p.routes[fus]| && RouteOk(p, fus, p.routes[fus][k])
    ensures (op, fus.src) in sol.on && IdOf(fus, p.routes[fus][k]) in sol.used
    ensures i < |p.routes[fus][k].walk| && p.routes[fus][k].walk[i] == n && p.g.nodes[n].kind.Routing?
  {
    var fu, w :| WalkOf(p, sol, op, fu, w) && n in w;
    var sinkOp: nat, sinkFu, k': nat :| InUse(p, sol, op, sinkOp, FuPair(fu, sinkFu), k', w);
    fus, k := FuPair(fu, sinkFu), k';
    i :| i < |w| && w[i] == n;
  }

  /** Two values on one node need two routes that are to be kept apart. */
  lemma SharedNodeIsDemanded(p: Problem, sol: Solution, o1: nat, o2: nat, n: NodeId) returns (ids: (PathId, PathId))
    requires OneOpPerUnit(sol) && o1 != o2 && Carries(p, sol, o1, n) && Carries(p, sol, o2, n)
    ensures Demanded(p, ids) && ids.0 in sol.used && ids.1 in sol.used
  {
    var f1, k1, i := RouteThrough(p, sol, o1, n);
    var f2, k2, j := RouteThrough(p, sol, o2, n);
    SharedNodeClashes(p, f1, k1, f2, k2, i, j);
    ids := (IdOf(f1, p.routes[f1][k1]), IdOf(f2, p.routes[f2][k2]));
  }

  lemma LimitOne(limits: Limits, limit: NodeId -> nat, sol: Solution, ids: (PathId, PathId))
    requires NodeLimits(limits, limit) && (forall x :: limit(x) == 1) && MeetsLimits(limits, sol) && ids in limits
    ensures ids.0 !in sol.used || ids.1 !in sol.used
  {
  }

  /** With one operation to a unit and one signal to a node, two values never share a routing node. */
  lemma ValuesStayApart(p: Problem, limit: NodeId -> nat, limits: Limits, sol: Solution, o1: nat, o2: nat, n: NodeId)
    requires Valid(p) && NodeLimits(limits, limit) && (forall x :: limit(x) == 1)
    requires forall ids :: ids in limits <==> Demanded(p, ids)
    requires MeetsLimits(limits, sol) && OneOpPerUnit(sol) && o1 != o2
    requires Carries(p, sol, o1, n)
    ensures !Carries(p, sol, o2, n)
  {
    if Carries(p, sol, o2, n) {
      var ids := SharedNodeIsDemanded(p, sol, o1, o2, n);
      LimitOne(limits, limit, sol, ids);
    }
  }
}

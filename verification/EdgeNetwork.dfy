// The edge variables of the heuristic mappers: one for each dataflow edge, pair of
// units and trip count, tied to the units and the routes in use by a network of
// implications, and to numbers of the units by the trip count constraints.
module EdgeNetwork {
  import opened Wrappers
  import opened Seqs
  import opened Mrrg
  import opened Walks
  import opened PathExclusivity
  import opened TripConstraints

  datatype DfgEdge = DfgEdge(src: nat, sink: nat, latency: int, tag: string)

  // The dataflow edges, the units each operation may use, the operations that
  // may be mapped only once, whether there are trip count constraints, which
  // units reach which, and the routes between units by trip count.
  datatype Network = Network(
    g: Graph,
    edges: seq<DfgEdge>,
    compatible: seq<seq<NodeId>>,
    single: set<nat>,
    topological: bool,
    reachable: set<FuPair>,
    paths: map<FuPair, map<int, seq<seq<NodeId>>>>)

  datatype EdgeVar = EdgeVar(edge: nat, fus: FuPair, trips: int)

  predicate MayConnect(net: Network, e: nat, fus: FuPair) {
    && e < |net.edges| && net.edges[e].src < |net.compatible| && net.edges[e].sink < |net.compatible|
    && fus.src in net.compatible[net.edges[e].src] && fus.sink in net.compatible[net.edges[e].sink]
    && (net.edges[e].src == net.edges[e].sink ==> fus.src == fus.sink) && fus in net.reachable
  }

  function TripsOf(net: Network, fus: FuPair): set<int> {
    if fus in net.paths then net.paths[fus].Keys else {}
  }

  function PathsOf(net: Network, fus: FuPair, trips: int): seq<seq<NodeId>> {
    if fus in net.paths && trips in net.paths[fus] then net.paths[fus][trips] else []
  }

  /** The edge variables there are. */
  predicate HasVar(net: Network, v: EdgeVar) {
    MayConnect(net, v.edge, v.fus) && v.trips in TripsOf(net, v.fus)
  }

  ghost predicate PathOk(g: Graph, fus: FuPair, trips: int, w: seq<NodeId>) {
    && g.ii > 0 && IsWalk(g, w) && |w| > 1 && w[0] == fus.src && Last(w) == fus.sink
    && TripCountOfWalk(g, w) == Some(trips)
  }

  /** Routes lead from unit to unit and are filed under their trip counts. */
  ghost predicate Sorted(net: Network) {
    && WellFormed(net.g)
    && (forall e :: 0 <= e < |net.edges| ==> net.edges[e].src < |net.compatible| && net.edges[e].sink < |net.compatible|)
    && (forall fus, t, k :: 0 <= k < |PathsOf(net, fus, t)| ==> PathOk(net.g, fus, t, PathsOf(net, fus, t)[k]))
  }

  // The constraints over 0/1 variables and the numbers of the units. A set
  // stands for the sum of its members.
  datatype Constraint =
    | MustBeMapped(units: set<(nat, NodeId)>, once: bool)
    | AtMostOneOp(units: set<(nat, NodeId)>)
    | NeedsFanin(unit: (nat, NodeId), vars: set<EdgeVar>)
    | ImpliesUsage(v: EdgeVar, unit: (nat, NodeId))
    | RequiresPath(v: EdgeVar, paths: set<PathId>)
    | RequirePaths(vars: set<EdgeVar>, paths: set<PathId>)
    | OnePathPerInput(paths: set<PathId>)
    | Raises(v: EdgeVar, src: NodeId, trips: int, sink: NodeId, latency: int)

  function UnitsOf(net: Network, op: nat): set<(nat, NodeId)> {
    if op < |net.compatible| then set fu | fu in net.compatible[op] :: (op, fu) else {}
  }

  function FaninVars(net: Network, e: nat, sinkFu: NodeId): set<EdgeVar>
    requires e < |net.edges| && net.edges[e].src < |net.compatible|
  {
    set src, t | src in net.compatible[net.edges[e].src] && t in TripsOf(net, FuPair(src, sinkFu))
                 && MayConnect(net, e, FuPair(src, sinkFu)) :: EdgeVar(e, FuPair(src, sinkFu), t)
  }

  /** walkIsCompatibleWithOperand holds of the k-th route of the variable. */
  predicate Allows(net: Network, v: EdgeVar, k: nat)
    requires Sorted(net) && v.edge < |net.edges| && k < |PathsOf(net, v.fus, v.trips)|
  {
    assert PathOk(net.g, v.fus, v.trips, PathsOf(net, v.fus, v.trips)[k]);
    WalkIsCompatibleWithOperand(net.g, PathsOf(net, v.fus, v.trips)[k], net.edges[v.edge].tag) == Some(true)
  }

  function CarryingPaths(net: Network, v: EdgeVar): set<PathId>
    requires Sorted(net) && v.edge < |net.edges|
  {
    set k: nat | k < |PathsOf(net, v.fus, v.trips)| && Allows(net, v, k) :: PathId(v.fus, v.trips, k)
  }

  predicate SameEnds(net: Network, e: nat, e': nat) {
    && e < |net.edges| && e' < |net.edges|
    && net.edges[e].src == net.edges[e'].src && net.edges[e].sink == net.edges[e'].sink
  }

  /** Some edge between the same operations as that of v may use the k-th route. */
  predicate SomeAllows(net: Network, v: EdgeVar, k: nat)
    requires Sorted(net) && v.edge < |net.edges| && k < |PathsOf(net, v.fus, v.trips)|
  {
    exists e :: 0 <= e < |net.edges| && SameEnds(net, e, v.edge) && Allows(net, EdgeVar(e, v.fus, v.trips), k)
  }

  /** The node by which the route enters its last unit. */
  function InputOf(net: Network, id: PathId): NodeId
    requires Sorted(net) && IsPathId(net, id)
  {
    var w := PathsOf(net, id.fus, id.tripCount)[id.num];
    assert PathOk(net.g, id.fus, id.tripCount, w);
    w[|w| - 2]
  }

  predicate IsPathId(net: Network, id: PathId) {
    id.num < |PathsOf(net, id.fus, id.tripCount)|
  }

  function PathIds(net: Network): set<PathId> {
    set fus, t, k: nat | fus in net.paths && t in TripsOf(net, fus) && k < |PathsOf(net, fus, t)| :: PathId(fus, t, k)
  }

  lemma PathIdsAre(net: Network)
    ensures forall id :: id in PathIds(net) <==> IsPathId(net, id)
  {
    forall id
      ensures id in PathIds(net) <==> IsPathId(net, id)
    {
      assert id == PathId(id.fus, id.tripCount, id.num);
    }
  }

  /** The constraints that the loops over operations, edges, units and trip counts add. */
  ghost predicate Wanted(net: Network, c: Constraint)
    requires Sorted(net)
  {
    match c
    case MustBeMapped(units, once) => exists op: nat :: op < |net.compatible| && c == MappedOnce(net, op)
    case AtMostOneOp(units) =>
      exists op: nat, fu :: op < |net.compatible| && fu in net.compatible[op] && c == OneOpOn(net, fu)
    case NeedsFanin(unit, vars) => exists e: nat, fu :: WantsFanin(net, e, fu) && c == FaninOf(net, e, fu)
    case ImpliesUsage(v, unit) => HasVar(net, v) && (c == SrcUsed(net, v) || c == SinkUsed(net, v))
    case RequiresPath(v, paths) => HasVar(net, v) && c == PathOf(net, v)
    case RequirePaths(vars, paths) => exists v :: HasVar(net, v) && c == AllPathsOf(net, v)
    case OnePathPerInput(paths) => exists id :: IsPathId(net, id) && c == OneByInput(net, id)
    case Raises(v, src, trips, sink, latency) => net.topological && HasVar(net, v) && c == RaiseOf(net, v)
  }

  predicate WantsFanin(net: Network, e: nat, fu: NodeId)
  {
    e < |net.edges| && net.edges[e].sink < |net.compatible| && net.edges[e].src < |net.compatible| &&
    fu in net.compatible[net.edges[e].sink]
  }

  function MappedOnce(net: Network, op: nat): Constraint {
    MustBeMapped(UnitsOf(net, op), op in net.single)
  }

  /** All operations that may use the unit. */
  function OneOpOn(net: Network, fu: NodeId): Constraint {
    AtMostOneOp(set op: nat | op < |net.compatible| && fu in net.compatible[op] :: (op, fu))
  }

  /** All edges between the operations, units and trip count of v, and all routes that some of them may use. */
  function AllPathsOf(net: Network, v: EdgeVar): Constraint
    requires Sorted(net) && HasVar(net, v)
  {
    RequirePaths(set e: nat | e < |net.edges| && SameEnds(net, e, v.edge) :: EdgeVar(e, v.fus, v.trips),
                 set k: nat | k < |PathsOf(net, v.fus, v.trips)| && SomeAllows(net, v, k) :: PathId(v.fus, v.trips, k))
  }

  /** All routes between the same units that enter by the same node. */
  function OneByInput(net: Network, id: PathId): Constraint
    requires Sorted(net) && IsPathId(net, id)
  {
    PathIdsAre(net);
    OnePathPerInput(set x | x in PathIds(net) && x.fus == id.fus && InputOf(net, x) == InputOf(net, id))
  }

  function FaninOf(net: Network, e: nat, fu: NodeId): Constraint
    requires WantsFanin(net, e, fu)
  {
    NeedsFanin((net.edges[e].sink, fu), FaninVars(net, e, fu))
  }

  function SrcUsed(net: Network, v: EdgeVar): Constraint
    requires HasVar(net, v)
  {
    ImpliesUsage(v, (net.edges[v.edge].src, v.fus.src))
  }

  function SinkUsed(net: Network, v: EdgeVar): Constraint
    requires HasVar(net, v)
  {
    ImpliesUsage(v, (net.edges[v.edge].sink, v.fus.sink))
  }

  function PathOf(net: Network, v: EdgeVar): Constraint
    requires Sorted(net) && HasVar(net, v)
  {
    RequiresPath(v, CarryingPaths(net, v))
  }

  function RaiseOf(net: Network, v: EdgeVar): Constraint
    requires HasVar(net, v)
  {
    Raises(v, v.fus.src, v.trips, v.fus.sink, net.edges[v.edge].latency)
  }

  // The loops that add the constraints.

  // The constraints that concern one edge variable.
  ghost predicate OfVar(net: Network, v: EdgeVar, c: Constraint)
    requires Sorted(net)
  {
    && HasVar(net, v)
    && (c == SrcUsed(net, v) || c == SinkUsed(net, v) || c == PathOf(net, v) || c == AllPathsOf(net, v) ||
        (net.topological && c == RaiseOf(net, v)))
  }

  method ForPair(net: Network, e: nat, fus: FuPair) returns (cs: set<Constraint>)
    requires Sorted(net) && MayConnect(net, e, fus)
    ensures forall c :: c in cs <==> exists t :: OfVar(net, EdgeVar(e, fus, t), c)
  {
    cs := {};
    var vars := set t | t in TripsOf(net, fus) :: EdgeVar(e, fus, t);
    var todo := vars;
    while todo != {}
      invariant todo <= vars
      invariant forall c :: c in cs <==> exists v :: v in vars - todo && OfVar(net, v, c)
      decreases todo
    {
      var v :| v in todo;
      todo := todo - {v};
      ghost var before := cs;
      cs := cs + {SrcUsed(net, v), SinkUsed(net, v), PathOf(net, v), AllPathsOf(net, v)};
      if net.topological {
        cs := cs + {RaiseOf(net, v)};
      }
      forall c
        ensures c in cs <==> exists v' :: v' in vars - todo && OfVar(net, v', c)
      {
        assert c in cs <==> c in before || OfVar(net, v, c);
      }
    }
  }

  // Between two units.
  ghost predicate OfPair(net: Network, e: nat, src: NodeId, sink: NodeId, c: Constraint)
    requires Sorted(net)
  {
    MayConnect(net, e, FuPair(src, sink)) && exists t :: OfVar(net, EdgeVar(e, FuPair(src, sink), t), c)
  }

  method ForSource(net: Network, e: nat, src: NodeId) returns (cs: set<Constraint>)
    requires Sorted(net) && e < |net.edges| && src in net.compatible[net.edges[e].src]
    ensures forall c :: c in cs <==> exists sink :: OfPair(net, e, src, sink, c)
  {
    cs := {};
    var sinks := net.compatible[net.edges[e].sink];
    for k := 0 to |sinks|
      invariant forall c :: c in cs <==> exists sink :: sink in sinks[..k] && OfPair(net, e, src, sink, c)
    {
      assert sinks[..k + 1] == sinks[..k] + [sinks[k]];
      ghost var before := cs;
      if MayConnect(net, e, FuPair(src, sinks[k])) {
        var more := ForPair(net, e, FuPair(src, sinks[k]));
        cs := cs + more;
      }
      forall c
        ensures c in cs <==> exists sink :: sink in sinks[..k + 1] && OfPair(net, e, src, sink, c)
      {
        assert c in cs <==> c in before || OfPair(net, e, src, sinks[k], c);
      }
    }
    assert sinks[..|sinks|] == sinks;
  }

  method ForEdge(net: Network, e: nat) returns (cs: set<Constraint>)
    requires Sorted(net) && e < |net.edges|
    ensures forall c :: c in cs <==> exists src, sink :: OfPair(net, e, src, sink, c)
  {
    cs := {};
    var srcs := net.compatible[net.edges[e].src];
    for k := 0 to |srcs|
      invariant forall c :: c in cs <==> exists src, sink :: src in srcs[..k] && OfPair(net, e, src, sink, c)
    {
      assert srcs[..k + 1] == srcs[..k] + [srcs[k]];
      var more := ForSource(net, e, srcs[k]);
      cs := cs + more;
    }
    assert srcs[..|srcs|] == srcs;
  }

  ghost predicate OfEdge(net: Network, e: nat, c: Constraint)
    requires Sorted(net)
  {
    e < |net.edges| && ((exists src, sink :: OfPair(net, e, src, sink, c)) ||
                        exists fu :: WantsFanin(net, e, fu) && c == FaninOf(net, e, fu))
  }

  method FaninsOfEdge(net: Network, e: nat) returns (cs: set<Constraint>)
    requires Sorted(net) && e < |net.edges|
    ensures forall c :: c in cs <==> exists fu :: WantsFanin(net, e, fu) && c == FaninOf(net, e, fu)
  {
    cs := {};
    var sinks := net.compatible[net.edges[e].sink];
    for k := 0 to |sinks|
      invariant forall c :: c in cs <==> exists fu :: fu in sinks[..k] && WantsFanin(net, e, fu) && c == FaninOf(net, e, fu)
    {
      assert sinks[..k + 1] == sinks[..k] + [sinks[k]];
      cs := cs + {FaninOf(net, e, sinks[k])};
    }
    assert sinks[..|sinks|] == sinks;
  }

  lemma VarIsOfEdge(net: Network, v: EdgeVar, c: Constraint)
    requires Sorted(net) && OfVar(net, v, c)
    ensures OfEdge(net, v.edge, c)
  {
    assert v == EdgeVar(v.edge, FuPair(v.fus.src, v.fus.sink), v.trips);
    assert OfPair(net, v.edge, v.fus.src, v.fus.sink, c);
  }

  lemma WantedByEdge(net: Network, c: Constraint)
    requires Sorted(net) && Wanted(net, c) && !c.MustBeMapped? && !c.AtMostOneOp? && !c.OnePathPerInput?
    ensures exists e: nat :: OfEdge(net, e, c)
  {
    match c
    case NeedsFanin(unit, vars) =>
      var e: nat, fu :| WantsFanin(net, e, fu) && c == FaninOf(net, e, fu);
      assert OfEdge(net, e, c);
    case RequirePaths(vars, paths) =>
      var v :| HasVar(net, v) && c == AllPathsOf(net, v);
      VarIsOfEdge(net, v, c);
    case ImpliesUsage(v, unit) => VarIsOfEdge(net, v, c);
    case RequiresPath(v, paths) => VarIsOfEdge(net, v, c);
    case Raises(v, src, trips, sink, latency) => VarIsOfEdge(net, v, c);
  }

  lemma VarIsWanted(net: Network, v: EdgeVar, c: Constraint)
    requires Sorted(net) && OfVar(net, v, c)
    ensures Wanted(net, c)
  {
  }

  lemma EdgeIsWanted(net: Network, e: nat, c: Constraint)
    requires Sorted(net) && OfEdge(net, e, c)
    ensures Wanted(net, c)
  {
    if src, sink :| OfPair(net, e, src, sink, c) {
      var t :| OfVar(net, EdgeVar(e, FuPair(src, sink), t), c);
      VarIsWanted(net, EdgeVar(e, FuPair(src, sink), t), c);
    }
  }

  // The groups on operations and units.
  ghost predicate OfOp(net: Network, op: nat, c: Constraint) {
    op < |net.compatible| && (c == MappedOnce(net, op) || exists fu :: fu in net.compatible[op] && c == OneOpOn(net, fu))
  }

  method ForOps(net: Network) returns (cs: set<Constraint>)
    ensures forall c :: c in cs <==> exists op: nat :: OfOp(net, op, c)
  {
    cs := {};
    for op := 0 to |net.compatible|
      invariant forall c :: c in cs <==> exists op': nat :: op' < op && OfOp(net, op', c)
    {
      ghost var before := cs;
      cs := cs + {MappedOnce(net, op)} + set fu | fu in net.compatible[op] :: OneOpOn(net, fu);
      forall c
        ensures c in cs <==> exists op': nat :: op' < op + 1 && OfOp(net, op', c)
      {
        assert c in cs <==> c in before || OfOp(net, op, c);
      }
    }
  }

  ghost predicate OfPath(net: Network, id: PathId, c: Constraint)
    requires Sorted(net)
  {
    IsPathId(net, id) && c == OneByInput(net, id)
  }

  method ForInputs(net: Network) returns (cs: set<Constraint>)
    requires Sorted(net)
    ensures forall c :: c in cs <==> exists id :: OfPath(net, id, c)
  {
    cs := {};
    PathIdsAre(net);
    var todo := PathIds(net);
    while todo != {}
      invariant todo <= PathIds(net)
      invariant forall c :: c in cs <==> exists id :: id in PathIds(net) - todo && OfPath(net, id, c)
      decreases todo
    {
      var id :| id in todo;
      todo := todo - {id};
      ghost var before := cs;
      cs := cs + {OneByInput(net, id)};
      forall c
        ensures c in cs <==> exists x :: x in PathIds(net) - todo && OfPath(net, x, c)
      {
        assert c in cs <==> c in before || OfPath(net, id, c);
      }
    }
  }

  method ForEdges(net: Network) returns (cs: set<Constraint>)
    requires Sorted(net)
    ensures forall c :: c in cs <==> exists e: nat :: OfEdge(net, e, c)
  {
    cs := {};
    for e := 0 to |net.edges|
      invariant forall c :: c in cs <==> exists e': nat :: e' < e && OfEdge(net, e', c)
    {
      var fanins := FaninsOfEdge(net, e);
      var ofVars := ForEdge(net, e);
      ghost var before := cs;
      cs := cs + fanins + ofVars;
      forall c
        ensures c in cs <==> exists e': nat :: e' < e + 1 && OfEdge(net, e', c)
      {
        assert c in cs <==> c in before || OfEdge(net, e, c);
      }
    }
  }

  lemma WantedIsOfSome(net: Network, c: Constraint)
    requires Sorted(net)
    ensures Wanted(net, c) <==>
              (exists op: nat :: OfOp(net, op, c)) || (exists e: nat :: OfEdge(net, e, c)) || (exists id :: OfPath(net, id, c))
  {
    if Wanted(net, c) {
      match c
      case MustBeMapped(units, once) =>
        var op: nat :| op < |net.compatible| && c == MappedOnce(net, op);
        assert OfOp(net, op, c);
      case AtMostOneOp(units) =>
        var op: nat, fu :| op < |net.compatible| && fu in net.compatible[op] && c == OneOpOn(net, fu);
        assert OfOp(net, op, c);
      case OnePathPerInput(paths) =>
        var id :| IsPathId(net, id) && c == OneByInput(net, id);
        assert OfPath(net, id, c);
      case _ => WantedByEdge(net, c);
    }
    if e: nat :| OfEdge(net, e, c) {
      EdgeIsWanted(net, e, c);
    }
  }

  /** Adds exactly the constraints that are wanted. */
  method AddConstraints(net: Network) returns (cs: set<Constraint>)
    requires Sorted(net)
    ensures forall c :: c in cs <==> Wanted(net, c)
  {
    var ofOps := ForOps(net);
    var ofEdges := ForEdges(net);
    var ofInputs := ForInputs(net);
    cs := ofOps + ofEdges + ofInputs;
    forall c
      ensures c in cs <==> Wanted(net, c)
    {
      WantedIsOfSome(net, c);
    }
  }

  // Solutions.

  // The variables that are 1, and the numbers of the units.
  datatype Choice = Choice(on: set<(nat, NodeId)>, used: set<EdgeVar>, paths: set<PathId>, number: map<NodeId, int>)

  ghost predicate Holds(sol: Choice, c: Constraint) {
    match c
    case MustBeMapped(units, once) => |units * sol.on| >= 1 && (once ==> |units * sol.on| == 1)
    case AtMostOneOp(units) => |units * sol.on| <= 1
    case NeedsFanin(unit, vars) => unit in sol.on ==> |vars * sol.used| >= 1
    case ImpliesUsage(v, unit) => v in sol.used ==> unit in sol.on
    case RequiresPath(v, paths) => v in sol.used ==> |paths * sol.paths| >= 1
    case RequirePaths(vars, paths) => |vars * sol.used| <= |paths * sol.paths|
    case OnePathPerInput(paths) => |paths * sol.paths| <= 1
    case Raises(v, src, trips, sink, latency) =>
      v in sol.used ==> src in sol.number && sink in sol.number && sol.number[src] + trips == sol.number[sink] + latency
  }

  ghost predicate Solves(net: Network, sol: Choice)
    requires Sorted(net)
  {
    forall c :: Wanted(net, c) ==> Holds(sol, c)
  }

  // The operation is on the unit.
  ghost predicate Hosts(net: Network, sol: Choice, op: nat, fu: NodeId) {
    op < |net.compatible| && fu in net.compatible[op] && (op, fu) in sol.on
  }

  /** The hop is a route in use for the edge, which carries its operand. */
  ghost predicate RoutesEdge(net: Network, sol: Choice, e: nat, h: Hop)
    requires Sorted(net)
  {
    exists v, k: nat :: RouteOf(net, sol, e, h, v, k)
  }

  ghost predicate RouteOf(net: Network, sol: Choice, e: nat, h: Hop, v: EdgeVar, k: nat)
    requires Sorted(net)
  {
    && v.edge == e < |net.edges| && v in sol.used && k < |PathsOf(net, v.fus, v.trips)| && Allows(net, v, k)
    && PathId(v.fus, v.trips, k) in sol.paths && h == Hop(PathsOf(net, v.fus, v.trips)[k], net.edges[e].latency)
  }

  lemma SomeMember<T>(s: set<T>) returns (x: T)
    requires |s| >= 1
    ensures x in s
  {
    x :| x in s;
  }

  /** An edge variable in use stands for a route in use, between units in use, that meets the trip count constraint. */
  lemma UsedEdgeRoutes(net: Network, sol: Choice, v: EdgeVar) returns (h: Hop)
    requires Sorted(net) && Solves(net, sol) && HasVar(net, v) && v in sol.used
    ensures PathOk(net.g, v.fus, v.trips, h.walk) && (net.topological ==> Meets(net.g, sol.number, h))
    ensures RoutesEdge(net, sol, v.edge, h) && Hosts(net, sol, net.edges[v.edge].src, v.fus.src)
    ensures Hosts(net, sol, net.edges[v.edge].sink, v.fus.sink) && v.fus in net.reachable
    ensures net.edges[v.edge].src == net.edges[v.edge].sink ==> v.fus.src == v.fus.sink
  {
    assert Wanted(net, SrcUsed(net, v)) && Wanted(net, SinkUsed(net, v)) && Wanted(net, PathOf(net, v));
    assert Holds(sol, SrcUsed(net, v)) && Holds(sol, SinkUsed(net, v)) && Holds(sol, PathOf(net, v));
    assert net.topological ==> Wanted(net, RaiseOf(net, v)) && Holds(sol, RaiseOf(net, v));
    var id := SomeMember(CarryingPaths(net, v) * sol.paths);
    var k := id.num;
    h := Hop(PathsOf(net, v.fus, v.trips)[k], net.edges[v.edge].latency);
    assert PathOk(net.g, v.fus, v.trips, h.walk);
    assert RouteOf(net, sol, v.edge, h, v, k);
  }

  lemma OperandIsUsed(net: Network, sol: Choice, e: nat, fu: NodeId) returns (v: EdgeVar)
    requires Sorted(net) && Solves(net, sol) && e < |net.edges| && Hosts(net, sol, net.edges[e].sink, fu)
    ensures HasVar(net, v) && v in sol.used && v.edge == e && v.fus.sink == fu
  {
    assert WantsFanin(net, e, fu);
    assert Wanted(net, FaninOf(net, e, fu)) && Holds(sol, FaninOf(net, e, fu));
    v := SomeMember(FaninVars(net, e, fu) * sol.used);
  }

  /** Whatever unit an operation is on, each of its operands is routed to it. */
  lemma OperandIsRouted(net: Network, sol: Choice, e: nat, fu: NodeId) returns (h: Hop)
    requires Sorted(net) && Solves(net, sol) && e < |net.edges| && Hosts(net, sol, net.edges[e].sink, fu)
    ensures |h.walk| > 1 && Last(h.walk) == fu && (net.topological ==> Meets(net.g, sol.number, h))
    ensures RoutesEdge(net, sol, e, h) && Hosts(net, sol, net.edges[e].src, h.walk[0])
    ensures FuPair(h.walk[0], fu) in net.reachable
    ensures net.edges[e].src == net.edges[e].sink ==> h.walk[0] == fu
  {
    var v := OperandIsUsed(net, sol, e, fu);
    h := UsedEdgeRoutes(net, sol, v);
  }

  // Dataflow paths.

  // The i-th edge ends where the next one starts.
  predicate LeadsOn(net: Network, es: seq<nat>, i: nat)
    requires i + 1 < |es| && es[i] < |net.edges| && es[i + 1] < |net.edges|
  {
    net.edges[es[i]].sink == net.edges[es[i + 1]].src
  }

  ghost predicate IsPath(net: Network, es: seq<nat>) {
    && (forall i :: 0 <= i < |es| ==> es[i] < |net.edges|)
    && (forall i {:trigger LeadsOn(net, es, i)} :: 0 <= i < |es| - 1 ==> LeadsOn(net, es, i))
  }

  function LatencyOfEdges(net: Network, es: seq<nat>): int
    requires forall i :: 0 <= i < |es| ==> es[i] < |net.edges|
  {
    if es == [] then 0 else LatencyOfEdges(net, es[..|es| - 1]) + net.edges[es[|es| - 1]].latency
  }

  ghost predicate AllRouted(net: Network, sol: Choice, es: seq<nat>, hops: seq<Hop>)
    requires Sorted(net)
  {
    |hops| == |es| && forall i :: 0 <= i < |es| ==> RoutesEdge(net, sol, es[i], hops[i])
  }

  lemma RoutedJoin(net: Network, sol: Choice, es: seq<nat>, hops: seq<Hop>, es': seq<nat>, hops': seq<Hop>)
    requires Sorted(net) && AllRouted(net, sol, es, hops) && AllRouted(net, sol, es', hops')
    ensures AllRouted(net, sol, es + es', hops + hops')
  {
    forall i | 0 <= i < |es + es'|
      ensures RoutesEdge(net, sol, (es + es')[i], (hops + hops')[i])
    {
      if i < |es| {
        assert RoutesEdge(net, sol, es[i], hops[i]);
      } else {
        assert RoutesEdge(net, sol, es'[i - |es|], hops'[i - |es|]);
      }
    }
  }

  // The hops route the edges one by one.
  ghost predicate Routed(net: Network, sol: Choice, es: seq<nat>, hops: seq<Hop>)
    requires Sorted(net)
  {
    && IsPath(net, es) && es != [] && Follow(net.g, sol.number, hops) && AllRouted(net, sol, es, hops)
    && EdgeLatencies(hops) == LatencyOfEdges(net, es)
  }

  // The hops lead from one unit to the other.
  ghost predicate Leads(hops: seq<Hop>, from: NodeId, to: NodeId) {
    hops != [] && hops[0].walk != [] && hops[|hops| - 1].walk != [] && Source(hops) == from && Sink(hops) == to
  }

  /** The hops route the edges, from a unit that hosts the first operation to the unit fu. */
  ghost predicate Traces(net: Network, sol: Choice, es: seq<nat>, hops: seq<Hop>, from: NodeId, fu: NodeId)
    requires Sorted(net)
  {
    Routed(net, sol, es, hops) && Leads(hops, from, fu) && Hosts(net, sol, net.edges[es[0]].src, from)
  }

  lemma FollowOne(g: Graph, number: map<NodeId, int>, h: Hop)
    requires Meets(g, number, h)
    ensures Follow(g, number, [h]) && EdgeLatencies([h]) == h.edgeLatency
  {
    assert [h][..0] == [] && EdgeLatencies([]) == 0;
  }

  lemma {:induction false} LatenciesJoin(a: seq<Hop>, b: seq<Hop>)
    ensures EdgeLatencies(a + b) == EdgeLatencies(a) + EdgeLatencies(b)
    decreases |b|
  {
    if b == [] {
      assert a + b == a;
    } else {
      LatenciesJoin(a, b[..|b| - 1]);
      assert (a + b)[..|a + b| - 1] == a + b[..|b| - 1];
    }
  }

  lemma FollowJoin(g: Graph, number: map<NodeId, int>, a: seq<Hop>, b: seq<Hop>)
    requires Follow(g, number, a) && Follow(g, number, b) && a != [] && b != []
    requires a[|a| - 1].walk != [] && b[0].walk != [] && Last(a[|a| - 1].walk) == b[0].walk[0]
    ensures Follow(g, number, a + b)
  {
    var c := a + b;
    forall i | 0 <= i < |c|
      ensures Meets(g, number, c[i])
    {
      assert c[i] == if i < |a| then a[i] else b[i - |a|];
    }
    forall i | 0 <= i < |c| - 1
      ensures Joins(c, i)
    {
      if i >= |a| {
        assert Joins(b, i - |a|);
      } else if i < |a| - 1 {
        assert Joins(a, i);
      }
    }
  }

  lemma IsPathInit(net: Network, es: seq<nat>)
    requires IsPath(net, es) && |es| > 1
    ensures var init := es[..|es| - 1];
            && IsPath(net, init) && es == init + [es[|es| - 1]]
            && net.edges[init[|init| - 1]].sink == net.edges[es[|es| - 1]].src
  {
    var init := es[..|es| - 1];
    forall i | 0 <= i < |init| - 1
      ensures LeadsOn(net, init, i)
    {
      assert LeadsOn(net, es, i);
    }
    assert LeadsOn(net, es, |es| - 2);
  }

  lemma OneIsTraced(net: Network, sol: Choice, e: nat, h: Hop)
    requires Sorted(net) && e < |net.edges| && Meets(net.g, sol.number, h) && RoutesEdge(net, sol, e, h)
    requires Hosts(net, sol, net.edges[e].src, h.walk[0])
    ensures Traces(net, sol, [e], [h], h.walk[0], Last(h.walk))
  {
    FollowOne(net.g, sol.number, h);
    var v, k: nat :| RouteOf(net, sol, e, h, v, k);
    assert [e][..0] == [] && LatencyOfEdges(net, []) == 0;
  }

  lemma {:induction false} EdgeLatenciesJoin(net: Network, a: seq<nat>, b: seq<nat>)
    requires (forall i :: 0 <= i < |a| ==> a[i] < |net.edges|) && (forall i :: 0 <= i < |b| ==> b[i] < |net.edges|)
    ensures forall i :: 0 <= i < |a + b| ==> (a + b)[i] < |net.edges|
    ensures LatencyOfEdges(net, a + b) == LatencyOfEdges(net, a) + LatencyOfEdges(net, b)
    decreases |b|
  {
    if b == [] {
      assert a + b == a;
    } else {
      EdgeLatenciesJoin(net, a, b[..|b| - 1]);
      assert (a + b)[..|a + b| - 1] == a + b[..|b| - 1];
    }
  }

  lemma PathsJoin(net: Network, a: seq<nat>, b: seq<nat>)
    requires IsPath(net, a) && IsPath(net, b) && a != [] && b != []
    requires net.edges[a[|a| - 1]].sink == net.edges[b[0]].src
    ensures IsPath(net, a + b)
  {
    var c := a + b;
    forall i | 0 <= i < |c| - 1
      ensures LeadsOn(net, c, i)
    {
      if i >= |a| {
        assert LeadsOn(net, b, i - |a|);
      } else if i < |a| - 1 {
        assert LeadsOn(net, a, i);
      }
    }
  }

  lemma RoutesJoin(net: Network, sol: Choice, a: seq<nat>, first: seq<Hop>, b: seq<nat>, second: seq<Hop>,
                   from: NodeId, via: NodeId, to: NodeId)
    requires Sorted(net) && Routed(net, sol, a, first) && Routed(net, sol, b, second)
    requires Leads(first, from, via) && Leads(second, via, to)
    requires net.edges[a[|a| - 1]].sink == net.edges[b[0]].src
    ensures Routed(net, sol, a + b, first + second)
  {
    PathsJoin(net, a, b);
    EdgeLatenciesJoin(net, a, b);
    FollowJoin(net.g, sol.number, first, second);
    LatenciesJoin(first, second);
    RoutedJoin(net, sol, a, first, b, second);
  }

  lemma TracesJoin(net: Network, sol: Choice, a: seq<nat>, first: seq<Hop>, b: seq<nat>, second: seq<Hop>,
                   c: seq<nat>, hops: seq<Hop>, from: NodeId, via: NodeId, to: NodeId)
    requires Sorted(net) && Traces(net, sol, a, first, from, via) && Traces(net, sol, b, second, via, to)
    requires net.edges[a[|a| - 1]].sink == net.edges[b[0]].src && c == a + b && hops == first + second
    ensures Traces(net, sol, c, hops, from, to)
  {
    RoutesJoin(net, sol, a, first, b, second, from, via, to);
  }

  // The edges are routed from one unit to the other.
  ghost predicate Reaches(net: Network, sol: Choice, es: seq<nat>, from: NodeId, to: NodeId)
    requires Sorted(net)
  {
    exists hops :: Traces(net, sol, es, hops, from, to)
  }

  lemma TracesReach(net: Network, sol: Choice, a: seq<nat>, first: seq<Hop>, b: seq<nat>, c: seq<nat>, from: NodeId,
                    via: NodeId, to: NodeId)
    requires Sorted(net) && Traces(net, sol, a, first, from, via) && Reaches(net, sol, b, via, to) && c == a + b
    requires net.edges[a[|a| - 1]].sink == net.edges[b[0]].src
    ensures Reaches(net, sol, c, from, to)
  {
    var second :| Traces(net, sol, b, second, via, to);
    TracesJoin(net, sol, a, first, b, second, c, first + second, from, via, to);
  }

  lemma ReachesJoin(net: Network, sol: Choice, a: seq<nat>, b: seq<nat>, c: seq<nat>, from: NodeId, via: NodeId,
                    to: NodeId)
    requires Sorted(net) && Reaches(net, sol, a, from, via) && Reaches(net, sol, b, via, to) && c == a + b
    requires a != [] && b != [] && a[|a| - 1] < |net.edges| && b[0] < |net.edges|
    requires net.edges[a[|a| - 1]].sink == net.edges[b[0]].src
    ensures Reaches(net, sol, c, from, to)
  {
    var first :| Traces(net, sol, a, first, from, via);
    TracesReach(net, sol, a, first, b, c, from, via, to);
  }

  lemma OperandReaches(net: Network, sol: Choice, e: nat, fu: NodeId) returns (via: NodeId)
    requires Sorted(net) && Solves(net, sol) && net.topological && e < |net.edges|
    requires Hosts(net, sol, net.edges[e].sink, fu)
    ensures Reaches(net, sol, [e], via, fu) && Hosts(net, sol, net.edges[e].src, via)
  {
    var h := OperandIsRouted(net, sol, e, fu);
    OneIsTraced(net, sol, e, h);
    via := h.walk[0];
  }

  // That edges in a row lead from one unit to another, and that an operation is on a unit.
  type Reach = (seq<nat>, NodeId, NodeId) -> bool
  type Hosting = (nat, NodeId) -> bool

  // Some unit that hosts the source of the edge leads to fu.
  ghost predicate HasDriver(net: Network, hosts: Hosting, reach: Reach, e: nat, fu: NodeId)
    requires e < |net.edges|
  {
    exists via :: hosts(net.edges[e].src, via) && reach([e], via, fu)
  }

  ghost predicate AllHaveDrivers(net: Network, hosts: Hosting, reach: Reach) {
    forall e: nat, fu {:trigger HasDriver(net, hosts, reach, e, fu)} ::
      e < |net.edges| && hosts(net.edges[e].sink, fu) ==> HasDriver(net, hosts, reach, e, fu)
  }

  // One edge more leads on.
  ghost predicate ExtendsBy(reach: Reach, es: seq<nat>, from: NodeId, via: NodeId, to: NodeId)
    requires |es| > 1
  {
    reach(es[..|es| - 1], from, via) && reach([es[|es| - 1]], via, to) ==> reach(es, from, to)
  }

  ghost predicate ReachesOn(net: Network, reach: Reach) {
    forall es, from, via, to {:trigger ExtendsBy(reach, es, from, via, to)} ::
      IsPath(net, es) && |es| > 1 ==> ExtendsBy(reach, es, from, via, to)
  }

  lemma {:induction false} PathGoesBack(net: Network, hosts: Hosting, reach: Reach, es: seq<nat>, fu: NodeId)
    returns (from: NodeId)
    requires AllHaveDrivers(net, hosts, reach) && ReachesOn(net, reach)
    requires IsPath(net, es) && es != [] && hosts(net.edges[es[|es| - 1]].sink, fu)
    ensures reach(es, from, fu)
    decreases |es|
  {
    var e := es[|es| - 1];
    assert HasDriver(net, hosts, reach, e, fu);
    var via :| hosts(net.edges[e].src, via) && reach([e], via, fu);
    from := via;
    if |es| == 1 {
      assert es == [e];
    } else {
      IsPathInit(net, es);
      from := PathGoesBack(net, hosts, reach, es[..|es| - 1], via);
      assert ExtendsBy(reach, es, from, via, fu);
    }
  }

  lemma OperandsReach(net: Network, sol: Choice, hosts: Hosting, reach: Reach)
    requires Sorted(net) && Solves(net, sol) && net.topological
    requires forall op, x :: hosts(op, x) <==> Hosts(net, sol, op, x)
    requires forall es, x, y :: reach(es, x, y) <==> Reaches(net, sol, es, x, y)
    ensures AllHaveDrivers(net, hosts, reach)
  {
    forall e: nat, fu | e < |net.edges| && hosts(net.edges[e].sink, fu)
      ensures HasDriver(net, hosts, reach, e, fu)
    {
      var via := OperandReaches(net, sol, e, fu);
      assert hosts(net.edges[e].src, via) && reach([e], via, fu);
    }
  }

  lemma ReachesSnoc(net: Network, sol: Choice, es: seq<nat>, from: NodeId, via: NodeId, to: NodeId)
    requires Sorted(net) && IsPath(net, es) && |es| > 1
    requires Reaches(net, sol, es[..|es| - 1], from, via) && Reaches(net, sol, [es[|es| - 1]], via, to)
    ensures Reaches(net, sol, es, from, to)
  {
    IsPathInit(net, es);
    ReachesJoin(net, sol, es[..|es| - 1], [es[|es| - 1]], es, from, via, to);
  }

  lemma PathsReachOn(net: Network, sol: Choice, reach: Reach)
    requires Sorted(net) && forall es, x, y :: reach(es, x, y) <==> Reaches(net, sol, es, x, y)
    ensures ReachesOn(net, reach)
  {
    forall es, from, via, to | IsPath(net, es) && |es| > 1
      ensures ExtendsBy(reach, es, from, via, to)
    {
      if reach(es[..|es| - 1], from, via) && reach([es[|es| - 1]], via, to) {
        ReachesSnoc(net, sol, es, from, via, to);
      }
    }
  }

  lemma PathReaches(net: Network, sol: Choice, es: seq<nat>, fu: NodeId) returns (from: NodeId)
    requires Sorted(net) && Solves(net, sol) && net.topological && IsPath(net, es) && es != []
    requires Hosts(net, sol, net.edges[es[|es| - 1]].sink, fu)
    ensures Reaches(net, sol, es, from, fu)
  {
    var hosts: Hosting := (op: nat, x: NodeId) => Hosts(net, sol, op, x);
    var reach: Reach := (a: seq<nat>, x: NodeId, y: NodeId) => Sorted(net) && Reaches(net, sol, a, x, y);
    OperandsReach(net, sol, hosts, reach);
    PathsReachOn(net, sol, reach);
    from := PathGoesBack(net, hosts, reach, es, fu);
  }

  /** Main result: from any unit that hosts the last operation of a dataflow path, the path
      can be traced back along routes in use that meet the trip count constraints. */
  lemma PathIsRouted(net: Network, sol: Choice, es: seq<nat>, fu: NodeId) returns (from: NodeId, hops: seq<Hop>)
    requires Sorted(net) && Solves(net, sol) && net.topological && IsPath(net, es) && es != []
    requires Hosts(net, sol, net.edges[es[|es| - 1]].sink, fu)
    ensures Traces(net, sol, es, hops, from, fu)
  {
    from := PathReaches(net, sol, es, fu);
    hops :| Traces(net, sol, es, hops, from, fu);
  }

  // Dataflow loops.

  ghost predicate IsLoop(net: Network, es: seq<nat>) {
    IsPath(net, es) && es != [] && net.edges[es[|es| - 1]].sink == net.edges[es[0]].src
  }

  /** m turns of the loop. */
  function Repeat(es: seq<nat>, m: nat): seq<nat>
    requires m > 0
  {
    if m == 1 then es else Repeat(es, m - 1) + es
  }

  lemma RepeatEnds(es: seq<nat>, m: nat)
    requires es != [] && m > 0
    ensures Repeat(es, m) != [] && Repeat(es, m)[|Repeat(es, m)| - 1] == es[|es| - 1]
  {
  }

  // That so many turns lead from one unit to another.
  type Turns = (nat, NodeId, NodeId) -> bool

  // One turn more leads on.
  ghost predicate GoesOnBy(turns: Turns) {
    forall m, from, via, to :: m > 0 && turns(m, from, via) && turns(1, via, to) ==> turns(m + 1, from, to)
  }

  // The k-th unit of the list is one turn before the one that it follows.
  ghost predicate TurnBack(turns: Turns, units: seq<NodeId>, k: nat)
    requires 1 <= k < |units|
  {
    turns(1, units[k], units[k - 1])
  }

  ghost predicate GoesBack(turns: Turns, units: seq<NodeId>) {
    forall k {:trigger TurnBack(turns, units, k)} :: 1 <= k < |units| ==> TurnBack(turns, units, k)
  }

  // Some unit is one turn before x.
  ghost predicate HasBefore(turns: Turns, hosts: set<NodeId>, x: NodeId) {
    exists y :: y in hosts && turns(1, y, x)
  }

  ghost predicate AllHaveBefore(turns: Turns, hosts: set<NodeId>) {
    forall x {:trigger HasBefore(turns, hosts, x)} :: x in hosts ==> HasBefore(turns, hosts, x)
  }

  lemma {:induction false} TurnsAdd(turns: Turns, units: seq<NodeId>, i: nat, m: nat, from: NodeId, to: NodeId)
    requires GoesOnBy(turns) && GoesBack(turns, units) && m > 0 && i + m < |units|
    requires units[i] == to && units[i + m] == from
    ensures turns(m, from, to)
    decreases m
  {
    assert TurnBack(turns, units, i + 1);
    if m > 1 {
      TurnsAdd(turns, units, i + 1, m - 1, from, units[i + 1]);
      assert turns(m - 1, from, units[i + 1]) && turns(1, units[i + 1], to);
    }
  }

  lemma {:induction false} TurnsGoBack(turns: Turns, hosts: set<NodeId>, fu: NodeId, n: nat)
    returns (units: seq<NodeId>)
    requires fu in hosts && AllHaveBefore(turns, hosts)
    ensures GoesBack(turns, units) && |units| == n + 1 && units[0] == fu
    ensures forall k :: 0 <= k < |units| ==> units[k] in hosts
    decreases n
  {
    units := [fu];
    if n > 0 {
      assert HasBefore(turns, hosts, fu);
      var y :| y in hosts && turns(1, y, fu);
      var rest := TurnsGoBack(turns, hosts, y, n - 1);
      units := [fu] + rest;
      forall k | 1 <= k < |units|
        ensures TurnBack(turns, units, k)
      {
        assert units[k] == rest[k - 1] && (k > 1 ==> units[k - 1] == rest[k - 2] && TurnBack(turns, rest, k - 1));
      }
    }
  }

  /** If every one of finitely many units is one turn after some other, some turns lead back to where they start. */
  lemma TurnsCloseUp(turns: Turns, hosts: set<NodeId>, fu: NodeId) returns (m: nat, u: NodeId)
    requires GoesOnBy(turns) && fu in hosts && AllHaveBefore(turns, hosts)
    ensures m > 0 && turns(m, u, u)
  {
    var units := TurnsGoBack(turns, hosts, fu, |hosts|);
    var i, j := SomethingTwice(units, hosts);
    m, u := j - i, units[i];
    TurnsAdd(turns, units, i, m, u, u);
  }

  lemma OneMoreTurn(net: Network, sol: Choice, es: seq<nat>, m: nat, from: NodeId, via: NodeId, to: NodeId)
    requires Sorted(net) && IsLoop(net, es) && m > 1
    requires Reaches(net, sol, Repeat(es, m - 1), from, via) && Reaches(net, sol, es, via, to)
    ensures Reaches(net, sol, Repeat(es, m), from, to)
  {
    RepeatEnds(es, m - 1);
    ReachesJoin(net, sol, Repeat(es, m - 1), es, Repeat(es, m), from, via, to);
  }

  lemma {:induction false} TurnsInNetwork(net: Network, es: seq<nat>, m: nat)
    requires m > 0 && forall i :: 0 <= i < |es| ==> es[i] < |net.edges|
    ensures forall i :: 0 <= i < |Repeat(es, m)| ==> Repeat(es, m)[i] < |net.edges|
  {
    if m > 1 {
      TurnsInNetwork(net, es, m - 1);
    }
  }

  lemma OneTurnMore(m: nat, latency: int)
    requires m > 1
    ensures (m - 1) * latency + latency == m * latency
  {
  }

  lemma {:induction false} LatencyOfTurns(net: Network, es: seq<nat>, m: nat)
    requires m > 0 && forall i :: 0 <= i < |es| ==> es[i] < |net.edges|
    ensures forall i :: 0 <= i < |Repeat(es, m)| ==> Repeat(es, m)[i] < |net.edges|
    ensures LatencyOfEdges(net, Repeat(es, m)) == m * LatencyOfEdges(net, es)
  {
    TurnsInNetwork(net, es, m);
    if m > 1 {
      TurnsInNetwork(net, es, m - 1);
      LatencyOfTurns(net, es, m - 1);
      EdgeLatenciesJoin(net, Repeat(es, m - 1), es);
      OneTurnMore(m, LatencyOfEdges(net, es));
    }
  }

  lemma ClosedRouteTakes(net: Network, sol: Choice, es: seq<nat>, m: nat, u: NodeId, hops: seq<Hop>)
    requires Sorted(net) && CycleRule(net.g) && IsLoop(net, es) && m > 0 && Traces(net, sol, Repeat(es, m), hops, u, u)
    ensures RouteLatency(net.g, sol.number, hops) == net.g.ii * (m * LatencyOfEdges(net, es))
  {
    LatencyOfTurns(net, es, m);
    LoopLatency(net.g, sol.number, hops);
  }

  /** A closed route for m turns of the loop, which takes the initiation interval times the latency of the edges. */
  ghost predicate Realised(net: Network, sol: Choice, es: seq<nat>, m: nat, u: NodeId, hops: seq<Hop>)
    requires Sorted(net) && IsLoop(net, es)
  {
    && m > 0 && Traces(net, sol, Repeat(es, m), hops, u, u)
    && RouteLatency(net.g, sol.number, hops) == net.g.ii * (m * LatencyOfEdges(net, es))
  }

  ghost predicate TurnsLead(net: Network, sol: Choice, es: seq<nat>, m: nat, from: NodeId, to: NodeId) {
    Sorted(net) && m > 0 && Reaches(net, sol, Repeat(es, m), from, to)
  }

  lemma TurnBefore(net: Network, sol: Choice, es: seq<nat>, x: NodeId) returns (y: NodeId)
    requires Sorted(net) && Solves(net, sol) && net.topological && IsLoop(net, es)
    requires Hosts(net, sol, net.edges[es[0]].src, x)
    ensures Hosts(net, sol, net.edges[es[0]].src, y) && TurnsLead(net, sol, es, 1, y, x)
  {
    var hops;
    y, hops := PathIsRouted(net, sol, es, x);
    assert Reaches(net, sol, es, y, x);
  }

  lemma TurnsLeadOn(net: Network, sol: Choice, es: seq<nat>, m: nat, from: NodeId, via: NodeId, to: NodeId)
    requires IsLoop(net, es) && m > 0 && TurnsLead(net, sol, es, m, from, via) && TurnsLead(net, sol, es, 1, via, to)
    ensures TurnsLead(net, sol, es, m + 1, from, to)
  {
    OneMoreTurn(net, sol, es, m + 1, from, via, to);
  }

  /** Some turns of the loop lead back to the unit that they start from. */
  lemma TurnsClose(net: Network, sol: Choice, es: seq<nat>, fu: NodeId) returns (m: nat, u: NodeId)
    requires Sorted(net) && Solves(net, sol) && net.topological && IsLoop(net, es)
    requires Hosts(net, sol, net.edges[es[0]].src, fu)
    ensures TurnsLead(net, sol, es, m, u, u)
  {
    var op := net.edges[es[0]].src;
    var hosts := set x | x in net.compatible[op] && Hosts(net, sol, op, x);
    var turns: Turns := (m: nat, from: NodeId, to: NodeId) => TurnsLead(net, sol, es, m, from, to);
    forall x | x in hosts
      ensures HasBefore(turns, hosts, x)
    {
      var y := TurnBefore(net, sol, es, x);
      assert y in hosts && turns(1, y, x);
    }
    forall m: nat, from, via, to | m > 0 && turns(m, from, via) && turns(1, via, to)
      ensures turns(m + 1, from, to)
    {
      TurnsLeadOn(net, sol, es, m, from, via, to);
    }
    m, u := TurnsCloseUp(turns, hosts, fu);
  }

  /** Main result: in every solution every dataflow loop is realised, after some number of turns, by a closed
      route that takes the initiation interval times the latency of its edges. */
  lemma LoopIsRealised(net: Network, sol: Choice, es: seq<nat>, fu: NodeId) returns (m: nat, u: NodeId, hops: seq<Hop>)
    requires Sorted(net) && Solves(net, sol) && net.topological && CycleRule(net.g) && IsLoop(net, es)
    requires Hosts(net, sol, net.edges[es[0]].src, fu)
    ensures Realised(net, sol, es, m, u, hops)
  {
    m, u := TurnsClose(net, sol, es, fu);
    hops :| Traces(net, sol, Repeat(es, m), hops, u, u);
    ClosedRouteTakes(net, sol, es, m, u, hops);
  }

  lemma OneOf<T>(s: set<T>, x: T, y: T)
    requires |s| <= 1 && x in s && y in s
    ensures x == y
  {
    assert |s - {x}| == 0;
    assert s - {x} == {};
  }

  /** An operation that may be mapped only once has one unit. */
  lemma SingleHost(net: Network, sol: Choice, op: nat, x: NodeId, y: NodeId)
    requires Sorted(net) && Solves(net, sol) && op in net.single && Hosts(net, sol, op, x) && Hosts(net, sol, op, y)
    ensures x == y
  {
    assert Wanted(net, MappedOnce(net, op)) && Holds(sol, MappedOnce(net, op));
    OneOf(UnitsOf(net, op) * sol.on, (op, x), (op, y));
  }

  /** A dataflow loop through such an operation is realised in one turn. */
  lemma SingleLoopIsRealised(net: Network, sol: Choice, es: seq<nat>, fu: NodeId) returns (hops: seq<Hop>)
    requires Sorted(net) && Solves(net, sol) && net.topological && CycleRule(net.g) && IsLoop(net, es)
    requires Hosts(net, sol, net.edges[es[0]].src, fu) && net.edges[es[0]].src in net.single
    ensures Realised(net, sol, es, 1, fu, hops)
  {
    var from;
    from, hops := PathIsRouted(net, sol, es, fu);
    SingleHost(net, sol, net.edges[es[0]].src, from, fu);
    ClosedRouteTakes(net, sol, es, 1, fu, hops);
  }

  /** Two routes for dataflow paths that part at one unit and meet at another take equally long exactly when
      the edges of both paths have the same latency. */
  lemma PathsReconverge(net: Network, sol: Choice, a: seq<nat>, first: seq<Hop>, b: seq<nat>, second: seq<Hop>,
                        from: NodeId, to: NodeId)
    requires Sorted(net) && CycleRule(net.g)
    requires Traces(net, sol, a, first, from, to) && Traces(net, sol, b, second, from, to)
    ensures RouteLatency(net.g, sol.number, first) == RouteLatency(net.g, sol.number, second) <==>
            LatencyOfEdges(net, a) == LatencyOfEdges(net, b)
  {
    ReconvergingRoutesBalance(net.g, sol.number, first, second);
  }
}

// Three edges from one operation to another, two of which share a route: the constraints count
// routes for all three together, and for each alone, but not for two of them.
module ParallelExample {
  import opened Mrrg
  import opened Walks
  import opened PathExclusivity
  import opened EdgeNetwork
  import opened ParallelEdges

  const From := NodeId(0, "from")
  const To := NodeId(0, "to")
  const Units := FuPair(From, To)

  function Entry(k: nat): NodeId {
    NodeId(0, if k == 0 then "x" else if k == 1 then "y" else "z")
  }

  function EntryNode(tags: set<string>): Node {
    Node(Routing, 0, 32, [], tags, [To], [From])
  }

  /** Two units, the first of which reaches the second through any of three nodes, two of them for tag c only. */
  function ThreeWays(): Graph {
    Graph(1, map[
      From := Node(Function, 0, 32, [], {}, [Entry(0), Entry(1), Entry(2)], []),
      To := Node(Function, 0, 32, [], {}, [], [Entry(0), Entry(1), Entry(2)]),
      Entry(0) := EntryNode({}), Entry(1) := EntryNode({"c"}), Entry(2) := EntryNode({"c"})])
  }

  function Way(k: nat): seq<NodeId> {
    [From, Entry(k), To]
  }

  /** Three edges, the first two of which have another tag. */
  function ThreeEdges(): Network {
    Network(ThreeWays(), [DfgEdge(0, 1, 0, "a"), DfgEdge(0, 1, 0, "a"), DfgEdge(0, 1, 0, "c")], [[From], [To]], {0, 1},
            false, {Units}, map[Units := map[0 := [Way(0), Way(1), Way(2)]]])
  }

  function VarAt(e: nat): EdgeVar {
    EdgeVar(e, Units, 0)
  }

  function RouteAt(k: nat): PathId {
    PathId(Units, 0, k)
  }

  function AllThree(): Choice {
    Choice({(0, From), (1, To)}, {VarAt(0), VarAt(1), VarAt(2)}, {RouteAt(0), RouteAt(1), RouteAt(2)}, map[])
  }

  lemma WayIsWalk(k: nat)
    requires k < 3
    ensures PathOk(ThreeWays(), Units, 0, Way(k))
  {
    var g, w := ThreeWays(), Way(k);
    assert w[1..] == [Entry(k), To] && w[1..][1..] == [To];
    assert Trips(g, [Entry(k), To]) == 0;
  }

  lemma Names()
    ensures From != To && Entry(0) != Entry(1) && Entry(0) != Entry(2) && Entry(1) != Entry(2)
    ensures forall k :: 0 <= k < 3 ==> Entry(k) != From && Entry(k) != To
  {
    assert |From.name| == 4 && |To.name| == 2 && |"x"| == 1;
    assert "x"[0] != "y"[0] && "x"[0] != "z"[0] && "y"[0] != "z"[0];
  }

  lemma ThreeWaysWellFormed()
    ensures WellFormed(ThreeWays())
  {
    Names();
    var g := ThreeWays();
    assert g.nodes.Keys == {From, To, Entry(0), Entry(1), Entry(2)};
    assert NodeOk(g, From) && NodeOk(g, To);
    assert NodeOk(g, Entry(0)) && NodeOk(g, Entry(1)) && NodeOk(g, Entry(2));
  }

  lemma RoutesAre(fus: FuPair, t: int)
    ensures PathsOf(ThreeEdges(), fus, t) == if fus == Units && t == 0 then [Way(0), Way(1), Way(2)] else []
  {
  }

  lemma ThreeEdgesSorted()
    ensures Sorted(ThreeEdges())
  {
    ThreeWaysWellFormed();
    forall fus, t, k | 0 <= k < |PathsOf(ThreeEdges(), fus, t)|
      ensures PathOk(ThreeWays(), fus, t, PathsOf(ThreeEdges(), fus, t)[k])
    {
      RoutesAre(fus, t);
      WayIsWalk(k);
    }
  }

  lemma VarsAre(v: EdgeVar)
    ensures HasVar(ThreeEdges(), v) <==> v.edge < 3 && v == VarAt(v.edge)
  {
    var net := ThreeEdges();
    assert |net.edges| == 3 && |net.compatible| == 2 && From in net.compatible[0] && To in net.compatible[1];
    assert TripsOf(net, Units) == {0};
  }

  /** The third edge may take every route, the other two only the first. */
  lemma AllowedRoutes(e: nat, k: nat)
    requires e < 3 && k < 3
    ensures Sorted(ThreeEdges()) && |PathsOf(ThreeEdges(), Units, 0)| == 3
    ensures Allows(ThreeEdges(), VarAt(e), k) <==> e == 2 || k == 0
  {
    ThreeEdgesSorted();
    RoutesAre(Units, 0);
    Names();
    var g, w := ThreeWays(), Way(k);
    assert w[1..] == [Entry(k), To] && w[1..][1..] == [To];
    assert "a" != "c" && "a" != "" && "c" != "";
  }

  lemma OwnRoutesAre(e: nat)
    requires e < 3
    ensures Sorted(ThreeEdges()) && RouteAt(0) in CarryingPaths(ThreeEdges(), VarAt(e))
    ensures e < 2 ==> forall id :: id in CarryingPaths(ThreeEdges(), VarAt(e)) ==> id == RouteAt(0)
  {
    AllowedRoutes(e, 0);
    forall id | id in CarryingPaths(ThreeEdges(), VarAt(e))
      ensures e < 2 ==> id == RouteAt(0)
    {
      AllowedRoutes(e, id.num);
    }
  }

  lemma SomeEdgeMayTake(e: nat, k: nat)
    requires e < 3 && k < 3
    ensures Sorted(ThreeEdges()) && |PathsOf(ThreeEdges(), Units, 0)| == 3 && |ThreeEdges().edges| == 3
    ensures SomeAllows(ThreeEdges(), VarAt(e), k)
  {
    AllowedRoutes(2, k);
    assert SameEnds(ThreeEdges(), 2, e) && VarAt(2) == EdgeVar(2, Units, 0);
  }

  lemma AllEdgesTogether(e: nat)
    requires e < 3
    ensures Sorted(ThreeEdges()) && HasVar(ThreeEdges(), VarAt(e))
    ensures AllPathsOf(ThreeEdges(), VarAt(e)).vars == {VarAt(0), VarAt(1), VarAt(2)}
  {
    ThreeEdgesSorted();
    VarsAre(VarAt(e));
    var vars := AllPathsOf(ThreeEdges(), VarAt(e)).vars;
    forall v
      ensures v in vars <==> v.edge < 3 && v == VarAt(v.edge)
    {
      assert v.edge < 3 ==> SameEnds(ThreeEdges(), v.edge, e);
    }
  }

  lemma RouteTogether(e: nat, k: nat)
    requires e < 3 && k < 3
    ensures Sorted(ThreeEdges()) && HasVar(ThreeEdges(), VarAt(e))
    ensures RouteAt(k) in AllPathsOf(ThreeEdges(), VarAt(e)).paths
  {
    VarsAre(VarAt(e));
    SomeEdgeMayTake(e, k);
  }

  lemma EntryOf(id: PathId)
    requires IsPathId(ThreeEdges(), id)
    ensures Sorted(ThreeEdges()) && id.num < 3 && id == RouteAt(id.num)
    ensures InputOf(ThreeEdges(), id) == Entry(id.num)
  {
    ThreeEdgesSorted();
    RoutesAre(id.fus, id.tripCount);
  }

  lemma OtherEntry(j: nat, k: nat)
    requires j < 3 && k < 3 && Entry(j) == Entry(k)
    ensures j == k
  {
    Names();
  }

  lemma OneEntryEach(id: PathId)
    requires IsPathId(ThreeEdges(), id)
    ensures Sorted(ThreeEdges())
    ensures Holds(AllThree(), OneByInput(ThreeEdges(), id))
  {
    EntryOf(id);
    PathIdsAre(ThreeEdges());
    var paths := OneByInput(ThreeEdges(), id).paths;
    forall x | x in paths
      ensures x == id
    {
      EntryOf(x);
      OtherEntry(x.num, id.num);
    }
    AtMostThat(paths * AllThree().paths, id);
  }

  lemma AtMostThat<T>(s: set<T>, x: T)
    requires forall y :: y in s ==> y == x
    ensures |s| <= 1
  {
    if s != {} {
      assert s == {x};
    }
  }

  lemma Exactly<T>(s: set<T>, x: T)
    requires forall y :: y in s <==> y == x
    ensures |s| == 1
  {
    assert s == {x};
  }

  lemma Compatible(op: nat, fu: NodeId)
    ensures |ThreeEdges().compatible| == 2
    ensures op < 2 ==> (fu in ThreeEdges().compatible[op] <==> (op, fu) in AllThree().on)
    ensures (op, fu) in AllThree().on <==> (op == 0 && fu == From) || (op == 1 && fu == To)
  {
  }

  lemma MeetsMapped(op: nat)
    requires op < 2
    ensures Holds(AllThree(), MappedOnce(ThreeEdges(), op))
  {
    var units := UnitsOf(ThreeEdges(), op) * AllThree().on;
    var fu := if op == 0 then From else To;
    forall y
      ensures y in units <==> y == (op, fu)
    {
      Compatible(y.0, y.1);
    }
    Exactly(units, (op, fu));
  }

  lemma MeetsOneOp(op: nat, fu: NodeId)
    requires op < 2 && fu in ThreeEdges().compatible[op]
    ensures Holds(AllThree(), OneOpOn(ThreeEdges(), fu))
  {
    var units := OneOpOn(ThreeEdges(), fu).units * AllThree().on;
    Compatible(op, fu);
    Names();
    forall y | y in units
      ensures y == (op, fu)
    {
      Compatible(y.0, y.1);
    }
    AtMostThat(units, (op, fu));
  }

  lemma MeetsFanin(e: nat, fu: NodeId)
    requires WantsFanin(ThreeEdges(), e, fu)
    ensures Holds(AllThree(), FaninOf(ThreeEdges(), e, fu))
  {
    VarsAre(VarAt(e));
    var vars := FaninVars(ThreeEdges(), e, fu);
    assert VarAt(e) in vars * AllThree().used;
  }

  lemma MeetsOfVar(v: EdgeVar)
    requires HasVar(ThreeEdges(), v)
    ensures Sorted(ThreeEdges())
    ensures Holds(AllThree(), SrcUsed(ThreeEdges(), v)) && Holds(AllThree(), SinkUsed(ThreeEdges(), v))
    ensures Holds(AllThree(), PathOf(ThreeEdges(), v))
  {
    VarsAre(v);
    OwnRoutesAre(v.edge);
    assert RouteAt(0) in CarryingPaths(ThreeEdges(), v) * AllThree().paths;
  }

  lemma AsManyRoutes(vars: set<EdgeVar>, paths: set<PathId>)
    requires vars == {VarAt(0), VarAt(1), VarAt(2)} && forall k: nat {:trigger RouteAt(k)} :: k < 3 ==> RouteAt(k) in paths
    ensures |vars * AllThree().used| <= |paths * AllThree().paths|
  {
    NoMore(vars * AllThree().used, (x: EdgeVar) => RouteAt(x.edge), paths * AllThree().paths);
  }

  lemma MeetsTogether(v: EdgeVar)
    requires HasVar(ThreeEdges(), v)
    ensures Sorted(ThreeEdges())
    ensures Holds(AllThree(), AllPathsOf(ThreeEdges(), v))
  {
    VarsAre(v);
    AllEdgesTogether(v.edge);
    forall k: nat | k < 3 {
      RouteTogether(v.edge, k);
    }
    var c := AllPathsOf(ThreeEdges(), v);
    AsManyRoutes(c.vars, c.paths);
  }

  lemma AllThreeMeets(c: Constraint)
    requires Sorted(ThreeEdges()) && Wanted(ThreeEdges(), c)
    ensures Holds(AllThree(), c)
  {
    var net := ThreeEdges();
    Compatible(0, From);
    match c
    case MustBeMapped(units, once) =>
      var op: nat :| op < |net.compatible| && c == MappedOnce(net, op);
      MeetsMapped(op);
    case AtMostOneOp(units) =>
      var op: nat, fu :| op < |net.compatible| && fu in net.compatible[op] && c == OneOpOn(net, fu);
      MeetsOneOp(op, fu);
    case NeedsFanin(unit, vars) =>
      var e: nat, fu :| WantsFanin(net, e, fu) && c == FaninOf(net, e, fu);
      MeetsFanin(e, fu);
    case RequirePaths(vars, paths) =>
      var v :| HasVar(net, v) && c == AllPathsOf(net, v);
      MeetsTogether(v);
    case OnePathPerInput(paths) =>
      var id :| IsPathId(net, id) && c == OneByInput(net, id);
      OneEntryEach(id);
    case RequiresPath(v, paths) => MeetsOfVar(v);
    case ImpliesUsage(v, unit) => MeetsOfVar(v);
    case Raises(v, src, trips, sink, latency) =>
  }

  lemma AllThreeSolves()
    ensures Sorted(ThreeEdges()) && Solves(ThreeEdges(), AllThree())
  {
    ThreeEdgesSorted();
    forall c | Wanted(ThreeEdges(), c)
      ensures Holds(AllThree(), c)
    {
      AllThreeMeets(c);
    }
  }

  lemma OneRouteForTwo()
    ensures Sorted(ThreeEdges()) && |ThreeEdges().edges| == 3
    ensures |OwnRoutes(ThreeEdges(), AllThree(), VarAt(0)) + OwnRoutes(ThreeEdges(), AllThree(), VarAt(1))| <= 1
  {
    OwnRoutesAre(0);
    OwnRoutesAre(1);
    AtMostThat(OwnRoutes(ThreeEdges(), AllThree(), VarAt(0)) + OwnRoutes(ThreeEdges(), AllThree(), VarAt(1)), RouteAt(0));
  }

  /** Three edges are in use, and the constraints are met, but two of the edges have only one route between
      them, so that both operands enter the unit by the same node. */
  lemma TwoOfThreeShare()
    ensures Sorted(ThreeEdges()) && Solves(ThreeEdges(), AllThree())
    ensures VarAt(0) in AllThree().used && VarAt(1) in AllThree().used && SameEnds(ThreeEdges(), 0, 1)
    ensures HasVar(ThreeEdges(), VarAt(0)) && HasVar(ThreeEdges(), VarAt(1))
    ensures !EnterApart(ThreeEdges(), AllThree(), VarAt(0), VarAt(1))
  {
    AllThreeSolves();
    VarsAre(VarAt(0));
    VarsAre(VarAt(1));
    OneRouteForTwo();
    TwoEnterApartWhen(ThreeEdges(), AllThree(), VarAt(0), VarAt(1));
  }
}

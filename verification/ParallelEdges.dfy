// Several edges from one operation to another: each needs a route of its own, by an input of its own.
module ParallelEdges {
  import opened Mrrg
  import opened PathExclusivity
  import opened TripConstraints
  import opened EdgeNetwork

  function WalkOfId(net: Network, id: PathId): seq<NodeId>
    requires IsPathId(net, id)
  {
    PathsOf(net, id.fus, id.tripCount)[id.num]
  }

  /** Main result: two routes in use between the same units enter the second one by different nodes. */
  lemma RoutesEnterApart(net: Network, sol: Choice, x: PathId, y: PathId)
    requires Sorted(net) && Solves(net, sol) && IsPathId(net, x) && IsPathId(net, y) && x != y && x.fus == y.fus
    requires x in sol.paths && y in sol.paths
    ensures var w, u := WalkOfId(net, x), WalkOfId(net, y); |w| > 1 && |u| > 1 && w[|w| - 2] != u[|u| - 2]
  {
    var w, u := WalkOfId(net, x), WalkOfId(net, y);
    assert PathOk(net.g, x.fus, x.tripCount, w) && PathOk(net.g, y.fus, y.tripCount, u);
    if w[|w| - 2] == u[|u| - 2] {
      var c := OneByInput(net, x);
      assert Wanted(net, c) && Holds(sol, c);
      PathIdsAre(net);
      OneOf(c.paths * sol.paths, x, y);
    }
  }

  lemma NoMore<T, U>(s: set<T>, f: T -> U, t: set<U>)
    requires (forall x :: x in s ==> f(x) in t) && forall x, y :: x in s && y in s && f(x) == f(y) ==> x == y
    ensures |s| <= |t|
  {
    if s != {} {
      var x :| x in s;
      NoMore(s - {x}, f, t - {f(x)});
    }
  }

  /** The edges between the operations, units and trip count of v that are in use. */
  function Together(net: Network, sol: Choice, v: EdgeVar): set<nat> {
    set e: nat | e < |net.edges| && SameEnds(net, e, v.edge) && EdgeVar(e, v.fus, v.trips) in sol.used
  }

  /** The nodes by which routes in use between those units, with that trip count, enter the second one. */
  function Entries(net: Network, sol: Choice, v: EdgeVar): set<NodeId> {
    set id | id in sol.paths && id.fus == v.fus && id.tripCount == v.trips && IsPathId(net, id)
             && |WalkOfId(net, id)| > 1 :: WalkOfId(net, id)[|WalkOfId(net, id)| - 2]
  }

  lemma EdgesInUse(net: Network, sol: Choice, v: EdgeVar)
    requires Sorted(net) && HasVar(net, v)
    ensures |Together(net, sol, v)| <= |AllPathsOf(net, v).vars * sol.used|
  {
    NoMore(Together(net, sol, v), (e: nat) => EdgeVar(e, v.fus, v.trips), AllPathsOf(net, v).vars * sol.used);
  }

  lemma RoutesInUse(net: Network, sol: Choice, v: EdgeVar)
    requires Sorted(net) && Solves(net, sol) && HasVar(net, v)
    ensures |AllPathsOf(net, v).paths * sol.paths| <= |Entries(net, sol, v)|
  {
    var used := AllPathsOf(net, v).paths * sol.paths;
    var entry := (id: PathId) =>
      if IsPathId(net, id) && |WalkOfId(net, id)| > 1 then WalkOfId(net, id)[|WalkOfId(net, id)| - 2] else NodeId(0, "");
    forall x | x in used
      ensures entry(x) in Entries(net, sol, v)
    {
      assert PathOk(net.g, x.fus, x.tripCount, WalkOfId(net, x));
    }
    forall x, y | x in used && y in used && entry(x) == entry(y)
      ensures x == y
    {
      if x != y {
        RoutesEnterApart(net, sol, x, y);
      }
    }
    NoMore(used, entry, Entries(net, sol, v));
  }

  /** Main result: edges in use between the same operations and units, with the same trip count, have at least
      as many inputs of the second unit to enter it by. */
  lemma EdgesHaveEntries(net: Network, sol: Choice, v: EdgeVar)
    requires Sorted(net) && Solves(net, sol) && HasVar(net, v)
    ensures |Together(net, sol, v)| <= |Entries(net, sol, v)|
  {
    assert Wanted(net, AllPathsOf(net, v)) && Holds(sol, AllPathsOf(net, v));
    EdgesInUse(net, sol, v);
    RoutesInUse(net, sol, v);
  }

  /** The routes in use that carry the operand of the edge of v. */
  function OwnRoutes(net: Network, sol: Choice, v: EdgeVar): set<PathId>
    requires Sorted(net) && v.edge < |net.edges|
  {
    CarryingPaths(net, v) * sol.paths
  }

  lemma OwnRouteRoutes(net: Network, sol: Choice, v: EdgeVar, id: PathId)
    requires Sorted(net) && v.edge < |net.edges| && v in sol.used && id in OwnRoutes(net, sol, v)
    ensures IsPathId(net, id) && id.fus == v.fus && id.tripCount == v.trips && id in sol.paths
    ensures RoutesEdge(net, sol, v.edge, Hop(WalkOfId(net, id), net.edges[v.edge].latency))
  {
    assert RouteOf(net, sol, v.edge, Hop(WalkOfId(net, id), net.edges[v.edge].latency), v, id.num);
  }

  /** The edges are routed by two routes in use that enter the unit apart. */
  ghost predicate EnterApart(net: Network, sol: Choice, v: EdgeVar, u: EdgeVar)
    requires Sorted(net)
  {
    exists x, y :: ApartBy(net, sol, v, u, x, y)
  }

  ghost predicate ApartBy(net: Network, sol: Choice, v: EdgeVar, u: EdgeVar, x: PathId, y: PathId)
    requires Sorted(net)
  {
    && v.edge < |net.edges| && u.edge < |net.edges| && x in OwnRoutes(net, sol, v) && y in OwnRoutes(net, sol, u)
    && |WalkOfId(net, x)| > 1 && |WalkOfId(net, y)| > 1
    && WalkOfId(net, x)[|WalkOfId(net, x)| - 2] != WalkOfId(net, y)[|WalkOfId(net, y)| - 2]
  }

  lemma DistinctChoices<T>(s: set<T>, t: set<T>)
    ensures (exists a, b :: a in s && b in t && a != b) <==> s != {} && t != {} && |s + t| >= 2
  {
    if a, b :| a in s && b in t && a != b {
      assert |(s + t) - {a}| == |s + t| - 1 && b in (s + t) - {a};
    }
    if s != {} && t != {} && |s + t| >= 2 {
      var a :| a in s;
      var b :| b in t;
      if a == b {
        assert |(s + t) - {a}| >= 1;
        var c :| c in (s + t) - {a};
        assert c in s || c in t;
      }
    }
  }

  lemma HasOwnRoute(net: Network, sol: Choice, v: EdgeVar) returns (x: PathId)
    requires Sorted(net) && Solves(net, sol) && HasVar(net, v) && v in sol.used
    ensures x in OwnRoutes(net, sol, v)
  {
    assert Wanted(net, PathOf(net, v)) && Holds(sol, PathOf(net, v));
    x := SomeMember(CarryingPaths(net, v) * sol.paths);
  }

  lemma OwnRoutesApart(net: Network, sol: Choice, v: EdgeVar, u: EdgeVar, x: PathId, y: PathId)
    requires Sorted(net) && Solves(net, sol) && v.edge < |net.edges| && u.edge < |net.edges| && v.fus == u.fus
    requires x in OwnRoutes(net, sol, v) && y in OwnRoutes(net, sol, u) && x != y
    ensures ApartBy(net, sol, v, u, x, y)
  {
    RoutesEnterApart(net, sol, x, y);
  }

  /** Two edges in use between the same units enter the second one apart exactly when there are two routes in
      use that carry the operand of one or the other. */
  lemma TwoEnterApartWhen(net: Network, sol: Choice, v: EdgeVar, u: EdgeVar)
    requires Sorted(net) && Solves(net, sol) && HasVar(net, v) && HasVar(net, u) && v.fus == u.fus
    requires v in sol.used && u in sol.used
    ensures EnterApart(net, sol, v, u) <==> |OwnRoutes(net, sol, v) + OwnRoutes(net, sol, u)| >= 2
  {
    var s, t := OwnRoutes(net, sol, v), OwnRoutes(net, sol, u);
    DistinctChoices(s, t);
    var x := HasOwnRoute(net, sol, v);
    var y := HasOwnRoute(net, sol, u);
    if |s + t| >= 2 {
      x, y :| x in s && y in t && x != y;
      OwnRoutesApart(net, sol, v, u, x, y);
    }
    if EnterApart(net, sol, v, u) {
      x, y :| ApartBy(net, sol, v, u, x, y);
    }
  }

  /** Every edge between the operations has the tag of the one edge or of the other. */
  ghost predicate TagsAmong(net: Network, v: nat, u: nat)
    requires v < |net.edges| && u < |net.edges|
  {
    forall e: nat :: e < |net.edges| && SameEnds(net, e, v) ==>
      net.edges[e].tag == net.edges[v].tag || net.edges[e].tag == net.edges[u].tag
  }

  lemma TagsAllow(net: Network, v: EdgeVar, u: EdgeVar, k: nat)
    requires Sorted(net) && HasVar(net, v) && HasVar(net, u) && v.fus == u.fus && v.trips == u.trips
    requires TagsAmong(net, v.edge, u.edge) && k < |PathsOf(net, v.fus, v.trips)| && SomeAllows(net, v, k)
    ensures Allows(net, v, k) || Allows(net, u, k)
  {
  }

  /** Two parallel edges in use with the same trip count have two routes between them. */
  lemma TwoRoutesForTwo(net: Network, sol: Choice, v: EdgeVar, u: EdgeVar)
    requires Sorted(net) && Solves(net, sol) && HasVar(net, v) && HasVar(net, u) && v.fus == u.fus && v.trips == u.trips
    requires v in sol.used && u in sol.used && v.edge != u.edge && SameEnds(net, v.edge, u.edge)
    requires TagsAmong(net, v.edge, u.edge)
    ensures |OwnRoutes(net, sol, v) + OwnRoutes(net, sol, u)| >= 2
  {
    var s, t, c := OwnRoutes(net, sol, v), OwnRoutes(net, sol, u), AllPathsOf(net, v);
    assert Wanted(net, c) && Holds(sol, c);
    AtLeastTwo(c.vars * sol.used, v, u);
    forall id | id in c.paths * sol.paths
      ensures id in s + t
    {
      TagsAllow(net, v, u, id.num);
    }
    NoMore(c.paths * sol.paths, (id: PathId) => id, s + t);
  }

  /** Main result: two edges in use from one operation to another, on the same units, enter the second unit apart,
      whatever their trip counts are, if no third edge between the operations has a tag of its own. */
  lemma ParallelEdgesEnterApart(net: Network, sol: Choice, v: EdgeVar, u: EdgeVar)
    requires Sorted(net) && Solves(net, sol) && HasVar(net, v) && HasVar(net, u) && v.fus == u.fus
    requires v in sol.used && u in sol.used && v.edge != u.edge && SameEnds(net, v.edge, u.edge)
    requires v.trips != u.trips || TagsAmong(net, v.edge, u.edge)
    ensures EnterApart(net, sol, v, u)
  {
    if v.trips != u.trips {
      var x := HasOwnRoute(net, sol, v);
      var y := HasOwnRoute(net, sol, u);
      OwnRoutesApart(net, sol, v, u, x, y);
    } else {
      TwoRoutesForTwo(net, sol, v, u);
      TwoEnterApartWhen(net, sol, v, u);
    }
  }

  lemma AtLeastTwo<T>(s: set<T>, x: T, y: T)
    requires x in s && y in s && x != y
    ensures |s| >= 2
  {
    assert |s - {x}| == |s| - 1 && y in s - {x};
  }
}

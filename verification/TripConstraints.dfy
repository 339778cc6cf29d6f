// The topological trip count constraints: every functional unit is given a
// number, and a route in use must raise it by its trip count, less what the
// dataflow edge asks for.
module TripConstraints {
  import opened Mrrg
  import opened Walks

  // A dataflow edge whose route is in use: the walk between the two units, and
  // the latency, in iterations, of the edge.
  datatype Hop = Hop(walk: seq<NodeId>, edgeLatency: int)

  /** What the indicator constraint says of an edge in use, and of the route that stands for it. */
  ghost predicate Meets(g: Graph, number: map<NodeId, int>, h: Hop) {
    && WellFormed(g) && IsWalk(g, h.walk) && |h.walk| > 1
    && h.walk[0] in number && Last(h.walk) in number
    && TripCountOfWalk(g, h.walk).Some?
    && number[h.walk[0]] + TripCountOfWalk(g, h.walk).value == number[Last(h.walk)] + h.edgeLatency
  }

  // The i-th route ends where the next one starts.
  ghost predicate Joins(hops: seq<Hop>, i: nat)
    requires i + 1 < |hops| && hops[i].walk != [] && hops[i + 1].walk != []
  {
    Last(hops[i].walk) == hops[i + 1].walk[0]
  }

  /** Edges in use that follow one another. */
  ghost predicate Follow(g: Graph, number: map<NodeId, int>, hops: seq<Hop>) {
    && (forall i :: 0 <= i < |hops| ==> Meets(g, number, hops[i]))
    && (forall i {:trigger Joins(hops, i)} :: 0 <= i < |hops| - 1 ==> Joins(hops, i))
  }

  lemma FollowInit(g: Graph, number: map<NodeId, int>, hops: seq<Hop>)
    requires Follow(g, number, hops) && hops != []
    ensures Follow(g, number, hops[..|hops| - 1])
    ensures |hops| > 1 ==> Joins(hops, |hops| - 2)
  {
    var init := hops[..|hops| - 1];
    assert forall i :: 0 <= i < |init| ==> init[i] == hops[i];
    forall i | 0 <= i < |init| - 1
      ensures Joins(init, i)
    {
      assert Joins(hops, i);
    }
  }

  function EdgeLatencies(hops: seq<Hop>): int {
    if hops == [] then 0 else EdgeLatencies(hops[..|hops| - 1]) + hops[|hops| - 1].edgeLatency
  }

  ghost function RouteLatency(g: Graph, number: map<NodeId, int>, hops: seq<Hop>): nat
    requires Follow(g, number, hops)
  {
    if hops == [] then 0
    else
      FollowInit(g, number, hops);
      RouteLatency(g, number, hops[..|hops| - 1]) + Latency(g, hops[|hops| - 1].walk)
  }

  function Source(hops: seq<Hop>): NodeId
    requires hops != [] && hops[0].walk != []
  {
    hops[0].walk[0]
  }

  function Sink(hops: seq<Hop>): NodeId
    requires hops != [] && hops[|hops| - 1].walk != []
  {
    Last(hops[|hops| - 1].walk)
  }

  function Rise(number: map<NodeId, int>, hops: seq<Hop>): int
    requires hops != [] && hops[0].walk != [] && hops[|hops| - 1].walk != []
    requires Source(hops) in number && Sink(hops) in number
  {
    number[Sink(hops)] - number[Source(hops)]
  }

  lemma EndsAreNumbered(g: Graph, number: map<NodeId, int>, hops: seq<Hop>)
    requires Follow(g, number, hops) && hops != []
    ensures hops[0].walk != [] && hops[|hops| - 1].walk != []
    ensures Source(hops) in number && Sink(hops) in number
  {
    assert Meets(g, number, hops[0]) && Meets(g, number, hops[|hops| - 1]);
  }

  /** The physical latency of edges in a row is fixed by the numbers of the two
      end units and by the latencies of the edges. */
  lemma {:induction false} LatencyOfRoute(g: Graph, number: map<NodeId, int>, hops: seq<Hop>)
    requires WellFormed(g) && CycleRule(g) && Follow(g, number, hops) && hops != []
    ensures hops[0].walk != [] && hops[|hops| - 1].walk != []
    ensures Source(hops) in number && Sink(hops) in number
    ensures RouteLatency(g, number, hops) + Source(hops).cycle ==
            g.ii * (EdgeLatencies(hops) + Rise(number, hops)) + Sink(hops).cycle
  {
    var h := hops[|hops| - 1];
    var before := hops[..|hops| - 1];
    EndsAreNumbered(g, number, hops);
    FollowInit(g, number, hops);
    assert Meets(g, number, h);
    TripCountTelescopes(g, h.walk);
    if before == [] {
      assert EdgeLatencies(before) == 0;
    } else {
      LatencyOfRoute(g, number, before);
      assert Sink(before) == h.walk[0];
      Distribute(g.ii, EdgeLatencies(before) + Rise(number, before), Trips(g, h.walk));
    }
  }

  /** Along a closed chain of edges in use the physical loop takes as many
      intervals as the edges have latency. */
  lemma LoopLatency(g: Graph, number: map<NodeId, int>, hops: seq<Hop>)
    requires WellFormed(g) && CycleRule(g) && Follow(g, number, hops) && hops != []
    requires hops[0].walk != [] && hops[|hops| - 1].walk != [] && Source(hops) == Sink(hops)
    ensures RouteLatency(g, number, hops) == g.ii * EdgeLatencies(hops)
  {
    LatencyOfRoute(g, number, hops);
  }

  /** Two chains between the same units arrive at the same time exactly when
      their edges ask for the same latency. */
  lemma ReconvergingRoutesBalance(g: Graph, number: map<NodeId, int>, a: seq<Hop>, b: seq<Hop>)
    requires WellFormed(g) && CycleRule(g) && Follow(g, number, a) && Follow(g, number, b) && a != [] && b != []
    requires a[0].walk != [] && a[|a| - 1].walk != [] && b[0].walk != [] && b[|b| - 1].walk != []
    requires Source(a) == Source(b) && Sink(a) == Sink(b)
    ensures RouteLatency(g, number, a) == RouteLatency(g, number, b) <==> EdgeLatencies(a) == EdgeLatencies(b)
  {
    EndsAreNumbered(g, number, a);
    EndsAreNumbered(g, number, b);
    RouteTakes(g, number, a);
    RouteTakes(g, number, b);
    SameSums(g.ii, EdgeLatencies(a) + Rise(number, a), EdgeLatencies(b) + Rise(number, b),
             RouteLatency(g, number, a), RouteLatency(g, number, b), Source(a).cycle, Sink(a).cycle);
  }

  // A route that leaves in one cycle, arrives in another, and wraps around so many intervals.
  ghost predicate Takes(ii: nat, intervals: int, latency: nat, from: nat, to: nat) {
    latency + from == ii * intervals + to
  }

  lemma RouteTakes(g: Graph, number: map<NodeId, int>, hops: seq<Hop>)
    requires WellFormed(g) && CycleRule(g) && Follow(g, number, hops) && hops != []
    ensures hops[0].walk != [] && hops[|hops| - 1].walk != []
    ensures Source(hops) in number && Sink(hops) in number
    ensures Takes(g.ii, EdgeLatencies(hops) + Rise(number, hops), RouteLatency(g, number, hops),
                  Source(hops).cycle, Sink(hops).cycle)
  {
    LatencyOfRoute(g, number, hops);
  }

  lemma SameSums(ii: nat, x: int, y: int, a: nat, b: nat, from: nat, to: nat)
    requires ii > 0 && Takes(ii, x, a, from, to) && Takes(ii, y, b, from, to)
    ensures a == b <==> x == y
  {
    SameMultiple(ii, x, y);
  }

  lemma SameMultiple(ii: nat, x: int, y: int)
    requires ii > 0
    ensures ii * x == ii * y <==> x == y
  {
    if x < y {
      Apart(ii, x, y - x);
    } else if y < x {
      Apart(ii, y, x - y);
    }
  }

  lemma Apart(ii: nat, x: int, d: nat)
    requires ii > 0 && d > 0
    ensures ii * (x + d) > ii * x
  {
    Distribute(ii, x, d);
    MultipleGap(d, 0, ii);
    assert 0 * ii == 0 && ii * d == d * ii;
  }
}

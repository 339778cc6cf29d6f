// Walks through an MRRG, their latency, how often they wrap around the
// initiation interval, and the operands that they carry.
module Walks {
  import opened Wrappers
  import opened Mrrg
  import opened OpGraphs

  ghost predicate IsWalk(g: Graph, w: seq<NodeId>) {
    && |w| > 0
    && (forall i :: 0 <= i < |w| ==> w[i] in g.nodes)
    && (forall i :: 0 <= i < |w| - 1 ==> w[i + 1] in g.nodes[w[i]].fanout)
  }

  function Last(w: seq<NodeId>): NodeId
    requires |w| > 0
  {
    w[|w| - 1]
  }

  /** From the input of the first node to the input of the last. */
  function Latency(g: Graph, w: seq<NodeId>): nat
    requires forall i :: 0 <= i < |w| ==> w[i] in g.nodes
  {
    if |w| < 2 then 0 else g.nodes[w[0]].latency + Latency(g, w[1..])
  }

  /** Division by repeated subtraction, for the same reason as Wrap. */
  function Quotient(x: nat, ii: nat): nat
    requires ii > 0
  {
    if x < ii then 0 else 1 + Quotient(x - ii, ii)
  }

  /** The fold of tripCountOfWalk, over all nodes but the last. */
  function Trips(g: Graph, w: seq<NodeId>): nat
    requires g.ii > 0
    requires forall i :: 0 <= i < |w| ==> w[i] in g.nodes
  {
    if |w| < 2 then 0 else Quotient(w[0].cycle + g.nodes[w[0]].latency, g.ii) + Trips(g, w[1..])
  }

  /** None stands for the exception thrown for a walk of a single node. */
  function TripCountOfWalk(g: Graph, w: seq<NodeId>): Option<nat>
    requires g.ii > 0
    requires forall i :: 0 <= i < |w| ==> w[i] in g.nodes
  {
    if w == [] then Some(0) else if |w| == 1 then None else Some(Trips(g, w))
  }

  predicate AllButLastAllow(g: Graph, w: seq<NodeId>, tag: string)
    requires forall i :: 0 <= i < |w| ==> w[i] in g.nodes
  {
    |w| < 2 || (NodeIsCompatibleWithOperand(g.nodes[w[0]], tag) && AllButLastAllow(g, w[1..], tag))
  }

  /** walkIsCompatibleWithOperand; None is the exception for a walk of one node. */
  function WalkIsCompatibleWithOperand(g: Graph, w: seq<NodeId>, tag: string): Option<bool>
    requires forall i :: 0 <= i < |w| ==> w[i] in g.nodes
  {
    if w == [] || tag == "" then Some(true)
    else if |w| == 1 then None
    else Some(AllButLastAllow(g, w, tag))
  }

  lemma WalkTail(g: Graph, w: seq<NodeId>)
    requires IsWalk(g, w) && |w| > 1
    ensures IsWalk(g, w[1..]) && Last(w[1..]) == Last(w)
    ensures w[1] in g.nodes[w[0]].fanout
  {
    forall i | 0 <= i < |w[1..]| - 1
      ensures w[1..][i + 1] in g.nodes[w[1..][i]].fanout
    {
      assert w[i + 2] in g.nodes[w[i + 1]].fanout;
    }
    assert w[0 + 1] in g.nodes[w[0]].fanout;
  }

  lemma WalkCons(g: Graph, n: NodeId, w: seq<NodeId>)
    requires IsWalk(g, w) && n in g.nodes && w[0] in g.nodes[n].fanout
    ensures IsWalk(g, [n] + w) && Last([n] + w) == Last(w)
    ensures Latency(g, [n] + w) == g.nodes[n].latency + Latency(g, w)
  {
    assert ([n] + w)[1..] == w;
  }

  lemma {:induction false} QuotientAndWrap(x: nat, ii: nat)
    requires ii > 0
    ensures x == ii * Quotient(x, ii) + Wrap(x, ii)
  {
    if x >= ii {
      QuotientAndWrap(x - ii, ii);
      Distribute(ii, 1, Quotient(x - ii, ii));
    }
  }

  lemma QuotientIsDivision(x: nat, ii: nat)
    requires ii > 0
    ensures Quotient(x, ii) == x / ii
  {
    QuotientAndWrap(x, ii);
    ModUnique(x, ii, Quotient(x, ii), Wrap(x, ii));
  }

  lemma Distribute(ii: int, a: int, b: int)
    ensures ii * a + ii * b == ii * (a + b)
  {
  }

  lemma TripsStep(ii: nat, from: nat, first: nat, next: nat, trips: nat, rest: nat, to: nat)
    requires ii > 0 && next == Wrap(from + first, ii) && rest + next == ii * trips + to
    ensures first + rest + from == ii * (Quotient(from + first, ii) + trips) + to
  {
    QuotientAndWrap(from + first, ii);
    Distribute(ii, Quotient(from + first, ii), trips);
  }

  lemma LinkCycle(g: Graph, n: NodeId, m: NodeId)
    requires g.ii > 0 && CycleRule(g) && n in g.nodes && m in g.nodes[n].fanout
    ensures m.cycle == Wrap(n.cycle + g.nodes[n].latency, g.ii)
  {
    assert m.cycle == OutputCycle(g, n);
  }

  lemma UnfoldWalk(g: Graph, w: seq<NodeId>)
    requires g.ii > 0 && IsWalk(g, w) && |w| > 1
    ensures IsWalk(g, w[1..]) && Last(w[1..]) == Last(w) && w[1] in g.nodes[w[0]].fanout
    ensures Latency(g, w) == g.nodes[w[0]].latency + Latency(g, w[1..])
    ensures Trips(g, w) == Quotient(w[0].cycle + g.nodes[w[0]].latency, g.ii) + Trips(g, w[1..])
  {
    WalkTail(g, w);
  }

  lemma OneTrip(ii: nat, trips: nat)
    requires ii > 0
    ensures ii * trips == ii <==> trips == 1
  {
    if trips == 0 {
      assert ii * trips == 0;
    } else if trips > 1 {
      assert ii * trips >= ii * 2;
    }
  }

  /** Latency and trip count determine each other: the latency of a walk is
      what its trips and its end cycles add up to. */
  lemma {:induction false} TripCountTelescopes(g: Graph, w: seq<NodeId>)
    requires g.ii > 0 && CycleRule(g) && IsWalk(g, w)
    ensures Latency(g, w) + w[0].cycle == g.ii * Trips(g, w) + Last(w).cycle
    decreases |w|
  {
    if |w| > 1 {
      UnfoldWalk(g, w);
      LinkCycle(g, w[0], w[1]);
      TripCountTelescopes(g, w[1..]);
      TripsStep(g.ii, w[0].cycle, g.nodes[w[0]].latency, w[1].cycle, Trips(g, w[1..]), Latency(g, w[1..]), Last(w).cycle);
    }
  }

  lemma {:induction false} TripsOfJoin(g: Graph, a: seq<NodeId>, b: seq<NodeId>)
    requires g.ii > 0 && |a| > 0 && |b| > 0 && Last(a) == b[0]
    requires forall i :: 0 <= i < |a| ==> a[i] in g.nodes
    requires forall i :: 0 <= i < |b| ==> b[i] in g.nodes
    ensures forall i :: 0 <= i < |a + b[1..]| ==> (a + b[1..])[i] in g.nodes
    ensures Trips(g, a + b[1..]) == Trips(g, a) + Trips(g, b)
    ensures Latency(g, a + b[1..]) == Latency(g, a) + Latency(g, b)
  {
    if |a| == 1 {
      assert a + b[1..] == b;
    } else {
      TripsOfJoin(g, a[1..], b);
      assert (a + b[1..])[1..] == a[1..] + b[1..];
    }
  }

  /** The additive identity documented for tripCountOfWalk. */
  lemma TripCountIsAdditive(g: Graph, a: seq<NodeId>, b: seq<NodeId>)
    requires g.ii > 0 && IsWalk(g, a) && IsWalk(g, b) && |a| > 1 && |b| > 1 && Last(a) == b[0]
    ensures forall i :: 0 <= i < |a + b[1..]| ==> (a + b[1..])[i] in g.nodes
    ensures TripCountOfWalk(g, a).Some? && TripCountOfWalk(g, b).Some? && TripCountOfWalk(g, a + b[1..]).Some?
    ensures TripCountOfWalk(g, a + b[1..]).value == TripCountOfWalk(g, a).value + TripCountOfWalk(g, b).value
  {
    TripsOfJoin(g, a, b);
  }

  /** A loop takes exactly one initiation interval when it wraps around exactly once. */
  lemma ClosedWalkTakesOneIntervalPerTrip(g: Graph, w: seq<NodeId>)
    requires WellFormed(g) && CycleRule(g) && IsWalk(g, w) && |w| > 1 && w[0] == Last(w)
    ensures Latency(g, w) == g.ii * TripCountOfWalk(g, w).value
    ensures Latency(g, w) == g.ii <==> TripCountOfWalk(g, w) == Some(1)
  {
    TripCountTelescopes(g, w);
    OneTrip(g.ii, Trips(g, w));
  }
}

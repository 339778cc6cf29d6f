// The search of latencyCheckBFSCycle: does every way back to a node take exactly
// one initiation interval?
module CycleSearch {
  import opened MappingGraphs

  // A node and the latency with which it was reached.
  datatype State = State(node: nat, latency: nat)

  /** A walk out of start that does not pass through start again and goes on
      only from where it is still within the interval. */
  ghost predicate Probe(g: MappingGraph, ii: nat, start: nat, w: seq<nat>) {
    if |w| < 2 then false
    else if |w| == 2 then w[0] == start && w[1] in Fanout(g, start)
    else
      var init := w[..|w| - 1];
      var u := init[|init| - 1];
      Probe(g, ii, start, init) && u != start && PathLatency(g, init) <= ii && w[|w| - 1] in Fanout(g, u)
  }

  /** A closed probe: a walk from start back to its first return there. */
  ghost predicate FirstReturn(g: MappingGraph, ii: nat, start: nat, w: seq<nat>) {
    Probe(g, ii, start, w) && w[|w| - 1] == start
  }

  ghost predicate Ends(g: MappingGraph, w: seq<nat>, s: State) {
    |w| > 0 && w[|w| - 1] == s.node && PathLatency(g, w) == s.latency
  }

  lemma {:induction false} ProbeIsPath(g: MappingGraph, ii: nat, start: nat, w: seq<nat>)
    requires start in g.nodes && Probe(g, ii, start, w)
    ensures IsPath(g, w) && w[0] == start
  {
    if |w| > 2 {
      var init := w[..|w| - 1];
      ProbeIsPath(g, ii, start, init);
      PathSnoc(g, init, w[|w| - 1]);
      assert w == init + [w[|w| - 1]];
    }
  }

  /** The states that the search may meet. */
  ghost predicate Reached(g: MappingGraph, ii: nat, start: nat, s: State) {
    exists w :: Probe(g, ii, start, w) && Ends(g, w, s)
  }

  lemma ReachedNext(g: MappingGraph, ii: nat, start: nat, s: State, m: nat)
    requires s == State(start, 0) || (Reached(g, ii, start, s) && s.node != start && s.latency <= ii)
    requires m in Fanout(g, s.node)
    ensures Reached(g, ii, start, State(m, s.latency + Latency(g, s.node)))
  {
    var w := [start];
    if s != State(start, 0) {
      w :| Probe(g, ii, start, w) && Ends(g, w, s);
    }
    assert (w + [m])[..|w|] == w;
    PathSnoc(g, w, m);
    assert Probe(g, ii, start, w + [m]);
    assert Ends(g, w + [m], State(m, s.latency + Latency(g, s.node)));
  }

  /** The search has gone on from every state it could go on from. */
  ghost predicate Explored(g: MappingGraph, ii: nat, start: nat, seen: set<State>, open: set<State>) {
    && (forall m :: m in Fanout(g, start) ==> State(m, Latency(g, start)) in seen + open)
    && (forall s :: s in seen && s.node != start && s.latency <= ii ==> GoneOn(g, s, seen + open))
  }

  ghost predicate GoneOn(g: MappingGraph, s: State, reached: set<State>) {
    forall m :: m in Fanout(g, s.node) ==> State(m, s.latency + Latency(g, s.node)) in reached
  }

  lemma ExploreOn(g: MappingGraph, ii: nat, start: nat, seen: set<State>, open: set<State>,
                  s: State, open': set<State>)
    requires Explored(g, ii, start, seen, open) && open <= open' + {s}
    requires s in seen || s.node == start || s.latency > ii || GoneOn(g, s, open')
    ensures Explored(g, ii, start, seen + {s}, open')
  {
    forall x | x in seen + {s} && x.node != start && x.latency <= ii
      ensures GoneOn(g, x, seen + {s} + open')
    {
      if x in seen {
        assert GoneOn(g, x, seen + open);
      }
    }
  }

  lemma {:induction false} ProbesAreSeen(g: MappingGraph, ii: nat, start: nat, seen: set<State>, w: seq<nat>)
    requires Explored(g, ii, start, seen, {}) && Probe(g, ii, start, w)
    ensures State(w[|w| - 1], PathLatency(g, w)) in seen
    decreases |w|
  {
    var init := w[..|w| - 1];
    if |w| == 2 {
      assert PathLatency(g, init) == 0;
    } else {
      ProbesAreSeen(g, ii, start, seen, init);
      var s := State(init[|init| - 1], PathLatency(g, init));
      assert GoneOn(g, s, seen + {});
    }
  }

  ghost function MaxLatency(g: MappingGraph, x: set<nat>): (b: nat)
    ensures forall n :: n in x ==> Latency(g, n) <= b
  {
    if x == {} then 0
    else
      var n :| n in x;
      var rest := MaxLatency(g, x - {n});
      if Latency(g, n) > rest then Latency(g, n) else rest
  }

  ghost function Reachable(g: MappingGraph, bound: nat): set<State> {
    set n: nat, l: nat | n in g.nodes && l <= bound :: State(n, l)
  }

  ghost function Pending(queue: seq<State>): set<State> {
    set s | s in queue
  }

  lemma PendingPop(queue: seq<State>)
    requires queue != []
    ensures Pending(queue) == {queue[0]} + Pending(queue[1..])
  {
    assert queue == [queue[0]] + queue[1..];
  }

  // What is on the queue leads back to start, and is one of finitely many states.
  ghost predicate Queued(g: MappingGraph, ii: nat, start: nat, bound: nat, queue: seq<State>) {
    forall s :: s in queue ==> Reached(g, ii, start, s) && s in Reachable(g, bound)
  }

  /** Puts the fanouts of current on the queue. */
  method PushFanouts(g: MappingGraph, ii: nat, start: nat, current: State, toVisit: seq<State>, ghost bound: nat)
    returns (toVisit': seq<State>)
    requires Mirrored(g) && current.node in g.nodes && Queued(g, ii, start, bound, toVisit)
    requires bound >= ii + MaxLatency(g, g.nodes) && current.latency <= ii
    requires current == State(start, 0) || (Reached(g, ii, start, current) && current.node != start)
    ensures Queued(g, ii, start, bound, toVisit')
    ensures Pending(toVisit) <= Pending(toVisit') && GoneOn(g, current, Pending(toVisit'))
  {
    toVisit' := toVisit;
    assert Recorded(g, current.node);
    var fanout := g.fanout[current.node];
    for i := 0 to |fanout|
      invariant Queued(g, ii, start, bound, toVisit')
      invariant Pending(toVisit) <= Pending(toVisit')
      invariant forall m :: m in fanout[..i] ==> State(m, current.latency + Latency(g, current.node)) in toVisit'
    {
      var m := fanout[i];
      assert m in fanout && fanout[..i + 1] == fanout[..i] + [m];
      ReachedNext(g, ii, start, current, m);
      toVisit' := toVisit' + [State(m, current.latency + g.latency[current.node])];
    }
    assert fanout[..|fanout|] == fanout;
  }

  /** latencyCheckBFSCycle says exactly whether there is a way back to start
      and all ways back that it follows take one initiation interval. It
      terminates on every graph, loops without latency included. */
  method LatencyCheckBFSCycle(g: MappingGraph, ii: nat, start: nat) returns (cycle: bool)
    requires Mirrored(g) && start in g.nodes
    ensures cycle <==> (exists w :: FirstReturn(g, ii, start, w)) &&
                       (forall w :: FirstReturn(g, ii, start, w) ==> PathLatency(g, w) == ii)
  {
    ghost var bound := ii + MaxLatency(g, g.nodes);
    var toVisit := PushFanouts(g, ii, start, State(start, 0), [], bound);
    cycle := false;
    var visited: set<State> := {};
    while toVisit != []
      invariant Queued(g, ii, start, bound, toVisit)
      invariant visited <= Reachable(g, bound)
      invariant forall s :: s in visited ==> Reached(g, ii, start, s)
      invariant Explored(g, ii, start, visited, Pending(toVisit))
      invariant forall s :: s in visited && s.node == start ==> s.latency == ii && cycle
      invariant cycle ==> State(start, ii) in visited
      decreases Reachable(g, bound) - visited, |toVisit|
    {
      var current := toVisit[0];
      ghost var seen, open := visited, Pending(toVisit);
      PendingPop(toVisit);
      toVisit := toVisit[1..];
      if current in visited {
        ExploreOn(g, ii, start, seen, open, current, Pending(toVisit));
        assert seen + {current} == seen;
        continue;
      }
      visited := visited + {current};
      if current.node == start {
        cycle := true;
        if current.latency != ii {
          WayBack(g, ii, start, current);
          return false;
        }
      } else if current.latency <= ii {
        toVisit := PushFanouts(g, ii, start, current, toVisit, bound);
      }
      ExploreOn(g, ii, start, seen, open, current, Pending(toVisit));
    }
    CycleVerdict(g, ii, start, visited, cycle);
  }

  lemma WayBack(g: MappingGraph, ii: nat, start: nat, s: State)
    requires Reached(g, ii, start, s) && s.node == start
    ensures exists w :: FirstReturn(g, ii, start, w) && PathLatency(g, w) == s.latency
  {
    var w :| Probe(g, ii, start, w) && Ends(g, w, s);
    assert FirstReturn(g, ii, start, w);
  }

  lemma CycleVerdict(g: MappingGraph, ii: nat, start: nat, visited: set<State>, cycle: bool)
    requires Explored(g, ii, start, visited, {})
    requires forall s :: s in visited ==> Reached(g, ii, start, s)
    requires forall s :: s in visited && s.node == start ==> s.latency == ii && cycle
    requires cycle ==> State(start, ii) in visited
    ensures cycle <==> exists w :: FirstReturn(g, ii, start, w)
    ensures forall w :: FirstReturn(g, ii, start, w) ==> PathLatency(g, w) == ii
  {
    forall w | FirstReturn(g, ii, start, w)
      ensures State(start, PathLatency(g, w)) in visited
    {
      ProbesAreSeen(g, ii, start, visited, w);
    }
    if cycle {
      WayBack(g, ii, start, State(start, ii));
    }
  }
}

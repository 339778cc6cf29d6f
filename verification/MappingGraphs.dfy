// The graph that a mapping spans, with the latency that each node has in the
// MRRG, and walks through it.
module MappingGraphs {
  datatype MappingGraph = MappingGraph(
    nodes: set<nat>,
    fanout: map<nat, seq<nat>>,
    fanin: map<nat, seq<nat>>,
    latency: map<nat, nat>)

  /** Every link of n is recorded at both of its ends. */
  ghost predicate Recorded(g: MappingGraph, n: nat) {
    && n in g.nodes && n in g.fanout && n in g.fanin && n in g.latency
    && (forall m :: m in g.fanout[n] ==> m in g.nodes && m in g.fanin && n in g.fanin[m])
    && (forall m :: m in g.fanin[n] ==> m in g.nodes && m in g.fanout && n in g.fanout[m])
  }

  ghost predicate Mirrored(g: MappingGraph) {
    forall n {:trigger Recorded(g, n)} :: n in g.nodes ==> Recorded(g, n)
  }

  function Fanout(g: MappingGraph, n: nat): seq<nat> {
    if n in g.fanout then g.fanout[n] else []
  }

  function Fanin(g: MappingGraph, n: nat): seq<nat> {
    if n in g.fanin then g.fanin[n] else []
  }

  function Latency(g: MappingGraph, n: nat): nat {
    if n in g.latency then g.latency[n] else 0
  }

  /** Nothing leads into or out of the set. */
  ghost predicate ClosedSet(g: MappingGraph, x: set<nat>) {
    && x <= g.nodes
    && (forall n, m :: n in x && m in Fanout(g, n) ==> m in x)
    && (forall n, m :: n in x && m in Fanin(g, n) ==> m in x)
  }

  ghost predicate IsPath(g: MappingGraph, w: seq<nat>)
  {
    |w| > 0 && w[0] in g.nodes && forall i :: 0 <= i < |w| - 1 ==> w[i + 1] in Fanout(g, w[i])
  }

  /** The latency of all nodes of the path but the last. */
  function PathLatency(g: MappingGraph, w: seq<nat>): nat {
    if |w| < 2 then 0 else PathLatency(g, w[..|w| - 1]) + Latency(g, w[|w| - 2])
  }

  lemma PathSnoc(g: MappingGraph, w: seq<nat>, m: nat)
    requires |w| > 0
    ensures PathLatency(g, w + [m]) == PathLatency(g, w) + Latency(g, w[|w| - 1])
    ensures IsPath(g, w + [m]) <==> IsPath(g, w) && m in Fanout(g, w[|w| - 1])
  {
    assert (w + [m])[..|w|] == w;
    if IsPath(g, w + [m]) {
      assert (w + [m])[(|w| - 1) + 1] in Fanout(g, (w + [m])[|w| - 1]);
      forall i | 0 <= i < |w| - 1
        ensures w[i + 1] in Fanout(g, w[i])
      {
        assert (w + [m])[i + 1] in Fanout(g, (w + [m])[i]);
      }
    }
  }
}

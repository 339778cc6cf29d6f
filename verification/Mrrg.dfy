// The modulo routing resource graph: a directed graph that stores every link
// twice, in the fanout list of its driver and in the fanin list of its target.
module Mrrg {
  import opened Seqs

  datatype NodeKind = Routing | Function | RoutingFunction

  // A node is stored under its cycle and its name, and is identified by them.
  datatype NodeId = NodeId(cycle: nat, name: string)

  datatype Node = Node(
    kind: NodeKind,
    latency: nat,
    bitwidth: nat,
    supportedOps: seq<string>,
    operandTags: set<string>,
    fanout: seq<NodeId>,
    fanin: seq<NodeId>)

  // What a const MRRG& gives access to.
  datatype Graph = Graph(ii: nat, nodes: map<NodeId, Node>)

  ghost predicate SameProperties(a: Node, b: Node) {
    a.(fanout := [], fanin := []) == b.(fanout := [], fanin := [])
  }

  /** The links of one node are duplicate free, stay inside the graph, and are
      stored at both ends. */
  ghost predicate NodeOk(g: Graph, n: NodeId)
    requires n in g.nodes
  {
    && n.cycle < g.ii
    && NoDup(g.nodes[n].fanout) && NoDup(g.nodes[n].fanin)
    && (forall m :: m in g.nodes[n].fanout ==> m in g.nodes && n in g.nodes[m].fanin)
    && (forall m :: m in g.nodes[n].fanin ==> m in g.nodes && n in g.nodes[m].fanout)
  }

  ghost predicate WellFormed(g: Graph) {
    && g.ii > 0
    && forall n {:trigger NodeOk(g, n)} :: n in g.nodes ==> NodeOk(g, n)
  }

  /** Remainder by repeated subtraction, which spares the solver the
      arithmetic of % by a variable. */
  function Wrap(x: nat, ii: nat): (r: nat)
    requires ii > 0
    ensures r < ii
    ensures x < ii ==> r == x
  {
    if x < ii then x else Wrap(x - ii, ii)
  }

  lemma ModStep(x: nat, ii: nat)
    requires ii > 0 && x >= ii
    ensures x % ii == (x - ii) % ii
  {
    var q, r := (x - ii) / ii, (x - ii) % ii;
    assert x == (q + 1) * ii + r;
    ModUnique(x, ii, q + 1, r);
  }

  lemma ModUnique(x: nat, ii: nat, q: nat, r: nat)
    requires ii > 0 && x == q * ii + r && r < ii
    ensures x % ii == r && x / ii == q
  {
    var q', r' := x / ii, x % ii;
    assert x == q' * ii + r';
    MultipleGap(q, q', ii);
    MultipleGap(q', q, ii);
  }

  lemma {:induction false} MultipleGap(p: nat, q: nat, ii: nat)
    ensures p > q ==> p * ii >= q * ii + ii
  {
    if p > q + 1 {
      MultipleGap(p - 1, q, ii);
    }
    assert p > 0 ==> p * ii == (p - 1) * ii + ii;
  }

  lemma {:induction false} WrapIsMod(x: nat, ii: nat)
    requires ii > 0
    ensures Wrap(x, ii) == x % ii
  {
    if x >= ii {
      WrapIsMod(x - ii, ii);
      ModStep(x, ii);
    } else {
      ModUnique(x, ii, 0, x);
    }
  }

  /** The cycle in which a node's output is seen. */
  function OutputCycle(g: Graph, n: NodeId): nat
    requires g.ii > 0 && n in g.nodes
  {
    Wrap(n.cycle + g.nodes[n].latency, g.ii)
  }

  /** A link leads to the cycle that its driver's latency says. */
  ghost predicate CycleRule(g: Graph)
    requires g.ii > 0
  {
    forall n, m :: n in g.nodes && m in g.nodes[n].fanout ==> m.cycle == OutputCycle(g, n)
  }

  /** A node with several fanins is driven only by nodes that drive nothing else. */
  ghost predicate MuxExclusive(g: Graph)
    requires WellFormed(g)
  {
    forall n, m :: n in g.nodes && |g.nodes[n].fanin| > 1 && m in g.nodes[n].fanin ==>
      m in g.nodes && |g.nodes[m].fanout| <= 1
  }

  function Linked(nodes: map<NodeId, Node>, driver: NodeId, fanout: NodeId): map<NodeId, Node>
    requires driver in nodes && fanout in nodes
  {
    var driven := nodes[driver := nodes[driver].(fanout := nodes[driver].fanout + [fanout])];
    driven[fanout := driven[fanout].(fanin := driven[fanout].fanin + [driver])]
  }

  function Unlinked(nodes: map<NodeId, Node>, driver: NodeId, fanout: NodeId): map<NodeId, Node>
    requires driver in nodes && fanout in nodes
  {
    var cut := nodes[driver := nodes[driver].(fanout := RemoveFirst(nodes[driver].fanout, fanout))];
    cut[fanout := cut[fanout].(fanin := RemoveFirst(cut[fanout].fanin, driver))]
  }

  // The mutable graph.
  class MRRG {
    const ii: nat
    var nodes: map<NodeId, Node>

    function View(): Graph
      reads this
    {
      Graph(ii, nodes)
    }

    /** Copy construction: the copy of a node has the cycle and the name of the original. */
    constructor (src: Graph)
      ensures View() == src
    {
      ii := src.ii;
      nodes := src.nodes;
    }

    /** Stores the node unless its cycle and name are taken; the flag says which happened. */
    method Insert(id: NodeId, node: Node) returns (inserted: bool)
      requires id.cycle < ii
      modifies this
      ensures inserted <==> id !in old(nodes)
      ensures nodes == if inserted then old(nodes)[id := node] else old(nodes)
    {
      inserted := id !in nodes;
      if inserted {
        nodes := nodes[id := node];
      }
    }

    method Link(driver: NodeId, fanout: NodeId)
      requires driver in nodes && fanout in nodes
      modifies this
      ensures nodes == Linked(old(nodes), driver, fanout)
    {
      var d := nodes[driver];
      nodes := nodes[driver := d.(fanout := d.fanout + [fanout])];
      var f := nodes[fanout];
      nodes := nodes[fanout := f.(fanin := f.fanin + [driver])];
    }

    /** Fails, with the driver possibly already cut, when one of the two ends is missing. */
    method Unlink(driver: NodeId, fanout: NodeId) returns (ok: bool)
      requires driver in nodes && fanout in nodes
      modifies this
      ensures ok <==> fanout in old(nodes)[driver].fanout && driver in old(nodes)[fanout].fanin
      ensures ok ==> nodes == Unlinked(old(nodes), driver, fanout)
      ensures fanout !in old(nodes)[driver].fanout ==> nodes == old(nodes)
    {
      var d := nodes[driver];
      if fanout !in d.fanout {
        return false;
      }
      nodes := nodes[driver := d.(fanout := RemoveFirst(d.fanout, fanout))];
      var f := nodes[fanout];
      if driver !in f.fanin {
        return false;
      }
      nodes := nodes[fanout := f.(fanin := RemoveFirst(f.fanin, driver))];
      return true;
    }

    method InsertWithFanin(fanin: NodeId, id: NodeId, node: Node) returns (inserted: bool)
      requires id.cycle < ii && fanin in nodes
      modifies this
      ensures inserted <==> id !in old(nodes)
      ensures nodes == if inserted then Linked(old(nodes)[id := node], fanin, id) else old(nodes)
    {
      inserted := Insert(id, node);
      if inserted {
        Link(fanin, id);
      }
    }
  }

  /** computeNodeClassLists: a node that both routes and computes is in both lists. */
  method ComputeNodeClassLists(g: Graph) returns (functionNodes: seq<NodeId>, routingNodes: seq<NodeId>)
    ensures NoDup(functionNodes) && NoDup(routingNodes)
    ensures forall n :: n in functionNodes <==> n in g.nodes && !g.nodes[n].kind.Routing?
    ensures forall n :: n in routingNodes <==> n in g.nodes && !g.nodes[n].kind.Function?
  {
    functionNodes, routingNodes := [], [];
    var todo := g.nodes.Keys;
    while todo != {}
      invariant todo <= g.nodes.Keys
      invariant NoDup(functionNodes) && NoDup(routingNodes)
      invariant forall n :: n in functionNodes <==> n in g.nodes && n !in todo && !g.nodes[n].kind.Routing?
      invariant forall n :: n in routingNodes <==> n in g.nodes && n !in todo && !g.nodes[n].kind.Function?
      decreases todo
    {
      var n :| n in todo;
      todo := todo - {n};
      match g.nodes[n].kind
      case Function => functionNodes := functionNodes + [n];
      case Routing => routingNodes := routingNodes + [n];
      case RoutingFunction =>
        routingNodes := routingNodes + [n];
        functionNodes := functionNodes + [n];
    }
  }
}

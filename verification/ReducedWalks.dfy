// The walks of a reduced MRRG and those of its source between the nodes that
// survive correspond one to one, and take the same time.
module ReducedWalks {
  import opened Wrappers
  import opened Mrrg
  import opened Walks
  import opened OpGraphs
  import opened NodeMerges
  import opened Chains
  import opened Reduction

  /** A walk of the reduced graph, with the chain in place of every node but the last. */
  ghost function Expand(t: Partition, w: seq<NodeId>): (e: seq<NodeId>)
    requires forall i :: 0 <= i < |w| ==> w[i] in t.chain
  {
    if |w| < 2 then w else t.chain[w[0]] + Expand(t, w[1..])
  }

  /** A walk of the source, with only the nodes that survive. */
  ghost function Contract(g: Graph, w: seq<NodeId>): (c: seq<NodeId>)
    ensures forall n :: n in c <==> n in w && n in g.nodes
  {
    if w == [] then []
    else if w[0] in g.nodes then [w[0]] + Contract(g, w[1..])
    else Contract(g, w[1..])
  }

  lemma ContractSplit(g: Graph, a: seq<NodeId>, b: seq<NodeId>)
    ensures Contract(g, a + b) == Contract(g, a) + Contract(g, b)
  {
    if a == [] {
      assert a + b == b;
    } else {
      assert (a + b)[1..] == a[1..] + b;
      ContractSplit(g, a[1..], b);
    }
  }

  lemma {:induction false} ContractNothing(g: Graph, w: seq<NodeId>)
    requires forall i :: 0 <= i < |w| ==> w[i] !in g.nodes
    ensures Contract(g, w) == []
  {
    if w != [] {
      ContractNothing(g, w[1..]);
    }
  }

  lemma ContractChain(src: Graph, g: Graph, t: Partition, p: NodeId)
    requires Reduced(src, g, t) && p in g.nodes
    ensures Contract(g, t.chain[p]) == [p]
  {
    var c := t.chain[p];
    assert StandsFor(src, g, p, c);
    forall i | 0 <= i < |c[1..]|
      ensures c[1..][i] !in g.nodes
    {
      HeadsSurvive(src, g, t, p, i + 1);
    }
    ContractNothing(g, c[1..]);
  }

  /** Following a chain from its i-th node to its end, and on to m. */
  lemma {:induction false} ChainWalk(src: Graph, c: Chain, i: nat, e: seq<NodeId>)
    requires InARow(src, c) && i < |c| && IsWalk(src, e) && e[0] in src.nodes[End(c)].fanout
    ensures IsWalk(src, c[i..] + e) && Last(c[i..] + e) == Last(e)
    ensures Latency(src, c[i..] + e) == ChainLatency(src, c[i..]) + Latency(src, e)
    decreases |c| - i
  {
    assert c[i..] == [c[i]] + c[i + 1..];
    assert c[i..] + e == [c[i]] + (c[i + 1..] + e);
    if i + 1 < |c| {
      ChainWalk(src, c, i + 1, e);
      assert Exclusive(src, c[i], c[i + 1]);
    } else {
      assert c[i + 1..] + e == e;
    }
    WalkCons(src, c[i], c[i + 1..] + e);
  }

  // The same sum as TotalLatency, from the front.
  ghost function ChainLatency(src: Graph, c: Chain): nat
    requires InSource(src, c)
  {
    if c == [] then 0 else src.nodes[c[0]].latency + ChainLatency(src, c[1..])
  }

  lemma {:induction false} SumsAgree(src: Graph, c: Chain)
    requires InSource(src, c)
    ensures ChainLatency(src, c) == TotalLatency(src, c)
  {
    if c != [] {
      SumsAgree(src, c[1..]);
      TotalLatencyOfJoin(src, [c[0]], c[1..]);
      assert [c[0]] + c[1..] == c;
      assert [c[0]][..0] == [] && TotalLatency(src, []) == 0;
    }
  }

  ghost predicate Corresponds(src: Graph, g: Graph, t: Partition, w: seq<NodeId>, e: seq<NodeId>)
    requires t.chain.Keys == g.nodes.Keys
  {
    && IsWalk(g, w) && IsWalk(src, e) && e[0] == w[0] && Last(e) == Last(w)
    && Latency(src, e) == Latency(g, w)
    && Expand(t, w) == e && Contract(g, e) == w
  }

  lemma CorrespondsCons(src: Graph, g: Graph, t: Partition, p: NodeId, w: seq<NodeId>, e: seq<NodeId>)
    requires Reduced(src, g, t) && Corresponds(src, g, t, w, e) && p in g.nodes && w[0] in g.nodes[p].fanout
    ensures Corresponds(src, g, t, [p] + w, t.chain[p] + e)
  {
    var c := t.chain[p];
    assert StandsFor(src, g, p, c);
    assert c[0..] == c;
    ChainWalk(src, c, 0, e);
    SumsAgree(src, c);
    WalkCons(g, p, w);
    ContractChain(src, g, t, p);
    ContractSplit(g, c, e);
    assert ([p] + w)[1..] == w;
  }

  lemma OneNodeCorresponds(src: Graph, g: Graph, t: Partition, w: seq<NodeId>)
    requires Reduced(src, g, t) && IsWalk(g, w) && |w| == 1
    ensures Corresponds(src, g, t, w, w)
  {
    assert StandsFor(src, g, w[0], t.chain[w[0]]);
    assert w[1..] == [] && Contract(g, w[1..]) == [];
  }

  lemma ExpandStep(src: Graph, g: Graph, t: Partition, w: seq<NodeId>)
    requires Reduced(src, g, t) && |w| > 1 && w[0] in g.nodes && w[1] in g.nodes[w[0]].fanout
    requires forall i :: 0 <= i < |w| ==> w[i] in g.nodes
    requires Corresponds(src, g, t, w[1..], Expand(t, w[1..]))
    ensures Corresponds(src, g, t, w, Expand(t, w))
  {
    CorrespondsCons(src, g, t, w[0], w[1..], Expand(t, w[1..]));
    assert [w[0]] + w[1..] == w;
  }

  /** Every walk of the reduced graph is the image of exactly one source walk with the same ends and latency. */
  lemma {:induction false} ExpandCorresponds(src: Graph, g: Graph, t: Partition, w: seq<NodeId>)
    requires Reduced(src, g, t) && IsWalk(g, w)
    ensures Corresponds(src, g, t, w, Expand(t, w))
    decreases |w|
  {
    if |w| == 1 {
      OneNodeCorresponds(src, g, t, w);
    } else {
      WalkTail(g, w);
      ExpandCorresponds(src, g, t, w[1..]);
      ExpandStep(src, g, t, w);
    }
  }

  /** A source walk that starts within a chain and ends in a node that survives follows the chain to its end. */
  lemma {:induction false} FollowsChain(src: Graph, g: Graph, t: Partition, p: NodeId, i: nat, e: seq<NodeId>)
    requires Reduced(src, g, t) && p in g.nodes && i < |t.chain[p]| && IsWalk(src, e) && e[0] == t.chain[p][i]
    requires |e| > 1 && Last(e) in g.nodes
    ensures |e| > |t.chain[p]| - i && e[..|t.chain[p]| - i] == t.chain[p][i..]
    ensures e[|t.chain[p]| - i] in g.nodes[p].fanout
    decreases |t.chain[p]| - i
  {
    var c := t.chain[p];
    assert StandsFor(src, g, p, c);
    assert e[0 + 1] in src.nodes[e[0]].fanout;
    if i < |c| - 1 {
      assert Exclusive(src, c[i], c[i + 1]);
      HeadsSurvive(src, g, t, p, i + 1);
      WalkTail(src, e);
      FollowsChain(src, g, t, p, i + 1, e[1..]);
      assert e[..|c| - i] == [e[0]] + e[1..][..|c| - (i + 1)];
      assert c[i..] == [c[i]] + c[i + 1..];
    } else {
      assert e[..1] == [e[0]] && c[i..] == [c[i]];
    }
  }

  /** Every source walk between nodes that survive is the expansion of exactly one walk of the reduced graph. */
  lemma {:induction false} ContractCorresponds(src: Graph, g: Graph, t: Partition, e: seq<NodeId>)
    requires Reduced(src, g, t) && IsWalk(src, e) && e[0] in g.nodes && Last(e) in g.nodes
    ensures Corresponds(src, g, t, Contract(g, e), e)
    decreases |e|
  {
    var p := e[0];
    assert StandsFor(src, g, p, t.chain[p]);
    if |e| == 1 {
      assert e == [p] && Contract(g, e[1..]) == [];
    } else {
      var k := |t.chain[p]|;
      FollowsChain(src, g, t, p, 0, e);
      assert t.chain[p][0..] == t.chain[p];
      assert e == t.chain[p] + e[k..];
      WalkDrop(src, e, k);
      assert NodeOk(g, p);
      ContractCorresponds(src, g, t, e[k..]);
      CorrespondsCons(src, g, t, p, Contract(g, e[k..]), e[k..]);
      ContractChain(src, g, t, p);
      ContractSplit(g, t.chain[p], e[k..]);
    }
  }

  lemma WalkDrop(g: Graph, w: seq<NodeId>, k: nat)
    requires IsWalk(g, w) && k < |w|
    ensures IsWalk(g, w[k..]) && Last(w[k..]) == Last(w)
  {
    forall i | 0 <= i < |w[k..]| - 1
      ensures w[k..][i + 1] in g.nodes[w[k..][i]].fanout
    {
      assert w[k + i + 1] in g.nodes[w[k + i]].fanout;
    }
  }

  lemma {:induction false} ChainAllows(src: Graph, c: Chain, e: seq<NodeId>, tag: string)
    requires InSource(src, c) && InSource(src, e) && e != []
    ensures InSource(src, c + e)
    ensures AllButLastAllow(src, c + e, tag) <==> AllAllow(src, c, tag) && AllButLastAllow(src, e, tag)
  {
    if c == [] {
      assert c + e == e;
    } else {
      assert (c + e)[1..] == c[1..] + e;
      ChainAllows(src, c[1..], e, tag);
      assert [c[0]] + c[1..] == c;
      AllAllowJoin(src, [c[0]], c[1..], tag);
      assert AllAllow(src, [c[0]], tag) <==> NodeIsCompatibleWithOperand(src.nodes[[c[0]][0]], tag);
    }
  }

  lemma {:induction false} AllowancesAgree(src: Graph, g: Graph, t: Partition, w: seq<NodeId>, tag: string)
    requires Reduced(src, g, t) && IsWalk(g, w)
    ensures IsWalk(src, Expand(t, w))
    ensures AllButLastAllow(g, w, tag) <==> AllButLastAllow(src, Expand(t, w), tag)
    decreases |w|
  {
    ExpandCorresponds(src, g, t, w);
    if |w| > 1 {
      WalkTail(g, w);
      AllowancesAgree(src, g, t, w[1..], tag);
      assert StandsFor(src, g, w[0], t.chain[w[0]]);
      ChainAllows(src, t.chain[w[0]], Expand(t, w[1..]), tag);
    }
  }

  /** A walk of the reduced graph carries the same operands as its expansion. */
  lemma OperandsAgree(src: Graph, g: Graph, t: Partition, w: seq<NodeId>, tag: string)
    requires Reduced(src, g, t) && IsWalk(g, w)
    ensures IsWalk(src, Expand(t, w))
    ensures WalkIsCompatibleWithOperand(g, w, tag) == WalkIsCompatibleWithOperand(src, Expand(t, w), tag)
  {
    AllowancesAgree(src, g, t, w, tag);
    if |w| > 1 {
      assert StandsFor(src, g, w[0], t.chain[w[0]]);
      ExpandCorresponds(src, g, t, w);
      assert Expand(t, w[1..]) != [] by {
        WalkTail(g, w);
        ExpandCorresponds(src, g, t, w[1..]);
      }
    }
  }

  /** The merge of a node that leads back to its driver loses the loop between them. */
  lemma DroppedLinkLosesLoop(g: Graph, g': Graph, p: NodeId, n: NodeId)
    requires WellFormed(g) && Exclusive(g, p, n) && p != n && Merges(g, g', p, n) && p in g.nodes[n].fanout
    ensures IsWalk(g, [p, n, p]) && !IsWalk(g', [p, p])
  {
    var back := [p, p];
    assert back[0 + 1] !in g'.nodes[back[0]].fanout;
  }

  function Wire(fanout: seq<NodeId>, fanin: seq<NodeId>): Node {
    Node(Routing, 1, 32, [], {}, fanout, fanin)
  }

  function Feedback(p: NodeId, n: NodeId, y: NodeId): Graph {
    Graph(1, map[p := Wire([n], [n]), n := Wire([p, y], [p]), y := Wire([], [n])])
  }

  // The run has not merged n yet, or p has lost the link from n.
  ghost predicate LoopIsGone(g: Graph, p: NodeId, n: NodeId) {
    n !in g.nodes && p in g.nodes && g.nodes[p].fanin == []
  }

  lemma OnlyTheLoopIsMerged(p: NodeId, n: NodeId, y: NodeId, x: NodeId)
    requires p != n && n != y && p != y
    ensures ExclusiveDriver(Feedback(p, n, y), x) == if x == n then Some(p) else None
  {
  }

  lemma LoopStaysGone(g: Graph, p: NodeId, n: NodeId, x: NodeId)
    requires LoopIsGone(g, p, n) && Step(g, x).Some? && FaninsShrink(g, Step(g, x).value)
    requires Step(g, x).value == g || Step(g, x).value.nodes.Keys == g.nodes.Keys - {x}
    ensures LoopIsGone(Step(g, x).value, p, n)
  {
  }

  lemma StepLosesLoop(src: Graph, g: Graph, p: NodeId, n: NodeId, y: NodeId, x: NodeId)
    requires src == Feedback(p, n, y) && p != n && n != y && p != y && Kept(src, g) && Bare(g)
    requires g == src || LoopIsGone(g, p, n)
    ensures Step(g, x).Some? && Kept(src, Step(g, x).value) && Bare(Step(g, x).value)
    ensures (g == src && x != n && Step(g, x).value == src) || LoopIsGone(Step(g, x).value, p, n)
  {
    BareStep(src, g, x);
    if g != src {
      LoopStaysGone(g, p, n, x);
    } else {
      OnlyTheLoopIsMerged(p, n, y, x);
      if x == n {
        MergedGraphMerges(g, p, n);
        MergeShrinksFanins(g, MergedGraph(g, p, n), p, n, p);
      }
    }
  }

  lemma {:induction false} RunLosesLoop(src: Graph, g: Graph, p: NodeId, n: NodeId, y: NodeId, order: seq<NodeId>,
                                        i: nat)
    requires src == Feedback(p, n, y) && p != n && n != y && p != y && Kept(src, g) && Bare(g)
    requires i <= |order| && ((g == src && n in order[i..]) || LoopIsGone(g, p, n))
    ensures Reduce(g, order, i).Some? && LoopIsGone(Reduce(g, order, i).value, p, n)
    decreases |order| - i
  {
    if i < |order| {
      StepLosesLoop(src, g, p, n, y, order[i]);
      assert order[i..] == [order[i]] + order[i + 1..];
      RunLosesLoop(src, Step(g, order[i]).value, p, n, y, order, i + 1);
    }
  }

  lemma FeedbackIsWellFormed(p: NodeId, n: NodeId, y: NodeId)
    requires p != n && n != y && p != y && p.cycle == n.cycle == y.cycle == 0
    ensures var src := Feedback(p, n, y);
            && WellFormed(src) && CycleRule(src)
            && Exclusive(src, p, n) && !Exclusive(src, n, p) && ClosedChain(src, [p, n])
  {
    var src := Feedback(p, n, y);
    forall m | m in src.nodes
      ensures NodeOk(src, m)
    {
    }
    assert Exclusive(src, [p, n][0], [p, n][1]);
  }

  // The same with the loop kept, as a link from p to itself.
  function LoopKept(p: NodeId, y: NodeId): Graph {
    Graph(1, map[p := Wire([p, y], [p]).(latency := 2), y := Wire([], [p])])
  }

  function KeptChains(p: NodeId, n: NodeId, y: NodeId): Partition {
    Partition(map[p := [p, n], y := [y]], map[p := p, n := p, y := y])
  }

  lemma HeadStands(p: NodeId, n: NodeId, y: NodeId)
    requires p != n && n != y && p != y && p.cycle == n.cycle == y.cycle == 0
    ensures StandsFor(Feedback(p, n, y), LoopKept(p, y), p, [p, n])
  {
    var src, g, c := Feedback(p, n, y), LoopKept(p, y), [p, n];
    assert c[..1] == [p] && [p][..0] == [] && TotalLatency(src, []) == 0;
    assert TotalLatency(src, [p]) == 1 && TotalLatency(src, c) == 2;
    assert g.nodes[p].fanout == [p, y] == src.nodes[n].fanout;
  }

  lemma TailStands(p: NodeId, n: NodeId, y: NodeId)
    requires p != n && n != y && p != y && p.cycle == n.cycle == y.cycle == 0
    ensures StandsFor(Feedback(p, n, y), LoopKept(p, y), y, [y])
  {
    var src := Feedback(p, n, y);
    assert [y][..0] == [] && TotalLatency(src, []) == 0;
  }

  /** The loop need not be lost: the graph in which p drives itself is a lossless reduction. */
  lemma LoopCouldBeKept(p: NodeId, n: NodeId, y: NodeId)
    requires p != n && n != y && p != y && p.cycle == n.cycle == y.cycle == 0
    ensures Lossless(Feedback(p, n, y), LoopKept(p, y)) && p in LoopKept(p, y).nodes[p].fanout
  {
    var src, g, t := Feedback(p, n, y), LoopKept(p, y), KeptChains(p, n, y);
    FeedbackIsWellFormed(p, n, y);
    forall m | m in g.nodes
      ensures NodeOk(g, m)
    {
    }
    HeadStands(p, n, y);
    TailStands(p, n, y);
    assert Owns(t, p) && Owns(t, y) && Belongs(t, p) && Belongs(t, n) && Belongs(t, y);
    assert Reduced(src, g, t);
  }

  lemma FeedbackRun(src: Graph, p: NodeId, n: NodeId, y: NodeId, order: seq<NodeId>)
    requires src == Feedback(p, n, y) && p != n && n != y && p != y && WellFormed(src) && ClosedChain(src, [p, n])
    requires ListsRouting(src, order)
    ensures Reduce(src, order, 0).Some? && LoopIsGone(Reduce(src, order, 0).value, p, n)
    ensures !Lossless(src, Reduce(src, order, 0).value)
  {
    assert order[0..] == order;
    RunLosesLoop(src, src, p, n, y, order, 0);
    ReductionOutcome(src, order);
  }

  /** A wire p that feeds n, which feeds back to p and on to y, is such a case. The
      graph has a closed chain, and every run ends without an exception in a graph in
      which nothing drives p any more: the loop through p is lost. */
  lemma FeedbackIsAClosedChain() returns (src: Graph, p: NodeId, n: NodeId)
    ensures WellFormed(src) && CycleRule(src) && Exclusive(src, p, n) && p in src.nodes[n].fanout
    ensures !Exclusive(src, n, p) && ClosedChain(src, [p, n]) && IsWalk(src, [p, n, p])
    ensures forall order :: ListsRouting(src, order) ==>
              && Reduce(src, order, 0).Some?
              && !Lossless(src, Reduce(src, order, 0).value)
              && LoopIsGone(Reduce(src, order, 0).value, p, n)
  {
    p, n := NodeId(0, "p"), NodeId(0, "n");
    var y := NodeId(0, "y");
    src := Feedback(p, n, y);
    FeedbackIsWellFormed(p, n, y);
    forall order | ListsRouting(src, order) {
      FeedbackRun(src, p, n, y, order);
    }
  }
}

// Inserting mux nodes neither adds nor loses a walk between source nodes, and
// changes the latency of none and the operands that it carries of none.
module MuxExWalks {
  import opened Mrrg
  import opened Walks
  import opened OpGraphs
  import opened MuxExInsertion

  /** The detour that a source walk takes in the transformed graph. */
  ghost function Expand(s: Splits, w: seq<NodeId>): (e: seq<NodeId>) {
    if |w| < 2 then w
    else if (w[0], w[1]) in s.mux then [w[0]] + ([s.mux[(w[0], w[1])]] + Expand(s, w[1..]))
    else [w[0]] + Expand(s, w[1..])
  }

  /** A walk of the transformed graph with its mux nodes left out. */
  ghost function Contract(s: Splits, w: seq<NodeId>): (c: seq<NodeId>)
    ensures forall n :: n in c <==> n in w && n !in s.edge
  {
    if w == [] then []
    else if w[0] in s.edge then Contract(s, w[1..])
    else [w[0]] + Contract(s, w[1..])
  }

  /** Source walk w and transformed walk e are each other's image, with the
      same ends and the same latency. */
  ghost predicate Corresponds(src: Graph, g: Graph, s: Splits, w: seq<NodeId>, e: seq<NodeId>) {
    && IsWalk(src, w) && IsWalk(g, e)
    && e[0] == w[0] && Last(e) == Last(w)
    && Latency(g, e) == Latency(src, w)
    && Expand(s, w) == e && Contract(s, e) == w
  }

  lemma SourceNode(src: Graph, g: Graph, s: Splits, n: NodeId)
    requires Subdivides(src, g.nodes, s) && n in g.nodes
    ensures n in src.nodes <==> n !in s.edge
    ensures n in src.nodes ==> g.nodes[n].latency == src.nodes[n].latency
    ensures n in s.edge ==> s.edge[n].0 in src.nodes && g.nodes[n] == MuxNode(src, s.edge[n])
  {
    var kept := n in src.nodes && KeepsNode(src.nodes[n], g.nodes[n], s, n);
    var mux := n in s.edge && IsMux(src, s, g.nodes[n], n);
  }

  lemma ExpandCons(s: Splits, n: NodeId, w: seq<NodeId>)
    requires |w| > 0
    ensures (n, w[0]) in s.mux ==> Expand(s, [n] + w) == [n] + ([s.mux[(n, w[0])]] + Expand(s, w))
    ensures (n, w[0]) !in s.mux ==> Expand(s, [n] + w) == [n] + Expand(s, w)
  {
    assert ([n] + w)[1..] == w;
  }

  lemma ContractCons(s: Splits, n: NodeId, w: seq<NodeId>)
    ensures Contract(s, [n] + w) == if n in s.edge then Contract(s, w) else [n] + Contract(s, w)
  {
    assert ([n] + w)[1..] == w;
  }

  lemma ConsUnsplit(src: Graph, g: Graph, s: Splits, n: NodeId, w: seq<NodeId>, e: seq<NodeId>)
    requires WellFormed(src) && Subdivides(src, g.nodes, s) && Corresponds(src, g, s, w, e)
    requires n in src.nodes && w[0] in src.nodes[n].fanout && (n, w[0]) !in s.mux
    ensures Corresponds(src, g, s, [n] + w, [n] + e)
  {
    SourceNode(src, g, s, n);
    LinksAreSplitLinks(src, g, s, n, w[0]);
    WalkCons(src, n, w);
    WalkCons(g, n, e);
    ExpandCons(s, n, w);
    ContractCons(s, n, e);
  }

  lemma WalkThroughMux(src: Graph, g: Graph, s: Splits, n: NodeId, d: NodeId, e: seq<NodeId>)
    requires WellFormed(src) && Subdivides(src, g.nodes, s) && IsWalk(g, e)
    requires d in s.edge && s.edge[d] == (n, e[0])
    ensures n in src.nodes && IsWalk(g, [n] + ([d] + e)) && Last([n] + ([d] + e)) == Last(e)
    ensures Latency(g, [n] + ([d] + e)) == src.nodes[n].latency + Latency(g, e)
  {
    SourceNode(src, g, s, d);
    SourceNode(src, g, s, n);
    LinksAreSplitLinks(src, g, s, d, e[0]);
    LinksAreSplitLinks(src, g, s, n, d);
    WalkCons(g, d, e);
    WalkCons(g, n, [d] + e);
  }

  lemma DetourThroughMux(s: Splits, n: NodeId, d: NodeId, w: seq<NodeId>, e: seq<NodeId>)
    requires |w| > 0 && (n, w[0]) in s.mux && d == s.mux[(n, w[0])] && d in s.edge && n !in s.edge
    ensures Expand(s, [n] + w) == [n] + ([d] + Expand(s, w))
    ensures Contract(s, [n] + ([d] + e)) == [n] + Contract(s, e)
  {
    ExpandCons(s, n, w);
    ContractCons(s, d, e);
    ContractCons(s, n, [d] + e);
  }

  lemma ConsSplit(src: Graph, g: Graph, s: Splits, n: NodeId, d: NodeId, w: seq<NodeId>, e: seq<NodeId>)
    requires WellFormed(src) && Subdivides(src, g.nodes, s) && Corresponds(src, g, s, w, e)
    requires n in src.nodes && w[0] in src.nodes[n].fanout && (n, w[0]) in s.mux && d == s.mux[(n, w[0])]
    ensures Corresponds(src, g, s, [n] + w, [n] + ([d] + e))
  {
    SourceNode(src, g, s, n);
    DetourThroughMux(s, n, d, w, e);
    WalkThroughMux(src, g, s, n, d, e);
    WalkCons(src, n, w);
  }

  lemma SingleNode(src: Graph, g: Graph, s: Splits, n: NodeId)
    requires Subdivides(src, g.nodes, s) && n in src.nodes
    ensures Corresponds(src, g, s, [n], [n])
  {
    SourceNode(src, g, s, n);
    ContractCons(s, n, []);
  }

  /** Every source walk has exactly its expansion for an image. */
  lemma {:induction false} ExpandCorresponds(src: Graph, g: Graph, s: Splits, w: seq<NodeId>)
    requires WellFormed(src) && Subdivides(src, g.nodes, s) && IsWalk(src, w)
    ensures Corresponds(src, g, s, w, Expand(s, w))
    decreases |w|
  {
    if |w| == 1 {
      SingleNode(src, g, s, w[0]);
    } else {
      WalkTail(src, w);
      ExpandCorresponds(src, g, s, w[1..]);
      assert w == [w[0]] + w[1..];
      if (w[0], w[1]) in s.mux {
        ConsSplit(src, g, s, w[0], s.mux[(w[0], w[1])], w[1..], Expand(s, w[1..]));
      } else {
        ConsUnsplit(src, g, s, w[0], w[1..], Expand(s, w[1..]));
      }
    }
  }

  /** Every transformed walk between source nodes comes from exactly its contraction. */
  lemma {:induction false} ContractCorresponds(src: Graph, g: Graph, s: Splits, w: seq<NodeId>)
    requires WellFormed(src) && Subdivides(src, g.nodes, s) && IsWalk(g, w)
    requires w[0] in src.nodes && Last(w) in src.nodes
    ensures Corresponds(src, g, s, Contract(s, w), w)
    decreases |w|
  {
    if |w| == 1 {
      SingleNode(src, g, s, w[0]);
    } else {
      WalkTail(g, w);
      LinksAreSplitLinks(src, g, s, w[0], w[1]);
      SourceNode(src, g, s, w[0]);
      SourceNode(src, g, s, w[1]);
      assert w == [w[0]] + w[1..];
      if w[1] in src.nodes {
        ContractCorresponds(src, g, s, w[1..]);
        ConsUnsplit(src, g, s, w[0], Contract(s, w[1..]), w[1..]);
      } else {
        var d := w[1];
        var known := IsMux(src, s, g.nodes[d], d);
        WalkTail(g, w[1..]);
        assert w[1..] == [d] + w[2..];
        assert w[2..] == w[1..][1..];
        ContractCorresponds(src, g, s, w[2..]);
        ConsSplit(src, g, s, w[0], d, Contract(s, w[2..]), w[2..]);
      }
    }
  }

  /** Every inserted node stands in a link from a node with several fanouts to one with
      several fanins, and has the bit width of the node that drives it. */
  lemma InsertedNode(src: Graph, g: Graph, s: Splits, d: NodeId) returns (u: NodeId, v: NodeId)
    requires WellFormed(src) && Subdivides(src, g.nodes, s) && MuxCycles(src, s) && d in g.nodes && d !in src.nodes
    ensures u in src.nodes && v in src.nodes && v in src.nodes[u].fanout
    ensures |src.nodes[u].fanout| > 1 && |src.nodes[v].fanin| > 1
    ensures g.nodes[d].fanin == [u] && g.nodes[d].fanout == [v]
    ensures g.nodes[d].kind.Routing? && g.nodes[d].latency == 0 && g.nodes[d].supportedOps == []
    ensures g.nodes[d].bitwidth == src.nodes[u].bitwidth
    ensures d.cycle == (u.cycle + src.nodes[u].latency) % src.ii
  {
    SourceNode(src, g, s, d);
    assert IsMux(src, s, g.nodes[d], d);
    u, v := s.edge[d].0, s.edge[d].1;
    WrapIsMod(u.cycle + src.nodes[u].latency, src.ii);
  }

  /** A source node lets the same operands through as before, and a mux node lets all through. */
  lemma NodesAllow(src: Graph, g: Graph, s: Splits, n: NodeId, tag: string)
    requires Subdivides(src, g.nodes, s) && n in g.nodes
    ensures n in src.nodes ==>
              (NodeIsCompatibleWithOperand(g.nodes[n], tag) <==> NodeIsCompatibleWithOperand(src.nodes[n], tag))
    ensures n !in src.nodes ==> NodeIsCompatibleWithOperand(g.nodes[n], tag)
  {
    SourceNode(src, g, s, n);
    var kept := n in src.nodes && KeepsNode(src.nodes[n], g.nodes[n], s, n);
  }

  lemma AllowCons(g: Graph, n: NodeId, w: seq<NodeId>, tag: string)
    requires n in g.nodes && w != [] && forall i :: 0 <= i < |w| ==> w[i] in g.nodes
    ensures forall i :: 0 <= i < |[n] + w| ==> ([n] + w)[i] in g.nodes
    ensures AllButLastAllow(g, [n] + w, tag) <==>
              NodeIsCompatibleWithOperand(g.nodes[n], tag) && AllButLastAllow(g, w, tag)
  {
    assert ([n] + w)[1..] == w;
  }

  lemma DetourAllows(src: Graph, g: Graph, s: Splits, n: NodeId, m: NodeId, e: seq<NodeId>, tag: string)
    requires WellFormed(src) && Subdivides(src, g.nodes, s) && n in src.nodes && IsWalk(g, e) && (n, m) in s.mux
    ensures var d := s.mux[(n, m)];
            && d in g.nodes && n in g.nodes && (forall i :: 0 <= i < |[n] + ([d] + e)| ==> ([n] + ([d] + e))[i] in g.nodes)
            && (AllButLastAllow(g, [n] + ([d] + e), tag) <==>
                 NodeIsCompatibleWithOperand(src.nodes[n], tag) && AllButLastAllow(g, e, tag))
  {
    var d := s.mux[(n, m)];
    SourceNode(src, g, s, d);
    NodesAllow(src, g, s, d, tag);
    NodesAllow(src, g, s, n, tag);
    AllowCons(g, d, e, tag);
    AllowCons(g, n, [d] + e, tag);
  }

  lemma {:induction false} AllowancesAgree(src: Graph, g: Graph, s: Splits, w: seq<NodeId>, tag: string)
    requires WellFormed(src) && Subdivides(src, g.nodes, s) && IsWalk(src, w)
    ensures IsWalk(g, Expand(s, w))
    ensures AllButLastAllow(src, w, tag) <==> AllButLastAllow(g, Expand(s, w), tag)
    decreases |w|
  {
    ExpandCorresponds(src, g, s, w);
    if |w| > 1 {
      WalkTail(src, w);
      AllowancesAgree(src, g, s, w[1..], tag);
      if (w[0], w[1]) in s.mux {
        DetourAllows(src, g, s, w[0], w[1], Expand(s, w[1..]), tag);
      } else {
        NodesAllow(src, g, s, w[0], tag);
        AllowCons(g, w[0], Expand(s, w[1..]), tag);
      }
    }
  }

  /** A source walk and its detour carry the same operands. */
  lemma OperandsAgree(src: Graph, g: Graph, s: Splits, w: seq<NodeId>, tag: string)
    requires WellFormed(src) && Subdivides(src, g.nodes, s) && IsWalk(src, w)
    ensures IsWalk(g, Expand(s, w))
    ensures WalkIsCompatibleWithOperand(src, w, tag) == WalkIsCompatibleWithOperand(g, Expand(s, w), tag)
  {
    ExpandCorresponds(src, g, s, w);
    AllowancesAgree(src, g, s, w, tag);
    if |w| > 1 {
      assert |Expand(s, w)| > 1;
    }
  }
}

// muxExNodeInsertion: puts a fresh routing node into every link that leads
// from a node with several fanouts to a node with several fanins.
module MuxExInsertion {
  import opened Seqs
  import opened Mrrg
  import opened InterMrrgMap

  type Edge = (NodeId, NodeId)

  const MUX_PREFIX := "mux_ex_insert_"

  function Digits(i: nat): string {
    if i < 10 then ["0123456789"[i]] else Digits(i / 10) + ["0123456789"[i % 10]]
  }

  lemma {:induction false} DigitsInjective(i: nat, j: nat)
    requires Digits(i) == Digits(j)
    ensures i == j
    decreases i
  {
    assert Digits(i)[|Digits(i)| - 1] == "0123456789"[i % 10];
    assert Digits(j)[|Digits(j)| - 1] == "0123456789"[j % 10];
    DigitInjective(i % 10, j % 10);
    if i >= 10 && j >= 10 {
      assert Digits(i)[..|Digits(i)| - 1] == Digits(i / 10);
      assert Digits(j)[..|Digits(j)| - 1] == Digits(j / 10);
      DigitsInjective(i / 10, j / 10);
    } else {
      assert |Digits(i)| == |Digits(j)|;
      DigitsLength(i);
      DigitsLength(j);
    }
  }

  lemma DigitInjective(i: nat, j: nat)
    requires i < 10 && j < 10 && "0123456789"[i] == "0123456789"[j]
    ensures i == j
  {
  }

  lemma DigitsLength(i: nat)
    ensures |Digits(i)| == 1 <==> i < 10
    ensures |Digits(i)| > 0
  {
  }

  function MuxName(i: nat): string {
    MUX_PREFIX + Digits(i)
  }

  lemma MuxNameInjective(i: nat, j: nat)
    requires MuxName(i) == MuxName(j)
    ensures i == j
  {
    assert MuxName(i)[|MUX_PREFIX|..] == Digits(i);
    assert MuxName(j)[|MUX_PREFIX|..] == Digits(j);
    DigitsInjective(i, j);
  }

  ghost predicate NeedsMux(g: Graph, u: NodeId, v: NodeId) {
    && u in g.nodes && |g.nodes[u].fanout| > 1 && v in g.nodes[u].fanout
    && v in g.nodes && |g.nodes[v].fanin| > 1
  }

  function MuxNode(g: Graph, p: Edge): Node
    requires p.0 in g.nodes
  {
    Node(Routing, 0, g.nodes[p.0].bitwidth, [], {}, [p.1], [p.0])
  }

  // Which links are split, and by which node: two maps, one the inverse of the other.
  datatype Splits = Splits(mux: map<Edge, NodeId>, edge: map<NodeId, Edge>)
  {
    ghost predicate Inverse() {
      && (forall p :: p in mux ==> mux[p] in edge && edge[mux[p]] == p)
      && (forall d :: d in edge ==> edge[d] in mux && mux[edge[d]] == d)
    }

    ghost function With(p: Edge, d: NodeId): Splits {
      Splits(mux[p := d], edge[d := p])
    }
  }

  /** A neighbour list in which those in cut have gone and those in muxes have come. */
  ghost predicate Rerouted(before: seq<NodeId>, after: seq<NodeId>, cut: set<NodeId>, muxes: set<NodeId>) {
    && NoDup(after) && |after| == |before|
    && forall m :: m in after <==> (m in before && m !in cut) || m in muxes
  }

  ghost function CutOut(s: Splits, a: Node, n: NodeId): set<NodeId> {
    set m | m in a.fanout && (n, m) in s.mux
  }

  ghost function MuxOut(s: Splits, n: NodeId): set<NodeId> {
    set d | d in s.edge && s.edge[d].0 == n
  }

  ghost function CutIn(s: Splits, a: Node, n: NodeId): set<NodeId> {
    set m | m in a.fanin && (m, n) in s.mux
  }

  ghost function MuxIn(s: Splits, n: NodeId): set<NodeId> {
    set d | d in s.edge && s.edge[d].1 == n
  }

  /** A source node a is left as it was in b, except that every split link now
      leads through its mux node. */
  ghost predicate KeepsNode(a: Node, b: Node, s: Splits, n: NodeId) {
    && SameProperties(a, b)
    && Rerouted(a.fanout, b.fanout, CutOut(s, a, n), MuxOut(s, n))
    && Rerouted(a.fanin, b.fanin, CutIn(s, a, n), MuxIn(s, n))
  }

  ghost predicate IsMux(src: Graph, s: Splits, b: Node, d: NodeId)
    requires d in s.edge
  {
    var p := s.edge[d];
    d !in src.nodes && NeedsMux(src, p.0, p.1) && b == MuxNode(src, p)
  }

  /** A mux node sits in the cycle in which the value of its driver arrives. */
  ghost predicate MuxCycles(src: Graph, s: Splits)
    requires src.ii > 0
  {
    forall d :: d in s.edge ==> s.edge[d].0 in src.nodes && d.cycle == OutputCycle(src, s.edge[d].0)
  }

  /** The links in s, and no others, are split by a node of their own. */
  ghost predicate Subdivides(src: Graph, nodes: map<NodeId, Node>, s: Splits) {
    && s.Inverse()
    && nodes.Keys == src.nodes.Keys + s.edge.Keys
    && (forall d {:trigger IsMux(src, s, nodes[d], d)} :: d in s.edge ==> IsMux(src, s, nodes[d], d))
    && (forall n {:trigger KeepsNode(src.nodes[n], nodes[n], s, n)} ::
         n in src.nodes ==> KeepsNode(src.nodes[n], nodes[n], s, n))
  }

  /** Every link that breaks mux exclusivity is among the split ones. */
  ghost predicate Complete(src: Graph, s: Splits) {
    forall u, v :: NeedsMux(src, u, v) ==> (u, v) in s.mux
  }

  /** The graph that a round leaves: link (u, v) replaced by u, id, v. */
  ghost predicate SplitShape(nodes: map<NodeId, Node>, split: map<NodeId, Node>, u: NodeId, v: NodeId,
                             id: NodeId, mux: Node) {
    && split.Keys == nodes.Keys + {id}
    && split[id] == mux
    && (forall n {:trigger split[n]} :: n in nodes ==> split[n] == nodes[n].(
         fanout := if n == u then RemoveFirst(nodes[n].fanout, v) + [id] else nodes[n].fanout,
         fanin := if n == v then RemoveFirst(nodes[n].fanin, u) + [id] else nodes[n].fanin))
  }

  lemma SplitHasShape(nodes: map<NodeId, Node>, u: NodeId, v: NodeId, id: NodeId, bare: Node)
    requires u in nodes && v in nodes && id !in nodes && bare.fanin == bare.fanout == []
    ensures SplitShape(nodes, Linked(Linked(Unlinked(nodes, u, v)[id := bare], u, id), id, v),
                       u, v, id, bare.(fanin := [u], fanout := [v]))
  {
  }

  lemma RerouteOne(before: seq<NodeId>, after: seq<NodeId>, cut: set<NodeId>, muxes: set<NodeId>, m: NodeId, id: NodeId)
    requires Rerouted(before, after, cut, muxes)
    requires m in before && m !in cut && m !in muxes && id !in before && id !in muxes
    ensures Rerouted(before, RemoveFirst(after, m) + [id], cut + {m}, muxes + {id})
  {
    RemoveFirstNoDup(after, m);
    AppendNoDup(RemoveFirst(after, m), id);
  }

  lemma NeighboursAfterSplit(a: Node, s: Splits, u: NodeId, v: NodeId, id: NodeId, n: NodeId)
    requires id !in s.edge
    requires n == u ==> v in a.fanout
    requires n == v ==> u in a.fanin
    ensures var s' := s.With((u, v), id);
            && CutOut(s', a, n) == CutOut(s, a, n) + (if n == u then {v} else {})
            && MuxOut(s', n) == MuxOut(s, n) + (if n == u then {id} else {})
            && CutIn(s', a, n) == CutIn(s, a, n) + (if n == v then {u} else {})
            && MuxIn(s', n) == MuxIn(s, n) + (if n == v then {id} else {})
  {
  }

  lemma RerouteNode(a: Node, b: Node, s: Splits, u: NodeId, v: NodeId, id: NodeId, n: NodeId)
    requires KeepsNode(a, b, s, n) && (u, v) !in s.mux && id !in s.edge
    requires u !in s.edge && v !in s.edge && id !in a.fanout && id !in a.fanin
    requires n == u ==> v in a.fanout
    requires n == v ==> u in a.fanin
    ensures KeepsNode(a, b.(
                        fanout := if n == u then RemoveFirst(b.fanout, v) + [id] else b.fanout,
                        fanin := if n == v then RemoveFirst(b.fanin, u) + [id] else b.fanin), s.With((u, v), id), n)
  {
    NeighboursAfterSplit(a, s, u, v, id, n);
    if n == u {
      RerouteOne(a.fanout, b.fanout, CutOut(s, a, n), MuxOut(s, n), v, id);
    }
    if n == v {
      RerouteOne(a.fanin, b.fanin, CutIn(s, a, n), MuxIn(s, n), u, id);
    }
  }

  lemma WithKeepsInverse(s: Splits, p: Edge, d: NodeId)
    requires s.Inverse() && p !in s.mux && d !in s.edge
    ensures s.With(p, d).Inverse()
    ensures s.With(p, d).edge.Keys == s.edge.Keys + {d}
  {
  }

  lemma SplitKeepsNode(src: Graph, nodes: map<NodeId, Node>, split: map<NodeId, Node>, s: Splits,
                       u: NodeId, v: NodeId, id: NodeId, n: NodeId)
    requires WellFormed(src) && Subdivides(src, nodes, s)
    requires NeedsMux(src, u, v) && (u, v) !in s.mux && id !in nodes
    requires SplitShape(nodes, split, u, v, id, MuxNode(src, (u, v)))
    requires n in src.nodes
    ensures KeepsNode(src.nodes[n], split[n], s.With((u, v), id), n)
  {
    var known, ok := KeepsNode(src.nodes[n], nodes[n], s, n), NodeOk(src, n);
    SplitEnds(src, nodes, s, u, v);
    RerouteNode(src.nodes[n], nodes[n], s, u, v, id, n);
  }

  lemma SplitKeepsMux(src: Graph, nodes: map<NodeId, Node>, split: map<NodeId, Node>, s: Splits,
                      u: NodeId, v: NodeId, id: NodeId, d: NodeId)
    requires Subdivides(src, nodes, s)
    requires NeedsMux(src, u, v) && id !in nodes
    requires SplitShape(nodes, split, u, v, id, MuxNode(src, (u, v)))
    requires d in s.With((u, v), id).edge
    ensures IsMux(src, s.With((u, v), id), split[d], d)
  {
    if d != id {
      var known := IsMux(src, s, nodes[d], d);
      assert s.With((u, v), id).edge[d] == s.edge[d];
    }
  }

  lemma SplitEnds(src: Graph, nodes: map<NodeId, Node>, s: Splits, u: NodeId, v: NodeId)
    requires WellFormed(src) && Subdivides(src, nodes, s)
    requires NeedsMux(src, u, v) && (u, v) !in s.mux
    ensures v in nodes[u].fanout && u in nodes[v].fanin && u !in s.edge && v !in s.edge
    ensures v in src.nodes[u].fanout && u in src.nodes[v].fanin
  {
    assert NodeOk(src, u);
    assert KeepsNode(src.nodes[u], nodes[u], s, u) && KeepsNode(src.nodes[v], nodes[v], s, v);
    assert u in s.edge ==> IsMux(src, s, nodes[u], u);
    assert v in s.edge ==> IsMux(src, s, nodes[v], v);
  }

  /** One round of the insertion loop. */
  lemma SplitStep(src: Graph, nodes: map<NodeId, Node>, split: map<NodeId, Node>, s: Splits, u: NodeId,
                  v: NodeId, id: NodeId)
    requires WellFormed(src) && Subdivides(src, nodes, s)
    requires NeedsMux(src, u, v) && (u, v) !in s.mux && id !in nodes
    requires SplitShape(nodes, split, u, v, id, MuxNode(src, (u, v)))
    ensures Subdivides(src, split, s.With((u, v), id))
  {
    WithKeepsInverse(s, (u, v), id);
    assert split.Keys == src.nodes.Keys + s.With((u, v), id).edge.Keys;
    forall n | n in src.nodes {
      SplitKeepsNode(src, nodes, split, s, u, v, id, n);
    }
    forall d | d in s.With((u, v), id).edge {
      SplitKeepsMux(src, nodes, split, s, u, v, id, d);
    }
  }

  method InsertionEdges(src: Graph) returns (edges: seq<Edge>)
    requires WellFormed(src)
    ensures NoDup(edges)
    ensures forall u, v :: (u, v) in edges <==> NeedsMux(src, u, v)
  {
    edges := [];
    var todo := src.nodes.Keys;
    while todo != {}
      invariant todo <= src.nodes.Keys
      invariant NoDup(edges)
      invariant forall u, v :: (u, v) in edges <==> u !in todo && NeedsMux(src, u, v)
      decreases todo
    {
      var n :| n in todo;
      todo := todo - {n};
      assert NodeOk(src, n);
      var fanout := src.nodes[n].fanout;
      if |fanout| > 1 {
        for i := 0 to |fanout|
          invariant NoDup(edges)
          invariant forall u, v :: (u, v) in edges <==>
                      (u !in todo && u != n && NeedsMux(src, u, v)) ||
                      (u == n && v in fanout[..i] && NeedsMux(src, u, v))
        {
          assert fanout[..i + 1] == fanout[..i] + [fanout[i]];
          assert fanout[i] !in fanout[..i];
          if |src.nodes[fanout[i]].fanin| > 1 {
            edges := edges + [(n, fanout[i])];
          }
        }
        assert fanout[..|fanout|] == fanout;
      }
    }
  }

  lemma NothingSplit(src: Graph)
    requires WellFormed(src)
    ensures Subdivides(src, src.nodes, Splits(map[], map[]))
  {
    forall n | n in src.nodes
      ensures KeepsNode(src.nodes[n], src.nodes[n], Splits(map[], map[]), n)
    {
      assert NodeOk(src, n);
    }
  }

  /** The body of the insertion loop: cuts one link and leads it through a new node. */
  method SplitEdge(src: Graph, transformed: MRRG, p: Edge, name: string, ghost s: Splits) returns (id: NodeId)
    requires WellFormed(src) && transformed.ii == src.ii && Subdivides(src, transformed.nodes, s)
    requires NeedsMux(src, p.0, p.1) && p !in s.mux
    requires NodeId(OutputCycle(src, p.0), name) !in transformed.nodes
    modifies transformed
    ensures id == NodeId(OutputCycle(src, p.0), name)
    ensures Subdivides(src, transformed.nodes, s.With(p, id))
  {
    var (first, second) := p;
    SplitEnds(src, transformed.nodes, s, first, second);
    ghost var before := transformed.nodes;
    id := NodeId(OutputCycle(src, first), name);
    var ok := transformed.Unlink(first, second);
    var inserted := transformed.InsertWithFanin(
      first, id, Node(Routing, 0, src.nodes[first].bitwidth, [], {}, [], []));
    transformed.Link(id, second);
    SplitHasShape(before, first, second, id, MuxNode(src, p).(fanin := [], fanout := []));
    SplitStep(src, before, transformed.nodes, s, first, second, id);
  }

  method MuxExNodeInsertion(src: Graph)
    returns (transformed: MRRG, mapping: InterMRRGMap, ghost s: Splits)
    requires WellFormed(src)
    requires forall n :: n in src.nodes ==> !(MUX_PREFIX <= n.name)
    ensures fresh(transformed) && fresh(mapping)
    ensures transformed.ii == src.ii
    ensures Subdivides(src, transformed.nodes, s) && Complete(src, s) && MuxCycles(src, s)
    ensures Converse(mapping.forward, mapping.backward)
    ensures forall a, b :: b in Related(mapping.backward, a) <==> a == b && a in src.nodes
  {
    transformed := new MRRG(src);
    var insertionEdges := InsertionEdges(src);
    s := Splits(map[], map[]);
    NothingSplit(src);
    for i := 0 to |insertionEdges|
      invariant fresh(transformed) && transformed.ii == src.ii
      invariant Subdivides(src, transformed.nodes, s) && MuxCycles(src, s)
      invariant forall p :: p in s.mux <==> p in insertionEdges[..i]
      invariant forall d :: d in s.edge ==> exists j: nat :: j < i && d.name == MuxName(j)
    {
      var p := insertionEdges[i];
      assert insertionEdges[..i + 1] == insertionEdges[..i] + [p];
      assert NeedsMux(src, p.0, p.1) by {
        assert (p.0, p.1) in insertionEdges;
      }
      FreshMuxName(src, transformed.nodes, s, i, NodeId(OutputCycle(src, p.0), MuxName(i)));
      var id := SplitEdge(src, transformed, p, MuxName(i), s);
      s := s.With(p, id);
    }
    assert insertionEdges[..|insertionEdges|] == insertionEdges;
    AllSplit(src, insertionEdges, s);
    mapping := new InterMRRGMap();
    mapping.AddAllByMatchingProperties(src, transformed.View());
    ConverseOfIdentity(mapping.forward, mapping.backward, src.nodes.Keys);
  }

  lemma AllSplit(src: Graph, edges: seq<Edge>, s: Splits)
    requires forall u, v :: (u, v) in edges <==> NeedsMux(src, u, v)
    requires forall p :: p in s.mux <==> p in edges
    ensures Complete(src, s)
  {
    forall u, v | NeedsMux(src, u, v)
      ensures (u, v) in s.mux
    {
      assert (u, v) in edges;
    }
  }

  lemma FreshMuxName(src: Graph, nodes: map<NodeId, Node>, s: Splits, i: nat, id: NodeId)
    requires nodes.Keys == src.nodes.Keys + s.edge.Keys && id.name == MuxName(i)
    requires forall n :: n in src.nodes ==> !(MUX_PREFIX <= n.name)
    requires forall d :: d in s.edge ==> exists j: nat :: j < i && d.name == MuxName(j)
    ensures id !in nodes
  {
    if id in s.edge {
      var j: nat :| j < i && id.name == MuxName(j);
      MuxNameInjective(i, j);
    }
  }

  /** All links of the transformed graph, seen from the source. */
  ghost predicate SplitLink(src: Graph, s: Splits, n: NodeId, m: NodeId) {
    || (n in src.nodes && m in src.nodes[n].fanout && (n, m) !in s.mux)
    || (m in s.edge && s.edge[m].0 == n)
    || (n in s.edge && s.edge[n].1 == m)
  }

  lemma LinksAreSplitLinks(src: Graph, g: Graph, s: Splits, n: NodeId, m: NodeId)
    requires WellFormed(src) && Subdivides(src, g.nodes, s)
    ensures SplitLink(src, s, n, m) ==> n in g.nodes && m in g.nodes
    ensures n in g.nodes ==> (m in g.nodes[n].fanout <==> SplitLink(src, s, n, m))
    ensures m in g.nodes ==> (n in g.nodes[m].fanin <==> SplitLink(src, s, n, m))
  {
    assert n in src.nodes ==> NodeOk(src, n) && KeepsNode(src.nodes[n], g.nodes[n], s, n);
    assert m in src.nodes ==> NodeOk(src, m) && KeepsNode(src.nodes[m], g.nodes[m], s, m);
    assert n in s.edge ==> IsMux(src, s, g.nodes[n], n);
    assert m in s.edge ==> IsMux(src, s, g.nodes[m], m);
  }

  /** The transformed graph is again well formed and keeps the cycle rule. */
  lemma SubdivisionIsWellFormed(src: Graph, g: Graph, s: Splits)
    requires WellFormed(src) && g.ii == src.ii && Subdivides(src, g.nodes, s) && MuxCycles(src, s)
    ensures WellFormed(g)
    ensures CycleRule(src) ==> CycleRule(g)
  {
    forall n | n in g.nodes
      ensures NodeOk(g, n)
    {
      assert n in src.nodes ==> NodeOk(src, n) && KeepsNode(src.nodes[n], g.nodes[n], s, n);
      assert n in s.edge ==> IsMux(src, s, g.nodes[n], n);
      forall m
        ensures m in g.nodes[n].fanout ==> m in g.nodes && n in g.nodes[m].fanin
        ensures m in g.nodes[n].fanin ==> m in g.nodes && n in g.nodes[m].fanout
      {
        LinksAreSplitLinks(src, g, s, n, m);
        LinksAreSplitLinks(src, g, s, m, n);
      }
    }
    if CycleRule(src) {
      forall n, m | n in g.nodes && m in g.nodes[n].fanout
        ensures m.cycle == OutputCycle(g, n)
      {
        LinksAreSplitLinks(src, g, s, n, m);
        SplitLinkCycle(src, g, s, n, m);
      }
    }
  }

  lemma SplitLinkCycle(src: Graph, g: Graph, s: Splits, n: NodeId, m: NodeId)
    requires WellFormed(src) && CycleRule(src) && g.ii == src.ii && Subdivides(src, g.nodes, s) && MuxCycles(src, s)
    requires SplitLink(src, s, n, m) && n in g.nodes
    ensures m.cycle == OutputCycle(g, n)
  {
    var muxes := (m in s.edge && IsMux(src, s, g.nodes[m], m), n in s.edge && IsMux(src, s, g.nodes[n], n));
    if n in s.edge {
      assert s.edge[n].1 in src.nodes[s.edge[n].0].fanout;
    } else {
      var kept := KeepsNode(src.nodes[n], g.nodes[n], s, n);
    }
  }

  /** The mux exclusivity check always passes after the insertion. */
  lemma InsertionMakesMuxExclusive(src: Graph, g: Graph, s: Splits)
    requires WellFormed(src) && g.ii == src.ii && Subdivides(src, g.nodes, s) && MuxCycles(src, s)
    requires Complete(src, s)
    ensures WellFormed(g) && MuxExclusive(g)
  {
    SubdivisionIsWellFormed(src, g, s);
    forall n, m | n in g.nodes && |g.nodes[n].fanin| > 1 && m in g.nodes[n].fanin
      ensures m in g.nodes && |g.nodes[m].fanout| <= 1
    {
      LinksAreSplitLinks(src, g, s, m, n);
      assert NodeOk(g, n);
      assert m in s.edge ==> IsMux(src, s, g.nodes[m], m);
      assert n in s.edge ==> IsMux(src, s, g.nodes[n], n);
      if m in src.nodes && n in src.nodes {
        assert KeepsNode(src.nodes[n], g.nodes[n], s, n) && KeepsNode(src.nodes[m], g.nodes[m], s, m);
        assert !NeedsMux(src, m, n);
      }
    }
  }
}

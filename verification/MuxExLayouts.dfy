// Inserting mux nodes loses no mapping: what can be laid out on the source MRRG
// can be laid out on the transformed one.
module MuxExLayouts {
  import opened Seqs
  import opened Mrrg
  import opened Walks
  import opened OpGraphs
  import opened MuxExInsertion
  import opened MuxExWalks
  import opened IlpModel
  import opened IlpCompleteness

  /** The route with the mux nodes on it, the last of which may stand before the unit of the sink. */
  ghost function Detour(s: Splits, w: seq<NodeId>, to: NodeId): seq<NodeId> {
    var e := Expand(s, w + [to]);
    if e == [] then [] else e[..|e| - 1]
  }

  ghost function Detoured(p: Problem, s: Splits, l: Layout): Layout
    requires Consistent(p.og) && Shaped(p, l)
  {
    Layout(
      l.place,
      seq(|p.og.vals|, v requires 0 <= v < |p.og.vals| =>
        seq(Fanouts(p, v), i requires 0 <= i < Fanouts(p, v) =>
          Detour(s, l.routes[v][i], l.place[p.og.vals[v].outputs[i]]))),
      (v: nat, n: NodeId) => RankOnDetour(s, l, v, n))
  }

  ghost function RankOnDetour(s: Splits, l: Layout, v: nat, n: NodeId): nat {
    if n in s.edge then 2 * l.rank(v, s.edge[n].0) + 1 else 2 * l.rank(v, n)
  }

  // What is on a detour.

  /** The mux nodes of an expansion stand in links of the walk. */
  lemma {:induction false} MuxOnExpansion(s: Splits, w: seq<NodeId>, d: NodeId)
    requires s.Inverse() && d in Expand(s, w) && d in s.edge && forall n :: n in w ==> n !in s.edge
    ensures s.edge[d].0 in w[..|w| - 1] && d == s.mux[s.edge[d]]
  {
    assert |w| >= 2;
    assert w[..|w| - 1] == [w[0]] + w[1..][..|w| - 2];
    if d in Expand(s, w[1..]) {
      MuxOnExpansion(s, w[1..], d);
    }
  }

  /** An expansion visits no node twice if the walk does not. */
  lemma {:induction false} ExpansionNoDup(s: Splits, w: seq<NodeId>)
    requires s.Inverse() && NoDup(w) && forall n :: n in w ==> n !in s.edge
    ensures NoDup(Expand(s, w)) && forall n :: n in Expand(s, w) && n !in s.edge ==> n in w
  {
    if |w| >= 2 {
      var rest := Expand(s, w[1..]);
      NoDupTail(w);
      ExpansionNoDup(s, w[1..]);
      if (w[0], w[1]) in s.mux {
        var d := s.mux[(w[0], w[1])];
        if d in rest {
          MuxOnExpansion(s, w[1..], d);
        }
        ConsNoDup(d, rest);
        ConsNoDup(w[0], [d] + rest);
      } else {
        ConsNoDup(w[0], rest);
      }
    }
  }

  lemma ConsNoDup(n: NodeId, w: seq<NodeId>)
    requires NoDup(w) && n !in w
    ensures NoDup([n] + w)
  {
  }

  /** What is cut out of an MRRG by its routes stays connected on the detours. */
  ghost predicate Divided(src: Graph, g: Graph, s: Splits) {
    WellFormed(src) && WellFormed(g) && Subdivides(src, g.nodes, s)
  }

  /** A node keeps its properties, and its single fanout. */
  lemma Unsplit(src: Graph, g: Graph, s: Splits, n: NodeId)
    requires Divided(src, g, s) && n in src.nodes
    ensures n in g.nodes && n !in s.edge && SameProperties(src.nodes[n], g.nodes[n])
    ensures forall m :: g.nodes[n].fanout == [m] <==> src.nodes[n].fanout == [m]
  {
    SourceNode(src, g, s, n);
    assert KeepsNode(src.nodes[n], g.nodes[n], s, n);
    forall d | d in s.edge && s.edge[d].0 == n
      ensures |src.nodes[n].fanout| > 1
    {
      assert IsMux(src, s, g.nodes[d], d);
    }
    forall m | (n, m) in s.mux
      ensures |src.nodes[n].fanout| > 1
    {
      assert s.edge[s.mux[(n, m)]].0 == n;
    }
    if |src.nodes[n].fanout| == 1 {
      var m := src.nodes[n].fanout[0];
      assert m in src.nodes[n].fanout;
      assert m in g.nodes[n].fanout;
    }
    if |g.nodes[n].fanout| == 1 {
      assert g.nodes[n].fanout[0] in g.nodes[n].fanout;
    }
  }

  lemma WalkTo(g: Graph, w: seq<NodeId>, to: NodeId)
    requires IsWalk(g, w) && to in g.nodes && to in g.nodes[Last(w)].fanout
    ensures IsWalk(g, w + [to])
  {
  }

  lemma WalkInit(g: Graph, e: seq<NodeId>)
    requires IsWalk(g, e) && |e| > 1
    ensures IsWalk(g, e[..|e| - 1]) && Last(e) in g.nodes[e[|e| - 2]].fanout
  {
    assert e[(|e| - 2) + 1] in g.nodes[e[|e| - 2]].fanout;
  }

  lemma ExpansionOf(src: Graph, g: Graph, s: Splits, w: seq<NodeId>)
    requires Divided(src, g, s) && IsWalk(src, w) && NoDup(w)
    ensures var e := Expand(s, w);
            && IsWalk(g, e) && NoDup(e) && e[0] == w[0] && Last(e) == Last(w)
            && (forall n :: n in e && n !in s.edge ==> n in w)
            && (forall n :: n in e && n in s.edge ==> s.edge[n].0 in w[..|w| - 1])
  {
    ExpandCorresponds(src, g, s, w);
    forall n | n in w
      ensures n !in s.edge
    {
      SourceNode(src, g, s, n);
    }
    ExpansionNoDup(s, w);
    forall n | n in Expand(s, w) && n in s.edge {
      MuxOnExpansion(s, w, n);
    }
  }

  /** The nodes of a route, and the mux nodes behind them, are those of its detour. */
  lemma OnDetour(src: Graph, g: Graph, s: Splits, w: seq<NodeId>, to: NodeId)
    requires Divided(src, g, s) && IsWalk(src, w + [to]) && NoDup(w + [to]) && w != []
    ensures var e := Detour(s, w, to);
            && IsWalk(g, e) && NoDup(e) && e[0] == w[0] && to in g.nodes[Last(e)].fanout
            && NoDup(e + [to]) && Expand(s, w + [to]) == e + [to]
            && (forall n :: n in e && n !in s.edge ==> n in w)
            && (forall n :: n in e && n in s.edge ==> s.edge[n].0 in w)
  {
    var full, e := Expand(s, w + [to]), Detour(s, w, to);
    ExpansionOf(src, g, s, w + [to]);
    assert (w + [to])[..|w + [to]| - 1] == w;
    assert (w + [to])[0] == w[0] != to;
    assert |full| > 1;
    assert full == e + [to];
    WalkInit(g, full);
  }

  lemma RouteNoDup(g: Graph, w: seq<NodeId>, from: NodeId, to: NodeId, tag: string)
    requires Connects(g, w, from, to, tag)
    ensures IsWalk(g, w + [to]) && NoDup(w + [to])
  {
    WalkTo(g, w, to);
  }

  lemma DetourConnects(src: Graph, g: Graph, s: Splits, w: seq<NodeId>, from: NodeId, to: NodeId, tag: string)
    requires Divided(src, g, s) && Connects(src, w, from, to, tag)
    ensures Connects(g, Detour(s, w, to), from, to, tag)
  {
    RouteNoDup(src, w, from, to, tag);
    OnDetour(src, g, s, w, to);
    Unsplit(src, g, s, from);
    Unsplit(src, g, s, to);
    Unsplit(src, g, s, w[0]);
    var e := Detour(s, w, to);
    forall k | 0 <= k < |e|
      ensures Carrying(g.nodes[e[k]], tag) && (k > 0 ==> g.nodes[e[k]].kind.Routing?)
    {
      SourceNode(src, g, s, e[k]);
      if e[k] in src.nodes {
        Unsplit(src, g, s, e[k]);
        var j :| 0 <= j < |w| && w[j] == e[k];
        assert k > 0 ==> e[k] != e[0];
      }
    }
  }

  // Detours branch where the routes do.

  lemma ConsKeepsPrefix(n: NodeId, p: seq<NodeId>, e: seq<NodeId>)
    requires p != [] && p <= e
    ensures [n] + p <= [n] + e && Last([n] + p) == Last(p)
  {
  }

  lemma PrefixCons(s: Splits, n: NodeId, w: seq<NodeId>, v: seq<NodeId>)
    requires w != [] && v != [] && w[0] == v[0]
    requires Expand(s, v) != [] && Expand(s, v) <= Expand(s, w)
    ensures var p, e := Expand(s, [n] + v), Expand(s, [n] + w); p != [] && p <= e && Last(p) == Last(Expand(s, v))
  {
    ExpandCons(s, n, w);
    ExpandCons(s, n, v);
    if (n, w[0]) in s.mux {
      var d := s.mux[(n, w[0])];
      ConsKeepsPrefix(d, Expand(s, v), Expand(s, w));
      ConsKeepsPrefix(n, [d] + Expand(s, v), [d] + Expand(s, w));
    } else {
      ConsKeepsPrefix(n, Expand(s, v), Expand(s, w));
    }
  }

  lemma {:induction false} ExpansionOfPrefix(s: Splits, w: seq<NodeId>, k: nat)
    requires k < |w|
    ensures var p, e := Expand(s, w[..k + 1]), Expand(s, w); p != [] && p <= e && Last(p) == w[k]
  {
    if k > 0 {
      ExpansionOfPrefix(s, w[1..], k - 1);
      PrefixCons(s, w[0], w[1..], w[1..][..k]);
      assert w == [w[0]] + w[1..] && w[..k + 1] == [w[0]] + w[1..][..k];
    } else {
      assert w[..1] == [w[0]];
    }
  }

  /** Up to a source node a detour is the expansion of the route up to that node. */
  lemma DetourBefore(src: Graph, g: Graph, s: Splits, w: seq<NodeId>, to: NodeId, k: nat, a: nat)
    requires Divided(src, g, s) && IsWalk(src, w + [to]) && NoDup(w + [to]) && k < |w|
    requires a < |Detour(s, w, to)| && Detour(s, w, to)[a] == w[k]
    ensures Detour(s, w, to)[..a + 1] == Expand(s, w[..k + 1])
  {
    var e, p := Detour(s, w, to), Expand(s, w[..k + 1]);
    OnDetour(src, g, s, w, to);
    ExpansionOfPrefix(s, w + [to], k);
    assert (w + [to])[..k + 1] == w[..k + 1];
    assert (e + [to])[|p| - 1] == w[k] == (e + [to])[a];
    assert e[..a + 1] == (e + [to])[..a + 1] == p;
  }

  /** A source node on a detour is at its place on the route. */
  lemma SourceOnDetour(src: Graph, g: Graph, s: Splits, w: seq<NodeId>, to: NodeId, a: nat) returns (k: nat)
    requires Divided(src, g, s) && IsWalk(src, w + [to]) && NoDup(w + [to]) && w != []
    requires a < |Detour(s, w, to)| && Detour(s, w, to)[a] in src.nodes
    ensures k < |w| && w[k] == Detour(s, w, to)[a] && Detour(s, w, to)[..a + 1] == Expand(s, w[..k] + [w[k]])
  {
    OnDetour(src, g, s, w, to);
    SourceNode(src, g, s, Detour(s, w, to)[a]);
    k :| k < |w| && w[k] == Detour(s, w, to)[a];
    DetourBefore(src, g, s, w, to, k, a);
    assert w[..k + 1] == w[..k] + [w[k]];
  }

  lemma SourceMeeting(src: Graph, g: Graph, s: Splits, w: seq<NodeId>, to: NodeId, x: seq<NodeId>, to': NodeId,
                      a: nat, b: nat)
    requires Divided(src, g, s) && SameWay(w, x) && w != [] && x != []
    requires IsWalk(src, w + [to]) && NoDup(w + [to]) && IsWalk(src, x + [to']) && NoDup(x + [to'])
    requires a < |Detour(s, w, to)| && b < |Detour(s, x, to')| && Detour(s, w, to)[a] == Detour(s, x, to')[b]
    requires Detour(s, w, to)[a] in src.nodes
    ensures Detour(s, w, to)[..a + 1] == Detour(s, x, to')[..b + 1]
  {
    var k := SourceOnDetour(src, g, s, w, to, a);
    var m := SourceOnDetour(src, g, s, x, to', b);
    assert w[..k] == x[..m];
  }

  /** A mux node comes after the node that it was put behind. */
  lemma BeforeMux(src: Graph, g: Graph, s: Splits, w: seq<NodeId>, to: NodeId, a: nat)
    requires Divided(src, g, s) && IsWalk(src, w + [to]) && NoDup(w + [to]) && w != []
    requires a < |Detour(s, w, to)| && Detour(s, w, to)[a] in s.edge
    ensures a > 0 && Detour(s, w, to)[a - 1] == s.edge[Detour(s, w, to)[a]].0
    ensures Detour(s, w, to)[a - 1] in src.nodes
  {
    var e := Detour(s, w, to);
    OnDetour(src, g, s, w, to);
    assert (w + [to])[0] == w[0];
    SourceNode(src, g, s, w[0]);
    SourceNode(src, g, s, e[a]);
    assert e[(a - 1) + 1] in g.nodes[e[a - 1]].fanout;
    assert NodeOk(g, e[a - 1]);
  }

  lemma DetoursMeet(src: Graph, g: Graph, s: Splits, w: seq<NodeId>, to: NodeId, x: seq<NodeId>, to': NodeId,
                    a: nat, b: nat)
    requires Divided(src, g, s) && SameWay(w, x) && w != [] && x != []
    requires IsWalk(src, w + [to]) && NoDup(w + [to]) && IsWalk(src, x + [to']) && NoDup(x + [to'])
    requires a < |Detour(s, w, to)| && b < |Detour(s, x, to')| && Detour(s, w, to)[a] == Detour(s, x, to')[b]
    requires Detour(s, w, to)[a] in g.nodes
    ensures Detour(s, w, to)[..a] == Detour(s, x, to')[..b]
  {
    var e, f := Detour(s, w, to), Detour(s, x, to');
    SourceNode(src, g, s, e[a]);
    if e[a] in s.edge {
      BeforeMux(src, g, s, w, to, a);
      BeforeMux(src, g, s, x, to', b);
      SourceMeeting(src, g, s, w, to, x, to', a - 1, b - 1);
    } else {
      SourceMeeting(src, g, s, w, to, x, to', a, b);
      assert e[..a] == e[..a + 1][..a] && f[..b] == f[..b + 1][..b];
      assert |e[..a + 1]| == |f[..b + 1]|;
    }
  }

  lemma DetoursBranch(src: Graph, g: Graph, s: Splits, w: seq<NodeId>, to: NodeId, x: seq<NodeId>, to': NodeId)
    requires Divided(src, g, s) && SameWay(w, x) && w != [] && x != []
    requires IsWalk(src, w + [to]) && NoDup(w + [to]) && IsWalk(src, x + [to']) && NoDup(x + [to'])
    ensures SameWay(Detour(s, w, to), Detour(s, x, to'))
  {
    var e, f := Detour(s, w, to), Detour(s, x, to');
    OnDetour(src, g, s, w, to);
    forall a: nat, b: nat | a < |e| && b < |f| && e[a] == f[b]
      ensures e[..a] == f[..b]
    {
      DetoursMeet(src, g, s, w, to, x, to', a, b);
    }
  }

  // Layouts.

  /** The source node that a node stands for: itself, or the one that a mux node was put behind. */
  ghost function Behind(s: Splits, n: NodeId): NodeId {
    if n in s.edge then s.edge[n].0 else n
  }

  ghost predicate LaidOut(p: Problem, src: Graph, s: Splits, l: Layout) {
    Consistent(p.og) && Divided(src, p.g, s) && Legal(p.(g := src), l)
  }

  lemma DetourAt(p: Problem, src: Graph, s: Splits, l: Layout, v: nat, i: nat)
    requires LaidOut(p, src, s, l) && IsSink(p, v, i)
    ensures var w, to := l.routes[v][i], l.place[p.og.vals[v].outputs[i]];
            && w != [] && IsWalk(src, w + [to]) && NoDup(w + [to])
            && Detoured(p, s, l).routes[v][i] == Detour(s, w, to)
    ensures IsRouted(p, Detoured(p, s, l), v, i)
  {
    var w, to := l.routes[v][i], l.place[p.og.vals[v].outputs[i]];
    var from, tag := l.place[p.og.vals[v].input], p.og.vals[v].operandTags[i];
    assert IsSink(p.(g := src), v, i) && IsRouted(p.(g := src), l, v, i);
    RouteNoDup(src, w, from, to, tag);
    DetourConnects(src, p.g, s, w, from, to, tag);
  }

  lemma DetourPasses(p: Problem, src: Graph, s: Splits, l: Layout, v: nat, i: nat, n: NodeId)
    requires LaidOut(p, src, s, l) && Passes(Detoured(p, s, l), v, i, n)
    ensures IsSink(p, v, i) && Passes(l, v, i, Behind(s, n)) && n in p.g.nodes
  {
    DetourAt(p, src, s, l, v, i);
    OnDetour(src, p.g, s, l.routes[v][i], l.place[p.og.vals[v].outputs[i]]);
  }

  lemma DetourUses(p: Problem, src: Graph, s: Splits, l: Layout, v: nat, n: NodeId)
    requires LaidOut(p, src, s, l) && Uses(Detoured(p, s, l), v, n)
    ensures Uses(l, v, Behind(s, n)) && n in p.g.nodes
  {
    var i: nat :| Passes(Detoured(p, s, l), v, i, n);
    DetourPasses(p, src, s, l, v, i, n);
  }

  lemma DetouredPlaced(p: Problem, src: Graph, s: Splits, l: Layout)
    requires LaidOut(p, src, s, l)
    ensures Placed(p, Detoured(p, s, l))
  {
    forall op: nat | op < |l.place|
      ensures OfKind(p, op, l.place[op]) && NamedAsFixed(p, op, l.place[op])
    {
      assert OfKind(p.(g := src), op, l.place[op]) && NamedAsFixed(p.(g := src), op, l.place[op]);
      Unsplit(src, p.g, s, l.place[op]);
    }
  }

  lemma DetouredDisjoint(p: Problem, src: Graph, s: Splits, l: Layout)
    requires LaidOut(p, src, s, l)
    ensures Disjoint(Detoured(p, s, l))
  {
    var l' := Detoured(p, s, l);
    forall v: nat, w: nat, n | Uses(l', v, n) && Uses(l', w, n)
      ensures v == w
    {
      DetourUses(p, src, s, l, v, n);
      DetourUses(p, src, s, l, w, n);
    }
  }

  lemma DetouredOutputsApart(p: Problem, src: Graph, s: Splits, l: Layout)
    requires LaidOut(p, src, s, l)
    ensures OutputsApart(p, Detoured(p, s, l))
  {
    var l' := Detoured(p, s, l);
    forall v: nat, i: nat, n, f | Passes(l', v, i, n) && IsSingleOutput(p.g, f, n)
      ensures f == l'.place[p.og.vals[v].input]
    {
      DetourPasses(p, src, s, l, v, i, n);
      SourceNode(src, p.g, s, f);
      Unsplit(src, p.g, s, f);
      assert n in src.nodes[f].fanout && NodeOk(src, f);
      SourceNode(src, p.g, s, n);
      assert IsSingleOutput(src, f, n);
    }
  }

  lemma InputBehind(p: Problem, src: Graph, s: Splits, op: nat, f: NodeId, n: NodeId)
    requires Divided(src, p.g, s) && IsInput(p, op, f, n)
    ensures IsInput(p.(g := src), op, f, Behind(s, n))
  {
    SourceNode(src, p.g, s, f);
    Unsplit(src, p.g, s, f);
    LinksAreSplitLinks(src, p.g, s, n, f);
    if n in s.edge {
      SourceNode(src, p.g, s, n);
      assert IsMux(src, s, p.g.nodes[n], n);
    }
    assert NodeOk(src, Behind(s, n));
  }

  lemma DetouredInputsApart(p: Problem, src: Graph, s: Splits, l: Layout)
    requires LaidOut(p, src, s, l)
    ensures InputsApart(p, Detoured(p, s, l))
  {
    var l' := Detoured(p, s, l);
    forall v: nat, i: nat, j: nat, n, f |
      Passes(l', v, i, n) && Passes(l', v, j, n) && i != j && IsInput(p, p.og.vals[v].outputs[i], f, n)
      ensures p.og.vals[v].outputs[i] != p.og.vals[v].outputs[j]
    {
      DetourPasses(p, src, s, l, v, i, n);
      DetourPasses(p, src, s, l, v, j, n);
      InputBehind(p, src, s, p.og.vals[v].outputs[i], f, n);
    }
  }

  lemma DetouredBranching(p: Problem, src: Graph, s: Splits, l: Layout)
    requires LaidOut(p, src, s, l) && Branching(l)
    ensures Branching(Detoured(p, s, l))
  {
    var l' := Detoured(p, s, l);
    forall v: nat, i: nat, j: nat | v < |l'.routes| && i < |l'.routes[v]| && j < |l'.routes[v]|
      ensures SameWay(l'.routes[v][i], l'.routes[v][j])
    {
      DetourAt(p, src, s, l, v, i);
      DetourAt(p, src, s, l, v, j);
      DetoursBranch(src, p.g, s, l.routes[v][i], l.place[p.og.vals[v].outputs[i]],
                    l.routes[v][j], l.place[p.og.vals[v].outputs[j]]);
    }
  }

  /** A link of the transformed graph leads on at the same source node, or along a source link. */
  lemma LinkBehind(src: Graph, g: Graph, s: Splits, r: NodeId, n: NodeId)
    requires Divided(src, g, s) && LeadsOn(g, r, n)
    ensures if n in s.edge then r !in s.edge && r == Behind(s, n) else LeadsOn(src, Behind(s, r), n)
  {
    LinksAreSplitLinks(src, g, s, r, n);
    SourceNode(src, g, s, r);
    SourceNode(src, g, s, n);
    assert r in s.edge ==> IsMux(src, s, g.nodes[r], r);
    assert n in s.edge ==> IsMux(src, s, g.nodes[n], n);
    if n in src.nodes {
      Unsplit(src, g, s, n);
    }
  }

  lemma DetouredOrdered(p: Problem, src: Graph, s: Splits, l: Layout)
    requires LaidOut(p, src, s, l) && Ordered(p.(g := src), l)
    ensures Ordered(p, Detoured(p, s, l))
  {
    var l' := Detoured(p, s, l);
    forall v: nat, r, n | Uses(l', v, r) && Uses(l', v, n) && LeadsOn(p.g, r, n)
      ensures l'.rank(v, r) < l'.rank(v, n)
    {
      DetourUses(p, src, s, l, v, r);
      DetourUses(p, src, s, l, v, n);
      LinkBehind(src, p.g, s, r, n);
    }
  }

  /** Main result: a mapping of the source MRRG takes its detours to one of the transformed MRRG. */
  lemma InsertionLosesNoMapping(p: Problem, src: Graph, s: Splits, l: Layout)
    requires LaidOut(p, src, s, l)
    ensures Legal(p, Detoured(p, s, l))
  {
    var l' := Detoured(p, s, l);
    DetouredPlaced(p, src, s, l);
    forall v: nat, i: nat | IsSink(p, v, i)
      ensures IsRouted(p, l', v, i)
    {
      DetourAt(p, src, s, l, v, i);
    }
    DetouredDisjoint(p, src, s, l);
    DetouredOutputsApart(p, src, s, l);
    DetouredInputsApart(p, src, s, l);
    if p.topologicalMode {
      DetouredOrdered(p, src, s, l);
    } else {
      DetouredBranching(p, src, s, l);
    }
  }
}

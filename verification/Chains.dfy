// What a losslessly reduced MRRG is to its source: every node stands for a
// chain of source nodes that drive each other exclusively.
module Chains {
  import opened Seqs
  import opened Mrrg
  import opened OpGraphs
  import opened NodeMerges

  type Chain = seq<NodeId>

  // The chain of every node, and the node whose chain a source node is part of.
  datatype Partition = Partition(chain: map<NodeId, Chain>, home: map<NodeId, NodeId>)

  function End(c: Chain): NodeId
    requires c != []
  {
    c[|c| - 1]
  }

  function TotalLatency(src: Graph, c: Chain): nat {
    if c == [] then 0
    else (if c[|c| - 1] in src.nodes then src.nodes[c[|c| - 1]].latency else 0) + TotalLatency(src, c[..|c| - 1])
  }

  ghost predicate InSource(src: Graph, c: Chain) {
    forall i :: 0 <= i < |c| ==> c[i] in src.nodes
  }

  /** Each node of the chain drives the next one and nothing else, and is all that drives it. */
  ghost predicate InARow(src: Graph, c: Chain) {
    InSource(src, c) && forall i :: 0 <= i < |c| - 1 ==> Exclusive(src, c[i], c[i + 1])
  }

  ghost predicate AllAllow(src: Graph, c: Chain, tag: string)
    requires InSource(src, c)
  {
    forall i :: 0 <= i < |c| ==> NodeIsCompatibleWithOperand(src.nodes[c[i]], tag)
  }

  /** The node p of the reduced graph does what its chain does in the source:
      it takes as long, carries the same operands, and leads where the end of
      the chain leads. */
  ghost predicate StandsFor(src: Graph, g: Graph, p: NodeId, c: Chain) {
    && p in g.nodes && p in src.nodes && c != [] && c[0] == p && InARow(src, c)
    && SameProperties(g.nodes[p], src.nodes[p].(latency := TotalLatency(src, c), operandTags := g.nodes[p].operandTags))
    && (forall tag :: NodeIsCompatibleWithOperand(g.nodes[p], tag) <==> AllAllow(src, c, tag))
    && g.nodes[p].fanout == src.nodes[End(c)].fanout
    && g.nodes[p].operandTags == src.nodes[End(c)].operandTags
    && (|c| > 1 ==> g.nodes[p].kind.Routing?)
    && (|c| > 1 ==> forall i :: 0 <= i < |c| ==> !src.nodes[c[i]].kind.Function?)
  }

  ghost predicate Owns(t: Partition, p: NodeId) {
    && p in t.chain && NoDup(t.chain[p])
    && forall i :: 0 <= i < |t.chain[p]| ==> t.chain[p][i] in t.home && t.home[t.chain[p][i]] == p
  }

  ghost predicate Belongs(t: Partition, x: NodeId) {
    x in t.home && t.home[x] in t.chain && x in t.chain[t.home[x]]
  }

  ghost predicate Partitions(t: Partition) {
    && (forall p {:trigger Owns(t, p)} :: p in t.chain ==> Owns(t, p))
    && (forall x {:trigger Belongs(t, x)} :: x in t.home ==> Belongs(t, x))
  }

  /** The nodes of g partition the source into chains and stand for them. */
  ghost predicate Reduced(src: Graph, g: Graph, t: Partition) {
    && WellFormed(src) && WellFormed(g) && g.ii == src.ii
    && t.chain.Keys == g.nodes.Keys && t.home.Keys == src.nodes.Keys && Partitions(t)
    && (forall p {:trigger StandsFor(src, g, p, t.chain[p])} :: p in t.chain ==> StandsFor(src, g, p, t.chain[p]))
  }

  /** No node that stands for several source nodes drives itself. */
  ghost predicate NoSelfLinks(g: Graph, t: Partition) {
    forall p :: p in t.chain && |t.chain[p]| > 1 && p in g.nodes ==> p !in g.nodes[p].fanout
  }

  function Initial(src: Graph): Partition {
    Partition(map n | n in src.nodes :: [n], map n | n in src.nodes :: n)
  }

  lemma SourceIsReduced(src: Graph)
    requires WellFormed(src)
    ensures Reduced(src, src, Initial(src))
  {
    var t := Initial(src);
    forall p | p in t.chain
      ensures StandsFor(src, src, p, t.chain[p])
    {
      var c := t.chain[p];
      assert c[..|c| - 1] == [] && TotalLatency(src, []) == 0;
      forall tag
        ensures NodeIsCompatibleWithOperand(src.nodes[p], tag) <==> AllAllow(src, c, tag)
      {
        assert c[0] == p;
      }
    }
    forall p | p in t.chain
      ensures Owns(t, p)
    {
    }
    forall x | x in t.home
      ensures Belongs(t, x)
    {
    }
  }

  /** A node of the reduced graph is the head of its chain, and every other node of a chain is gone. */
  lemma HeadsSurvive(src: Graph, g: Graph, t: Partition, p: NodeId, i: nat)
    requires Reduced(src, g, t) && p in g.nodes && i < |t.chain[p]|
    ensures t.chain[p][i] in g.nodes <==> i == 0
  {
    assert StandsFor(src, g, p, t.chain[p]) && Owns(t, p);
    var x := t.chain[p][i];
    if x in g.nodes {
      assert StandsFor(src, g, x, t.chain[x]) && Owns(t, x);
      assert t.home[t.chain[x][0]] == x;
    }
  }

  /** The fanin of a head comes from the end of the chain of the node that drives it in the reduced graph. */
  lemma DriverIsChainEnd(src: Graph, g: Graph, t: Partition, n: NodeId, y: NodeId)
    requires Reduced(src, g, t) && n in g.nodes && y in src.nodes && n in src.nodes[y].fanout
    ensures t.home[y] in g.nodes && n in g.nodes[t.home[y]].fanout
    ensures t.chain[t.home[y]] != [] && y == End(t.chain[t.home[y]])
  {
    assert Belongs(t, y);
    var q := t.home[y];
    var c := t.chain[q];
    assert StandsFor(src, g, q, c);
    var j :| 0 <= j < |c| && c[j] == y;
    if j < |c| - 1 {
      assert Exclusive(src, c[j], c[j + 1]);
      assert n == c[j + 1];
      HeadsSurvive(src, g, t, q, j + 1);
    }
  }

  lemma EndsAreExclusive(src: Graph, g: Graph, t: Partition, p: NodeId, n: NodeId)
    requires Reduced(src, g, t) && Exclusive(g, p, n)
    ensures t.chain[p] != [] && Exclusive(src, End(t.chain[p]), n)
  {
    assert StandsFor(src, g, p, t.chain[p]) && StandsFor(src, g, n, t.chain[n]);
    var last := End(t.chain[p]);
    assert last in src.nodes;
    assert NodeOk(src, last) && NodeOk(src, n) && n in src.nodes[last].fanout;
    forall y | y in src.nodes[n].fanin
      ensures y == last
    {
      DriverIsChainEnd(src, g, t, n, y);
      var q := t.home[y];
      assert NodeOk(g, q) && NodeOk(g, n);
      assert q in g.nodes[n].fanin;
    }
    Singleton(src.nodes[n].fanin, last);
  }

  function Joined(t: Partition, p: NodeId, n: NodeId): Partition
    requires p in t.chain && n in t.chain
  {
    Partition((t.chain - {n})[p := t.chain[p] + t.chain[n]],
              map x | x in t.home :: if t.home[x] == n then p else t.home[x])
  }

  lemma {:induction false} TotalLatencyOfJoin(src: Graph, a: Chain, b: Chain)
    ensures TotalLatency(src, a + b) == TotalLatency(src, a) + TotalLatency(src, b)
  {
    if b == [] {
      assert a + b == a;
    } else {
      assert (a + b)[..|a + b| - 1] == a + b[..|b| - 1];
      TotalLatencyOfJoin(src, a, b[..|b| - 1]);
    }
  }

  lemma LinkedJoin(src: Graph, a: Chain, b: Chain)
    requires a != [] && b != [] && InARow(src, a) && InARow(src, b) && Exclusive(src, End(a), b[0])
    ensures InARow(src, a + b)
  {
    forall i | 0 <= i < |a + b| - 1
      ensures Exclusive(src, (a + b)[i], (a + b)[i + 1])
    {
      if i >= |a| {
        assert Exclusive(src, b[i - |a|], b[i - |a| + 1]);
      }
    }
  }

  lemma CombinedAllows(a: Node, b: Node, tag: string)
    requires TagsAgree(a, b)
    ensures NodeIsCompatibleWithOperand(Combined(a, b), tag) <==>
            NodeIsCompatibleWithOperand(a, tag) && NodeIsCompatibleWithOperand(b, tag)
  {
  }

  lemma AllAllowJoin(src: Graph, a: Chain, b: Chain, tag: string)
    requires InSource(src, a) && InSource(src, b)
    ensures InSource(src, a + b)
    ensures AllAllow(src, a + b, tag) <==> AllAllow(src, a, tag) && AllAllow(src, b, tag)
  {
    if AllAllow(src, a + b, tag) {
      forall i | 0 <= i < |a|
        ensures NodeIsCompatibleWithOperand(src.nodes[a[i]], tag)
      {
        assert (a + b)[i] == a[i];
      }
      forall i | 0 <= i < |b|
        ensures NodeIsCompatibleWithOperand(src.nodes[b[i]], tag)
      {
        assert (a + b)[|a| + i] == b[i];
      }
    }
  }

  /** The merged node stands for both chains. */
  lemma MergedStands(src: Graph, g: Graph, g': Graph, p: NodeId, n: NodeId, a: Chain, b: Chain)
    requires StandsFor(src, g, p, a) && StandsFor(src, g, n, b) && p != n && Exclusive(src, End(a), n)
    requires Merges(g, g', p, n) && g.nodes[p].kind.Routing? && TagsAgree(g.nodes[p], g.nodes[n])
    requires p !in g.nodes[n].fanout && WellFormed(g) && !g.nodes[n].kind.Function?
    ensures StandsFor(src, g', p, a + b)
  {
    LinkedJoin(src, a, b);
    TotalLatencyOfJoin(src, a, b);
    forall tag
      ensures NodeIsCompatibleWithOperand(g'.nodes[p], tag) <==> AllAllow(src, a + b, tag)
    {
      CombinedAllows(g.nodes[p], g.nodes[n], tag);
      AllAllowJoin(src, a, b, tag);
    }
    WithoutAbsent(g.nodes[n].fanout, p);
  }

  lemma {:induction false} WithoutAbsent(s: seq<NodeId>, x: NodeId)
    requires x !in s
    ensures Without(s, x) == s
  {
    if s != [] {
      assert s == [s[0]] + s[1..];
      WithoutAbsent(s[1..], x);
    }
  }

  lemma JoinedOwns(t: Partition, p: NodeId, n: NodeId, m: NodeId)
    requires Owns(t, p) && Owns(t, n) && p != n && m != n && Owns(t, m)
    ensures Owns(Joined(t, p, n), m)
  {
    if m == p {
      var c := t.chain[p] + t.chain[n];
      forall i, j | 0 <= i < j < |c|
        ensures c[i] != c[j]
      {
        if i < |t.chain[p]| <= j {
          assert t.home[t.chain[n][j - |t.chain[p]|]] == n;
        }
      }
    }
  }

  lemma JoinedBelongs(t: Partition, p: NodeId, n: NodeId, x: NodeId)
    requires p in t.chain && n in t.chain && p != n && Belongs(t, x)
    ensures Belongs(Joined(t, p, n), x)
  {
  }

  lemma JoinedPartitions(t: Partition, p: NodeId, n: NodeId)
    requires Partitions(t) && p in t.chain && n in t.chain && p != n
    ensures Partitions(Joined(t, p, n))
  {
    var t' := Joined(t, p, n);
    assert Owns(t, p) && Owns(t, n);
    forall m | m in t'.chain
      ensures Owns(t', m)
    {
      assert Owns(t, m);
      JoinedOwns(t, p, n, m);
    }
    forall x | x in t'.home
      ensures Belongs(t', x)
    {
      assert Belongs(t, x);
      JoinedBelongs(t, p, n, x);
    }
  }

  /** Merging keeps the correspondence, unless the merged node leads back to its driver. */
  lemma MergeKeepsReduced(src: Graph, g: Graph, g': Graph, t: Partition, p: NodeId, n: NodeId)
    requires Reduced(src, g, t) && Exclusive(g, p, n) && p != n && g.nodes[p].kind.Routing?
    requires TagsAgree(g.nodes[p], g.nodes[n]) && p !in g.nodes[n].fanout && Merges(g, g', p, n)
    requires !g.nodes[n].kind.Function?
    ensures Reduced(src, g', Joined(t, p, n))
  {
    EndsAreExclusive(src, g, t, p, n);
    assert StandsFor(src, g, p, t.chain[p]) && StandsFor(src, g, n, t.chain[n]);
    MergedStands(src, g, g', p, n, t.chain[p], t.chain[n]);
    forall m | m in g'.nodes && m != p
      ensures StandsFor(src, g', m, t.chain[m])
    {
      assert StandsFor(src, g, m, t.chain[m]);
    }
    JoinedPartitions(t, p, n);
  }

  lemma WrapAdds(x: nat, y: nat, ii: nat)
    requires ii > 0
    ensures Wrap(Wrap(x, ii) + y, ii) == Wrap(x + y, ii)
  {
    if x >= ii {
      WrapAdds(x - ii, y, ii);
    }
  }

  /** Merging keeps the rule that links lead to the cycle given by the latency. */
  lemma MergeKeepsCycleRule(g: Graph, g': Graph, p: NodeId, n: NodeId)
    requires WellFormed(g) && Exclusive(g, p, n) && p != n && Merges(g, g', p, n) && CycleRule(g)
    ensures CycleRule(g')
  {
    forall u, v | u in g'.nodes && v in g'.nodes[u].fanout
      ensures v.cycle == OutputCycle(g', u)
    {
      if u == p {
        assert n in g.nodes[p].fanout && n.cycle == OutputCycle(g, p);
        assert v.cycle == OutputCycle(g, n);
        WrapAdds(p.cycle + g.nodes[p].latency, g.nodes[n].latency, g.ii);
      } else {
        assert v in g.nodes[u].fanout && v.cycle == OutputCycle(g, u);
      }
    }
  }

  /** What reduceLosslessly looks for: a node whose only driver routes and drives nothing else. */
  ghost predicate Reducible(g: Graph, x: NodeId) {
    exists q :: Exclusive(g, q, x) && g.nodes[q].kind.Routing?
  }

  /** Merging makes no other node reducible. */
  lemma MergeKeepsIrreducible(g: Graph, g': Graph, p: NodeId, n: NodeId, x: NodeId)
    requires WellFormed(g) && Exclusive(g, p, n) && p != n && Merges(g, g', p, n) && x in g'.nodes
    requires p !in g.nodes[n].fanout && g.nodes[n].kind.Routing?
    requires Reducible(g', x)
    ensures Reducible(g, x)
  {
    var q :| Exclusive(g', q, x) && g'.nodes[q].kind.Routing?;
    var d := if q == p then n else q;
    WithoutAbsent(g.nodes[n].fanout, p);
    assert NodeOk(g, x) && NodeOk(g, d) && x in g.nodes[d].fanout;
    forall y | y in g.nodes[x].fanin
      ensures y == d
    {
      assert NodeOk(g, y);
      var z := if y == n then p else y;
      assert x in g'.nodes[z].fanout && NodeOk(g', z);
      assert z in g'.nodes[x].fanin;
    }
    Singleton(g.nodes[x].fanin, d);
    assert Exclusive(g, d, x);
  }

  /** An exclusive link out of a routing node that leads from one chain to another makes its target reducible. */
  lemma LinkBetweenChainsIsReducible(src: Graph, g: Graph, t: Partition, a: NodeId, b: NodeId)
    requires Reduced(src, g, t) && Exclusive(src, a, b) && src.nodes[a].kind.Routing? && b in g.nodes
    ensures Reducible(g, b)
  {
    DriverIsChainEnd(src, g, t, b, a);
    var p := t.home[a];
    assert StandsFor(src, g, p, t.chain[p]) && NodeOk(g, p) && NodeOk(g, b);
    assert g.nodes[p].fanout == [b];
    forall y | y in g.nodes[b].fanin
      ensures y == p
    {
      assert NodeOk(g, y) && StandsFor(src, g, y, t.chain[y]) && Owns(t, y);
      var end := End(t.chain[y]);
      assert end in src.nodes && NodeOk(src, end) && b in src.nodes[end].fanout;
      assert end in src.nodes[b].fanin;
      assert t.home[end] == y;
    }
    Singleton(g.nodes[b].fanin, p);
    assert Exclusive(g, p, b);
  }

  ghost predicate AllRouting(src: Graph, c: Chain)
    requires InSource(src, c)
  {
    forall i :: 0 <= i < |c| ==> src.nodes[c[i]].kind.Routing?
  }

  /** Routing nodes in a row of exclusive links whose end leads back to its start. */
  ghost predicate ClosedChain(src: Graph, c: Chain) {
    && c != [] && InARow(src, c) && AllRouting(src, c)
    && if |c| == 1 then Exclusive(src, c[0], c[0]) else c[0] in src.nodes[End(c)].fanout
  }

  lemma NextInChain(src: Graph, g: Graph, t: Partition, q: NodeId, k: nat, b: NodeId)
    requires Reduced(src, g, t) && q in g.nodes && k < |t.chain[q]|
    requires Exclusive(src, t.chain[q][k], b) && b !in g.nodes
    ensures k + 1 < |t.chain[q]| && t.chain[q][k + 1] == b
  {
    assert Belongs(t, b);
    var r := t.home[b];
    assert StandsFor(src, g, r, t.chain[r]) && Owns(t, q) && Owns(t, r);
    var j :| 0 <= j < |t.chain[r]| && t.chain[r][j] == b;
    HeadsSurvive(src, g, t, r, j);
    assert Exclusive(src, t.chain[r][j - 1], t.chain[r][j - 1 + 1]);
    assert t.chain[r][j - 1] == t.chain[q][k];
    assert t.home[t.chain[q][k]] == q;
  }

  lemma {:induction false} AlongChain(src: Graph, g: Graph, t: Partition, c: Chain, q: NodeId, k: nat, i: nat)
    requires Reduced(src, g, t) && InARow(src, c) && i < |c|
    requires forall j :: 1 <= j < |c| ==> c[j] !in g.nodes
    requires q in g.nodes && k < |t.chain[q]| && t.chain[q][k] == c[0]
    ensures k + i < |t.chain[q]| && t.chain[q][k + i] == c[i]
  {
    if i > 0 {
      AlongChain(src, g, t, c, q, k, i - 1);
      assert Exclusive(src, c[i - 1], c[i - 1 + 1]);
      NextInChain(src, g, t, q, k + i - 1, c[i]);
    }
  }

  /** A graph that is reduced as far as possible, and has no chain that closes in itself, comes from a
      source without closed chains. */
  lemma NoClosedChain(src: Graph, g: Graph, t: Partition, c: Chain)
    requires Reduced(src, g, t) && NoSelfLinks(g, t) && InARow(src, c) && c != [] && AllRouting(src, c)
    requires forall x :: x in g.nodes && g.nodes[x].kind.Routing? ==> !Reducible(g, x)
    ensures !ClosedChain(src, c)
  {
    if ClosedChain(src, c) {
      forall j | 1 <= j < |c|
        ensures c[j] !in g.nodes
      {
        assert Exclusive(src, c[j - 1], c[j - 1 + 1]);
        if c[j] in g.nodes {
          assert StandsFor(src, g, c[j], t.chain[c[j]]);
          LinkBetweenChainsIsReducible(src, g, t, c[j - 1], c[j]);
        }
      }
      assert Belongs(t, c[0]);
      var q := t.home[c[0]];
      assert StandsFor(src, g, q, t.chain[q]) && Owns(t, q);
      var k: nat :| k < |t.chain[q]| && t.chain[q][k] == c[0];
      AlongChain(src, g, t, c, q, k, |c| - 1);
      ChainDoesNotClose(src, g, t, q, k, k + |c| - 1);
    }
  }

  lemma ChainDoesNotClose(src: Graph, g: Graph, t: Partition, q: NodeId, k: nat, j: nat)
    requires Reduced(src, g, t) && NoSelfLinks(g, t) && q in g.nodes && k <= j < |t.chain[q]|
    requires q in src.nodes && (k == j == 0 ==> !Reducible(g, q) && src.nodes[q].kind.Routing?)
    ensures if k == j then !Exclusive(src, t.chain[q][k], t.chain[q][k])
            else t.chain[q][j] in src.nodes && t.chain[q][k] !in src.nodes[t.chain[q][j]].fanout
  {
    var c := t.chain[q];
    assert StandsFor(src, g, q, c) && Owns(t, q);
    if k > 0 {
      assert Exclusive(src, c[k - 1], c[k - 1 + 1]);
      assert NodeOk(src, c[j]) && NodeOk(src, c[k]);
      assert c[j] !in src.nodes[c[k]].fanin;
    } else if k == j {
      if Exclusive(src, q, q) {
        LinkBetweenChainsIsReducible(src, g, t, q, q);
      }
    } else if j < |c| - 1 {
      assert Exclusive(src, c[j], c[j + 1]);
    }
  }
}

// Removing a node from an MRRG, and merging a node into the only node that drives it.
module NodeMerges {
  import opened Seqs
  import opened Mrrg

  /** The graph without n: nothing refers to it any more. */
  function Erased(nodes: map<NodeId, Node>, n: NodeId): map<NodeId, Node> {
    map m | m in nodes && m != n ::
      nodes[m].(fanout := RemoveFirst(nodes[m].fanout, n), fanin := RemoveFirst(nodes[m].fanin, n))
  }

  // The fanins of n from the i-th on no longer drive it.
  ghost predicate FaninsCut(before: map<NodeId, Node>, now: map<NodeId, Node>, n: NodeId, i: nat) {
    && n in before && now.Keys == before.Keys && i <= |before[n].fanin|
    && now[n] == before[n].(fanin := before[n].fanin[..i],
                            fanout := if n in before[n].fanin[i..] then RemoveFirst(before[n].fanout, n) else before[n].fanout)
    && forall m :: m in before && m != n ==>
         now[m] == if m in before[n].fanin[i..] then before[m].(fanout := RemoveFirst(before[m].fanout, n)) else before[m]
  }

  lemma CutFanin(g: Graph, now: map<NodeId, Node>, n: NodeId, i: nat)
    requires WellFormed(g) && FaninsCut(g.nodes, now, n, i + 1)
    ensures g.nodes[n].fanin[i] in now && n in now[g.nodes[n].fanin[i]].fanout && g.nodes[n].fanin[i] in now[n].fanin
    ensures FaninsCut(g.nodes, Unlinked(now, g.nodes[n].fanin[i], n), n, i)
  {
    var f := g.nodes[n].fanin;
    assert NodeOk(g, n) && f[i] in f;
    assert f[i..] == [f[i]] + f[i + 1..];
    assert f[i] !in f[i + 1..];
    assert f[..i + 1][..i] == f[..i];
    assert NoDup(f[..i + 1]);
    RemoveFirstLast(f[..i + 1]);
  }

  // All fanins are cut, and n no longer drives its fanouts from the i-th on.
  ghost predicate FanoutsCut(before: map<NodeId, Node>, now: map<NodeId, Node>, n: NodeId, i: nat) {
    && n in before && now.Keys == before.Keys && i <= |before[n].fanout|
    && now[n] == before[n].(fanout := before[n].fanout[..i])
    && forall m :: m in before && m != n ==>
         now[m] == if m in before[n].fanout[i..] then before[m].(fanin := RemoveFirst(before[m].fanin, n)) else before[m]
  }

  lemma HalfCut(g: Graph, half: map<NodeId, Node>, n: NodeId)
    requires WellFormed(g) && FaninsCut(g.nodes, half, n, 0)
    ensures half[n].fanout == RemoveFirst(g.nodes[n].fanout, n) && NoDup(half[n].fanout)
    ensures forall m :: m in half[n].fanout <==> m in g.nodes[n].fanout && m != n
    ensures forall m :: m in half && m != n ==> half[m] == g.nodes[m].(fanout := RemoveFirst(g.nodes[m].fanout, n))
  {
    assert NodeOk(g, n) && g.nodes[n].fanin[0..] == g.nodes[n].fanin;
    RemoveFirstNoDup(g.nodes[n].fanout, n);
    forall m | m in half && m != n
      ensures half[m] == g.nodes[m].(fanout := RemoveFirst(g.nodes[m].fanout, n))
    {
      assert NodeOk(g, m);
    }
  }

  lemma FanoutIsThere(g: Graph, half: map<NodeId, Node>, now: map<NodeId, Node>, n: NodeId, i: nat)
    requires WellFormed(g) && FaninsCut(g.nodes, half, n, 0) && FanoutsCut(half, now, n, i + 1)
    ensures half[n].fanout[i] in now && n in now[half[n].fanout[i]].fanin && half[n].fanout[i] in now[n].fanout
  {
    HalfCut(g, half, n);
    var f := half[n].fanout;
    assert NodeOk(g, n) && f[i] in f;
    assert f[i] !in f[i + 1..];
  }

  lemma CutFanout(half: map<NodeId, Node>, now: map<NodeId, Node>, n: NodeId, i: nat)
    requires FanoutsCut(half, now, n, i + 1) && NoDup(half[n].fanout) && n !in half[n].fanout
    requires half[n].fanout[i] in half
    ensures FanoutsCut(half, Unlinked(now, n, half[n].fanout[i]), n, i)
  {
    var f := half[n].fanout;
    assert f[i..] == [f[i]] + f[i + 1..];
    assert f[i] !in f[i + 1..];
    assert f[..i + 1][..i] == f[..i];
    assert NoDup(f[..i + 1]);
    RemoveFirstLast(f[..i + 1]);
  }

  lemma CutNodeIsErased(g: Graph, half: map<NodeId, Node>, now: map<NodeId, Node>, n: NodeId, m: NodeId)
    requires WellFormed(g) && FaninsCut(g.nodes, half, n, 0) && FanoutsCut(half, now, n, 0) && m in g.nodes && m != n
    ensures now[m] == g.nodes[m].(fanout := RemoveFirst(g.nodes[m].fanout, n), fanin := RemoveFirst(g.nodes[m].fanin, n))
  {
    HalfCut(g, half, n);
    assert NodeOk(g, m) && half[n].fanout[0..] == half[n].fanout;
  }

  lemma CutIsErased(g: Graph, half: map<NodeId, Node>, now: map<NodeId, Node>, n: NodeId)
    requires WellFormed(g) && FaninsCut(g.nodes, half, n, 0) && FanoutsCut(half, now, n, 0)
    ensures now - {n} == Erased(g.nodes, n)
  {
    forall m | m in g.nodes && m != n {
      CutNodeIsErased(g, half, now, n, m);
    }
  }

  /** Unlinks the node from both ends of its lists and removes it. No unlinking fails. */
  method Erase(m: MRRG, n: NodeId) returns (ok: bool)
    requires WellFormed(m.View()) && n in m.nodes
    modifies m
    ensures ok && m.nodes == Erased(old(m.nodes), n)
  {
    ok := true;
    ghost var g := m.View();
    var fanin := m.nodes[n].fanin;
    assert fanin[..|fanin|] == fanin;
    for i := |fanin| downto 0
      invariant ok && FaninsCut(g.nodes, m.nodes, n, i)
    {
      CutFanin(g, m.nodes, n, i);
      var unlinked := m.Unlink(fanin[i], n);
      ok := ok && unlinked;
    }
    ghost var half := m.nodes;
    HalfCut(g, half, n);
    var fanout := m.nodes[n].fanout;
    assert fanout[..|fanout|] == fanout;
    for i := |fanout| downto 0
      invariant ok && FanoutsCut(half, m.nodes, n, i)
    {
      FanoutIsThere(g, half, m.nodes, n, i);
      CutFanout(half, m.nodes, n, i);
      var unlinked := m.Unlink(n, fanout[i]);
      ok := ok && unlinked;
    }
    CutIsErased(g, half, m.nodes, n);
    m.nodes := m.nodes - {n};
  }

  /** into drives only from, and is all that drives from. */
  ghost predicate Exclusive(g: Graph, into: NodeId, from: NodeId) {
    && into in g.nodes && from in g.nodes
    && g.nodes[into].fanout == [from] && g.nodes[from].fanin == [into]
  }

  ghost predicate LinksAdded(before: map<NodeId, Node>, now: map<NodeId, Node>, driver: NodeId, targets: seq<NodeId>) {
    && driver in before && now.Keys == before.Keys
    && now[driver] == before[driver].(fanout := before[driver].fanout + targets)
    && forall m :: m in before && m != driver ==>
         now[m] == if m in targets then before[m].(fanin := before[m].fanin + [driver]) else before[m]
  }

  lemma WithoutSnoc(s: seq<NodeId>, y: NodeId, x: NodeId)
    ensures Without(s + [y], x) == Without(s, x) + if y == x then [] else [y]
  {
    if s == [] {
      assert s + [y] == [y];
    } else {
      assert (s + [y])[1..] == s[1..] + [y];
      WithoutSnoc(s[1..], y, x);
    }
  }

  lemma OneMoreLink(before: map<NodeId, Node>, now: map<NodeId, Node>, driver: NodeId, targets: seq<NodeId>, t: NodeId)
    requires LinksAdded(before, now, driver, targets) && t in before && t != driver && t !in targets
    ensures LinksAdded(before, Linked(now, driver, t), driver, targets + [t])
  {
    assert before[driver].fanout + targets + [t] == before[driver].fanout + (targets + [t]);
  }

  lemma NextLink(g: Graph, now: map<NodeId, Node>, into: NodeId, from: NodeId, i: nat)
    requires WellFormed(g) && Exclusive(g, into, from) && i < |g.nodes[from].fanout|
    requires LinksAdded(g.nodes, now, into, Without(g.nodes[from].fanout[..i], into))
    ensures g.nodes[from].fanout[i] in now
    ensures LinksAdded(g.nodes, if g.nodes[from].fanout[i] == into then now else Linked(now, into, g.nodes[from].fanout[i]),
                       into, Without(g.nodes[from].fanout[..i + 1], into))
  {
    var fanout := g.nodes[from].fanout;
    assert NodeOk(g, from) && fanout[i] in fanout;
    assert fanout[..i + 1] == fanout[..i] + [fanout[i]];
    WithoutSnoc(fanout[..i], fanout[i], into);
    if fanout[i] != into {
      OneMoreLink(g.nodes, now, into, Without(fanout[..i], into), fanout[i]);
    }
  }

  /** Links into to the fanouts of from, but not to itself. */
  method MergeNodeConnections(m: MRRG, into: NodeId, from: NodeId)
    requires WellFormed(m.View()) && Exclusive(m.View(), into, from)
    modifies m
    ensures LinksAdded(old(m.nodes), m.nodes, into, Without(old(m.nodes)[from].fanout, into))
  {
    ghost var g := m.View();
    var fanout, fanin := m.nodes[from].fanout, m.nodes[from].fanin;
    for i := 0 to |fanout|
      invariant LinksAdded(g.nodes, m.nodes, into, Without(fanout[..i], into))
    {
      NextLink(g, m.nodes, into, from, i);
      if fanout[i] != into {
        m.Link(into, fanout[i]);
      }
    }
    assert fanout[..|fanout|] == fanout;
    for i := 0 to |fanin|
      invariant LinksAdded(g.nodes, m.nodes, into, Without(fanout, into))
    {
      // There is no fanin to link: the only one is into.
      assert fanin[i] == into;
    }
  }

  predicate TagsAgree(a: Node, b: Node) {
    a.operandTags == {} || a.operandTags == b.operandTags
  }

  /** The properties of a node that has taken over those of its fanout. */
  function Combined(a: Node, b: Node): Node {
    a.(latency := a.latency + b.latency, operandTags := if a.operandTags == {} then b.operandTags else a.operandTags)
  }

  /** What merging from into its driver does to the rest of the graph. */
  ghost predicate Merges(g: Graph, g': Graph, into: NodeId, from: NodeId)
    requires into in g.nodes && from in g.nodes
  {
    && g'.ii == g.ii && g'.nodes.Keys == g.nodes.Keys - {from} && into in g'.nodes
    && SameProperties(g'.nodes[into], Combined(g.nodes[into], g.nodes[from]))
    && g'.nodes[into].fanout == Without(g.nodes[from].fanout, into)
    && (forall m :: m in g'.nodes && m != into ==> g'.nodes[m] == g.nodes[m].(fanin := g'.nodes[m].fanin))
    && WellFormed(g')
  }

  lemma ErasedLists(g: Graph, n: NodeId, m: NodeId)
    requires WellFormed(g) && m in g.nodes && m != n
    ensures NoDup(Erased(g.nodes, n)[m].fanout) && NoDup(Erased(g.nodes, n)[m].fanin)
    ensures forall x :: x in Erased(g.nodes, n)[m].fanout <==> x in g.nodes[m].fanout && x != n
    ensures forall x :: x in Erased(g.nodes, n)[m].fanin <==> x in g.nodes[m].fanin && x != n
  {
    assert NodeOk(g, m);
    RemoveFirstNoDup(g.nodes[m].fanout, n);
    RemoveFirstNoDup(g.nodes[m].fanin, n);
  }

  lemma ErasedIsWellFormed(g: Graph, n: NodeId)
    requires WellFormed(g) && n in g.nodes
    ensures WellFormed(Graph(g.ii, Erased(g.nodes, n)))
  {
    var g' := Graph(g.ii, Erased(g.nodes, n));
    forall m | m in g'.nodes
      ensures NodeOk(g', m)
    {
      assert NodeOk(g, m);
      ErasedLists(g, n, m);
      forall x | x in g'.nodes[m].fanout
        ensures x in g'.nodes && m in g'.nodes[x].fanin
      {
        ErasedLists(g, n, x);
      }
      forall x | x in g'.nodes[m].fanin
        ensures x in g'.nodes && m in g'.nodes[x].fanout
      {
        ErasedLists(g, n, x);
      }
    }
  }

  // The links of both graphs are the same.
  ghost predicate SameLinks(a: map<NodeId, Node>, b: map<NodeId, Node>) {
    a.Keys == b.Keys && forall m :: m in a ==> b[m].fanout == a[m].fanout && b[m].fanin == a[m].fanin
  }

  lemma LinkedLists(g: Graph, linked: map<NodeId, Node>, into: NodeId, from: NodeId, m: NodeId)
    requires WellFormed(g) && Exclusive(g, into, from) && m in g.nodes
    requires LinksAdded(g.nodes, linked, into, Without(g.nodes[from].fanout, into))
    ensures NoDup(linked[m].fanout) && NoDup(linked[m].fanin)
    ensures forall x :: x in linked[m].fanout <==>
              x in g.nodes[m].fanout || (m == into && x != into && x in g.nodes[from].fanout)
    ensures forall x :: x in linked[m].fanin <==>
              x in g.nodes[m].fanin || (x == into && m != into && m in g.nodes[from].fanout)
  {
    var targets := Without(g.nodes[from].fanout, into);
    assert NodeOk(g, m) && NodeOk(g, from) && NodeOk(g, into);
    WithoutNoDup(g.nodes[from].fanout, into);
    if m != into && m in targets {
      assert into !in g.nodes[m].fanin;
      AppendNoDup(g.nodes[m].fanin, into);
    }
  }

  lemma LinkedIsWellFormed(g: Graph, linked: map<NodeId, Node>, g': Graph, into: NodeId, from: NodeId)
    requires WellFormed(g) && Exclusive(g, into, from) && g'.ii == g.ii
    requires LinksAdded(g.nodes, linked, into, Without(g.nodes[from].fanout, into)) && SameLinks(linked, g'.nodes)
    ensures WellFormed(g')
  {
    forall m | m in g'.nodes
      ensures NodeOk(g', m)
    {
      assert NodeOk(g, m) && NodeOk(g, from);
      LinkedLists(g, linked, into, from, m);
      forall x | x in g'.nodes[m].fanout
        ensures x in g'.nodes && m in g'.nodes[x].fanin
      {
        LinkedLists(g, linked, into, from, x);
      }
      forall x | x in g'.nodes[m].fanin
        ensures x in g'.nodes && m in g'.nodes[x].fanout
      {
        LinkedLists(g, linked, into, from, x);
      }
    }
  }

  /** Fails, for the exceptions of the C++, on a node that supports operations
      and on operand tags that do not agree. */
  method MergeProperties(m: MRRG, into: NodeId, from: NodeId) returns (ok: bool, ghost linked: map<NodeId, Node>)
    requires WellFormed(m.View()) && Exclusive(m.View(), into, from)
    modifies m
    ensures ok <==> old(m.nodes)[from].supportedOps == [] && TagsAgree(old(m.nodes)[into], old(m.nodes)[from])
    ensures ok ==> LinksAdded(old(m.nodes), linked, into, Without(old(m.nodes)[from].fanout, into))
    ensures ok ==> m.View() == Full(old(m.View()), linked, into, from)
  {
    linked := m.nodes;
    if m.nodes[from].supportedOps != [] {
      return false, linked;
    }
    MergeNodeConnections(m, into, from);
    linked := m.nodes;
    var a, b := m.nodes[into], m.nodes[from];
    a := a.(latency := a.latency + b.latency);
    m.nodes := m.nodes[into := a];
    if a.operandTags == {} {
      m.nodes := m.nodes[into := a.(operandTags := b.operandTags)];
    } else if a.operandTags != b.operandTags {
      return false, linked;
    }
    ok := true;
  }

  // The graph after the properties are merged, before the node is removed.
  function Full(g: Graph, linked: map<NodeId, Node>, into: NodeId, from: NodeId): Graph
    requires into in linked && from in linked
  {
    Graph(g.ii, linked[into := Combined(linked[into], linked[from])])
  }

  lemma OthersAreKept(g: Graph, linked: map<NodeId, Node>, into: NodeId, from: NodeId, m: NodeId)
    requires WellFormed(g) && Exclusive(g, into, from) && m in g.nodes && m != into && m != from
    requires LinksAdded(g.nodes, linked, into, Without(g.nodes[from].fanout, into))
    ensures Erased(Full(g, linked, into, from).nodes, from)[m] ==
            g.nodes[m].(fanin := Erased(Full(g, linked, into, from).nodes, from)[m].fanin)
  {
    assert NodeOk(g, m) && NodeOk(g, from);
    assert from !in g.nodes[m].fanout;
  }

  lemma MergeIsDone(g: Graph, linked: map<NodeId, Node>, into: NodeId, from: NodeId)
    requires WellFormed(g) && Exclusive(g, into, from) && into != from
    requires LinksAdded(g.nodes, linked, into, Without(g.nodes[from].fanout, into))
    requires WellFormed(Full(g, linked, into, from))
    ensures Merges(g, Graph(g.ii, Erased(Full(g, linked, into, from).nodes, from)), into, from)
  {
    var full := Full(g, linked, into, from);
    ErasedIsWellFormed(full, from);
    var g' := Graph(g.ii, Erased(full.nodes, from));
    forall m | m in g'.nodes && m != into
      ensures g'.nodes[m] == g.nodes[m].(fanin := g'.nodes[m].fanin)
    {
      OthersAreKept(g, linked, into, from, m);
    }
    assert NodeOk(g, from);
    assert full.nodes[into].fanout == [from] + Without(g.nodes[from].fanout, into);
    assert g'.nodes[into].fanout == Without(g.nodes[from].fanout, into);
  }

  lemma SelfMergeErases(g: Graph, linked: map<NodeId, Node>, n: NodeId)
    requires WellFormed(g) && Exclusive(g, n, n)
    requires LinksAdded(g.nodes, linked, n, Without(g.nodes[n].fanout, n))
    ensures Erased(Full(g, linked, n, n).nodes, n) == Erased(g.nodes, n)
  {
    assert Without([n], n) == [];
  }

  /** The map that LinksAdded describes. */
  function LinkedTo(nodes: map<NodeId, Node>, driver: NodeId, targets: seq<NodeId>): map<NodeId, Node> {
    map m | m in nodes ::
      if m == driver then nodes[m].(fanout := nodes[m].fanout + targets)
      else if m in targets then nodes[m].(fanin := nodes[m].fanin + [driver])
      else nodes[m]
  }

  /** The graph in which from has been merged into its driver. */
  function MergedGraph(g: Graph, into: NodeId, from: NodeId): Graph
    requires into in g.nodes && from in g.nodes
  {
    var linked := LinkedTo(g.nodes, into, Without(g.nodes[from].fanout, into));
    Graph(g.ii, Erased(Full(g, linked, into, from).nodes, from))
  }

  lemma MergedGraphMerges(g: Graph, into: NodeId, from: NodeId)
    requires WellFormed(g) && Exclusive(g, into, from)
    ensures into != from ==> Merges(g, MergedGraph(g, into, from), into, from)
    ensures into == from ==> MergedGraph(g, into, from) == Graph(g.ii, Erased(g.nodes, from))
  {
    var linked := LinkedTo(g.nodes, into, Without(g.nodes[from].fanout, into));
    assert LinksAdded(g.nodes, linked, into, Without(g.nodes[from].fanout, into)) by {
      assert into !in Without(g.nodes[from].fanout, into);
    }
    LinkedIsWellFormed(g, linked, Full(g, linked, into, from), into, from);
    if into == from {
      SelfMergeErases(g, linked, from);
    } else {
      MergeIsDone(g, linked, into, from);
    }
  }

  /** Merges from into its driver and removes it. */
  method MergeInto(m: MRRG, into: NodeId, from: NodeId) returns (ok: bool)
    requires WellFormed(m.View()) && Exclusive(m.View(), into, from)
    modifies m
    ensures ok <==> old(m.nodes)[from].supportedOps == [] && TagsAgree(old(m.nodes)[into], old(m.nodes)[from])
    ensures ok ==> m.View() == MergedGraph(old(m.View()), into, from)
  {
    ghost var g := m.View();
    ghost var linked;
    ok, linked := MergeProperties(m, into, from);
    if ok {
      LinkedIsWellFormed(g, linked, m.View(), into, from);
      assert linked == LinkedTo(g.nodes, into, Without(g.nodes[from].fanout, into));
      ok := Erase(m, from);
    }
  }

  // Fanin lists never grow.

  lemma {:induction false} NoDupInto(a: seq<NodeId>, b: seq<NodeId>)
    requires NoDup(a) && NoDup(b) && forall x :: x in a ==> x in b
    ensures |a| <= |b|
  {
    if a != [] {
      var last := a[|a| - 1];
      assert a == a[..|a| - 1] + [last] && last !in a[..|a| - 1];
      RemoveFirstNoDup(b, last);
      NoDupInto(a[..|a| - 1], RemoveFirst(b, last));
    }
  }

  /** A driver that has been merged is replaced by the node it went into, or dropped. */
  lemma MergeShrinksFanins(g: Graph, g': Graph, p: NodeId, n: NodeId, x: NodeId)
    requires WellFormed(g) && Exclusive(g, p, n) && p != n && Merges(g, g', p, n) && x in g'.nodes
    ensures |g'.nodes[x].fanin| <= |g.nodes[x].fanin|
    ensures x == p && p in g.nodes[n].fanout ==> |g'.nodes[x].fanin| < |g.nodes[x].fanin|
  {
    var before, after := g.nodes[x].fanin, g'.nodes[x].fanin;
    assert NodeOk(g, x) && NodeOk(g', x);
    forall y | y in after
      ensures if y == p then n in before else y in before
    {
      assert NodeOk(g', y) && x in g'.nodes[y].fanout;
      assert NodeOk(g, if y == p then n else y);
    }
    var replaced := seq(|after|, i requires 0 <= i < |after| => if after[i] == p then n else after[i]);
    assert n !in after;
    NoDupInto(replaced, before);
    if x == p && p in g.nodes[n].fanout {
      assert p !in after;
      assert NodeOk(g, n) && n in before;
      AppendNoDup(after, n);
      NoDupInto(after + [n], before);
    }
  }
}

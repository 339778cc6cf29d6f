// The run of reduceLosslessly as a function of the order in which it takes the
// routing nodes: when it succeeds, what it keeps, and what it loses.
module Reduction {
  import opened Wrappers
  import opened Seqs
  import opened Mrrg
  import opened NodeMerges
  import opened Chains

  /** The node that n is merged into: its only driver, if that routes and drives nothing else. */
  function ExclusiveDriver(g: Graph, n: NodeId): Option<NodeId> {
    if n !in g.nodes || |g.nodes[n].fanin| != 1 then None
    else
      var p := g.nodes[n].fanin[0];
      if p in g.nodes && g.nodes[p].kind.Routing? && |g.nodes[p].fanout| == 1 then Some(p) else None
  }

  predicate MayMerge(g: Graph, p: NodeId, n: NodeId)
    requires p in g.nodes && n in g.nodes
  {
    g.nodes[n].supportedOps == [] && TagsAgree(g.nodes[p], g.nodes[n])
  }

  /** One pass through the loop body; None is an exception. */
  function Step(g: Graph, n: NodeId): Option<Graph> {
    var p := ExclusiveDriver(g, n);
    if p.None? then Some(g)
    else if MayMerge(g, p.value, n) then Some(MergedGraph(g, p.value, n))
    else None
  }

  /** The loop from the i-th node of the order on. */
  function Reduce(g: Graph, order: seq<NodeId>, i: nat): Option<Graph>
    requires i <= |order|
    decreases |order| - i
  {
    if i == |order| then Some(g)
    else
      var next := Step(g, order[i]);
      if next.None? then None else Reduce(next.value, order, i + 1)
  }

  /** An order in which the loop may take the nodes. */
  ghost predicate ListsRouting(src: Graph, order: seq<NodeId>) {
    NoDup(order) && forall n :: n in order <==> n in src.nodes && !src.nodes[n].kind.Function?
  }

  ghost predicate NoRoutingFunctions(g: Graph) {
    forall n :: n in g.nodes ==> !g.nodes[n].kind.RoutingFunction?
  }

  /** No exclusive link between routing nodes makes a merge throw. */
  ghost predicate Agreeable(src: Graph) {
    forall a, b :: Exclusive(src, a, b) && src.nodes[a].kind.Routing? && src.nodes[b].kind.Routing? ==>
      MayMerge(src, a, b)
  }

  ghost predicate HasClosedChain(src: Graph) {
    exists c :: ClosedChain(src, c)
  }

  /** The graph is a lossless reduction of the source, by some choice of chains. */
  ghost predicate Lossless(src: Graph, g: Graph) {
    exists t :: Reduced(src, g, t)
  }

  ghost predicate Irreducible(g: Graph) {
    forall x :: x in g.nodes && g.nodes[x].kind.Routing? ==> !Reducible(g, x)
  }

  lemma {:induction false} TagsAlongChain(src: Graph, c: Chain, i: nat)
    requires InARow(src, c) && AllRouting(src, c) && Agreeable(src) && i < |c|
    requires src.nodes[c[0]].operandTags != {}
    ensures src.nodes[c[i]].operandTags == src.nodes[c[0]].operandTags
  {
    if i > 0 {
      TagsAlongChain(src, c, i - 1);
      assert Exclusive(src, c[i - 1], c[i - 1 + 1]);
    }
  }

  lemma ChainRoutes(src: Graph, g: Graph, p: NodeId, c: Chain)
    requires StandsFor(src, g, p, c) && NoRoutingFunctions(src) && !src.nodes[p].kind.Function?
    ensures AllRouting(src, c)
  {
  }

  lemma MergesSucceed(src: Graph, g: Graph, t: Partition, p: NodeId, n: NodeId)
    requires Reduced(src, g, t) && Exclusive(g, p, n) && NoRoutingFunctions(src) && Agreeable(src)
    requires g.nodes[p].kind.Routing? && g.nodes[n].kind.Routing?
    ensures MayMerge(g, p, n)
  {
    EndsAreExclusive(src, g, t, p, n);
    var a, b := t.chain[p], t.chain[n];
    assert StandsFor(src, g, p, a) && StandsFor(src, g, n, b);
    ChainRoutes(src, g, p, a);
    ChainRoutes(src, g, n, b);
    if src.nodes[End(a)].operandTags != {} {
      TagsAlongChain(src, b, |b| - 1);
    }
  }

  /** A merge that drops a link exposes a closed chain. */
  lemma LostLinkClosesChain(src: Graph, g: Graph, t: Partition, p: NodeId, n: NodeId)
    requires Reduced(src, g, t) && Exclusive(g, p, n) && NoRoutingFunctions(src)
    requires g.nodes[p].kind.Routing? && g.nodes[n].kind.Routing?
    requires p in g.nodes[n].fanout
    ensures HasClosedChain(src)
  {
    EndsAreExclusive(src, g, t, p, n);
    var a, b := t.chain[p], t.chain[n];
    assert StandsFor(src, g, p, a) && StandsFor(src, g, n, b);
    ChainRoutes(src, g, p, a);
    ChainRoutes(src, g, n, b);
    if p == n {
      assert ClosedChain(src, a);
    } else {
      LinkedJoin(src, a, b);
      assert ClosedChain(src, a + b);
    }
  }

  // Losing a link.

  /** The link from e to p is gone, and no chain accounts for it. */
  ghost predicate Severed(src: Graph, g: Graph, e: NodeId, p: NodeId) {
    && e in src.nodes && p in src.nodes && p in src.nodes[e].fanout
    && (p in g.nodes ==> |g.nodes[p].fanin| < |src.nodes[p].fanin|)
    && (e != p && Exclusive(src, e, p) ==> p in g.nodes)
  }

  ghost predicate Broken(src: Graph, g: Graph) {
    exists e, p :: Severed(src, g, e, p)
  }

  /** In a lossless reduction every node that is left has as many fanins as in the source. */
  lemma FaninsAreKept(src: Graph, g: Graph, t: Partition, p: NodeId)
    requires Reduced(src, g, t) && p in g.nodes
    ensures p in src.nodes && |src.nodes[p].fanin| <= |g.nodes[p].fanin|
  {
    assert StandsFor(src, g, p, t.chain[p]);
    assert NodeOk(src, p) && NodeOk(g, p);
    var before := src.nodes[p].fanin;
    forall y | y in before
      ensures y in t.home && t.home[y] in g.nodes[p].fanin
      ensures t.home[y] in t.chain && t.chain[t.home[y]] != [] && y == End(t.chain[t.home[y]])
    {
      assert NodeOk(src, y);
      DriverIsChainEnd(src, g, t, p, y);
      assert NodeOk(g, t.home[y]);
    }
    var homes := seq(|before|, i requires 0 <= i < |before| => if before[i] in t.home then t.home[before[i]] else before[i]);
    forall i, j | 0 <= i < j < |homes|
      ensures homes[i] != homes[j]
    {
      assert before[i] in before && before[j] in before && before[i] != before[j];
    }
    NoDupInto(homes, g.nodes[p].fanin);
  }

  /** A node that is gone had one fanin, the node before it in its chain. */
  lemma GoneHadOneDriver(src: Graph, g: Graph, t: Partition, p: NodeId, e: NodeId)
    requires Reduced(src, g, t) && p in src.nodes && p !in g.nodes && e in src.nodes && p in src.nodes[e].fanout
    ensures e != p && Exclusive(src, e, p)
  {
    assert Belongs(t, p);
    var q := t.home[p];
    var c := t.chain[q];
    assert StandsFor(src, g, q, c) && Owns(t, q);
    var i :| 0 <= i < |c| && c[i] == p;
    HeadsSurvive(src, g, t, q, i);
    assert Exclusive(src, c[i - 1], c[i - 1 + 1]);
    assert NodeOk(src, e) && e in src.nodes[p].fanin;
  }

  /** A graph that has lost a link is no lossless reduction, whatever the chains. */
  lemma BrokenIsNotLossless(src: Graph, g: Graph)
    requires Broken(src, g)
    ensures !Lossless(src, g)
  {
    var e, p :| Severed(src, g, e, p);
    forall t | Reduced(src, g, t)
      ensures false
    {
      if p in g.nodes {
        FaninsAreKept(src, g, t, p);
      } else {
        GoneHadOneDriver(src, g, t, p, e);
      }
    }
  }

  // What every state of the loop keeps, whether or not a link was lost.
  ghost predicate Kept(src: Graph, g: Graph) {
    && WellFormed(src) && WellFormed(g) && g.ii == src.ii && g.nodes.Keys <= src.nodes.Keys
    && (CycleRule(src) ==> CycleRule(g))
    && (forall m :: m in g.nodes ==> g.nodes[m].kind == src.nodes[m].kind)
    && (forall m {:trigger g.nodes[m].fanin} :: m in g.nodes ==> |g.nodes[m].fanin| <= |src.nodes[m].fanin|)
  }

  // What holds as long as no merge dropped a link, and what holds once one did.
  ghost predicate Tracked(src: Graph, g: Graph, t: Partition, lost: bool) {
    if lost then Broken(src, g) && (NoRoutingFunctions(src) ==> HasClosedChain(src)) else Reduced(src, g, t) && NoSelfLinks(g, t)
  }

  // No fanin list of g' is longer than it is in g.
  ghost predicate FaninsShrink(g: Graph, g': Graph) {
    forall x {:trigger g'.nodes[x].fanin} :: x in g'.nodes ==> x in g.nodes && |g'.nodes[x].fanin| <= |g.nodes[x].fanin|
  }

  lemma AllFaninsShrink(g: Graph, g': Graph, p: NodeId, n: NodeId)
    requires WellFormed(g) && Exclusive(g, p, n) && p != n && Merges(g, g', p, n)
    ensures FaninsShrink(g, g')
  {
    forall x | x in g'.nodes
      ensures |g'.nodes[x].fanin| <= |g.nodes[x].fanin|
    {
      MergeShrinksFanins(g, g', p, n, x);
    }
  }

  lemma KeptOn(src: Graph, g: Graph, g': Graph, n: NodeId)
    requires Kept(src, g) && WellFormed(g') && g'.ii == g.ii && g'.nodes.Keys == g.nodes.Keys - {n}
    requires FaninsShrink(g, g') && (CycleRule(g) ==> CycleRule(g'))
    requires forall m :: m in g'.nodes ==> g'.nodes[m].kind == g.nodes[m].kind
    ensures Kept(src, g')
  {
  }

  lemma MergeIsKept(src: Graph, g: Graph, p: NodeId, n: NodeId)
    requires Kept(src, g) && Exclusive(g, p, n)
    ensures Kept(src, MergedGraph(g, p, n)) && FaninsShrink(g, MergedGraph(g, p, n))
    ensures MergedGraph(g, p, n).nodes.Keys == g.nodes.Keys - {n}
  {
    var g' := MergedGraph(g, p, n);
    MergedGraphMerges(g, p, n);
    if p == n {
      SelfMergeIsKept(src, g, n);
    } else {
      if CycleRule(g) {
        MergeKeepsCycleRule(g, g', p, n);
      }
      AllFaninsShrink(g, g', p, n);
      KeptOn(src, g, g', n);
    }
  }

  lemma SelfMergeIsKept(src: Graph, g: Graph, n: NodeId)
    requires Kept(src, g) && n in g.nodes
    ensures Kept(src, Graph(g.ii, Erased(g.nodes, n))) && FaninsShrink(g, Graph(g.ii, Erased(g.nodes, n)))
  {
    ErasedIsWellFormed(g, n);
    var g' := Graph(g.ii, Erased(g.nodes, n));
    if CycleRule(g) {
      forall u, v | u in g'.nodes && v in g'.nodes[u].fanout
        ensures v.cycle == OutputCycle(g', u)
      {
        ErasedLists(g, n, u);
        assert v in g.nodes[u].fanout;
      }
    }
  }

  /** A link that is lost stays lost: fanin lists never grow, and a node without fanins is never merged. */
  lemma BrokenStays(src: Graph, g: Graph, g': Graph, p: NodeId, n: NodeId)
    requires Kept(src, g) && Broken(src, g) && Exclusive(g, p, n) && g'.nodes.Keys == g.nodes.Keys - {n}
    requires FaninsShrink(g, g')
    ensures Broken(src, g')
  {
    var e, q :| Severed(src, g, e, q);
    assert Severed(src, g', e, q);
  }

  /** A merge that drops a link severs it. */
  lemma DropSevers(src: Graph, g: Graph, t: Partition, p: NodeId, n: NodeId)
    requires Kept(src, g) && Reduced(src, g, t) && NoSelfLinks(g, t) && Exclusive(g, p, n) && p in g.nodes[n].fanout
    ensures Broken(src, MergedGraph(g, p, n))
  {
    var g' := MergedGraph(g, p, n);
    MergedGraphMerges(g, p, n);
    var c := t.chain[n];
    assert StandsFor(src, g, n, c);
    if p != n {
      MergeShrinksFanins(g, g', p, n, p);
    }
    assert Severed(src, g', End(c), p);
  }

  /** One merge, in a state that has or has not lost a link. */
  lemma MergeIsTracked(src: Graph, g: Graph, p: NodeId, n: NodeId, t: Partition, lost: bool)
    returns (t': Partition, lost': bool)
    requires Kept(src, g) && Tracked(src, g, t, lost)
    requires Exclusive(g, p, n) && g.nodes[p].kind.Routing? && !g.nodes[n].kind.Function?
    requires TagsAgree(g.nodes[p], g.nodes[n])
    ensures Kept(src, MergedGraph(g, p, n)) && Tracked(src, MergedGraph(g, p, n), t', lost')
    ensures lost' <==> lost || p in g.nodes[n].fanout
    ensures !lost' ==> p in t.chain && n in t.chain && t' == Joined(t, p, n)
  {
    var g' := MergedGraph(g, p, n);
    MergeIsKept(src, g, p, n);
    t', lost' := t, lost || p in g.nodes[n].fanout;
    if lost {
      BrokenStays(src, g, g', p, n);
    } else if lost' {
      DropSevers(src, g, t, p, n);
      if NoRoutingFunctions(src) {
        LostLinkClosesChain(src, g, t, p, n);
      }
    } else {
      MergedGraphMerges(g, p, n);
      t' := Joined(t, p, n);
      MergeKeepsReduced(src, g, g', t, p, n);
    }
  }

  // The first i routing nodes that are left cannot be merged.
  ghost predicate Settled(g: Graph, routing: seq<NodeId>, i: nat) {
    forall k {:trigger routing[k]} :: 0 <= k < i && k < |routing| && routing[k] in g.nodes ==> !Reducible(g, routing[k])
  }

  lemma MergeKeepsSettled(src: Graph, g: Graph, g': Graph, p: NodeId, n: NodeId, routing: seq<NodeId>, i: nat)
    requires WellFormed(g) && Exclusive(g, p, n) && Merges(g, g', p, n)
    requires p != n && p !in g.nodes[n].fanout && g.nodes[n].kind.Routing?
    requires Settled(g, routing, i) && i < |routing| && routing[i] == n
    ensures Settled(g', routing, i + 1)
  {
    forall k | 0 <= k < i + 1 && k < |routing| && routing[k] in g'.nodes
      ensures !Reducible(g', routing[k])
    {
      if Reducible(g', routing[k]) {
        MergeKeepsIrreducible(g, g', p, n, routing[k]);
      }
    }
  }

  lemma Drivers(g: Graph, n: NodeId)
    requires WellFormed(g)
    ensures n in g.nodes && |g.nodes[n].fanin| == 1 ==> g.nodes[n].fanin[0] in g.nodes
    ensures ExclusiveDriver(g, n).Some? <==> Reducible(g, n)
    ensures ExclusiveDriver(g, n).Some? ==> Exclusive(g, ExclusiveDriver(g, n).value, n)
  {
    if n in g.nodes && |g.nodes[n].fanin| == 1 {
      assert NodeOk(g, n) && g.nodes[n].fanin[0] in g.nodes[n].fanin;
    }
    if Reducible(g, n) {
      var q :| Exclusive(g, q, n) && g.nodes[q].kind.Routing?;
      assert ExclusiveDriver(g, n) == Some(q);
    }
  }

  lemma SettledToo(g: Graph, routing: seq<NodeId>, i: nat)
    requires Settled(g, routing, i) && i < |routing| && !Reducible(g, routing[i])
    ensures Settled(g, routing, i + 1)
  {
  }

  // What holds when the first i nodes of the order have been considered.
  ghost predicate At(src: Graph, g: Graph, order: seq<NodeId>, i: nat, t: Partition, lost: bool) {
    && Kept(src, g) && Tracked(src, g, t, lost)
    && (NoRoutingFunctions(src) && !lost ==> Settled(g, order, i))
  }

  lemma StepIsTracked(src: Graph, g: Graph, order: seq<NodeId>, i: nat, t: Partition, lost: bool)
    returns (t': Partition, lost': bool)
    requires ListsRouting(src, order) && i < |order| && At(src, g, order, i, t, lost)
    requires Step(g, order[i]).Some?
    ensures At(src, Step(g, order[i]).value, order, i + 1, t', lost')
    ensures var p := ExclusiveDriver(g, order[i]);
            if p.None? then t' == t && lost' == lost
            else !lost' ==> !lost && p.value in t.chain && order[i] in t.chain && t' == Joined(t, p.value, order[i]) &&
                            p.value !in g.nodes[order[i]].fanout
  {
    var n := order[i];
    Drivers(g, n);
    var p := ExclusiveDriver(g, n);
    if p.None? {
      t', lost' := t, lost;
      if NoRoutingFunctions(src) && !lost {
        SettledToo(g, order, i);
      }
    } else {
      t', lost' := MergeIsTracked(src, g, p.value, n, t, lost);
      if NoRoutingFunctions(src) && !lost' {
        MergedGraphMerges(g, p.value, n);
        MergeKeepsSettled(src, g, MergedGraph(g, p.value, n), p.value, n, order, i);
      }
    }
  }

  lemma {:induction false} RunIsTracked(src: Graph, g: Graph, order: seq<NodeId>, i: nat, t: Partition, lost: bool)
    returns (t': Partition, lost': bool)
    requires ListsRouting(src, order) && i <= |order| && At(src, g, order, i, t, lost)
    requires Reduce(g, order, i).Some?
    ensures At(src, Reduce(g, order, i).value, order, |order|, t', lost')
    decreases |order| - i
  {
    t', lost' := t, lost;
    if i < |order| {
      t', lost' := StepIsTracked(src, g, order, i, t, lost);
      t', lost' := RunIsTracked(src, Step(g, order[i]).value, order, i + 1, t', lost');
    }
  }

  lemma LoopStarts(src: Graph, order: seq<NodeId>)
    requires WellFormed(src)
    ensures At(src, src, order, 0, Initial(src), false)
  {
    SourceIsReduced(src);
  }

  lemma LossIsExact(src: Graph, g: Graph, order: seq<NodeId>, t: Partition, lost: bool)
    requires ListsRouting(src, order) && At(src, g, order, |order|, t, lost)
    ensures lost <==> !Lossless(src, g)
    ensures NoRoutingFunctions(src) ==> (lost <==> HasClosedChain(src)) && (!lost ==> Irreducible(g))
  {
    if lost {
      BrokenIsNotLossless(src, g);
    } else if NoRoutingFunctions(src) {
      forall x | x in g.nodes && g.nodes[x].kind.Routing?
        ensures !Reducible(g, x)
      {
        assert x in order;
      }
      forall c | ClosedChain(src, c)
        ensures false
      {
        NoClosedChain(src, g, t, c);
      }
    }
  }

  /** Main result: whatever the order, a run that does not throw keeps the graph
      well formed. It is lossless exactly when the source has no closed chain,
      and then it leaves nothing to merge. */
  lemma ReductionOutcome(src: Graph, order: seq<NodeId>)
    requires WellFormed(src) && ListsRouting(src, order) && Reduce(src, order, 0).Some?
    ensures var g := Reduce(src, order, 0).value;
            && Kept(src, g)
            && (NoRoutingFunctions(src) ==> (Lossless(src, g) <==> !HasClosedChain(src)))
            && (NoRoutingFunctions(src) && Lossless(src, g) ==> Irreducible(g))
  {
    LoopStarts(src, order);
    var t, lost := RunIsTracked(src, src, order, 0, Initial(src), false);
    LossIsExact(src, Reduce(src, order, 0).value, order, t, lost);
  }

  // When the loop throws.

  lemma AgreeableStepSucceeds(src: Graph, g: Graph, t: Partition, n: NodeId)
    requires Reduced(src, g, t) && n in src.nodes && src.nodes[n].kind.Routing?
    requires NoRoutingFunctions(src) && Agreeable(src)
    ensures Step(g, n).Some?
  {
    var p := ExclusiveDriver(g, n);
    if p.Some? {
      Drivers(g, n);
      assert StandsFor(src, g, n, t.chain[n]);
      MergesSucceed(src, g, t, p.value, n);
    }
  }

  lemma {:induction false} AgreeableRunSucceeds(src: Graph, g: Graph, order: seq<NodeId>, i: nat, t: Partition)
    requires ListsRouting(src, order) && i <= |order| && At(src, g, order, i, t, false)
    requires NoRoutingFunctions(src) && Agreeable(src) && !HasClosedChain(src)
    ensures Reduce(g, order, i).Some?
    decreases |order| - i
  {
    if i < |order| {
      assert order[i] in order;
      AgreeableStepSucceeds(src, g, t, order[i]);
      var t', lost' := StepIsTracked(src, g, order, i, t, false);
      AgreeableRunSucceeds(src, Step(g, order[i]).value, order, i + 1, t');
    }
  }

  /** A link that disagrees makes every run throw that takes its target first, and there is such a run. */
  lemma DisagreementThrows(src: Graph, a: NodeId, b: NodeId) returns (order: seq<NodeId>)
    requires WellFormed(src) && Exclusive(src, a, b) && src.nodes[a].kind.Routing? && !src.nodes[b].kind.Function?
    requires !MayMerge(src, a, b)
    ensures ListsRouting(src, order) && Reduce(src, order, 0).None?
  {
    var rest := ListingOf((set n | n in src.nodes && !src.nodes[n].kind.Function?) - {b});
    order := [b] + rest;
    assert ExclusiveDriver(src, b) == Some(a);
  }

  /** Main result: without closed chains, the reduction succeeds in every order
      exactly when the nodes of every exclusive link may be merged. */
  lemma EveryOrderSucceeds(src: Graph)
    requires WellFormed(src) && NoRoutingFunctions(src) && !HasClosedChain(src)
    ensures Agreeable(src) <==> forall order :: ListsRouting(src, order) ==> Reduce(src, order, 0).Some?
  {
    if Agreeable(src) {
      forall order | ListsRouting(src, order)
        ensures Reduce(src, order, 0).Some?
      {
        LoopStarts(src, order);
        AgreeableRunSucceeds(src, src, order, 0, Initial(src));
      }
    } else {
      var a, b :| Exclusive(src, a, b) && src.nodes[a].kind.Routing? && src.nodes[b].kind.Routing? && !MayMerge(src, a, b);
      var order := DisagreementThrows(src, a, b);
    }
  }

  // A run of routing nodes that differ in their operand tags.

  function Tagged(tags: set<string>, fanout: seq<NodeId>, fanin: seq<NodeId>): Node {
    Node(Routing, 0, 32, [], tags, fanout, fanin)
  }

  function InALine(a: NodeId, b: NodeId, c: NodeId, tags: set<string>): Graph {
    Graph(1, map[a := Tagged(tags, [b], []), b := Tagged({}, [c], [a]), c := Tagged(tags, [], [b])])
  }

  lemma InALineIsWellFormed(a: NodeId, b: NodeId, c: NodeId, tags: set<string>)
    requires a != b && b != c && a != c && a.cycle == b.cycle == c.cycle == 0
    ensures WellFormed(InALine(a, b, c, tags)) && CycleRule(InALine(a, b, c, tags))
    ensures Exclusive(InALine(a, b, c, tags), a, b) && Exclusive(InALine(a, b, c, tags), b, c)
  {
    var g := InALine(a, b, c, tags);
    forall m | m in g.nodes
      ensures NodeOk(g, m)
    {
    }
  }

  // The nodes of the line from its end: c goes into b, whose tags become those of a.
  lemma FromTheEnd(a: NodeId, b: NodeId, c: NodeId, tags: set<string>)
    requires a != b && b != c && a != c && a.cycle == b.cycle == c.cycle == 0
    ensures Reduce(InALine(a, b, c, tags), [c, b, a], 0).Some?
  {
    var g := InALine(a, b, c, tags);
    InALineIsWellFormed(a, b, c, tags);
    assert Step(g, c) == Some(MergedGraph(g, b, c));
    MergedGraphMerges(g, b, c);
    var g1 := MergedGraph(g, b, c);
    assert NodeOk(g1, a) && NodeOk(g1, b);
    assert g1.nodes.Keys == {a, b} && g1.nodes[b].fanout == [];
    Singleton(g1.nodes[b].fanin, a);
    assert Step(g1, b) == Some(MergedGraph(g1, a, b));
    MergedGraphMerges(g1, a, b);
    var g2 := MergedGraph(g1, a, b);
    assert g2.nodes.Keys == {a} && g2.nodes[a].fanout == [] && NodeOk(g2, a);
    assert a !in g2.nodes[a].fanin;
    assert Step(g2, a) == Some(g2);
    var order := [c, b, a];
    assert Reduce(g2, order, 3) == Some(g2);
    assert Reduce(g2, order, 2) == Some(g2);
    assert Reduce(g1, order, 1) == Some(g2);
  }

  lemma FromTheMiddle(a: NodeId, b: NodeId, c: NodeId, tags: set<string>)
    requires a != b && b != c && a != c && tags != {}
    ensures Reduce(InALine(a, b, c, tags), [b, a, c], 0).None? && !MayMerge(InALine(a, b, c, tags), a, b)
  {
    assert Step(InALine(a, b, c, tags), b).None?;
  }

  lemma OrdersOfTheLine(a: NodeId, b: NodeId, c: NodeId, tags: set<string>)
    requires a != b && b != c && a != c
    ensures ListsRouting(InALine(a, b, c, tags), [c, b, a]) && ListsRouting(InALine(a, b, c, tags), [b, a, c])
  {
  }

  /** The same source is reduced or refused, depending on the order: a and c carry the
      same operands, b between them any. */
  lemma MergeOrderDecidesFailure(a: NodeId, b: NodeId, c: NodeId, tags: set<string>)
    requires a != b && b != c && a != c && a.cycle == b.cycle == c.cycle == 0 && tags != {}
    ensures var src := InALine(a, b, c, tags);
            && WellFormed(src) && CycleRule(src) && !Agreeable(src)
            && ListsRouting(src, [c, b, a]) && Reduce(src, [c, b, a], 0).Some?
            && ListsRouting(src, [b, a, c]) && Reduce(src, [b, a, c], 0).None?
  {
    InALineIsWellFormed(a, b, c, tags);
    FromTheEnd(a, b, c, tags);
    FromTheMiddle(a, b, c, tags);
    OrdersOfTheLine(a, b, c, tags);
  }

  // Nodes that support no operation and carry every operand can always be merged.

  ghost predicate Bare(g: Graph) {
    forall n :: n in g.nodes ==> g.nodes[n].supportedOps == [] && g.nodes[n].operandTags == {}
  }

  lemma BareStep(src: Graph, g: Graph, n: NodeId)
    requires Kept(src, g) && Bare(g)
    ensures Step(g, n).Some? && Kept(src, Step(g, n).value) && Bare(Step(g, n).value)
    ensures FaninsShrink(g, Step(g, n).value)
    ensures var p := ExclusiveDriver(g, n);
            if p.None? then Step(g, n).value == g
            else Exclusive(g, p.value, n) && Step(g, n).value == MergedGraph(g, p.value, n) &&
                 Step(g, n).value.nodes.Keys == g.nodes.Keys - {n}
  {
    Drivers(g, n);
    var p := ExclusiveDriver(g, n);
    if p.Some? {
      MergeIsKept(src, g, p.value, n);
      MergedGraphMerges(g, p.value, n);
    }
  }
}

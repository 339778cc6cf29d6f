// reduceLosslessly: merges every routing node that has an exclusive driver into that driver.
module LosslessReduction {
  import opened Wrappers
  import opened Mrrg
  import opened InterMrrgMap
  import opened NodeMerges
  import opened Chains
  import opened Reduction

  /** The nodes that are gone are related to the node they went into. */
  ghost predicate Recorded(t: Partition, g: Graph, forward: Relation) {
    forall x, b :: b in Related(forward, x) <==> x in t.home && x !in g.nodes && b == t.home[x]
  }

  /** All old nodes are related to the node that they went into, and to no other. */
  ghost predicate MapsHome(t: Partition, forward: Relation) {
    forall x, b :: b in Related(forward, x) <==> x in t.home && b == t.home[x]
  }

  lemma RecordMerge(src: Graph, g: Graph, g': Graph, t: Partition, p: NodeId, n: NodeId, forward: Relation,
                    forward': Relation)
    requires Reduced(src, g, t) && p in g.nodes && n in g.nodes && p != n && g'.nodes.Keys == g.nodes.Keys - {n}
    requires Recorded(t, g, forward)
    requires forall x, y :: y in Related(forward', x) <==>
               (x == n && y == p) ||
               if y == p then p in Related(forward, x) || n in Related(forward, x) else y != n && y in Related(forward, x)
    ensures Recorded(Joined(t, p, n), g', forward')
  {
    assert StandsFor(src, g, n, t.chain[n]) && Owns(t, n);
    assert t.home[t.chain[n][0]] == n;
    forall x, b
      ensures b in Related(forward', x) <==>
                x in t.home && x !in g'.nodes && b == Joined(t, p, n).home[x]
    {
      if x == n {
        assert Related(forward, n) == {};
      }
    }
  }

  /** The maps after a merge stay converse, and record it if no link is lost. */
  lemma MappingKeepsUp(src: Graph, g: Graph, t: Partition, p: NodeId, n: NodeId, lost: bool, forward: Relation,
                       backward: Relation)
    requires Converse(forward, backward) && WellFormed(g) && Exclusive(g, p, n)
    requires !lost ==> Reduced(src, g, t) && Recorded(t, g, forward) && p !in g.nodes[n].fanout
    ensures Converse(WithPair(Renamed(forward, n, p), n, p), WithPair(Moved(backward, n, p), p, n))
    ensures !lost ==> Recorded(Joined(t, p, n), MergedGraph(g, p, n), WithPair(Renamed(forward, n, p), n, p))
  {
    MergeKeepsConverse(forward, backward, n, p);
    PairKeepsConverse(Renamed(forward, n, p), Moved(backward, n, p), n, p);
    if !lost {
      MergedGraphMerges(g, p, n);
      RecordMerge(src, g, MergedGraph(g, p, n), t, p, n, forward, WithPair(Renamed(forward, n, p), n, p));
    }
  }

  /** Merges n into its only driver p, in the graph and in the mapping. */
  method MergeNode(m: MRRG, mapping: InterMRRGMap, p: NodeId, n: NodeId) returns (ok: bool)
    requires WellFormed(m.View()) && Exclusive(m.View(), p, n)
    modifies m, mapping
    ensures ok <==> old(MayMerge(m.View(), p, n))
    ensures ok ==> m.View() == MergedGraph(old(m.View()), p, n)
    ensures ok ==> mapping.forward == WithPair(Renamed(old(mapping.forward), n, p), n, p)
    ensures ok ==> mapping.backward == WithPair(Moved(old(mapping.backward), n, p), p, n)
  {
    ok := MergeInto(m, p, n);
    if ok {
      mapping.MergeDescriptors(n, p);
      mapping.AddMapping(n, p);
    }
  }

  // What the loop keeps when i routing nodes have been considered.
  ghost predicate Looping(src: Graph, g: Graph, forward: Relation, backward: Relation, t: Partition, lost: bool,
                          routing: seq<NodeId>, i: nat, removed: set<NodeId>)
  {
    && At(src, g, routing, i, t, lost) && g.nodes.Keys == src.nodes.Keys - removed
    && Converse(forward, backward) && (!lost ==> Recorded(t, g, forward))
  }

  lemma LoopingSkips(src: Graph, g: Graph, forward: Relation, backward: Relation, t: Partition, lost: bool,
                     routing: seq<NodeId>, i: nat, removed: set<NodeId>)
    requires Looping(src, g, forward, backward, t, lost, routing, i, removed)
    requires ListsRouting(src, routing) && i < |routing| && ExclusiveDriver(g, routing[i]).None?
    ensures Looping(src, g, forward, backward, t, lost, routing, i + 1, removed)
  {
    var t', lost' := StepIsTracked(src, g, routing, i, t, lost);
  }

  lemma LoopingMerges(src: Graph, g: Graph, forward: Relation, backward: Relation, t: Partition, lost: bool,
                      routing: seq<NodeId>, i: nat, removed: set<NodeId>, p: NodeId)
    returns (t': Partition, lost': bool)
    requires Looping(src, g, forward, backward, t, lost, routing, i, removed)
    requires ListsRouting(src, routing) && i < |routing| && ExclusiveDriver(g, routing[i]) == Some(p)
    requires MayMerge(g, p, routing[i])
    ensures Looping(src, MergedGraph(g, p, routing[i]), WithPair(Renamed(forward, routing[i], p), routing[i], p),
                    WithPair(Moved(backward, routing[i], p), p, routing[i]), t', lost', routing, i + 1, removed + {routing[i]})
  {
    var n := routing[i];
    Drivers(g, n);
    t', lost' := StepIsTracked(src, g, routing, i, t, lost);
    assert Step(g, n) == Some(MergedGraph(g, p, n));
    MergeIsKept(src, g, p, n);
    MappingKeepsUp(src, g, t, p, n, lost', forward, backward);
  }

  /** Merges n if it has one driver, which routes and drives nothing else. */
  method ConsiderNode(src: Graph, m: MRRG, mapping: InterMRRGMap, n: NodeId, removed: set<NodeId>,
                      ghost t: Partition, ghost lost: bool, ghost routing: seq<NodeId>, ghost i: nat)
    returns (ok: bool, removed': set<NodeId>, ghost t': Partition, ghost lost': bool)
    requires Looping(src, m.View(), mapping.forward, mapping.backward, t, lost, routing, i, removed)
    requires n in m.nodes && ListsRouting(src, routing) && i < |routing| && routing[i] == n
    modifies m, mapping
    ensures ok <==> Step(old(m.View()), n).Some?
    ensures ok ==> m.View() == Step(old(m.View()), n).value
    ensures ok ==> Looping(src, m.View(), mapping.forward, mapping.backward, t', lost', routing, i + 1, removed')
  {
    ok, removed', t', lost' := true, removed, t, lost;
    ghost var g, forward, backward := m.View(), mapping.forward, mapping.backward;
    Drivers(g, n);
    if |m.nodes[n].fanin| == 1 {
      var p := m.nodes[n].fanin[0];
      if m.nodes[p].kind.Routing? && |m.nodes[p].fanout| == 1 {
        ok := MergeNode(m, mapping, p, n);
        if ok {
          removed' := removed + {n};
          t', lost' := LoopingMerges(src, g, forward, backward, t, lost, routing, i, removed, p);
        }
        return;
      }
    }
    LoopingSkips(src, g, forward, backward, t, lost, routing, i, removed);
  }

  /** The loop over the routing nodes, in any order. */
  method MergeAll(src: Graph, m: MRRG, mapping: InterMRRGMap, routing: seq<NodeId>)
    returns (ok: bool, ghost t: Partition, ghost lost: bool)
    requires WellFormed(src) && m.View() == src && mapping.forward == mapping.backward == map[]
    requires ListsRouting(src, routing)
    modifies m, mapping
    ensures ok <==> Reduce(src, routing, 0).Some?
    ensures ok ==> m.View() == Reduce(src, routing, 0).value && Converse(mapping.forward, mapping.backward)
    ensures ok ==> At(src, m.View(), routing, |routing|, t, lost) && (!lost ==> Recorded(t, m.View(), mapping.forward))
  {
    var removed: set<NodeId> := {};
    t, lost := Initial(src), false;
    LoopStarts(src, routing);
    for i := 0 to |routing|
      invariant Reduce(src, routing, 0) == Reduce(m.View(), routing, i)
      invariant Looping(src, m.View(), mapping.forward, mapping.backward, t, lost, routing, i, removed)
    {
      var n := routing[i];
      assert n in routing;
      if n !in removed {
        ok, removed, t, lost := ConsiderNode(src, m, mapping, n, removed, t, lost, routing, i);
        if !ok {
          return;
        }
      }
    }
    ok := true;
  }

  lemma HomesOfTheRest(src: Graph, g: Graph, t: Partition, forward: Relation, forward': Relation)
    requires Reduced(src, g, t) && Recorded(t, g, forward)
    requires forall a, b :: b in Related(forward', a) <==>
               b in Related(forward, a) || (a == b && a in src.nodes && a in g.nodes)
    ensures MapsHome(t, forward')
  {
    forall x | x in g.nodes
      ensures x in t.home && t.home[x] == x
    {
      assert StandsFor(src, g, x, t.chain[x]) && Owns(t, x);
    }
  }

  /** reduceLosslessly, for a given order of the routing nodes. The graph is the one that Reduce
      describes; if that is lossless, the mapping takes each old node to
      exactly the node it went into and back. */
  method ReduceInOrder(src: Graph, routing: seq<NodeId>)
    returns (ok: bool, transformed: MRRG, mapping: InterMRRGMap, ghost t: Partition)
    requires WellFormed(src) && ListsRouting(src, routing)
    ensures fresh(transformed) && fresh(mapping)
    ensures ok <==> Reduce(src, routing, 0).Some?
    ensures ok ==> transformed.View() == Reduce(src, routing, 0).value
    ensures ok ==> Converse(mapping.forward, mapping.backward)
    ensures ok && Lossless(src, transformed.View()) ==>
              Reduced(src, transformed.View(), t) && MapsHome(t, mapping.forward)
  {
    transformed := new MRRG(src);
    mapping := new InterMRRGMap();
    ghost var lost: bool;
    ok, t, lost := MergeAll(src, transformed, mapping, routing);
    if ok {
      ghost var g := transformed.View();
      ghost var forward := mapping.forward;
      mapping.AddAllByMatchingProperties(src, transformed.View());
      LossIsExact(src, g, routing, t, lost);
      if !lost {
        HomesOfTheRest(src, g, t, forward, mapping.forward);
      }
    }
  }

  /** reduceLosslessly. Without nodes that both route and compute, the result is a lossless
      reduction exactly when the source has no closed chain; then nothing is
      left to merge, and only a link that disagrees can make it fail. */
  method ReduceLosslessly(src: Graph) returns (ok: bool, transformed: MRRG, mapping: InterMRRGMap, ghost t: Partition)
    requires WellFormed(src)
    ensures fresh(transformed) && fresh(mapping)
    ensures NoRoutingFunctions(src) && Agreeable(src) && !HasClosedChain(src) ==> ok
    ensures ok ==> Kept(src, transformed.View()) && Converse(mapping.forward, mapping.backward)
    ensures ok && NoRoutingFunctions(src) ==> (Lossless(src, transformed.View()) <==> !HasClosedChain(src))
    ensures ok && Lossless(src, transformed.View()) ==>
              Reduced(src, transformed.View(), t) && MapsHome(t, mapping.forward)
    ensures ok && NoRoutingFunctions(src) && Lossless(src, transformed.View()) ==> Irreducible(transformed.View())
  {
    var functionNodes, routing := ComputeNodeClassLists(src);
    assert ListsRouting(src, routing);
    if NoRoutingFunctions(src) && !HasClosedChain(src) {
      EveryOrderSucceeds(src);
    }
    ok, transformed, mapping, t := ReduceInOrder(src, routing);
    if ok {
      ReductionOutcome(src, routing);
    }
  }
}

// The mapping of a dataflow graph onto an MRRG, and the check of its connectivity.
module Mappings {
  import opened Mrrg
  import opened Walks
  import opened OpGraphs

  datatype OgNode = OpNode(op: nat) | ValNode(val: nat)
  datatype Status = Success | Failure | Timeout

  type NodeLists = map<OgNode, seq<NodeId>>

  /** What mapping[k] reads: an absent entry counts as an empty list. */
  function ListOf(lists: NodeLists, k: OgNode): seq<NodeId> {
    if k in lists then lists[k] else []
  }

  ghost predicate Closed(g: Graph) {
    forall n, m :: n in g.nodes && m in g.nodes[n].fanout ==> m in g.nodes
  }

  /** A walk from src to sink whose inner nodes all belong to the value, and
      whose last link is also recorded at the sink. */
  ghost predicate Connects(g: Graph, valMap: seq<NodeId>, src: NodeId, sink: NodeId, path: seq<NodeId>) {
    && |path| >= 2 && IsWalk(g, path) && path[0] == src && Last(path) == sink
    && (forall k :: 1 <= k < |path| - 1 ==> path[k] in valMap)
    && path[|path| - 2] in g.nodes[sink].fanin
  }

  /** The search has seen all there is to see behind n. */
  ghost predicate Exhausted(g: Graph, valMap: seq<NodeId>, visited: set<NodeId>, sink: NodeId, n: NodeId)
    requires n in g.nodes && sink in g.nodes
  {
    forall m :: m in g.nodes[n].fanout ==>
      && !(m == sink && n in g.nodes[sink].fanin)
      && (m in valMap ==> m in visited)
  }

  /** The depth-first search; visited is shared by all its calls. The ghost set
      bounds what it can visit. */
  method FindSink(g: Graph, valMap: seq<NodeId>, visited: set<NodeId>, src: NodeId, sink: NodeId,
                  ghost universe: set<NodeId>)
    returns (found: bool, visited': set<NodeId>, ghost path: seq<NodeId>)
    requires Closed(g) && src in g.nodes && sink in g.nodes
    requires src in universe && src !in visited && visited <= universe <= g.nodes.Keys
    requires forall n :: n in valMap && n in g.nodes ==> n in universe
    ensures visited + {src} <= visited' <= universe
    ensures found ==> Connects(g, valMap, src, sink, path)
    ensures !found ==> forall n :: n in visited' && n !in visited ==> Exhausted(g, valMap, visited', sink, n)
    decreases universe - visited
  {
    visited' := visited + {src};
    path := [];
    var fanout := g.nodes[src].fanout;
    for i := 0 to |fanout|
      invariant visited + {src} <= visited' <= universe
      invariant forall n :: n in visited' && n !in visited && n != src ==> Exhausted(g, valMap, visited', sink, n)
      invariant forall m :: m in fanout[..i] ==>
                  !(m == sink && src in g.nodes[sink].fanin) && (m in valMap ==> m in visited')
    {
      var fo := fanout[i];
      assert fo in fanout && fanout[..i + 1] == fanout[..i] + [fo];
      if fo == sink && src in g.nodes[sink].fanin {
        path := [src, sink];
        return true, visited', path;
      }
      if fo in valMap && fo !in visited' {
        ghost var rest;
        found, visited', rest := FindSink(g, valMap, visited', fo, sink, universe);
        if found {
          WalkCons(g, src, rest);
          path := [src] + rest;
          return true, visited', path;
        }
      }
    }
    found := false;
  }

  lemma {:induction false} PathStaysVisited(g: Graph, valMap: seq<NodeId>, visited: set<NodeId>, sink: NodeId,
                                            path: seq<NodeId>, k: nat)
    requires sink in g.nodes && visited <= g.nodes.Keys && IsWalk(g, path)
    requires forall n :: n in visited ==> Exhausted(g, valMap, visited, sink, n)
    requires path[0] in visited && k < |path| - 1
    requires forall j :: 1 <= j < |path| - 1 ==> path[j] in valMap
    ensures path[k] in visited
  {
    if k > 0 {
      PathStaysVisited(g, valMap, visited, sink, path, k - 1);
      assert Exhausted(g, valMap, visited, sink, path[k - 1]);
      assert path[(k - 1) + 1] in g.nodes[path[k - 1]].fanout;
    }
  }

  lemma NoPathOut(g: Graph, valMap: seq<NodeId>, visited: set<NodeId>, src: NodeId, sink: NodeId, path: seq<NodeId>)
    requires sink in g.nodes && visited <= g.nodes.Keys && src in visited
    requires forall n :: n in visited ==> Exhausted(g, valMap, visited, sink, n)
    ensures !Connects(g, valMap, src, sink, path)
  {
    if Connects(g, valMap, src, sink, path) {
      var k := |path| - 2;
      assert path[k + 1] in g.nodes[path[k]].fanout;
      PathStaysVisited(g, valMap, visited, sink, path, k);
    }
  }

  /** find_sink with a fresh visited map decides whether a path exists. */
  method Reaches(g: Graph, valMap: seq<NodeId>, src: NodeId, sink: NodeId) returns (found: bool)
    requires Closed(g) && src in g.nodes && sink in g.nodes
    ensures found <==> exists path :: Connects(g, valMap, src, sink, path)
  {
    ghost var path;
    var visited;
    found, visited, path := FindSink(g, valMap, {}, src, sink, g.nodes.Keys);
    if !found {
      forall path {
        NoPathOut(g, valMap, visited, src, sink, path);
      }
    }
  }

  // What an accepted mapping is.

  ghost predicate OpsPlaced(og: OpGraph, g: Graph, lists: NodeLists) {
    forall op: nat :: op < |og.ops| ==>
      && |ListOf(lists, OpNode(op))| == 1
      && ListOf(lists, OpNode(op))[0] in g.nodes
      && CanMapOp(g.nodes[ListOf(lists, OpNode(op))[0]], og.ops[op])
  }

  ghost predicate NoShorts(og: OpGraph, lists: NodeLists) {
    forall v: nat, w: nat, n :: v < |og.vals| && w < |og.vals| && v != w && n in ListOf(lists, ValNode(v)) ==>
      n !in ListOf(lists, ValNode(w))
  }

  ghost predicate SinkConnected(og: OpGraph, g: Graph, lists: NodeLists, v: nat, i: nat)
    requires Consistent(og) && OpsPlaced(og, g, lists) && v < |og.vals| && i < |og.vals[v].outputs|
  {
    exists path :: Connects(g, ListOf(lists, ValNode(v)), ListOf(lists, OpNode(og.vals[v].input))[0],
                            ListOf(lists, OpNode(og.vals[v].outputs[i]))[0], path)
  }

  ghost predicate AllConnected(og: OpGraph, g: Graph, lists: NodeLists, n: nat)
    requires Consistent(og) && OpsPlaced(og, g, lists) && n <= |og.vals|
  {
    forall v: nat, i: nat :: v < n && i < |og.vals[v].outputs| ==> SinkConnected(og, g, lists, v, i)
  }

  /** One legal functional unit for every operation, no routing node shared by
      two values, and every sink of every value connected to its source. */
  ghost predicate Accepted(og: OpGraph, g: Graph, lists: NodeLists)
    requires Consistent(og)
  {
    && OpsPlaced(og, g, lists)
    && NoShorts(og, lists)
    && AllConnected(og, g, lists, |og.vals|)
  }

  class Mapping {
    var lists: NodeLists
    var status: Status

    constructor ()
      ensures lists == map[] && status == Failure
    {
      lists, status := map[], Failure;
    }

    method MapMRRGNode(k: OgNode, n: NodeId)
      modifies this`lists
      ensures lists == old(lists)[k := ListOf(old(lists), k) + [n]]
      ensures forall x :: ListOf(lists, x) == if x == k then ListOf(old(lists), k) + [n] else ListOf(old(lists), x)
    {
      lists := lists[k := ListOf(lists, k) + [n]];
    }

    /** mapping[k] of the C++, which creates the entry it does not find. */
    method At(k: OgNode) returns (l: seq<NodeId>)
      modifies this`lists
      ensures l == ListOf(old(lists), k)
      ensures forall x :: ListOf(lists, x) == ListOf(old(lists), x)
    {
      if k !in lists {
        lists := lists[k := []];
      }
      l := lists[k];
    }

    method CheckOps(og: OpGraph, g: Graph) returns (ok: bool)
      requires forall k, n :: n in ListOf(lists, k) ==> n in g.nodes
      modifies this`lists
      ensures forall x :: ListOf(lists, x) == ListOf(old(lists), x)
      ensures ok <==> OpsPlaced(og, g, lists)
    {
      for op := 0 to |og.ops|
        invariant forall x :: ListOf(lists, x) == ListOf(old(lists), x)
        invariant forall o: nat :: o < op ==>
                    && |ListOf(lists, OpNode(o))| == 1
                    && CanMapOp(g.nodes[ListOf(lists, OpNode(o))[0]], og.ops[o])
      {
        var l := At(OpNode(op));
        if |l| != 1 {
          return false;
        }
        assert l[0] in l;
        if !CanMapOp(g.nodes[l[0]], og.ops[op]) {
          return false;
        }
      }
      return true;
    }

    method CheckShorts(og: OpGraph) returns (ok: bool)
      modifies this`lists
      ensures forall x :: ListOf(lists, x) == ListOf(old(lists), x)
      ensures ok <==> NoShorts(og, lists)
    {
      for v := 0 to |og.vals|
        invariant forall x :: ListOf(lists, x) == ListOf(old(lists), x)
        invariant forall x: nat, w: nat, n :: x < v && w < |og.vals| && x != w && n in ListOf(lists, ValNode(x)) ==>
                    n !in ListOf(lists, ValNode(w))
      {
        for w := 0 to |og.vals|
          invariant forall x :: ListOf(lists, x) == ListOf(old(lists), x)
          invariant forall x: nat, n :: x < w && v != x && n in ListOf(lists, ValNode(v)) ==>
                      n !in ListOf(lists, ValNode(x))
        {
          if v != w {
            var first := At(ValNode(v));
            var second := At(ValNode(w));
            var short := Intersect(first, second);
            if short {
              return false;
            }
          }
        }
      }
      return true;
    }

    method CheckSinks(og: OpGraph, g: Graph, v: nat) returns (ok: bool)
      requires Consistent(og) && Closed(g) && OpsPlaced(og, g, lists) && v < |og.vals|
      modifies this`lists
      ensures forall x :: ListOf(lists, x) == ListOf(old(lists), x)
      ensures ok <==> forall i: nat :: i < |og.vals[v].outputs| ==> SinkConnected(og, g, old(lists), v, i)
    {
      ok := true;
      for i := 0 to |og.vals[v].outputs|
        invariant forall x :: ListOf(lists, x) == ListOf(old(lists), x)
        invariant ok <==> forall j: nat :: j < i ==> SinkConnected(og, g, old(lists), v, j)
      {
        var src := At(OpNode(og.vals[v].input));
        var sink := At(OpNode(og.vals[v].outputs[i]));
        var valMap := At(ValNode(v));
        var found := Reaches(g, valMap, src[0], sink[0]);
        assert found <==> SinkConnected(og, g, old(lists), v, i);
        ok := ok && found;
      }
    }

    method CheckAllSinks(og: OpGraph, g: Graph) returns (ok: bool)
      requires Consistent(og) && Closed(g) && OpsPlaced(og, g, lists)
      modifies this`lists
      ensures forall x :: ListOf(lists, x) == ListOf(old(lists), x)
      ensures ok <==> AllConnected(og, g, old(lists), |og.vals|)
    {
      ok := true;
      for v := 0 to |og.vals|
        invariant forall x :: ListOf(lists, x) == ListOf(old(lists), x)
        invariant ok <==> AllConnected(og, g, old(lists), v)
      {
        SameListsConnect(og, g, lists, old(lists), v);
        var here := CheckSinks(og, g, v);
        ok := ok && here;
      }
    }

    /** The connectivity check says exactly whether the mapping is acceptable,
        and leaves every node list as it was. */
    method VerifyOpGraphMappingConnectivity(og: OpGraph, g: Graph) returns (result: bool)
      requires Consistent(og) && Closed(g)
      requires forall k, n :: n in ListOf(lists, k) ==> n in g.nodes
      modifies this`lists
      ensures forall x :: ListOf(lists, x) == ListOf(old(lists), x)
      ensures result <==> Accepted(og, g, old(lists))
    {
      result := CheckOps(og, g);
      if result {
        result := CheckShorts(og);
        if result {
          ghost var before := lists;
          result := CheckAllSinks(og, g);
          SameListsAllConnect(og, g, before, old(lists));
        }
      }
    }
  }

  lemma SameListsAreAccepted(og: OpGraph, g: Graph, a: NodeLists, b: NodeLists)
    requires Consistent(og) && forall x :: ListOf(a, x) == ListOf(b, x)
    ensures Accepted(og, g, a) <==> Accepted(og, g, b)
  {
    if OpsPlaced(og, g, a) {
      SameListsAllConnect(og, g, a, b);
    }
  }

  lemma SameListsAllConnect(og: OpGraph, g: Graph, a: NodeLists, b: NodeLists)
    requires Consistent(og) && OpsPlaced(og, g, a)
    requires forall x :: ListOf(a, x) == ListOf(b, x)
    ensures OpsPlaced(og, g, b)
    ensures AllConnected(og, g, a, |og.vals|) <==> AllConnected(og, g, b, |og.vals|)
  {
    forall v: nat | v < |og.vals| {
      SameListsConnect(og, g, a, b, v);
    }
  }

  /** Only the lists themselves matter, not which of the empty ones are stored. */
  lemma SameListsConnect(og: OpGraph, g: Graph, a: NodeLists, b: NodeLists, v: nat)
    requires Consistent(og) && OpsPlaced(og, g, a) && OpsPlaced(og, g, b) && v < |og.vals|
    requires forall x :: ListOf(a, x) == ListOf(b, x)
    ensures forall i: nat :: i < |og.vals[v].outputs| ==> (SinkConnected(og, g, a, v, i) <==> SinkConnected(og, g, b, v, i))
  {
  }

  method Intersect(a: seq<NodeId>, b: seq<NodeId>) returns (yes: bool)
    ensures yes <==> exists n :: n in a && n in b
  {
    for i := 0 to |a|
      invariant forall n :: n in a[..i] ==> n !in b
    {
      for j := 0 to |b|
        invariant a[i] !in b[..j]
      {
        if a[i] == b[j] {
          assert a[i] in a && b[j] in b;
          return true;
        }
      }
      assert b[..|b|] == b;
    }
    assert a[..|a|] == a;
    return false;
  }
}

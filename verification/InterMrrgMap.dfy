// The two-way relation between the nodes of an MRRG and those of a
// transformed copy. The two graphs never share a node, even where a node and
// its copy have the same cycle and name.
module InterMrrgMap {
  import opened Mrrg

  type Relation = map<NodeId, set<NodeId>>

  function Related(r: Relation, n: NodeId): set<NodeId> {
    if n in r then r[n] else {}
  }

  function WithPair(r: Relation, a: NodeId, b: NodeId): Relation {
    r[a := Related(r, a) + {b}]
  }

  /** Each direction of the relation is the other one turned around. */
  ghost predicate Converse(forward: Relation, backward: Relation) {
    forall a, b :: b in Related(forward, a) <==> a in Related(backward, b)
  }

  lemma PairKeepsConverse(forward: Relation, backward: Relation, a: NodeId, b: NodeId)
    requires Converse(forward, backward)
    ensures Converse(WithPair(forward, a, b), WithPair(backward, b, a))
    ensures forall x, y :: y in Related(WithPair(forward, a, b), x) <==> y in Related(forward, x) || (x == a && y == b)
  {
    var f, k := WithPair(forward, a, b), WithPair(backward, b, a);
    forall x, y
      ensures y in Related(f, x) <==> y in Related(forward, x) || (x == a && y == b)
      ensures x in Related(k, y) <==> x in Related(backward, y) || (x == a && y == b)
    {
    }
  }

  lemma ConverseOfIdentity(forward: Relation, backward: Relation, keys: set<NodeId>)
    requires Converse(forward, backward)
    requires forall a, b :: b in Related(forward, a) <==> a == b && a in keys
    ensures forall a, b :: b in Related(backward, a) <==> a == b && a in keys
  {
    forall a, b
      ensures b in Related(backward, a) <==> a == b && a in keys
    {
      assert a in Related(forward, b) <==> a == b && b in keys;
    }
  }

  /** Every mention of from becomes one of into. */
  function Renamed(r: Relation, from: NodeId, into: NodeId): Relation {
    map a | a in r :: if from in r[a] then r[a] - {from} + {into} else r[a]
  }

  /** What is stored under from moves to into. */
  function Moved(r: Relation, from: NodeId, into: NodeId): Relation {
    if from in r then (r - {from})[into := r[from] + Related(r - {from}, into)] else r
  }

  lemma MergeKeepsConverse(forward: Relation, backward: Relation, from: NodeId, into: NodeId)
    requires Converse(forward, backward)
    ensures Converse(Renamed(forward, from, into), Moved(backward, from, into))
    ensures forall x, y :: y in Related(Renamed(forward, from, into), x) <==>
              if y == into then into in Related(forward, x) || from in Related(forward, x)
              else y != from && y in Related(forward, x)
  {
    var f, k := Renamed(forward, from, into), Moved(backward, from, into);
    forall x, y
      ensures y in Related(f, x) <==>
                if y == into then into in Related(forward, x) || from in Related(forward, x)
                else y != from && y in Related(forward, x)
      ensures x in Related(k, y) <==>
                if y == into then x in Related(backward, into) || x in Related(backward, from)
                else y != from && x in Related(backward, y)
    {
    }
  }

  class InterMRRGMap {
    var forward: Relation
    var backward: Relation

    constructor ()
      ensures forward == map[] && backward == map[]
    {
      forward, backward := map[], map[];
    }

    function OldNodesForNewNode(n: NodeId): set<NodeId>
      reads this
    {
      Related(backward, n)
    }

    method AddMapping(oldNode: NodeId, newNode: NodeId)
      modifies this
      ensures forward == WithPair(old(forward), oldNode, newNode)
      ensures backward == WithPair(old(backward), newNode, oldNode)
      ensures old(Converse(forward, backward)) ==> Converse(forward, backward)
      ensures forall x, y :: y in Related(forward, x) <==>
                y in old(Related(forward, x)) || (x == oldNode && y == newNode)
    {
      if Converse(forward, backward) {
        PairKeepsConverse(forward, backward, oldNode, newNode);
      }
      forward := forward[oldNode := Related(forward, oldNode) + {newNode}];
      backward := backward[newNode := Related(backward, newNode) + {oldNode}];
    }

    /** Relates every old node to the copy that has its cycle and name, where there is one. */
    method AddAllByMatchingProperties(src: Graph, transformed: Graph)
      modifies this
      requires Converse(forward, backward)
      ensures Converse(forward, backward)
      ensures forall a, b :: b in Related(forward, a) <==>
                b in old(Related(forward, a)) || (a == b && a in src.nodes && a in transformed.nodes)
    {
      var todo := src.nodes.Keys;
      while todo != {}
        invariant todo <= src.nodes.Keys
        invariant Converse(forward, backward)
        invariant forall a, b :: b in Related(forward, a) <==>
                    b in old(Related(forward, a)) ||
                    (a == b && a in src.nodes && a !in todo && a in transformed.nodes)
        decreases todo
      {
        var n :| n in todo;
        todo := todo - {n};
        if n in transformed.nodes {
          AddMapping(n, n);
        }
      }
      todo := transformed.nodes.Keys;
      while todo != {}
        invariant todo <= transformed.nodes.Keys
        invariant Converse(forward, backward)
        invariant forall a, b :: b in Related(forward, a) <==>
                    b in old(Related(forward, a)) || (a == b && a in src.nodes && a in transformed.nodes)
        decreases todo
      {
        var n :| n in todo;
        todo := todo - {n};
        if n in src.nodes {
          AddMapping(n, n);
        }
      }
    }

    /** Renames a node of the transformed graph: it is mentioned by the forward
        map, and is a key of the backward map. */
    method MergeDescriptors(from: NodeId, into: NodeId)
      modifies this
      ensures forward == Renamed(old(forward), from, into) && backward == Moved(old(backward), from, into)
    {
      var todo := forward.Keys;
      ghost var before := forward;
      while todo != {}
        invariant todo <= forward.Keys == before.Keys && backward == old(backward)
        invariant forall a :: a in before ==>
                    forward[a] == if a in todo then before[a] else Renamed(before, from, into)[a]
        decreases todo
      {
        var a :| a in todo;
        todo := todo - {a};
        if from in forward[a] {
          forward := forward[a := forward[a] - {from} + {into}];
        }
      }
      if from in backward {
        var src := backward[from];
        backward := backward - {from};
        backward := backward[into := src + Related(backward, into)];
      }
    }
  }
}

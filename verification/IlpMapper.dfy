// The ILP mapper from end to end: insert mux nodes, build the model, have it
// solved, decode the solution, and map it back onto the MRRG it was asked for.
module IlpMapper {
  import opened Wrappers
  import opened Seqs
  import opened Mrrg
  import opened Walks
  import opened OpGraphs
  import opened InterMrrgMap
  import opened MuxExInsertion
  import opened MuxExWalks
  import opened IlpModel
  import IlpGenerators
  import opened IlpSoundness
  import IlpCompleteness
  import MuxExLayouts
  import opened Mappings

  datatype SolverResult =
    | Found(optimal: bool, a: Assignment)
    | Infeasible
    | TimedOut
    | Interrupted
    | Unlisted

  /** The solver is trusted for one thing: what it returns satisfies the model. */
  ghost predicate Honest(solve: seq<Entry> -> SolverResult) {
    forall es: seq<Entry> :: solve(es).Found? ==> InRange(solve(es).a) && forall e :: e in es ==> Holds(solve(es).a, e.c)
  }

  /** A solver that calls a model infeasible only if it is. */
  ghost predicate Exhaustive(solve: seq<Entry> -> SolverResult) {
    forall es: seq<Entry>, a ::
      solve(es).Infeasible? && InRange(a) ==> exists e :: e in es && !Holds(a, e.c)
  }

  /** The routing nodes that the assignment gives to value v. */
  function UsedNodes(a: Assignment, v: nat, routing: seq<NodeId>): seq<NodeId> {
    if routing == [] then []
    else
      var r := routing[|routing| - 1];
      UsedNodes(a, v, routing[..|routing| - 1]) + (if a(R(v, r)) == 1 then [r] else [])
  }

  /** The functional units that the assignment gives to operation op. */
  function UsedUnits(a: Assignment, op: nat, functions: seq<NodeId>): seq<NodeId> {
    if functions == [] then []
    else
      var f := functions[|functions| - 1];
      UsedUnits(a, op, functions[..|functions| - 1]) + (if a(F(op, f)) == 1 then [f] else [])
  }

  lemma {:induction false} UsedNodesAre(a: Assignment, v: nat, routing: seq<NodeId>, n: NodeId)
    ensures n in UsedNodes(a, v, routing) <==> n in routing && a(R(v, n)) == 1
  {
    if routing != [] {
      assert routing == routing[..|routing| - 1] + [routing[|routing| - 1]];
      UsedNodesAre(a, v, routing[..|routing| - 1], n);
    }
  }

  lemma {:induction false} UsedUnitsAre(a: Assignment, op: nat, functions: seq<NodeId>)
    requires NoDup(functions)
    ensures forall n :: n in UsedUnits(a, op, functions) <==> n in functions && a(F(op, n)) == 1
    ensures NoDup(UsedUnits(a, op, functions))
  {
    if functions != [] {
      var init, f := functions[..|functions| - 1], functions[|functions| - 1];
      assert functions == init + [f];
      UsedUnitsAre(a, op, init);
      assert f !in UsedUnits(a, op, init);
      AppendNoDup(UsedUnits(a, op, init), f);
    }
  }

  ghost predicate ValuesDecoded(p: Problem, a: Assignment, lists: NodeLists) {
    ValuesDecodedTo(p, a, lists, |p.og.vals|)
  }

  // The first n values have been decoded.
  ghost predicate ValuesDecodedTo(p: Problem, a: Assignment, lists: NodeLists, n: nat) {
    forall v: nat {:trigger ListOf(lists, ValNode(v))} ::
      ListOf(lists, ValNode(v)) == if v < n then UsedNodes(a, v, p.routing) else []
  }

  lemma OneMoreValue(p: Problem, a: Assignment, before: NodeLists, lists: NodeLists, n: nat)
    requires ValuesDecodedTo(p, a, before, n) && ListOf(lists, ValNode(n)) == UsedNodes(a, n, p.routing)
    requires forall k :: k != ValNode(n) ==> ListOf(lists, k) == ListOf(before, k)
    ensures ValuesDecodedTo(p, a, lists, n + 1)
  {
  }

  ghost predicate OpsDecoded(p: Problem, a: Assignment, lists: NodeLists) {
    forall op: nat :: ListOf(lists, OpNode(op)) == if op < |p.og.ops| then UsedUnits(a, op, p.functions) else []
  }

  /** The lists hold what the assignment sets, and nothing else. */
  ghost predicate Decoded(p: Problem, a: Assignment, lists: NodeLists) {
    ValuesDecoded(p, a, lists) && OpsDecoded(p, a, lists)
  }

  method DecodeValue(p: Problem, a: Assignment, m: Mapping, v: nat)
    requires ListOf(m.lists, ValNode(v)) == []
    modifies m`lists
    ensures ListOf(m.lists, ValNode(v)) == UsedNodes(a, v, p.routing)
    ensures forall k :: k != ValNode(v) ==> ListOf(m.lists, k) == ListOf(old(m.lists), k)
  {
    for j := 0 to |p.routing|
      invariant ListOf(m.lists, ValNode(v)) == UsedNodes(a, v, p.routing[..j])
      invariant forall k :: k != ValNode(v) ==> ListOf(m.lists, k) == ListOf(old(m.lists), k)
    {
      assert p.routing[..j + 1][..j] == p.routing[..j];
      if a(R(v, p.routing[j])) == 1 {
        m.MapMRRGNode(ValNode(v), p.routing[j]);
      }
    }
    assert p.routing[..|p.routing|] == p.routing;
  }

  method DecodeValues(p: Problem, a: Assignment, m: Mapping)
    requires m.lists == map[]
    modifies m`lists
    ensures ValuesDecoded(p, a, m.lists)
    ensures forall op: nat :: ListOf(m.lists, OpNode(op)) == []
  {
    for v := 0 to |p.og.vals|
      invariant ValuesDecodedTo(p, a, m.lists, v)
      invariant forall op: nat :: ListOf(m.lists, OpNode(op)) == []
    {
      ghost var before := m.lists;
      DecodeValue(p, a, m, v);
      OneMoreValue(p, a, before, m.lists, v);
    }
  }

  method DecodeOps(p: Problem, a: Assignment, m: Mapping)
    requires forall op: nat :: ListOf(m.lists, OpNode(op)) == []
    modifies m`lists
    ensures OpsDecoded(p, a, m.lists)
    ensures forall v: nat :: ListOf(m.lists, ValNode(v)) == ListOf(old(m.lists), ValNode(v))
  {
    for op := 0 to |p.og.ops|
      invariant forall v: nat :: ListOf(m.lists, ValNode(v)) == ListOf(old(m.lists), ValNode(v))
      invariant forall o: nat :: ListOf(m.lists, OpNode(o)) == if o < op then UsedUnits(a, o, p.functions) else []
    {
      for j := 0 to |p.functions|
        invariant forall v: nat :: ListOf(m.lists, ValNode(v)) == ListOf(old(m.lists), ValNode(v))
        invariant forall o: nat :: o != op ==>
                    ListOf(m.lists, OpNode(o)) == if o < op then UsedUnits(a, o, p.functions) else []
        invariant ListOf(m.lists, OpNode(op)) == UsedUnits(a, op, p.functions[..j])
      {
        assert p.functions[..j + 1][..j] == p.functions[..j];
        if a(F(op, p.functions[j])) == 1 {
          m.MapMRRGNode(OpNode(op), p.functions[j]);
        }
      }
      assert p.functions[..|p.functions|] == p.functions;
    }
  }

  /** What decoding a solution gives: a mapping that the connectivity check accepts. */
  lemma DecodedIsAccepted(p: Problem, a: Assignment, lists: NodeLists)
    requires Posed(p) && IlpGenerators.Accepted(p) && Solves(p, a) && Decoded(p, a, lists)
    ensures Accepted(p.og, p.g, lists)
  {
    forall op: nat | op < |p.og.ops| {
      DecodedOp(p, a, lists, op);
    }
    forall v: nat, w: nat, n | v < |p.og.vals| && w < |p.og.vals| && v != w && n in ListOf(lists, ValNode(v))
      ensures n !in ListOf(lists, ValNode(w))
    {
      UsedNodesAre(a, v, p.routing, n);
      UsedNodesAre(a, w, p.routing, n);
      if n in p.routing {
        ValuesApart(p, a, v, w, n);
      }
    }
    forall v: nat, i: nat | v < |p.og.vals| && i < |p.og.vals[v].outputs| {
      DecodedSink(p, a, lists, v, i);
    }
  }

  lemma DecodedOp(p: Problem, a: Assignment, lists: NodeLists, op: nat)
    requires Posed(p) && Solves(p, a) && Decoded(p, a, lists) && op < |p.og.ops|
    ensures |ListOf(lists, OpNode(op))| == 1
    ensures ListOf(lists, OpNode(op))[0] in p.functions && a(F(op, ListOf(lists, OpNode(op))[0])) == 1
    ensures ListOf(lists, OpNode(op))[0] in p.g.nodes && MayHost(p, op, ListOf(lists, OpNode(op))[0])
    ensures CanMapOp(p.g.nodes[ListOf(lists, OpNode(op))[0]], p.og.ops[op])
  {
    var f := HostOf(p, a, op);
    var l := ListOf(lists, OpNode(op));
    UsedUnitsAre(a, op, p.functions);
    Singleton(l, f);
  }

  lemma DecodedSink(p: Problem, a: Assignment, lists: NodeLists, v: nat, i: nat)
    requires Posed(p) && IlpGenerators.Accepted(p) && Solves(p, a) && Decoded(p, a, lists) && IsSink(p, v, i)
    requires OpsPlaced(p.og, p.g, lists)
    ensures SinkConnected(p.og, p.g, lists, v, i)
  {
    var path := EverySinkIsReached(p, a, v, i);
    DecodedOp(p, a, lists, p.og.vals[v].input);
    DecodedOp(p, a, lists, p.og.vals[v].outputs[i]);
    var f := HostOf(p, a, p.og.vals[v].input);
    var h := HostOf(p, a, p.og.vals[v].outputs[i]);
    forall k | 1 <= k < |path| - 1
      ensures path[k] in ListOf(lists, ValNode(v))
    {
      CarriesUses(p, a, v, i, path[k]);
      UsedNodesAre(a, v, p.routing, path[k]);
    }
    assert path[(|path| - 2) + 1] in p.g.nodes[path[|path| - 2]].fanout;
    assert NodeOk(p.g, path[|path| - 2]);
    assert Connects(p.g, ListOf(lists, ValNode(v)), f, h, path);
  }

  // From the transformed MRRG back to the one the caller knows.

  ghost function PullBack(backward: Relation, news: seq<NodeId>): multiset<NodeId> {
    if news == [] then multiset{}
    else PullBack(backward, news[..|news| - 1]) + multiset(Related(backward, news[|news| - 1]))
  }

  method AppendAll(m: Mapping, k: OgNode, nodes: set<NodeId>)
    modifies m`lists
    ensures multiset(ListOf(m.lists, k)) == multiset(old(ListOf(m.lists, k))) + multiset(nodes)
    ensures forall x :: x != k ==> ListOf(m.lists, x) == old(ListOf(m.lists, x))
  {
    var todo := nodes;
    while todo != {}
      invariant todo <= nodes
      invariant multiset(ListOf(m.lists, k)) == multiset(old(ListOf(m.lists, k))) + multiset(nodes - todo)
      invariant forall x :: x != k ==> ListOf(m.lists, x) == old(ListOf(m.lists, x))
      decreases todo
    {
      var n :| n in todo;
      m.MapMRRGNode(k, n);
      assert nodes - (todo - {n}) == nodes - todo + {n};
      todo := todo - {n};
    }
    assert nodes - {} == nodes;
  }

  method ReverseList(m: Mapping, k: OgNode, news: seq<NodeId>, mapping: InterMRRGMap)
    requires ListOf(m.lists, k) == []
    modifies m`lists
    ensures multiset(ListOf(m.lists, k)) == PullBack(mapping.backward, news)
    ensures forall x :: x != k ==> ListOf(m.lists, x) == old(ListOf(m.lists, x))
  {
    for i := 0 to |news|
      invariant multiset(ListOf(m.lists, k)) == PullBack(mapping.backward, news[..i])
      invariant forall x :: x != k ==> ListOf(m.lists, x) == old(ListOf(m.lists, x))
    {
      assert news[..i + 1][..i] == news[..i];
      AppendAll(m, k, mapping.OldNodesForNewNode(news[i]));
    }
    assert news[..|news|] == news;
  }

  /** Replaces every node of the mapping by the old nodes it stands for. */
  method TransformToOriginalMRRG(m: Mapping, mapping: InterMRRGMap) returns (reversed: Mapping)
    ensures fresh(reversed) && reversed.status == m.status
    ensures forall k :: multiset(ListOf(reversed.lists, k)) == PullBack(mapping.backward, ListOf(m.lists, k))
  {
    reversed := new Mapping();
    reversed.status := m.status;
    var todo := m.lists.Keys;
    while todo != {}
      invariant fresh(reversed) && reversed.status == m.status
      invariant todo <= m.lists.Keys
      invariant forall k :: k !in todo ==>
                  multiset(ListOf(reversed.lists, k)) == PullBack(mapping.backward, ListOf(m.lists, k))
      invariant forall k :: k in todo ==> ListOf(reversed.lists, k) == []
      decreases todo
    {
      var key :| key in todo;
      todo := todo - {key};
      ReverseList(reversed, key, m.lists[key], mapping);
    }
  }

  /** For mux insertion: source nodes stay, mux nodes go. */
  ghost predicate MappedBack(src: Graph, news: seq<NodeId>, olds: seq<NodeId>) {
    && (forall n :: n in olds ==> n in src.nodes)
    && (forall n :: n in news && n in src.nodes ==> n in olds)
    && (forall n :: n in olds ==> n in news)
    && (|news| == 1 && news[0] in src.nodes ==> olds == news)
  }

  lemma {:induction false} PullBackOfIdentity(src: Graph, backward: Relation, news: seq<NodeId>)
    requires forall a, b :: b in Related(backward, a) <==> a == b && a in src.nodes
    ensures forall n :: n in PullBack(backward, news) <==> n in news && n in src.nodes
  {
    if news != [] {
      var init, last := news[..|news| - 1], news[|news| - 1];
      PullBackOfIdentity(src, backward, init);
      assert news == init + [last];
    }
  }

  lemma {:induction false} PullBackIsSource(src: Graph, backward: Relation, news: seq<NodeId>, n: NodeId)
    requires forall a, b :: b in Related(backward, a) <==> a == b && a in src.nodes
    requires n in PullBack(backward, news)
    ensures n in src.nodes
  {
    if news != [] && n !in multiset(Related(backward, news[|news| - 1])) {
      PullBackIsSource(src, backward, news[..|news| - 1], n);
    }
  }

  lemma IdentityMapsBack(src: Graph, backward: Relation, news: seq<NodeId>, olds: seq<NodeId>)
    requires forall a, b :: b in Related(backward, a) <==> a == b && a in src.nodes
    requires multiset(olds) == PullBack(backward, news)
    ensures MappedBack(src, news, olds)
  {
    PullBackOfIdentity(src, backward, news);
    assert forall n :: n in olds <==> n in multiset(olds);
    if |news| == 1 && news[0] in src.nodes {
      var f := news[0];
      assert Related(backward, f) == {f};
      assert PullBack(backward, news[..0]) == multiset{};
      assert multiset(olds) == multiset{f};
      assert |olds| == |multiset(olds)| == 1;
      assert olds[0] in multiset(olds);
      assert olds == news;
    }
  }

  lemma {:induction false} ContractConcat(s: Splits, a: seq<NodeId>, b: seq<NodeId>)
    ensures Contract(s, a + b) == Contract(s, a) + Contract(s, b)
  {
    if a == [] {
      assert a + b == b;
    } else {
      assert (a + b)[1..] == a[1..] + b;
      ContractConcat(s, a[1..], b);
      ConcatAssociates([a[0]], Contract(s, a[1..]), Contract(s, b));
    }
  }

  lemma ContractKeepsEnds(s: Splits, path: seq<NodeId>)
    requires |path| >= 2 && path[0] !in s.edge && Last(path) !in s.edge
    ensures Contract(s, path) == [path[0]] + Contract(s, path[1..|path| - 1]) + [Last(path)]
  {
    var inner := path[1..|path| - 1];
    assert path == [path[0]] + inner + [Last(path)];
    ContractConcat(s, [path[0]] + inner, [Last(path)]);
    ContractConcat(s, [path[0]], inner);
    ContractCons(s, path[0], []);
    ContractCons(s, Last(path), []);
  }

  lemma InnerNodesMapBack(src: Graph, s: Splits, news: seq<NodeId>, olds: seq<NodeId>, path: seq<NodeId>,
                          c: seq<NodeId>, k: nat)
    requires MappedBack(src, news, olds) && |path| >= 2 && 1 <= k < |c| - 1 && c[k] in src.nodes
    requires c == [path[0]] + Contract(s, path[1..|path| - 1]) + [Last(path)]
    requires forall j :: 1 <= j < |path| - 1 ==> path[j] in news
    ensures c[k] in olds
  {
    var inner := path[1..|path| - 1];
    assert c[k] == Contract(s, inner)[k - 1];
    assert c[k] in inner;
    var j :| 0 <= j < |inner| && inner[j] == c[k];
    assert path[j + 1] in news;
  }

  /** A connection in the transformed graph is one in the source. */
  lemma ConnectionMapsBack(src: Graph, g: Graph, s: Splits, news: seq<NodeId>, olds: seq<NodeId>,
                           from: NodeId, to: NodeId, path: seq<NodeId>)
    requires WellFormed(src) && Subdivides(src, g.nodes, s) && MappedBack(src, news, olds)
    requires from in src.nodes && to in src.nodes && Connects(g, news, from, to, path)
    ensures Connects(src, olds, from, to, Contract(s, path))
  {
    var c := Contract(s, path);
    ContractCorresponds(src, g, s, path);
    SourceNode(src, g, s, from);
    SourceNode(src, g, s, to);
    ContractKeepsEnds(s, path);
    forall k | 1 <= k < |c| - 1
      ensures c[k] in olds
    {
      InnerNodesMapBack(src, s, news, olds, path, c, k);
    }
    assert c[(|c| - 2) + 1] in src.nodes[c[|c| - 2]].fanout;
    assert NodeOk(src, c[|c| - 2]);
  }

  /** A mapping that is accepted on the transformed MRRG is accepted, mapped
      back, on the source MRRG. */
  lemma MappingBackKeepsAcceptance(og: OpGraph, src: Graph, g: Graph, s: Splits, lists: NodeLists, back: NodeLists)
    requires Consistent(og) && WellFormed(src) && Subdivides(src, g.nodes, s)
    requires Accepted(og, g, lists)
    requires forall k :: MappedBack(src, ListOf(lists, k), ListOf(back, k))
    ensures Accepted(og, src, back)
    ensures forall op: nat :: op < |og.ops| ==> ListOf(back, OpNode(op)) == ListOf(lists, OpNode(op))
  {
    forall op: nat | op < |og.ops|
      ensures ListOf(back, OpNode(op)) == ListOf(lists, OpNode(op))
      ensures ListOf(lists, OpNode(op))[0] in src.nodes
      ensures CanMapOp(src.nodes[ListOf(lists, OpNode(op))[0]], og.ops[op])
    {
      var f := ListOf(lists, OpNode(op))[0];
      HostIsSource(src, g, s, f, og.ops[op]);
      assert MappedBack(src, ListOf(lists, OpNode(op)), ListOf(back, OpNode(op)));
    }
    assert OpsPlaced(og, src, back);
    forall v: nat, w: nat, n | v < |og.vals| && w < |og.vals| && v != w && n in ListOf(back, ValNode(v))
      ensures n !in ListOf(back, ValNode(w))
    {
      assert MappedBack(src, ListOf(lists, ValNode(v)), ListOf(back, ValNode(v)));
      assert MappedBack(src, ListOf(lists, ValNode(w)), ListOf(back, ValNode(w)));
    }
    forall v: nat, i: nat | v < |og.vals| && i < |og.vals[v].outputs|
      ensures SinkConnected(og, src, back, v, i)
    {
      assert SinkConnected(og, g, lists, v, i);
      var from := ListOf(lists, OpNode(og.vals[v].input))[0];
      var to := ListOf(lists, OpNode(og.vals[v].outputs[i]))[0];
      var path :| Connects(g, ListOf(lists, ValNode(v)), from, to, path);
      ConnectionMapsBack(src, g, s, ListOf(lists, ValNode(v)), ListOf(back, ValNode(v)), from, to, path);
    }
  }

  lemma HostIsSource(src: Graph, g: Graph, s: Splits, f: NodeId, op: Op)
    requires Subdivides(src, g.nodes, s) && f in g.nodes && CanMapOp(g.nodes[f], op)
    ensures f in src.nodes && CanMapOp(src.nodes[f], op)
  {
    var kept := f in src.nodes && KeepsNode(src.nodes[f], g.nodes[f], s, f);
    var mux := f in s.edge && IsMux(src, s, g.nodes[f], f);
  }

  /** No two operations on one unit, and operations with a fixed port on a unit of that name. */
  ghost predicate UnitsExclusive(og: OpGraph, lists: NodeLists, fixedPorts: map<string, string>)
    requires forall op: nat :: op < |og.ops| ==> |ListOf(lists, OpNode(op))| == 1
  {
    && (forall o: nat, q: nat :: o < q < |og.ops| ==> ListOf(lists, OpNode(o)) != ListOf(lists, OpNode(q)))
    && (forall o: nat :: o < |og.ops| && og.ops[o].name in fixedPorts ==>
         HasSubstring(ListOf(lists, OpNode(o))[0].name, fixedPorts[og.ops[o].name]))
  }

  lemma DecodedUnitsExclusive(p: Problem, a: Assignment, lists: NodeLists)
    requires Posed(p) && Solves(p, a) && Decoded(p, a, lists)
    ensures forall op: nat :: op < |p.og.ops| ==> |ListOf(lists, OpNode(op))| == 1
    ensures UnitsExclusive(p.og, lists, p.fixedPorts)
  {
    forall op: nat | op < |p.og.ops| {
      DecodedOp(p, a, lists, op);
    }
    forall o: nat, q: nat | o < q < |p.og.ops|
      ensures ListOf(lists, OpNode(o)) != ListOf(lists, OpNode(q))
    {
      DecodedOp(p, a, lists, o);
      DecodedOp(p, a, lists, q);
      OpsApart(p, a, o, q, ListOf(lists, OpNode(o))[0]);
    }
    forall o: nat | o < |p.og.ops| && p.og.ops[o].name in p.fixedPorts
      ensures HasSubstring(ListOf(lists, OpNode(o))[0].name, p.fixedPorts[p.og.ops[o].name])
    {
      DecodedOp(p, a, lists, o);
    }
  }

  /** Every operation is on one unit, which has its bit width and lists its opcode. */
  ghost predicate UnitsFit(og: OpGraph, g: Graph, lists: NodeLists) {
    forall op: nat {:trigger ListOf(lists, OpNode(op))} :: op < |og.ops| ==>
      var units := ListOf(lists, OpNode(op));
      && |units| == 1 && units[0] in g.nodes
      && g.nodes[units[0]].bitwidth == og.ops[op].bitwidth && og.ops[op].opcode in g.nodes[units[0]].supportedOps
  }

  lemma AcceptedUnitsFit(og: OpGraph, g: Graph, lists: NodeLists)
    requires Consistent(og) && Accepted(og, g, lists)
    ensures UnitsFit(og, g, lists)
  {
  }

  /** The dataflow graph can be mapped onto the MRRG. */
  ghost predicate Mappable(p: Problem)
    requires Consistent(p.og)
  {
    exists l :: IlpCompleteness.Legal(p, l)
  }

  /** What the solver says tells whether the dataflow graph can be mapped. */
  lemma AnswerTells(p: Problem, solve: seq<Entry> -> SolverResult, model: seq<Entry>)
    requires Posed(p) && IlpGenerators.Accepted(p) && Generated(p, model, (id: Id) => true) && Honest(solve)
    ensures solve(model).Found? ==> Mappable(p)
    ensures Exhaustive(solve) && solve(model).Infeasible? ==> !Mappable(p)
  {
    if solve(model).Found? {
      SolutionsOfEntries(p, model, solve(model).a);
      IlpCompleteness.SolutionIsLegal(p, solve(model).a);
    } else if l :| IlpCompleteness.Legal(p, l) {
      IlpCompleteness.LegalSolves(p, l);
      SolutionsOfEntries(p, model, IlpCompleteness.AssignmentOf(l));
    }
  }

  lemma InsertionKeepsMappable(p: Problem, src: Graph, s: Splits)
    requires Posed(p) && WellFormed(src) && Subdivides(src, p.g.nodes, s)
    ensures Mappable(p.(g := src)) ==> Mappable(p)
  {
    if l :| IlpCompleteness.Legal(p.(g := src), l) {
      MuxExLayouts.InsertionLosesNoMapping(p, src, s, l);
    }
  }

  /** What an architecture must offer for the constraint generators not to throw. */
  ghost predicate ReadyNode(g: Graph, n: NodeId)
    requires n in g.nodes
  {
    && !g.nodes[n].kind.RoutingFunction?
    && (g.nodes[n].kind.Function? ==>
         && |g.nodes[n].fanout| == 1
         && forall m :: m in g.nodes[n].fanout ==> m in g.nodes && g.nodes[m].kind.Routing?)
    && (g.nodes[n].kind.Function? || |g.nodes[n].fanin| > 1 ==>
         forall m :: m in g.nodes[n].fanin ==> m in g.nodes && g.nodes[m].kind.Routing?)
  }

  ghost predicate IlpReady(g: Graph) {
    forall n {:trigger ReadyNode(g, n)} :: n in g.nodes ==> ReadyNode(g, n)
  }

  lemma NodeKinds(src: Graph, g: Graph, s: Splits, n: NodeId)
    requires Subdivides(src, g.nodes, s) && n in g.nodes
    ensures n in src.nodes ==>
              && g.nodes[n].kind == src.nodes[n].kind
              && |g.nodes[n].fanin| == |src.nodes[n].fanin| && |g.nodes[n].fanout| == |src.nodes[n].fanout|
    ensures n !in src.nodes ==> n in s.edge && g.nodes[n].kind.Routing? && |g.nodes[n].fanin| == 1
  {
    var kept := n in src.nodes && KeepsNode(src.nodes[n], g.nodes[n], s, n);
    var mux := n in s.edge && IsMux(src, s, g.nodes[n], n);
  }

  lemma LinkedRouting(src: Graph, g: Graph, s: Splits, n: NodeId, m: NodeId)
    requires WellFormed(src) && Subdivides(src, g.nodes, s) && IlpReady(src)
    requires n in g.nodes
    ensures m in g.nodes[n].fanout && g.nodes[n].kind.Function? ==> m in g.nodes && g.nodes[m].kind.Routing?
    ensures m in g.nodes[n].fanin && (g.nodes[n].kind.Function? || |g.nodes[n].fanin| > 1) ==>
              m in g.nodes && g.nodes[m].kind.Routing?
  {
    NodeKinds(src, g, s, n);
    SourceNode(src, g, s, n);
    var ready := n in src.nodes && ReadyNode(src, n);
    if m in g.nodes {
      NodeKinds(src, g, s, m);
      SourceNode(src, g, s, m);
    }
    LinksAreSplitLinks(src, g, s, n, m);
    LinksAreSplitLinks(src, g, s, m, n);
    if m in src.nodes {
      assert NodeOk(src, m);
    }
  }

  /** Mux insertion keeps the readiness. */
  lemma ReadinessIsKept(src: Graph, g: Graph, s: Splits)
    requires WellFormed(src) && Subdivides(src, g.nodes, s) && IlpReady(src)
    ensures IlpReady(g)
  {
    forall n | n in g.nodes
      ensures ReadyNode(g, n)
    {
      NodeKinds(src, g, s, n);
      var ready := n in src.nodes && ReadyNode(src, n);
      forall m {
        LinkedRouting(src, g, s, n, m);
      }
    }
  }

  lemma ReadyIsAccepted(p: Problem)
    requires Posed(p) && IlpReady(p.g) && MuxExclusive(p.g)
    ensures IlpGenerators.Accepted(p)
  {
    forall r | IsRouting(p, r)
      ensures IlpGenerators.FanoutsSupported(p, r) && IlpGenerators.FaninsExclusive(p, r)
    {
      ReadyRouting(p, r);
    }
    forall f | IsFunction(p, f)
      ensures |p.g.nodes[f].fanout| == 1 && p.g.nodes[f].fanout[0] in p.routing
      ensures forall n :: n in p.g.nodes[f].fanin ==> n in p.routing
    {
      assert ReadyNode(p.g, f);
      assert p.g.nodes[f].fanout[0] in p.g.nodes[f].fanout;
    }
  }

  lemma ReadyRouting(p: Problem, r: NodeId)
    requires Posed(p) && IlpReady(p.g) && MuxExclusive(p.g) && IsRouting(p, r)
    ensures IlpGenerators.FanoutsSupported(p, r) && IlpGenerators.FaninsExclusive(p, r)
  {
    assert NodeOk(p.g, r) && ReadyNode(p.g, r);
    forall n | n in p.g.nodes[r].fanin && |p.g.nodes[r].fanin| > 1
      ensures |p.g.nodes[n].fanout| == 1
    {
      assert r in p.g.nodes[n].fanout;
    }
    forall n | n in p.g.nodes[r].fanout
      ensures !p.g.nodes[n].kind.RoutingFunction?
    {
      assert ReadyNode(p.g, n);
    }
  }

  /** Builds the model, has it solved and decodes the answer; None when a generator throws. */
  method GurobiMap(p: Problem, solve: seq<Entry> -> SolverResult, m: Mapping)
    returns (status: Option<Status>, ghost model: seq<Entry>)
    requires Posed(p) && Honest(solve) && m.lists == map[]
    modifies m`lists
    ensures status.Some? <==> IlpGenerators.Accepted(p)
    ensures status.Some? ==> Generated(p, model, (id: Id) => true)
    ensures status.Some? ==> (status.value == Success <==> solve(model).Found?)
    ensures status.Some? ==> (status.value == Timeout <==> solve(model).TimedOut?)
    ensures status.Some? && !solve(model).Found? && !solve(model).TimedOut? ==> status.value == Failure
    ensures status == Some(Success) ==> Mappable(p)
    ensures status.Some? && Exhaustive(solve) && Mappable(p) ==> !solve(model).Infeasible?
    ensures status.Some? && solve(model).Found? ==> Decoded(p, solve(model).a, m.lists)
    ensures status.Some? && !solve(model).Found? ==> m.lists == map[]
    ensures status == Some(Success) ==> Accepted(p.og, p.g, m.lists) && UnitsExclusive(p.og, m.lists, p.fixedPorts)
  {
    var built := IlpGenerators.BuildModel(p);
    if built.None? {
      return None, [];
    }
    model := built.value;
    AnswerTells(p, solve, model);
    var answer := solve(built.value);
    match answer {
      case Found(_, a) =>
        SolutionsOfEntries(p, model, a);
        DecodeValues(p, a, m);
        DecodeOps(p, a, m);
        DecodedIsAccepted(p, a, m.lists);
        DecodedUnitsExclusive(p, a, m.lists);
        status := Some(Success);
      case TimedOut => status := Some(Timeout);
      case Infeasible => status := Some(Failure);
      case Interrupted => status := Some(Failure);
      case Unlisted => status := Some(Failure);
    }
  }

  method InsertMuxNodes(mrrg: Graph) returns (g: Graph, mapping: InterMRRGMap, ghost s: Splits)
    requires WellFormed(mrrg)
    requires forall n :: n in mrrg.nodes ==> !(MUX_PREFIX <= n.name)
    ensures fresh(mapping) && WellFormed(g) && MuxExclusive(g) && Subdivides(mrrg, g.nodes, s) && Complete(mrrg, s)
    ensures CycleRule(mrrg) ==> CycleRule(g)
    ensures forall a, b :: b in Related(mapping.backward, a) <==> a == b && a in mrrg.nodes
    ensures IlpReady(mrrg) ==> IlpReady(g)
  {
    var transformed;
    transformed, mapping, s := MuxExNodeInsertion(mrrg);
    g := transformed.View();
    SubdivisionIsWellFormed(mrrg, g, s);
    InsertionMakesMuxExclusive(mrrg, g, s);
    if IlpReady(mrrg) {
      ReadinessIsKept(mrrg, g, s);
    }
  }

  /** Whatever is mapped back is a node of the source. */
  lemma MappedToSource(src: Graph, backward: Relation, lists: NodeLists, back: NodeLists)
    requires forall a, b :: b in Related(backward, a) <==> a == b && a in src.nodes
    requires forall k :: multiset(ListOf(back, k)) == PullBack(backward, ListOf(lists, k))
    ensures forall k, n :: n in ListOf(back, k) ==> n in src.nodes
  {
    forall k, n | n in ListOf(back, k)
      ensures n in src.nodes
    {
      assert n in multiset(ListOf(back, k));
      PullBackIsSource(src, backward, ListOf(lists, k), n);
    }
  }

  lemma AcceptedOnSource(og: OpGraph, src: Graph, g: Graph, s: Splits, backward: Relation,
                         lists: NodeLists, back: NodeLists, fixedPorts: map<string, string>)
    requires Consistent(og) && WellFormed(src) && Subdivides(src, g.nodes, s)
    requires forall a, b :: b in Related(backward, a) <==> a == b && a in src.nodes
    requires forall k :: multiset(ListOf(back, k)) == PullBack(backward, ListOf(lists, k))
    requires Accepted(og, g, lists) && UnitsExclusive(og, lists, fixedPorts)
    ensures Accepted(og, src, back) && UnitsExclusive(og, back, fixedPorts)
  {
    forall k {
      IdentityMapsBack(src, backward, ListOf(lists, k), ListOf(back, k));
    }
    MappingBackKeepsAcceptance(og, src, g, s, lists, back);
  }

  /** The first steps: what is solved is the problem on the MRRG with mux nodes. */
  method PoseProblem(og: OpGraph, mrrg: Graph, fixedPorts: map<string, string>, topologicalMode: bool,
                     perValueOrder: bool)
    returns (p: Problem, mapping: InterMRRGMap, ghost s: Splits)
    requires Consistent(og) && WellFormed(mrrg)
    requires forall n :: n in mrrg.nodes ==> !(MUX_PREFIX <= n.name)
    ensures fresh(mapping) && Posed(p) && Subdivides(mrrg, p.g.nodes, s) && Complete(mrrg, s)
    ensures p.og == og && p.fixedPorts == fixedPorts
    ensures p.topologicalMode == topologicalMode && p.perValueOrder == perValueOrder
    ensures forall a, b :: b in Related(mapping.backward, a) <==> a == b && a in mrrg.nodes
    ensures Mappable(p.(g := mrrg)) ==> Mappable(p)
    ensures IlpReady(mrrg) ==> IlpGenerators.Accepted(p)
  {
    var g;
    g, mapping, s := InsertMuxNodes(mrrg);
    var functions, routing := ComputeNodeClassLists(g);
    p := Problem(og, g, routing, functions, fixedPorts, topologicalMode, perValueOrder);
    InsertionKeepsMappable(p, mrrg, s);
    if IlpReady(mrrg) {
      ReadyIsAccepted(p);
    }
  }

  /** The last step: a successful mapping is accepted on the source as well. */
  method MapBack(og: OpGraph, mrrg: Graph, ghost g: Graph, ghost s: Splits, m: Mapping, mapping: InterMRRGMap,
                 ghost fixedPorts: map<string, string>)
    returns (reversed: Mapping)
    requires Consistent(og) && WellFormed(mrrg) && Subdivides(mrrg, g.nodes, s)
    requires forall a, b :: b in Related(mapping.backward, a) <==> a == b && a in mrrg.nodes
    requires m.status == Success ==> Accepted(og, g, m.lists) && UnitsExclusive(og, m.lists, fixedPorts)
    ensures fresh(reversed) && reversed.status == m.status
    ensures m.lists == map[] ==> forall k :: ListOf(reversed.lists, k) == []
    ensures forall k, n :: n in ListOf(reversed.lists, k) ==> n in mrrg.nodes
    ensures m.status == Success ==>
              && Accepted(og, mrrg, reversed.lists) && UnitsExclusive(og, reversed.lists, fixedPorts)
              && UnitsFit(og, mrrg, reversed.lists)
  {
    reversed := TransformToOriginalMRRG(m, mapping);
    MappedToSource(mrrg, mapping.backward, m.lists, reversed.lists);
    if m.status == Success {
      AcceptedOnSource(og, mrrg, g, s, mapping.backward, m.lists, reversed.lists, fixedPorts);
      AcceptedUnitsFit(og, mrrg, reversed.lists);
    }
  }

  /** Main result, end to end. Whatever the solver answers, a mapping that is
      returned as successful is one that the connectivity check accepts on the
      MRRG it was asked for, with every unit used once and every fixed port
      respected; and if there is a legal mapping on that MRRG, a solver that is
      exhaustive does not call the model infeasible. None stands for an exception of a constraint generator, which
      an MRRG that is ready for the ILP does not provoke. */
  method MapOpGraph(og: OpGraph, mrrg: Graph, fixedPorts: map<string, string>, topologicalMode: bool,
                    perValueOrder: bool, solve: seq<Entry> -> SolverResult)
    returns (result: Option<Mapping>, ghost p: Problem, ghost s: Splits, ghost model: seq<Entry>)
    requires Consistent(og) && WellFormed(mrrg)
    requires forall n :: n in mrrg.nodes ==> !(MUX_PREFIX <= n.name)
    requires Honest(solve)
    ensures result.Some? ==> fresh(result.value)
    ensures p.og == og && p.fixedPorts == fixedPorts
    ensures p.topologicalMode == topologicalMode && p.perValueOrder == perValueOrder
    ensures result.Some? ==> Subdivides(mrrg, p.g.nodes, s) && Complete(mrrg, s)
    ensures result.Some? ==> Posed(p) && Generated(p, model, (id: Id) => true)
    ensures result.Some? ==> (result.value.status == Success <==> solve(model).Found?)
    ensures result.Some? ==> (result.value.status == Timeout <==> solve(model).TimedOut?)
    ensures result.Some? && !solve(model).Found? && !solve(model).TimedOut? ==> result.value.status == Failure
    ensures result.Some? && Exhaustive(solve) && Mappable(p.(g := mrrg)) ==> !solve(model).Infeasible?
    ensures result.Some? && result.value.status == Success ==> Mappable(p) && UnitsFit(og, mrrg, result.value.lists)
    ensures result.Some? && !solve(model).Found? ==> forall k :: ListOf(result.value.lists, k) == []
    ensures result.Some? ==> forall k, n :: n in ListOf(result.value.lists, k) ==> n in mrrg.nodes
    ensures result.Some? && result.value.status == Success ==>
              Accepted(og, mrrg, result.value.lists) && UnitsExclusive(og, result.value.lists, fixedPorts)
    ensures IlpReady(mrrg) ==> result.Some?
  {
    var problem, mapping;
    problem, mapping, s := PoseProblem(og, mrrg, fixedPorts, topologicalMode, perValueOrder);
    p := problem;
    var decoded := new Mapping();
    var status;
    status, model := GurobiMap(problem, solve, decoded);
    if status.None? {
      return None, p, s, model;
    }
    decoded.status := status.value;
    var reversed := MapBack(og, mrrg, p.g, s, decoded, mapping, fixedPorts);
    result := Some(reversed);
  }

  /** The mapper and the check of its result composed: what is returned as
      successful passes the check on the MRRG that was asked for. */
  method MapAndVerify(og: OpGraph, mrrg: Graph, fixedPorts: map<string, string>, topologicalMode: bool,
                      perValueOrder: bool, solve: seq<Entry> -> SolverResult)
    returns (result: Option<Mapping>, passes: bool)
    requires Consistent(og) && WellFormed(mrrg)
    requires forall n :: n in mrrg.nodes ==> !(MUX_PREFIX <= n.name)
    requires Honest(solve)
    ensures result.Some? ==> fresh(result.value)
    ensures result.Some? && result.value.status == Success ==> passes
    ensures result.Some? ==> (passes <==> Accepted(og, mrrg, result.value.lists))
    ensures IlpReady(mrrg) ==> result.Some?
  {
    ghost var p, s, model;
    result, p, s, model := MapOpGraph(og, mrrg, fixedPorts, topologicalMode, perValueOrder, solve);
    passes := false;
    if result.Some? {
      ghost var lists := result.value.lists;
      assert Closed(mrrg) by {
        LinksStayInside(mrrg);
      }
      passes := result.value.VerifyOpGraphMappingConnectivity(og, mrrg);
      SameListsAreAccepted(og, mrrg, lists, result.value.lists);
    }
  }

  lemma LinksStayInside(g: Graph)
    requires WellFormed(g)
    ensures Closed(g)
  {
    forall n, m | n in g.nodes && m in g.nodes[n].fanout
      ensures m in g.nodes
    {
      assert NodeOk(g, n);
    }
  }
}

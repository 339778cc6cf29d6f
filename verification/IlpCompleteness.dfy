// The model loses no mapping: it has a solution exactly when the operations can be
// placed and the values routed in the way that is spelled out here.
module IlpCompleteness {
  import opened Seqs
  import opened Mrrg
  import opened Walks
  import opened OpGraphs
  import opened IlpModel
  import opened IlpGenerators
  import opened IlpSoundness

  // For each operation its unit, for each value and sink the nodes between the unit of the
  // source and the unit of the sink, and for each value the positions of its nodes.
  datatype Layout = Layout(place: seq<NodeId>, routes: seq<seq<seq<NodeId>>>, rank: (nat, NodeId) -> nat)

  ghost predicate Shaped(p: Problem, l: Layout) {
    && |l.place| == |p.og.ops| && |l.routes| == |p.og.vals|
    && forall v :: 0 <= v < |p.og.vals| ==> |l.routes[v]| == |p.og.vals[v].outputs|
  }

  /** The unit computes, with the bit width of the operation, and lists its opcode. */
  ghost predicate OfKind(p: Problem, op: nat, f: NodeId) {
    && op < |p.og.ops| && f in p.g.nodes && !p.g.nodes[f].kind.Routing?
    && p.g.nodes[f].bitwidth == p.og.ops[op].bitwidth && p.og.ops[op].opcode in p.g.nodes[f].supportedOps
  }

  /** The name of the unit has in it what a fixed port asks for. */
  ghost predicate NamedAsFixed(p: Problem, op: nat, f: NodeId)
    requires op < |p.og.ops|
  {
    var name := p.og.ops[op].name;
    name in p.fixedPorts ==>
      exists i: nat, j: nat :: i <= j <= |f.name| && f.name[i..j] == p.fixedPorts[name]
  }

  /** Every operation is on a unit of its own that suits it. */
  ghost predicate Placed(p: Problem, l: Layout)
    requires Shaped(p, l)
  {
    && (forall op: nat :: op < |l.place| ==> OfKind(p, op, l.place[op]) && NamedAsFixed(p, op, l.place[op]))
    && (forall op: nat, op': nat :: op < op' < |l.place| ==> l.place[op] != l.place[op'])
  }

  /** The node carries the operand. */
  predicate Carrying(n: Node, tag: string) {
    tag == "" || n.operandTags == {} || tag in n.operandTags
  }

  /** The route leads from the only fanout of the one unit to the other, through
      routing nodes that carry the operand. */
  ghost predicate Connects(g: Graph, w: seq<NodeId>, from: NodeId, to: NodeId, tag: string) {
    && IsWalk(g, w) && NoDup(w)
    && from in g.nodes && g.nodes[from].fanout == [w[0]]
    && to in g.nodes && to in g.nodes[Last(w)].fanout && g.nodes[to].kind.Function?
    && !g.nodes[w[0]].kind.Function? && (forall k :: 1 <= k < |w| ==> g.nodes[w[k]].kind.Routing?)
    && (forall k :: 0 <= k < |w| ==> Carrying(g.nodes[w[k]], tag))
  }

  ghost predicate IsRouted(p: Problem, l: Layout, v: nat, i: nat)
    requires Consistent(p.og) && Shaped(p, l) && IsSink(p, v, i)
  {
    var val := p.og.vals[v];
    Connects(p.g, l.routes[v][i], l.place[val.input], l.place[val.outputs[i]], val.operandTags[i])
  }

  ghost predicate Routed(p: Problem, l: Layout)
    requires Consistent(p.og) && Shaped(p, l)
  {
    forall v: nat, i: nat {:trigger IsSink(p, v, i)} :: IsSink(p, v, i) ==> IsRouted(p, l, v, i)
  }

  // The value passes through the node on the way to its i-th sink.
  ghost predicate Passes(l: Layout, v: nat, i: nat, n: NodeId) {
    v < |l.routes| && i < |l.routes[v]| && n in l.routes[v][i]
  }

  ghost predicate Uses(l: Layout, v: nat, n: NodeId) {
    exists i: nat :: Passes(l, v, i, n)
  }

  /** No node is used by two values. */
  ghost predicate Disjoint(l: Layout) {
    forall v: nat, w: nat, n :: Uses(l, v, n) && Uses(l, w, n) ==> v == w
  }

  ghost predicate IsSingleOutput(g: Graph, f: NodeId, n: NodeId) {
    f in g.nodes && !g.nodes[f].kind.Routing? && g.nodes[f].fanout == [n]
  }

  /** A value passes through the single fanout of a unit only if it comes from that unit. */
  ghost predicate OutputsApart(p: Problem, l: Layout)
    requires Consistent(p.og) && Shaped(p, l)
  {
    forall v: nat, i: nat, n, f {:trigger Passes(l, v, i, n), IsSingleOutput(p.g, f, n)} ::
      Passes(l, v, i, n) && IsSingleOutput(p.g, f, n) ==> f == l.place[p.og.vals[v].input]
  }

  ghost predicate IsInput(p: Problem, op: nat, f: NodeId, n: NodeId) {
    OfKind(p, op, f) && n in p.g.nodes[f].fanin
  }

  /** Two edges of a value into the same operation share no node that drives a unit of its kind. */
  ghost predicate InputsApart(p: Problem, l: Layout)
    requires Shaped(p, l)
  {
    forall v: nat, i: nat, j: nat, n, f
      {:trigger Passes(l, v, i, n), Passes(l, v, j, n), IsInput(p, p.og.vals[v].outputs[i], f, n)} ::
      Passes(l, v, i, n) && Passes(l, v, j, n) && i != j && IsInput(p, p.og.vals[v].outputs[i], f, n) ==>
        p.og.vals[v].outputs[i] != p.og.vals[v].outputs[j]
  }

  /** Where two routes of a value meet they have come the same way. */
  ghost predicate SameWay(r: seq<NodeId>, s: seq<NodeId>) {
    forall a: nat, b: nat :: a < |r| && b < |s| && r[a] == s[b] ==> r[..a] == s[..b]
  }

  /** The routes of a value branch like a tree. */
  ghost predicate Branching(l: Layout) {
    forall v: nat, i: nat, j: nat :: v < |l.routes| && i < |l.routes[v]| && j < |l.routes[v]| ==>
      SameWay(l.routes[v][i], l.routes[v][j])
  }

  ghost predicate LeadsOn(g: Graph, r: NodeId, n: NodeId) {
    r in g.nodes && n in g.nodes[r].fanout && n in g.nodes && g.nodes[n].kind.Routing?
  }

  /** Every link between two nodes of a value leads to a later position. */
  ghost predicate Ordered(p: Problem, l: Layout) {
    forall v: nat, r, n :: Uses(l, v, r) && Uses(l, v, n) && LeadsOn(p.g, r, n) ==> l.rank(v, r) < l.rank(v, n)
  }

  /** A mapping as the two modes of the mapper allow it. */
  ghost predicate Legal(p: Problem, l: Layout)
    requires Consistent(p.og)
  {
    && Shaped(p, l) && Placed(p, l) && Routed(p, l) && Disjoint(l) && OutputsApart(p, l) && InputsApart(p, l)
    && if p.topologicalMode then Ordered(p, l) else Branching(l)
  }

  // From a mapping to a solution.

  ghost function UserOf(l: Layout, n: NodeId): nat {
    if exists v: nat :: Uses(l, v, n) then
      var v: nat :| Uses(l, v, n);
      v
    else 0
  }

  /** What the variables say of the mapping. */
  ghost function AssignmentOf(l: Layout): Assignment {
    (x: Var) =>
      match x
      case R(v, n) => if Uses(l, v, n) then 1 else 0
      case S(v, n, i) => if Passes(l, v, i, n) then 1 else 0
      case F(op, f) => if op < |l.place| && l.place[op] == f then 1 else 0
      case EdgeUsed(v, r, n) => if Uses(l, v, r) && Uses(l, v, n) then 1 else 0
      case T(shared, v, n) => l.rank(if shared then UserOf(l, n) else v, n)
  }

  lemma {:induction false} SumIsZero(a: Assignment, vars: seq<Var>)
    requires forall x :: x in vars ==> a(x) == 0
    ensures Sum(a, vars) == 0
  {
    if vars != [] {
      SumIsZero(a, vars[..|vars| - 1]);
    }
  }

  lemma {:induction false} SumIsOne(a: Assignment, vars: seq<Var>, k: nat)
    requires k < |vars| && a(vars[k]) == 1
    requires forall j :: 0 <= j < |vars| && j != k ==> a(vars[j]) == 0
    ensures Sum(a, vars) == 1
  {
    var init := vars[..|vars| - 1];
    if k == |vars| - 1 {
      SumIsZero(a, init);
    } else {
      SumIsOne(a, init, k);
    }
  }

  /** A sum of variables of which no two are set is one at most. */
  lemma SumAtMostOne(a: Assignment, vars: seq<Var>)
    requires InRange(a) && AllBinary(vars)
    requires forall j, k :: 0 <= j < |vars| && 0 <= k < |vars| && a(vars[j]) == 1 && a(vars[k]) == 1 ==> j == k
    ensures Sum(a, vars) <= 1
  {
    if k: nat :| k < |vars| && a(vars[k]) == 1 {
      forall j | 0 <= j < |vars| && j != k
        ensures a(vars[j]) == 0
      {
        assert vars[j] in vars;
      }
      SumIsOne(a, vars, k);
    } else {
      forall x | x in vars
        ensures a(x) == 0
      {
      }
      SumIsZero(a, vars);
    }
  }

  // What the sums say, one by one.

  lemma OneOpPerUnit(p: Problem, a: Assignment, f: NodeId)
    requires InRange(a) && Emitted(p, FunctionUnitExclusivity(f))
    ensures Holds(a, ConstraintFor(p, FunctionUnitExclusivity(f))) <==>
            forall o: nat, q: nat :: o < |p.og.ops| && q < |p.og.ops| && a(F(o, f)) == 1 && a(F(q, f)) == 1 ==> o == q
  {
    var vars := Hosted(|p.og.ops|, f);
    SumOfOne(a, F(0, f));
    if o: nat, q: nat :| o < q < |p.og.ops| && a(F(o, f)) == 1 && a(F(q, f)) == 1 {
      SumOfTwo(a, vars, o, q);
    } else {
      SumAtMostOne(a, vars);
    }
  }

  lemma OneValuePerNode(p: Problem, a: Assignment, r: NodeId)
    requires InRange(a) && Emitted(p, RouteExclusivity(r))
    ensures Holds(a, ConstraintFor(p, RouteExclusivity(r))) <==>
            forall v: nat, w: nat :: IsValue(p, v) && IsValue(p, w) && a(R(v, r)) == 1 && a(R(w, r)) == 1 ==> v == w
  {
    var vars := Users(|p.og.vals|, r);
    SumOfOne(a, R(0, r));
    if v: nat, w: nat :| v < w < |p.og.vals| && a(R(v, r)) == 1 && a(R(w, r)) == 1 {
      SumOfTwo(a, vars, v, w);
    } else {
      SumAtMostOne(a, vars);
    }
  }

  /** S variables, or the R variable that stands for the only one, say what passes where. */
  lemma SVarTells(p: Problem, l: Layout, v: nat, i: nat, n: NodeId)
    requires Shaped(p, l) && IsSink(p, v, i)
    ensures AssignmentOf(l)(SVar(p, v, n, i)) == if Passes(l, v, i, n) then 1 else 0
  {
  }

  /** The walk leads on from the node to the next, which routes, or to the unit of the sink. */
  lemma NextOf(p: Problem, l: Layout, v: nat, i: nat, r: NodeId) returns (n: NodeId)
    requires Posed(p) && Shaped(p, l) && Routed(p, l) && IsSink(p, v, i) && Passes(l, v, i, r)
    ensures r in p.g.nodes && n in p.g.nodes[r].fanout && n in p.g.nodes && r in p.g.nodes[n].fanin
    ensures (p.g.nodes[n].kind.Routing? && Passes(l, v, i, n)) ||
            (p.g.nodes[n].kind.Function? && n == l.place[p.og.vals[v].outputs[i]])
  {
    assert IsRouted(p, l, v, i);
    var w := l.routes[v][i];
    var k: nat :| k < |w| && w[k] == r;
    assert NodeOk(p.g, r);
    if k == |w| - 1 {
      n := l.place[p.og.vals[v].outputs[i]];
    } else {
      n := w[k + 1];
    }
  }

  lemma {:induction false} FanoutTermsHas(p: Problem, v: nat, i: nat, r: NodeId, fanout: seq<NodeId>, n: NodeId)
    requires IsSink(p, v, i) && (forall m :: m in fanout ==> m in p.g.nodes) && n in fanout
    ensures p.g.nodes[n].kind.Routing? ==> SVar(p, v, n, i) in FanoutTerms(p, v, i, r, fanout)
    ensures p.g.nodes[n].kind.Function? && r in p.g.nodes[n].fanin ==>
              F(p.og.vals[v].outputs[i], n) in FanoutTerms(p, v, i, r, fanout)
  {
    if n != fanout[|fanout| - 1] {
      FanoutTermsHas(p, v, i, r, fanout[..|fanout| - 1], n);
    }
  }

  /** A node that the value passes through has somewhere to lead it. */
  lemma SomeFanoutIsSet(p: Problem, l: Layout, v: nat, r: NodeId, i: nat) returns (x: Var)
    requires Posed(p) && Shaped(p, l) && Routed(p, l) && Emitted(p, FanoutRouting(v, r, i)) && Passes(l, v, i, r)
    ensures x in FanoutTerms(p, v, i, r, p.g.nodes[r].fanout) && AssignmentOf(l)(x) == 1
  {
    var n := NextOf(p, l, v, i, r);
    SVarTells(p, l, v, i, n);
    FanoutTermsHas(p, v, i, r, p.g.nodes[r].fanout, n);
    x := if p.g.nodes[n].kind.Routing? then SVar(p, v, n, i) else F(p.og.vals[v].outputs[i], n);
  }

  lemma FanoutsSuffice(p: Problem, l: Layout, v: nat, r: NodeId, i: nat)
    requires Posed(p) && Shaped(p, l) && Routed(p, l) && Emitted(p, FanoutRouting(v, r, i))
    ensures Sum(AssignmentOf(l), FanoutTerms(p, v, i, r, p.g.nodes[r].fanout)) >= AssignmentOf(l)(SVar(p, v, r, i))
  {
    var a, terms := AssignmentOf(l), FanoutTerms(p, v, i, r, p.g.nodes[r].fanout);
    FanoutTermsBinary(p, v, i, r, p.g.nodes[r].fanout);
    SumAtLeast(a, terms, 0);
    SVarTells(p, l, v, i, r);
    if Passes(l, v, i, r) {
      var x := SomeFanoutIsSet(p, l, v, r, i);
      var k: nat :| k < |terms| && terms[k] == x;
      SumAtLeast(a, terms, k);
    }
  }

  lemma MeetsFanoutRouting(p: Problem, l: Layout, v: nat, r: NodeId, i: nat)
    requires Posed(p) && Legal(p, l) && Emitted(p, FanoutRouting(v, r, i))
    ensures Holds(AssignmentOf(l), ConstraintFor(p, FanoutRouting(v, r, i)))
  {
    FanoutsSuffice(p, l, v, r, i);
    SumOfOne(AssignmentOf(l), SVar(p, v, r, i));
  }

  lemma MeetsSubValue(p: Problem, l: Layout, v: nat, r: NodeId, i: nat)
    requires Emitted(p, SubValue(v, r, i))
    ensures Holds(AssignmentOf(l), ConstraintFor(p, SubValue(v, r, i)))
  {
    SumOfOne(AssignmentOf(l), R(v, r));
    SumOfOne(AssignmentOf(l), S(v, r, i));
  }

  lemma MeetsRouteExclusivity(p: Problem, l: Layout, r: NodeId)
    requires Disjoint(l) && Emitted(p, RouteExclusivity(r))
    ensures Holds(AssignmentOf(l), ConstraintFor(p, RouteExclusivity(r)))
  {
    SumAtMostOne(AssignmentOf(l), Users(|p.og.vals|, r));
  }

  lemma MeetsFunctionUnitExclusivity(p: Problem, l: Layout, f: NodeId)
    requires Shaped(p, l) && Placed(p, l) && Emitted(p, FunctionUnitExclusivity(f))
    ensures Holds(AssignmentOf(l), ConstraintFor(p, FunctionUnitExclusivity(f)))
  {
    SumAtMostOne(AssignmentOf(l), Hosted(|p.og.ops|, f));
  }

  lemma MeetsOpMustBeMapped(p: Problem, l: Layout, op: nat)
    requires Posed(p) && Shaped(p, l) && Placed(p, l) && Emitted(p, OpMustBeMapped(op))
    ensures Holds(AssignmentOf(l), ConstraintFor(p, OpMustBeMapped(op)))
  {
    assert OfKind(p, op, l.place[op]);
    var k: nat :| k < |p.functions| && p.functions[k] == l.place[op];
    SumIsOne(AssignmentOf(l), Units(p.functions, op), k);
  }

  lemma SuitedMayHost(p: Problem, op: nat, f: NodeId)
    requires op < |p.og.ops| && f in p.functions && f in p.g.nodes && !p.g.nodes[f].kind.Routing?
    ensures MayHost(p, op, f) <==> OfKind(p, op, f) && NamedAsFixed(p, op, f)
  {
    var name := p.og.ops[op].name;
    if name in p.fixedPorts {
      var t := p.fixedPorts[name];
      if HasSubstring(f.name, t) {
        var i :| 0 <= i <= |f.name| && t <= f.name[i..];
        assert f.name[i..i + |t|] == t;
      }
      if i: nat, j: nat :| i <= j <= |f.name| && f.name[i..j] == t {
        assert t <= f.name[i..] by { assert f.name[i..][..j - i] == f.name[i..j]; }
      }
    }
  }

  lemma MeetsOpSupported(p: Problem, l: Layout, op: nat, f: NodeId)
    requires Posed(p) && Shaped(p, l) && Placed(p, l) && Emitted(p, OpSupported(op, f))
    ensures Holds(AssignmentOf(l), ConstraintFor(p, OpSupported(op, f)))
  {
    SumOfOne(AssignmentOf(l), F(op, f));
    SuitedMayHost(p, op, f);
  }

  lemma MeetsFunctionUnitFanout(p: Problem, l: Layout, op: nat, f: NodeId, i: nat)
    requires Posed(p) && Legal(p, l) && Emitted(p, FunctionUnitFanout(op, f, i))
    ensures Holds(AssignmentOf(l), ConstraintFor(p, FunctionUnitFanout(op, f, i)))
  {
    var v, n := p.og.ops[op].output.value, p.g.nodes[f].fanout[0];
    SumOfOne(AssignmentOf(l), F(op, f));
    SumOfOne(AssignmentOf(l), SVar(p, v, n, i));
    SVarTells(p, l, v, i, n);
    assert IsRouted(p, l, v, i);
    assert IsSingleOutput(p.g, f, n);
  }

  lemma MeetsFunctionUnitFanin(p: Problem, l: Layout, v: nat, op: nat, f: NodeId, n: NodeId)
    requires Posed(p) && Legal(p, l) && Emitted(p, FunctionUnitFanin(v, op, f, n))
    ensures Holds(AssignmentOf(l), ConstraintFor(p, FunctionUnitFanin(v, op, f, n)))
  {
    var a := AssignmentOf(l);
    var outputs := OutputsTo(p.og.vals[v].outputs, op);
    var vars := Inputs(p, v, n, outputs);
    OutputsToNoDup(p.og.vals[v].outputs, op);
    assert IsInput(p, op, f, n);
    forall j, k | 0 <= j < |vars| && 0 <= k < |vars| && a(vars[j]) == 1 && a(vars[k]) == 1
      ensures j == k
    {
      assert outputs[j] in outputs && outputs[k] in outputs;
      SVarTells(p, l, v, outputs[j], n);
      SVarTells(p, l, v, outputs[k], n);
    }
    SumAtMostOne(a, vars);
  }

  lemma MeetsOperandRouting(p: Problem, l: Layout, v: nat, r: NodeId, i: nat)
    requires Posed(p) && Legal(p, l) && Emitted(p, OperandRouting(v, r, i))
    ensures Holds(AssignmentOf(l), ConstraintFor(p, OperandRouting(v, r, i)))
  {
    SumOfOne(AssignmentOf(l), SVar(p, v, r, i));
    SVarTells(p, l, v, i, r);
    assert IsRouted(p, l, v, i);
  }

  lemma MeetsOrdering(p: Problem, l: Layout, v: nat, r: NodeId, n: NodeId)
    requires Posed(p) && Legal(p, l) && p.topologicalMode && IsValue(p, v) && IsRoutingLink(p, r, n)
    ensures Holds(AssignmentOf(l), ConstraintFor(p, EdgeUsage(v, r, n)))
    ensures Holds(AssignmentOf(l), ConstraintFor(p, TopologicalOrdering(v, r, n)))
  {
    assert Emitted(p, EdgeUsage(v, r, n)) && Emitted(p, TopologicalOrdering(v, r, n)) && LeadsOn(p.g, r, n);
  }

  /** A node that drives only one other is followed by it on every route through it. */
  lemma OnlyFanoutFollows(p: Problem, l: Layout, v: nat, i: nat, r: NodeId, n: NodeId) returns (k: nat)
    requires Posed(p) && Shaped(p, l) && Routed(p, l) && IsSink(p, v, i) && Passes(l, v, i, r)
    requires r in p.g.nodes && |p.g.nodes[r].fanout| == 1 && n in p.g.nodes[r].fanout
    requires n in p.g.nodes && !p.g.nodes[n].kind.Function?
    ensures k + 1 < |l.routes[v][i]| && l.routes[v][i][k] == r && l.routes[v][i][k + 1] == n
  {
    assert IsRouted(p, l, v, i);
    var w := l.routes[v][i];
    k :| k < |w| && w[k] == r;
    assert k + 1 < |w| ==> w[k + 1] in p.g.nodes[w[k]].fanout;
  }

  /** A node with several fanins is entered from one of them. */
  lemma EnteredFrom(p: Problem, l: Layout, v: nat, i: nat, n: NodeId) returns (k: nat)
    requires Posed(p) && Shaped(p, l) && Placed(p, l) && Routed(p, l) && IsSink(p, v, i) && Passes(l, v, i, n)
    requires IsRouting(p, n) && FaninsExclusive(p, n) && |p.g.nodes[n].fanin| > 1
    ensures k + 1 < |l.routes[v][i]| && l.routes[v][i][k + 1] == n
    ensures l.routes[v][i][k] in p.g.nodes[n].fanin
  {
    assert IsRouted(p, l, v, i);
    var w := l.routes[v][i];
    var m: nat :| m < |w| && w[m] == n;
    var from := l.place[p.og.vals[v].input];
    assert OfKind(p, p.og.vals[v].input, from) && NodeOk(p.g, from);
    assert m > 0;
    k := m - 1;
    assert w[k + 1] in p.g.nodes[w[k]].fanout && NodeOk(p.g, w[k]);
  }

  lemma MeetsMuxExclusivity(p: Problem, l: Layout, v: nat, n: NodeId)
    requires Posed(p) && Accepted(p) && Legal(p, l) && Emitted(p, MuxExclusivity(v, n))
    ensures Holds(AssignmentOf(l), ConstraintFor(p, MuxExclusivity(v, n)))
  {
    var a := AssignmentOf(l);
    var fanin := p.g.nodes[n].fanin;
    var vars := Fanins(v, fanin);
    assert IsValue(p, v) && IsRouting(p, n) && FaninsExclusive(p, n) && NodeOk(p.g, n);
    SumOfOne(a, R(v, n));
    if Uses(l, v, n) {
      var i: nat :| Passes(l, v, i, n);
      var k := EnteredFrom(p, l, v, i, n);
      var x := l.routes[v][i][k];
      var e: nat :| e < |fanin| && fanin[e] == x;
      assert Passes(l, v, i, x);
      forall d | 0 <= d < |vars|
        ensures a(vars[d]) == if d == e then 1 else 0
      {
        if Uses(l, v, fanin[d]) {
          var j: nat :| Passes(l, v, j, fanin[d]);
          var m := OnlyFanoutFollows(p, l, v, j, fanin[d], n);
          assert l.routes[v][i][..k + 1][k] == l.routes[v][j][..m + 1][m];
        }
      }
      SumIsOne(a, vars, e);
    } else {
      forall x | x in vars
        ensures a(x) == 0
      {
        if Uses(l, v, x.node) {
          var j: nat :| Passes(l, v, j, x.node);
          var m := OnlyFanoutFollows(p, l, v, j, x.node, n);
          assert Passes(l, v, j, n);
        }
      }
      SumIsZero(a, vars);
    }
  }

  /** Main result: every legal mapping is a solution. */
  lemma LegalSolves(p: Problem, l: Layout)
    requires Posed(p) && Accepted(p) && Legal(p, l)
    ensures Solves(p, AssignmentOf(l))
  {
    forall id | Emitted(p, id)
      ensures Holds(AssignmentOf(l), ConstraintFor(p, id))
    {
      match id
      case SubValue(v, r, i) => MeetsSubValue(p, l, v, r, i);
      case RouteExclusivity(r) => MeetsRouteExclusivity(p, l, r);
      case FunctionUnitExclusivity(f) => MeetsFunctionUnitExclusivity(p, l, f);
      case OpMustBeMapped(op) => MeetsOpMustBeMapped(p, l, op);
      case FanoutRouting(v, r, i) => MeetsFanoutRouting(p, l, v, r, i);
      case MuxExclusivity(v, r) => MeetsMuxExclusivity(p, l, v, r);
      case FunctionUnitFanout(op, f, i) => MeetsFunctionUnitFanout(p, l, op, f, i);
      case FunctionUnitFanin(v, op, f, n) => MeetsFunctionUnitFanin(p, l, v, op, f, n);
      case OpSupported(op, f) => MeetsOpSupported(p, l, op, f);
      case EdgeUsage(v, r, n) => MeetsOrdering(p, l, v, r, n);
      case TopologicalOrdering(v, r, n) => MeetsOrdering(p, l, v, r, n);
      case OperandRouting(v, r, i) => MeetsOperandRouting(p, l, v, r, i);
    }
  }

  // From a solution to a mapping.

  ghost function HostIn(p: Problem, a: Assignment, op: nat): NodeId {
    if exists f :: f in p.functions && a(F(op, f)) == 1 then
      var f :| f in p.functions && a(F(op, f)) == 1;
      f
    else NodeId(0, "")
  }

  ghost predicate Threads(p: Problem, a: Assignment, v: nat, i: nat, path: seq<NodeId>)
    requires Consistent(p.og) && IsSink(p, v, i)
  {
    Delivered(p, a, v, i, path) && Straight(p, a, v, i, path)
  }

  /** What lies between the two units on a route that the solution has. */
  ghost function RouteIn(p: Problem, a: Assignment, v: nat, i: nat): seq<NodeId>
    requires Consistent(p.og) && IsSink(p, v, i)
  {
    if exists path :: Threads(p, a, v, i, path) then
      var path :| Threads(p, a, v, i, path);
      path[1..|path| - 1]
    else []
  }

  ghost function LayoutOf(p: Problem, a: Assignment): Layout
    requires Consistent(p.og) && InRange(a)
  {
    Layout(
      seq(|p.og.ops|, op requires 0 <= op < |p.og.ops| => HostIn(p, a, op)),
      seq(|p.og.vals|, v requires 0 <= v < |p.og.vals| =>
        seq(Fanouts(p, v), i requires 0 <= i < Fanouts(p, v) => RouteIn(p, a, v, i))),
      (v: nat, n: NodeId) => a(TVar(p, v, n)))
  }

  lemma HostInHosts(p: Problem, a: Assignment, op: nat)
    requires Posed(p) && Solves(p, a) && op < |p.og.ops|
    ensures HostIn(p, a, op) in p.functions && a(F(op, HostIn(p, a, op))) == 1
    ensures forall f :: f in p.functions && a(F(op, f)) == 1 ==> f == HostIn(p, a, op)
    ensures OfKind(p, op, HostIn(p, a, op)) && NamedAsFixed(p, op, HostIn(p, a, op))
  {
    var f := HostOf(p, a, op);
    SuitedMayHost(p, op, f);
  }

  lemma LayoutIsPlaced(p: Problem, a: Assignment)
    requires Posed(p) && Solves(p, a)
    ensures Shaped(p, LayoutOf(p, a)) && Placed(p, LayoutOf(p, a))
  {
    forall op: nat | op < |p.og.ops| {
      HostInHosts(p, a, op);
    }
    forall op: nat, op': nat | op < op' < |p.og.ops|
      ensures HostIn(p, a, op) != HostIn(p, a, op')
    {
      OpsApart(p, a, op, op', HostIn(p, a, op));
    }
  }

  lemma RouteInThreads(p: Problem, a: Assignment, v: nat, i: nat) returns (path: seq<NodeId>)
    requires Posed(p) && Accepted(p) && Solves(p, a) && IsSink(p, v, i)
    ensures Threads(p, a, v, i, path) && RouteIn(p, a, v, i) == path[1..|path| - 1]
  {
    var found := EverySinkIsReached(p, a, v, i);
    assert Threads(p, a, v, i, found);
    path :| Threads(p, a, v, i, path) && RouteIn(p, a, v, i) == path[1..|path| - 1];
  }

  /** A route without its ends. */
  lemma InnerOf(p: Problem, a: Assignment, v: nat, i: nat, path: seq<NodeId>, w: seq<NodeId>)
    requires Posed(p) && IsSink(p, v, i) && Threads(p, a, v, i, path) && w == path[1..|path| - 1]
    ensures IsWalk(p.g, w) && NoDup(w)
    ensures w[0] in p.g.nodes[path[0]].fanout && Last(path) in p.g.nodes[Last(w)].fanout
    ensures forall k :: 0 <= k < |w| ==> Carries(p, a, v, i, w[k])
    ensures forall k :: 1 <= k < |w| ==> p.g.nodes[w[k]].kind.Routing?
  {
    var before := path[..|path| - 1];
    assert path[0 + 1] in p.g.nodes[path[0]].fanout && path[(|path| - 2) + 1] in p.g.nodes[path[|path| - 2]].fanout;
    forall k | 0 <= k < |w|
      ensures w[k] in p.g.nodes && Carries(p, a, v, i, w[k])
      ensures k >= 1 ==> p.g.nodes[w[k]].kind.Routing?
      ensures k + 1 < |w| ==> w[k + 1] in p.g.nodes[w[k]].fanout
    {
      assert w[k] == before[k + 1] == path[k + 1];
    }
    assert forall j, k :: 0 <= j < k < |w| ==> w[j] == before[j + 1] != before[k + 1] == w[k];
  }

  lemma InnerCarries(p: Problem, a: Assignment, v: nat, i: nat, w: seq<NodeId>, k: nat)
    requires Posed(p) && Solves(p, a) && IsSink(p, v, i) && k < |w| && Carries(p, a, v, i, w[k])
    ensures w[k] in p.g.nodes && Carrying(p.g.nodes[w[k]], p.og.vals[v].operandTags[i])
  {
    CarriesUses(p, a, v, i, w[k]);
    if !NodeIsCompatibleWithOperand(p.g.nodes[w[k]], p.og.vals[v].operandTags[i]) {
      IncompatibleNodesCarryNothing(p, a, v, i, w[k]);
    }
  }

  /** What a route meets, between the units of the source and the sink. */
  lemma RouteInEnds(p: Problem, a: Assignment, v: nat, i: nat)
    requires Posed(p) && Accepted(p) && Solves(p, a) && IsSink(p, v, i)
    ensures var w, val := RouteIn(p, a, v, i), p.og.vals[v];
            var from, to := HostIn(p, a, val.input), HostIn(p, a, val.outputs[i]);
            && IsWalk(p.g, w) && NoDup(w) && from in p.g.nodes && w[0] in p.g.nodes[from].fanout
            && to in p.g.nodes[Last(w)].fanout && to in p.g.nodes && p.g.nodes[to].kind.Function?
            && (forall k :: 0 <= k < |w| ==> Carries(p, a, v, i, w[k]))
            && (forall k :: 1 <= k < |w| ==> p.g.nodes[w[k]].kind.Routing?)
  {
    var path := RouteInThreads(p, a, v, i);
    InnerOf(p, a, v, i, path, RouteIn(p, a, v, i));
    HostInHosts(p, a, p.og.vals[v].input);
    HostInHosts(p, a, p.og.vals[v].outputs[i]);
  }

  lemma OnlyFanout(p: Problem, a: Assignment, v: nat, i: nat)
    requires Posed(p) && Accepted(p) && Solves(p, a) && IsSink(p, v, i)
    ensures var from := HostIn(p, a, p.og.vals[v].input); from in p.g.nodes && |p.g.nodes[from].fanout| == 1
  {
    var op := p.og.vals[v].input;
    HostInHosts(p, a, op);
    assert SingleRoutingFanout(p, op, HostIn(p, a, op));
  }

  lemma RouteInConnects(p: Problem, a: Assignment, v: nat, i: nat)
    requires Posed(p) && Accepted(p) && Solves(p, a) && IsSink(p, v, i)
    ensures Connects(p.g, RouteIn(p, a, v, i), HostIn(p, a, p.og.vals[v].input),
                     HostIn(p, a, p.og.vals[v].outputs[i]), p.og.vals[v].operandTags[i])
    ensures forall n :: n in RouteIn(p, a, v, i) ==> Carries(p, a, v, i, n)
  {
    var w := RouteIn(p, a, v, i);
    RouteInEnds(p, a, v, i);
    OnlyFanout(p, a, v, i);
    forall k | 0 <= k < |w|
      ensures Carrying(p.g.nodes[w[k]], p.og.vals[v].operandTags[i])
    {
      InnerCarries(p, a, v, i, w, k);
    }
  }

  lemma LayoutIsRouted(p: Problem, a: Assignment)
    requires Posed(p) && Accepted(p) && Solves(p, a)
    ensures Routed(p, LayoutOf(p, a))
  {
    forall v: nat, i: nat | IsSink(p, v, i)
      ensures IsRouted(p, LayoutOf(p, a), v, i)
    {
      RouteInConnects(p, a, v, i);
    }
  }

  lemma PassingIsUsing(p: Problem, a: Assignment, v: nat, i: nat, n: NodeId)
    requires Posed(p) && Accepted(p) && Solves(p, a) && Passes(LayoutOf(p, a), v, i, n)
    ensures IsSink(p, v, i) && Carries(p, a, v, i, n) && a(R(v, n)) == 1
    ensures IsRouting(p, n)
  {
    RouteInConnects(p, a, v, i);
    CarriesUses(p, a, v, i, n);
  }

  lemma LayoutIsDisjoint(p: Problem, a: Assignment)
    requires Posed(p) && Accepted(p) && Solves(p, a)
    ensures Disjoint(LayoutOf(p, a))
  {
    var l := LayoutOf(p, a);
    forall v: nat, w: nat, n | Uses(l, v, n) && Uses(l, w, n)
      ensures v == w
    {
      var i: nat :| Passes(l, v, i, n);
      var j: nat :| Passes(l, w, j, n);
      PassingIsUsing(p, a, v, i, n);
      PassingIsUsing(p, a, w, j, n);
      if v != w {
        ValuesApart(p, a, v, w, n);
      }
    }
  }

  lemma LayoutKeepsOutputsApart(p: Problem, a: Assignment)
    requires Posed(p) && Accepted(p) && Solves(p, a)
    ensures OutputsApart(p, LayoutOf(p, a))
  {
    var l := LayoutOf(p, a);
    forall v: nat, i: nat, n, f | Passes(l, v, i, n) && IsSingleOutput(p.g, f, n)
      ensures f == l.place[p.og.vals[v].input]
    {
      PassingIsUsing(p, a, v, i, n);
      var op := p.og.vals[v].input;
      var id := FunctionUnitFanout(op, f, i);
      assert Emitted(p, id) && Holds(a, ConstraintFor(p, id));
      SumOfOne(a, F(op, f));
      SumOfOne(a, SVar(p, v, n, i));
      HostInHosts(p, a, op);
    }
  }

  lemma LayoutKeepsInputsApart(p: Problem, a: Assignment)
    requires Posed(p) && Accepted(p) && Solves(p, a)
    ensures InputsApart(p, LayoutOf(p, a))
  {
    var l := LayoutOf(p, a);
    forall v: nat, i: nat, j: nat, n, f |
      Passes(l, v, i, n) && Passes(l, v, j, n) && i != j && IsInput(p, p.og.vals[v].outputs[i], f, n)
      ensures p.og.vals[v].outputs[i] != p.og.vals[v].outputs[j]
    {
      PassingIsUsing(p, a, v, i, n);
      PassingIsUsing(p, a, v, j, n);
      if p.og.vals[v].outputs[i] == p.og.vals[v].outputs[j] {
        InputCarriesOne(p, a, v, i, j, f, n);
      }
    }
  }

  lemma LayoutIsOrdered(p: Problem, a: Assignment)
    requires Posed(p) && Accepted(p) && Solves(p, a) && p.topologicalMode
    ensures Ordered(p, LayoutOf(p, a))
  {
    var l := LayoutOf(p, a);
    forall v: nat, r, n | Uses(l, v, r) && Uses(l, v, n) && LeadsOn(p.g, r, n)
      ensures l.rank(v, r) < l.rank(v, n)
    {
      var i: nat :| Passes(l, v, i, r);
      var j: nat :| Passes(l, v, j, n);
      PassingIsUsing(p, a, v, i, r);
      PassingIsUsing(p, a, v, j, n);
      OrderGrows(p, a, v, r, n);
    }
  }

  /** A routing node is entered by all routes of a value from the same node. */
  lemma EnteredAlike(p: Problem, a: Assignment, v: nat, n: NodeId, x: NodeId, y: NodeId)
    requires Posed(p) && Solves(p, a) && !p.topologicalMode && IsValue(p, v)
    requires IsRoutingLink(p, x, n) && IsRoutingLink(p, y, n) && a(R(v, x)) == 1 && a(R(v, y)) == 1
    ensures x == y
  {
    assert NodeOk(p.g, x) && NodeOk(p.g, y) && NodeOk(p.g, n);
    if x != y {
      AtMostOneFanin(p, a, v, n, x, y);
    }
  }

  lemma StepBack(p: Problem, a: Assignment, v: nat, i: nat, k: nat)
    requires Posed(p) && Accepted(p) && Solves(p, a) && IsSink(p, v, i) && 0 < k < |RouteIn(p, a, v, i)|
    ensures IsRoutingLink(p, RouteIn(p, a, v, i)[k - 1], RouteIn(p, a, v, i)[k])
    ensures a(R(v, RouteIn(p, a, v, i)[k - 1])) == 1
  {
    var r := RouteIn(p, a, v, i);
    RouteInEnds(p, a, v, i);
    assert r[(k - 1) + 1] in p.g.nodes[r[k - 1]].fanout;
    CarriesUses(p, a, v, i, r[k - 1]);
  }

  lemma StartAlike(p: Problem, a: Assignment, v: nat, i: nat, j: nat)
    requires Posed(p) && Accepted(p) && Solves(p, a) && IsSink(p, v, i) && IsSink(p, v, j)
    ensures RouteIn(p, a, v, i) != [] && RouteIn(p, a, v, j) != []
    ensures RouteIn(p, a, v, i)[0] == RouteIn(p, a, v, j)[0]
    ensures NoDup(RouteIn(p, a, v, i)) && NoDup(RouteIn(p, a, v, j))
  {
    RouteInConnects(p, a, v, i);
    RouteInConnects(p, a, v, j);
  }

  lemma OneMoreAlike(r: seq<NodeId>, s: seq<NodeId>, k: nat, m: nat)
    requires 0 < k < |r| && 0 < m < |s| && r[..k - 1] == s[..m - 1] && r[k - 1] == s[m - 1]
    ensures r[..k] == s[..m]
  {
    assert r[..k] == r[..k - 1] + [r[k - 1]] && s[..m] == s[..m - 1] + [s[m - 1]];
  }

  /** Traced back from where they meet, two routes of a value are the same. */
  lemma {:induction false} CameTheSameWay(p: Problem, a: Assignment, v: nat, i: nat, j: nat, k: nat, m: nat)
    requires Posed(p) && Accepted(p) && Solves(p, a) && !p.topologicalMode && IsSink(p, v, i) && IsSink(p, v, j)
    requires k < |RouteIn(p, a, v, i)| && m < |RouteIn(p, a, v, j)|
    requires RouteIn(p, a, v, i)[k] == RouteIn(p, a, v, j)[m]
    ensures RouteIn(p, a, v, i)[..k] == RouteIn(p, a, v, j)[..m]
  {
    var r, s := RouteIn(p, a, v, i), RouteIn(p, a, v, j);
    if k > 0 && m > 0 {
      StepBack(p, a, v, i, k);
      StepBack(p, a, v, j, m);
      EnteredAlike(p, a, v, r[k], r[k - 1], s[m - 1]);
      CameTheSameWay(p, a, v, i, j, k - 1, m - 1);
      OneMoreAlike(r, s, k, m);
    } else {
      StartAlike(p, a, v, i, j);
    }
  }

  lemma LayoutIsBranching(p: Problem, a: Assignment)
    requires Posed(p) && Accepted(p) && Solves(p, a) && !p.topologicalMode
    ensures Branching(LayoutOf(p, a))
  {
    var l := LayoutOf(p, a);
    forall v: nat, i: nat, j: nat | v < |l.routes| && i < |l.routes[v]| && j < |l.routes[v]|
      ensures SameWay(l.routes[v][i], l.routes[v][j])
    {
      var r, s := RouteIn(p, a, v, i), RouteIn(p, a, v, j);
      forall k: nat, m: nat | k < |r| && m < |s| && r[k] == s[m]
        ensures r[..k] == s[..m]
      {
        CameTheSameWay(p, a, v, i, j, k, m);
      }
    }
  }

  /** Main result: every solution is a legal mapping. */
  lemma SolutionIsLegal(p: Problem, a: Assignment)
    requires Posed(p) && Accepted(p) && Solves(p, a)
    ensures Legal(p, LayoutOf(p, a))
  {
    LayoutIsPlaced(p, a);
    LayoutIsRouted(p, a);
    LayoutIsDisjoint(p, a);
    LayoutKeepsOutputsApart(p, a);
    LayoutKeepsInputsApart(p, a);
    if p.topologicalMode {
      LayoutIsOrdered(p, a);
    } else {
      LayoutIsBranching(p, a);
    }
  }

  /** The model can be solved exactly when the dataflow graph can be mapped. */
  lemma SolvableWhenMappable(p: Problem)
    requires Posed(p) && Accepted(p)
    ensures (exists a :: Solves(p, a)) <==> exists l :: Legal(p, l)
  {
    if a :| Solves(p, a) {
      SolutionIsLegal(p, a);
    }
    if l :| Legal(p, l) {
      LegalSolves(p, l);
    }
  }
}

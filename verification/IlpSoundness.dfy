// Every solution of the model routes every value to every one of its sinks.
module IlpSoundness {
  import opened Seqs
  import opened Mrrg
  import opened Walks
  import opened OpGraphs
  import opened IlpModel
  import opened IlpGenerators

  /** The assignment meets every constraint that the model has. */
  ghost predicate Solves(p: Problem, a: Assignment) {
    && InRange(a)
    && forall id {:trigger ConstraintFor(p, id)} :: Emitted(p, id) ==> Holds(a, ConstraintFor(p, id))
  }

  lemma SolutionsOfEntries(p: Problem, entries: seq<Entry>, a: Assignment)
    requires Generated(p, entries, (id: Id) => true)
    ensures InRange(a) && (forall e :: e in entries ==> Holds(a, e.c)) <==> Solves(p, a)
  {
    if InRange(a) && (forall e :: e in entries ==> Holds(a, e.c)) {
      forall id | Emitted(p, id)
        ensures Holds(a, ConstraintFor(p, id))
      {
        assert Entry(id, ConstraintFor(p, id)) in entries;
      }
    }
  }

  // Sums of binary variables.

  ghost predicate AllBinary(vars: seq<Var>) {
    forall v :: v in vars ==> !v.T?
  }

  lemma {:induction false} SumAtLeast(a: Assignment, vars: seq<Var>, i: nat)
    requires InRange(a) && AllBinary(vars)
    ensures Sum(a, vars) >= 0
    ensures i < |vars| ==> Sum(a, vars) >= a(vars[i])
  {
    if vars != [] {
      SumAtLeast(a, vars[..|vars| - 1], i);
      assert vars[|vars| - 1] in vars;
    }
  }

  lemma {:induction false} SumOfTwo(a: Assignment, vars: seq<Var>, i: nat, j: nat)
    requires InRange(a) && AllBinary(vars) && i < j < |vars|
    requires a(vars[i]) == 1 && a(vars[j]) == 1
    ensures Sum(a, vars) >= 2
  {
    var init := vars[..|vars| - 1];
    if j == |vars| - 1 {
      SumAtLeast(a, init, i);
    } else {
      SumOfTwo(a, init, i, j);
      assert vars[|vars| - 1] in vars;
    }
  }

  lemma {:induction false} PickPositive(a: Assignment, vars: seq<Var>) returns (v: Var)
    requires InRange(a) && AllBinary(vars) && Sum(a, vars) >= 1
    ensures v in vars && a(v) == 1
  {
    v := vars[|vars| - 1];
    assert v in vars;
    if a(v) != 1 {
      v := PickPositive(a, vars[..|vars| - 1]);
    }
  }

  lemma {:induction false} PickFanout(p: Problem, v: nat, i: nat, r: NodeId, fanout: seq<NodeId>, x: Var)
    returns (n: NodeId)
    requires IsSink(p, v, i) && forall m :: m in fanout ==> m in p.g.nodes
    requires x in FanoutTerms(p, v, i, r, fanout)
    ensures n in fanout
    ensures (p.g.nodes[n].kind.Routing? && x == SVar(p, v, n, i)) ||
            (p.g.nodes[n].kind.Function? && x == F(p.og.vals[v].outputs[i], n))
  {
    n := fanout[|fanout| - 1];
    if x in FanoutTerms(p, v, i, r, fanout[..|fanout| - 1]) {
      n := PickFanout(p, v, i, r, fanout[..|fanout| - 1], x);
    }
  }

  lemma {:induction false} FanoutTermsBinary(p: Problem, v: nat, i: nat, r: NodeId, fanout: seq<NodeId>)
    requires IsSink(p, v, i) && forall m :: m in fanout ==> m in p.g.nodes
    ensures AllBinary(FanoutTerms(p, v, i, r, fanout))
  {
    if fanout != [] {
      FanoutTermsBinary(p, v, i, r, fanout[..|fanout| - 1]);
    }
  }

  // Routes.

  /** Routing node n carries value v towards its i-th sink. */
  ghost predicate Carries(p: Problem, a: Assignment, v: nat, i: nat, n: NodeId)
    requires IsValue(p, v)
  {
    n in p.routing && a(SVar(p, v, n, i)) == 1
  }

  /** An S variable is set only where the value's R variable is. */
  lemma CarriesUses(p: Problem, a: Assignment, v: nat, i: nat, n: NodeId)
    requires Posed(p) && Solves(p, a) && IsSink(p, v, i) && Carries(p, a, v, i, n)
    ensures IsRouting(p, n) && a(R(v, n)) == 1
  {
    assert NodeOk(p.g, n);
    if Fanouts(p, v) > 1 {
      var c := ConstraintFor(p, SubValue(v, n, i));
      assert Holds(a, c);
      assert Sum(a, [R(v, n)]) == a(R(v, n)) by { assert [R(v, n)][..0] == []; }
      assert Sum(a, [S(v, n, i)]) == a(S(v, n, i)) by { assert [S(v, n, i)][..0] == []; }
    }
  }

  /** A route in the making: out of the unit of v's source, never twice through a node. */
  ghost predicate Partial(p: Problem, a: Assignment, v: nat, i: nat, path: seq<NodeId>)
    requires IsValue(p, v)
  {
    && |path| >= 2 && IsWalk(p.g, path) && NoDup(path)
    && path[0] in p.functions && a(F(p.og.vals[v].input, path[0])) == 1
    && (forall k :: 1 <= k < |path| ==> Carries(p, a, v, i, path[k]))
    && (forall k :: 2 <= k < |path| ==> p.g.nodes[path[k]].kind.Routing?)
  }

  /** A route from the unit of v's source to the unit of its i-th sink. */
  ghost predicate Delivered(p: Problem, a: Assignment, v: nat, i: nat, path: seq<NodeId>)
    requires Consistent(p.og) && IsSink(p, v, i)
  {
    && |path| >= 3 && IsWalk(p.g, path)
    && path[0] in p.functions && a(F(p.og.vals[v].input, path[0])) == 1
    && Last(path) in p.functions && a(F(p.og.vals[v].outputs[i], Last(path))) == 1
    && (forall k :: 1 <= k < |path| - 1 ==> Carries(p, a, v, i, path[k]))
  }

  /** Before it enters the unit of the sink the route meets no node twice and no other unit. */
  ghost predicate Straight(p: Problem, a: Assignment, v: nat, i: nat, path: seq<NodeId>)
    requires IsValue(p, v)
  {
    && |path| >= 1 && Partial(p, a, v, i, path[..|path| - 1])
    && Last(path) in p.g.nodes && p.g.nodes[Last(path)].kind.Function?
  }

  lemma SumOfOne(a: Assignment, x: Var)
    ensures Sum(a, [x]) == a(x)
    ensures Sum(a, []) == 0
  {
    assert [x][..0] == [];
  }

  /** An operation sits on exactly one functional unit, and that unit may host it. */
  lemma HostOf(p: Problem, a: Assignment, op: nat) returns (f: NodeId)
    requires Posed(p) && Solves(p, a) && op < |p.og.ops|
    ensures f in p.functions && a(F(op, f)) == 1
    ensures forall h :: h in p.functions && a(F(op, h)) == 1 ==> h == f
    ensures MayHost(p, op, f)
  {
    var units := Units(p.functions, op);
    assert Holds(a, ConstraintFor(p, OpMustBeMapped(op)));
    var x := PickPositive(a, units);
    f := x.node;
    forall h | h in p.functions && a(F(op, h)) == 1
      ensures h == f
    {
      var i :| 0 <= i < |p.functions| && p.functions[i] == f;
      var j :| 0 <= j < |p.functions| && p.functions[j] == h;
      if i < j {
        SumOfTwo(a, units, i, j);
      } else if j < i {
        SumOfTwo(a, units, j, i);
      }
    }
    if !MayHost(p, op, f) {
      assert Emitted(p, OpSupported(op, f));
      assert Holds(a, ConstraintFor(p, OpSupported(op, f)));
      SumOfOne(a, F(op, f));
    }
  }

  /** Two values never use the same routing node. */
  lemma ValuesApart(p: Problem, a: Assignment, v: nat, w: nat, n: NodeId)
    requires Posed(p) && Solves(p, a) && v < |p.og.vals| && w < |p.og.vals| && v != w && n in p.routing
    ensures !(a(R(v, n)) == 1 && a(R(w, n)) == 1)
  {
    assert NodeOk(p.g, n);
    var id := RouteExclusivity(n);
    assert Emitted(p, id) && Holds(a, ConstraintFor(p, id));
    SumOfOne(a, R(v, n));
    if a(R(v, n)) == 1 && a(R(w, n)) == 1 {
      SumOfTwo(a, Users(|p.og.vals|, n), if v < w then v else w, if v < w then w else v);
    }
  }

  /** Two operations never share a functional unit. */
  lemma OpsApart(p: Problem, a: Assignment, o: nat, q: nat, f: NodeId)
    requires Posed(p) && Solves(p, a) && o < |p.og.ops| && q < |p.og.ops| && o != q && f in p.functions
    ensures !(a(F(o, f)) == 1 && a(F(q, f)) == 1)
  {
    var id := FunctionUnitExclusivity(f);
    assert Emitted(p, id) && Holds(a, ConstraintFor(p, id));
    SumOfOne(a, F(o, f));
    if a(F(o, f)) == 1 && a(F(q, f)) == 1 {
      SumOfTwo(a, Hosted(|p.og.ops|, f), if o < q then o else q, if o < q then q else o);
    }
  }

  /** Where every route starts: the fanout of the source's unit carries the value. */
  lemma Start(p: Problem, a: Assignment, v: nat, i: nat) returns (path: seq<NodeId>)
    requires Posed(p) && Accepted(p) && Solves(p, a) && IsSink(p, v, i)
    ensures Partial(p, a, v, i, path)
  {
    var op := p.og.vals[v].input;
    var f := HostOf(p, a, op);
    assert SingleRoutingFanout(p, op, f) && IsSink(p, v, 0);
    var r := p.g.nodes[f].fanout[0];
    var id := FunctionUnitFanout(op, f, i);
    assert Emitted(p, id) && Holds(a, ConstraintFor(p, id));
    SumOfOne(a, F(op, f));
    SumOfOne(a, SVar(p, v, r, i));
    assert NodeOk(p.g, f);
    assert IsRouting(p, f) ==> FanoutsSupported(p, f);
    path := [f, r];
  }

  /** The value leaves a node that carries it: to a node that does, or into a sink. */
  lemma Onwards(p: Problem, a: Assignment, v: nat, i: nat, r: NodeId) returns (n: NodeId)
    requires Posed(p) && Solves(p, a) && IsSink(p, v, i) && Carries(p, a, v, i, r)
    ensures r in p.g.nodes && n in p.g.nodes[r].fanout && n in p.g.nodes
    ensures (p.g.nodes[n].kind.Routing? && Carries(p, a, v, i, n)) ||
            (p.g.nodes[n].kind.Function? && a(F(p.og.vals[v].outputs[i], n)) == 1)
  {
    assert NodeOk(p.g, r);
    var id := FanoutRouting(v, r, i);
    assert Emitted(p, id) && Holds(a, ConstraintFor(p, id));
    var terms := FanoutTerms(p, v, i, r, p.g.nodes[r].fanout);
    SumOfOne(a, SVar(p, v, r, i));
    FanoutTermsBinary(p, v, i, r, p.g.nodes[r].fanout);
    var x := PickPositive(a, terms);
    n := PickFanout(p, v, i, r, p.g.nodes[r].fanout, x);
  }

  /** MuxExclusivity: two used fanins of a routing node cannot be. */
  lemma AtMostOneFanin(p: Problem, a: Assignment, v: nat, n: NodeId, x: NodeId, y: NodeId)
    requires Posed(p) && Solves(p, a) && !p.topologicalMode && IsValue(p, v) && IsRouting(p, n)
    requires x in p.g.nodes[n].fanin && y in p.g.nodes[n].fanin && x != y
    ensures a(R(v, x)) + a(R(v, y)) <= 1
  {
    var fanin := p.g.nodes[n].fanin;
    var i :| 0 <= i < |fanin| && fanin[i] == x;
    var j :| 0 <= j < |fanin| && fanin[j] == y;
    var id := MuxExclusivity(v, n);
    assert Emitted(p, id) && Holds(a, ConstraintFor(p, id));
    SumOfOne(a, R(v, n));
    if a(R(v, x)) == 1 && a(R(v, y)) == 1 {
      SumOfTwo(a, Fanins(v, fanin), if i < j then i else j, if i < j then j else i);
    }
  }

  /** The first node to be visited twice would have two used fanins. */
  lemma NextIsNewByMux(p: Problem, a: Assignment, v: nat, i: nat, path: seq<NodeId>, n: NodeId)
    requires Posed(p) && Accepted(p) && Solves(p, a) && !p.topologicalMode && IsSink(p, v, i)
    requires Partial(p, a, v, i, path) && n in p.g.nodes[Last(path)].fanout
    requires Carries(p, a, v, i, n) && p.g.nodes[n].kind.Routing?
    ensures n !in path
  {
    if n in path {
      var k :| 0 <= k < |path| && path[k] == n;
      assert k > 0;
      assert path[(k - 1) + 1] in p.g.nodes[path[k - 1]].fanout;
      var x, y := path[k - 1], Last(path);
      assert x != y;
      assert NodeOk(p.g, x) && NodeOk(p.g, y) && NodeOk(p.g, n);
      assert x in p.g.nodes[n].fanin && y in p.g.nodes[n].fanin;
      assert |p.g.nodes[n].fanin| > 1;
      assert IsValue(p, v) && IsRouting(p, n) && FaninsExclusive(p, n);
      assert k > 1;
      CarriesUses(p, a, v, i, x);
      CarriesUses(p, a, v, i, y);
      AtMostOneFanin(p, a, v, n, x, y);
    }
  }

  /** The order variables grow along a used link. */
  lemma OrderGrows(p: Problem, a: Assignment, v: nat, r: NodeId, n: NodeId)
    requires Posed(p) && Solves(p, a) && p.topologicalMode && IsValue(p, v) && IsRoutingLink(p, r, n)
    requires a(R(v, r)) == 1 && a(R(v, n)) == 1
    ensures a(TVar(p, v, r)) < a(TVar(p, v, n))
  {
    assert Emitted(p, EdgeUsage(v, r, n)) && Emitted(p, TopologicalOrdering(v, r, n));
    assert Holds(a, ConstraintFor(p, EdgeUsage(v, r, n)));
    assert Holds(a, ConstraintFor(p, TopologicalOrdering(v, r, n)));
  }

  lemma {:induction false} OrderGrowsAlong(p: Problem, a: Assignment, v: nat, i: nat, path: seq<NodeId>, j: nat, k: nat)
    requires Posed(p) && Solves(p, a) && p.topologicalMode && IsSink(p, v, i)
    requires Partial(p, a, v, i, path) && 1 <= j <= k < |path|
    ensures a(TVar(p, v, path[j])) <= a(TVar(p, v, path[k]))
  {
    if j < k {
      OrderGrowsAlong(p, a, v, i, path, j, k - 1);
      assert path[(k - 1) + 1] in p.g.nodes[path[k - 1]].fanout;
      CarriesUses(p, a, v, i, path[k - 1]);
      CarriesUses(p, a, v, i, path[k]);
      OrderGrows(p, a, v, path[k - 1], path[k]);
    }
  }

  lemma NextIsNewByOrder(p: Problem, a: Assignment, v: nat, i: nat, path: seq<NodeId>, n: NodeId)
    requires Posed(p) && Solves(p, a) && p.topologicalMode && IsSink(p, v, i)
    requires Partial(p, a, v, i, path) && n in p.g.nodes[Last(path)].fanout
    requires Carries(p, a, v, i, n) && p.g.nodes[n].kind.Routing?
    ensures n !in path
  {
    if n in path {
      var k :| 0 <= k < |path| && path[k] == n;
      OrderGrowsAlong(p, a, v, i, path, k, |path| - 1);
      CarriesUses(p, a, v, i, Last(path));
      CarriesUses(p, a, v, i, n);
      OrderGrows(p, a, v, Last(path), n);
    }
  }

  lemma PartialBound(p: Problem, a: Assignment, v: nat, i: nat, path: seq<NodeId>)
    requires IsValue(p, v) && Partial(p, a, v, i, path)
    ensures |path| <= |p.routing| + 1
  {
    var tail := path[1..];
    forall n | n in tail
      ensures n in (set m | m in p.routing)
    {
      var k :| 0 <= k < |tail| && tail[k] == n;
      assert path[k + 1] == n;
    }
    assert NoDup(tail) by {
      forall j, k | 0 <= j < k < |tail|
        ensures tail[j] != tail[k]
      {
        assert path[j + 1] != path[k + 1];
      }
    }
    NoDupBound(tail, set m | m in p.routing);
    SetOfSeq(p.routing);
  }

  lemma {:induction false} SetOfSeq(s: seq<NodeId>)
    ensures |set n | n in s| <= |s|
  {
    if s != [] {
      var init := s[..|s| - 1];
      SetOfSeq(init);
      assert (set n | n in s) == (set n | n in init) + {s[|s| - 1]};
    }
  }

  lemma {:induction false} Extend(p: Problem, a: Assignment, v: nat, i: nat, path: seq<NodeId>)
    returns (full: seq<NodeId>)
    requires Posed(p) && Accepted(p) && Solves(p, a) && IsSink(p, v, i)
    requires Partial(p, a, v, i, path)
    ensures Delivered(p, a, v, i, full) && Straight(p, a, v, i, full)
    decreases |p.routing| + 1 - |path|
  {
    var r := Last(path);
    var n := Onwards(p, a, v, i, r);
    full := path + [n];
    assert IsWalk(p.g, full) && full[..|full| - 1] == path;
    if p.g.nodes[n].kind.Routing? {
      if p.topologicalMode {
        NextIsNewByOrder(p, a, v, i, path, n);
      } else {
        NextIsNewByMux(p, a, v, i, path, n);
      }
      AppendNoDup(path, n);
      PartialBound(p, a, v, i, full);
      full := Extend(p, a, v, i, full);
    }
  }

  /** Main result: whichever way the model excludes detached loops, a solution
      has for every value and every sink of it a finite route, from the unit of
      the source through nodes that carry the value to the unit of the sink. */
  lemma EverySinkIsReached(p: Problem, a: Assignment, v: nat, i: nat) returns (path: seq<NodeId>)
    requires Posed(p) && Accepted(p) && Solves(p, a) && IsSink(p, v, i)
    ensures Delivered(p, a, v, i, path) && Straight(p, a, v, i, path)
  {
    var start := Start(p, a, v, i);
    path := Extend(p, a, v, i, start);
  }

  lemma IncompatibleNodesCarryNothing(p: Problem, a: Assignment, v: nat, i: nat, n: NodeId)
    requires Posed(p) && Solves(p, a) && IsSink(p, v, i) && IsRouting(p, n)
    requires !NodeIsCompatibleWithOperand(p.g.nodes[n], p.og.vals[v].operandTags[i])
    ensures a(SVar(p, v, n, i)) == 0
  {
    var id := OperandRouting(v, n, i);
    assert Emitted(p, id) && Holds(a, ConstraintFor(p, id));
    SumOfOne(a, SVar(p, v, n, i));
  }

  /** Operand tags are respected on the whole way. */
  lemma RouteFitsOperand(p: Problem, a: Assignment, v: nat, i: nat, path: seq<NodeId>, k: nat)
    requires Posed(p) && Solves(p, a) && IsSink(p, v, i) && Delivered(p, a, v, i, path)
    requires 1 <= k < |path| - 1
    ensures NodeIsCompatibleWithOperand(p.g.nodes[path[k]], p.og.vals[v].operandTags[i])
  {
    CarriesUses(p, a, v, i, path[k]);
    if !NodeIsCompatibleWithOperand(p.g.nodes[path[k]], p.og.vals[v].operandTags[i]) {
      IncompatibleNodesCarryNothing(p, a, v, i, path[k]);
    }
  }

  /** An input of a unit of the right kind carries one edge of a value into an operation at most. */
  lemma InputCarriesOne(p: Problem, a: Assignment, v: nat, i: nat, j: nat, f: NodeId, n: NodeId)
    requires Posed(p) && Solves(p, a) && IsSink(p, v, i) && IsSink(p, v, j) && i != j
    requires p.og.vals[v].outputs[i] == p.og.vals[v].outputs[j]
    requires IsFunction(p, f) && CanMapOp(p.g.nodes[f], p.og.ops[p.og.vals[v].outputs[i]])
    requires n in p.g.nodes[f].fanin
    ensures !(Carries(p, a, v, i, n) && Carries(p, a, v, j, n))
  {
    var op := p.og.vals[v].outputs[i];
    var outputs := OutputsTo(p.og.vals[v].outputs, op);
    assert i in outputs && j in outputs;
    var x :| 0 <= x < |outputs| && outputs[x] == i;
    var y :| 0 <= y < |outputs| && outputs[y] == j;
    assert |outputs| > 1;
    var id := FunctionUnitFanin(v, op, f, n);
    assert Emitted(p, id) && Holds(a, ConstraintFor(p, id));
    SumOfOne(a, SVar(p, v, n, i));
    if a(SVar(p, v, n, i)) == 1 && a(SVar(p, v, n, j)) == 1 {
      SumOfTwo(a, Inputs(p, v, n, outputs), if x < y then x else y, if x < y then y else x);
    }
  }

  /** Two edges of one value into one operation enter its unit by different inputs. */
  lemma MultiEdgesEnterApart(p: Problem, a: Assignment, v: nat, i: nat, j: nat, path: seq<NodeId>, other: seq<NodeId>)
    requires Posed(p) && Accepted(p) && Solves(p, a) && IsSink(p, v, i) && IsSink(p, v, j)
    requires i != j && p.og.vals[v].outputs[i] == p.og.vals[v].outputs[j]
    requires Delivered(p, a, v, i, path) && Delivered(p, a, v, j, other)
    ensures Last(path) == Last(other)
    ensures path[|path| - 2] != other[|other| - 2]
  {
    var op := p.og.vals[v].outputs[i];
    var f := HostOf(p, a, op);
    var n := path[|path| - 2];
    assert path[(|path| - 2) + 1] in p.g.nodes[n].fanout;
    if n == other[|other| - 2] {
      assert Carries(p, a, v, i, n) && Carries(p, a, v, j, n);
      assert NodeOk(p.g, n);
      InputCarriesOne(p, a, v, i, j, f, n);
    }
  }
}

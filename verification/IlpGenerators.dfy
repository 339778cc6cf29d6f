// The constraint generators of the ILP mapper. A generator that throws
// returns None.
module IlpGenerators {
  import opened Wrappers
  import opened Mrrg
  import opened OpGraphs
  import opened IlpModel

  // What the generators insist on.
  ghost predicate FanoutsSupported(p: Problem, r: NodeId)
    requires IsRouting(p, r)
  {
    forall n :: n in p.g.nodes[r].fanout ==> !p.g.nodes[n].kind.RoutingFunction?
  }

  ghost predicate FaninsExclusive(p: Problem, r: NodeId)
    requires IsRouting(p, r)
  {
    |p.g.nodes[r].fanin| > 1 ==> forall n :: n in p.g.nodes[r].fanin ==>
      n in p.g.nodes && p.g.nodes[n].kind.Routing? && |p.g.nodes[n].fanout| == 1
  }

  ghost predicate SingleRoutingFanout(p: Problem, op: nat, f: NodeId)
    requires op < |p.og.ops| && IsFunction(p, f)
  {
    p.og.ops[op].output.Some? ==>
      && |p.g.nodes[f].fanout| == 1
      && (IsSink(p, p.og.ops[op].output.value, 0) ==> p.g.nodes[f].fanout[0] in p.routing)
  }

  ghost predicate MultiEdgeInputsRoute(p: Problem, v: nat, op: nat, f: NodeId)
    requires IsValue(p, v) && op < |p.og.ops| && IsFunction(p, f)
  {
    |OutputsTo(p.og.vals[v].outputs, op)| > 1 && CanMapOp(p.g.nodes[f], p.og.ops[op]) ==>
      forall n :: n in p.g.nodes[f].fanin ==> n in p.routing
  }

  ghost predicate Accepted(p: Problem) {
    && (forall v: nat, i: nat, r :: IsSink(p, v, i) && IsRouting(p, r) ==> FanoutsSupported(p, r))
    && (!p.topologicalMode ==> forall v: nat, r :: IsValue(p, v) && IsRouting(p, r) ==> FaninsExclusive(p, r))
    && (forall op: nat, f :: op < |p.og.ops| && IsFunction(p, f) ==> SingleRoutingFanout(p, op, f))
    && (forall v: nat, op: nat, f :: IsValue(p, v) && op < |p.og.ops| && IsFunction(p, f) ==>
         MultiEdgeInputsRoute(p, v, op, f))
  }

  method Emit(p: Problem, out: seq<Entry>, ghost scope: Id -> bool, id: Id, c: Constraint)
    returns (out': seq<Entry>, ghost scope': Id -> bool)
    requires Generated(p, out, scope) && Emitted(p, id) && c == ConstraintFor(p, id)
    ensures Generated(p, out', scope')
    ensures forall x :: scope'(x) <==> scope(x) || x == id
  {
    scope' := (x: Id) => scope(x) || x == id;
    Push(p, out, scope, id, c, scope');
    out' := out + [Entry(id, c)];
  }

  method Append(p: Problem, a: seq<Entry>, ghost scopeA: Id -> bool, b: seq<Entry>, ghost scopeB: Id -> bool)
    returns (out: seq<Entry>, ghost scope: Id -> bool)
    requires Generated(p, a, scopeA) && Generated(p, b, scopeB)
    ensures Generated(p, out, scope)
    ensures forall x :: scope(x) <==> scopeA(x) || scopeB(x)
  {
    scope := (id: Id) => scopeA(id) || scopeB(id);
    Join(p, a, scopeA, b, scopeB, scope);
    out := a + b;
  }

  lemma RoutingNode(p: Problem, k: nat)
    requires Posed(p) && k < |p.routing|
    ensures IsRouting(p, p.routing[k])
    ensures p.routing[..k + 1] == p.routing[..k] + [p.routing[k]]
    ensures p.routing[..|p.routing|] == p.routing
    ensures p.routing[k] !in p.routing[..k]
  {
    assert NodeOk(p.g, p.routing[k]);
  }

  lemma FunctionNode(p: Problem, k: nat)
    requires Posed(p) && k < |p.functions|
    ensures IsFunction(p, p.functions[k])
    ensures p.functions[..k + 1] == p.functions[..k] + [p.functions[k]]
    ensures p.functions[..|p.functions|] == p.functions
    ensures p.functions[k] !in p.functions[..k]
  {
  }

  method GenerateSubValue(p: Problem) returns (out: seq<Entry>)
    requires Posed(p)
    ensures Generated(p, out, (id: Id) => id.SubValue?)
  {
    out := [];
    ghost var scope := (id: Id) => false;
    for v := 0 to |p.og.vals|
      invariant Generated(p, out, scope)
      invariant forall id :: Emitted(p, id) ==> (scope(id) <==> (id.SubValue? && id.v < v))
    {
      for k := 0 to |p.routing|
        invariant Generated(p, out, scope)
        invariant forall id :: Emitted(p, id) ==>
                    (scope(id) <==> (id.SubValue? && (id.v < v || (id.v == v && id.r in p.routing[..k]))))
      {
        RoutingNode(p, k);
        if Fanouts(p, v) > 1 {
          var r := p.routing[k];
          for i := 0 to Fanouts(p, v)
            invariant Generated(p, out, scope)
            invariant forall id :: Emitted(p, id) ==> (scope(id) <==> (id.SubValue? &&
                        (id.v < v || (id.v == v && (id.r in p.routing[..k] || (id.r == r && id.i < i))))))
          {
            out, scope := Emit(p, out, scope, SubValue(v, r, i), Linear([R(v, r)], AtLeast, [S(v, r, i)], 0));
          }
        }
      }
      assert p.routing[..|p.routing|] == p.routing;
    }
    Rescope(p, out, scope, (id: Id) => id.SubValue?);
  }

  method GenerateRouteExclusivity(p: Problem) returns (out: seq<Entry>)
    requires Posed(p)
    ensures Generated(p, out, (id: Id) => id.RouteExclusivity?)
  {
    out := [];
    ghost var scope := (id: Id) => false;
    for i := 0 to |p.routing|
      invariant Generated(p, out, scope)
      invariant forall id :: Emitted(p, id) ==> (scope(id) <==> (id.RouteExclusivity? && id.r in p.routing[..i]))
    {
      RoutingNode(p, i);
      var r := p.routing[i];
      var users := [];
      for j := 0 to |p.og.vals|
        invariant users == Users(j, r)
      {
        users := users + [R(j, r)];
      }
      out, scope := Emit(p, out, scope, RouteExclusivity(r), Linear(users, AtMost, [], 1));
    }
    assert p.routing[..|p.routing|] == p.routing;
    Rescope(p, out, scope, (id: Id) => id.RouteExclusivity?);
  }

  method GenerateFunctionUnitExclusivity(p: Problem) returns (out: seq<Entry>)
    requires Posed(p)
    ensures Generated(p, out, (id: Id) => id.FunctionUnitExclusivity?)
  {
    out := [];
    ghost var scope := (id: Id) => false;
    for i := 0 to |p.functions|
      invariant Generated(p, out, scope)
      invariant forall id :: Emitted(p, id) ==>
                  (scope(id) <==> (id.FunctionUnitExclusivity? && id.f in p.functions[..i]))
    {
      FunctionNode(p, i);
      var f := p.functions[i];
      var hosted := [];
      for q := 0 to |p.og.ops|
        invariant hosted == Hosted(q, f)
      {
        hosted := hosted + [F(q, f)];
      }
      out, scope := Emit(p, out, scope, FunctionUnitExclusivity(f), Linear(hosted, AtMost, [], 1));
    }
    assert p.functions[..|p.functions|] == p.functions;
    Rescope(p, out, scope, (id: Id) => id.FunctionUnitExclusivity?);
  }

  method GenerateOpsMustBeMapped(p: Problem) returns (out: seq<Entry>)
    requires Posed(p)
    ensures Generated(p, out, (id: Id) => id.OpMustBeMapped?)
  {
    out := [];
    ghost var scope := (id: Id) => false;
    for q := 0 to |p.og.ops|
      invariant Generated(p, out, scope)
      invariant forall id :: Emitted(p, id) ==> (scope(id) <==> (id.OpMustBeMapped? && id.op < q))
    {
      var units := [];
      for i := 0 to |p.functions|
        invariant units == Units(p.functions[..i], q)
      {
        FunctionNode(p, i);
        units := units + [F(q, p.functions[i])];
      }
      assert p.functions[..|p.functions|] == p.functions;
      out, scope := Emit(p, out, scope, OpMustBeMapped(q), Linear(units, Equal, [], 1));
    }
    Rescope(p, out, scope, (id: Id) => id.OpMustBeMapped?);
  }

  method SumOfFanouts(p: Problem, v: nat, i: nat, r: NodeId) returns (result: Option<seq<Var>>)
    requires IsSink(p, v, i) && IsRouting(p, r)
    ensures result.Some? <==> FanoutsSupported(p, r)
    ensures result.Some? ==> result.value == FanoutTerms(p, v, i, r, p.g.nodes[r].fanout)
  {
    var terms := [];
    var fanout := p.g.nodes[r].fanout;
    for j := 0 to |fanout|
      invariant terms == FanoutTerms(p, v, i, r, fanout[..j])
      invariant forall n :: n in fanout[..j] ==> !p.g.nodes[n].kind.RoutingFunction?
    {
      var n := fanout[j];
      assert fanout[..j + 1][..j] == fanout[..j];
      match p.g.nodes[n].kind
      case Routing => terms := terms + [SVar(p, v, n, i)];
      case Function =>
        if r in p.g.nodes[n].fanin {
          terms := terms + [F(p.og.vals[v].outputs[i], n)];
        }
      case RoutingFunction => return None;
    }
    assert fanout[..|fanout|] == fanout;
    return Some(terms);
  }

  method GenerateFanoutRouting(p: Problem) returns (result: Option<seq<Entry>>)
    requires Posed(p)
    ensures result.Some? ==> Generated(p, result.value, (id: Id) => id.FanoutRouting?)
    ensures result.Some? <==> forall v: nat, i: nat, r ::
              IsSink(p, v, i) && IsRouting(p, r) ==> FanoutsSupported(p, r)
  {
    var out := [];
    ghost var scope := (id: Id) => false;
    for v := 0 to |p.og.vals|
      invariant Generated(p, out, scope)
      invariant forall id :: Emitted(p, id) ==> (scope(id) <==> (id.FanoutRouting? && id.v < v))
      invariant forall w: nat, i: nat, r :: IsSink(p, w, i) && w < v && IsRouting(p, r) ==> FanoutsSupported(p, r)
    {
      for k := 0 to |p.routing|
        invariant Generated(p, out, scope)
        invariant forall id :: Emitted(p, id) ==>
                    (scope(id) <==> (id.FanoutRouting? && (id.v < v || (id.v == v && id.r in p.routing[..k]))))
        invariant forall i: nat, r :: IsSink(p, v, i) && r in p.routing[..k] && IsRouting(p, r) ==>
                    FanoutsSupported(p, r)
      {
        RoutingNode(p, k);
        var r := p.routing[k];
        for i := 0 to Fanouts(p, v)
          invariant Generated(p, out, scope)
          invariant forall id :: Emitted(p, id) ==> (scope(id) <==> (id.FanoutRouting? &&
                      (id.v < v || (id.v == v && (id.r in p.routing[..k] || (id.r == r && id.i < i))))))
          invariant i > 0 ==> FanoutsSupported(p, r)
        {
          assert IsSink(p, v, i);
          var sum := SumOfFanouts(p, v, i, r);
          if sum.None? {
            return None;
          }
          out, scope := Emit(p, out, scope, FanoutRouting(v, r, i),
                             Linear(sum.value, AtLeast, [SVar(p, v, r, i)], 0));
        }
      }
      assert p.routing[..|p.routing|] == p.routing;
    }
    Rescope(p, out, scope, (id: Id) => id.FanoutRouting?);
    return Some(out);
  }

  method SumOfFanins(p: Problem, v: nat, r: NodeId) returns (result: Option<seq<Var>>)
    requires WellFormed(p.g) && IsValue(p, v) && IsRouting(p, r) && |p.g.nodes[r].fanin| > 1
    ensures result.Some? <==> FaninsExclusive(p, r)
    ensures result.Some? ==> result.value == Fanins(v, p.g.nodes[r].fanin)
  {
    assert NodeOk(p.g, r);
    var terms := [];
    var fanin := p.g.nodes[r].fanin;
    for j := 0 to |fanin|
      invariant terms == Fanins(v, fanin[..j])
      invariant forall n :: n in fanin[..j] ==> p.g.nodes[n].kind.Routing? && |p.g.nodes[n].fanout| == 1
    {
      var n := fanin[j];
      if !p.g.nodes[n].kind.Routing? || |p.g.nodes[n].fanout| != 1 {
        return None;
      }
      terms := terms + [R(v, n)];
    }
    assert fanin[..|fanin|] == fanin;
    return Some(terms);
  }

  method GenerateMuxExclusivity(p: Problem) returns (result: Option<seq<Entry>>)
    requires Posed(p) && !p.topologicalMode
    ensures result.Some? ==> Generated(p, result.value, (id: Id) => id.MuxExclusivity?)
    ensures result.Some? <==> forall v: nat, r :: IsValue(p, v) && IsRouting(p, r) ==> FaninsExclusive(p, r)
  {
    var out := [];
    ghost var scope := (id: Id) => false;
    for v := 0 to |p.og.vals|
      invariant Generated(p, out, scope)
      invariant forall id :: Emitted(p, id) ==> (scope(id) <==> (id.MuxExclusivity? && id.v < v))
      invariant v > 0 ==> forall r :: IsRouting(p, r) ==> FaninsExclusive(p, r)
    {
      assert IsValue(p, v);
      for k := 0 to |p.routing|
        invariant Generated(p, out, scope)
        invariant forall id :: Emitted(p, id) ==>
                    (scope(id) <==> (id.MuxExclusivity? && (id.v < v || (id.v == v && id.r in p.routing[..k]))))
        invariant forall r :: IsRouting(p, r) && r in p.routing[..k] ==> FaninsExclusive(p, r)
      {
        RoutingNode(p, k);
        var r := p.routing[k];
        if |p.g.nodes[r].fanin| > 1 {
          var sum := SumOfFanins(p, v, r);
          if sum.None? {
            return None;
          }
          out, scope := Emit(p, out, scope, MuxExclusivity(v, r), Linear(sum.value, Equal, [R(v, r)], 0));
        }
      }
      assert p.routing[..|p.routing|] == p.routing;
    }
    Rescope(p, out, scope, (id: Id) => id.MuxExclusivity?);
    return Some(out);
  }

  /** One functional unit's constraints for the value that op drives. */
  method FanoutsOfUnit(p: Problem, op: nat, f: NodeId) returns (result: Option<seq<Entry>>)
    requires Posed(p) && op < |p.og.ops| && IsFunction(p, f)
    ensures result.Some? <==> SingleRoutingFanout(p, op, f)
    ensures result.Some? ==>
              Generated(p, result.value, (id: Id) => id.FunctionUnitFanout? && id.op == op && id.f == f)
  {
    var out := [];
    ghost var scope := (id: Id) => false;
    if p.og.ops[op].output.Some? {
      var v := p.og.ops[op].output.value;
      if |p.g.nodes[f].fanout| != 1 {
        return None;
      }
      var r := p.g.nodes[f].fanout[0];
      for i := 0 to Fanouts(p, v)
        invariant Generated(p, out, scope)
        invariant forall id :: Emitted(p, id) ==>
                    (scope(id) <==> (id.FunctionUnitFanout? && id.op == op && id.f == f && id.i < i))
        invariant i > 0 ==> r in p.routing
      {
        if r !in p.routing {
          assert IsSink(p, v, 0);
          return None;
        }
        assert IsSink(p, v, i);
        out, scope := Emit(p, out, scope, FunctionUnitFanout(op, f, i), Linear([F(op, f)], Equal, [SVar(p, v, r, i)], 0));
      }
    }
    Rescope(p, out, scope, (id: Id) => id.FunctionUnitFanout? && id.op == op && id.f == f);
    return Some(out);
  }

  method GenerateFunctionUnitFanout(p: Problem) returns (result: Option<seq<Entry>>)
    requires Posed(p)
    ensures result.Some? ==> Generated(p, result.value, (id: Id) => id.FunctionUnitFanout?)
    ensures result.Some? <==> forall op: nat, f :: op < |p.og.ops| && IsFunction(p, f) ==> SingleRoutingFanout(p, op, f)
  {
    var out := [];
    ghost var scope := (id: Id) => false;
    for op := 0 to |p.og.ops|
      invariant Generated(p, out, scope)
      invariant forall id :: Emitted(p, id) ==> (scope(id) <==> (id.FunctionUnitFanout? && id.op < op))
      invariant forall o: nat, f :: o < op && IsFunction(p, f) ==> SingleRoutingFanout(p, o, f)
    {
      for k := 0 to |p.functions|
        invariant Generated(p, out, scope)
        invariant forall id :: Emitted(p, id) ==>
                    (scope(id) <==> (id.FunctionUnitFanout? && (id.op < op || (id.op == op && id.f in p.functions[..k]))))
        invariant forall f :: f in p.functions[..k] && IsFunction(p, f) ==> SingleRoutingFanout(p, op, f)
      {
        FunctionNode(p, k);
        var f := p.functions[k];
        var part := FanoutsOfUnit(p, op, f);
        if part.None? {
          return None;
        }
        out, scope := Append(p, out, scope, part.value,
                             (id: Id) => id.FunctionUnitFanout? && id.op == op && id.f == f);
      }
      assert p.functions[..|p.functions|] == p.functions;
    }
    Rescope(p, out, scope, (id: Id) => id.FunctionUnitFanout?);
    return Some(out);
  }

  /** One functional unit's constraints for the edges of v that lead to op. */
  method FaninsOfUnit(p: Problem, v: nat, op: nat, f: NodeId, outputs: seq<nat>) returns (result: Option<seq<Entry>>)
    requires Posed(p) && IsValue(p, v) && op < |p.og.ops| && IsFunction(p, f)
    requires outputs == OutputsTo(p.og.vals[v].outputs, op) && |outputs| > 1
    ensures result.Some? <==> MultiEdgeInputsRoute(p, v, op, f)
    ensures result.Some? ==> Generated(p, result.value, (id: Id) =>
                                         id.FunctionUnitFanin? && id.v == v && id.op == op && id.f == f)
  {
    var out := [];
    ghost var scope := (id: Id) => false;
    if CanMapOp(p.g.nodes[f], p.og.ops[op]) {
      var fanin := p.g.nodes[f].fanin;
      for j := 0 to |fanin|
        invariant Generated(p, out, scope)
        invariant forall id :: Emitted(p, id) ==> (scope(id) <==>
                    (id.FunctionUnitFanin? && id.v == v && id.op == op && id.f == f && id.fanin in fanin[..j]))
        invariant forall n :: n in fanin[..j] ==> n in p.routing
      {
        var n := fanin[j];
        if n !in p.routing {
          return None;
        }
        var inputs := [];
        for k := 0 to |outputs|
          invariant inputs == Inputs(p, v, n, outputs[..k])
        {
          inputs := inputs + [SVar(p, v, n, outputs[k])];
        }
        assert outputs[..|outputs|] == outputs;
        assert fanin[..j + 1] == fanin[..j] + [n];
        out, scope := Emit(p, out, scope, FunctionUnitFanin(v, op, f, n), Linear(inputs, AtMost, [], 1));
      }
      assert fanin[..|fanin|] == fanin;
    }
    Rescope(p, out, scope, (id: Id) => id.FunctionUnitFanin? && id.v == v && id.op == op && id.f == f);
    return Some(out);
  }

  method FaninsOfOp(p: Problem, v: nat, op: nat) returns (result: Option<seq<Entry>>)
    requires Posed(p) && IsValue(p, v) && op < |p.og.ops|
    ensures result.Some? <==> forall f :: IsFunction(p, f) ==> MultiEdgeInputsRoute(p, v, op, f)
    ensures result.Some? ==>
              Generated(p, result.value, (id: Id) => id.FunctionUnitFanin? && id.v == v && id.op == op)
  {
    var out := [];
    ghost var scope := (id: Id) => false;
    var outputs := OutputsTo(p.og.vals[v].outputs, op);
    if |outputs| > 1 {
      for k := 0 to |p.functions|
        invariant Generated(p, out, scope)
        invariant forall id :: Emitted(p, id) ==>
                    (scope(id) <==> (id.FunctionUnitFanin? && id.v == v && id.op == op && id.f in p.functions[..k]))
        invariant forall f :: f in p.functions[..k] && IsFunction(p, f) ==> MultiEdgeInputsRoute(p, v, op, f)
      {
        FunctionNode(p, k);
        var f := p.functions[k];
        var part := FaninsOfUnit(p, v, op, f, outputs);
        if part.None? {
          return None;
        }
        out, scope := Append(p, out, scope, part.value,
                             (id: Id) => id.FunctionUnitFanin? && id.v == v && id.op == op && id.f == f);
      }
      assert p.functions[..|p.functions|] == p.functions;
    }
    Rescope(p, out, scope, (id: Id) => id.FunctionUnitFanin? && id.v == v && id.op == op);
    return Some(out);
  }

  method GenerateFunctionUnitFanin(p: Problem) returns (result: Option<seq<Entry>>)
    requires Posed(p)
    ensures result.Some? ==> Generated(p, result.value, (id: Id) => id.FunctionUnitFanin?)
    ensures result.Some? <==> forall v: nat, op: nat, f ::
              IsValue(p, v) && op < |p.og.ops| && IsFunction(p, f) ==> MultiEdgeInputsRoute(p, v, op, f)
  {
    var out := [];
    ghost var scope := (id: Id) => false;
    for v := 0 to |p.og.vals|
      invariant Generated(p, out, scope)
      invariant forall id :: Emitted(p, id) ==> (scope(id) <==> (id.FunctionUnitFanin? && id.v < v))
      invariant forall w: nat, op: nat, f :: w < v && op < |p.og.ops| && IsFunction(p, f) ==>
                  MultiEdgeInputsRoute(p, w, op, f)
    {
      assert IsValue(p, v);
      for op := 0 to |p.og.ops|
        invariant Generated(p, out, scope)
        invariant forall id :: Emitted(p, id) ==>
                    (scope(id) <==> (id.FunctionUnitFanin? && (id.v < v || (id.v == v && id.op < op))))
        invariant forall o: nat, f :: o < op && IsFunction(p, f) ==> MultiEdgeInputsRoute(p, v, o, f)
      {
        var part := FaninsOfOp(p, v, op);
        if part.None? {
          return None;
        }
        out, scope := Append(p, out, scope, part.value,
                             (id: Id) => id.FunctionUnitFanin? && id.v == v && id.op == op);
      }
    }
    Rescope(p, out, scope, (id: Id) => id.FunctionUnitFanin?);
    return Some(out);
  }

  method GenerateOpSupported(p: Problem) returns (out: seq<Entry>)
    requires Posed(p)
    ensures Generated(p, out, (id: Id) => id.OpSupported?)
  {
    out := [];
    ghost var scope := (id: Id) => false;
    for op := 0 to |p.og.ops|
      invariant Generated(p, out, scope)
      invariant forall id :: Emitted(p, id) ==> (scope(id) <==> (id.OpSupported? && id.op < op))
    {
      for k := 0 to |p.functions|
        invariant Generated(p, out, scope)
        invariant forall id :: Emitted(p, id) ==>
                    (scope(id) <==> (id.OpSupported? && (id.op < op || (id.op == op && id.f in p.functions[..k]))))
      {
        FunctionNode(p, k);
        var f := p.functions[k];
        if !MayHost(p, op, f) {
          out, scope := Emit(p, out, scope, OpSupported(op, f), Linear([F(op, f)], Equal, [], 0));
        }
      }
      assert p.functions[..|p.functions|] == p.functions;
    }
    Rescope(p, out, scope, (id: Id) => id.OpSupported?);
  }

  /** EdgeUsage, or with the flag set TopologicalOrdering: the two range over the same links. */
  method GenerateForLinks(p: Problem, ordering: bool) returns (out: seq<Entry>)
    requires Posed(p) && p.topologicalMode
    ensures Generated(p, out, (id: Id) => if ordering then id.TopologicalOrdering? else id.EdgeUsage?)
  {
    out := [];
    ghost var group := (id: Id) => if ordering then id.TopologicalOrdering? else id.EdgeUsage?;
    ghost var scope := (id: Id) => false;
    for v := 0 to |p.og.vals|
      invariant Generated(p, out, scope)
      invariant forall id :: Emitted(p, id) ==> (scope(id) <==> (group(id) && id.v < v))
    {
      for k := 0 to |p.routing|
        invariant Generated(p, out, scope)
        invariant forall id :: Emitted(p, id) ==>
                    (scope(id) <==> (group(id) && (id.v < v || (id.v == v && id.r in p.routing[..k]))))
      {
        RoutingNode(p, k);
        var r := p.routing[k];
        var fanout := p.g.nodes[r].fanout;
        for j := 0 to |fanout|
          invariant Generated(p, out, scope)
          invariant forall id :: Emitted(p, id) ==> (scope(id) <==> (group(id) && (id.v < v ||
                      (id.v == v && (id.r in p.routing[..k] || (id.r == r && id.next in fanout[..j]))))))
        {
          var n := fanout[j];
          assert fanout[..j + 1] == fanout[..j] + [n];
          if p.g.nodes[n].kind.Routing? {
            if ordering {
              var c := Indicator(EdgeUsed(v, r, n), TVar(p, v, n), TVar(p, v, r), 1);
              out, scope := Emit(p, out, scope, TopologicalOrdering(v, r, n), c);
            } else {
              var c := Conjunction(EdgeUsed(v, r, n), R(v, r), R(v, n));
              out, scope := Emit(p, out, scope, EdgeUsage(v, r, n), c);
            }
          }
        }
        assert fanout[..|fanout|] == fanout;
      }
      assert p.routing[..|p.routing|] == p.routing;
    }
    Rescope(p, out, scope, group);
  }

  method GenerateOperandRouting(p: Problem) returns (out: seq<Entry>)
    requires Posed(p)
    ensures Generated(p, out, (id: Id) => id.OperandRouting?)
  {
    out := [];
    ghost var scope := (id: Id) => false;
    for v := 0 to |p.og.vals|
      invariant Generated(p, out, scope)
      invariant forall id :: Emitted(p, id) ==> (scope(id) <==> (id.OperandRouting? && id.v < v))
    {
      for k := 0 to |p.routing|
        invariant Generated(p, out, scope)
        invariant forall id :: Emitted(p, id) ==>
                    (scope(id) <==> (id.OperandRouting? && (id.v < v || (id.v == v && id.r in p.routing[..k]))))
      {
        RoutingNode(p, k);
        var r := p.routing[k];
        if p.g.nodes[r].operandTags != {} {
          for i := 0 to Fanouts(p, v)
            invariant Generated(p, out, scope)
            invariant forall id :: Emitted(p, id) ==> (scope(id) <==> (id.OperandRouting? &&
                        (id.v < v || (id.v == v && (id.r in p.routing[..k] || (id.r == r && id.i < i))))))
          {
            if !NodeIsCompatibleWithOperand(p.g.nodes[r], p.og.vals[v].operandTags[i]) {
              out, scope := Emit(p, out, scope, OperandRouting(v, r, i), Linear([SVar(p, v, r, i)], Equal, [], 0));
            }
          }
        }
      }
      assert p.routing[..|p.routing|] == p.routing;
    }
    Rescope(p, out, scope, (id: Id) => id.OperandRouting?);
  }

  /** The groups on operations and units, which never fail. */
  method PlacementGroups(p: Problem) returns (out: seq<Entry>)
    requires Posed(p)
    ensures Generated(p, out, (id: Id) => id.SubValue? || id.RouteExclusivity? || id.FunctionUnitExclusivity? || id.OpMustBeMapped?)
  {
    out := GenerateSubValue(p);
    ghost var scope := (id: Id) => id.SubValue?;
    var part := GenerateRouteExclusivity(p);
    out, scope := Append(p, out, scope, part, (id: Id) => id.RouteExclusivity?);
    part := GenerateFunctionUnitExclusivity(p);
    out, scope := Append(p, out, scope, part, (id: Id) => id.FunctionUnitExclusivity?);
    part := GenerateOpsMustBeMapped(p);
    out, scope := Append(p, out, scope, part, (id: Id) => id.OpMustBeMapped?);
    Rescope(p, out, scope, (id: Id) =>
              id.SubValue? || id.RouteExclusivity? || id.FunctionUnitExclusivity? || id.OpMustBeMapped?);
  }

  /** The groups that demand something of the MRRG. */
  method RoutingGroups(p: Problem) returns (result: Option<seq<Entry>>)
    requires Posed(p)
    ensures result.Some? <==> Accepted(p)
    ensures result.Some? ==>
              Generated(p, result.value, (id: Id) =>
                          id.FanoutRouting? || id.MuxExclusivity? || id.FunctionUnitFanout? || id.FunctionUnitFanin?)
  {
    var checked := GenerateFanoutRouting(p);
    if checked.None? {
      return None;
    }
    var out := checked.value;
    ghost var scope := (id: Id) => id.FanoutRouting?;
    if !p.topologicalMode {
      checked := GenerateMuxExclusivity(p);
      if checked.None? {
        return None;
      }
      out, scope := Append(p, out, scope, checked.value, (id: Id) => id.MuxExclusivity?);
    }
    checked := GenerateFunctionUnitFanout(p);
    if checked.None? {
      return None;
    }
    out, scope := Append(p, out, scope, checked.value, (id: Id) => id.FunctionUnitFanout?);
    checked := GenerateFunctionUnitFanin(p);
    if checked.None? {
      return None;
    }
    out, scope := Append(p, out, scope, checked.value, (id: Id) => id.FunctionUnitFanin?);
    Rescope(p, out, scope, (id: Id) =>
              id.FanoutRouting? || id.MuxExclusivity? || id.FunctionUnitFanout? || id.FunctionUnitFanin?);
    return Some(out);
  }

  /** The groups on compatibility and, in the topological mode, on links. */
  method CompatibilityGroups(p: Problem) returns (out: seq<Entry>)
    requires Posed(p)
    ensures Generated(p, out, (id: Id) => id.OpSupported? || id.EdgeUsage? || id.TopologicalOrdering? || id.OperandRouting?)
  {
    out := GenerateOpSupported(p);
    ghost var scope := (id: Id) => id.OpSupported?;
    var part;
    if p.topologicalMode {
      part := GenerateForLinks(p, false);
      out, scope := Append(p, out, scope, part, (id: Id) => if false then id.TopologicalOrdering? else id.EdgeUsage?);
      part := GenerateForLinks(p, true);
      out, scope := Append(p, out, scope, part, (id: Id) => if true then id.TopologicalOrdering? else id.EdgeUsage?);
    }
    part := GenerateOperandRouting(p);
    out, scope := Append(p, out, scope, part, (id: Id) => id.OperandRouting?);
    Rescope(p, out, scope, (id: Id) =>
              id.OpSupported? || id.EdgeUsage? || id.TopologicalOrdering? || id.OperandRouting?);
  }

  /** The whole non-lazy model, or None when some generator throws. */
  method BuildModel(p: Problem) returns (result: Option<seq<Entry>>)
    requires Posed(p)
    ensures result.Some? <==> Accepted(p)
    ensures result.Some? ==> Generated(p, result.value, (id: Id) => true)
  {
    var out := PlacementGroups(p);
    ghost var scope := (id: Id) => id.SubValue? || id.RouteExclusivity? || id.FunctionUnitExclusivity? || id.OpMustBeMapped?;
    var routing := RoutingGroups(p);
    if routing.None? {
      return None;
    }
    out, scope := Append(p, out, scope, routing.value, (id: Id) =>
                           id.FanoutRouting? || id.MuxExclusivity? || id.FunctionUnitFanout? || id.FunctionUnitFanin?);
    var part := CompatibilityGroups(p);
    out, scope := Append(p, out, scope, part, (id: Id) =>
                           id.OpSupported? || id.EdgeUsage? || id.TopologicalOrdering? || id.OperandRouting?);
    Rescope(p, out, scope, (id: Id) => true);
    return Some(out);
  }
}

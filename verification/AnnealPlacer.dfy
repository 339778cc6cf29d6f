// The state of the annealing placer: the mapping of operations to units, and,
// redundantly, how much of every unit is in use.
module AnnealPlacer {
  import opened Wrappers
  import opened Placements

  type Layout = map<Op, seq<Fu>>

  function On(m: Layout, n: Fu): set<Op> {
    set op | op in m && n in m[op]
  }

  ghost predicate Nodes(d: Device, l: seq<Fu>) {
    |l| <= 1 && forall n :: n in l ==> n in d.capacity
  }

  /** The occupancy of a unit is the number of operations mapped to it. */
  ghost predicate Tally(d: Device, m: Layout, occupancy: map<Fu, int>) {
    && m.Keys == OpSet(d) && occupancy.Keys == d.capacity.Keys
    && (forall op :: op in m ==> Nodes(d, m[op]))
    && (forall n {:trigger On(m, n)} :: n in d.capacity ==> occupancy[n] == |On(m, n)|)
  }

  /** The mapping holds exactly this placement. */
  ghost predicate Shows(m: Layout, p: Placement) {
    m.Keys == p.Keys && forall op :: op in p ==> m[op] == [p[op]]
  }

  lemma ShownOps(m: Layout, p: Placement, n: Fu)
    requires Shows(m, p)
    ensures On(m, n) == OpsAt(p, n)
  {
  }

  lemma RippedOps(m: Layout, op: Op, n: Fu)
    requires op in m
    ensures On(m[op := []], n) == On(m, n) - {op}
    ensures op in On(m, n) <==> n in m[op]
  {
  }

  lemma TallyRip(d: Device, m: Layout, occupancy: map<Fu, int>, op: Op)
    requires Tally(d, m, occupancy) && op in m && m[op] != []
    ensures m[op] == [m[op][0]] && m[op][0] in occupancy && occupancy[m[op][0]] > 0
    ensures Tally(d, m[op := []], occupancy[m[op][0] := occupancy[m[op][0]] - 1])
  {
    var at := m[op][0];
    assert Nodes(d, m[op]) && at in m[op];
    forall n | n in d.capacity
      ensures |On(m[op := []], n)| == |On(m, n)| - if n == at then 1 else 0
    {
      RippedOps(m, op, n);
    }
    assert op in On(m, at);
  }

  lemma PutOps(m: Layout, op: Op, n: Fu, x: Fu)
    requires op in m && m[op] == []
    ensures On(m[op := [n]], x) == if x == n then On(m, x) + {op} else On(m, x)
    ensures op !in On(m, x)
  {
  }

  lemma TallyPut(d: Device, m: Layout, occupancy: map<Fu, int>, op: Op, n: Fu)
    requires Tally(d, m, occupancy) && op in m && m[op] == [] && n in d.capacity
    ensures Tally(d, m[op := [n]], occupancy[n := occupancy[n] + 1])
  {
    forall x | x in d.capacity
      ensures |On(m[op := [n]], x)| == |On(m, x)| + if x == n then 1 else 0
    {
      PutOps(m, op, n, x);
    }
  }

  lemma TallyIsUnique(d: Device, m: Layout, a: map<Fu, int>, b: map<Fu, int>)
    requires Tally(d, m, a) && Tally(d, m, b)
    ensures a == b
  {
    forall n | n in a
      ensures a[n] == b[n]
    {
      assert a[n] == |On(m, n)|;
    }
  }

  lemma ShownIsUnique(m: Layout, m': Layout, p: Placement)
    requires Shows(m, p) && Shows(m', p)
    ensures m == m'
  {
    assert forall op :: op in m ==> m[op] == m'[op];
  }

  lemma ShownExchange(m: Layout, p: Placement, a: Op, b: Op)
    requires Shows(m, p) && a in p && b in p
    ensures a != b ==> Shows(m[a := []][b := []][a := [p[b]]][b := [p[a]]], Exchanged(p, a, b))
    ensures a == b ==> Shows(m[a := []][b := []][a := [p[b]]], Exchanged(p, a, b))
  {
  }

  /** What undoes the way from p0 to p: the placement of every operation that
      may have moved, as it was at the start. */
  ghost predicate Undoes(p0: Placement, p: Placement, oldPlacement: Placement) {
    && p.Keys == p0.Keys && oldPlacement.Keys <= p0.Keys
    && forall op :: op in p0 ==> if op in oldPlacement then oldPlacement[op] == p0[op] else p[op] == p0[op]
  }

  ghost predicate Differ(p: Placement, q: Placement, where: set<Op>) {
    p.Keys == q.Keys && forall op :: op in p && op !in where ==> q[op] == p[op]
  }

  lemma SamePlacement(p: Placement, q: Placement)
    requires Differ(p, q, {})
    ensures p == q
  {
  }

  /** std::map::emplace keeps what is there. */
  function Emplaced(m: Placement, op: Op, n: Fu): Placement {
    if op in m then m else m[op := n]
  }

  lemma UndoesMore(p0: Placement, p: Placement, op: Op, fu: Fu, oldPlacement: Placement)
    requires Undoes(p0, p, oldPlacement) && op in p
    ensures Undoes(p0, p[op := fu], Emplaced(oldPlacement, op, p[op]))
  {
  }

  lemma UndoesExchange(p0: Placement, p: Placement, a: Op, b: Op, oldPlacement: Placement)
    requires Undoes(p0, p, oldPlacement) && a in p && b in p
    ensures Undoes(p0, Exchanged(p, a, b), Emplaced(Emplaced(oldPlacement, a, p[a]), b, p[b]))
  {
  }

  lemma OccupancyShows(d: Device, m: Layout, occupancy: map<Fu, int>, p: Placement, fu: Fu)
    requires Tally(d, m, occupancy) && Shows(m, p) && fu in d.capacity
    ensures fu in occupancy && occupancy[fu] == |OpsAt(p, fu)|
  {
    ShownOps(m, p, fu);
    assert On(m, fu) == OpsAt(p, fu);
  }

  /** Only the operations in moved have other units than before. */
  ghost predicate OthersKept(before: Layout, after: Layout, moved: set<Op>) {
    after.Keys == before.Keys && forall x :: x in before && x !in moved ==> after[x] == before[x]
  }

  /** Where an accepted attempt on a lone operation, for which fu was drawn, leaves the operations: it is on fu,
      unless fu is full of an operation of a larger cluster, and a lone operation that filled fu is where it was. */
  ghost predicate LandsOn(d: Device, before: Layout, after: Layout, op: Op, fu: Fu)
    requires WellFormed(d) && op in before && op in after && fu in d.capacity
  {
    && (|On(before, fu)| < d.capacity[fu] || before[op] == [fu] ==> after[op] == [fu] && OthersKept(before, after, {op}))
    && (before[op] != [fu] && |On(before, fu)| >= d.capacity[fu] ==>
         forall s :: On(before, fu) == {s} && s in d.ops && Lone(d, s) ==>
           after[op] == [fu] && OthersKept(before, after, {op, s}) && after[s] == before[op])
  }

  ghost predicate AttemptLands(d: Device, before: Layout, after: Layout, a: Attempt)
    requires WellFormed(d) && Drawn(d, a)
  {
    forall op {:trigger [op]} :: a.accepted && d.clusters[a.cluster] == [op] && op !in d.fixed ==>
      op in before && op in after && LandsOn(d, before, after, op, a.fus[0])
  }

  /** What a swap does where op itself comes first on the full unit, and where another lone operation does:
      nothing, and an exchange of the two. */
  ghost predicate Swaps(d: Device, p: Placement, ok: bool, before: Layout, after: Layout, op: Op, fu: Fu)
    requires WellFormed(d) && op in before
  {
    && (ComesFirst(d.ops, p, fu, op) ==> ok && after == before)
    && (forall second :: ComesFirst(d.ops, p, fu, second) && second != op && second in d.ops && Lone(d, second) ==>
         ok && after == before[op := [fu]][second := before[op]])
  }

  lemma ShownSwap(before: Layout, after: Layout, p: Placement, q: Placement, op: Op, fu: Fu, second: Op)
    requires Shows(before, p) && Shows(after, q) && op in p && op in q && second in p && second in q
    requires q[op] == fu && q[second] == p[op] && op != second && OthersStay(p, q, {op, second})
    ensures after == before[op := [fu]][second := before[op]]
  {
    var exchanged := before[op := [fu]][second := before[op]];
    assert after.Keys == exchanged.Keys;
    assert forall x :: x in after ==> after[x] == exchanged[x];
  }

  lemma SwapShown(d: Device, p: Placement, ok: bool, before: Layout, after: Layout, op: Op, fu: Fu, find: Finder)
    requires WellFormed(d) && Fits(d, p) && Shows(before, p) && FindsUnits(d, find)
    requires op in d.ops && fu in d.capacity && |OpsAt(p, fu)| >= d.capacity[fu]
    requires ok <==> Swapped(d, p, op, fu, find).Some?
    requires ok ==> Shows(after, Swapped(d, p, op, fu, find).value)
    ensures op in before && Swaps(d, p, ok, before, after, op, fu)
  {
    assert op in OpSet(d);
    if ComesFirst(d.ops, p, fu, op) {
      SwapEnds(d, p, op, fu, find, op);
      assert after.Keys == before.Keys && forall x :: x in after ==> after[x] == before[x];
    }
    forall second | ComesFirst(d.ops, p, fu, second) && second != op && second in d.ops && Lone(d, second)
      ensures ok && after == before[op := [fu]][second := before[op]]
    {
      SwapEnds(d, p, op, fu, find, second);
      ShownSwap(before, after, p, Swapped(d, p, op, fu, find).value, op, fu, second);
    }
  }

  lemma AttemptShown(d: Device, before: Layout, after: Layout, p: Placement, q: Placement, a: Attempt)
    requires WellFormed(d) && Fits(d, p) && Drawn(d, a) && Shows(before, p) && Shows(after, q)
    requires AttemptOutcome(d, p, a) == Some(q)
    ensures AttemptLands(d, before, after, a)
    ensures !a.accepted ==> after == before
  {
    if !a.accepted {
      ShownIsUnique(before, after, p);
    }
    forall op | a.accepted && d.clusters[a.cluster] == [op] && op !in d.fixed
      ensures op in before && op in after && LandsOn(d, before, after, op, a.fus[0])
    {
      LoneAttemptLands(d, p, a, op);
      assert op in OpSet(d);
      ShownLands(d, before, after, p, q, op, a.fus[0]);
    }
  }

  lemma ShownLands(d: Device, before: Layout, after: Layout, p: Placement, q: Placement, op: Op, fu: Fu)
    requires WellFormed(d) && Fits(d, p) && op in d.ops && fu in d.capacity && Shows(before, p) && Shows(after, q)
    requires Lands(d, p, q, op, fu)
    ensures LandsOn(d, before, after, op, fu)
  {
    ShownOps(before, p, fu);
  }

  class AnnealPlacer {
    const d: Device
    var mapping: Layout
    var occupancy: map<Fu, int>

    /** Takes over an initial placement. */
    constructor (d: Device, mapping: Layout, occupancy: map<Fu, int>)
      ensures this.d == d && this.mapping == mapping && this.occupancy == occupancy
    {
      this.d, this.mapping, this.occupancy := d, mapping, occupancy;
    }

    ghost predicate Tallied()
      reads this
    {
      Tally(d, mapping, occupancy)
    }

    /** The exception about an occupancy of zero is never thrown. */
    method RipUpOp(op: Op) returns (ok: bool)
      requires Tallied() && op in mapping
      modifies this
      ensures ok && Tallied() && mapping == old(mapping)[op := []]
    {
      var nodes := mapping[op];
      if nodes != [] {
        TallyRip(d, mapping, occupancy, op);
      } else {
        assert mapping == mapping[op := []];
      }
      for i := 0 to |nodes|
        invariant mapping == old(mapping) && Nodes(d, nodes)
        invariant occupancy == if i == 0 then old(occupancy) else old(occupancy)[nodes[0] := old(occupancy)[nodes[0]] - 1]
      {
        occupancy := occupancy[nodes[i] := occupancy[nodes[i]] - 1];
        if occupancy[nodes[i]] + 1 <= 0 {
          return false;
        }
      }
      mapping := mapping[op := []];
      ok := true;
    }

    method PlaceOp(op: Op, n: Fu) returns (placed: bool)
      requires Tallied() && op in mapping && n in d.capacity
      modifies this
      ensures placed <==> old(mapping)[op] == []
      ensures Tallied() && mapping == if placed then old(mapping)[op := [n]] else old(mapping)
    {
      if |mapping[op]| != 0 {
        return false;
      }
      TallyPut(d, mapping, occupancy, op, n);
      assert mapping[op] + [n] == [n];
      mapping := mapping[op := mapping[op] + [n]];
      occupancy := occupancy[n := occupancy[n] + 1];
      placed := true;
    }

    method GetOpMappedAt(n: Fu, ghost p: Placement) returns (op: Option<Op>)
      requires Shows(mapping, p) && p.Keys == OpSet(d)
      ensures op == FirstAt(d.ops, p, n)
    {
      for i := 0 to |d.ops|
        invariant FirstAt(d.ops, p, n) == FirstAt(d.ops[i..], p, n)
      {
        assert d.ops[i] in OpSet(d);
        if mapping[d.ops[i]][0] == n {
          return Some(d.ops[i]);
        }
      }
      return None;
    }

    method Move(op: Op, fu: Fu, ghost p: Placement)
      requires Tallied() && Shows(mapping, p) && op in p && fu in d.capacity
      modifies this
      ensures Tallied() && Shows(mapping, p[op := fu])
    {
      var ripped := RipUpOp(op);
      var placed := PlaceOp(op, fu);
    }

    /** Both operations give up their units before they take each other's. */
    method Exchange(a: Op, b: Op, atA: Fu, atB: Fu, ghost p: Placement)
      requires Tallied() && Shows(mapping, p) && a in p && b in p && p[a] == atA && p[b] == atB
      requires atA in d.capacity && atB in d.capacity
      modifies this
      ensures Tallied() && Shows(mapping, Exchanged(p, a, b))
    {
      ShownExchange(mapping, p, a, b);
      var ripped := RipUpOp(a);
      ripped := RipUpOp(b);
      var placed := PlaceOp(a, atB);
      placed := PlaceOp(b, atA);
    }

    /** An operation makes room where it can, and otherwise changes places with
        the first operation of the full unit. */
    method Relocate(op: Op, fu: Fu, oldPlacement: Placement, ghost p0: Placement, ghost p: Placement)
      returns (oldPlacement': Placement)
      requires WellFormed(d) && Fits(d, p) && Tallied() && Shows(mapping, p) && Undoes(p0, p, oldPlacement)
      requires op in d.ops && fu in d.capacity
      modifies this
      ensures Tallied() && Shows(mapping, Relocated(d, p, op, fu))
      ensures Undoes(p0, Relocated(d, p, op, fu), oldPlacement')
    {
      OccupancyShows(d, mapping, occupancy, p, fu);
      assert op in OpSet(d) && mapping[op] == [p[op]];
      if occupancy[fu] < d.capacity[fu] {
        oldPlacement' := Emplaced(oldPlacement, op, mapping[op][0]);
        Move(op, fu, p);
        UndoesMore(p0, p, op, fu, oldPlacement);
      } else {
        FullUnitIsUsed(d, p, fu);
        var s := GetOpMappedAt(fu, p);
        var at := mapping[op][0];
        oldPlacement' := Emplaced(Emplaced(oldPlacement, op, at), s.value, fu);
        Exchange(op, s.value, at, fu, p);
        UndoesExchange(p0, p, op, s.value, oldPlacement);
      }
    }

    /** Moves a cluster step by step to the units found for it. */
    method MoveCluster(cluster: seq<Op>, find: Finder, oldPlacement: Placement, ghost p0: Placement, ghost p: Placement)
      returns (ok: bool, oldPlacement': Placement, ghost q: Placement)
      requires WellFormed(d) && Fits(d, p) && Tallied() && Shows(mapping, p) && FindsUnits(d, find)
      requires forall j :: 0 <= j < |cluster| ==> cluster[j] in d.ops
      requires Undoes(p0, p, oldPlacement)
      modifies this
      ensures ok <==> ClusterMoved(d, p, cluster, find).Some?
      ensures ok ==> Tallied() && q == ClusterMoved(d, p, cluster, find).value && Shows(mapping, q)
      ensures ok ==> Undoes(p0, q, oldPlacement')
    {
      oldPlacement', q := oldPlacement, p;
      for i := 0 to |cluster|
        invariant Fits(d, q) && Tallied() && Shows(mapping, q) && Undoes(p0, q, oldPlacement')
        invariant ClusterMoved(d, p, cluster, find) == ClusterMoved(d, q, cluster[i..], find)
      {
        var op := cluster[i];
        assert cluster[i..] == [op] + cluster[i + 1..];
        var found := find(op);
        if found.None? {
          return false, oldPlacement', q;
        }
        oldPlacement' := Relocate(op, found.value, oldPlacement', p0, q);
        q := Relocated(d, q, op, found.value);
      }
      ok := true;
    }

    /** Makes room on a full unit for op: another operation that comes first there, and is alone in its
        cluster, changes places with it. */
    method Swap(op: Op, fu: Fu, find: Finder, oldPlacement: Placement, ghost p0: Placement, ghost p: Placement)
      returns (ok: bool, oldPlacement': Placement, ghost q: Placement)
      requires WellFormed(d) && Fits(d, p) && Tallied() && Shows(mapping, p) && FindsUnits(d, find)
      requires op in d.ops && fu in d.capacity && |OpsAt(p, fu)| >= d.capacity[fu] && Undoes(p0, p, oldPlacement)
      modifies this
      ensures ok <==> Swapped(d, p, op, fu, find).Some?
      ensures ok ==> Tallied() && q == Swapped(d, p, op, fu, find).value && Shows(mapping, q)
      ensures ok ==> Undoes(p0, q, oldPlacement')
      ensures Swaps(d, p, ok, old(mapping), mapping, op, fu)
    {
      FullUnitIsUsed(d, p, fu);
      var second := GetOpMappedAt(fu, p);
      if second.value == op {
        SwapShown(d, p, true, mapping, mapping, op, fu, find);
        return true, oldPlacement, p;
      }
      assert op in OpSet(d) && mapping[op] == [p[op]];
      var first := mapping[op][0];
      var cluster := d.clusters[d.clusterOf[second.value]];
      assert OfGraph(d, cluster);
      if |cluster| > 1 {
        ok, oldPlacement', q := MoveCluster(cluster, find, oldPlacement, p0, p);
      } else {
        oldPlacement' := Emplaced(Emplaced(oldPlacement, op, first), second.value, fu);
        UndoesExchange(p0, p, op, second.value, oldPlacement);
        Exchange(op, second.value, first, fu, p);
        ok, q := true, Exchanged(p, op, second.value);
      }
      SwapShown(d, p, ok, old(mapping), mapping, op, fu, find);
    }

    /** The steps of an attempt, before it is accepted or rejected. */
    method MoveOps(a: Attempt, ghost p: Placement)
      returns (ok: bool, oldPlacement: Placement, ghost q: Placement)
      requires WellFormed(d) && Fits(d, p) && Tallied() && Shows(mapping, p) && Drawn(d, a)
      modifies this
      ensures ok <==> Attempted(d, p, a, 0).Some?
      ensures ok ==> Tallied() && q == Attempted(d, p, a, 0).value && Shows(mapping, q)
      ensures ok ==> Undoes(p, q, oldPlacement)
    {
      oldPlacement, q := map[], p;
      var ops := d.clusters[a.cluster];
      assert OfGraph(d, ops);
      for j := 0 to |ops|
        invariant Fits(d, q) && Tallied() && Shows(mapping, q) && Undoes(p, q, oldPlacement)
        invariant Attempted(d, p, a, 0) == Attempted(d, q, a, j)
      {
        var op, fu := ops[j], a.fus[j];
        OccupancyShows(d, mapping, occupancy, q, fu);
        assert op in OpSet(d) && mapping[op] == [q[op]];
        if occupancy[fu] < d.capacity[fu] {
          UndoesMore(p, q, op, fu, oldPlacement);
          oldPlacement := Emplaced(oldPlacement, op, mapping[op][0]);
          MoveFits(d, q, op, fu);
          Move(op, fu, q);
          q := q[op := fu];
        } else {
          if occupancy[fu] > 1 {
            return false, oldPlacement, q;
          }
          ok, oldPlacement, q := Swap(op, fu, a.find(j), oldPlacement, p, q);
          if !ok {
            return;
          }
        }
      }
      ok := true;
    }

    /** Puts every operation that may have moved back. */
    method Restore(oldPlacement: Placement, ghost p0: Placement, ghost p: Placement)
      requires Tallied() && Shows(mapping, p) && Undoes(p0, p, oldPlacement)
      requires forall op :: op in p0 ==> p0[op] in d.capacity
      modifies this
      ensures Tallied() && Shows(mapping, p0)
    {
      var todo := oldPlacement.Keys;
      ghost var q: Placement := p;
      while todo != {}
        invariant todo <= oldPlacement.Keys && Differ(p0, q, todo)
        invariant Tallied() && Shows(mapping, q)
        decreases todo
      {
        var op :| op in todo;
        todo := todo - {op};
        Move(op, oldPlacement[op], q);
        q := q[op := oldPlacement[op]];
      }
      SamePlacement(p0, q);
    }

    /** One pass through the loop body. A rejected attempt leaves mapping and
        occupancy exactly as they were; an accepted one on a lone operation puts it on the unit drawn. */
    method TryMove(a: Attempt, ghost p: Placement) returns (ok: bool, ghost q: Placement)
      requires WellFormed(d) && Fits(d, p) && Tallied() && Shows(mapping, p) && Drawn(d, a)
      modifies this
      ensures ok <==> AttemptOutcome(d, p, a).Some?
      ensures ok ==> Tallied() && q == AttemptOutcome(d, p, a).value && Shows(mapping, q)
      ensures ok && !a.accepted ==> mapping == old(mapping) && occupancy == old(occupancy)
      ensures ok ==> AttemptLands(d, old(mapping), mapping, a)
    {
      var ops := d.clusters[a.cluster];
      assert OfGraph(d, ops) && ops[0] in OpSet(d);
      assert mapping[ops[0]] == [p[ops[0]]];
      q := p;
      if (exists op :: op in ops && op in d.fixed) || a.fus[0] == mapping[ops[0]][0] {
        AttemptShown(d, mapping, mapping, p, p, a);
        return true, p;
      }
      var oldPlacement;
      ok, oldPlacement, q := MoveOps(a, p);
      if ok && !a.accepted {
        Restore(oldPlacement, p, q);
        q := p;
      }
      if ok {
        AttemptShown(d, old(mapping), mapping, p, q, a);
        if !a.accepted {
          TallyIsUnique(d, mapping, occupancy, old(occupancy));
        }
      }
    }

    method CheckOveruse() returns (result: bool)
      requires occupancy.Keys == d.capacity.Keys
      ensures result <==> forall n :: n in d.capacity ==> occupancy[n] <= d.capacity[n]
    {
      result := true;
      var todo := occupancy.Keys;
      while todo != {}
        invariant todo <= occupancy.Keys
        invariant result <==> forall n :: n in d.capacity && n !in todo ==> occupancy[n] <= d.capacity[n]
        decreases todo
      {
        var n :| n in todo;
        todo := todo - {n};
        var overuse := occupancy[n] > d.capacity[n];
        result := result && !overuse;
      }
    }

    method IsOpgraphCovered() returns (covered: bool)
      ensures covered <==> forall op :: op in d.ops ==> op in mapping && mapping[op] != []
    {
      for i := 0 to |d.ops|
        invariant forall k :: 0 <= k < i ==> d.ops[k] in mapping && mapping[d.ops[k]] != []
      {
        if d.ops[i] !in mapping || |mapping[d.ops[i]]| == 0 {
          return false;
        }
      }
      return true;
    }

    /** One attempt of a run. */
    method MakeAttempt(run: seq<Attempt>, i: nat, ghost p: Placement) returns (ok: bool, ghost q: Placement)
      requires WellFormed(d) && Fits(d, p) && Tallied() && Shows(mapping, p)
      requires AllDrawn(d, run) && i < |run|
      modifies this
      ensures Fits(d, q)
      ensures !ok ==> RunOutcome(d, p, run, i).None?
      ensures ok ==> Tallied() && Shows(mapping, q) && RunOutcome(d, p, run, i) == RunOutcome(d, q, run, i + 1)
    {
      assert Drawn(d, run[i]);
      ok, q := TryMove(run[i], p);
      if !ok {
        q := p;
      }
    }

    method MakeAttempts(run: seq<Attempt>, ghost p: Placement) returns (ok: bool, ghost q: Placement)
      requires WellFormed(d) && Fits(d, p) && Tallied() && Shows(mapping, p)
      requires AllDrawn(d, run)
      modifies this
      ensures ok <==> RunOutcome(d, p, run, 0).Some?
      ensures ok ==> Tallied() && q == RunOutcome(d, p, run, 0).value && Shows(mapping, q)
    {
      q := p;
      for i := 0 to |run|
        invariant Fits(d, q) && Tallied() && Shows(mapping, q)
        invariant RunOutcome(d, p, run, 0) == RunOutcome(d, q, run, i)
      {
        ok, q := MakeAttempt(run, i, q);
        if !ok {
          return;
        }
      }
      ok := true;
    }

    /** inner_place_and_route_loop: whatever is drawn and accepted, the loop ends
        with every operation on exactly one unit, every unit within its capacity
        and its occupancy counted right, and so reports success. */
    method InnerPlaceAndRouteLoop(run: seq<Attempt>, ghost p: Placement) returns (ok: bool, mapped: bool, ghost q: Placement)
      requires WellFormed(d) && Fits(d, p) && Tallied() && Shows(mapping, p)
      requires AllDrawn(d, run)
      modifies this
      ensures ok <==> RunOutcome(d, p, run, 0).Some?
      ensures ok ==> mapped && q == RunOutcome(d, p, run, 0).value && Fits(d, q) && Shows(mapping, q)
      ensures ok ==> forall n :: n in d.capacity ==> n in occupancy && occupancy[n] == |OpsAt(q, n)|
    {
      mapped := false;
      ok, q := MakeAttempts(run, p);
      if ok {
        forall n | n in d.capacity {
          OccupancyShows(d, mapping, occupancy, q, n);
        }
        var overuse := CheckOveruse();
        var covered := IsOpgraphCovered();
        mapped := overuse && covered;
      }
    }
  }
}

// Placements of operations on functional units, and the moves by which the
// annealing placer changes them.
module Placements {
  import opened Wrappers
  import opened Seqs

  type Op = nat
  type Fu = nat
  type Placement = map<Op, Fu>

  // What stays the same during annealing: the operations in their order, the
  // functional units with what they hold, the clusters of operations that move
  // together, and the operations that are fixed to a port.
  datatype Device = Device(ops: seq<Op>, capacity: map<Fu, nat>, clusters: seq<seq<Op>>, clusterOf: map<Op, nat>,
                           fixed: set<Op>)

  // What getFUForOpAtLoc answers for an operation of a cluster.
  type Finder = Op -> Option<Fu>

  // One attempt to move a cluster: the units drawn for it, the answers the
  // search for units at a location gives during each step, and whether the
  // outcome is accepted.
  datatype Attempt = Attempt(cluster: nat, fus: seq<Fu>, find: nat -> Finder, accepted: bool)

  ghost predicate OfGraph(d: Device, cluster: seq<Op>) {
    cluster != [] && forall j :: 0 <= j < |cluster| ==> cluster[j] in d.ops
  }

  ghost predicate WellFormed(d: Device) {
    && (forall n :: n in d.capacity ==> d.capacity[n] > 0)
    && (forall i :: 0 <= i < |d.clusters| ==> OfGraph(d, d.clusters[i]))
    && (forall op :: op in d.ops ==> op in d.clusterOf && d.clusterOf[op] < |d.clusters|)
  }

  ghost predicate FindsUnits(d: Device, find: Finder) {
    forall op :: find(op).Some? ==> find(op).value in d.capacity
  }

  ghost predicate Drawn(d: Device, a: Attempt) {
    && a.cluster < |d.clusters| && |a.fus| == |d.clusters[a.cluster]|
    && (forall j :: 0 <= j < |a.fus| ==> a.fus[j] in d.capacity)
    && (forall j :: FindsUnits(d, a.find(j)))
  }

  function OpsAt(p: Placement, n: Fu): set<Op> {
    set op | op in p && p[op] == n
  }

  ghost function OpSet(d: Device): set<Op> {
    set op | op in d.ops
  }

  /** Every operation is on a unit, and no unit holds more than it can. */
  ghost predicate Fits(d: Device, p: Placement) {
    && p.Keys == OpSet(d)
    && (forall op :: op in p ==> p[op] in d.capacity)
    && (forall n {:trigger OpsAt(p, n)} :: n in d.capacity ==> |OpsAt(p, n)| <= d.capacity[n])
  }

  /** getOpMapedAt: the first operation, in the order of the graph, on the unit. */
  function FirstAt(ops: seq<Op>, p: Placement, n: Fu): (r: Option<Op>)
    ensures r.Some? ==> r.value in ops && r.value in OpsAt(p, n)
    ensures r.None? ==> forall op :: op in ops ==> op !in OpsAt(p, n)
  {
    if ops == [] then None
    else if ops[0] in p && p[ops[0]] == n then Some(ops[0])
    else FirstAt(ops[1..], p, n)
  }

  /** Two operations change places. */
  function Exchanged(p: Placement, a: Op, b: Op): Placement
    requires a in p && b in p
  {
    p[a := p[b]][b := p[a]]
  }

  lemma SmallerSet(a: set<Op>, b: set<Op>)
    requires a <= b
    ensures |a| <= |b|
  {
    assert b == a + (b - a);
  }

  lemma MoveFits(d: Device, p: Placement, op: Op, fu: Fu)
    requires Fits(d, p) && op in d.ops && fu in d.capacity && |OpsAt(p, fu)| < d.capacity[fu]
    ensures Fits(d, p[op := fu])
  {
    forall n | n in d.capacity
      ensures |OpsAt(p[op := fu], n)| <= d.capacity[n]
    {
      if n == fu {
        SmallerSet(OpsAt(p[op := fu], n), OpsAt(p, n) + {op});
      } else {
        SmallerSet(OpsAt(p[op := fu], n), OpsAt(p, n));
      }
    }
  }

  lemma ReplacedCount(s: set<Op>, gone: Op, come: Op)
    requires gone in s && come !in s
    ensures |s - {gone} + {come}| == |s|
  {
  }

  lemma ExchangedOps(p: Placement, a: Op, b: Op, n: Fu)
    requires a in p && b in p
    ensures OpsAt(Exchanged(p, a, b), n) ==
              if p[a] == p[b] || (n != p[a] && n != p[b]) then OpsAt(p, n)
              else if n == p[a] then OpsAt(p, n) - {a} + {b}
              else OpsAt(p, n) - {b} + {a}
  {
  }

  lemma ExchangeKeepsCount(p: Placement, a: Op, b: Op, n: Fu)
    requires a in p && b in p
    ensures |OpsAt(Exchanged(p, a, b), n)| == |OpsAt(p, n)|
  {
    ExchangedOps(p, a, b, n);
    if p[a] != p[b] {
      if n == p[a] {
        ReplacedCount(OpsAt(p, n), a, b);
      } else if n == p[b] {
        ReplacedCount(OpsAt(p, n), b, a);
      }
    }
  }

  lemma ExchangeFits(d: Device, p: Placement, a: Op, b: Op)
    requires Fits(d, p) && a in d.ops && b in d.ops
    ensures Fits(d, Exchanged(p, a, b))
  {
    forall n | n in d.capacity {
      ExchangeKeepsCount(p, a, b, n);
    }
  }

  lemma FullUnitIsUsed(d: Device, p: Placement, fu: Fu)
    requires WellFormed(d) && Fits(d, p) && fu in d.capacity && |OpsAt(p, fu)| >= d.capacity[fu]
    ensures FirstAt(d.ops, p, fu).Some?
  {
    var op :| op in OpsAt(p, fu);
    assert op in d.ops;
  }

  /** Puts op on the unit, and what fills the unit where op was. */
  function Relocated(d: Device, p: Placement, op: Op, fu: Fu): (q: Placement)
    requires WellFormed(d) && Fits(d, p) && op in d.ops && fu in d.capacity
    ensures Fits(d, q)
  {
    if |OpsAt(p, fu)| < d.capacity[fu] then
      MoveFits(d, p, op, fu);
      p[op := fu]
    else
      FullUnitIsUsed(d, p, fu);
      var s := FirstAt(d.ops, p, fu).value;
      ExchangeFits(d, p, op, s);
      Exchanged(p, op, s)
  }

  /** The rest of a cluster moves to the units found for it; None is the exception for a missing unit. */
  function ClusterMoved(d: Device, p: Placement, cluster: seq<Op>, find: Finder): (q: Option<Placement>)
    requires WellFormed(d) && Fits(d, p) && FindsUnits(d, find)
    requires forall j :: 0 <= j < |cluster| ==> cluster[j] in d.ops
    ensures q.Some? ==> Fits(d, q.value)
    ensures q.None? ==> exists op :: find(op).None?
  {
    if cluster == [] then Some(p)
    else if find(cluster[0]).None? then None
    else
      assert cluster == [cluster[0]] + cluster[1..];
      ClusterMoved(d, Relocated(d, p, cluster[0], find(cluster[0]).value), cluster[1..], find)
  }

  /** swap: what is on the full unit makes room, alone or with its cluster. */
  function Swapped(d: Device, p: Placement, op: Op, fu: Fu, find: Finder): (q: Option<Placement>)
    requires WellFormed(d) && Fits(d, p) && op in d.ops && fu in d.capacity && FindsUnits(d, find)
    requires |OpsAt(p, fu)| >= d.capacity[fu]
    ensures q.Some? ==> Fits(d, q.value)
    ensures q.None? ==> exists op :: find(op).None?
  {
    FullUnitIsUsed(d, p, fu);
    var second := FirstAt(d.ops, p, fu).value;
    if second == op then Some(p)
    else
      var cluster := d.clusters[d.clusterOf[second]];
      assert OfGraph(d, cluster);
      if |cluster| > 1 then ClusterMoved(d, p, cluster, find)
      else
        ExchangeFits(d, p, op, second);
        Some(Exchanged(p, op, second))
  }

  /** The steps of one attempt from the j-th operation of the cluster on; None
      is the exception for a full unit that holds several operations, or for a
      missing unit. */
  function Attempted(d: Device, p: Placement, a: Attempt, j: nat): (q: Option<Placement>)
    requires WellFormed(d) && Fits(d, p) && Drawn(d, a) && j <= |a.fus|
    ensures q.Some? ==> Fits(d, q.value)
    decreases |a.fus| - j
  {
    if j == |a.fus| then Some(p)
    else
      assert OfGraph(d, d.clusters[a.cluster]);
      var op, fu := d.clusters[a.cluster][j], a.fus[j];
      if |OpsAt(p, fu)| < d.capacity[fu] then
        MoveFits(d, p, op, fu);
        Attempted(d, p[op := fu], a, j + 1)
      else if |OpsAt(p, fu)| > 1 then None
      else
        var q := Swapped(d, p, op, fu, a.find(j));
        if q.None? then None else Attempted(d, q.value, a, j + 1)
  }

  /** On a device whose units hold one operation each, an attempt throws only
      when it finds no unit for an operation of a cluster. */
  lemma {:induction false} UniformDevicesThrowOnlyForMissingUnits(d: Device, p: Placement, a: Attempt, j: nat)
    requires WellFormed(d) && Fits(d, p) && Drawn(d, a) && j <= |a.fus|
    requires forall n :: n in d.capacity ==> d.capacity[n] == 1
    requires Attempted(d, p, a, j).None?
    ensures exists i, op :: a.find(i)(op).None?
    decreases |a.fus| - j
  {
    var op, fu := d.clusters[a.cluster][j], a.fus[j];
    assert OfGraph(d, d.clusters[a.cluster]);
    if |OpsAt(p, fu)| < d.capacity[fu] {
      MoveFits(d, p, op, fu);
      UniformDevicesThrowOnlyForMissingUnits(d, p[op := fu], a, j + 1);
    } else {
      var q := Swapped(d, p, op, fu, a.find(j));
      if q.Some? {
        UniformDevicesThrowOnlyForMissingUnits(d, q.value, a, j + 1);
      } else {
        var missing :| a.find(j)(missing).None?;
      }
    }
  }

  /** A whole attempt: clusters with a fixed operation, and clusters drawn to
      where they are, stay; a rejected attempt leaves the placement alone. */
  function AttemptOutcome(d: Device, p: Placement, a: Attempt): (q: Option<Placement>)
    requires WellFormed(d) && Fits(d, p) && Drawn(d, a)
    ensures q.Some? ==> Fits(d, q.value)
    ensures !a.accepted && q.Some? ==> q.value == p
  {
    assert OfGraph(d, d.clusters[a.cluster]);
    var cluster := d.clusters[a.cluster];
    if (exists op :: op in cluster && op in d.fixed) || a.fus[0] == p[cluster[0]] then Some(p)
    else
      var q := Attempted(d, p, a, 0);
      if q.Some? && !a.accepted then Some(p) else q
  }

  ghost predicate AllDrawn(d: Device, run: seq<Attempt>) {
    forall i :: 0 <= i < |run| ==> Drawn(d, run[i])
  }

  /** A run of attempts from the i-th on, up to the first exception. */
  function RunOutcome(d: Device, p: Placement, run: seq<Attempt>, i: nat): (q: Option<Placement>)
    requires WellFormed(d) && Fits(d, p) && AllDrawn(d, run) && i <= |run|
    ensures q.Some? ==> Fits(d, q.value)
    decreases |run| - i
  {
    if i == |run| then Some(p)
    else
      var q := AttemptOutcome(d, p, run[i]);
      if q.None? then None else RunOutcome(d, q.value, run, i + 1)
  }

  /** However many attempts are made, a run whose attempts are all rejected ends where it began. */
  lemma {:induction false} RejectedRunChangesNothing(d: Device, p: Placement, run: seq<Attempt>, i: nat)
    requires WellFormed(d) && Fits(d, p) && AllDrawn(d, run) && i <= |run|
    requires forall k :: i <= k < |run| ==> !run[k].accepted
    requires RunOutcome(d, p, run, i).Some?
    ensures RunOutcome(d, p, run, i).value == p
    decreases |run| - i
  {
    if i < |run| {
      RejectedRunChangesNothing(d, p, run, i + 1);
    }
  }

  // Where the operations end.

  /** s comes first of the operations on the unit, in the order of the graph. */
  ghost predicate ComesFirst(ops: seq<Op>, p: Placement, n: Fu, s: Op) {
    exists k: nat :: k < |ops| && ops[k] == s && s in p && p[s] == n && NoneBefore(ops, p, n, k)
  }

  ghost predicate NoneBefore(ops: seq<Op>, p: Placement, n: Fu, k: nat)
    requires k < |ops|
  {
    forall j :: 0 <= j < k ==> ops[j] in p ==> p[ops[j]] != n
  }

  lemma {:induction false} FirstComesFirst(ops: seq<Op>, p: Placement, n: Fu, s: Op)
    ensures FirstAt(ops, p, n) == Some(s) <==> ComesFirst(ops, p, n, s)
  {
    if ops != [] && !(ops[0] in p && p[ops[0]] == n) {
      FirstComesFirst(ops[1..], p, n, s);
      if ComesFirst(ops[1..], p, n, s) {
        var k: nat :| k < |ops[1..]| && ops[1..][k] == s && s in p && p[s] == n && NoneBefore(ops[1..], p, n, k);
        assert forall j :: 1 <= j < k + 1 ==> ops[j] == ops[1..][j - 1];
        assert ops[k + 1] == s && NoneBefore(ops, p, n, k + 1);
      }
      if ComesFirst(ops, p, n, s) {
        var k: nat :| k < |ops| && ops[k] == s && s in p && p[s] == n && NoneBefore(ops, p, n, k);
        assert k > 0 && ops[1..][k - 1] == s && NoneBefore(ops[1..], p, n, k - 1);
      }
    } else if ops != [] {
      assert ops[0] == ops[0] && NoneBefore(ops, p, n, 0);
    }
  }

  /** Only the operations in moved have changed their units. */
  ghost predicate OthersStay(p: Placement, q: Placement, moved: set<Op>) {
    p.Keys == q.Keys && forall x :: x in p && x !in moved ==> q[x] == p[x]
  }

  /** After a cluster step the operation is on the unit found for it, and at most what was first there
      has left, for where the operation was. */
  lemma RelocatedEnds(d: Device, p: Placement, op: Op, fu: Fu)
    requires WellFormed(d) && Fits(d, p) && op in d.ops && fu in d.capacity
    ensures var q := Relocated(d, p, op, fu);
            && op in p && op in q && q[op] == fu
            && (|OpsAt(p, fu)| < d.capacity[fu] ==> OthersStay(p, q, {op}))
            && (|OpsAt(p, fu)| >= d.capacity[fu] ==>
                 exists s :: ComesFirst(d.ops, p, fu, s) && OthersStay(p, q, {op, s}) && q[s] == p[op])
  {
    assert op in OpSet(d);
    if |OpsAt(p, fu)| >= d.capacity[fu] {
      FullUnitIsUsed(d, p, fu);
      FirstComesFirst(d.ops, p, fu, FirstAt(d.ops, p, fu).value);
    }
  }

  /** The search answers with a different unit for every operation of the cluster. */
  ghost predicate FindsApart(cluster: seq<Op>, find: Finder) {
    && NoDup(cluster)
    && forall x, y :: x in cluster && y in cluster && find(x).Some? && find(x) == find(y) ==> x == y
  }

  /** What is on a unit that is not drawn for the cluster stays there, if it does not belong to the cluster. */
  lemma {:induction false} KeepsOthersOut(d: Device, p: Placement, cluster: seq<Op>, find: Finder, x: Op)
    requires WellFormed(d) && Fits(d, p) && FindsUnits(d, find)
    requires forall j :: 0 <= j < |cluster| ==> cluster[j] in d.ops
    requires x in p && x !in cluster && forall c :: c in cluster ==> find(c) != Some(p[x])
    requires ClusterMoved(d, p, cluster, find).Some?
    ensures var q := ClusterMoved(d, p, cluster, find).value; x in q && q[x] == p[x]
  {
    if cluster != [] {
      assert cluster == [cluster[0]] + cluster[1..];
      RelocatedEnds(d, p, cluster[0], find(cluster[0]).value);
      KeepsOthersOut(d, Relocated(d, p, cluster[0], find(cluster[0]).value), cluster[1..], find, x);
    }
  }

  /** If they are different units, the operations of a cluster end on those that were found for them. */
  lemma {:induction false} ClusterMovedEnds(d: Device, p: Placement, cluster: seq<Op>, find: Finder)
    requires WellFormed(d) && Fits(d, p) && FindsUnits(d, find) && FindsApart(cluster, find)
    requires forall j :: 0 <= j < |cluster| ==> cluster[j] in d.ops
    requires ClusterMoved(d, p, cluster, find).Some?
    ensures var q := ClusterMoved(d, p, cluster, find).value;
            forall c :: c in cluster ==> c in q && find(c) == Some(q[c])
  {
    if cluster != [] {
      var c := cluster[0];
      assert cluster == [c] + cluster[1..];
      NoDupTail(cluster);
      RelocatedEnds(d, p, c, find(c).value);
      var p' := Relocated(d, p, c, find(c).value);
      KeepsOthersOut(d, p', cluster[1..], find, c);
      ClusterMovedEnds(d, p', cluster[1..], find);
    }
  }

  /** An operation that is alone in its cluster. */
  predicate Lone(d: Device, op: Op)
    requires WellFormed(d) && op in d.ops
  {
    |d.clusters[d.clusterOf[op]]| == 1
  }

  /** A successful swap with another lone operation exchanges the two. */
  lemma SwapEnds(d: Device, p: Placement, op: Op, fu: Fu, find: Finder, second: Op)
    requires WellFormed(d) && Fits(d, p) && op in d.ops && fu in d.capacity && FindsUnits(d, find)
    requires |OpsAt(p, fu)| >= d.capacity[fu] && ComesFirst(d.ops, p, fu, second)
    ensures second == op ==> Swapped(d, p, op, fu, find) == Some(p)
    ensures second != op && Lone(d, second) ==>
              var q := Swapped(d, p, op, fu, find);
              && q.Some? && op in p && op in q.value && second in q.value && q.value[op] == fu && q.value[second] == p[op]
              && OthersStay(p, q.value, {op, second})
    ensures second != op && !Lone(d, second) ==>
              Swapped(d, p, op, fu, find) == ClusterMoved(d, p, d.clusters[d.clusterOf[second]], find)
  {
    FirstComesFirst(d.ops, p, fu, second);
    assert op in OpSet(d) && OfGraph(d, d.clusters[d.clusterOf[second]]);
  }

  /** What an accepted attempt does with a lone operation op for which fu was drawn. */
  ghost predicate Lands(d: Device, p: Placement, q: Placement, op: Op, fu: Fu)
    requires WellFormed(d) && Fits(d, p) && op in d.ops && fu in d.capacity
  {
    && op in p && q.Keys == p.Keys
    && (|OpsAt(p, fu)| < d.capacity[fu] || p[op] == fu ==> q[op] == fu && OthersStay(p, q, {op}))
    && (forall s :: p[op] != fu && |OpsAt(p, fu)| >= d.capacity[fu] && OpsAt(p, fu) == {s} && s in d.ops && Lone(d, s) ==>
         q[op] == fu && q[s] == p[op] && OthersStay(p, q, {op, s}))
  }

  /** An attempt on a lone operation is a single step. */
  lemma OneStep(d: Device, p: Placement, a: Attempt, op: Op)
    requires WellFormed(d) && Fits(d, p) && Drawn(d, a) && d.clusters[a.cluster] == [op]
    ensures op in d.ops && op in p && p.Keys == OpSet(d)
    ensures var fu := a.fus[0];
            Attempted(d, p, a, 0) == if |OpsAt(p, fu)| < d.capacity[fu] then Some(p[op := fu])
                                     else if |OpsAt(p, fu)| > 1 then None
                                     else Swapped(d, p, op, fu, a.find(0))
  {
    assert OfGraph(d, d.clusters[a.cluster]) && d.clusters[a.cluster][0] == op && op in OpSet(d);
    var fu := a.fus[0];
    if |OpsAt(p, fu)| < d.capacity[fu] {
      MoveFits(d, p, op, fu);
      assert Attempted(d, p[op := fu], a, 1) == Some(p[op := fu]);
    } else if |OpsAt(p, fu)| <= 1 {
      var q := Swapped(d, p, op, fu, a.find(0));
      assert q.Some? ==> Attempted(d, q.value, a, 1) == q;
    }
  }

  /** An accepted attempt on a lone operation puts it on the unit drawn, unless that unit is full of an
      operation of a larger cluster; the operation that was there takes its place. */
  lemma LoneAttemptLands(d: Device, p: Placement, a: Attempt, op: Op)
    requires WellFormed(d) && Fits(d, p) && Drawn(d, a) && a.accepted && d.clusters[a.cluster] == [op] && op !in d.fixed
    requires AttemptOutcome(d, p, a).Some?
    ensures op in d.ops && Lands(d, p, AttemptOutcome(d, p, a).value, op, a.fus[0])
  {
    OneStep(d, p, a, op);
    var fu := a.fus[0];
    if fu != p[op] && |OpsAt(p, fu)| >= d.capacity[fu] {
      FullUnitIsUsed(d, p, fu);
      var s := FirstAt(d.ops, p, fu).value;
      FirstComesFirst(d.ops, p, fu, s);
      SwapEnds(d, p, op, fu, a.find(0), s);
      assert s in OpsAt(p, fu);
    }
  }

  ghost predicate HasRoom(d: Device, p: Placement, n: Fu)
    requires n in d.capacity
  {
    |OpsAt(p, n)| < d.capacity[n]
  }

  lemma FreeStep(d: Device, p: Placement, a: Attempt, j: nat)
    requires WellFormed(d) && Fits(d, p) && Drawn(d, a) && j < |a.fus| && NoDup(a.fus)
    requires forall k :: j <= k < |a.fus| ==> HasRoom(d, p, a.fus[k])
    ensures d.clusters[a.cluster][j] in p && Fits(d, p[d.clusters[a.cluster][j] := a.fus[j]])
    ensures var p' := p[d.clusters[a.cluster][j] := a.fus[j]];
            && Attempted(d, p, a, j) == Attempted(d, p', a, j + 1)
            && forall k :: j + 1 <= k < |a.fus| ==> HasRoom(d, p', a.fus[k])
  {
    var op, fu := d.clusters[a.cluster][j], a.fus[j];
    assert OfGraph(d, d.clusters[a.cluster]) && op in OpSet(d) && HasRoom(d, p, fu);
    MoveFits(d, p, op, fu);
    forall k | j + 1 <= k < |a.fus|
      ensures HasRoom(d, p[op := fu], a.fus[k])
    {
      assert HasRoom(d, p, a.fus[k]);
      SmallerSet(OpsAt(p[op := fu], a.fus[k]), OpsAt(p, a.fus[k]));
    }
  }

  /** Of a cluster from its j-th operation on, each is on the unit drawn for it, and nothing else has moved. */
  ghost predicate LandedFrom(p: Placement, q: Placement, ops: seq<Op>, fus: seq<Fu>, j: nat)
    requires |ops| == |fus|
  {
    && q.Keys == p.Keys && (forall k :: j <= k < |fus| ==> ops[k] in q && q[ops[k]] == fus[k])
    && forall x :: x in p && (forall k :: j <= k < |ops| ==> ops[k] != x) ==> q[x] == p[x]
  }

  lemma LandedStep(p: Placement, q: Placement, ops: seq<Op>, fus: seq<Fu>, j: nat)
    requires |ops| == |fus| && j < |ops| && NoDup(ops) && ops[j] in p
    requires LandedFrom(p[ops[j] := fus[j]], q, ops, fus, j + 1)
    ensures LandedFrom(p, q, ops, fus, j)
  {
    assert forall k :: j + 1 <= k < |ops| ==> ops[k] != ops[j];
  }

  /** A cluster that is drawn to different units with room ends on them, and nothing else moves. */
  lemma {:induction false} FreeClusterLands(d: Device, p: Placement, a: Attempt, j: nat)
    requires WellFormed(d) && Fits(d, p) && Drawn(d, a) && j <= |a.fus|
    requires NoDup(a.fus) && NoDup(d.clusters[a.cluster])
    requires forall k :: j <= k < |a.fus| ==> HasRoom(d, p, a.fus[k])
    ensures Attempted(d, p, a, j).Some?
    ensures LandedFrom(p, Attempted(d, p, a, j).value, d.clusters[a.cluster], a.fus, j)
    decreases |a.fus| - j
  {
    if j < |a.fus| {
      FreeStep(d, p, a, j);
      var p' := p[d.clusters[a.cluster][j] := a.fus[j]];
      FreeClusterLands(d, p', a, j + 1);
      LandedStep(p, Attempted(d, p', a, j + 1).value, d.clusters[a.cluster], a.fus, j);
    }
  }

  // Each placement of the list is what the next attempt leaves of the one before.
  ghost predicate GoesThrough(d: Device, run: seq<Attempt>, i: nat, states: seq<Placement>)
    requires WellFormed(d) && AllDrawn(d, run) && i <= |run|
  {
    && |states| == |run| - i + 1
    && forall k: nat {:trigger Follows(d, run, i, states, k)} :: k < |run| - i ==> Follows(d, run, i, states, k)
  }

  ghost predicate Follows(d: Device, run: seq<Attempt>, i: nat, states: seq<Placement>, k: nat)
    requires WellFormed(d) && AllDrawn(d, run) && i + k < |run| && k + 1 < |states|
  {
    Fits(d, states[k]) && AttemptOutcome(d, states[k], run[i + k]) == Some(states[k + 1])
  }

  lemma GoesOneFurther(d: Device, p: Placement, run: seq<Attempt>, i: nat, rest: seq<Placement>)
    requires WellFormed(d) && Fits(d, p) && AllDrawn(d, run) && i < |run| && GoesThrough(d, run, i + 1, rest)
    requires AttemptOutcome(d, p, run[i]) == Some(rest[0])
    ensures GoesThrough(d, run, i, [p] + rest)
  {
    var states := [p] + rest;
    forall k: nat | k < |run| - i
      ensures Follows(d, run, i, states, k)
    {
      assert k > 0 ==> Follows(d, run, i + 1, rest, k - 1);
    }
  }

  /** A run makes its attempts one after the other, each on what the one before it left. */
  lemma {:induction false} RunGoesThrough(d: Device, p: Placement, run: seq<Attempt>, i: nat)
    returns (states: seq<Placement>)
    requires WellFormed(d) && Fits(d, p) && AllDrawn(d, run) && i <= |run| && RunOutcome(d, p, run, i).Some?
    ensures GoesThrough(d, run, i, states)
    ensures states[0] == p && states[|run| - i] == RunOutcome(d, p, run, i).value
    decreases |run| - i
  {
    states := [p];
    if i < |run| {
      var rest := RunGoesThrough(d, AttemptOutcome(d, p, run[i]).value, run, i + 1);
      GoesOneFurther(d, p, run, i, rest);
      states := [p] + rest;
    }
  }

  // Operations that are fixed to a port.

  /** The units drawn and found in the attempt leave alone the unit of f. */
  ghost predicate Spares(a: Attempt, unit: Fu) {
    (forall j :: 0 <= j < |a.fus| ==> a.fus[j] != unit) && forall j, op :: a.find(j)(op) != Some(unit)
  }

  /** f is fixed, and alone in its cluster. */
  ghost predicate LoneFixed(d: Device, f: Op)
    requires WellFormed(d)
  {
    && f in d.fixed && f in d.ops
    && forall i, j :: 0 <= i < |d.clusters| && 0 <= j < |d.clusters[i]| && d.clusters[i][j] == f ==> d.clusters[i] == [f]
  }

  lemma {:induction false} ClusterSpares(d: Device, p: Placement, cluster: seq<Op>, find: Finder, f: Op)
    requires WellFormed(d) && Fits(d, p) && FindsUnits(d, find)
    requires forall j :: 0 <= j < |cluster| ==> cluster[j] in d.ops
    requires f in p && f !in cluster && (forall op :: find(op) != Some(p[f])) && ClusterMoved(d, p, cluster, find).Some?
    ensures f in ClusterMoved(d, p, cluster, find).value && ClusterMoved(d, p, cluster, find).value[f] == p[f]
  {
    KeepsOthersOut(d, p, cluster, find, f);
  }

  lemma SwapSpares(d: Device, p: Placement, op: Op, fu: Fu, find: Finder, f: Op)
    requires WellFormed(d) && Fits(d, p) && op in d.ops && fu in d.capacity && FindsUnits(d, find)
    requires |OpsAt(p, fu)| >= d.capacity[fu] && LoneFixed(d, f) && f in p && op != f && p[f] != fu
    requires (forall x :: find(x) != Some(p[f])) && Swapped(d, p, op, fu, find).Some?
    ensures f in Swapped(d, p, op, fu, find).value && Swapped(d, p, op, fu, find).value[f] == p[f]
  {
    FullUnitIsUsed(d, p, fu);
    var second := FirstAt(d.ops, p, fu).value;
    var cluster := d.clusters[d.clusterOf[second]];
    assert OfGraph(d, cluster);
    FirstComesFirst(d.ops, p, fu, second);
    SwapEnds(d, p, op, fu, find, second);
    if second != op && !Lone(d, second) {
      assert f !in cluster;
      ClusterSpares(d, p, cluster, find, f);
    }
  }

  lemma {:induction false} StepsSpare(d: Device, p: Placement, a: Attempt, j: nat, f: Op)
    requires WellFormed(d) && Fits(d, p) && Drawn(d, a) && j <= |a.fus| && LoneFixed(d, f)
    requires f in p && Spares(a, p[f]) && f !in d.clusters[a.cluster] && Attempted(d, p, a, j).Some?
    ensures f in Attempted(d, p, a, j).value && Attempted(d, p, a, j).value[f] == p[f]
    decreases |a.fus| - j
  {
    if j < |a.fus| {
      var op, fu := d.clusters[a.cluster][j], a.fus[j];
      assert OfGraph(d, d.clusters[a.cluster]);
      if |OpsAt(p, fu)| < d.capacity[fu] {
        MoveFits(d, p, op, fu);
        StepsSpare(d, p[op := fu], a, j + 1, f);
      } else {
        SwapSpares(d, p, op, fu, a.find(j), f);
        StepsSpare(d, Swapped(d, p, op, fu, a.find(j)).value, a, j + 1, f);
      }
    }
  }

  /** A fixed operation that is alone in its cluster keeps its unit through every run that draws and finds this
      unit for no operation. */
  lemma {:induction false} FixedStays(d: Device, p: Placement, run: seq<Attempt>, i: nat, f: Op)
    requires WellFormed(d) && Fits(d, p) && AllDrawn(d, run) && i <= |run| && LoneFixed(d, f) && f in p
    requires (forall k :: i <= k < |run| ==> Spares(run[k], p[f])) && RunOutcome(d, p, run, i).Some?
    ensures f in RunOutcome(d, p, run, i).value && RunOutcome(d, p, run, i).value[f] == p[f]
    decreases |run| - i
  {
    if i < |run| {
      var q := AttemptOutcome(d, p, run[i]).value;
      AttemptSpares(d, p, run[i], f);
      FixedStays(d, q, run, i + 1, f);
    }
  }

  lemma AttemptSpares(d: Device, p: Placement, a: Attempt, f: Op)
    requires WellFormed(d) && Fits(d, p) && Drawn(d, a) && LoneFixed(d, f) && f in p && Spares(a, p[f])
    requires AttemptOutcome(d, p, a).Some?
    ensures f in AttemptOutcome(d, p, a).value && AttemptOutcome(d, p, a).value[f] == p[f]
  {
    var cluster := d.clusters[a.cluster];
    assert OfGraph(d, cluster);
    if !(exists op :: op in cluster && op in d.fixed) && a.fus[0] != p[cluster[0]] && Attempted(d, p, a, 0).Some? {
      StepsSpare(d, p, a, 0, f);
    }
  }

  /** An attempt on a cluster with a fixed operation in it changes nothing. */
  lemma FixedClusterStays(d: Device, p: Placement, a: Attempt, f: Op)
    requires WellFormed(d) && Fits(d, p) && Drawn(d, a) && f in d.clusters[a.cluster] && f in d.fixed
    ensures AttemptOutcome(d, p, a) == Some(p)
  {
  }

  /** A larger cluster that is in the way moves as a whole to the units found for it, and a fixed operation in it
      moves too, although its own unit was drawn for nothing. */
  lemma ClusterInTheWayMoves(d: Device, p: Placement, a: Attempt, op: Op, second: Op, f: Op)
    requires WellFormed(d) && Fits(d, p) && Drawn(d, a) && a.accepted && d.clusters[a.cluster] == [op] && op !in d.fixed
    requires second in d.ops && OpsAt(p, a.fus[0]) == {second} && d.capacity[a.fus[0]] == 1 && second != op
    requires !Lone(d, second) && f in d.clusters[d.clusterOf[second]]
    requires FindsApart(d.clusters[d.clusterOf[second]], a.find(0)) && AttemptOutcome(d, p, a).Some?
    ensures f in AttemptOutcome(d, p, a).value && a.find(0)(f) == Some(AttemptOutcome(d, p, a).value[f])
  {
    var fu, cluster := a.fus[0], d.clusters[d.clusterOf[second]];
    OneStep(d, p, a, op);
    assert second in OpsAt(p, fu) && op !in OpsAt(p, fu) && OfGraph(d, cluster);
    FullUnitIsUsed(d, p, fu);
    var first := FirstAt(d.ops, p, fu).value;
    FirstComesFirst(d.ops, p, fu, first);
    SwapEnds(d, p, op, fu, a.find(0), first);
    ClusterMovedEnds(d, p, cluster, a.find(0));
  }
}

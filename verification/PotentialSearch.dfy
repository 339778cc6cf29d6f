// The search of latencyCheckBFS: gives every node of one connected component a
// time, moving along links in both directions, and compares all links with it.
module PotentialSearch {
  import opened MappingGraphs

  type Times = map<nat, int>

  // An entry of the two parallel queues: a node, the time it is reached at, and
  // whether it was reached as a fanout.
  datatype Visit = Visit(node: nat, time: int, byFanout: bool)

  // The verdict, the nodes to check for a cycle of one interval, and the nodes
  // to check for a cycle without latency.
  datatype Findings = Findings(balanced: bool, checkCycle: set<nat>, check0Cycle: set<nat>)

  // The variables of the search.
  datatype Search = Search(latencies: Times, toVisit: seq<Visit>, offset: int, info: Times)

  function Time(t: Times, n: nat): int {
    if n in t then t[n] else 0
  }

  /** How much later the output of u appears than v takes its input. */
  function Slack(g: MappingGraph, t: Times, u: nat, v: nat): int {
    Time(t, u) + Latency(g, u) - Time(t, v)
  }

  predicate Fits(ii: nat, slack: int) {
    slack == 0 || slack == ii || slack + ii == 0
  }

  /** All links between timed nodes agree with the times, up to one interval. */
  ghost predicate Balanced(g: MappingGraph, ii: nat, t: Times) {
    forall u, v :: u in t && v in t && v in Fanout(g, u) ==> Fits(ii, Slack(g, t, u, v))
  }

  ghost predicate AllTight(g: MappingGraph, t: Times) {
    forall u, v :: u in t && v in t && v in Fanout(g, u) ==> Slack(g, t, u, v) == 0
  }

  /** A link into v is off by exactly one interval. */
  ghost predicate Flagged(g: MappingGraph, ii: nat, t: Times, v: nat) {
    exists u :: u in t && v in t && v in Fanout(g, u) && Fits(ii, Slack(g, t, u, v)) && Slack(g, t, u, v) != 0
  }

  ghost function FlaggedNodes(g: MappingGraph, ii: nat, t: Times): set<nat> {
    set v | v in t && Flagged(g, ii, t, v)
  }

  /** No link that the times make tight leads into or out of the set. */
  ghost predicate TightClosed(g: MappingGraph, t: Times, x: set<nat>) {
    forall u, v :: u in t && v in t && v in Fanout(g, u) && Slack(g, t, u, v) == 0 ==> (u in x <==> v in x)
  }

  /** All timed nodes hang together with start by tight links. */
  ghost predicate Spanned(g: MappingGraph, t: Times, start: nat) {
    forall x {:trigger TightClosed(g, t, x)} :: start in x && TightClosed(g, t, x) ==> t.Keys <= x
  }

  /** The component of start: the least set that contains it and that no link leaves or enters. */
  lemma SpannedIsLeast(g: MappingGraph, t: Times, start: nat, x: set<nat>)
    requires Mirrored(g) && Spanned(g, t, start) && t.Keys <= g.nodes
    requires ClosedSet(g, x) && start in x
    ensures t.Keys <= x
  {
    forall u, v | u in t && v in t && v in Fanout(g, u) && Slack(g, t, u, v) == 0
      ensures u in x <==> v in x
    {
      assert Recorded(g, u);
      assert u in Fanin(g, v);
    }
    assert TightClosed(g, t, x);
  }

  /** Any potential p that makes the whole component tight is the computed one up to a constant. */
  lemma TightPotentialIsFound(g: MappingGraph, t: Times, start: nat, p: Times)
    requires Spanned(g, t, start) && start in t && t.Keys <= p.Keys
    requires forall u, v :: u in t && v in Fanout(g, u) ==> v in t && Slack(g, p, u, v) == 0
    ensures forall n :: n in t ==> t[n] == p[n] + (t[start] - p[start])
    ensures AllTight(g, t)
  {
    var x := set n | n in t && t[n] == p[n] + (t[start] - p[start]);
    forall u, v | u in t && v in t && v in Fanout(g, u) && Slack(g, t, u, v) == 0
      ensures u in x <==> v in x
    {
      assert Slack(g, p, u, v) == 0;
    }
    assert TightClosed(g, t, x);
    forall u, v | u in t && v in t && v in Fanout(g, u)
      ensures Slack(g, t, u, v) == 0
    {
      assert u in x && v in x && Slack(g, p, u, v) == 0;
    }
  }

  // The visit was caused by the timed node u.
  ghost predicate From(g: MappingGraph, t: Times, u: nat, v: Visit) {
    && u in t
    && if v.byFanout then v.node in Fanout(g, u) && v.time == t[u] + Latency(g, u)
       else v.node in Fanin(g, u) && v.time == t[u] - Latency(g, v.node)
  }

  ghost predicate Justified(g: MappingGraph, t: Times, start: nat, v: Visit) {
    v == Visit(start, 0, true) || exists u :: From(g, t, u, v)
  }

  ghost predicate AllJustified(g: MappingGraph, t: Times, start: nat, open: set<Visit>) {
    forall v :: v in open ==> v.node in g.nodes && Justified(g, t, start, v)
  }

  ghost predicate Extends(t: Times, t': Times, n: nat) {
    t'.Keys == t.Keys + {n} && forall m :: m in t ==> t'[m] == t[m]
  }

  lemma JustifiedStays(g: MappingGraph, t: Times, t': Times, n: nat, start: nat, v: Visit)
    requires Extends(t, t', n) && Justified(g, t, start, v)
    ensures Justified(g, t', start, v)
  {
    if v != Visit(start, 0, true) {
      var u :| From(g, t, u, v);
      assert From(g, t', u, v);
    }
  }

  lemma SpanGrows(g: MappingGraph, t: Times, start: nat, v: Visit)
    requires Mirrored(g) && t.Keys <= g.nodes && Spanned(g, t, start)
    requires Justified(g, t, start, v) && v.node !in t
    ensures Spanned(g, t[v.node := v.time], start)
  {
    var t' := t[v.node := v.time];
    forall x | start in x && TightClosed(g, t', x)
      ensures t'.Keys <= x
    {
      forall a, b | a in t && b in t && b in Fanout(g, a) && Slack(g, t, a, b) == 0
        ensures a in x <==> b in x
      {
        assert Slack(g, t', a, b) == 0;
      }
      assert TightClosed(g, t, x);
      if v != Visit(start, 0, true) {
        var u :| From(g, t, u, v);
        assert Recorded(g, u);
        if v.byFanout {
          assert Slack(g, t', u, v.node) == 0;
        } else {
          assert u in Fanout(g, v.node) && Slack(g, t', v.node, u) == 0;
        }
      }
    }
  }

  // The link from u to v has been compared, and the outcome kept.
  ghost predicate Compared(g: MappingGraph, ii: nat, t: Times, balanced: bool, flagged: set<nat>, u: nat, v: nat) {
    var slack := Slack(g, t, u, v);
    v in t && (slack == 0 || if Fits(ii, slack) then v in flagged else !balanced)
  }

  ghost predicate FanoutsCovered(g: MappingGraph, ii: nat, t: Times, open: set<Visit>, balanced: bool,
                                 flagged: set<nat>,
                                 u: nat)
  {
    forall v :: v in Fanout(g, u) ==>
      Compared(g, ii, t, balanced, flagged, u, v) || Visit(v, Time(t, u) + Latency(g, u), true) in open
  }

  ghost predicate FaninsCovered(g: MappingGraph, t: Times, open: set<Visit>, u: nat) {
    forall v :: v in Fanin(g, u) ==> v in t || Visit(v, Time(t, u) - Latency(g, v), false) in open
  }

  ghost predicate NodeCovered(g: MappingGraph, ii: nat, t: Times, open: set<Visit>, balanced: bool,
                              flagged: set<nat>, u: nat)
  {
    FanoutsCovered(g, ii, t, open, balanced, flagged, u) && FaninsCovered(g, t, open, u)
  }

  ghost predicate Covered(g: MappingGraph, ii: nat, t: Times, open: set<Visit>, balanced: bool, flagged: set<nat>) {
    forall u {:trigger NodeCovered(g, ii, t, open, balanced, flagged, u)} :: u in t ==>
      NodeCovered(g, ii, t, open, balanced, flagged, u)
  }

  /** What a visit to a timed node must leave behind. */
  ghost predicate Noted(ii: nat, t: Times, v: Visit, balanced: bool, flagged: set<nat>) {
    var slack := v.time - Time(t, v.node);
    v.byFanout ==> slack == 0 || if Fits(ii, slack) then v.node in flagged else !balanced
  }

  lemma CoverOn(g: MappingGraph, ii: nat, t: Times, t': Times, v: Visit, open: set<Visit>, open': set<Visit>,
                balanced: bool, balanced': bool, flagged: set<nat>, flagged': set<nat>)
    requires Covered(g, ii, t, open, balanced, flagged) && Extends(t, t', v.node)
    requires open <= open' + {v} && (balanced' ==> balanced) && flagged <= flagged'
    requires Noted(ii, t', v, balanced', flagged')
    requires v.node in t || NodeCovered(g, ii, t', open', balanced', flagged', v.node)
    ensures Covered(g, ii, t', open', balanced', flagged')
  {
    forall u | u in t'
      ensures NodeCovered(g, ii, t', open', balanced', flagged', u)
    {
      if u in t {
        assert NodeCovered(g, ii, t, open, balanced, flagged, u);
        forall w | w in Fanout(g, u)
          ensures Compared(g, ii, t', balanced', flagged', u, w) ||
                  Visit(w, Time(t', u) + Latency(g, u), true) in open'
        {
          if Compared(g, ii, t, balanced, flagged, u, w) {
            assert Slack(g, t', u, w) == Slack(g, t, u, w);
          }
        }
      }
    }
  }

  function Next(c: seq<nat>, i: nat): nat
    requires i < |c|
  {
    c[if i + 1 == |c| then 0 else i + 1]
  }

  // The link from the i-th node of the loop is tight, and leads on.
  ghost predicate TightLink(g: MappingGraph, t: Times, c: seq<nat>, i: nat)
    requires i < |c|
  {
    && c[i] in t && Next(c, i) in t && Next(c, i) != c[i]
    && Next(c, i) in Fanout(g, c[i]) && Slack(g, t, c[i], Next(c, i)) == 0
  }

  /** A loop that the times make tight; it takes no latency. */
  ghost predicate TightLoop(g: MappingGraph, t: Times, c: seq<nat>) {
    c != [] && forall i :: 0 <= i < |c| ==> TightLink(g, t, c, i)
  }

  // The node is to be checked for a loop without latency, or will be when the queue is empty.
  ghost predicate Awaited(t: Times, open: set<Visit>, check0Cycle: set<nat>, n: nat) {
    n in check0Cycle || (n in t && exists byFanout :: Visit(n, t[n], byFanout) in open)
  }

  ghost predicate LoopAwaited(t: Times, open: set<Visit>, check0Cycle: set<nat>, c: seq<nat>) {
    exists i :: 0 <= i < |c| && Awaited(t, open, check0Cycle, c[i])
  }

  /** Every tight loop has a node that is checked. */
  ghost predicate LoopsCaught(g: MappingGraph, t: Times, open: set<Visit>, check0Cycle: set<nat>) {
    forall c :: TightLoop(g, t, c) ==> LoopAwaited(t, open, check0Cycle, c)
  }

  lemma AwaitedOn(t: Times, t': Times, v: Visit, open: set<Visit>, open': set<Visit>, zero: set<nat>,
                  zero': set<nat>, n: nat)
    requires Extends(t, t', v.node) && open <= open' + {v} && zero <= zero' && n in t
    requires v.node in t && t[v.node] == v.time ==> v.node in zero'
    requires Awaited(t, open, zero, n)
    ensures Awaited(t', open', zero', n)
  {
    if n !in zero {
      var byFanout :| Visit(n, t[n], byFanout) in open;
      assert Visit(n, t[n], byFanout) in open' || v == Visit(n, t[n], byFanout);
    }
  }

  // The last node of a loop to get its time has been queued by both of its neighbours.
  lemma LastIsAwaited(g: MappingGraph, ii: nat, t: Times, t': Times, v: Visit, open: set<Visit>, open': set<Visit>,
                      balanced: bool, flagged: set<nat>, zero: set<nat>, u: nat, w: nat)
    requires Mirrored(g) && t'.Keys <= g.nodes && Covered(g, ii, t, open, balanced, flagged)
    requires Extends(t, t', v.node) && open <= open' + {v} && v.node !in t && u in t && w in t
    requires v.node in Fanout(g, u) && Slack(g, t', u, v.node) == 0
    requires w in Fanout(g, v.node) && Slack(g, t', v.node, w) == 0
    ensures Awaited(t', open', zero, v.node)
  {
    var x := v.node;
    assert NodeCovered(g, ii, t, open, balanced, flagged, u) && NodeCovered(g, ii, t, open, balanced, flagged, w);
    assert Recorded(g, x) && x in Fanin(g, w);
    var fromU, fromW := Visit(x, t'[x], true), Visit(x, t'[x], false);
    assert fromU in open && fromW in open;
    assert fromU in open' || fromW in open';
  }

  lemma NextInLoop(c: seq<nat>, k: nat) returns (before: nat)
    requires k < |c|
    ensures before < |c| && Next(c, before) == c[k]
  {
    before := if k == 0 then |c| - 1 else k - 1;
  }

  lemma OldLoop(g: MappingGraph, t: Times, t': Times, n: nat, c: seq<nat>)
    requires Extends(t, t', n) && TightLoop(g, t', c) && forall i :: 0 <= i < |c| ==> c[i] in t
    ensures TightLoop(g, t, c)
  {
    forall i | 0 <= i < |c|
      ensures TightLink(g, t, c, i)
    {
      assert TightLink(g, t', c, i);
    }
  }

  lemma LoopCaughtOn(g: MappingGraph, ii: nat, t: Times, t': Times, v: Visit, open: set<Visit>, open': set<Visit>,
                     balanced: bool, flagged: set<nat>, zero: set<nat>, zero': set<nat>, c: seq<nat>)
    requires Mirrored(g) && t'.Keys <= g.nodes && Covered(g, ii, t, open, balanced, flagged)
    requires LoopsCaught(g, t, open, zero) && Extends(t, t', v.node) && open <= open' + {v} && zero <= zero'
    requires v.node in t && t[v.node] == v.time ==> v.node in zero'
    requires TightLoop(g, t', c)
    ensures LoopAwaited(t', open', zero', c)
  {
    if k: nat :| k < |c| && c[k] !in t {
      var before := NextInLoop(c, k);
      assert TightLink(g, t', c, k) && TightLink(g, t', c, before);
      LastIsAwaited(g, ii, t, t', v, open, open', balanced, flagged, zero', c[before], Next(c, k));
      assert Awaited(t', open', zero', c[k]);
    } else {
      OldLoop(g, t, t', v.node, c);
      assert LoopAwaited(t, open, zero, c);
      var i :| 0 <= i < |c| && Awaited(t, open, zero, c[i]);
      AwaitedOn(t, t', v, open, open', zero, zero', c[i]);
    }
  }

  lemma LoopsCaughtOn(g: MappingGraph, ii: nat, t: Times, t': Times, v: Visit, open: set<Visit>, open': set<Visit>,
                      balanced: bool, flagged: set<nat>, zero: set<nat>, zero': set<nat>)
    requires Mirrored(g) && t'.Keys <= g.nodes && Covered(g, ii, t, open, balanced, flagged)
    requires LoopsCaught(g, t, open, zero) && Extends(t, t', v.node) && open <= open' + {v} && zero <= zero'
    requires v.node in t && t[v.node] == v.time ==> v.node in zero'
    ensures LoopsCaught(g, t', open', zero')
  {
    forall c | TightLoop(g, t', c)
      ensures LoopAwaited(t', open', zero', c)
    {
      LoopCaughtOn(g, ii, t, t', v, open, open', balanced, flagged, zero, zero', c);
    }
  }

  /** A visit that disagrees with the time of its node exposes the link it came by. */
  lemma VisitExposesLink(g: MappingGraph, ii: nat, t: Times, start: nat, v: Visit)
    requires Mirrored(g) && t.Keys <= g.nodes && Justified(g, t, start, v) && v.node in t
    requires start in t ==> t[start] == 0
    ensures v.time != t[v.node] && Fits(ii, v.time - t[v.node]) && v.byFanout ==> Flagged(g, ii, t, v.node)
    ensures !Fits(ii, v.time - t[v.node]) ==> !Balanced(g, ii, t)
    ensures v.time != t[v.node] ==> !AllTight(g, t)
  {
    if v.time != t[v.node] {
      var u :| From(g, t, u, v);
      assert Recorded(g, u);
      if v.byFanout {
        assert Slack(g, t, u, v.node) == v.time - t[v.node];
      } else {
        assert u in Fanout(g, v.node) && Slack(g, t, v.node, u) == t[v.node] - v.time;
      }
    }
  }

  lemma LinksStay(g: MappingGraph, ii: nat, t: Times, t': Times, n: nat)
    requires Extends(t, t', n)
    ensures forall v :: Flagged(g, ii, t, v) ==> Flagged(g, ii, t', v)
    ensures Balanced(g, ii, t') ==> Balanced(g, ii, t)
  {
    forall u, v | u in t && v in t && v in Fanout(g, u)
      ensures Slack(g, t', u, v) == Slack(g, t, u, v)
    {
    }
    forall v | Flagged(g, ii, t, v)
      ensures Flagged(g, ii, t', v)
    {
      var u :| u in t && v in t && v in Fanout(g, u) && Fits(ii, Slack(g, t, u, v)) && Slack(g, t, u, v) != 0;
      assert Slack(g, t', u, v) == Slack(g, t, u, v);
    }
  }

  ghost function Open(queue: seq<Visit>): set<Visit> {
    set v | v in queue
  }

  // The search as a function of its queue.

  // The times so far, the queue, and the nodes that were visited again at the time they have.
  datatype Progress = Progress(times: Times, queue: seq<Visit>, again: set<nat>)

  /** The visit to a fanout of n, unless it is known to agree. */
  function FanoutVisit(g: MappingGraph, t: Times, n: nat, v: nat): seq<Visit> {
    if v in t && t[v] == Time(t, n) + Latency(g, n) then [] else [Visit(v, Time(t, n) + Latency(g, n), true)]
  }

  function FanoutVisits(g: MappingGraph, t: Times, n: nat, fanout: seq<nat>): seq<Visit> {
    if fanout == [] then []
    else FanoutVisits(g, t, n, fanout[..|fanout| - 1]) + FanoutVisit(g, t, n, fanout[|fanout| - 1])
  }

  /** The visit to a fanin of n, unless it has a time. */
  function FaninVisit(g: MappingGraph, t: Times, n: nat, v: nat): seq<Visit> {
    if v in t then [] else [Visit(v, Time(t, n) - Latency(g, v), false)]
  }

  function FaninVisits(g: MappingGraph, t: Times, n: nat, fanin: seq<nat>): seq<Visit> {
    if fanin == [] then []
    else FaninVisits(g, t, n, fanin[..|fanin| - 1]) + FaninVisit(g, t, n, fanin[|fanin| - 1])
  }

  /** One visit. */
  function OneVisit(g: MappingGraph, r: Progress): Progress {
    if r.queue == [] then r
    else
      var v := r.queue[0];
      var t := Timed(r.times, v);
      if v.node in r.times then
        Progress(t, r.queue[1..], if r.times[v.node] == v.time then r.again + {v.node} else r.again)
      else
        var fanouts := FanoutVisits(g, t, v.node, Fanout(g, v.node));
        var fanins := FaninVisits(g, t, v.node, Fanin(g, v.node));
        Progress(t, r.queue[1..] + fanouts + fanins, r.again)
  }

  /** The search after k visits. */
  function After(g: MappingGraph, r: Progress, k: nat): Progress {
    if k == 0 then r else OneVisit(g, After(g, r, k - 1))
  }

  function Beginning(start: nat): Progress {
    Progress(map[], [Visit(start, 0, true)], {})
  }

  /** What the search from start ends with. */
  ghost predicate Finds(g: MappingGraph, start: nat, t: Times, again: set<nat>) {
    exists k: nat :: After(g, Beginning(start), k) == Progress(t, [], again)
  }

  lemma {:induction false} NothingAfterTheEnd(g: MappingGraph, r: Progress, k: nat, more: nat)
    requires After(g, r, k).queue == [] && k <= more
    ensures After(g, r, more) == After(g, r, k)
  {
    if k < more {
      NothingAfterTheEnd(g, r, k, more - 1);
    }
  }

  lemma {:induction false} AgainIsTimed(g: MappingGraph, r: Progress, k: nat)
    requires r.again <= r.times.Keys
    ensures After(g, r, k).again <= After(g, r, k).times.Keys
  {
    if k > 0 {
      AgainIsTimed(g, r, k - 1);
    }
  }

  /** The search has one result. */
  lemma FindsOneResult(g: MappingGraph, start: nat, t: Times, again: set<nat>, t': Times, again': set<nat>)
    requires Finds(g, start, t, again) && Finds(g, start, t', again')
    ensures t == t' && again == again'
  {
    var k: nat :| After(g, Beginning(start), k) == Progress(t, [], again);
    var k': nat :| After(g, Beginning(start), k') == Progress(t', [], again');
    NothingAfterTheEnd(g, Beginning(start), k, k + k');
    NothingAfterTheEnd(g, Beginning(start), k', k + k');
  }

  lemma {:induction false} FanoutVisitsAre(g: MappingGraph, t: Times, n: nat, fanout: seq<nat>)
    requires Mirrored(g) && n in g.nodes && n in t && forall v :: v in fanout ==> v in Fanout(g, n)
    ensures forall v :: v in FanoutVisits(g, t, n, fanout) ==> v.node in g.nodes && From(g, t, n, v)
    ensures forall v :: v in fanout ==>
              (v in t && Slack(g, t, n, v) == 0) || Visit(v, t[n] + Latency(g, n), true) in FanoutVisits(g, t, n, fanout)
  {
    if fanout != [] {
      var front, last := fanout[..|fanout| - 1], fanout[|fanout| - 1];
      assert fanout == front + [last] && last in fanout && Recorded(g, n);
      FanoutVisitsAre(g, t, n, front);
    }
  }

  lemma {:induction false} FaninVisitsAre(g: MappingGraph, t: Times, n: nat, fanin: seq<nat>)
    requires Mirrored(g) && n in g.nodes && n in t && forall v :: v in fanin ==> v in Fanin(g, n)
    ensures forall v :: v in FaninVisits(g, t, n, fanin) ==> v.node in g.nodes && From(g, t, n, v)
    ensures forall v :: v in fanin ==> v in t || Visit(v, t[n] - Latency(g, v), false) in FaninVisits(g, t, n, fanin)
  {
    if fanin != [] {
      var front, last := fanin[..|fanin| - 1], fanin[|fanin| - 1];
      assert fanin == front + [last] && last in fanin && Recorded(g, n);
      FaninVisitsAre(g, t, n, front);
    }
  }

  lemma OpenPush(g: MappingGraph, t: Times, start: nat, n: nat, queue: seq<Visit>, more: seq<Visit>)
    requires AllJustified(g, t, start, Open(queue)) && forall v :: v in more ==> v.node in g.nodes && From(g, t, n, v)
    ensures Open(queue + more) == Open(queue) + Open(more) && AllJustified(g, t, start, Open(queue + more))
  {
    forall v | v in Open(queue + more)
      ensures v.node in g.nodes && Justified(g, t, start, v)
    {
      assert v in queue || v in more;
    }
  }

  /** With the neighbours of a newly timed node on the queue, none of its links is forgotten. */
  lemma NeighboursCover(g: MappingGraph, ii: nat, t: Times, n: nat, open: set<Visit>, balanced: bool, flagged: set<nat>)
    requires Mirrored(g) && n in g.nodes && n in t
    requires Open(FanoutVisits(g, t, n, Fanout(g, n))) <= open && Open(FaninVisits(g, t, n, Fanin(g, n))) <= open
    ensures NodeCovered(g, ii, t, open, balanced, flagged, n)
  {
    FanoutVisitsAre(g, t, n, Fanout(g, n));
    FaninVisitsAre(g, t, n, Fanin(g, n));
    forall v | v in Fanout(g, n)
      ensures Compared(g, ii, t, balanced, flagged, n, v) || Visit(v, Time(t, n) + Latency(g, n), true) in open
    {
      assert (v in t && Slack(g, t, n, v) == 0) ||
             Visit(v, t[n] + Latency(g, n), true) in Open(FanoutVisits(g, t, n, Fanout(g, n)));
    }
    forall v | v in Fanin(g, n)
      ensures v in t || Visit(v, Time(t, n) - Latency(g, v), false) in open
    {
      assert v in t || Visit(v, t[n] - Latency(g, v), false) in Open(FaninVisits(g, t, n, Fanin(g, n)));
    }
  }

  lemma PushedCovers(g: MappingGraph, ii: nat, t: Times, start: nat, n: nat, queue: seq<Visit>, queue': seq<Visit>,
                     balanced: bool, flagged: set<nat>)
    requires Mirrored(g) && n in g.nodes && n in t && AllJustified(g, t, start, Open(queue))
    requires queue' == queue + FanoutVisits(g, t, n, Fanout(g, n)) + FaninVisits(g, t, n, Fanin(g, n))
    ensures Open(queue) <= Open(queue') && AllJustified(g, t, start, Open(queue'))
    ensures NodeCovered(g, ii, t, Open(queue'), balanced, flagged, n)
  {
    FanoutVisitsAre(g, t, n, Fanout(g, n));
    FaninVisitsAre(g, t, n, Fanin(g, n));
    OpenPush(g, t, start, n, queue, FanoutVisits(g, t, n, Fanout(g, n)));
    OpenPush(g, t, start, n, queue + FanoutVisits(g, t, n, Fanout(g, n)), FaninVisits(g, t, n, Fanin(g, n)));
    NeighboursCover(g, ii, t, n, Open(queue'), balanced, flagged);
  }

  /** Puts the fanouts of n on the queue, unless they are known to agree. */
  method PushFanouts(g: MappingGraph, latencies: Times, n: nat, toVisit: seq<Visit>) returns (toVisit': seq<Visit>)
    requires Mirrored(g) && n in g.nodes && n in latencies
    ensures toVisit' == toVisit + FanoutVisits(g, latencies, n, Fanout(g, n))
  {
    toVisit' := toVisit;
    assert Recorded(g, n);
    var fanout := g.fanout[n];
    for i := 0 to |fanout|
      invariant toVisit' == toVisit + FanoutVisits(g, latencies, n, fanout[..i])
    {
      var v := fanout[i];
      assert fanout[..i + 1][..i] == fanout[..i];
      if !(v in latencies && latencies[v] == latencies[n] + g.latency[n]) {
        toVisit' := toVisit' + [Visit(v, latencies[n] + g.latency[n], true)];
      }
    }
    assert fanout[..|fanout|] == fanout;
  }

  /** Puts the fanins of n that have no time yet on the queue. */
  method PushFanins(g: MappingGraph, latencies: Times, n: nat, toVisit: seq<Visit>) returns (toVisit': seq<Visit>)
    requires Mirrored(g) && n in g.nodes && n in latencies
    ensures toVisit' == toVisit + FaninVisits(g, latencies, n, Fanin(g, n))
  {
    toVisit' := toVisit;
    assert Recorded(g, n);
    var fanin := g.fanin[n];
    for i := 0 to |fanin|
      invariant toVisit' == toVisit + FaninVisits(g, latencies, n, fanin[..i])
    {
      var v := fanin[i];
      assert fanin[..i + 1][..i] == fanin[..i];
      if v !in latencies {
        assert v in fanin && Recorded(g, v);
        toVisit' := toVisit' + [Visit(v, latencies[n] - g.latency[v], false)];
      }
    }
    assert fanin[..|fanin|] == fanin;
  }

  // What is known of the reported times: they are no less than the times of
  // the search, and each is the time of some visit.
  ghost predicate Reported(g: MappingGraph, t: Times, start: nat, info: Times, offset: int) {
    forall n {:trigger ReportedAt(g, t, start, info, offset, n)} :: n in t ==> ReportedAt(g, t, start, info, offset, n)
  }

  ghost predicate ReportedAt(g: MappingGraph, t: Times, start: nat, info: Times, offset: int, n: nat) {
    n in info && n in t && info[n] >= t[n] >= offset && Visited(g, t, start, n, info[n])
  }

  ghost predicate Visited(g: MappingGraph, t: Times, start: nat, n: nat, time: int) {
    exists byFanout :: Justified(g, t, start, Visit(n, time, byFanout))
  }

  lemma VisitedStays(g: MappingGraph, t: Times, t': Times, m: nat, start: nat, n: nat, time: int)
    requires Extends(t, t', m) && Visited(g, t, start, n, time)
    ensures Visited(g, t', start, n, time)
  {
    var byFanout :| Justified(g, t, start, Visit(n, time, byFanout));
    JustifiedStays(g, t, t', m, start, Visit(n, time, byFanout));
  }

  lemma ReportOn(g: MappingGraph, t: Times, t': Times, start: nat, info: Times, offset: int, v: Visit,
                 info': Times, offset': int)
    requires Reported(g, t, start, info, offset) && Extends(t, t', v.node) && Justified(g, t, start, v)
    requires v.node in t || t'[v.node] == v.time
    requires offset' == if v.time < offset then v.time else offset
    requires v.node in t <==> v.node in info
    requires info' == if v.node in info && info[v.node] >= v.time then info else info[v.node := v.time]
    ensures Reported(g, t', start, info', offset')
  {
    forall n | n in t'
      ensures ReportedAt(g, t', start, info', offset', n)
    {
      if n in t {
        assert ReportedAt(g, t, start, info, offset, n);
      }
      assert Visited(g, t, start, n, info'[n]);
      VisitedStays(g, t, t', v.node, start, n, info'[n]);
    }
  }

  /** Files the visit under balanced, checkCycle or check0Cycle. */
  method Compare(g: MappingGraph, ii: nat, latencies: Times, start: nat, v: Visit, f: Findings) returns (f': Findings)
    requires Mirrored(g) && latencies.Keys <= g.nodes && Justified(g, latencies, start, v) && v.node in latencies
    requires start in latencies ==> latencies[start] == 0
    ensures Noted(ii, latencies, v, f'.balanced, f'.checkCycle)
    ensures f'.balanced ==> f.balanced
    ensures f.balanced && !f'.balanced ==> !Balanced(g, ii, latencies)
    ensures f.checkCycle <= f'.checkCycle <= f.checkCycle + FlaggedNodes(g, ii, latencies)
    ensures f'.check0Cycle == f.check0Cycle + if latencies[v.node] == v.time then {v.node} else {}
  {
    f' := f;
    VisitExposesLink(g, ii, latencies, start, v);
    if latencies[v.node] == v.time {
      f' := f.(check0Cycle := f.check0Cycle + {v.node});
    } else if latencies[v.node] + ii == v.time {
      if v.byFanout {
        f' := f.(checkCycle := f.checkCycle + {v.node});
      }
    } else if latencies[v.node] - ii == v.time {
      if v.byFanout {
        f' := f.(checkCycle := f.checkCycle + {v.node});
      }
    } else {
      f' := f.(balanced := false);
    }
  }

  // Some visit had the lowest time seen.
  ghost predicate Lowest(g: MappingGraph, t: Times, start: nat, offset: int) {
    exists n :: n in t && Visited(g, t, start, n, offset)
  }

  lemma LowestOn(g: MappingGraph, t: Times, t': Times, start: nat, offset: int, v: Visit, offset': int)
    requires Extends(t, t', v.node) && Justified(g, t, start, v)
    requires if t == map[] then offset == 0 else Lowest(g, t, start, offset)
    requires offset' == if v.time < offset then v.time else offset
    ensures Lowest(g, t', start, offset')
  {
    if offset' == v.time {
      assert Visited(g, t, start, v.node, offset');
      VisitedStays(g, t, t', v.node, start, v.node, offset');
    } else {
      var n :| n in t && Visited(g, t, start, n, offset);
      VisitedStays(g, t, t', v.node, start, n, offset);
    }
  }

  // What the search keeps, apart from its verdicts.
  ghost predicate Searching(g: MappingGraph, t: Times, start: nat, queue: seq<Visit>, offset: int) {
    && t.Keys <= g.nodes && Spanned(g, t, start) && AllJustified(g, t, start, Open(queue))
    && (start in t ==> t[start] == 0) && (start in t || Visit(start, 0, true) in Open(queue))
    && offset <= 0 && (if t == map[] then offset == 0 else Lowest(g, t, start, offset))
  }

  // The times after a visit: only a node without a time gets one.
  function Timed(t: Times, v: Visit): Times {
    if v.node in t then t else t[v.node := v.time]
  }

  lemma SearchOn(g: MappingGraph, t: Times, t': Times, start: nat, queue: seq<Visit>, offset: int, offset': int)
    requires Mirrored(g) && queue != [] && Searching(g, t, start, queue, offset)
    requires t' == Timed(t, queue[0])
    requires offset' == if queue[0].time < offset then queue[0].time else offset
    ensures Searching(g, t', start, queue[1..], offset') && Extends(t, t', queue[0].node)
    ensures Justified(g, t, start, queue[0])
  {
    var v := queue[0];
    assert v in Open(queue);
    assert queue == [v] + queue[1..];
    assert Extends(t, t', v.node);
    if v.node !in t {
      SpanGrows(g, t, start, v);
    }
    LowestOn(g, t, t', start, offset, v, offset');
    forall w | w in Open(queue[1..])
      ensures w.node in g.nodes && Justified(g, t', start, w)
    {
      assert w in Open(queue);
      JustifiedStays(g, t, t', v.node, start, w);
    }
    if start in t' && start !in t {
      StartIsFirst(g, t, start, v);
    }
  }

  lemma StartIsFirst(g: MappingGraph, t: Times, start: nat, v: Visit)
    requires Justified(g, t, start, v) && v.node == start && start !in t && Spanned(g, t, start)
    ensures v.time == 0
  {
    if v != Visit(start, 0, true) {
      var u :| From(g, t, u, v);
      var x := {start};
      assert TightClosed(g, t, x);
    }
  }

  lemma StaysInComponent(g: MappingGraph, t: Times, start: nat, v: Visit, x: set<nat>)
    requires Mirrored(g) && t.Keys <= g.nodes && Justified(g, t, start, v)
    requires ClosedSet(g, x) && start !in x && t.Keys !! x
    ensures v.node !in x
  {
    if v != Visit(start, 0, true) {
      var u :| From(g, t, u, v);
      assert Recorded(g, u);
      if v.byFanout {
        assert u in Fanin(g, v.node);
      } else {
        assert u in Fanout(g, v.node);
      }
    }
  }

  lemma ComponentIsClosed(g: MappingGraph, ii: nat, t: Times, balanced: bool, flagged: set<nat>)
    requires Mirrored(g) && t.Keys <= g.nodes && Covered(g, ii, t, {}, balanced, flagged)
    ensures ClosedSet(g, t.Keys)
    ensures balanced ==> Balanced(g, ii, t)
    ensures FlaggedNodes(g, ii, t) <= flagged
  {
    forall u | u in t
      ensures NodeCovered(g, ii, t, {}, balanced, flagged, u)
    {
    }
  }

  /** Moves the reported times of the nodes so that none is negative. */
  method Normalize(info: Times, latencies: Times, offset: int) returns (info': Times)
    requires latencies.Keys <= info.Keys
    ensures info'.Keys == info.Keys
    ensures forall n :: n in info ==> info'[n] == if n in latencies && offset < 0 then info[n] - offset else info[n]
  {
    info' := info;
    if offset < 0 {
      var todo := latencies.Keys;
      while todo != {}
        invariant todo <= latencies.Keys && info'.Keys == info.Keys
        invariant forall n :: n in info ==> info'[n] == if n in latencies && n !in todo then info[n] - offset else info[n]
        decreases todo
      {
        var n :| n in todo;
        todo := todo - {n};
        info' := info'[n := info'[n] - offset];
      }
    }
  }

  /** The reported times are the times of the search, moved so that the least is 0. */
  ghost predicate Aligned(t: Times, info: Times) {
    exists m :: m in t && m in info && info[m] == 0 && forall n :: n in t ==> n in info && info[n] == t[n] - t[m]
  }

  lemma TightTimesAlign(g: MappingGraph, t: Times, start: nat, info: Times, offset: int)
    requires Mirrored(g) && t.Keys <= g.nodes && start in t && t[start] == 0
    requires Reported(g, t, start, info, offset) && Lowest(g, t, start, offset) && t.Keys <= info.Keys
    ensures AllTight(g, t) ==> exists m :: m in t && t[m] == offset
    ensures AllTight(g, t) ==> forall n :: n in t ==> info[n] == t[n]
  {
    if AllTight(g, t) {
      var m :| m in t && Visited(g, t, start, m, offset);
      VisitedWhenTight(g, t, start, m, offset);
      forall n | n in t
        ensures info[n] == t[n]
      {
        assert ReportedAt(g, t, start, info, offset, n);
        VisitedWhenTight(g, t, start, n, info[n]);
      }
    }
  }

  lemma VisitedWhenTight(g: MappingGraph, t: Times, start: nat, n: nat, time: int)
    requires Mirrored(g) && t.Keys <= g.nodes && start in t && t[start] == 0 && AllTight(g, t)
    requires n in t && Visited(g, t, start, n, time)
    ensures time == t[n]
  {
    var byFanout :| Justified(g, t, start, Visit(n, time, byFanout));
    VisitExposesLink(g, 1, t, start, Visit(n, time, byFanout));
  }

  lemma JustifiedHead(g: MappingGraph, t: Times, start: nat, queue: seq<Visit>)
    requires queue != [] && AllJustified(g, t, start, Open(queue))
    ensures Justified(g, t, start, queue[0]) && queue[0].node in g.nodes
  {
    assert queue[0] in Open(queue);
  }

  // What the findings rest on.
  ghost predicate Judged(g: MappingGraph, ii: nat, t: Times, queue: seq<Visit>, f: Findings, given: Findings) {
    && Covered(g, ii, t, Open(queue), f.balanced, f.checkCycle)
    && (!f.balanced ==> !Balanced(g, ii, t))
    && given.checkCycle <= f.checkCycle <= given.checkCycle + FlaggedNodes(g, ii, t)
    && given.check0Cycle <= f.check0Cycle <= given.check0Cycle + t.Keys
    && LoopsCaught(g, t, Open(queue), f.check0Cycle)
  }

  lemma FindingsAreExact(g: MappingGraph, ii: nat, t: Times, f: Findings, given: Findings)
    requires Mirrored(g) && t.Keys <= g.nodes && Judged(g, ii, t, [], f, given)
    ensures ClosedSet(g, t.Keys)
    ensures f.balanced <==> Balanced(g, ii, t)
    ensures f.checkCycle == given.checkCycle + FlaggedNodes(g, ii, t)
    ensures forall c :: TightLoop(g, t, c) ==> exists n :: n in c && n in f.check0Cycle
  {
    assert Open([]) == {};
    forall c | TightLoop(g, t, c)
      ensures exists n :: n in c && n in f.check0Cycle
    {
      assert LoopAwaited(t, {}, f.check0Cycle, c);
    }
    ComponentIsClosed(g, ii, t, f.balanced, f.checkCycle);
  }

  // One visit takes the search on as OneVisit says.
  ghost predicate Advances(g: MappingGraph, t: Times, queue: seq<Visit>, t': Times, queue': seq<Visit>, zero: set<nat>,
                           zero': set<nat>)
  {
    var r := OneVisit(g, Progress(t, queue, {}));
    t' == r.times && queue' == r.queue && zero' == zero + r.again
  }

  /** Deals with the visit taken from the queue: compares it with the time its
      node has, or gives the node its time and goes on to its neighbours. */
  method Settle(g: MappingGraph, ii: nat, start: nat, ghost queue: seq<Visit>, v: Visit, s: Search, f: Findings,
                ghost given: Findings)
    returns (s': Search, f': Findings)
    requires Mirrored(g) && queue == [v] + s.toVisit && v.node in g.nodes
    requires s.latencies.Keys <= g.nodes && (start in s.latencies ==> s.latencies[start] == 0)
    requires Justified(g, s.latencies, start, v) && Judged(g, ii, s.latencies, queue, f, given)
    requires Searching(g, Timed(s.latencies, v), start, s.toVisit, s.offset)
    ensures s' == s.(latencies := Timed(s.latencies, v), toVisit := s'.toVisit)
    ensures v.node in s.latencies ==> s'.toVisit == s.toVisit
    ensures Searching(g, s'.latencies, start, s'.toVisit, s'.offset)
    ensures Judged(g, ii, s'.latencies, s'.toVisit, f', given)
    ensures Advances(g, s.latencies, queue, s'.latencies, s'.toVisit, f.check0Cycle, f'.check0Cycle)
  {
    var latencies, toVisit := s.latencies, s.toVisit;
    f' := f;
    if v.node in latencies {
      f' := Compare(g, ii, latencies, start, v, f);
    } else {
      latencies := latencies[v.node := v.time];
      LinksStay(g, ii, s.latencies, latencies, v.node);
      toVisit := PushFanouts(g, latencies, v.node, toVisit);
      toVisit := PushFanins(g, latencies, v.node, toVisit);
      PushedCovers(g, ii, latencies, start, v.node, s.toVisit, toVisit, f.balanced, f.checkCycle);
    }
    CoverOn(g, ii, s.latencies, latencies, v, Open(queue), Open(toVisit), f.balanced, f'.balanced,
            f.checkCycle, f'.checkCycle);
    LoopsCaughtOn(g, ii, s.latencies, latencies, v, Open(queue), Open(toVisit), f.balanced, f.checkCycle,
                  f.check0Cycle, f'.check0Cycle);
    s' := s.(latencies := latencies, toVisit := toVisit);
  }

  // What is known of the reported times of all components so far.
  ghost predicate Told(g: MappingGraph, t: Times, start: nat, given: Times, info: Times, offset: int) {
    && given.Keys !! t.Keys && info.Keys == given.Keys + t.Keys
    && (forall n :: n in given ==> info[n] == given[n])
    && Reported(g, t, start, info, offset)
  }

  /** Keeps the largest time of each node. */
  method Report(info: Times, v: Visit) returns (info': Times)
    ensures info' == Latest(info, v)
  {
    info' := info;
    if v.node in info {
      if info[v.node] < v.time {
        info' := info[v.node := v.time];
      }
    } else {
      info' := info[v.node := v.time];
    }
  }

  function Earliest(v: Visit, offset: int): int {
    if v.time < offset then v.time else offset
  }

  function Latest(info: Times, v: Visit): Times {
    if v.node in info && info[v.node] >= v.time then info else info[v.node := v.time]
  }

  /** One visit, as far as times are concerned. */
  lemma StepOn(g: MappingGraph, t: Times, start: nat, queue: seq<Visit>, given: Times, info: Times, offset: int)
    requires Mirrored(g) && queue != [] && Searching(g, t, start, queue, offset) && Told(g, t, start, given, info, offset)
    requires start !in given && ClosedSet(g, given.Keys)
    ensures Searching(g, Timed(t, queue[0]), start, queue[1..], Earliest(queue[0], offset))
    ensures Told(g, Timed(t, queue[0]), start, given, Latest(info, queue[0]), Earliest(queue[0], offset))
    ensures Justified(g, t, start, queue[0]) && queue[0].node in g.nodes
  {
    var v := queue[0];
    JustifiedHead(g, t, start, queue);
    SearchOn(g, t, Timed(t, v), start, queue, offset, Earliest(v, offset));
    StaysInComponent(g, t, start, v, given.Keys);
    ReportOn(g, t, Timed(t, v), start, info, offset, v, Latest(info, v), Earliest(v, offset));
  }

  // The reported time of n is that of the search, moved by c or by one interval more.
  ghost predicate MovedAt(ii: nat, t: Times, info: Times, c: int, n: nat) {
    n in t && n in info && (info[n] - t[n] == c || info[n] - t[n] == c + ii)
  }

  ghost predicate MovedBy(ii: nat, t: Times, info: Times, c: int) {
    forall n {:trigger MovedAt(ii, t, info, c, n)} :: n in t ==> MovedAt(ii, t, info, c, n)
  }

  /** The reported times are those of the search, moved together, some by one interval more. */
  ghost predicate Moved(ii: nat, t: Times, info: Times) {
    exists c :: MovedBy(ii, t, info, c)
  }

  lemma BalancedTimesMove(g: MappingGraph, ii: nat, t: Times, start: nat, info: Times, offset: int, info': Times,
                          c: int)
    requires Mirrored(g) && t.Keys <= g.nodes && start in t && t[start] == 0 && Balanced(g, ii, t)
    requires Reported(g, t, start, info, offset)
    requires forall n :: n in t ==> n in info && n in info' && info'[n] == info[n] + c
    ensures Moved(ii, t, info')
  {
    forall n | n in t
      ensures MovedAt(ii, t, info', c, n)
    {
      assert ReportedAt(g, t, start, info, offset, n);
      var byFanout :| Justified(g, t, start, Visit(n, info[n], byFanout));
      VisitExposesLink(g, ii, t, start, Visit(n, info[n], byFanout));
    }
    assert MovedBy(ii, t, info', c);
  }

  lemma NormalizedTimes(g: MappingGraph, ii: nat, t: Times, start: nat, given: Times, info: Times, offset: int,
                        info': Times)
    requires Mirrored(g) && t.Keys <= g.nodes && start in t && t[start] == 0
    requires Told(g, t, start, given, info, offset) && Lowest(g, t, start, offset) && offset <= 0
    requires info'.Keys == info.Keys
    requires forall n :: n in info ==> info'[n] == if n in t && offset < 0 then info[n] - offset else info[n]
    ensures forall n :: n in given ==> info'[n] == given[n]
    ensures forall n :: n in t ==> info'[n] >= 0
    ensures AllTight(g, t) ==> Aligned(t, info')
    ensures Balanced(g, ii, t) ==> Moved(ii, t, info')
  {
    TightTimesAlign(g, t, start, info, offset);
    if Balanced(g, ii, t) {
      BalancedTimesMove(g, ii, t, start, info, offset, info', if offset < 0 then -offset else 0);
    }
    forall n | n in t
      ensures info'[n] >= 0
    {
      assert ReportedAt(g, t, start, info, offset, n);
    }
  }

  /** The first k visits of the search. */
  ghost function Seen(g: MappingGraph, start: nat, k: nat): set<Visit> {
    if k == 0 then {}
    else
      var queue := After(g, Beginning(start), k - 1).queue;
      Seen(g, start, k - 1) + if queue == [] then {} else {queue[0]}
  }

  // The times kept so far are those of the visits: for each node the latest, and the earliest of all.
  ghost predicate Keeps(seen: set<Visit>, given: Times, info: Times, offset: int) {
    && (forall n {:trigger WasVisited(seen, given, info, n)} :: WasVisited(seen, given, info, n))
    && (forall v {:trigger WasKept(seen, given, info, offset, v)} :: WasKept(seen, given, info, offset, v))
    && offset <= 0 && (offset == 0 || exists n :: HasVisit(seen, n, offset))
  }

  ghost predicate WasVisited(seen: set<Visit>, given: Times, info: Times, n: nat) {
    n in info && n !in given ==> HasVisit(seen, n, info[n])
  }

  ghost predicate WasKept(seen: set<Visit>, given: Times, info: Times, offset: int, v: Visit) {
    v in seen ==> v.node in info && v.node !in given && offset <= v.time <= info[v.node]
  }

  ghost predicate HasVisit(seen: set<Visit>, n: nat, time: int) {
    exists byFanout :: Visit(n, time, byFanout) in seen
  }

  lemma KeepsOn(seen: set<Visit>, given: Times, info: Times, offset: int, v: Visit)
    requires Keeps(seen, given, info, offset) && v.node !in given
    ensures Keeps(seen + {v}, given, Latest(info, v), Earliest(v, offset))
  {
    var seen', info', offset' := seen + {v}, Latest(info, v), Earliest(v, offset);
    assert v == Visit(v.node, v.time, v.byFanout);
    forall n
      ensures WasVisited(seen', given, info', n)
    {
      assert WasVisited(seen, given, info, n);
    }
    forall u
      ensures WasKept(seen', given, info', offset', u)
    {
      assert WasKept(seen, given, info, offset, u);
    }
    if offset' != 0 {
      if offset' == offset {
        var n :| HasVisit(seen, n, offset);
        assert HasVisit(seen', n, offset');
      } else {
        assert HasVisit(seen', v.node, offset');
      }
    }
  }

  // The time is that of the latest visit to the node.
  ghost predicate IsLatest(seen: set<Visit>, n: nat, time: int) {
    HasVisit(seen, n, time) && forall v :: v in seen && v.node == n ==> v.time <= time
  }

  // The time is that of the earliest visit.
  ghost predicate IsEarliest(seen: set<Visit>, time: int) {
    (exists n :: HasVisit(seen, n, time)) && forall v :: v in seen ==> time <= v.time
  }

  ghost predicate LatestFrom(seen: set<Visit>, t: Times, info: Times, first: int) {
    IsEarliest(seen, first) && forall n :: n in t ==> n in info && IsLatest(seen, n, first + info[n])
  }

  /** The reported time of a node is that of the latest visit to it, counted from the earliest visit to any node. */
  ghost predicate ReportsLatest(g: MappingGraph, start: nat, t: Times, info: Times) {
    exists k: nat, first ::
      After(g, Beginning(start), k).queue == [] && LatestFrom(Seen(g, start, k), t, info, first)
  }

  lemma KeptIsLatest(seen: set<Visit>, given: Times, info: Times, offset: int, n: nat)
    requires Keeps(seen, given, info, offset) && n in info && n !in given
    ensures IsLatest(seen, n, info[n])
  {
    assert WasVisited(seen, given, info, n);
    forall v | v in seen && v.node == n
      ensures v.time <= info[n]
    {
      assert WasKept(seen, given, info, offset, v);
    }
  }

  lemma KeptIsEarliest(seen: set<Visit>, given: Times, info: Times, offset: int, start: nat)
    requires Keeps(seen, given, info, offset) && Visit(start, 0, true) in seen
    ensures IsEarliest(seen, offset)
  {
    forall v | v in seen
      ensures offset <= v.time
    {
      assert WasKept(seen, given, info, offset, v);
    }
    assert HasVisit(seen, start, 0);
  }

  lemma ShiftedIsLatest(seen: set<Visit>, t: Times, info: Times, offset: int, info': Times)
    requires IsEarliest(seen, offset) && forall n :: n in t ==> n in info && IsLatest(seen, n, info[n])
    requires forall n :: n in t ==> n in info' && info'[n] == info[n] - offset
    ensures LatestFrom(seen, t, info', offset)
  {
    forall n | n in t
      ensures IsLatest(seen, n, offset + info'[n])
    {
      assert offset + info'[n] == info[n];
    }
  }

  lemma KeptIsReported(seen: set<Visit>, start: nat, t: Times, given: Times, info: Times, offset: int, info': Times)
    requires Keeps(seen, given, info, offset) && Visit(start, 0, true) in seen
    requires t.Keys <= info.Keys && given.Keys !! t.Keys
    requires forall n :: n in t ==> n in info' && info'[n] == info[n] - offset
    ensures LatestFrom(seen, t, info', offset)
  {
    forall n | n in t
      ensures IsLatest(seen, n, info[n])
    {
      KeptIsLatest(seen, given, info, offset, n);
    }
    KeptIsEarliest(seen, given, info, offset, start);
    ShiftedIsLatest(seen, t, info, offset, info');
  }

  lemma LatestIsReported(g: MappingGraph, start: nat, t: Times, k: nat, given: Times, info: Times, offset: int,
                         info': Times)
    requires After(g, Beginning(start), k).queue == [] && Keeps(Seen(g, start, k), given, info, offset)
    requires info.Keys == given.Keys + t.Keys && given.Keys !! t.Keys && info'.Keys == info.Keys
    requires forall n :: n in info ==> info'[n] == if n in t && offset < 0 then info[n] - offset else info[n]
    ensures ReportsLatest(g, start, t, info')
  {
    StartIsSeen(g, start, k);
    KeptIsReported(Seen(g, start, k), start, t, given, info, offset, info');
  }

  lemma {:induction false} StartIsSeen(g: MappingGraph, start: nat, k: nat)
    requires k > 0
    ensures Visit(start, 0, true) in Seen(g, start, k)
  {
    if k == 1 {
      assert After(g, Beginning(start), 0).queue == [Visit(start, 0, true)];
    } else {
      StartIsSeen(g, start, k - 1);
    }
  }

  // What the loop of the search keeps.
  ghost predicate Sweeping(g: MappingGraph, ii: nat, start: nat, info: Times, given: Findings, s: Search, f: Findings) {
    && Searching(g, s.latencies, start, s.toVisit, s.offset)
    && Judged(g, ii, s.latencies, s.toVisit, f, given)
    && Told(g, s.latencies, start, info, s.info, s.offset)
  }

  // The search is where k rounds take it.
  ghost predicate IsAt(g: MappingGraph, start: nat, given: Findings, s: Search, f: Findings, k: nat) {
    var r := After(g, Beginning(start), k);
    s.latencies == r.times && s.toVisit == r.queue && f.check0Cycle == given.check0Cycle + r.again
  }

  lemma OneMoreRound(g: MappingGraph, start: nat, given: Findings, s: Search, f: Findings, s': Search, f': Findings,
                     k: nat)
    requires IsAt(g, start, given, s, f, k)
    requires Advances(g, s.latencies, s.toVisit, s'.latencies, s'.toVisit, f.check0Cycle, f'.check0Cycle)
    ensures IsAt(g, start, given, s', f', k + 1)
  {
    var r := After(g, Beginning(start), k);
    var again := OneVisit(g, Progress(r.times, r.queue, {})).again;
    assert OneVisit(g, r).again == r.again + again;
  }

  /** Takes one visit from the queue. */
  method VisitNext(g: MappingGraph, ii: nat, start: nat, ghost info: Times, ghost given: Findings, s: Search,
                   f: Findings)
    returns (s': Search, f': Findings)
    requires Mirrored(g) && start !in info && ClosedSet(g, info.Keys)
    requires s.toVisit != [] && Sweeping(g, ii, start, info, given, s, f)
    ensures Sweeping(g, ii, start, info, given, s', f')
    ensures (s'.latencies == s.latencies && |s'.toVisit| < |s.toVisit|) ||
            g.nodes - s'.latencies.Keys < g.nodes - s.latencies.Keys
    ensures Advances(g, s.latencies, s.toVisit, s'.latencies, s'.toVisit, f.check0Cycle, f'.check0Cycle)
    ensures s'.info == Latest(s.info, s.toVisit[0]) && s'.offset == Earliest(s.toVisit[0], s.offset)
    ensures s.toVisit[0].node in s'.latencies
  {
    var v := s.toVisit[0];
    StepOn(g, s.latencies, start, s.toVisit, info, s.info, s.offset);
    var offset := if v.time < s.offset then v.time else s.offset;
    var info' := Report(s.info, v);
    s', f' := Settle(g, ii, start, s.toVisit, v, Search(s.latencies, s.toVisit[1..], offset, info'), f, given);
    assert v.node in g.nodes - s.latencies.Keys || v.node in s.latencies;
  }

  // After so many rounds, with these visits made.
  ghost predicate Running(g: MappingGraph, start: nat, info: Times, given: Findings, s: Search, f: Findings, k: nat,
                          seen: set<Visit>) {
    IsAt(g, start, given, s, f, k) && seen == Seen(g, start, k) && Keeps(seen, info, s.info, s.offset)
  }

  method Round(g: MappingGraph, ii: nat, start: nat, ghost info: Times, ghost given: Findings, s: Search, f: Findings,
               ghost k: nat, ghost seen: set<Visit>)
    returns (s': Search, f': Findings, ghost seen': set<Visit>)
    requires Mirrored(g) && start !in info && ClosedSet(g, info.Keys)
    requires s.toVisit != [] && Sweeping(g, ii, start, info, given, s, f) && Running(g, start, info, given, s, f, k, seen)
    ensures Sweeping(g, ii, start, info, given, s', f') && Running(g, start, info, given, s', f', k + 1, seen')
    ensures (s'.latencies == s.latencies && |s'.toVisit| < |s.toVisit|) ||
            g.nodes - s'.latencies.Keys < g.nodes - s.latencies.Keys
  {
    s', f' := VisitNext(g, ii, start, info, given, s, f);
    OneMoreRound(g, start, given, s, f, s', f', k);
    KeepsOn(seen, info, s.info, s.offset, s.toVisit[0]);
    seen' := seen + {s.toVisit[0]};
  }

  lemma NoLoopWithoutTimes(g: MappingGraph)
    ensures forall c :: !TightLoop(g, map[], c)
  {
    forall c
      ensures !TightLoop(g, map[], c)
    {
      assert c != [] ==> !TightLink(g, map[], c, 0);
    }
  }

  /** The loop of the search, from start until nothing is left to visit. */
  method Sweep(g: MappingGraph, ii: nat, info: Times, start: nat, given: Findings)
    returns (s: Search, f: Findings, ghost rounds: nat, ghost seen: set<Visit>)
    requires Mirrored(g) && start in g.nodes
    requires start !in info && ClosedSet(g, info.Keys) && given.balanced
    ensures Sweeping(g, ii, start, info, given, s, f) && s.toVisit == []
    ensures Running(g, start, info, given, s, f, rounds, seen)
  {
    f, rounds, seen := given, 0, {};
    s := Search(map[], [Visit(start, 0, true)], 0, info);
    NoLoopWithoutTimes(g);
    while s.toVisit != []
      invariant Sweeping(g, ii, start, info, given, s, f)
      invariant Running(g, start, info, given, s, f, rounds, seen)
      decreases g.nodes - s.latencies.Keys, |s.toVisit|
    {
      s, f, seen := Round(g, ii, start, info, given, s, f, rounds, seen);
      rounds := rounds + 1;
    }
  }

  /** One pass over the component of start: it is visited as a whole, its times
      are 0 at start and spread by links they make tight, and the verdict, the
      nodes to check for cycles, and the reported times are exactly those that
      the times imply. */
  method LatencyCheckBFS(g: MappingGraph, ii: nat, info: Times, start: nat, checkCycle: set<nat>, check0Cycle: set<nat>)
    returns (balanced: bool, info': Times, checkCycle': set<nat>, check0Cycle': set<nat>, ghost t: Times,
             ghost again: set<nat>)
    requires Mirrored(g) && start in g.nodes
    requires start !in info && ClosedSet(g, info.Keys)
    ensures start in t && t[start] == 0 && ClosedSet(g, t.Keys) && Spanned(g, t, start)
    ensures balanced <==> Balanced(g, ii, t)
    ensures checkCycle' == checkCycle + FlaggedNodes(g, ii, t)
    ensures Finds(g, start, t, again) && again <= t.Keys && check0Cycle' == check0Cycle + again
    ensures forall c :: TightLoop(g, t, c) ==> exists n :: n in c && n in check0Cycle'
    ensures info.Keys !! t.Keys && info'.Keys == info.Keys + t.Keys
    ensures forall n :: n in info ==> info'[n] == info[n]
    ensures forall n :: n in t ==> info'[n] >= 0
    ensures AllTight(g, t) ==> Aligned(t, info')
    ensures balanced ==> Moved(ii, t, info')
    ensures ReportsLatest(g, start, t, info')
  {
    var given := Findings(true, checkCycle, check0Cycle);
    var s, f;
    ghost var rounds, seen;
    s, f, rounds, seen := Sweep(g, ii, info, start, given);
    again := After(g, Beginning(start), rounds).again;
    AgainIsTimed(g, Beginning(start), rounds);
    FindingsAreExact(g, ii, s.latencies, f, given);
    info' := Normalize(s.info, s.latencies, s.offset);
    NormalizedTimes(g, ii, s.latencies, start, info, s.info, s.offset, info');
    LatestIsReported(g, start, s.latencies, rounds, info, s.info, s.offset, info');
    t, balanced, checkCycle', check0Cycle' := s.latencies, f.balanced, f.checkCycle, f.check0Cycle;
  }

  // What the search finds, whatever it is compared with.

  // What every visit keeps. Without an interval, and with links allowed to be off, to be covered is to be
  // timed or queued.
  ghost predicate InProgress(g: MappingGraph, start: nat, r: Progress) {
    exists offset :: Searching(g, r.times, start, r.queue, offset) && Covered(g, 0, r.times, Open(r.queue), false, {})
  }

  lemma VisitGoesOn(g: MappingGraph, start: nat, r: Progress)
    requires Mirrored(g) && r.queue != [] && InProgress(g, start, r)
    ensures InProgress(g, start, OneVisit(g, r))
  {
    var offset :| Searching(g, r.times, start, r.queue, offset) && Covered(g, 0, r.times, Open(r.queue), false, {});
    var v, r' := r.queue[0], OneVisit(g, r);
    var offset' := Earliest(v, offset);
    JustifiedHead(g, r.times, start, r.queue);
    SearchOn(g, r.times, r'.times, start, r.queue, offset, offset');
    if v.node !in r.times {
      PushedCovers(g, 0, r'.times, start, v.node, r.queue[1..], r'.queue, false, {});
    }
    assert r.queue == [v] + r.queue[1..];
    CoverOn(g, 0, r.times, r'.times, v, Open(r.queue), Open(r'.queue), false, false, {}, {});
    assert Searching(g, r'.times, start, r'.queue, offset');
  }

  lemma {:induction false} SearchGoesOn(g: MappingGraph, start: nat, k: nat)
    requires Mirrored(g) && start in g.nodes
    ensures InProgress(g, start, After(g, Beginning(start), k))
  {
    if k == 0 {
      assert Searching(g, map[], start, [Visit(start, 0, true)], 0);
    } else {
      SearchGoesOn(g, start, k - 1);
      if After(g, Beginning(start), k - 1).queue != [] {
        VisitGoesOn(g, start, After(g, Beginning(start), k - 1));
      }
    }
  }

  /** The search finds a whole component, held together by tight links. */
  lemma FindsComponent(g: MappingGraph, start: nat, t: Times, again: set<nat>)
    requires Mirrored(g) && start in g.nodes && Finds(g, start, t, again)
    ensures start in t && t.Keys <= g.nodes && ClosedSet(g, t.Keys) && Spanned(g, t, start) && again <= t.Keys
  {
    var k: nat :| After(g, Beginning(start), k) == Progress(t, [], again);
    SearchGoesOn(g, start, k);
    AgainIsTimed(g, Beginning(start), k);
    assert Open([]) == {};
    ComponentIsClosed(g, 0, t, false, {});
  }

  lemma {:induction false} SearchEndsAfter(g: MappingGraph, start: nat, r: Progress, k: nat)
    returns (t: Times, again: set<nat>)
    requires Mirrored(g) && start in g.nodes && r == After(g, Beginning(start), k)
    ensures Finds(g, start, t, again)
    decreases g.nodes - r.times.Keys, |r.queue|
  {
    t, again := r.times, r.again;
    if r.queue != [] {
      SearchGoesOn(g, start, k);
      JustifiedHead(g, r.times, start, r.queue);
      assert r.queue[0].node !in r.times ==> r.queue[0].node in g.nodes - r.times.Keys;
      t, again := SearchEndsAfter(g, start, OneVisit(g, r), k + 1);
    }
  }

  /** The search ends on every graph. */
  lemma SearchEnds(g: MappingGraph, start: nat) returns (t: Times, again: set<nat>)
    requires Mirrored(g) && start in g.nodes
    ensures Finds(g, start, t, again)
  {
    t, again := SearchEndsAfter(g, start, Beginning(start), 0);
  }
}

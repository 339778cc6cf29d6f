// Mappings on which latencyCheck does not answer what the latencies say.
module LatencyExamples {
  import opened Wrappers
  import opened Seqs
  import opened MappingGraphs
  import opened PotentialSearch
  import opened CycleSearch
  import opened ZeroCycleSearch
  import opened LatencyCheck

  // One search that reaches everything.

  lemma {:induction false} OneSearchFindsAll(g: MappingGraph, order: seq<nat>, t: Times, again: set<nat>)
    requires order != [] && order[0] in t && Finds(g, order[0], t, again) && forall n :: n in order ==> n in t
    ensures FindsAll(g, order, t, again)
    decreases |order|
  {
    var n := order[|order| - 1];
    var front := order[..|order| - 1];
    assert order == front + [n];
    if |order| == 1 {
      assert FindsAll(g, front, map[], {});
      assert map[] + t == t && {} + again == again;
      assert FindsMore(g, n, map[], {}, t, again);
    } else {
      OneSearchFindsAll(g, front, t, again);
      assert FindsMore(g, n, t, again, t, again);
    }
  }

  // A loop that is reached late.

  // 3 leads to 0 and 4, and 4 to 0, at once; 0 leads to 1 and 2 after two cycles, which lead to each other at once.
  ghost predicate HasLateLoop(g: MappingGraph) {
    && Fanout(g, 3) == [0, 4] && Fanout(g, 4) == [0] && Fanout(g, 0) == [1, 2]
    && Fanout(g, 1) == [2] && Fanout(g, 2) == [1]
    && Fanin(g, 3) == [] && Fanin(g, 4) == [3] && Fanin(g, 0) == [3, 4] && Fanin(g, 1) == [0, 2] && Fanin(g, 2) == [0, 1]
    && Latency(g, 3) == Latency(g, 4) == Latency(g, 1) == Latency(g, 2) == 0 && Latency(g, 0) == 2
  }

  function Late(): MappingGraph {
    MappingGraph({0, 1, 2, 3, 4},
                 map[0 := [1, 2], 1 := [2], 2 := [1], 3 := [0, 4], 4 := [0]],
                 map[0 := [3, 4], 1 := [0, 2], 2 := [0, 1], 3 := [], 4 := [3]],
                 map[0 := 2, 1 := 0, 2 := 0, 3 := 0, 4 := 0])
  }

  const LATE_TIMES: Times := map[3 := 0, 0 := 0, 4 := 0, 1 := 2, 2 := 2]

  lemma FewFanouts(g: MappingGraph, t: Times, n: nat, a: nat, b: nat)
    ensures FanoutVisits(g, t, n, []) == []
    ensures FanoutVisits(g, t, n, [a]) == FanoutVisit(g, t, n, a)
    ensures FanoutVisits(g, t, n, [a, b]) == FanoutVisit(g, t, n, a) + FanoutVisit(g, t, n, b)
  {
    assert [a, b][..1] == [a] && [a][..0] == [];
    assert FanoutVisits(g, t, n, [a]) == FanoutVisits(g, t, n, []) + FanoutVisit(g, t, n, a);
  }

  lemma FewFanins(g: MappingGraph, t: Times, n: nat, a: nat, b: nat)
    ensures FaninVisits(g, t, n, []) == []
    ensures FaninVisits(g, t, n, [a]) == FaninVisit(g, t, n, a)
    ensures FaninVisits(g, t, n, [a, b]) == FaninVisit(g, t, n, a) + FaninVisit(g, t, n, b)
  {
    assert [a, b][..1] == [a] && [a][..0] == [];
    assert FaninVisits(g, t, n, [a]) == FaninVisits(g, t, n, []) + FaninVisit(g, t, n, a);
  }

  // The visits of the search from 3, one by one.
  function LateTimes(k: nat): Times {
    if k == 0 then map[]
    else if k == 1 then map[3 := 0]
    else if k == 2 then map[3 := 0, 0 := 0]
    else if k == 3 then map[3 := 0, 0 := 0, 4 := 0]
    else if k == 4 then map[3 := 0, 0 := 0, 4 := 0, 1 := 2]
    else LATE_TIMES
  }

  function LateQueue(k: nat): seq<Visit> {
    if k == 0 then [Visit(3, 0, true)]
    else if k == 1 then [Visit(0, 0, true), Visit(4, 0, true)]
    else if k == 2 then [Visit(4, 0, true), Visit(1, 2, true), Visit(2, 2, true), Visit(4, 0, false)]
    else if k == 3 then [Visit(1, 2, true), Visit(2, 2, true), Visit(4, 0, false)]
    else if k == 4 then [Visit(2, 2, true), Visit(4, 0, false), Visit(2, 2, true), Visit(2, 2, false)]
    else [Visit(4, 0, false), Visit(2, 2, true), Visit(2, 2, false)]
  }

  function LateProgress(k: nat): Progress {
    Progress(LateTimes(k), LateQueue(k), {})
  }

  lemma NewVisit(g: MappingGraph, r: Progress, t: Times, queue: seq<Visit>)
    requires r.queue != [] && r.queue[0].node !in r.times && t == r.times[r.queue[0].node := r.queue[0].time]
    requires var n := r.queue[0].node;
             queue == r.queue[1..] + FanoutVisits(g, t, n, Fanout(g, n)) + FaninVisits(g, t, n, Fanin(g, n))
    ensures OneVisit(g, r) == Progress(t, queue, r.again)
  {
  }

  lemma FirstVisits(g: MappingGraph)
    requires HasLateLoop(g)
    ensures OneVisit(g, LateProgress(0)) == LateProgress(1) && OneVisit(g, LateProgress(1)) == LateProgress(2)
  {
    FewFanouts(g, LateTimes(1), 3, 0, 4);
    FewFanins(g, LateTimes(1), 3, 0, 0);
    NewVisit(g, LateProgress(0), LateTimes(1), LateQueue(1));
    FewFanouts(g, LateTimes(2), 0, 1, 2);
    FewFanins(g, LateTimes(2), 0, 3, 4);
    NewVisit(g, LateProgress(1), LateTimes(2), LateQueue(2));
  }

  lemma VisitFour(g: MappingGraph)
    requires HasLateLoop(g)
    ensures OneVisit(g, LateProgress(2)) == LateProgress(3)
  {
    FewFanouts(g, LateTimes(3), 4, 0, 0);
    FewFanins(g, LateTimes(3), 4, 3, 0);
    NewVisit(g, LateProgress(2), LateTimes(3), LateQueue(3));
  }

  lemma VisitOne(g: MappingGraph)
    requires HasLateLoop(g)
    ensures OneVisit(g, LateProgress(3)) == LateProgress(4)
  {
    FewFanouts(g, LateTimes(4), 1, 2, 0);
    FewFanins(g, LateTimes(4), 1, 0, 2);
    NewVisit(g, LateProgress(3), LateTimes(4), LateQueue(4));
  }

  lemma VisitTwo(g: MappingGraph)
    requires HasLateLoop(g)
    ensures OneVisit(g, LateProgress(4)) == LateProgress(5)
  {
    FewFanouts(g, LateTimes(5), 2, 1, 0);
    FewFanins(g, LateTimes(5), 2, 0, 1);
    NewVisit(g, LateProgress(4), LateTimes(5), LateQueue(5));
  }

  lemma {:induction false} LateVisits(g: MappingGraph, k: nat)
    requires HasLateLoop(g) && k <= 5
    ensures After(g, Beginning(3), k) == LateProgress(k)
  {
    if k > 0 {
      LateVisits(g, k - 1);
      FirstVisits(g);
      VisitFour(g);
      VisitOne(g);
      VisitTwo(g);
      assert k == 1 || k == 2 || k == 3 || k == 4 || k == 5;
    }
  }

  lemma VisitsAgain(g: MappingGraph)
    ensures OneVisit(g, LateProgress(5)) == Progress(LATE_TIMES, [Visit(2, 2, true), Visit(2, 2, false)], {4})
    ensures OneVisit(g, Progress(LATE_TIMES, [Visit(2, 2, true), Visit(2, 2, false)], {4})) ==
            Progress(LATE_TIMES, [Visit(2, 2, false)], {2, 4})
    ensures OneVisit(g, Progress(LATE_TIMES, [Visit(2, 2, false)], {2, 4})) == Progress(LATE_TIMES, [], {2, 4})
  {
  }

  /** The candidates of the search are 2 and 4. */
  lemma LateCandidates(g: MappingGraph)
    requires HasLateLoop(g)
    ensures Finds(g, 3, LATE_TIMES, {2, 4})
  {
    LateVisits(g, 5);
    VisitsAgain(g);
    assert After(g, Beginning(3), 6) == OneVisit(g, LateProgress(5));
    assert After(g, Beginning(3), 7) == Progress(LATE_TIMES, [Visit(2, 2, false)], {2, 4});
    assert After(g, Beginning(3), 8) == Progress(LATE_TIMES, [], {2, 4});
  }

  /** There is such a mapping. */
  lemma LateIsMirrored()
    ensures Mirrored(Late()) && HasLateLoop(Late()) && Late().nodes == {0, 1, 2, 3, 4}
  {
    var g := Late();
    forall n | n in g.nodes
      ensures Recorded(g, n)
    {
    }
  }

  lemma LateIsTight(g: MappingGraph)
    requires HasLateLoop(g)
    ensures AllTight(g, LATE_TIMES)
  {
  }

  lemma TightIsExplained(g: MappingGraph, ii: nat, t: Times)
    requires AllTight(g, t)
    ensures Explained(g, ii, t)
  {
  }

  // Every run searches from 3 first, and finds everything.
  lemma LateFindsAll(g: MappingGraph, listed: seq<nat>)
    requires HasLateLoop(g) && forall n :: n in listed <==> n in {0, 1, 2, 3, 4}
    ensures FindsAll(g, SearchOrder(g, listed), LATE_TIMES, {2, 4})
  {
    var order := SearchOrder(g, listed);
    FaninlessFirst(g, listed);
    assert 3 in order;
    var j :| 0 <= j < |order| && order[j] == 3;
    assert order[0] in order && (j > 0 ==> Fanin(g, order[0]) == []);
    assert order[0] == 3;
    LateCandidates(g);
    OneSearchFindsAll(g, order, LATE_TIMES, {2, 4});
  }

  lemma SearchFromFour(g: MappingGraph, left: set<nat>, fuel: nat)
    requires HasLateLoop(g) && fuel >= 3
    ensures Search0(g, 1, 4, Children(g, State(4, 0)), left, fuel) == Outcome(Some(true), left - {0, 1, 2})
  {
    var first, late, last := [State(0, 0)], [State(1, 2), State(2, 2)], [State(2, 2)];
    assert Children(g, State(4, 0)) == first && Children(g, first[0]) == late;
    assert Rest(g, 1, 4, first) == late && Rest(g, 1, 4, late) == last && Rest(g, 1, 4, last) == [];
    OneRound(g, 1, 4, first, left, fuel, late, left - {0});
    OneRound(g, 1, 4, late, left - {0}, fuel - 1, last, left - {0, 1});
    OneRound(g, 1, 4, last, left - {0, 1}, fuel - 2, [], left - {0, 1, 2});
  }

  lemma SearchFromTwo(g: MappingGraph, left: set<nat>, fuel: nat)
    requires HasLateLoop(g) && fuel >= 3
    ensures Search0(g, 1, 2, Children(g, State(2, 0)), left, fuel) == Outcome(Some(false), left - {1, 2})
  {
    var first, back := [State(1, 0)], [State(2, 0)];
    assert Children(g, State(2, 0)) == first && Children(g, first[0]) == back;
    assert Rest(g, 1, 2, first) == back;
    OneRound(g, 1, 2, first, left, fuel, back, left - {1});
    assert left - {1} - {2} == left - {1, 2};
  }

  lemma StagesDiffer(g: MappingGraph, fuel: nat)
    requires HasLateLoop(g) && fuel >= 3
    ensures Stage(g, 1, [4, 2], {2, 4}, fuel) == Some(true)
    ensures Stage(g, 1, [2, 4], {2, 4}, fuel) == Some(false)
  {
    SearchFromFour(g, {2, 4}, fuel);
    SearchFromTwo(g, {2, 4}, fuel);
    SearchFromFour(g, {2, 4} - {1, 2}, fuel);
    assert [4, 2][1..] == [2] && [2, 4][1..] == [4] && [2][1..] == [] && [4][1..] == [];
    assert Stage(g, 1, [2], {2, 4} - {0, 1, 2}, fuel) == Some(true);
    assert Stage(g, 1, [4], {2, 4} - {1, 2}, fuel) == Some(true);
  }

  lemma LoopOfTwo(g: MappingGraph)
    requires HasLateLoop(g) && 1 in g.nodes
    ensures ZeroLoop(g, [1, 2, 1])
  {
    ZeroPath(g, [1, 2, 1]);
  }

  lemma TwoOrders(order: seq<nat>)
    requires ListsOnce(order, {2, 4})
    ensures order == [2, 4] || order == [4, 2]
  {
    NoDupBound(order, {2, 4});
    assert 2 in order && 4 in order;
    var i :| 0 <= i < |order| && order[i] == 2;
    var j :| 0 <= j < |order| && order[j] == 4;
    assert i != j && |order| == 2;
  }

  lemma RunsOnLate(g: MappingGraph, listed: seq<nat>, arrange: set<nat> -> seq<nat>, fuel: nat)
    requires HasLateLoop(g) && Explained(g, 1, LATE_TIMES) && Arranges(arrange) && fuel >= 3
    requires forall n :: n in listed <==> n in {0, 1, 2, 3, 4}
    ensures Runs(g, 1, listed, arrange, fuel, Some(arrange({2, 4}) == [4, 2]))
  {
    LateFindsAll(g, listed);
    StagesDiffer(g, fuel);
    assert ListsOnce(arrange({2, 4}), {2, 4});
    TwoOrders(arrange({2, 4}));
    assert Verdict(g, 1, LATE_TIMES, arrange({2, 4}), {2, 4}, fuel) == Some(arrange({2, 4}) == [4, 2]);
  }

  /** The nodes 1 and 2 are on a loop without latency, and the verdict depends on the traversal of the candidates
      2 and 4. Searched from 4 first, the loop is struck out without having been followed, and
      the mapping is accepted; searched from 2 first, it is rejected. */
  lemma LateLoopIsMissed(g: MappingGraph, listed: seq<nat>, arrange: set<nat> -> seq<nat>, fuel: nat)
    requires HasLateLoop(g) && g.nodes == {0, 1, 2, 3, 4} && fuel >= 3
    requires (forall n :: n in listed <==> n in g.nodes) && Arranges(arrange)
    ensures ZeroLoop(g, [1, 2, 1])
    ensures Runs(g, 1, listed, arrange, fuel, Some(arrange({2, 4}) == [4, 2]))
  {
    LoopOfTwo(g);
    LateIsTight(g);
    TightIsExplained(g, 1, LATE_TIMES);
    RunsOnLate(g, listed, arrange, fuel);
  }

  // A node that drives itself.

  function SelfLoop(): MappingGraph {
    MappingGraph({0}, map[0 := [0]], map[0 := [0]], map[0 := 0])
  }

  /** A node that drives itself at once is a loop without latency that every run accepts. */
  lemma SelfLoopIsMissed(ii: nat, arrange: set<nat> -> seq<nat>, fuel: nat)
    requires Arranges(arrange)
    ensures Mirrored(SelfLoop()) && ZeroLoop(SelfLoop(), [0, 0])
    ensures Runs(SelfLoop(), ii, [0], arrange, fuel, Some(true))
  {
    var g := SelfLoop();
    var t: Times := map[0 := 0];
    assert Recorded(g, 0);
    ZeroPath(g, [0, 0]);
    FewFanouts(g, t, 0, 0, 0);
    FewFanins(g, t, 0, 0, 0);
    assert After(g, Beginning(0), 0) == Beginning(0) && Timed(map[], Visit(0, 0, true)) == t;
    assert After(g, Beginning(0), 1) == Progress(t, [], {});
    assert [0][..0] == [] && SearchOrder(g, [0]) == [0];
    OneSearchFindsAll(g, [0], t, {});
    TightIsExplained(g, ii, t);
    assert ListsOnce(arrange({}), {});
    NoDupBound(arrange({}), {});
    assert Verdict(g, ii, t, arrange({}), {}, fuel) == Some(true);
  }

  // Times that no search computes.

  // 0 leads to 1 and 2, and both to 3, which is on a loop of one cycle with 4; the way through 1 takes two cycles.
  ghost predicate HasTwoWays(g: MappingGraph) {
    && g.nodes == {0, 1, 2, 3, 4}
    && Fanout(g, 0) == [1, 2] && Fanout(g, 1) == [3] && Fanout(g, 2) == [3] && Fanout(g, 3) == [4] && Fanout(g, 4) == [3]
    && Latency(g, 0) == Latency(g, 2) == Latency(g, 4) == 0 && Latency(g, 1) == 2 && Latency(g, 3) == 1
  }

  function TwoWays(): MappingGraph {
    MappingGraph({0, 1, 2, 3, 4},
                 map[0 := [1, 2], 1 := [3], 2 := [3], 3 := [4], 4 := [3]],
                 map[0 := [], 1 := [0], 2 := [0], 3 := [1, 2, 4], 4 := [3]],
                 map[0 := 0, 1 := 2, 2 := 0, 3 := 1, 4 := 0])
  }

  const HALFWAY_TIMES: Times := map[0 := 0, 1 := 0, 2 := 0, 3 := 1, 4 := 2]

  lemma TwoWaysIsMirrored()
    ensures Mirrored(TwoWays()) && HasTwoWays(TwoWays())
  {
    var g := TwoWays();
    forall n | n in g.nodes
      ensures Recorded(g, n)
    {
    }
  }

  // As a link leads from n out of the set, some link that leads out or in is tight.
  lemma TightCrossing(g: MappingGraph, t: Times, x: set<nat>, n: nat, m: nat) returns (u: nat, v: nat)
    requires Timing(g, t) && x <= g.nodes && n in x && m in Fanout(g, n) && m !in x
    ensures u in g.nodes && v in Fanout(g, u) && Slack(g, t, u, v) == 0 && !(u in x <==> v in x)
  {
    assert !ClosedSet(g, x);
    assert !TightClosed(g, t, x);
    u, v :| u in t && v in t && v in Fanout(g, u) && Slack(g, t, u, v) == 0 && !(u in x <==> v in x);
  }

  // Of any two of the links between 0, 1, 2 and 3 one is tight: they part a set of nodes from the others.
  lemma CutsAtEnds(g: MappingGraph, t: Times)
    requires HasTwoWays(g) && Timing(g, t)
    ensures Slack(g, t, 0, 1) == 0 || Slack(g, t, 0, 2) == 0
    ensures Slack(g, t, 1, 3) == 0 || Slack(g, t, 2, 3) == 0
  {
    var u, v := TightCrossing(g, t, {0}, 0, 1);
    var u', v' := TightCrossing(g, t, {0, 1, 2}, 1, 3);
  }

  lemma CutsBetween(g: MappingGraph, t: Times)
    requires HasTwoWays(g) && Timing(g, t)
    ensures Slack(g, t, 0, 1) == 0 || Slack(g, t, 1, 3) == 0
    ensures Slack(g, t, 0, 2) == 0 || Slack(g, t, 2, 3) == 0
  {
    var u, v := TightCrossing(g, t, {1}, 1, 3);
    var u', v' := TightCrossing(g, t, {2}, 2, 3);
  }

  lemma CutsAcross(g: MappingGraph, t: Times)
    requires HasTwoWays(g) && Timing(g, t)
    ensures Slack(g, t, 0, 2) == 0 || Slack(g, t, 1, 3) == 0
    ensures Slack(g, t, 0, 1) == 0 || Slack(g, t, 2, 3) == 0
  {
    var u, v := TightCrossing(g, t, {0, 1}, 0, 2);
    var u', v' := TightCrossing(g, t, {0, 2}, 0, 1);
  }

  /** Three of the four links are tight, so the fourth is off by two cycles. */
  lemma NoTimingBalances(g: MappingGraph, t: Times)
    requires HasTwoWays(g) && Timing(g, t)
    ensures !Balanced(g, 1, t)
  {
    CutsAtEnds(g, t);
    CutsBetween(g, t);
    CutsAcross(g, t);
    assert 1 in Fanout(g, 0) && 2 in Fanout(g, 0) && 3 in Fanout(g, 1) && 3 in Fanout(g, 2);
    var a, b := Slack(g, t, 0, 1), Slack(g, t, 0, 2);
    var c, d := Slack(g, t, 1, 3), Slack(g, t, 2, 3);
    assert a - b + c - d == 2;
    assert !(Fits(1, a) && Fits(1, b) && Fits(1, c) && Fits(1, d));
  }

  // The only way back to 3 leads through 4, and takes one cycle.
  lemma ReturnOfThree(g: MappingGraph)
    requires HasTwoWays(g)
    ensures ReturnsOnTime(g, 1, 3)
  {
    var w := [3, 4, 3];
    assert w[..2] == [3, 4] && w[..2][..1] == [3];
    assert PathLatency(g, [3]) == 0 && PathLatency(g, [3, 4]) == 1 && PathLatency(g, w) == 1;
    assert Probe(g, 1, 3, [3, 4]);
    assert FirstReturn(g, 1, 3, w);
    forall r | FirstReturn(g, 1, 3, r)
      ensures PathLatency(g, r) == 1
    {
      OnlyReturn(g, r);
    }
  }

  lemma OnlyReturn(g: MappingGraph, r: seq<nat>)
    requires HasTwoWays(g) && FirstReturn(g, 1, 3, r)
    ensures r == [3, 4, 3] && PathLatency(g, [3, 4, 3]) == 1
  {
    ProbeHead(g, 1, 3, r);
    assert r[1] == 4;
    assert [3, 4, 3][..2] == [3, 4] && [3, 4][..1] == [3];
    if |r| > 2 {
      ProbeOn(g, 1, 3, r, 1);
      assert StateAt(g, r, 2).node == 3;
    }
    if |r| > 3 {
      ProbeOn(g, 1, 3, r, 2);
    }
  }

  lemma HalfwayBalances(g: MappingGraph)
    requires HasTwoWays(g)
    ensures Balanced(g, 1, HALFWAY_TIMES)
    ensures forall v :: v in HALFWAY_TIMES && Flagged(g, 1, HALFWAY_TIMES, v) ==> v == 3
  {
  }

  /** There are times that explain all latencies, but none that a search computes do: every run rejects or does
      not end. */
  lemma ExplainedIsRejected(listed: seq<nat>, arrange: set<nat> -> seq<nat>, fuel: nat)
    requires forall n :: n in listed <==> n in TwoWays().nodes
    ensures Mirrored(TwoWays()) && HALFWAY_TIMES.Keys == TwoWays().nodes && Explained(TwoWays(), 1, HALFWAY_TIMES)
    ensures !Runs(TwoWays(), 1, listed, arrange, fuel, Some(true))
  {
    var g := TwoWays();
    TwoWaysIsMirrored();
    HalfwayBalances(g);
    ReturnOfThree(g);
    forall t | Timing(g, t)
      ensures !Explained(g, 1, t)
    {
      NoTimingBalances(g, t);
    }
    NoRunAccepts(g, 1, listed, arrange, fuel);
  }
}

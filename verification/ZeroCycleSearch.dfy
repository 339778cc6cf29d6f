// The search of latencyCheck0Cycle: is there a way back to a node that takes no
// time? It keeps no record of where it has been, and need not end.
module ZeroCycleSearch {
  import opened Wrappers
  import opened Seqs
  import opened MappingGraphs
  import opened CycleSearch

  // The verdict, if there is one yet, and the nodes that are still to be searched from.
  datatype Outcome = Outcome(verdict: Option<bool>, left: set<nat>)

  predicate GoesOn(ii: nat, start: nat, s: State) {
    s.node != start && s.latency <= ii
  }

  function Children(g: MappingGraph, s: State): (r: seq<State>)
    ensures |r| == |Fanout(g, s.node)|
    ensures forall c :: c in r <==> c.node in Fanout(g, s.node) && c.latency == s.latency + Latency(g, s.node)
  {
    var fanout := Fanout(g, s.node);
    var r := seq(|fanout|, i requires 0 <= i < |fanout| => State(fanout[i], s.latency + Latency(g, s.node)));
    assert forall i :: 0 <= i < |fanout| ==> r[i].node == fanout[i];
    r
  }

  /** The queue after its first state has been dealt with. */
  function Rest(g: MappingGraph, ii: nat, start: nat, queue: seq<State>): seq<State>
    requires queue != []
  {
    queue[1..] + if GoesOn(ii, start, queue[0]) then Children(g, queue[0]) else []
  }

  /** At most fuel rounds of the loop. */
  function Search0(g: MappingGraph, ii: nat, start: nat, queue: seq<State>, left: set<nat>, fuel: nat): Outcome
    decreases fuel
  {
    if queue == [] then Outcome(Some(true), left)
    else if fuel == 0 then Outcome(None, left)
    else if queue[0] == State(start, 0) then Outcome(Some(false), left - {start})
    else Search0(g, ii, start, Rest(g, ii, start, queue), left - {queue[0].node}, fuel - 1)
  }

  method LatencyCheck0Cycle(g: MappingGraph, ii: nat, start: nat, left: set<nat>, fuel: nat)
    returns (verdict: Option<bool>, left': set<nat>)
    requires Mirrored(g) && start in g.nodes
    ensures Outcome(verdict, left') == Search0(g, ii, start, Children(g, State(start, 0)), left, fuel)
  {
    left' := left;
    var toVisit := PushChildren(g, State(start, 0), []);
    var rounds: nat := fuel;
    assert toVisit == Children(g, State(start, 0));
    while toVisit != [] && rounds > 0
      invariant rounds <= fuel
      invariant Search0(g, ii, start, toVisit, left', rounds) ==
                Search0(g, ii, start, Children(g, State(start, 0)), left, fuel)
      decreases rounds
    {
      var current := toVisit[0];
      toVisit := toVisit[1..];
      rounds := rounds - 1;
      left' := left' - {current.node};
      if current.node == start {
        if current.latency == 0 {
          return Some(false), left';
        }
        assert toVisit + [] == toVisit;
      } else if current.latency <= ii {
        toVisit := PushChildren(g, current, toVisit);
      } else {
        assert toVisit + [] == toVisit;
      }
    }
    verdict := if toVisit == [] then Some(true) else None;
  }

  method PushChildren(g: MappingGraph, current: State, toVisit: seq<State>) returns (toVisit': seq<State>)
    ensures toVisit' == toVisit + Children(g, current)
  {
    toVisit' := toVisit;
    var fanout := Fanout(g, current.node);
    for i := 0 to |fanout|
      invariant toVisit' == toVisit + Children(g, current)[..i]
    {
      assert Children(g, current)[..i + 1] == Children(g, current)[..i] + [Children(g, current)[i]];
      toVisit' := toVisit' + [State(fanout[i], current.latency + Latency(g, current.node))];
    }
    assert Children(g, current)[..|fanout|] == Children(g, current);
  }

  /** The search from start comes to the verdict, given rounds enough. */
  ghost predicate EndsWith(g: MappingGraph, ii: nat, start: nat, queue: seq<State>, left: set<nat>, verdict: bool) {
    exists fuel: nat :: Search0(g, ii, start, queue, left, fuel).verdict == Some(verdict)
  }

  lemma {:induction false} MoreFuel(g: MappingGraph, ii: nat, start: nat, queue: seq<State>, left: set<nat>,
                                    fuel: nat, more: nat)
    requires Search0(g, ii, start, queue, left, fuel).verdict.Some? && fuel <= more
    ensures Search0(g, ii, start, queue, left, more) == Search0(g, ii, start, queue, left, fuel)
    decreases fuel
  {
    if queue != [] && fuel > 0 && queue[0] != State(start, 0) {
      MoreFuel(g, ii, start, Rest(g, ii, start, queue), left - {queue[0].node}, fuel - 1, more - 1);
    }
  }

  lemma OneRound(g: MappingGraph, ii: nat, start: nat, queue: seq<State>, left: set<nat>, fuel: nat,
                 rest: seq<State>, left': set<nat>)
    requires queue != [] && fuel > 0 && queue[0] != State(start, 0)
    requires rest == Rest(g, ii, start, queue) && left' == left - {queue[0].node}
    ensures Search0(g, ii, start, queue, left, fuel) == Search0(g, ii, start, rest, left', fuel - 1)
  {
  }

  lemma {:induction false} VerdictIgnoresLeft(g: MappingGraph, ii: nat, start: nat, queue: seq<State>, a: set<nat>,
                                              b: set<nat>, fuel: nat)
    ensures Search0(g, ii, start, queue, a, fuel).verdict == Search0(g, ii, start, queue, b, fuel).verdict
    decreases fuel
  {
    if queue != [] && fuel > 0 && queue[0] != State(start, 0) {
      var n := queue[0].node;
      VerdictIgnoresLeft(g, ii, start, Rest(g, ii, start, queue), a - {n}, b - {n}, fuel - 1);
    }
  }

  lemma OneVerdict(g: MappingGraph, ii: nat, start: nat, queue: seq<State>, left: set<nat>)
    ensures !(EndsWith(g, ii, start, queue, left, true) && EndsWith(g, ii, start, queue, left, false))
  {
    if EndsWith(g, ii, start, queue, left, true) && EndsWith(g, ii, start, queue, left, false) {
      var a: nat :| Search0(g, ii, start, queue, left, a).verdict == Some(true);
      var b: nat :| Search0(g, ii, start, queue, left, b).verdict == Some(false);
      MoreFuel(g, ii, start, queue, left, a, a + b);
      MoreFuel(g, ii, start, queue, left, b, a + b);
    }
  }

  // One more round.
  lemma EndsLater(g: MappingGraph, ii: nat, start: nat, queue: seq<State>, left: set<nat>, verdict: bool)
    requires queue != [] && queue[0] != State(start, 0)
    requires EndsWith(g, ii, start, Rest(g, ii, start, queue), left - {queue[0].node}, verdict)
    ensures EndsWith(g, ii, start, queue, left, verdict)
  {
    var fuel: nat :| Search0(g, ii, start, Rest(g, ii, start, queue), left - {queue[0].node}, fuel).verdict == Some(verdict);
    assert Search0(g, ii, start, queue, left, fuel + 1).verdict == Some(verdict);
  }

  // What the queue holds.

  /** A way back to start without latency. */
  ghost predicate ZeroReturn(g: MappingGraph, ii: nat, start: nat, w: seq<nat>) {
    FirstReturn(g, ii, start, w) && PathLatency(g, w) == 0
  }

  ghost predicate AllReached(g: MappingGraph, ii: nat, start: nat, queue: seq<State>) {
    forall s :: s in queue ==> Reached(g, ii, start, s)
  }

  lemma ChildrenAreReached(g: MappingGraph, ii: nat, start: nat, s: State)
    requires s == State(start, 0) || (Reached(g, ii, start, s) && GoesOn(ii, start, s))
    ensures AllReached(g, ii, start, Children(g, s))
  {
    forall c | c in Children(g, s)
      ensures Reached(g, ii, start, c)
    {
      ReachedNext(g, ii, start, s, c.node);
    }
  }

  lemma RestIsReached(g: MappingGraph, ii: nat, start: nat, queue: seq<State>)
    requires queue != [] && AllReached(g, ii, start, queue)
    ensures AllReached(g, ii, start, Rest(g, ii, start, queue))
  {
    assert queue[0] in queue;
    if GoesOn(ii, start, queue[0]) {
      ChildrenAreReached(g, ii, start, queue[0]);
    }
  }

  ghost predicate ReachedNode(g: MappingGraph, ii: nat, start: nat, n: nat) {
    exists s: State :: s.node == n && Reached(g, ii, start, s)
  }

  /** The search finds a loop only where there is one. */
  lemma {:induction false} OnlyFindsReturns(g: MappingGraph, ii: nat, start: nat, queue: seq<State>, left: set<nat>,
                                            fuel: nat)
    requires AllReached(g, ii, start, queue)
    ensures Search0(g, ii, start, queue, left, fuel).verdict == Some(false) ==> exists w :: ZeroReturn(g, ii, start, w)
    decreases fuel
  {
    if queue != [] && fuel > 0 {
      if queue[0] == State(start, 0) {
        WayBack(g, ii, start, queue[0]);
        var w :| FirstReturn(g, ii, start, w) && PathLatency(g, w) == 0;
        assert ZeroReturn(g, ii, start, w);
      } else {
        RestIsReached(g, ii, start, queue);
        OnlyFindsReturns(g, ii, start, Rest(g, ii, start, queue), left - {queue[0].node}, fuel - 1);
      }
    }
  }

  ghost predicate AllReachedNodes(g: MappingGraph, ii: nat, start: nat, x: set<nat>) {
    forall n :: n in x ==> ReachedNode(g, ii, start, n)
  }

  /** The search strikes out only nodes that it has reached. */
  lemma {:induction false} StrikesOutReached(g: MappingGraph, ii: nat, start: nat, queue: seq<State>, left: set<nat>,
                                             fuel: nat)
    requires AllReached(g, ii, start, queue)
    ensures Search0(g, ii, start, queue, left, fuel).left <= left
    ensures AllReachedNodes(g, ii, start, left - Search0(g, ii, start, queue, left, fuel).left)
    decreases fuel
  {
    if queue != [] && fuel > 0 {
      assert queue[0] in queue && ReachedNode(g, ii, start, queue[0].node);
      if queue[0] != State(start, 0) {
        RestIsReached(g, ii, start, queue);
        StrikesOutReached(g, ii, start, Rest(g, ii, start, queue), left - {queue[0].node}, fuel - 1);
      }
    }
  }

  // Walks whose states go through the queue.

  /** The state of the walk at its k-th node. */
  function StateAt(g: MappingGraph, w: seq<nat>, k: nat): State
    requires k < |w|
  {
    State(w[k], PathLatency(g, w[..k + 1]))
  }

  lemma {:induction false} ProbeOn(g: MappingGraph, ii: nat, start: nat, w: seq<nat>, k: nat)
    requires Probe(g, ii, start, w) && 1 <= k < |w| - 1
    ensures Probe(g, ii, start, w[..k + 1]) && GoesOn(ii, start, StateAt(g, w, k))
    ensures StateAt(g, w, k + 1) in Children(g, StateAt(g, w, k))
    ensures PathLatency(g, w[..k + 1]) <= PathLatency(g, w)
  {
    var init := w[..|w| - 1];
    assert w[..k + 2][..k + 1] == w[..k + 1];
    assert PathLatency(g, w) == PathLatency(g, init) + Latency(g, init[|init| - 1]);
    if k == |w| - 2 {
      assert w[..k + 1] == init && w[..k + 2] == w;
      assert StateAt(g, w, k + 1) == State(w[k + 1], PathLatency(g, init) + Latency(g, w[k]));
    } else {
      assert init[..k + 1] == w[..k + 1] && init[..k + 2] == w[..k + 2];
      ProbeOn(g, ii, start, init, k);
      assert StateAt(g, init, k) == StateAt(g, w, k) && StateAt(g, init, k + 1) == StateAt(g, w, k + 1);
    }
  }

  lemma ProbeStart(g: MappingGraph, ii: nat, start: nat, w: seq<nat>)
    requires Probe(g, ii, start, w)
    ensures |w| >= 2 && StateAt(g, w, 1) in Children(g, State(start, 0))
  {
    ProbeHead(g, ii, start, w);
    assert w[..2][..1] == [start];
    assert PathLatency(g, [start]) == 0;
  }

  lemma {:induction false} ProbeHead(g: MappingGraph, ii: nat, start: nat, w: seq<nat>)
    requires Probe(g, ii, start, w)
    ensures |w| >= 2 && w[0] == start && w[1] in Fanout(g, start)
  {
    if |w| > 2 {
      ProbeHead(g, ii, start, w[..|w| - 1]);
    }
  }

  /** A way back without latency is found, however often other loops are gone round. */
  lemma {:induction false} ReturnIsFound(g: MappingGraph, ii: nat, start: nat, queue: seq<State>, left: set<nat>,
                                         w: seq<nat>, k: nat, pos: nat)
    requires ZeroReturn(g, ii, start, w) && 1 <= k < |w|
    requires pos < |queue| && queue[pos] == StateAt(g, w, k)
    ensures EndsWith(g, ii, start, queue, left, false)
    decreases |w| - k, pos
  {
    if queue[0] == State(start, 0) {
      assert Search0(g, ii, start, queue, left, 1).verdict == Some(false);
    } else {
      var rest := Rest(g, ii, start, queue);
      if pos > 0 {
        assert rest[pos - 1] == StateAt(g, w, k);
        ReturnIsFound(g, ii, start, rest, left - {queue[0].node}, w, k, pos - 1);
      } else {
        assert w[..|w|] == w;
        ProbeOn(g, ii, start, w, k);
        assert StateAt(g, w, k + 1) in rest;
        var next :| 0 <= next < |rest| && rest[next] == StateAt(g, w, k + 1);
        ReturnIsFound(g, ii, start, rest, left - {queue[0].node}, w, k + 1, next);
      }
      EndsLater(g, ii, start, queue, left, false);
    }
  }

  /** A walk out of start that comes back to one of its nodes in no time, and so never ends. */
  ghost predicate Spins(g: MappingGraph, ii: nat, start: nat, w: seq<nat>, i: nat) {
    && Probe(g, ii, start, w) && 1 <= i < |w| - 1
    && StateAt(g, w, i) == StateAt(g, w, |w| - 1) && GoesOn(ii, start, StateAt(g, w, |w| - 1))
  }

  lemma SpinsOn(g: MappingGraph, ii: nat, start: nat, w: seq<nat>, i: nat, k: nat) returns (next: nat)
    requires Spins(g, ii, start, w, i) && 1 <= k < |w|
    ensures 1 <= next < |w| && GoesOn(ii, start, StateAt(g, w, k))
    ensures StateAt(g, w, next) in Children(g, StateAt(g, w, k))
  {
    if k < |w| - 1 {
      ProbeOn(g, ii, start, w, k);
      next := k + 1;
    } else {
      ProbeOn(g, ii, start, w, i);
      next := i + 1;
    }
  }

  lemma {:induction false} SpinIsNeverDone(g: MappingGraph, ii: nat, start: nat, queue: seq<State>, left: set<nat>,
                                           fuel: nat,
                                           w: seq<nat>, i: nat, k: nat)
    requires Spins(g, ii, start, w, i) && 1 <= k < |w| && StateAt(g, w, k) in queue
    ensures Search0(g, ii, start, queue, left, fuel).verdict != Some(true)
    decreases fuel
  {
    if fuel > 0 && queue[0] != State(start, 0) {
      var rest := Rest(g, ii, start, queue);
      var pos :| 0 <= pos < |queue| && queue[pos] == StateAt(g, w, k);
      if pos == 0 {
        var next := SpinsOn(g, ii, start, w, i, k);
        SpinIsNeverDone(g, ii, start, rest, left - {queue[0].node}, fuel - 1, w, i, next);
      } else {
        assert rest[pos - 1] == StateAt(g, w, k);
        SpinIsNeverDone(g, ii, start, rest, left - {queue[0].node}, fuel - 1, w, i, k);
      }
    }
  }

  // When the search ends.

  /** Everything that the search reaches from s it reaches within d steps. */
  ghost predicate Deep(g: MappingGraph, ii: nat, start: nat, s: State, d: nat)
    decreases d
  {
    GoesOn(ii, start, s) ==> d > 0 && forall c :: c in Children(g, s) ==> Deep(g, ii, start, c, d - 1)
  }

  /** The rounds that are spent on s and on what it leads to. */
  function Rounds(g: MappingGraph, ii: nat, start: nat, s: State, d: nat): nat
    decreases d, 0
  {
    1 + if GoesOn(ii, start, s) && d > 0 then RoundsAll(g, ii, start, Children(g, s), d - 1) else 0
  }

  function RoundsAll(g: MappingGraph, ii: nat, start: nat, queue: seq<State>, d: nat): nat
    decreases d, |queue|
  {
    if queue == [] then 0 else Rounds(g, ii, start, queue[0], d) + RoundsAll(g, ii, start, queue[1..], d)
  }

  ghost predicate AllDeep(g: MappingGraph, ii: nat, start: nat, queue: seq<State>, d: nat) {
    forall s :: s in queue ==> Deep(g, ii, start, s, d)
  }

  lemma {:induction false} DeeperRounds(g: MappingGraph, ii: nat, start: nat, s: State, d: nat)
    requires Deep(g, ii, start, s, d)
    ensures Deep(g, ii, start, s, d + 1) && Rounds(g, ii, start, s, d + 1) == Rounds(g, ii, start, s, d)
    decreases d, 0
  {
    if GoesOn(ii, start, s) {
      DeeperRoundsAll(g, ii, start, Children(g, s), d - 1);
    }
  }

  lemma {:induction false} DeeperRoundsAll(g: MappingGraph, ii: nat, start: nat, queue: seq<State>, d: nat)
    requires AllDeep(g, ii, start, queue, d)
    ensures AllDeep(g, ii, start, queue, d + 1)
    ensures RoundsAll(g, ii, start, queue, d + 1) == RoundsAll(g, ii, start, queue, d)
    decreases d, |queue|
  {
    if queue != [] {
      assert queue == [queue[0]] + queue[1..];
      DeeperRounds(g, ii, start, queue[0], d);
      DeeperRoundsAll(g, ii, start, queue[1..], d);
    }
  }

  lemma {:induction false} RoundsOfJoin(g: MappingGraph, ii: nat, start: nat, a: seq<State>, b: seq<State>, d: nat)
    ensures RoundsAll(g, ii, start, a + b, d) == RoundsAll(g, ii, start, a, d) + RoundsAll(g, ii, start, b, d)
    decreases |a|
  {
    if a == [] {
      assert a + b == b;
    } else {
      assert (a + b)[1..] == a[1..] + b;
      RoundsOfJoin(g, ii, start, a[1..], b, d);
    }
  }

  // One round takes one from the number of rounds.
  lemma RestIsDeep(g: MappingGraph, ii: nat, start: nat, queue: seq<State>, d: nat)
    requires queue != [] && AllDeep(g, ii, start, queue, d)
    ensures AllDeep(g, ii, start, Rest(g, ii, start, queue), d)
    ensures RoundsAll(g, ii, start, queue, d) == 1 + RoundsAll(g, ii, start, Rest(g, ii, start, queue), d)
  {
    var s := queue[0];
    assert s in queue;
    if GoesOn(ii, start, s) {
      DeeperRoundsAll(g, ii, start, Children(g, s), d - 1);
      RoundsOfJoin(g, ii, start, queue[1..], Children(g, s), d);
    } else {
      assert Rest(g, ii, start, queue) == queue[1..];
    }
  }

  lemma {:induction false} DeepSearchEnds(g: MappingGraph, ii: nat, start: nat, queue: seq<State>, left: set<nat>,
                                          d: nat)
    requires AllDeep(g, ii, start, queue, d)
    ensures Search0(g, ii, start, queue, left, RoundsAll(g, ii, start, queue, d)).verdict.Some?
    decreases RoundsAll(g, ii, start, queue, d)
  {
    if queue != [] && queue[0] != State(start, 0) {
      RestIsDeep(g, ii, start, queue, d);
      DeepSearchEnds(g, ii, start, Rest(g, ii, start, queue), left - {queue[0].node}, d);
    }
  }

  lemma ProbeExtends(g: MappingGraph, ii: nat, start: nat, w: seq<nat>, c: State)
    requires Probe(g, ii, start, w) && GoesOn(ii, start, StateAt(g, w, |w| - 1))
    requires c in Children(g, StateAt(g, w, |w| - 1))
    ensures Probe(g, ii, start, w + [c.node]) && StateAt(g, w + [c.node], |w|) == c
  {
    var next := w + [c.node];
    assert w[..|w|] == w && next[..|w|] == w && next[..|w| + 1] == next;
    PathSnoc(g, w, c.node);
  }

  /** A search that goes deep goes on along some walk. */
  lemma {:induction false} LongWalk(g: MappingGraph, ii: nat, start: nat, w: seq<nat>, d: nat) returns (long: seq<nat>)
    requires Probe(g, ii, start, w) && !Deep(g, ii, start, StateAt(g, w, |w| - 1), d)
    ensures Probe(g, ii, start, long) && |long| == |w| + d && GoesOn(ii, start, StateAt(g, long, |long| - 1))
    decreases d
  {
    long := w;
    if d > 0 {
      var c :| c in Children(g, StateAt(g, w, |w| - 1)) && !Deep(g, ii, start, c, d - 1);
      ProbeExtends(g, ii, start, w, c);
      long := LongWalk(g, ii, start, w + [c.node], d - 1);
    }
  }

  function StatesOf(g: MappingGraph, w: seq<nat>): seq<State>
    requires w != []
  {
    seq(|w| - 1, k requires 0 <= k < |w| - 1 => StateAt(g, w, k + 1))
  }

  ghost predicate Spinning(g: MappingGraph, ii: nat, start: nat) {
    exists w, i :: Spins(g, ii, start, w, i)
  }

  lemma RepetitionSpins(g: MappingGraph, ii: nat, start: nat, w: seq<nat>, i: nat, j: nat)
    requires 1 <= i < j < |w| && Probe(g, ii, start, w[..j + 1])
    requires StateAt(g, w, i) == StateAt(g, w, j) && GoesOn(ii, start, StateAt(g, w, j))
    ensures Spinning(g, ii, start)
  {
    var c := w[..j + 1];
    assert c[..i + 1] == w[..i + 1] && c[..|c|] == c;
    assert Spins(g, ii, start, c, i);
  }

  /** A walk that is longer than there are states meets one of them twice. */
  lemma LongWalkSpins(g: MappingGraph, ii: nat, start: nat, w: seq<nat>)
    requires Mirrored(g) && start in g.nodes
    requires Probe(g, ii, start, w) && GoesOn(ii, start, StateAt(g, w, |w| - 1))
    requires |w| - 1 > |Reachable(g, ii)|
    ensures Spinning(g, ii, start)
  {
    var states := StatesOf(g, w);
    forall k | 0 <= k < |states|
      ensures states[k] in Reachable(g, ii)
    {
      WalkState(g, ii, start, w, k + 1);
    }
    var i, j := SomethingTwice(states, Reachable(g, ii));
    WalkState(g, ii, start, w, j + 1);
    RepetitionSpins(g, ii, start, w, i + 1, j + 1);
  }

  lemma WalkState(g: MappingGraph, ii: nat, start: nat, w: seq<nat>, k: nat)
    requires Mirrored(g) && start in g.nodes && 1 <= k < |w|
    requires Probe(g, ii, start, w) && GoesOn(ii, start, StateAt(g, w, |w| - 1))
    ensures Probe(g, ii, start, w[..k + 1]) && GoesOn(ii, start, StateAt(g, w, k))
    ensures StateAt(g, w, k) in Reachable(g, ii)
  {
    assert w[..|w|] == w;
    if k < |w| - 1 {
      ProbeOn(g, ii, start, w, k);
    }
    ProbeStaysInside(g, ii, start, w[..k + 1]);
  }

  lemma ProbeStaysInside(g: MappingGraph, ii: nat, start: nat, w: seq<nat>)
    requires Mirrored(g) && start in g.nodes && Probe(g, ii, start, w)
    ensures w[|w| - 1] in g.nodes
    decreases |w|
  {
    if |w| == 2 {
      assert Recorded(g, start);
    } else {
      ProbeStaysInside(g, ii, start, w[..|w| - 1]);
      assert Recorded(g, w[|w| - 2]);
    }
  }

  lemma WalksStayShort(g: MappingGraph, ii: nat, start: nat)
    requires Mirrored(g) && start in g.nodes && !Spinning(g, ii, start)
    ensures AllDeep(g, ii, start, Children(g, State(start, 0)), |Reachable(g, ii)|)
  {
    forall s | s in Children(g, State(start, 0))
      ensures Deep(g, ii, start, s, |Reachable(g, ii)|)
    {
      if !Deep(g, ii, start, s, |Reachable(g, ii)|) {
        var w := [start, s.node];
        assert w[..2] == w && w[..1] == [start] && PathLatency(g, [start]) == 0;
        var long := LongWalk(g, ii, start, w, |Reachable(g, ii)|);
        LongWalkSpins(g, ii, start, long);
      }
    }
  }

  /** Main result: the search reports a loop exactly when start has a way back without latency; it ends
      without one exactly when, besides, it cannot get into a loop without
      latency that does not pass through start. Otherwise it goes on for ever. */
  lemma SearchOutcome(g: MappingGraph, ii: nat, start: nat, left: set<nat>)
    requires Mirrored(g) && start in g.nodes
    ensures var queue := Children(g, State(start, 0));
            && (EndsWith(g, ii, start, queue, left, false) <==> exists w :: ZeroReturn(g, ii, start, w))
            && (EndsWith(g, ii, start, queue, left, true) <==>
                (forall w :: !ZeroReturn(g, ii, start, w)) && !Spinning(g, ii, start))
  {
    var queue := Children(g, State(start, 0));
    ChildrenAreReached(g, ii, start, State(start, 0));
    if fuel: nat :| Search0(g, ii, start, queue, left, fuel).verdict == Some(false) {
      OnlyFindsReturns(g, ii, start, queue, left, fuel);
    }
    if w :| ZeroReturn(g, ii, start, w) {
      ProbeStart(g, ii, start, w);
      var pos :| 0 <= pos < |queue| && queue[pos] == StateAt(g, w, 1);
      ReturnIsFound(g, ii, start, queue, left, w, 1, pos);
      OneVerdict(g, ii, start, queue, left);
    } else if w, i :| Spins(g, ii, start, w, i) {
      ProbeStart(g, ii, start, w);
      forall fuel: nat
        ensures Search0(g, ii, start, queue, left, fuel).verdict != Some(true)
      {
        SpinIsNeverDone(g, ii, start, queue, left, fuel, w, i, 1);
      }
    } else {
      EndsWithoutSpin(g, ii, start, left);
    }
  }

  lemma EndsWithoutSpin(g: MappingGraph, ii: nat, start: nat, left: set<nat>)
    requires Mirrored(g) && start in g.nodes && !Spinning(g, ii, start)
    requires forall w :: !ZeroReturn(g, ii, start, w)
    ensures EndsWith(g, ii, start, Children(g, State(start, 0)), left, true)
  {
    var queue := Children(g, State(start, 0));
    ChildrenAreReached(g, ii, start, State(start, 0));
    WalksStayShort(g, ii, start);
    DeepSearchEnds(g, ii, start, queue, left, |Reachable(g, ii)|);
    var rounds := RoundsAll(g, ii, start, queue, |Reachable(g, ii)|);
    OnlyFindsReturns(g, ii, start, queue, left, rounds);
    var verdict := Search0(g, ii, start, queue, left, rounds).verdict;
    assert !verdict.value ==> verdict == Some(false);
  }

  // Loops without latency.

  /** A closed walk that takes no time. */
  ghost predicate ZeroLoop(g: MappingGraph, w: seq<nat>) {
    IsPath(g, w) && |w| >= 2 && w[|w| - 1] == w[0] && PathLatency(g, w) == 0
  }

  ghost predicate OnZeroLoop(g: MappingGraph, n: nat) {
    exists w :: ZeroLoop(g, w) && w[0] == n
  }

  lemma {:induction false} ZeroSteps(g: MappingGraph, w: seq<nat>, k: nat)
    requires PathLatency(g, w) == 0 && k < |w|
    ensures PathLatency(g, w[..k + 1]) == 0 && (k < |w| - 1 ==> Latency(g, w[k]) == 0)
    decreases |w|
  {
    if k == |w| - 1 {
      assert w[..k + 1] == w;
    } else {
      var init := w[..|w| - 1];
      assert PathLatency(g, w) == PathLatency(g, init) + Latency(g, w[|w| - 2]);
      ZeroSteps(g, init, k);
      assert init[..k + 1] == w[..k + 1];
    }
  }

  lemma {:induction false} ZeroPath(g: MappingGraph, w: seq<nat>)
    requires |w| > 0 && w[0] in g.nodes && forall i :: 0 <= i < |w| - 1 ==> w[i + 1] in Fanout(g, w[i]) && Latency(g, w[i]) == 0
    ensures IsPath(g, w) && PathLatency(g, w) == 0
  {
    if |w| >= 2 {
      var init := w[..|w| - 1];
      forall i | 0 <= i < |init| - 1
        ensures init[i + 1] in Fanout(g, init[i]) && Latency(g, init[i]) == 0
      {
        assert w[i + 1] in Fanout(g, w[i]);
      }
      ZeroPath(g, init);
      assert w[|w| - 2 + 1] in Fanout(g, w[|w| - 2]);
    }
  }

  /** Every node of the loop is on one. */
  lemma LoopTurns(g: MappingGraph, w: seq<nat>, k: nat)
    requires Mirrored(g) && ZeroLoop(g, w) && k < |w|
    ensures OnZeroLoop(g, w[k])
  {
    if 0 < k < |w| - 1 {
      var turned := w[k..] + w[1..k + 1];
      forall i | 0 <= i < |turned| - 1
        ensures turned[i + 1] in Fanout(g, turned[i]) && Latency(g, turned[i]) == 0
      {
        var j := if k + i < |w| - 1 then k + i else k + i - (|w| - 1);
        assert turned[i] == w[j] && turned[i + 1] == w[j + 1];
        ZeroSteps(g, w, j);
        assert w[j + 1] in Fanout(g, w[j]);
      }
      assert Recorded(g, w[k - 1]) by {
        PathStaysInside(g, w, k - 1);
      }
      assert w[k - 1 + 1] in Fanout(g, w[k - 1]);
      ZeroPath(g, turned);
      assert ZeroLoop(g, turned);
    }
  }

  lemma {:induction false} PathStaysInside(g: MappingGraph, w: seq<nat>, k: nat)
    requires Mirrored(g) && IsPath(g, w) && k < |w|
    ensures w[k] in g.nodes
  {
    if k > 0 {
      PathStaysInside(g, w, k - 1);
      assert Recorded(g, w[k - 1]) && w[k - 1 + 1] in Fanout(g, w[k - 1]);
    }
  }

  /** A loop comes to a first return. */
  lemma {:induction false} LoopReturns(g: MappingGraph, ii: nat, w: seq<nat>, k: nat)
    requires ZeroLoop(g, w) && 1 <= k < |w| && (k == 1 || (Probe(g, ii, w[0], w[..k]) && w[k - 1] != w[0]))
    ensures exists r :: ZeroReturn(g, ii, w[0], r)
    decreases |w| - k
  {
    var r := w[..k + 1];
    assert r[..k] == w[..k];
    assert w[k - 1 + 1] in Fanout(g, w[k - 1]);
    ZeroSteps(g, w, k - 1);
    ZeroSteps(g, w, k);
    assert Probe(g, ii, w[0], r);
    if w[k] == w[0] {
      assert ZeroReturn(g, ii, w[0], r);
    } else {
      LoopReturns(g, ii, w, k + 1);
    }
  }

  lemma ReturnsAreLoops(g: MappingGraph, ii: nat, n: nat)
    requires n in g.nodes
    ensures (exists w :: ZeroReturn(g, ii, n, w)) <==> OnZeroLoop(g, n)
  {
    if w :| ZeroReturn(g, ii, n, w) {
      ProbeIsPath(g, ii, n, w);
      assert ZeroLoop(g, w);
    }
    if w :| ZeroLoop(g, w) && w[0] == n {
      LoopReturns(g, ii, w, 1);
    }
  }

  // The walk out of start ends in the state s.
  ghost predicate Arrives(g: MappingGraph, ii: nat, start: nat, v: seq<nat>, s: State) {
    v != [] && Probe(g, ii, start, v) && StateAt(g, v, |v| - 1) == s
  }

  lemma RoundStep(g: MappingGraph, ii: nat, start: nat, c: seq<nat>, w: seq<nat>, k: nat, l: nat)
    requires ZeroLoop(g, w) && 1 <= k < |w| && w[k - 1] != start && l <= ii
    requires Arrives(g, ii, start, c, State(w[k - 1], l))
    ensures Arrives(g, ii, start, c + [w[k]], State(w[k], l))
  {
    ZeroSteps(g, w, k - 1);
    assert w[k - 1 + 1] in Fanout(g, w[k - 1]);
    ProbeExtends(g, ii, start, c, State(w[k], l));
  }

  /** The walk v, and the loop w up to its k-th node. */
  function Round(v: seq<nat>, w: seq<nat>, k: nat): (r: seq<nat>)
    requires k < |w|
    ensures |r| == |v| + k && r[..|v|] == v
  {
    if k == 0 then v else Round(v, w, k - 1) + [w[k]]
  }

  /** A walk that has reached a loop goes round it, if the loop does not pass through start. */
  lemma {:induction false} GoesRound(g: MappingGraph, ii: nat, start: nat, v: seq<nat>, w: seq<nat>, k: nat, l: nat)
    requires ZeroLoop(g, w) && start !in w && k < |w| && l <= ii
    requires Arrives(g, ii, start, v, State(w[0], l))
    ensures Arrives(g, ii, start, Round(v, w, k), State(w[k], l))
  {
    if k > 0 {
      GoesRound(g, ii, start, v, w, k - 1, l);
      assert w[k - 1] in w;
      RoundStep(g, ii, start, Round(v, w, k - 1), w, k, l);
    }
  }

  lemma LoopInTimeSpins(g: MappingGraph, ii: nat, start: nat, s: State, w: seq<nat>)
    requires Reached(g, ii, start, s) && GoesOn(ii, start, s) && ZeroLoop(g, w) && w[0] == s.node && start !in w
    ensures Spinning(g, ii, start)
  {
    var v :| Probe(g, ii, start, v) && Ends(g, v, s);
    assert v[..|v|] == v;
    assert Arrives(g, ii, start, v, s);
    GoesRound(g, ii, start, v, w, |w| - 1, s.latency);
    var c := Round(v, w, |w| - 1);
    assert StateAt(g, c, |v| - 1) == s;
    assert Spins(g, ii, start, c, |v| - 1);
  }

  // The loop over the candidates.

  /** Searches from the candidates in the order given, save for those that an earlier search has struck out. */
  function Stage(g: MappingGraph, ii: nat, order: seq<nat>, left: set<nat>, fuel: nat): Option<bool> {
    if order == [] then Some(true)
    else if order[0] !in left then Stage(g, ii, order[1..], left, fuel)
    else
      var here := Search0(g, ii, order[0], Children(g, State(order[0], 0)), left, fuel);
      if here.verdict.None? then None
      else
        var rest := Stage(g, ii, order[1..], here.left, fuel);
        if rest.None? then None else Some(here.verdict.value && rest.value)
  }

  function Members(order: seq<nat>): set<nat> {
    set n | n in order
  }

  method CheckZeroCycles(g: MappingGraph, ii: nat, order: seq<nat>, fuel: nat) returns (verdict: Option<bool>)
    requires Mirrored(g) && forall n :: n in order ==> n in g.nodes
    ensures verdict == Stage(g, ii, order, Members(order), fuel)
  {
    var left := Members(order);
    var balanced := true;
    assert order[0..] == order;
    for i := 0 to |order|
      invariant var rest := Stage(g, ii, order[i..], left, fuel);
                Stage(g, ii, order, Members(order), fuel) ==
                if rest.None? then None else Some(balanced && rest.value)
    {
      assert order[i..][0] == order[i] && order[i..][1..] == order[i + 1..];
      if order[i] in left {
        assert order[i] in order;
        var here;
        here, left := LatencyCheck0Cycle(g, ii, order[i], left, fuel);
        if here.None? {
          return None;
        }
        balanced := balanced && here.value;
      }
    }
    verdict := Some(balanced);
  }

  /** A search from start reaches n, and only after more than an interval. */
  ghost predicate Late(g: MappingGraph, ii: nat, candidates: set<nat>, n: nat) {
    exists start, s: State :: start in candidates && s.node == n && s.latency > ii && Reached(g, ii, start, s)
  }

  /** A search that ends without finding a loop strikes out only nodes that are on none, or are reached late. */
  lemma StruckOutIsSafe(g: MappingGraph, ii: nat, start: nat, candidates: set<nat>, n: nat)
    requires Mirrored(g) && start in g.nodes && start in candidates && n in g.nodes
    requires !OnZeroLoop(g, start) && !Spinning(g, ii, start) && ReachedNode(g, ii, start, n)
    ensures !OnZeroLoop(g, n) || Late(g, ii, candidates, n)
  {
    var s: State :| s.node == n && Reached(g, ii, start, s);
    if w :| ZeroLoop(g, w) && w[0] == n && !Late(g, ii, candidates, n) {
      if start in w {
        var k: nat :| k < |w| && w[k] == start;
        LoopTurns(g, w, k);
      } else {
        assert w[0] in w;
        LoopInTimeSpins(g, ii, start, s, w);
      }
    }
  }

  // What is known of the candidates when those in left remain.
  ghost predicate Cleared(g: MappingGraph, ii: nat, candidates: set<nat>, left: set<nat>) {
    forall n :: n in candidates && n !in left ==> !OnZeroLoop(g, n) || Late(g, ii, candidates, n)
  }

  lemma SearchClears(g: MappingGraph, ii: nat, start: nat, candidates: set<nat>, left: set<nat>, fuel: nat)
    requires Mirrored(g) && start in left && left <= candidates <= g.nodes && Cleared(g, ii, candidates, left)
    requires Search0(g, ii, start, Children(g, State(start, 0)), left, fuel).verdict == Some(true)
    ensures !OnZeroLoop(g, start)
    ensures var left' := Search0(g, ii, start, Children(g, State(start, 0)), left, fuel).left;
            left' <= left && Cleared(g, ii, candidates, left')
  {
    var queue := Children(g, State(start, 0));
    ChildrenAreReached(g, ii, start, State(start, 0));
    StrikesOutReached(g, ii, start, queue, left, fuel);
    SearchOutcome(g, ii, start, left);
    assert EndsWith(g, ii, start, queue, left, true);
    ReturnsAreLoops(g, ii, start);
    forall n | n in left - Search0(g, ii, start, queue, left, fuel).left
      ensures !OnZeroLoop(g, n) || Late(g, ii, candidates, n)
    {
      StruckOutIsSafe(g, ii, start, candidates, n);
    }
  }

  /** If the stage accepts, a candidate on a loop without latency has been reached late from another. */
  lemma {:induction false} StageAccepts(g: MappingGraph, ii: nat, order: seq<nat>, candidates: set<nat>,
                                        left: set<nat>, fuel: nat)
    requires Mirrored(g) && left <= candidates <= g.nodes
    requires Cleared(g, ii, candidates, left) && Stage(g, ii, order, left, fuel) == Some(true)
    ensures forall n :: n in order && n in candidates ==> !OnZeroLoop(g, n) || Late(g, ii, candidates, n)
    decreases |order|
  {
    if order != [] {
      assert order == [order[0]] + order[1..];
      if order[0] in left {
        var here := Search0(g, ii, order[0], Children(g, State(order[0], 0)), left, fuel);
        SearchClears(g, ii, order[0], candidates, left, fuel);
        StageAccepts(g, ii, order[1..], candidates, here.left, fuel);
      } else {
        StageAccepts(g, ii, order[1..], candidates, left, fuel);
      }
    }
  }

  /** If the stage rejects, there is a loop without latency. */
  lemma {:induction false} StageRejects(g: MappingGraph, ii: nat, order: seq<nat>, left: set<nat>, fuel: nat)
    requires Mirrored(g) && left <= g.nodes && Stage(g, ii, order, left, fuel) == Some(false)
    ensures exists n :: n in order && OnZeroLoop(g, n)
    decreases |order|
  {
    assert order == [order[0]] + order[1..];
    if order[0] in left {
      var start, queue := order[0], Children(g, State(order[0], 0));
      var here := Search0(g, ii, start, queue, left, fuel);
      ChildrenAreReached(g, ii, start, State(start, 0));
      OnlyFindsReturns(g, ii, start, queue, left, fuel);
      StrikesOutReached(g, ii, start, queue, left, fuel);
      ReturnsAreLoops(g, ii, start);
      if here.verdict == Some(true) {
        StageRejects(g, ii, order[1..], here.left, fuel);
      }
    } else {
      StageRejects(g, ii, order[1..], left, fuel);
    }
  }

  lemma {:induction false} StageMoreFuel(g: MappingGraph, ii: nat, order: seq<nat>, left: set<nat>, fuel: nat,
                                         more: nat)
    requires Stage(g, ii, order, left, fuel).Some? && fuel <= more
    ensures Stage(g, ii, order, left, more) == Stage(g, ii, order, left, fuel)
    decreases |order|
  {
    if order != [] {
      if order[0] in left {
        var queue := Children(g, State(order[0], 0));
        MoreFuel(g, ii, order[0], queue, left, fuel, more);
        StageMoreFuel(g, ii, order[1..], Search0(g, ii, order[0], queue, left, fuel).left, fuel, more);
      } else {
        StageMoreFuel(g, ii, order[1..], left, fuel, more);
      }
    }
  }

  /** A search that never ends goes round a loop without latency. */
  lemma SpinIsLoop(g: MappingGraph, ii: nat, start: nat)
    requires Mirrored(g) && start in g.nodes && Spinning(g, ii, start)
    ensures exists n :: OnZeroLoop(g, n)
  {
    var w, i: nat :| Spins(g, ii, start, w, i);
    var loop := w[i..];
    ProbeIsPath(g, ii, start, w);
    assert w[..|w|] == w;
    PathSplits(g, w, i);
    PathStaysInside(g, w, i);
    forall k | 0 <= k < |loop| - 1
      ensures loop[k + 1] in Fanout(g, loop[k])
    {
      assert w[i + k + 1] in Fanout(g, w[i + k]);
    }
    assert loop[|loop| - 1] == w[|w| - 1] && IsPath(g, loop);
    assert ZeroLoop(g, loop) && OnZeroLoop(g, loop[0]);
  }

  lemma {:induction false} PathSplits(g: MappingGraph, w: seq<nat>, i: nat)
    requires i < |w|
    ensures PathLatency(g, w) == PathLatency(g, w[..i + 1]) + PathLatency(g, w[i..])
    decreases |w| - i
  {
    if i == |w| - 1 {
      assert w[..i + 1] == w;
    } else {
      var init := w[..|w| - 1];
      PathSplits(g, init, i);
      assert init[..i + 1] == w[..i + 1] && w[i..][..|w[i..]| - 1] == init[i..];
    }
  }

  /** Without loops without latency, the stage ends and accepts. */
  lemma {:induction false} StageEnds(g: MappingGraph, ii: nat, order: seq<nat>, left: set<nat>)
    requires Mirrored(g) && left <= g.nodes && forall n :: !OnZeroLoop(g, n)
    ensures exists fuel: nat :: Stage(g, ii, order, left, fuel) == Some(true)
    decreases |order|
  {
    if order == [] {
      assert Stage(g, ii, order, left, 0) == Some(true);
    } else if order[0] in left {
      var start := order[0];
      var queue := Children(g, State(start, 0));
      SearchOutcome(g, ii, start, left);
      ReturnsAreLoops(g, ii, start);
      if Spinning(g, ii, start) {
        SpinIsLoop(g, ii, start);
      }
      assert EndsWith(g, ii, start, queue, left, true);
      var a: nat :| Search0(g, ii, start, queue, left, a).verdict == Some(true);
      var left' := Search0(g, ii, start, queue, left, a).left;
      ChildrenAreReached(g, ii, start, State(start, 0));
      StrikesOutReached(g, ii, start, queue, left, a);
      StageEnds(g, ii, order[1..], left');
      var b: nat :| Stage(g, ii, order[1..], left', b) == Some(true);
      MoreFuel(g, ii, start, queue, left, a, a + b);
      StageMoreFuel(g, ii, order[1..], left', b, a + b);
      assert Stage(g, ii, order, left, a + b) == Some(true);
    } else {
      StageEnds(g, ii, order[1..], left);
      var b: nat :| Stage(g, ii, order[1..], left, b) == Some(true);
      assert Stage(g, ii, order, left, b) == Some(true);
    }
  }

  // When some order of the candidates makes the stage accept.

  lemma {:induction false} LeftShrinks(g: MappingGraph, ii: nat, start: nat, queue: seq<State>, left: set<nat>,
                                       fuel: nat)
    ensures Search0(g, ii, start, queue, left, fuel).left <= left
    decreases fuel
  {
    if queue != [] && fuel > 0 && queue[0] != State(start, 0) {
      LeftShrinks(g, ii, start, Rest(g, ii, start, queue), left - {queue[0].node}, fuel - 1);
    }
  }

  /** A search that ends without finding a loop strikes out whatever its walks lead to. */
  lemma {:induction false} StrikesOutAll(g: MappingGraph, ii: nat, start: nat, queue: seq<State>, left: set<nat>,
                                         fuel: nat,
                                         w: seq<nat>, k: nat)
    requires Probe(g, ii, start, w) && 1 <= k < |w| && StateAt(g, w, k) in queue
    requires Search0(g, ii, start, queue, left, fuel).verdict == Some(true)
    ensures w[|w| - 1] !in Search0(g, ii, start, queue, left, fuel).left
    decreases fuel
  {
    var rest, left' := Rest(g, ii, start, queue), left - {queue[0].node};
    var pos :| 0 <= pos < |queue| && queue[pos] == StateAt(g, w, k);
    if pos > 0 {
      assert rest[pos - 1] == StateAt(g, w, k);
      StrikesOutAll(g, ii, start, rest, left', fuel - 1, w, k);
    } else if k < |w| - 1 {
      ProbeOn(g, ii, start, w, k);
      assert StateAt(g, w, k + 1) in rest;
      StrikesOutAll(g, ii, start, rest, left', fuel - 1, w, k + 1);
    } else {
      LeftShrinks(g, ii, start, rest, left', fuel - 1);
    }
  }

  /** It leaves exactly the nodes that it does not reach. */
  lemma LeftAfter(g: MappingGraph, ii: nat, start: nat, left: set<nat>, fuel: nat)
    requires Search0(g, ii, start, Children(g, State(start, 0)), left, fuel).verdict == Some(true)
    ensures forall n :: n in Search0(g, ii, start, Children(g, State(start, 0)), left, fuel).left <==>
                        n in left && !ReachedNode(g, ii, start, n)
  {
    var queue := Children(g, State(start, 0));
    ChildrenAreReached(g, ii, start, State(start, 0));
    StrikesOutReached(g, ii, start, queue, left, fuel);
    forall n | ReachedNode(g, ii, start, n)
      ensures n !in Search0(g, ii, start, queue, left, fuel).left
    {
      var s: State :| s.node == n && Reached(g, ii, start, s);
      var w :| Probe(g, ii, start, w) && Ends(g, w, s);
      ProbeStart(g, ii, start, w);
      StrikesOutAll(g, ii, start, queue, left, fuel, w, 1);
    }
  }

  /** The search from n ends, and finds no loop. */
  ghost predicate Quiet(g: MappingGraph, ii: nat, n: nat) {
    !OnZeroLoop(g, n) && !Spinning(g, ii, n)
  }

  // No node of the list is reached from one before it.
  ghost predicate Unreached(g: MappingGraph, ii: nat, chosen: seq<nat>) {
    forall i, j :: 0 <= i < j < |chosen| ==> !ReachedNode(g, ii, chosen[i], chosen[j])
  }

  ghost predicate ReachedFrom(g: MappingGraph, ii: nat, chosen: seq<nat>, n: nat) {
    exists c :: c in chosen && ReachedNode(g, ii, c, n)
  }

  /** The searches from the chosen candidates end and strike out all others. */
  ghost predicate Clears(g: MappingGraph, ii: nat, candidates: set<nat>, chosen: seq<nat>) {
    && NoDup(chosen) && Unreached(g, ii, chosen)
    && (forall c :: c in chosen ==> c in candidates && Quiet(g, ii, c))
    && (forall n :: n in candidates && n !in chosen ==> ReachedFrom(g, ii, chosen, n))
  }

  /** An order in which a set may be traversed. */
  ghost predicate ListsOnce(order: seq<nat>, s: set<nat>) {
    NoDup(order) && forall n :: n in order <==> n in s
  }

  lemma QuietSearch(g: MappingGraph, ii: nat, start: nat, left: set<nat>)
    requires Mirrored(g) && start in g.nodes
    ensures EndsWith(g, ii, start, Children(g, State(start, 0)), left, true) <==> Quiet(g, ii, start)
  {
    SearchOutcome(g, ii, start, left);
    ReturnsAreLoops(g, ii, start);
  }

  // The candidates that the stage has searched from.
  ghost predicate SearchedFrom(g: MappingGraph, ii: nat, order: seq<nat>, left: set<nat>, chosen: seq<nat>) {
    && NoDup(chosen) && Unreached(g, ii, chosen)
    && (forall c :: c in chosen ==> c in order && c in left && Quiet(g, ii, c))
    && (forall n :: n in order && n in left && n !in chosen ==> ReachedFrom(g, ii, chosen, n))
  }

  lemma SearchedFirst(g: MappingGraph, ii: nat, order: seq<nat>, left: set<nat>, left': set<nat>, chosen: seq<nat>)
    requires NoDup(order) && order != [] && order[0] in left && Quiet(g, ii, order[0])
    requires SearchedFrom(g, ii, order[1..], left', chosen)
    requires forall n :: n in left' <==> n in left && !ReachedNode(g, ii, order[0], n)
    ensures SearchedFrom(g, ii, order, left, [order[0]] + chosen)
  {
    var first, all := order[0], [order[0]] + chosen;
    assert order == [first] + order[1..] && first !in order[1..] by {
      NoDupTail(order);
    }
    forall i, j | 0 <= i < j < |all|
      ensures !ReachedNode(g, ii, all[i], all[j]) && all[i] != all[j]
    {
      assert all[j] == chosen[j - 1] && chosen[j - 1] in chosen;
      if i > 0 {
        assert all[i] == chosen[i - 1];
      }
    }
    forall n | n in order && n in left && n !in all
      ensures ReachedFrom(g, ii, all, n)
    {
      if n in left' {
        assert ReachedFrom(g, ii, chosen, n);
        var c :| c in chosen && ReachedNode(g, ii, c, n);
        assert c in all;
      } else {
        assert first in all && ReachedNode(g, ii, first, n);
      }
    }
  }

  lemma {:induction false} StageHasSearched(g: MappingGraph, ii: nat, order: seq<nat>, left: set<nat>, fuel: nat)
    returns (chosen: seq<nat>)
    requires Mirrored(g) && NoDup(order) && left <= g.nodes && Stage(g, ii, order, left, fuel) == Some(true)
    ensures SearchedFrom(g, ii, order, left, chosen)
    decreases |order|
  {
    chosen := [];
    if order != [] {
      NoDupTail(order);
      if order[0] in left {
        var start, queue := order[0], Children(g, State(order[0], 0));
        var here := Search0(g, ii, start, queue, left, fuel);
        LeftAfter(g, ii, start, left, fuel);
        assert EndsWith(g, ii, start, queue, left, true);
        QuietSearch(g, ii, start, left);
        chosen := StageHasSearched(g, ii, order[1..], here.left, fuel);
        SearchedFirst(g, ii, order, left, here.left, chosen);
        chosen := [start] + chosen;
      } else {
        chosen := StageHasSearched(g, ii, order[1..], left, fuel);
        assert order == [order[0]] + order[1..];
      }
    }
  }

  lemma {:induction false} NothingLeft(g: MappingGraph, ii: nat, order: seq<nat>, left: set<nat>, fuel: nat)
    requires forall n :: n in order ==> n !in left
    ensures Stage(g, ii, order, left, fuel) == Some(true)
    decreases |order|
  {
    if order != [] {
      assert order[0] in order;
      NothingLeft(g, ii, order[1..], left, fuel);
    }
  }

  ghost predicate StageMayEnd(g: MappingGraph, ii: nat, order: seq<nat>, left: set<nat>) {
    exists fuel: nat :: Stage(g, ii, order, left, fuel) == Some(true)
  }

  lemma QuietSearchLeaves(g: MappingGraph, ii: nat, start: nat, left: set<nat>) returns (left': set<nat>, fuel: nat)
    requires Mirrored(g) && start in g.nodes && Quiet(g, ii, start)
    ensures Search0(g, ii, start, Children(g, State(start, 0)), left, fuel) == Outcome(Some(true), left')
    ensures forall n :: n in left' <==> n in left && !ReachedNode(g, ii, start, n)
  {
    QuietSearch(g, ii, start, left);
    fuel :| Search0(g, ii, start, Children(g, State(start, 0)), left, fuel).verdict == Some(true);
    left' := Search0(g, ii, start, Children(g, State(start, 0)), left, fuel).left;
    LeftAfter(g, ii, start, left, fuel);
  }

  lemma OneMoreSearch(g: MappingGraph, ii: nat, order: seq<nat>, left: set<nat>, left': set<nat>, a: nat)
    requires order != [] && order[0] in left && StageMayEnd(g, ii, order[1..], left')
    requires Search0(g, ii, order[0], Children(g, State(order[0], 0)), left, a) == Outcome(Some(true), left')
    ensures StageMayEnd(g, ii, order, left)
  {
    var b: nat :| Stage(g, ii, order[1..], left', b) == Some(true);
    MoreFuel(g, ii, order[0], Children(g, State(order[0], 0)), left, a, a + b);
    StageMoreFuel(g, ii, order[1..], left', b, a + b);
    assert Stage(g, ii, order, left, a + b) == Some(true);
  }

  lemma UnreachedTail(g: MappingGraph, ii: nat, chosen: seq<nat>)
    requires Unreached(g, ii, chosen) && chosen != []
    ensures Unreached(g, ii, chosen[1..]) && forall c :: c in chosen[1..] ==> !ReachedNode(g, ii, chosen[0], c)
  {
    var tail := chosen[1..];
    forall i, j | 0 <= i < j < |tail|
      ensures !ReachedNode(g, ii, tail[i], tail[j])
    {
      assert tail[i] == chosen[i + 1] && tail[j] == chosen[j + 1];
    }
  }

  /** Searching from the chosen candidates first, nothing remains to search from. */
  lemma {:induction false} ChosenFirst(g: MappingGraph, ii: nat, chosen: seq<nat>, others: seq<nat>, left: set<nat>)
    requires Mirrored(g) && left <= g.nodes && Unreached(g, ii, chosen)
    requires forall c :: c in chosen ==> c in left && Quiet(g, ii, c)
    requires forall n :: n in others && n in left ==> ReachedFrom(g, ii, chosen, n)
    ensures StageMayEnd(g, ii, chosen + others, left)
    decreases |chosen|
  {
    if chosen == [] {
      assert chosen + others == others;
      NothingLeft(g, ii, others, left, 0);
    } else {
      var start, tail := chosen[0], chosen[1..];
      assert chosen == [start] + tail;
      UnreachedTail(g, ii, chosen);
      var left', a := QuietSearchLeaves(g, ii, start, left);
      forall n | n in others && n in left'
        ensures ReachedFrom(g, ii, tail, n)
      {
        var c :| c in chosen && ReachedNode(g, ii, c, n);
        assert c in tail;
      }
      ChosenFirst(g, ii, tail, others, left');
      assert (chosen + others)[1..] == tail + others;
      OneMoreSearch(g, ii, chosen + others, left, left', a);
    }
  }

  lemma ListedTogether(chosen: seq<nat>, others: seq<nat>, s: set<nat>)
    requires NoDup(chosen) && (forall c :: c in chosen ==> c in s) && ListsOnce(others, s - set c | c in chosen)
    ensures ListsOnce(chosen + others, s)
  {
    var all := chosen + others;
    forall i, j | 0 <= i < j < |all|
      ensures all[i] != all[j]
    {
      if i < |chosen| <= j {
        assert all[j] == others[j - |chosen|] && others[j - |chosen|] in others && all[i] in chosen;
      }
    }
  }

  lemma ClearedMayAccept(g: MappingGraph, ii: nat, candidates: set<nat>, chosen: seq<nat>) returns (order: seq<nat>)
    requires Mirrored(g) && candidates <= g.nodes && Clears(g, ii, candidates, chosen)
    ensures ListsOnce(order, candidates) && StageMayEnd(g, ii, order, candidates)
  {
    var others := ListingOf(candidates - set c | c in chosen);
    order := chosen + others;
    ChosenFirst(g, ii, chosen, others, candidates);
    ListedTogether(chosen, others, candidates);
  }

  /** Main result: in some order of the candidates the stage accepts exactly when some of them, none of which is
      reached from one before it, are searched from without finding a loop and together reach all others. */
  lemma StageMayAccept(g: MappingGraph, ii: nat, candidates: set<nat>)
    requires Mirrored(g) && candidates <= g.nodes
    ensures (exists order :: ListsOnce(order, candidates) && StageMayEnd(g, ii, order, candidates)) <==>
            exists chosen :: Clears(g, ii, candidates, chosen)
  {
    if order :| ListsOnce(order, candidates) && StageMayEnd(g, ii, order, candidates) {
      var fuel: nat :| Stage(g, ii, order, candidates, fuel) == Some(true);
      var chosen := StageHasSearched(g, ii, order, candidates, fuel);
      assert Clears(g, ii, candidates, chosen);
    }
    if chosen :| Clears(g, ii, candidates, chosen) {
      var order := ClearedMayAccept(g, ii, candidates, chosen);
    }
  }
}

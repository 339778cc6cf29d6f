// latencyCheck: assigns a time to every node of a mapping, and accepts when all
// links agree with it, up to loops of exactly one initiation interval.
module LatencyCheck {
  import opened Wrappers
  import opened Seqs
  import opened MappingGraphs
  import opened PotentialSearch
  import opened CycleSearch
  import opened ZeroCycleSearch

  /** Every way back to n that keeps within the interval takes exactly one, and there is one. */
  ghost predicate ReturnsOnTime(g: MappingGraph, ii: nat, n: nat) {
    && (exists w :: FirstReturn(g, ii, n, w))
    && (forall w :: FirstReturn(g, ii, n, w) ==> PathLatency(g, w) == ii)
  }

  /** The times explain all latencies: links agree with them, save for links that close loops of one interval. */
  ghost predicate Explained(g: MappingGraph, ii: nat, t: Times) {
    Balanced(g, ii, t) && forall n :: n in t && Flagged(g, ii, t, n) ==> ReturnsOnTime(g, ii, n)
  }

  /** A schedule in which no link waits. */
  ghost predicate Schedule(g: MappingGraph, p: Times) {
    g.nodes <= p.Keys && AllTight(g, p)
  }

  ghost predicate Schedulable(g: MappingGraph) {
    exists p :: Schedule(g, p)
  }

  lemma JoinedTimes(g: MappingGraph, ii: nat, a: Times, b: Times)
    requires Mirrored(g) && ClosedSet(g, a.Keys) && ClosedSet(g, b.Keys) && a.Keys !! b.Keys
    ensures ClosedSet(g, (a + b).Keys)
    ensures Balanced(g, ii, a + b) <==> Balanced(g, ii, a) && Balanced(g, ii, b)
    ensures FlaggedNodes(g, ii, a + b) == FlaggedNodes(g, ii, a) + FlaggedNodes(g, ii, b)
    ensures AllTight(g, a + b) <==> AllTight(g, a) && AllTight(g, b)
  {
    var t := a + b;
    forall u, v | u in t && v in Fanout(g, u)
      ensures (u in a && v in a && Slack(g, t, u, v) == Slack(g, a, u, v)) ||
              (u in b && v in b && Slack(g, t, u, v) == Slack(g, b, u, v))
    {
    }
    forall v | v in t
      ensures Flagged(g, ii, t, v) <==> (v in a && Flagged(g, ii, a, v)) || (v in b && Flagged(g, ii, b, v))
    {
      if v in a && Flagged(g, ii, a, v) {
        var u :| u in a && v in Fanout(g, u) && Fits(ii, Slack(g, a, u, v)) && Slack(g, a, u, v) != 0;
        assert Slack(g, t, u, v) == Slack(g, a, u, v);
      }
      if v in b && Flagged(g, ii, b, v) {
        var u :| u in b && v in Fanout(g, u) && Fits(ii, Slack(g, b, u, v)) && Slack(g, b, u, v) != 0;
        assert Slack(g, t, u, v) == Slack(g, b, u, v);
      }
    }
  }

  /** A link that is off closes a loop of exactly one interval. */
  lemma OffLinkClosesLoop(g: MappingGraph, ii: nat, t: Times, u: nat, v: nat)
    requires Mirrored(g) && t.Keys == g.nodes && Explained(g, ii, t)
    requires u in g.nodes && v in Fanout(g, u) && Slack(g, t, u, v) != 0
    ensures Slack(g, t, u, v) == ii || Slack(g, t, u, v) + ii == 0
    ensures exists w :: IsPath(g, w) && |w| > 1 && w[0] == v && w[|w| - 1] == v && PathLatency(g, w) == ii
  {
    assert Recorded(g, u);
    assert Fits(ii, Slack(g, t, u, v)) && Flagged(g, ii, t, v);
    var w :| FirstReturn(g, ii, v, w);
    ProbeIsPath(g, ii, v, w);
    assert PathLatency(g, w) == ii;
  }

  /** By the reported times every link waits a whole number of intervals, two at most. */
  ghost predicate WaitsIntervals(g: MappingGraph, ii: nat, info: Times) {
    forall u, v :: u in info && v in info && v in Fanout(g, u) ==>
      Fits(ii, Slack(g, info, u, v)) || Slack(g, info, u, v) == 2 * ii || Slack(g, info, u, v) + 2 * ii == 0
  }

  lemma MovedTimesWait(g: MappingGraph, ii: nat, known: Times, here: Times, info: Times)
    requires ClosedSet(g, known.Keys) && ClosedSet(g, here.Keys) && known.Keys !! here.Keys
    requires info.Keys == known.Keys + here.Keys && forall n :: n in known ==> info[n] == known[n]
    requires WaitsIntervals(g, ii, known) && Balanced(g, ii, here) && Moved(ii, here, info)
    ensures WaitsIntervals(g, ii, info)
  {
    var c :| MovedBy(ii, here, info, c);
    forall u, v | u in info && v in info && v in Fanout(g, u)
      ensures Fits(ii, Slack(g, info, u, v)) || Slack(g, info, u, v) == 2 * ii || Slack(g, info, u, v) + 2 * ii == 0
    {
      if u in known {
        assert Slack(g, info, u, v) == Slack(g, known, u, v);
      } else {
        assert MovedAt(ii, here, info, c, u) && MovedAt(ii, here, info, c, v);
        assert Fits(ii, Slack(g, here, u, v));
      }
    }
  }

  /** Every tight loop has a candidate on it. */
  ghost predicate LoopsListed(g: MappingGraph, t: Times, check0Cycle: set<nat>) {
    forall c :: TightLoop(g, t, c) ==> exists n :: n in c && n in check0Cycle
  }

  lemma {:induction false} LoopStaysIn(g: MappingGraph, t: Times, x: set<nat>, c: seq<nat>, i: nat)
    requires Mirrored(g) && t.Keys <= g.nodes && TightLoop(g, t, c) && ClosedSet(g, x) && i < |c|
    ensures c[i] in x <==> c[0] in x
  {
    if i > 0 {
      LoopStaysIn(g, t, x, c, i - 1);
      assert TightLink(g, t, c, i - 1) && Recorded(g, c[i - 1]);
      assert c[i - 1] in Fanin(g, c[i]);
    }
  }

  lemma PartOfLoop(g: MappingGraph, t: Times, part: Times, c: seq<nat>)
    requires TightLoop(g, t, c) && forall i :: 0 <= i < |c| ==> c[i] in part
    requires forall n :: n in part ==> n in t && t[n] == part[n]
    ensures TightLoop(g, part, c)
  {
    forall i | 0 <= i < |c|
      ensures TightLink(g, part, c, i)
    {
      assert TightLink(g, t, c, i);
    }
  }

  lemma JoinedLoops(g: MappingGraph, a: Times, b: Times, candidates: set<nat>, candidates': set<nat>)
    requires Mirrored(g) && ClosedSet(g, a.Keys) && ClosedSet(g, b.Keys) && a.Keys !! b.Keys
    requires LoopsListed(g, a, candidates) && LoopsListed(g, b, candidates') && candidates <= candidates'
    ensures LoopsListed(g, a + b, candidates')
  {
    forall c | TightLoop(g, a + b, c)
      ensures exists n :: n in c && n in candidates'
    {
      assert TightLink(g, a + b, c, 0);
      var part := if c[0] in a then a else b;
      forall i | 0 <= i < |c|
        ensures c[i] in part
      {
        LoopStaysIn(g, a + b, part.Keys, c, i);
      }
      PartOfLoop(g, a + b, part, c);
    }
  }

  /** Tight links hold every component together: no tight link leaves a set only if no link does. */
  ghost predicate HangsTogether(g: MappingGraph, t: Times) {
    forall x {:trigger TightClosed(g, t, x)} :: x <= t.Keys && TightClosed(g, t, x) ==> ClosedSet(g, x)
  }

  /** The times that a search may compute: those of any set of links that connects each component. */
  ghost predicate Timing(g: MappingGraph, t: Times) {
    t.Keys == g.nodes && HangsTogether(g, t)
  }

  // A set that no tight link leaves contains all of a component, or nothing.
  lemma AllOrNothing(g: MappingGraph, here: Times, start: nat, x: set<nat>)
    requires start in here && Spanned(g, here, start) && x <= here.Keys && TightClosed(g, here, x)
    ensures x == here.Keys || x == {}
  {
    if start in x {
      assert here.Keys <= x;
    } else {
      var rest := here.Keys - x;
      assert TightClosed(g, here, rest);
      assert here.Keys <= rest;
      assert x == {};
    }
  }

  lemma TightPart(g: MappingGraph, t: Times, part: Times, x: set<nat>)
    requires TightClosed(g, t, x) && forall n :: n in part ==> n in t && t[n] == part[n]
    ensures TightClosed(g, part, x * part.Keys)
  {
    forall u, v | u in part && v in part && v in Fanout(g, u) && Slack(g, part, u, v) == 0
      ensures u in x * part.Keys <==> v in x * part.Keys
    {
      assert Slack(g, t, u, v) == 0;
    }
  }

  lemma JoinedHangTogether(g: MappingGraph, t: Times, start: nat, here: Times)
    requires Mirrored(g) && ClosedSet(g, t.Keys) && ClosedSet(g, here.Keys) && t.Keys !! here.Keys
    requires HangsTogether(g, t) && start in here && Spanned(g, here, start)
    ensures HangsTogether(g, t + here)
  {
    forall x | x <= (t + here).Keys && TightClosed(g, t + here, x)
      ensures ClosedSet(g, x)
    {
      TightPart(g, t + here, t, x);
      TightPart(g, t + here, here, x);
      AllOrNothing(g, here, start, x * here.Keys);
      assert ClosedSet(g, x * t.Keys) && ClosedSet(g, x * here.Keys);
      assert x == x * t.Keys + x * here.Keys;
    }
  }

  // What holds of the components searched so far.
  ghost predicate Searched(g: MappingGraph, ii: nat, t: Times, info: Times, balanced: bool, checkCycle: set<nat>,
                           check0Cycle: set<nat>)
  {
    && ClosedSet(g, t.Keys) && t.Keys == info.Keys && HangsTogether(g, t)
    && (balanced <==> Balanced(g, ii, t))
    && checkCycle == FlaggedNodes(g, ii, t)
    && (forall n :: n in info ==> info[n] >= 0)
    && (Schedulable(g) ==> AllTight(g, t) && AllTight(g, info))
    && (balanced ==> WaitsIntervals(g, ii, info))
    && check0Cycle <= t.Keys && LoopsListed(g, t, check0Cycle)
  }

  lemma JoinedReports(g: MappingGraph, ii: nat, start: nat, known: Times, here: Times, info: Times)
    requires Mirrored(g) && ClosedSet(g, known.Keys) && ClosedSet(g, here.Keys) && known.Keys !! here.Keys
    requires start in here && Spanned(g, here, start)
    requires info.Keys == known.Keys + here.Keys && forall n :: n in known ==> info[n] == known[n]
    requires AllTight(g, here) ==> Aligned(here, info)
    ensures Schedulable(g) ==> AllTight(g, here)
    ensures Schedulable(g) && AllTight(g, known) ==> AllTight(g, info)
  {
    if Schedulable(g) {
      var p :| Schedule(g, p);
      TightPotentialIsFound(g, here, start, p);
      var shown := map n | n in here :: info[n];
      forall u, v | u in shown && v in shown && v in Fanout(g, u)
        ensures Slack(g, shown, u, v) == Slack(g, here, u, v)
      {
      }
      JoinedTimes(g, ii, known, shown);
      assert known + shown == info;
    }
  }

  lemma JoinSearched(g: MappingGraph, ii: nat, t: Times, info: Times, balanced: bool, checkCycle: set<nat>,
                     check0Cycle: set<nat>, start: nat, here: Times, info': Times, fine: bool, checkCycle': set<nat>,
                     check0Cycle': set<nat>)
    requires Mirrored(g) && Searched(g, ii, t, info, balanced, checkCycle, check0Cycle)
    requires ClosedSet(g, here.Keys) && t.Keys !! here.Keys && start in here && Spanned(g, here, start)
    requires fine <==> Balanced(g, ii, here)
    requires checkCycle' == checkCycle + FlaggedNodes(g, ii, here)
    requires check0Cycle <= check0Cycle' <= check0Cycle + here.Keys && LoopsListed(g, here, check0Cycle')
    requires info'.Keys == info.Keys + here.Keys && forall n :: n in info ==> info'[n] == info[n]
    requires forall n :: n in here ==> info'[n] >= 0
    requires (AllTight(g, here) ==> Aligned(here, info')) && (fine ==> Moved(ii, here, info'))
    ensures Searched(g, ii, t + here, info', balanced && fine, checkCycle', check0Cycle')
  {
    JoinedTimes(g, ii, t, here);
    JoinedReports(g, ii, start, info, here, info');
    JoinedLoops(g, t, here, check0Cycle, check0Cycle');
    JoinedHangTogether(g, t, start, here);
    if balanced && fine {
      MovedTimesWait(g, ii, info, here, info');
    }
  }

  lemma NothingSearched(g: MappingGraph, ii: nat)
    ensures Searched(g, ii, map[], map[], true, {}, {})
  {
    NoLoopWithoutTimes(g);
  }

  // The search from n, unless n has been reached, takes the times and candidates on.
  ghost predicate FindsMore(g: MappingGraph, n: nat, t: Times, candidates: set<nat>, t': Times, candidates': set<nat>) {
    if n in t then t' == t && candidates' == candidates
    else exists here, again :: Finds(g, n, here, again) && t' == t + here && candidates' == candidates + again
  }

  /** What the searches from the nodes of the list end with, one after the other. */
  ghost predicate FindsAll(g: MappingGraph, toSearch: seq<nat>, t: Times, candidates: set<nat>) {
    if toSearch == [] then t == map[] && candidates == {}
    else
      var n := toSearch[|toSearch| - 1];
      exists before, listed {:trigger FindsMore(g, n, before, listed, t, candidates)} ::
        FindsAll(g, toSearch[..|toSearch| - 1], before, listed) && FindsMore(g, n, before, listed, t, candidates)
  }

  lemma {:induction false} FindsAllOnce(g: MappingGraph, toSearch: seq<nat>, t: Times, candidates: set<nat>,
                                        t': Times, candidates': set<nat>)
    requires FindsAll(g, toSearch, t, candidates) && FindsAll(g, toSearch, t', candidates')
    ensures t == t' && candidates == candidates'
  {
    if toSearch != [] {
      var front, last := toSearch[..|toSearch| - 1], toSearch[|toSearch| - 1];
      var a, x :| FindsAll(g, front, a, x) && FindsMore(g, last, a, x, t, candidates);
      var b, y :| FindsAll(g, front, b, y) && FindsMore(g, last, b, y, t', candidates');
      FindsAllOnce(g, front, a, x, b, y);
      if last !in a {
        var here, again :| Finds(g, last, here, again) && t == a + here && candidates == x + again;
        var here', again' :| Finds(g, last, here', again') && t' == b + here' && candidates' == y + again';
        FindsOneResult(g, last, here, again, here', again');
      }
    }
  }

  lemma FindsAllSnoc(g: MappingGraph, toSearch: seq<nat>, n: nat, t: Times, candidates: set<nat>, t': Times,
                     candidates': set<nat>)
    requires FindsAll(g, toSearch, t, candidates) && FindsMore(g, n, t, candidates, t', candidates')
    ensures FindsAll(g, toSearch + [n], t', candidates')
  {
    var longer := toSearch + [n];
    assert longer[..|longer| - 1] == toSearch;
    assert FindsMore(g, longer[|longer| - 1], t, candidates, t', candidates');
  }

  lemma {:induction false} FindsAllHangs(g: MappingGraph, toSearch: seq<nat>, t: Times, candidates: set<nat>)
    requires Mirrored(g) && FindsAll(g, toSearch, t, candidates) && forall n :: n in toSearch ==> n in g.nodes
    ensures ClosedSet(g, t.Keys) && HangsTogether(g, t) && candidates <= t.Keys && forall n :: n in toSearch ==> n in t
  {
    if toSearch != [] {
      var front, n := toSearch[..|toSearch| - 1], toSearch[|toSearch| - 1];
      assert toSearch == front + [n];
      var before, listed :| FindsAll(g, front, before, listed) && FindsMore(g, n, before, listed, t, candidates);
      FindsAllHangs(g, front, before, listed);
      if n !in before {
        var here, again :| Finds(g, n, here, again) && t == before + here && candidates == listed + again;
        FindsComponent(g, n, here, again);
        ComponentsApart(g, before.Keys, here, n);
        JoinedHangTogether(g, before, n, here);
      }
    }
  }

  lemma ComponentsApart(g: MappingGraph, x: set<nat>, here: Times, start: nat)
    requires Mirrored(g) && ClosedSet(g, x) && start in here && start !in x
    requires here.Keys <= g.nodes && ClosedSet(g, here.Keys) && Spanned(g, here, start)
    ensures x !! here.Keys && ClosedSet(g, x + here.Keys)
  {
    var rest := here.Keys - x;
    forall n, m | n in rest && m in Fanout(g, n)
      ensures m in rest
    {
      assert Recorded(g, n) && n in Fanin(g, m);
    }
    forall n, m | n in rest && m in Fanin(g, n)
      ensures m in rest
    {
      assert Recorded(g, n) && n in Fanout(g, m);
    }
    assert ClosedSet(g, rest);
    SpannedIsLeast(g, here, start, rest);
  }

  /** What the searches from all nodes end with holds every component together. */
  lemma FindsAllIsTiming(g: MappingGraph, toSearch: seq<nat>, t: Times, candidates: set<nat>)
    requires Mirrored(g) && FindsAll(g, toSearch, t, candidates) && forall n :: n in toSearch <==> n in g.nodes
    ensures Timing(g, t) && candidates <= g.nodes
  {
    FindsAllHangs(g, toSearch, t, candidates);
  }

  /** The searches end on every graph. */
  lemma {:induction false} SearchesEnd(g: MappingGraph, toSearch: seq<nat>) returns (t: Times, candidates: set<nat>)
    requires Mirrored(g) && forall n :: n in toSearch ==> n in g.nodes
    ensures FindsAll(g, toSearch, t, candidates)
  {
    t, candidates := map[], {};
    if toSearch != [] {
      var front, n := toSearch[..|toSearch| - 1], toSearch[|toSearch| - 1];
      assert toSearch == front + [n];
      var before, listed := SearchesEnd(g, front);
      t, candidates := before, listed;
      if n !in before {
        var here, again := SearchEnds(g, n);
        t, candidates := before + here, listed + again;
      }
      FindsAllSnoc(g, front, n, before, listed, t, candidates);
    }
  }

  // What holds when the first i nodes of the list have been searched from.
  ghost predicate SearchedUpTo(g: MappingGraph, ii: nat, toSearch: seq<nat>, i: nat, t: Times, info: Times,
                               balanced: bool,
                               checkCycle: set<nat>, check0Cycle: set<nat>)
  {
    && Searched(g, ii, t, info, balanced, checkCycle, check0Cycle)
    && i <= |toSearch| && (forall k :: 0 <= k < i ==> toSearch[k] in info)
    && FindsAll(g, toSearch[..i], t, check0Cycle)
  }

  lemma ListedOn(g: MappingGraph, toSearch: seq<nat>, i: nat, t: Times, check0Cycle: set<nat>, info: set<nat>,
                 t': Times, check0Cycle': set<nat>, info': set<nat>)
    requires i < |toSearch| && FindsAll(g, toSearch[..i], t, check0Cycle)
    requires FindsMore(g, toSearch[i], t, check0Cycle, t', check0Cycle')
    requires (forall k :: 0 <= k < i ==> toSearch[k] in info) && info <= info' && toSearch[i] in info'
    ensures FindsAll(g, toSearch[..i + 1], t', check0Cycle') && forall k :: 0 <= k < i + 1 ==> toSearch[k] in info'
  {
    FindsAllSnoc(g, toSearch[..i], toSearch[i], t, check0Cycle, t', check0Cycle');
    assert toSearch[..i + 1] == toSearch[..i] + [toSearch[i]];
  }

  lemma AllSearched(g: MappingGraph, ii: nat, toSearch: seq<nat>, t: Times, info: Times, balanced: bool,
                    checkCycle: set<nat>, check0Cycle: set<nat>)
    requires SearchedUpTo(g, ii, toSearch, |toSearch|, t, info, balanced, checkCycle, check0Cycle)
    requires forall n :: n in toSearch <==> n in g.nodes
    ensures t.Keys == g.nodes && FindsAll(g, toSearch, t, check0Cycle)
  {
    assert toSearch[..|toSearch|] == toSearch;
    forall n | n in g.nodes
      ensures n in info
    {
      assert n in toSearch;
    }
  }

  /** Searches all components; a node that has been reached is not searched again. */
  method SearchAll(g: MappingGraph, ii: nat, toSearch: seq<nat>)
    returns (balanced: bool, info: Times, checkCycle: set<nat>, check0Cycle: set<nat>, ghost t: Times)
    requires Mirrored(g) && forall n :: n in toSearch <==> n in g.nodes
    ensures t.Keys == g.nodes && Searched(g, ii, t, info, balanced, checkCycle, check0Cycle)
    ensures FindsAll(g, toSearch, t, check0Cycle)
  {
    balanced, info, checkCycle, check0Cycle, t := true, map[], {}, {}, map[];
    NothingSearched(g, ii);
    for i := 0 to |toSearch|
      invariant SearchedUpTo(g, ii, toSearch, i, t, info, balanced, checkCycle, check0Cycle)
    {
      balanced, info, checkCycle, check0Cycle, t :=
        SearchNext(g, ii, toSearch, i, balanced, info, checkCycle, check0Cycle, t);
    }
    AllSearched(g, ii, toSearch, t, info, balanced, checkCycle, check0Cycle);
  }

  /** Searches the component of the i-th node, unless it has been searched. */
  method SearchNext(g: MappingGraph, ii: nat, toSearch: seq<nat>, i: nat, balanced: bool, info: Times,
                    checkCycle: set<nat>, check0Cycle: set<nat>, ghost t: Times)
    returns (balanced': bool, info': Times, checkCycle': set<nat>, check0Cycle': set<nat>, ghost t': Times)
    requires Mirrored(g) && i < |toSearch| && toSearch[i] in g.nodes
    requires SearchedUpTo(g, ii, toSearch, i, t, info, balanced, checkCycle, check0Cycle)
    ensures SearchedUpTo(g, ii, toSearch, i + 1, t', info', balanced', checkCycle', check0Cycle')
  {
    var n := toSearch[i];
    balanced', info', checkCycle', check0Cycle', t' := balanced, info, checkCycle, check0Cycle, t;
    if n !in info {
      var fine;
      ghost var here, again;
      fine, info', checkCycle', check0Cycle', here, again := LatencyCheckBFS(g, ii, info, n, checkCycle, check0Cycle);
      JoinSearched(g, ii, t, info, balanced, checkCycle, check0Cycle, n, here, info', fine, checkCycle', check0Cycle');
      t', balanced' := t + here, balanced && fine;
    }
    ListedOn(g, toSearch, i, t, check0Cycle, info.Keys, t', check0Cycle', info'.Keys);
  }

  /** The order of the search: nodes without fanins go to the front, the others to the back. */
  function SearchOrder(g: MappingGraph, listed: seq<nat>): seq<nat> {
    if listed == [] then []
    else
      var n := listed[|listed| - 1];
      var order := SearchOrder(g, listed[..|listed| - 1]);
      if Fanin(g, n) == [] then [n] + order else order + [n]
  }

  ghost predicate FaninlessLead(g: MappingGraph, order: seq<nat>) {
    forall i, j :: 0 <= i < j < |order| && Fanin(g, order[j]) == [] ==> Fanin(g, order[i]) == []
  }

  /** The nodes without fanins come first. */
  lemma {:induction false} FaninlessFirst(g: MappingGraph, listed: seq<nat>)
    ensures forall n :: n in SearchOrder(g, listed) <==> n in listed
    ensures FaninlessLead(g, SearchOrder(g, listed))
  {
    if listed != [] {
      var front, n := listed[..|listed| - 1], listed[|listed| - 1];
      var order, longer := SearchOrder(g, front), SearchOrder(g, listed);
      assert listed == front + [n];
      FaninlessFirst(g, front);
      forall i, j | 0 <= i < j < |longer| && Fanin(g, longer[j]) == []
        ensures Fanin(g, longer[i]) == []
      {
        if Fanin(g, n) == [] {
          assert longer == [n] + order && longer[j] == order[j - 1];
          assert i > 0 ==> longer[i] == order[i - 1] && Fanin(g, order[i - 1]) == [];
        } else {
          assert longer == order + [n] && longer[i] == order[i];
          assert j < |order| ==> longer[j] == order[j];
        }
      }
    }
  }

  method OrderNodes(g: MappingGraph, listed: seq<nat>) returns (toSearch: seq<nat>)
    requires forall n :: n in listed <==> n in g.nodes
    ensures toSearch == SearchOrder(g, listed) && forall n :: n in toSearch <==> n in g.nodes
    ensures FaninlessLead(g, toSearch)
  {
    toSearch := [];
    for i := 0 to |listed|
      invariant toSearch == SearchOrder(g, listed[..i])
    {
      assert listed[..i + 1][..i] == listed[..i];
      toSearch := if Fanin(g, listed[i]) == [] then [listed[i]] + toSearch else toSearch + [listed[i]];
    }
    assert listed[..|listed|] == listed;
    FaninlessFirst(g, listed);
  }

  method CheckCycles(g: MappingGraph, ii: nat, checkCycle: set<nat>) returns (balanced: bool)
    requires Mirrored(g) && checkCycle <= g.nodes
    ensures balanced <==> forall n :: n in checkCycle ==> ReturnsOnTime(g, ii, n)
  {
    balanced := true;
    var todo := checkCycle;
    while todo != {}
      invariant todo <= checkCycle
      invariant balanced <==> forall n :: n in checkCycle - todo ==> ReturnsOnTime(g, ii, n)
      decreases todo
    {
      var n :| n in todo;
      todo := todo - {n};
      assert checkCycle - todo == checkCycle - (todo + {n}) + {n};
      var cycle := LatencyCheckBFSCycle(g, ii, n);
      balanced := balanced && cycle;
    }
  }

  // Loops without latency.

  ghost predicate NoStutter(w: seq<nat>) {
    forall i :: 0 <= i < |w| - 1 ==> w[i] != w[i + 1]
  }

  /** Times that explain all latencies make every loop without latency tight. */
  lemma ZeroLoopIsTight(g: MappingGraph, ii: nat, t: Times, w: seq<nat>)
    requires Mirrored(g) && ii > 0 && t.Keys == g.nodes && Explained(g, ii, t)
    requires ZeroLoop(g, w) && NoStutter(w)
    ensures TightLoop(g, t, w[..|w| - 1])
  {
    var c := w[..|w| - 1];
    forall i | 0 <= i < |c|
      ensures TightLink(g, t, c, i)
    {
      assert Next(c, i) == w[i + 1];
      assert w[i + 1] in Fanout(g, w[i]);
      PathStaysInside(g, w, i);
      PathStaysInside(g, w, i + 1);
      if Slack(g, t, w[i], w[i + 1]) != 0 {
        assert Fits(ii, Slack(g, t, w[i], w[i + 1])) && Flagged(g, ii, t, w[i + 1]);
        LoopTurns(g, w, i + 1);
        ReturnsAreLoops(g, ii, w[i + 1]);
      }
    }
  }

  /** A node on the loop is reached, from some node, only after more than an interval. */
  ghost predicate LoopIsLate(g: MappingGraph, ii: nat, w: seq<nat>) {
    exists n :: n in w && Late(g, ii, g.nodes, n)
  }

  /** Every loop without latency of more than one node is late. */
  ghost predicate LoopsAreLate(g: MappingGraph, ii: nat) {
    forall w :: ZeroLoop(g, w) && NoStutter(w) ==> LoopIsLate(g, ii, w)
  }

  lemma LoopLeftIsLate(g: MappingGraph, ii: nat, t: Times, order: seq<nat>, candidates: set<nat>, fuel: nat,
                       w: seq<nat>)
    requires Mirrored(g) && ii > 0 && t.Keys == g.nodes && Explained(g, ii, t)
    requires candidates <= g.nodes && LoopsListed(g, t, candidates) && forall n :: n in order <==> n in candidates
    requires Stage(g, ii, order, candidates, fuel) == Some(true)
    requires ZeroLoop(g, w) && NoStutter(w)
    ensures LoopIsLate(g, ii, w)
  {
    ZeroLoopIsTight(g, ii, t, w);
    var n :| n in w[..|w| - 1] && n in candidates;
    var k :| 0 <= k < |w| - 1 && w[k] == n;
    LoopTurns(g, w, k);
    StageAccepts(g, ii, order, candidates, candidates, fuel);
    assert Late(g, ii, candidates, n);
    assert Late(g, ii, g.nodes, n);
  }

  /** If all stages accept, every loop without latency of more than one node is late. */
  lemma LoopsLeftAreLate(g: MappingGraph, ii: nat, t: Times, order: seq<nat>, candidates: set<nat>, fuel: nat)
    requires Mirrored(g) && t.Keys == g.nodes && Explained(g, ii, t)
    requires candidates <= g.nodes && LoopsListed(g, t, candidates) && forall n :: n in order <==> n in candidates
    requires Stage(g, ii, order, candidates, fuel) == Some(true)
    ensures ii > 0 ==> LoopsAreLate(g, ii)
  {
    if ii > 0 {
      forall w | ZeroLoop(g, w) && NoStutter(w)
        ensures LoopIsLate(g, ii, w)
      {
        LoopLeftIsLate(g, ii, t, order, candidates, fuel, w);
      }
    }
  }

  /** The verdict on the times and candidates of a search, with at most fuel rounds for each search for a
      loop without latency. */
  ghost function Verdict(g: MappingGraph, ii: nat, t: Times, order: seq<nat>, candidates: set<nat>,
                         fuel: nat): Option<bool> {
    var stage := Stage(g, ii, order, candidates, fuel);
    if stage.None? then None else Some(Explained(g, ii, t) && stage.value)
  }

  /** What a verdict says of the graph alone. */
  lemma VerdictMeans(g: MappingGraph, ii: nat, t: Times, order: seq<nat>, candidates: set<nat>, fuel: nat)
    requires Mirrored(g) && Timing(g, t) && candidates <= g.nodes && LoopsListed(g, t, candidates)
    requires ListsOnce(order, candidates)
    ensures Verdict(g, ii, t, order, candidates, fuel) == Some(true) && ii > 0 ==> LoopsAreLate(g, ii)
    ensures Verdict(g, ii, t, order, candidates, fuel) == Some(false) ==>
              (exists t' :: Timing(g, t') && !Explained(g, ii, t')) || exists n :: OnZeroLoop(g, n)
  {
    var stage := Stage(g, ii, order, candidates, fuel);
    if stage == Some(true) && Explained(g, ii, t) {
      LoopsLeftAreLate(g, ii, t, order, candidates, fuel);
    }
    if stage == Some(false) {
      StageRejects(g, ii, order, candidates, fuel);
    }
  }

  /** How sets are traversed. */
  ghost predicate Arranges(arrange: set<nat> -> seq<nat>) {
    forall s :: ListsOnce(arrange(s), s)
  }

  /** The run of the check for a listing of the nodes and a way to traverse sets ends with the verdict. */
  ghost predicate Runs(g: MappingGraph, ii: nat, listed: seq<nat>, arrange: set<nat> -> seq<nat>, fuel: nat,
                       verdict: Option<bool>)
  {
    exists t, candidates :: FindsAll(g, SearchOrder(g, listed), t, candidates) &&
                            verdict == Verdict(g, ii, t, arrange(candidates), candidates, fuel)
  }

  /** latencyCheck, for a listing of the nodes and a way to traverse sets, with at most
      fuel rounds for each search for a loop without latency; None says that one of them did not
      end. The result is the one that Runs describes. The times found hold every component
      together; the check accepts exactly when they explain all latencies and the
      stage of the searches for loops accepts. Whenever some schedule fits all links, the reported
      times are one. */
  method LatencyCheck(g: MappingGraph, ii: nat, listed: seq<nat>, arrange: set<nat> -> seq<nat>, fuel: nat)
    returns (balanced: Option<bool>, info: Times, ghost t: Times, ghost candidates: set<nat>)
    requires Mirrored(g) && (forall n :: n in listed <==> n in g.nodes) && Arranges(arrange)
    ensures Runs(g, ii, listed, arrange, fuel, balanced)
    ensures FindsAll(g, SearchOrder(g, listed), t, candidates) && Timing(g, t)
    ensures candidates <= g.nodes && LoopsListed(g, t, candidates)
    ensures balanced == Verdict(g, ii, t, arrange(candidates), candidates, fuel)
    ensures balanced == Some(true) && ii > 0 ==> LoopsAreLate(g, ii)
    ensures balanced == Some(false) ==>
              (exists t' :: Timing(g, t') && !Explained(g, ii, t')) || exists n :: OnZeroLoop(g, n)
    ensures info.Keys == g.nodes && forall n :: n in info ==> info[n] >= 0
    ensures balanced == Some(true) ==> WaitsIntervals(g, ii, info)
    ensures Schedulable(g) ==> Schedule(g, info) && Explained(g, ii, t)
  {
    var toSearch := OrderNodes(g, listed);
    var fine, checkCycle, check0Cycle;
    fine, info, checkCycle, check0Cycle, t := SearchAll(g, ii, toSearch);
    candidates := check0Cycle;
    var cycles := CheckCycles(g, ii, checkCycle);
    assert ListsOnce(arrange(check0Cycle), check0Cycle);
    assert Members(arrange(check0Cycle)) == check0Cycle;
    var noLoops := CheckZeroCycles(g, ii, arrange(check0Cycle), fuel);
    balanced := if noLoops.None? then None else Some(fine && cycles && noLoops.value);
    VerdictMeans(g, ii, t, arrange(candidates), candidates, fuel);
  }

  lemma RunsOnce(g: MappingGraph, ii: nat, listed: seq<nat>, arrange: set<nat> -> seq<nat>, fuel: nat,
                 verdict: Option<bool>, verdict': Option<bool>)
    requires Runs(g, ii, listed, arrange, fuel, verdict) && Runs(g, ii, listed, arrange, fuel, verdict')
    ensures verdict == verdict'
  {
    var t, x :| FindsAll(g, SearchOrder(g, listed), t, x) && verdict == Verdict(g, ii, t, arrange(x), x, fuel);
    var t', x' :| FindsAll(g, SearchOrder(g, listed), t', x') && verdict' == Verdict(g, ii, t', arrange(x'), x', fuel);
    FindsAllOnce(g, SearchOrder(g, listed), t, x, t', x');
  }

  /** If all times that a search may compute explain the latencies, and there is no loop without latency, every run
      accepts that is given rounds enough. */
  lemma EveryRunAccepts(g: MappingGraph, ii: nat, listed: seq<nat>, arrange: set<nat> -> seq<nat>)
    requires Mirrored(g) && (forall n :: n in listed <==> n in g.nodes)
    requires (forall t :: Timing(g, t) ==> Explained(g, ii, t)) && forall n :: !OnZeroLoop(g, n)
    ensures exists fuel: nat :: Runs(g, ii, listed, arrange, fuel, Some(true))
  {
    FaninlessFirst(g, listed);
    var t, candidates := SearchesEnd(g, SearchOrder(g, listed));
    FindsAllIsTiming(g, SearchOrder(g, listed), t, candidates);
    StageEnds(g, ii, arrange(candidates), candidates);
    var fuel: nat :| Stage(g, ii, arrange(candidates), candidates, fuel) == Some(true);
    assert Runs(g, ii, listed, arrange, fuel, Some(true));
  }

  /** If no times that a search may compute explain the latencies, no run accepts. */
  lemma NoRunAccepts(g: MappingGraph, ii: nat, listed: seq<nat>, arrange: set<nat> -> seq<nat>, fuel: nat)
    requires Mirrored(g) && (forall n :: n in listed <==> n in g.nodes)
    requires forall t :: Timing(g, t) ==> !Explained(g, ii, t)
    ensures !Runs(g, ii, listed, arrange, fuel, Some(true))
  {
    FaninlessFirst(g, listed);
    forall t, x | FindsAll(g, SearchOrder(g, listed), t, x)
      ensures Timing(g, t)
    {
      FindsAllIsTiming(g, SearchOrder(g, listed), t, x);
    }
  }

  lemma AcceptedIsExplained(g: MappingGraph, ii: nat, listed: seq<nat>, t: Times, candidates: set<nat>,
                            arrange: set<nat> -> seq<nat>, fuel: nat)
    requires FindsAll(g, SearchOrder(g, listed), t, candidates) && Arranges(arrange)
    requires Runs(g, ii, listed, arrange, fuel, Some(true))
    ensures Explained(g, ii, t) && ListsOnce(arrange(candidates), candidates)
    ensures StageMayEnd(g, ii, arrange(candidates), candidates)
  {
    var t', x :| FindsAll(g, SearchOrder(g, listed), t', x) && Some(true) == Verdict(g, ii, t', arrange(x), x, fuel);
    FindsAllOnce(g, SearchOrder(g, listed), t, candidates, t', x);
    assert Stage(g, ii, arrange(candidates), candidates, fuel) == Some(true);
  }

  lemma ExplainedMayBeAccepted(g: MappingGraph, ii: nat, listed: seq<nat>, t: Times, candidates: set<nat>,
                               order: seq<nat>)
    returns (arrange: set<nat> -> seq<nat>, fuel: nat)
    requires FindsAll(g, SearchOrder(g, listed), t, candidates) && Explained(g, ii, t)
    requires ListsOnce(order, candidates) && StageMayEnd(g, ii, order, candidates)
    ensures Arranges(arrange) && Runs(g, ii, listed, arrange, fuel, Some(true))
  {
    fuel :| Stage(g, ii, order, candidates, fuel) == Some(true);
    arrange := (s: set<nat>) => if s == candidates then order else ListingOf(s);
    assert arrange(candidates) == order;
  }

  /** For given times and candidates, some traversal of the candidates makes the check accept exactly when the
      times explain all latencies and some of the candidates clear the others. */
  lemma SomeTraversalAccepts(g: MappingGraph, ii: nat, listed: seq<nat>, t: Times, candidates: set<nat>)
    requires Mirrored(g) && (forall n :: n in listed <==> n in g.nodes)
    requires FindsAll(g, SearchOrder(g, listed), t, candidates)
    ensures (exists arrange, fuel: nat :: Arranges(arrange) && Runs(g, ii, listed, arrange, fuel, Some(true))) <==>
            Explained(g, ii, t) && exists chosen :: Clears(g, ii, candidates, chosen)
  {
    FaninlessFirst(g, listed);
    FindsAllIsTiming(g, SearchOrder(g, listed), t, candidates);
    StageMayAccept(g, ii, candidates);
    if arrange, fuel: nat :| Arranges(arrange) && Runs(g, ii, listed, arrange, fuel, Some(true)) {
      AcceptedIsExplained(g, ii, listed, t, candidates, arrange, fuel);
    }
    if Explained(g, ii, t) && exists chosen :: Clears(g, ii, candidates, chosen) {
      var order :| ListsOnce(order, candidates) && StageMayEnd(g, ii, order, candidates);
      var arrange, fuel := ExplainedMayBeAccepted(g, ii, listed, t, candidates, order);
    }
  }
}

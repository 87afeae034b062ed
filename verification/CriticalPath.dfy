/**
 Worst-case start times of dependent tasks. A dependent task cannot be expected to start
 before its own activation time, before the epoch, or before any prerequisite has ended
 in the worst case. The equations say this one step at a time; the chains say it at once.
 */
module CriticalPath {
  import opened Wrappers
  import opened Graph
  import opened Tasks

  /** The "depends" mark is set by a non-empty row and never reset. */
  predicate Marked(views: seq<TaskView>, adj: Matrix, i: nat)
    requires i < |views| && i < |adj|
  {
    views[i].dependent || adj[i] != []
  }

  function OwnStart(v: TaskView): int {
    if v.times.hasActivation && 0 < v.times.activation then v.times.activation else 0
  }

  function Duration(v: TaskView): nat {
    WholeSeconds(v.times.maxDuration)
  }

  /** The worst-case end of task `d`, given the worst-case starts. */
  function End(views: seq<TaskView>, adj: Matrix, starts: seq<int>, d: nat): int
    requires d < |views| && d < |adj| && d < |starts|
  {
    if Marked(views, adj, d) then starts[d] + Duration(views[d]) else views[d].times.expiration
  }

  /** `start` is the largest of the own start of `i` and the ends of its prerequisites. */
  ghost predicate IsWorstStart(views: seq<TaskView>, adj: Matrix, starts: seq<int>, i: nat)
    requires |starts| == |views| && InRange(adj, |views|) && i < |views|
  {
    && OwnStart(views[i]) <= starts[i]
    && (forall d :: d in adj[i] ==> End(views, adj, starts, d) <= starts[i])
    && (starts[i] == OwnStart(views[i]) || exists d :: d in adj[i] && End(views, adj, starts, d) == starts[i])
  }

  lemma WorstStartFrame(views: seq<TaskView>, adj: Matrix, starts: seq<int>, starts': seq<int>, i: nat)
    requires |starts| == |starts'| == |views| && InRange(adj, |views|) && i < |views|
    requires IsWorstStart(views, adj, starts, i)
    requires starts'[i] == starts[i] && forall d :: d in adj[i] ==> starts'[d] == starts[d]
    ensures IsWorstStart(views, adj, starts', i)
  {
    assert forall d :: d in adj[i] ==> End(views, adj, starts', d) == End(views, adj, starts, d);
  }

  /** The critical-path equations for every dependent task. */
  ghost predicate Solves(views: seq<TaskView>, adj: Matrix, starts: seq<int>) {
    && |starts| == |views|
    && InRange(adj, |views|)
    && forall i :: 0 <= i < |views| && Marked(views, adj, i) ==> IsWorstStart(views, adj, starts, i)
  }

  /** `SetExpirationTime` as a function: a stop in the past or not after the activation is refused. */
  function AfterExpirationSet(times: Times, stop: int, now: int): Times {
    if stop < now || (times.hasActivation && stop <= times.activation) then times
    else times.(hasExpiration := true, expiration := stop,
                expirationTimeout := Restarted(times.expirationTimeout, stop, now))
  }

  /** A task once its row of the matrix has been recorded in it. */
  function Recorded(v: TaskView, row: seq<nat>): TaskView {
    v.(dependent := v.dependent || row != [], depIndexes := row)
  }

  /** A dependent task that is given a worst-case start. */
  function Rescheduled(v: TaskView, start: int, now: int): TaskView {
    var stop := start + Duration(v);
    v.(expMaxActivation := start, expMaxExpiration := stop, times := AfterExpirationSet(v.times, stop, now))
  }

  /** A task after scheduling, given its row of the matrix and its worst-case start. */
  function Scheduled(v: TaskView, row: seq<nat>, start: int, now: int): TaskView {
    var r := Recorded(v, row);
    if r.dependent then Rescheduled(r, start, now) else r
  }

  // ----- the same in the fields of the tasks -----

  /** What the pass has left in task `i`: its times are those of the fields of its prerequisites. */
  ghost predicate TimesInFields(before: seq<TaskView>, after: seq<TaskView>, adj: Matrix, now: int, i: nat)
    requires |before| == |after| && InRange(adj, |before|) && i < |before|
  {
    var v, w := before[i], after[i];
    && w.depIndexes == adj[i] && (w.dependent <==> v.dependent || adj[i] != [])
    && (!w.dependent ==> w == v.(depIndexes := []))
    && (w.dependent ==>
         && w.expMaxActivation >= 0
         && (v.times.hasActivation ==> v.times.activation <= w.expMaxActivation)
         && (forall d :: d in adj[i] && after[d].dependent ==> after[d].expMaxExpiration <= w.expMaxActivation)
         && (forall d :: d in adj[i] && !after[d].dependent ==> after[d].times.expiration <= w.expMaxActivation)
         && (|| w.expMaxActivation == 0
             || (v.times.hasActivation && w.expMaxActivation == v.times.activation)
             || (exists d :: d in adj[i] && after[d].dependent && after[d].expMaxExpiration == w.expMaxActivation)
             || (exists d :: d in adj[i] && !after[d].dependent && after[d].times.expiration == w.expMaxActivation))
         && w.expMaxExpiration == w.expMaxActivation + v.times.maxDuration / 1000 * 1000
         && (w.times.expiration, w.times.hasExpiration) ==
             (if w.expMaxExpiration < now || (v.times.hasActivation && w.expMaxExpiration <= v.times.activation)
              then (v.times.expiration, v.times.hasExpiration) else (w.expMaxExpiration, true))
         && w.times.expirationTimeout ==
             (if w.expMaxExpiration <= now || (v.times.hasActivation && w.expMaxExpiration <= v.times.activation)
              then v.times.expirationTimeout else Some(w.expMaxExpiration))
         && w == v.(dependent := true, depIndexes := adj[i],
                    expMaxActivation := w.expMaxActivation, expMaxExpiration := w.expMaxExpiration,
                    times := v.times.(hasExpiration := w.times.hasExpiration, expiration := w.times.expiration,
                                      expirationTimeout := w.times.expirationTimeout)))
  }

  /** The critical path of every task, in the fields that the pass leaves. */
  ghost predicate CriticalTimes(before: seq<TaskView>, after: seq<TaskView>, adj: Matrix, now: int) {
    && |before| == |after| && InRange(adj, |before|)
    && forall i :: 0 <= i < |before| ==> TimesInFields(before, after, adj, now, i)
  }

  lemma EndInFields(before: seq<TaskView>, adj: Matrix, starts: seq<int>, now: int, d: nat)
    requires d < |before| && d < |adj| && d < |starts|
    ensures var w := Scheduled(before[d], adj[d], starts[d], now);
      End(before, adj, starts, d) == if w.dependent then w.expMaxExpiration else w.times.expiration
  {
  }

  lemma ScheduledTimesInFields(
      before: seq<TaskView>, after: seq<TaskView>, adj: Matrix, starts: seq<int>, now: int, i: nat)
    requires Solves(before, adj, starts) && |after| == |before| && i < |before|
    requires forall k :: 0 <= k < |before| ==> after[k] == Scheduled(before[k], adj[k], starts[k], now)
    ensures TimesInFields(before, after, adj, now, i)
  {
    forall d | d in adj[i]
      ensures End(before, adj, starts, d) ==
        if after[d].dependent then after[d].expMaxExpiration else after[d].times.expiration
    {
      EndInFields(before, adj, starts, now, d);
    }
    hide End;
    assert Marked(before, adj, i) ==> IsWorstStart(before, adj, starts, i);
  }

  lemma SolutionInFields(before: seq<TaskView>, after: seq<TaskView>, adj: Matrix, starts: seq<int>, now: int)
    requires Solves(before, adj, starts) && |after| == |before|
    requires forall k :: 0 <= k < |before| ==> after[k] == Scheduled(before[k], adj[k], starts[k], now)
    ensures CriticalTimes(before, after, adj, now)
  {
    forall i | 0 <= i < |before|
      ensures TimesInFields(before, after, adj, now, i)
    {
      ScheduledTimesInFields(before, after, adj, starts, now, i);
    }
  }

  /** A task whose activation is no earlier than the epoch and every prerequisite's end starts exactly then. */
  lemma ActivationDecides(before: seq<TaskView>, after: seq<TaskView>, adj: Matrix, now: int, i: nat)
    requires CriticalTimes(before, after, adj, now) && i < |before| && after[i].dependent
    requires before[i].times.hasActivation && before[i].times.activation >= 0
    requires forall d :: d in adj[i] && after[d].dependent ==> after[d].expMaxExpiration <= before[i].times.activation
    requires forall d :: d in adj[i] && !after[d].dependent ==> after[d].times.expiration <= before[i].times.activation
    ensures after[i].expMaxActivation == before[i].times.activation
    ensures after[i].expMaxExpiration == before[i].times.activation + before[i].times.maxDuration / 1000 * 1000
  {
    assert TimesInFields(before, after, adj, now, i);
  }

  // ----- one pass over the tasks -----

  /** When a task ends in the worst case, as recorded in it. */
  function RecordedEnd(v: TaskView): int {
    if v.dependent then v.expMaxExpiration else v.times.expiration
  }

  /** `start` is the largest of the own start of `v` and the recorded ends of its prerequisites. */
  ghost predicate FollowsRecordedEnds(current: seq<TaskView>, v: TaskView, start: int)
    requires forall d :: d in v.depIndexes ==> 0 <= d < |current|
  {
    && OwnStart(v) <= start
    && (forall d :: d in v.depIndexes ==> RecordedEnd(current[d]) <= start)
    && (start == OwnStart(v) || exists d :: d in v.depIndexes && RecordedEnd(current[d]) == start)
  }

  /**
   In the fields of `v` and of its prerequisites as they are now: `start` is no earlier than the
   epoch, the activation of `v`, and the end of any prerequisite, and is one of these.
   */
  ghost predicate StartsWhenPossible(current: seq<TaskView>, v: TaskView, start: int)
    requires forall d :: d in v.depIndexes ==> 0 <= d < |current|
  {
    && start >= 0
    && (v.times.hasActivation ==> v.times.activation <= start)
    && (forall d :: d in v.depIndexes && current[d].dependent ==> current[d].expMaxExpiration <= start)
    && (forall d :: d in v.depIndexes && !current[d].dependent ==> current[d].times.expiration <= start)
    && (|| start == 0
        || (v.times.hasActivation && start == v.times.activation)
        || (exists d :: d in v.depIndexes && current[d].dependent && current[d].expMaxExpiration == start)
        || (exists d :: d in v.depIndexes && !current[d].dependent && current[d].times.expiration == start))
  }

  lemma RecordedEndsInFields(current: seq<TaskView>, v: TaskView, start: int)
    requires forall d :: d in v.depIndexes ==> 0 <= d < |current|
    ensures FollowsRecordedEnds(current, v, start) <==> StartsWhenPossible(current, v, start)
  {
    forall d | d in v.depIndexes
      ensures RecordedEnd(current[d]) ==
        if current[d].dependent then current[d].expMaxExpiration else current[d].times.expiration
    {
    }
  }

  /** The tasks in `done` have their final times, and with them all their prerequisites. */
  ghost predicate Halfway(
      views: seq<TaskView>, current: seq<TaskView>, adj: Matrix, starts: seq<int>, now: int, done: set<nat>)
  {
    && |views| == |current| == |starts|
    && InRange(adj, |views|)
    && (forall i :: 0 <= i < |views| && i !in done ==> current[i] == Recorded(views[i], adj[i]))
    && (forall i :: 0 <= i < |views| && i in done ==> current[i] == Scheduled(views[i], adj[i], starts[i], now))
    && (forall i :: 0 <= i < |views| && i in done ==> forall d :: d in adj[i] ==> d in done)
    && (forall i :: 0 <= i < |views| && i in done && Marked(views, adj, i) ==> IsWorstStart(views, adj, starts, i))
  }

  function NoStarts(n: nat): (r: seq<int>)
    ensures |r| == n
  {
    seq(n, _ => 0)
  }

  lemma RecordedIsHalfway(views: seq<TaskView>, current: seq<TaskView>, adj: Matrix, now: int)
    requires |views| == |current| && InRange(adj, |views|)
    requires forall i :: 0 <= i < |views| ==> current[i] == Recorded(views[i], adj[i])
    ensures Halfway(views, current, adj, NoStarts(|views|), now, {})
  {
  }

  lemma HalfwayDone(
      views: seq<TaskView>, current: seq<TaskView>, adj: Matrix, starts: seq<int>, now: int, done: set<nat>)
    requires Halfway(views, current, adj, starts, now, done) && forall i :: 0 <= i < |views| ==> i in done
    ensures Solves(views, adj, starts)
    ensures forall i :: 0 <= i < |views| ==> current[i] == Scheduled(views[i], adj[i], starts[i], now)
  {
  }

  lemma HalfwayStep(
      views: seq<TaskView>, current: seq<TaskView>, adj: Matrix, starts: seq<int>, now: int, done: set<nat>,
      index: nat, start: int)
    requires Halfway(views, current, adj, starts, now, done)
    requires index < |views| && index !in done && forall d :: d in adj[index] ==> d in done
    requires Marked(views, adj, index) ==> FollowsRecordedEnds(current, current[index], start)
    ensures Halfway(views, current[index := Scheduled(views[index], adj[index], start, now)], adj,
                    starts[index := start], now, done + {index})
  {
    var starts' := starts[index := start];
    forall d | d in adj[index]
      ensures RecordedEnd(current[d]) == End(views, adj, starts', d)
    {
    }
    forall i | 0 <= i < |views| && i in done && Marked(views, adj, i)
      ensures IsWorstStart(views, adj, starts', i)
    {
      WorstStartFrame(views, adj, starts, starts', i);
    }
  }

  // ----- the same value as a maximum over dependency chains -----

  ghost predicate IsChain(views: seq<TaskView>, adj: Matrix, p: seq<nat>, i: nat) {
    IsPath(adj, |views|, p) && p[0] == i && forall k :: 0 <= k < |p| ==> p[k] < |views|
  }

  /** The start a chain forces on its first task: durations add up from the far end. */
  ghost function ChainStart(views: seq<TaskView>, adj: Matrix, p: seq<nat>): int
    requires InRange(adj, |views|) && |p| >= 1 && forall k :: 0 <= k < |p| ==> p[k] < |views|
  {
    if |p| == 1 then OwnStart(views[p[0]])
    else if Marked(views, adj, p[1]) then ChainStart(views, adj, p[1..]) + Duration(views[p[1]])
    else views[p[1]].times.expiration
  }

  lemma {:induction false} ChainIsLowerBound(views: seq<TaskView>, adj: Matrix, starts: seq<int>, p: seq<nat>, i: nat)
    requires Solves(views, adj, starts) && IsChain(views, adj, p, i) && Marked(views, adj, i)
    ensures ChainStart(views, adj, p) <= starts[i]
    decreases |p|
  {
    assert IsWorstStart(views, adj, starts, i);
    if |p| >= 2 {
      var q := p[1..];
      assert Edge(adj, p[0], p[1]);
      assert End(views, adj, starts, p[1]) <= starts[i];
      if Marked(views, adj, p[1]) {
        assert IsChain(views, adj, q, p[1]) by {
          forall k | 0 <= k < |q| - 1
            ensures Edge(adj, q[k], q[k + 1])
          {
            assert Edge(adj, p[k + 1], p[k + 2]);
          }
        }
        ChainIsLowerBound(views, adj, starts, q, p[1]);
      }
    }
  }

  lemma {:induction false} SomeChainAttains(
      views: seq<TaskView>, adj: Matrix, starts: seq<int>, order: seq<nat>, i: nat) returns (p: seq<nat>)
    requires Solves(views, adj, starts) && Postorder(adj, |views|, order)
    requires i in order && Marked(views, adj, i)
    ensures IsChain(views, adj, p, i) && ChainStart(views, adj, p) == starts[i]
    decreases IndexOf(order, i)
  {
    var k := IndexOf(order, i);
    assert IsWorstStart(views, adj, starts, i);
    p := [i];
    if starts[i] != OwnStart(views[i]) {
      var d :| d in adj[i] && End(views, adj, starts, d) == starts[i];
      assert d in order[..k];
      var j := IndexOf(order[..k], d);
      assert order[j] == d && IndexOf(order, d) == j;
      var q := [d];
      if Marked(views, adj, d) {
        q := SomeChainAttains(views, adj, starts, order, d);
      }
      p := [i] + q;
      assert p[1..] == q && p[1] == d;
      forall m | 0 <= m < |p| - 1
        ensures Edge(adj, p[m], p[m + 1])
      {
        if m > 0 {
          assert Edge(adj, q[m - 1], q[m]);
        }
      }
    }
  }

  /** `start` is attained by some chain from `i` and bounds every chain from `i`. */
  ghost predicate IsLongestChain(views: seq<TaskView>, adj: Matrix, i: nat, start: int)
    requires InRange(adj, |views|)
  {
    && (forall p :: IsChain(views, adj, p, i) ==> ChainStart(views, adj, p) <= start)
    && exists p :: IsChain(views, adj, p, i) && ChainStart(views, adj, p) == start
  }

  /** Solutions of the equations are the longest chains, whatever order produced them. */
  lemma SolutionIsLongestChain(views: seq<TaskView>, adj: Matrix, starts: seq<int>, order: seq<nat>)
    requires Solves(views, adj, starts)
    requires Postorder(adj, |views|, order) && forall i :: 0 <= i < |views| ==> i in order
    ensures forall i :: 0 <= i < |views| && Marked(views, adj, i) ==> IsLongestChain(views, adj, i, starts[i])
  {
    forall i | 0 <= i < |views| && Marked(views, adj, i)
      ensures IsLongestChain(views, adj, i, starts[i])
    {
      forall p | IsChain(views, adj, p, i)
        ensures ChainStart(views, adj, p) <= starts[i]
      {
        ChainIsLowerBound(views, adj, starts, p, i);
      }
      var p := SomeChainAttains(views, adj, starts, order, i);
    }
  }
}

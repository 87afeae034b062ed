/** What a single pop takes from the queue, what it waits for, and how it drains the queue. */
module PopProperties {
  import opened Wrappers
  import opened Tasks
  import opened TaskOrder
  import opened TaskSequences
  import opened Scheduler
  import opened Scheduling
  import opened QueueInvariants

  lemma SortedIsDistinct(w: World, q: seq<Task>, i: nat, j: nat)
    requires Lawful(w) && Sorted(w, q) && i < j < |q|
    ensures q[i] != q[j]
  {
    BeforeIsTotal(w, q[i], q[i]);
  }

  /** Marking an uncompleted task as expired makes nothing runnable and blocks nothing else. */
  lemma ExpiringKeepsOthers(w: World, seqs: seq<TaskSequence>, st: StatusMap, t: Task, u: Task, now: int)
    requires StatusOf(st, t) != COMPLETED && u != t
    ensures CanRun(w, seqs, st[t := EXPIRED], u, now) == CanRun(w, seqs, st, u, now)
  {
    var v := w.View(u);
    var found := FindSequence(w, seqs, v.sequenceId, v.sequenceName);
    if found.Some? {
      assert PrerequisitesCompleted(w, st[t := EXPIRED], found.value, v.depIndexes)
          == PrerequisitesCompleted(w, st, found.value, v.depIndexes);
    }
  }

  predicate Waits(w: World, t: Task, now: int) {
    w.View(t).times.WaitingForActivation(now) && !w.View(t).times.ExpirationReached(now)
  }

  // ----- the task that is taken -----

  /** `p` is recorded as a prerequisite of `u` in the sequence that the manager finds for it. */
  predicate Requires(w: World, seqs: seq<TaskSequence>, u: Task, p: Task) {
    var v := w.View(u);
    var found := FindSequence(w, seqs, v.sequenceId, v.sequenceName);
    && v.inSequence && v.dependent && found.Some?
    && var tasks := w.Seq(found.value).tasks;
      exists d :: d in v.depIndexes && 0 <= d < |tasks| && tasks[d] == p
  }

  /** `p` is a prerequisite of `u` before it in the queue and has expired. */
  predicate Blocks(w: World, seqs: seq<TaskSequence>, p: Task, u: Task, now: int) {
    Requires(w, seqs, u, p) && w.Before(p, u) && w.View(p).times.ExpirationReached(now)
  }

  /** The scan marks a prerequisite of `u` as expired before it comes to `u`. */
  predicate Passed(w: World, s: State, u: Task, now: int) {
    exists i :: 0 <= i < |s.queue| && Blocks(w, s.sequences, s.queue[i], u, now)
  }

  /** A task that a pop can take: runnable, and not passed over. */
  predicate Ready(w: World, s: State, u: Task, now: int) {
    u in s.queue && CanRun(w, s.sequences, s.status, u, now) && !Passed(w, s, u, now)
  }

  /** The statuses when the scan has passed over the first `m` tasks of the queue. */
  function MarkedTo(w: World, q: seq<Task>, st: StatusMap, now: int, m: nat): StatusMap
    requires m <= |q|
  {
    if m == 0 then st
    else if w.View(q[m - 1]).times.ExpirationReached(now) then MarkedTo(w, q, st, now, m - 1)[q[m - 1] := EXPIRED]
    else MarkedTo(w, q, st, now, m - 1)
  }

  lemma {:induction false} MarkedStatus(w: World, q: seq<Task>, st: StatusMap, now: int, m: nat, t: Task)
    requires m <= |q|
    ensures StatusOf(MarkedTo(w, q, st, now, m), t) ==
      if t in q[..m] && w.View(t).times.ExpirationReached(now) then EXPIRED else StatusOf(st, t)
  {
    if m > 0 {
      MarkedStatus(w, q, st, now, m - 1, t);
      assert q[..m] == q[..m - 1] + [q[m - 1]];
    }
  }

  /** One step of the scan over marked statuses. */
  lemma ScanMarkedNext(
      w: World, seqs: seq<TaskSequence>, q: seq<Task>, st: StatusMap, now: int, i: nat, waiting: Option<nat>)
    returns (waiting': Option<nat>)
    requires i < |q| && (waiting.Some? ==> waiting.value < i)
    ensures waiting'.Some? ==> waiting'.value < i + 1
    ensures Scan(w, seqs, q, MarkedTo(w, q, st, now, i), now, i, waiting) ==
      if CanRun(w, seqs, MarkedTo(w, q, st, now, i), q[i], now)
      then ScanResult(MarkedTo(w, q, st, now, i), Some(i), waiting)
      else Scan(w, seqs, q, MarkedTo(w, q, st, now, i + 1), now, i + 1, waiting')
  {
    hide CanRun;
    var times := w.View(q[i]).times;
    waiting' :=
      if !times.ExpirationReached(now) && times.WaitingForActivation(now) && waiting.None? then Some(i) else waiting;
  }

  /** The scan stops at the first task that is runnable after what it has marked before it. */
  lemma {:induction false} ScanStopsAtFirst(
      w: World, seqs: seq<TaskSequence>, q: seq<Task>, st: StatusMap, now: int, i: nat, waiting: Option<nat>)
    requires i <= |q| && (waiting.Some? ==> waiting.value < i)
    ensures var r := Scan(w, seqs, q, MarkedTo(w, q, st, now, i), now, i, waiting).runnable;
      && (r.Some? ==> i <= r.value && CanRun(w, seqs, MarkedTo(w, q, st, now, r.value), q[r.value], now))
      && forall m :: i <= m < (if r.Some? then r.value else |q|) ==>
           !CanRun(w, seqs, MarkedTo(w, q, st, now, m), q[m], now)
    decreases |q| - i
  {
    if i < |q| {
      var waiting' := ScanMarkedNext(w, seqs, q, st, now, i, waiting);
      hide CanRun, MarkedTo, Scan;
      if !CanRun(w, seqs, MarkedTo(w, q, st, now, i), q[i], now) {
        ScanStopsAtFirst(w, seqs, q, st, now, i + 1, waiting');
      }
    }
  }

  lemma RequiredAreCompleted(w: World, seqs: seq<TaskSequence>, st: StatusMap, u: Task, p: Task, now: int)
    requires CanRun(w, seqs, st, u, now) && Requires(w, seqs, u, p)
    ensures StatusOf(st, p) == COMPLETED
  {
  }

  /** Marking what comes before a task leaves it runnable exactly if none of its prerequisites is marked. */
  lemma RunnableWhenReached(w: World, seqs: seq<TaskSequence>, q: seq<Task>, st: StatusMap, now: int, m: nat)
    requires m < |q| && q[m] !in q[..m]
    ensures CanRun(w, seqs, MarkedTo(w, q, st, now, m), q[m], now) <==>
      && CanRun(w, seqs, st, q[m], now)
      && forall k :: 0 <= k < m && Requires(w, seqs, q[m], q[k]) ==> !w.View(q[k]).times.ExpirationReached(now)
  {
    var u, st' := q[m], MarkedTo(w, q, st, now, m);
    var v := w.View(u);
    MarkedStatus(w, q, st, now, m, u);
    hide MarkedTo;
    if CanRun(w, seqs, st', u, now) {
      forall k | 0 <= k < m && Requires(w, seqs, u, q[k])
        ensures !w.View(q[k]).times.ExpirationReached(now)
      {
        RequiredAreCompleted(w, seqs, st', u, q[k], now);
        MarkedStatus(w, q, st, now, m, q[k]);
        assert q[k] in q[..m];
      }
    }
    var found := FindSequence(w, seqs, v.sequenceId, v.sequenceName);
    if found.Some? && v.inSequence && v.dependent {
      var tasks := w.Seq(found.value).tasks;
      forall d | d in v.depIndexes && 0 <= d < |tasks|
        ensures Requires(w, seqs, u, tasks[d])
        ensures StatusOf(st', tasks[d]) == if tasks[d] in q[..m] && w.View(tasks[d]).times.ExpirationReached(now)
                                           then EXPIRED else StatusOf(st, tasks[d])
      {
        MarkedStatus(w, q, st, now, m, tasks[d]);
      }
    }
  }

  /** In a sorted queue, what is before a task stands before it. */
  lemma StandsBefore(w: World, q: seq<Task>, p: Task, m: nat) returns (k: nat)
    requires Lawful(w) && Sorted(w, q) && m < |q| && p in q && w.Before(p, q[m])
    ensures k < m && q[k] == p
  {
    k :| 0 <= k < |q| && q[k] == p;
    BeforeIsTotal(w, p, q[m]);
  }

  /** In the purged queue, the prerequisites that come before a runnable task are those that could block it. */
  lemma PassedInQueue(w: World, s: State, q: seq<Task>, m: nat, now: int)
    requires Lawful(w) && QueueInOrder(w, s) && q == Without(w, s.status, s.queue, ByStatus(EXPIRED))
    requires m < |q| && CanRun(w, s.sequences, s.status, q[m], now)
    ensures Passed(w, s, q[m], now) <==>
      exists k :: 0 <= k < m && Requires(w, s.sequences, q[m], q[k]) && w.View(q[k]).times.ExpirationReached(now)
  {
    hide CanRun, Requires, Lawful, World.Before;
    WithoutMembers(w, s.status, s.queue, ByStatus(EXPIRED));
    WithoutKeepsSorted(w, s.status, s.queue, ByStatus(EXPIRED));
    hide Without;
    if k :| 0 <= k < m && Requires(w, s.sequences, q[m], q[k]) && w.View(q[k]).times.ExpirationReached(now) {
      assert q[k] in q && w.Before(q[k], q[m]);
      var i :| 0 <= i < |s.queue| && s.queue[i] == q[k];
      assert Blocks(w, s.sequences, s.queue[i], q[m], now);
    }
    if Passed(w, s, q[m], now) {
      var i :| 0 <= i < |s.queue| && Blocks(w, s.sequences, s.queue[i], q[m], now);
      RequiredAreCompleted(w, s.sequences, s.status, q[m], s.queue[i], now);
      var k := StandsBefore(w, q, s.queue[i], m);
    }
  }

  /** In the purged queue, the tasks that the scan can take are the ready ones. */
  lemma ReadyWhenReached(w: World, s: State, q: seq<Task>, m: nat, now: int)
    requires Lawful(w) && QueueInOrder(w, s) && q == Without(w, s.status, s.queue, ByStatus(EXPIRED))
    requires m < |q|
    ensures CanRun(w, s.sequences, MarkedTo(w, q, s.status, now, m), q[m], now) <==> Ready(w, s, q[m], now)
  {
    WithoutMembers(w, s.status, s.queue, ByStatus(EXPIRED));
    WithoutKeepsSorted(w, s.status, s.queue, ByStatus(EXPIRED));
    assert q[m] in q;
    assert q[m] !in q[..m] by {
      forall k | 0 <= k < m
        ensures q[k] != q[m]
      {
        SortedIsDistinct(w, q, k, m);
      }
    }
    RunnableWhenReached(w, s.sequences, q, s.status, now, m);
    hide CanRun, MarkedTo, Passed, Lawful, Requires, Without, QueueInOrder;
    if CanRun(w, s.sequences, s.status, q[m], now) {
      PassedInQueue(w, s, q, m, now);
    }
  }

  /** The scan that a pop makes. */
  function ScanOf(w: World, s: State, q: seq<Task>, now: int): (r: Option<nat>)
    ensures r.Some? ==> r.value < |q|
  {
    Scan(w, s.sequences, q, s.status, now, 0, None).runnable
  }

  /** Without the end signal a pop takes what the scan of the purged queue finds. */
  lemma PopTakesFound(w: World, s: State, q: seq<Task>, now: int)
    requires q == Without(w, s.status, s.queue, ByStatus(EXPIRED))
    ensures var outcome, r := Pop(w, s, now).1, ScanOf(w, s, q, now);
      && (outcome.Popped? <==> !s.end && r.Some?)
      && (outcome.Popped? ==> outcome.task == q[r.value])
  {
    hide CanRun;
  }

  /** The scan finds the first ready task of the purged queue. */
  lemma FoundIsFirstReady(w: World, s: State, q: seq<Task>, now: int)
    requires Lawful(w) && QueueInOrder(w, s) && q == Without(w, s.status, s.queue, ByStatus(EXPIRED))
    ensures var r := ScanOf(w, s, q, now);
      && (r.Some? ==> Ready(w, s, q[r.value], now))
      && forall m :: 0 <= m < (if r.Some? then r.value else |q|) ==> !Ready(w, s, q[m], now)
  {
    ScanStopsAtFirst(w, s.sequences, q, s.status, now, 0, None);
    hide CanRun, Ready, Lawful, Scan, Without, QueueInOrder;
    var r := ScanOf(w, s, q, now);
    forall m | 0 <= m < |q|
      ensures CanRun(w, s.sequences, MarkedTo(w, q, s.status, now, m), q[m], now) <==> Ready(w, s, q[m], now)
    {
      ReadyWhenReached(w, s, q, m, now);
    }
  }

  /** Ready tasks survive the purge. */
  lemma ReadyIsInPurged(w: World, s: State, q: seq<Task>, u: Task, now: int) returns (m: nat)
    requires q == Without(w, s.status, s.queue, ByStatus(EXPIRED)) && Ready(w, s, u, now)
    ensures m < |q| && q[m] == u
  {
    WithoutMembers(w, s.status, s.queue, ByStatus(EXPIRED));
    m :| 0 <= m < |q| && q[m] == u;
  }

  /**
   A pop takes the least task, in the order of the queue, among those that are idle, activated and
   unexpired, have all their prerequisites completed, and are not passed over because one of
   these expires before them in the queue. It takes one exactly when there is one and the end has
   not been signaled.
   */
  lemma PopTakesLeastRunnable(w: World, s: State, now: int)
    requires Lawful(w) && QueueInOrder(w, s)
    ensures var outcome := Pop(w, s, now).1;
      && (outcome.Popped? <==> !s.end && exists u :: u in s.queue && Ready(w, s, u, now))
      && (outcome.Popped? ==>
            && Ready(w, s, outcome.task, now)
            && forall u :: u in s.queue && u != outcome.task && Ready(w, s, u, now) ==> w.Before(outcome.task, u))
  {
    var q := Without(w, s.status, s.queue, ByStatus(EXPIRED));
    WithoutKeepsSorted(w, s.status, s.queue, ByStatus(EXPIRED));
    PopTakesFound(w, s, q, now);
    FoundIsFirstReady(w, s, q, now);
    var r := ScanOf(w, s, q, now);
    assert r.Some? ==> Ready(w, s, q[r.value], now) && q[r.value] in s.queue;
    hide Ready, Lawful, ScanOf, Without, Pop, World.Before;
    forall u | u in s.queue && Ready(w, s, u, now)
      ensures r.Some? && (u != q[r.value] ==> w.Before(q[r.value], u))
    {
      var m := ReadyIsInPurged(w, s, q, u, now);
    }
  }

  /** The least runnable task of the queue is the one taken exactly if it is not passed over. */
  lemma LeastRunnableIsTakenIff(w: World, s: State, now: int, u: Task)
    requires Lawful(w) && QueueInOrder(w, s) && !s.end
    requires u in s.queue && CanRun(w, s.sequences, s.status, u, now)
    requires forall t :: t in s.queue && t != u && CanRun(w, s.sequences, s.status, t, now) ==> w.Before(u, t)
    ensures Pop(w, s, now).1 == Popped(u) <==> !Passed(w, s, u, now)
  {
    PopTakesLeastRunnable(w, s, now);
    var outcome := Pop(w, s, now).1;
    if !Passed(w, s, u, now) {
      assert Ready(w, s, u, now);
      if outcome.task != u {
        BeforeIsTotal(w, u, outcome.task);
      }
    }
  }

  /**
   Of two tasks that a pop can take and that start together, it does not take the one with the
   smaller priority, nor with equal priorities the one that expires later.
   */
  lemma PopPrefers(w: World, s: State, now: int, a: Task, b: Task)
    requires Lawful(w) && QueueInOrder(w, s) && Ready(w, s, a, now) && Ready(w, s, b, now)
    requires Unrelated(w.View(a), w.View(b)) && StartTogether(w.View(a), w.View(b))
    requires
      || w.View(a).priority > w.View(b).priority
      || (w.View(a).priority == w.View(b).priority && w.View(a).times.expiration < w.View(b).times.expiration)
    ensures Pop(w, s, now).1 != Popped(b)
  {
    PopTakesLeastRunnable(w, s, now);
    TiesAreBroken(w.View(a), w.View(b));
    hide Pop, Ready, Lawful;
  }

  /** Whatever the scan finds is runnable after everything it has marked on the way. */
  lemma {:induction false} ScanFindsRunnable(
      w: World, seqs: seq<TaskSequence>, q: seq<Task>, st: StatusMap, now: int, i: nat, waiting: Option<nat>)
    requires i <= |q| && (waiting.Some? ==> waiting.value < i)
    ensures var r := Scan(w, seqs, q, st, now, i, waiting);
      r.runnable.Some? ==> CanRun(w, seqs, r.status, q[r.runnable.value], now)
    decreases |q| - i
  {
    if i < |q| && !CanRun(w, seqs, st, q[i], now) {
      if w.View(q[i]).times.ExpirationReached(now) {
        ScanFindsRunnable(w, seqs, q, st[q[i] := EXPIRED], now, i + 1, waiting);
      } else if w.View(q[i]).times.WaitingForActivation(now) && waiting.None? {
        ScanFindsRunnable(w, seqs, q, st, now, i + 1, Some(i));
      } else {
        ScanFindsRunnable(w, seqs, q, st, now, i + 1, waiting);
      }
    }
  }

  // ----- waiting -----

  /** Without a runnable task the scan remembers the first task that waits for its activation. */
  lemma {:induction false} ScanFindsWaiting(
      w: World, seqs: seq<TaskSequence>, q: seq<Task>, st: StatusMap, now: int, i: nat, waiting: Option<nat>)
    requires i <= |q| && (waiting.Some? ==> waiting.value < i)
    requires Scan(w, seqs, q, st, now, i, waiting).runnable.None?
    ensures var r := Scan(w, seqs, q, st, now, i, waiting);
      if waiting.Some? then r.waiting == waiting
      else if r.waiting.Some? then
        && i <= r.waiting.value && Waits(w, q[r.waiting.value], now)
        && forall m :: i <= m < r.waiting.value ==> !Waits(w, q[m], now)
      else forall m :: i <= m < |q| ==> !Waits(w, q[m], now)
    decreases |q| - i
  {
    if i < |q| {
      if w.View(q[i]).times.ExpirationReached(now) {
        ScanFindsWaiting(w, seqs, q, st[q[i] := EXPIRED], now, i + 1, waiting);
      } else if w.View(q[i]).times.WaitingForActivation(now) && waiting.None? {
        ScanFindsWaiting(w, seqs, q, st, now, i + 1, Some(i));
      } else {
        ScanFindsWaiting(w, seqs, q, st, now, i + 1, waiting);
      }
    }
  }

  /** When the timeout of a waiting task runs out. */
  function Deadline(w: World, t: Task, now: int): int
    requires Waits(w, t, now)
  {
    w.View(t).times.activationTimeout.value
  }

  /** What a pop waits for is the first waiting task of the purged queue. */
  lemma PopWaitsForFirst(w: World, s: State, q: seq<Task>, now: int, m: nat)
    requires q == Without(w, s.status, s.queue, ByStatus(EXPIRED)) && m < |q| && Waits(w, q[m], now)
    ensures var outcome := Pop(w, s, now).1;
      outcome.Nothing? ==>
        exists k :: 0 <= k <= m && outcome.waiting == Some(q[k]) && Waits(w, q[k], now)
  {
    if Pop(w, s, now).1.Nothing? {
      ScanFindsWaiting(w, s.sequences, q, s.status, now, 0, None);
    }
    hide Scan, Without, Waits;
  }

  /**
   A pop that waits waits no longer than until the timeout of a waiting task `u`, if the timeout of
   `u` ends no earlier than the start by which the queue orders it, and those of the other waiting
   tasks no later than theirs.
   */
  lemma PopWaitsForEarliest(w: World, s: State, now: int, u: Task)
    requires Lawful(w) && QueueInOrder(w, s)
    requires u in s.queue && StatusOf(s.status, u) != EXPIRED && Waits(w, u, now) && EndsAfterStart(w.View(u))
    requires forall t :: t in s.queue && t != u && StatusOf(s.status, t) != EXPIRED && Waits(w, t, now) ==>
      EndsByStart(w.View(t))
    ensures var outcome := Pop(w, s, now).1;
      outcome.Nothing? ==>
        && outcome.waiting.Some? && outcome.waiting.value in s.queue && Waits(w, outcome.waiting.value, now)
        && Deadline(w, outcome.waiting.value, now) <= Deadline(w, u, now)
  {
    var outcome := Pop(w, s, now).1;
    if outcome.Nothing? {
      hide Pop, Waits, Lawful, World.Before, KeyLess, EndsByStart, EndsAfterStart, Deadline;
      var q := Without(w, s.status, s.queue, ByStatus(EXPIRED));
      WithoutMembers(w, s.status, s.queue, ByStatus(EXPIRED));
      WithoutKeepsSorted(w, s.status, s.queue, ByStatus(EXPIRED));
      var m :| 0 <= m < |q| && q[m] == u;
      PopWaitsForFirst(w, s, q, now, m);
      var k :| 0 <= k <= m && outcome.waiting == Some(q[k]) && Waits(w, q[k], now);
      var t := q[k];
      assert t in q;
      if k < m {
        assert w.Before(t, u);
        BeforeIsTotal(w, t, u);
        EarlierWaits(w, t, u, now);
      }
    }
  }

  lemma EarlierWaits(w: World, t: Task, u: Task, now: int)
    requires Waits(w, t, now) && Waits(w, u, now) && (t != u ==> EndsByStart(w.View(t))) && EndsAfterStart(w.View(u))
    requires t != u ==> KeyLess(w.View(t), w.View(u))
    ensures Deadline(w, t, now) <= Deadline(w, u, now)
  {
  }

  // ----- draining -----

  lemma {:induction false} ScanExpiresAll(
      w: World, seqs: seq<TaskSequence>, q: seq<Task>, st: StatusMap, now: int, i: nat, waiting: Option<nat>)
    requires i <= |q| && (waiting.Some? ==> waiting.value < i)
    requires forall t :: t in q ==> w.View(t).times.ExpirationReached(now)
    ensures var r := Scan(w, seqs, q, st, now, i, waiting);
      && r.runnable.None? && r.waiting == waiting
      && (forall m :: i <= m < |q| ==> StatusOf(r.status, q[m]) == EXPIRED)
      && (forall t :: StatusOf(st, t) == EXPIRED ==> StatusOf(r.status, t) == EXPIRED)
    decreases |q| - i
  {
    if i < |q| {
      ScanExpiresAll(w, seqs, q, st[q[i] := EXPIRED], now, i + 1, waiting);
      assert StatusOf(st[q[i] := EXPIRED], q[i]) == EXPIRED;
    }
  }

  lemma {:induction false} WithoutAllMatching(w: World, st: StatusMap, q: seq<Task>, m: Match)
    requires forall t :: t in q ==> m.Matches(w.View(t), StatusOf(st, t))
    ensures Without(w, st, q, m) == []
  {
    if q != [] {
      WithoutAllMatching(w, st, q[1..], m);
    }
  }

  /** Once every queued task has expired, two pops empty the queue, take nothing, and mark all of it. */
  lemma TwoPopsDrain(w: World, s: State, now: int, later: int)
    requires !s.end && forall t :: t in s.queue ==> w.View(t).times.ExpirationReached(now)
    ensures var first, second := PopStep(w, s, now), PopStep(w, PopStep(w, s, now).state, later);
      && first.popped == [] && second.popped == []
      && second.state.queue == []
      && forall t :: t in s.queue ==> StatusOf(second.state.status, t) == EXPIRED
  {
    var first := PopStep(w, s, now);
    if s.queue != [] {
      var q := Without(w, s.status, s.queue, ByStatus(EXPIRED));
      WithoutMembers(w, s.status, s.queue, ByStatus(EXPIRED));
      forall i | 0 <= i < |q|
        ensures w.View(q[i]).times.ExpirationReached(now)
      {
        WithoutComesFrom(w, s.status, s.queue, ByStatus(EXPIRED), i);
      }
      ScanExpiresAll(w, s.sequences, q, s.status, now, 0, None);
      var s1 := first.state;
      assert s1.queue == q;
      WithoutAllMatching(w, s1.status, q, ByStatus(EXPIRED));
    }
  }
}

/**
 What the scheduling pass buys the queue: on scheduled sequences the comparator is a lawful
 order; and what sorting a scheduled sequence breaks.
 */
module Scheduling {
  import opened Wrappers
  import opened Graph
  import opened Tasks
  import opened TaskOrder
  import opened CriticalPath

  /** The tasks carry the place that `AddTask` gave them. */
  predicate Placed(views: seq<TaskView>, id: string, name: string) {
    forall i :: 0 <= i < |views| ==>
      && views[i].inSequence && views[i].sequenceId == id && views[i].sequenceName == name
      && views[i].sequenceIndex == i
  }

  /** A prerequisite lasts a whole second, or expires after its activation time. */
  predicate LastsLongEnough(views: seq<TaskView>, adj: Matrix, d: nat)
    requires d < |views| && d < |adj|
  {
    if Marked(views, adj, d) then views[d].times.maxDuration >= 1000 else views[d].times.ExpiresAfterActivation()
  }

  ghost predicate AllLastLongEnough(views: seq<TaskView>, adj: Matrix)
    requires InRange(adj, |views|)
  {
    forall i, d :: 0 <= i < |views| && d in adj[i] ==> LastsLongEnough(views, adj, d)
  }

  ghost function ScheduledTasks(views: seq<TaskView>, adj: Matrix, starts: seq<int>, now: int): set<TaskView>
    requires |adj| >= |views| && |starts| == |views|
  {
    set i | 0 <= i < |views| :: Scheduled(views[i], adj[i], starts[i], now)
  }

  lemma ScheduledStartsAfter(
      views: seq<TaskView>, adj: Matrix, starts: seq<int>, now: int, id: string, name: string, i: nat, j: nat)
    requires Solves(views, adj, starts) && Placed(views, id, name) && AllLastLongEnough(views, adj)
    requires i < |views| && j < |views|
    requires DirectlyDepends(Scheduled(views[i], adj[i], starts[i], now), Scheduled(views[j], adj[j], starts[j], now))
    ensures StartsAfter(Scheduled(views[i], adj[i], starts[i], now), Scheduled(views[j], adj[j], starts[j], now))
  {
    assert j in adj[i];
    assert IsWorstStart(views, adj, starts, i);
    assert End(views, adj, starts, j) <= starts[i];
    assert LastsLongEnough(views, adj, j);
  }

  /** After scheduling, every direct dependency agrees with the key of the queue order. */
  lemma ScheduledTasksFollowKey(
      views: seq<TaskView>, adj: Matrix, starts: seq<int>, now: int, id: string, name: string)
    requires Solves(views, adj, starts) && Placed(views, id, name) && AllLastLongEnough(views, adj)
    ensures DependenciesFollowKey(ScheduledTasks(views, adj, starts, now))
  {
    hide Placed, AllLastLongEnough, LastsLongEnough, IsWorstStart, Scheduled, StartsAfter;
    var s := ScheduledTasks(views, adj, starts, now);
    forall a, b | a in s && b in s && DirectlyDepends(a, b)
      ensures StartsAfter(a, b)
    {
      var i :| 0 <= i < |views| && a == Scheduled(views[i], adj[i], starts[i], now);
      var j :| 0 <= j < |views| && b == Scheduled(views[j], adj[j], starts[j], now);
      ScheduledStartsAfter(views, adj, starts, now, id, name, i, j);
    }
    StartsAfterFollowsKey(s);
  }

  ghost function Together(groups: seq<set<TaskView>>): set<TaskView> {
    set g, t | g in groups && t in g :: t
  }

  /** The tasks of any number of separately scheduled sequences have one lawful queue order. */
  lemma QueueOrderIsLawful(groups: seq<set<TaskView>>)
    requires forall g :: g in groups ==> DependenciesFollowKey(g)
    requires forall g, h, a, b :: g in groups && h in groups && a in g && b in h && InSameSequence(a, b) ==> g == h
    requires UniqueNames(Together(groups))
    ensures DependenciesFollowKey(Together(groups))
    ensures StrictTotalOrder(ComparatorFcn, Together(groups))
    ensures forall a, b :: a in Together(groups) && b in Together(groups) ==> ComparatorFcn(a, b) == KeyLess(a, b)
  {
    var s := Together(groups);
    forall a, b | a in s && b in s && DirectlyDepends(a, b)
      ensures KeyLess(b, a)
    {
      var g :| g in groups && a in g;
      var h :| h in groups && b in h;
      assert g == h;
    }
    ComparatorIsStrictTotalOrder(s);
    ComparatorIsKeyIff(s);
  }

  /** Task `i` after scheduling, had it been given the priority `p`. */
  function WithPriority(views: seq<TaskView>, adj: Matrix, starts: seq<int>, now: int, i: nat, p: int): TaskView
    requires i < |views| && i < |adj| && i < |starts|
  {
    Scheduled(views[i], adj[i], starts[i], now).(priority := p)
  }

  /** Prerequisite `d` lasts long enough, or task `i` starts later than it for another reason. */
  predicate StartsBefore(views: seq<TaskView>, adj: Matrix, starts: seq<int>, d: nat, i: nat)
    requires InRange(adj, |views|) && |starts| == |views| && i < |views| && d < |views|
  {
    || LastsLongEnough(views, adj, d)
    || (if Marked(views, adj, d) then starts[d] else views[d].times.activation) < starts[i]
  }

  /** A prerequisite comes first in the key whatever the priorities, exactly if its task starts later. */
  lemma ComesFirstIff(views: seq<TaskView>, adj: Matrix, starts: seq<int>, now: int, i: nat, d: nat)
    requires Solves(views, adj, starts) && i < |views| && d in adj[i]
    ensures StartsBefore(views, adj, starts, d, i) <==>
      forall p, q :: KeyLess(WithPriority(views, adj, starts, now, d, p), WithPriority(views, adj, starts, now, i, q))
  {
    assert IsWorstStart(views, adj, starts, i);
    assert End(views, adj, starts, d) <= starts[i];
    if !StartsBefore(views, adj, starts, d, i) {
      assert !KeyLess(WithPriority(views, adj, starts, now, d, 0), WithPriority(views, adj, starts, now, i, 1));
    }
  }

  /**
   Where nothing else delays a task, the duration of its prerequisite decides alone: the two start
   one after the other exactly if it lasts long enough.
   */
  lemma LastsLongEnoughIffFirst(views: seq<TaskView>, adj: Matrix, starts: seq<int>, now: int, i: nat, d: nat)
    requires Solves(views, adj, starts) && i < |views| && d in adj[i] && starts[i] == End(views, adj, starts, d)
    ensures LastsLongEnough(views, adj, d) <==>
      forall p, q :: KeyLess(WithPriority(views, adj, starts, now, d, p), WithPriority(views, adj, starts, now, i, q))
  {
    ComesFirstIff(views, adj, starts, now, i, d);
  }

  /** The scheduled tasks of a sequence with the given priorities. */
  ghost function Prioritized(views: seq<TaskView>, adj: Matrix, starts: seq<int>, now: int, ps: seq<int>): set<TaskView>
    requires |adj| >= |views| && |starts| == |views| && |ps| == |views|
  {
    set i | 0 <= i < |views| :: WithPriority(views, adj, starts, now, i, ps[i])
  }

  ghost predicate AllStartBefore(views: seq<TaskView>, adj: Matrix, starts: seq<int>)
    requires InRange(adj, |views|) && |starts| == |views|
  {
    forall i, d :: 0 <= i < |views| && d in adj[i] ==> StartsBefore(views, adj, starts, d, i)
  }

  lemma PrioritizedFollowKey(
      views: seq<TaskView>, adj: Matrix, starts: seq<int>, now: int, id: string, name: string, ps: seq<int>)
    requires Solves(views, adj, starts) && Placed(views, id, name) && |ps| == |views|
    requires AllStartBefore(views, adj, starts)
    ensures DependenciesFollowKey(Prioritized(views, adj, starts, now, ps))
  {
    var s := Prioritized(views, adj, starts, now, ps);
    forall a, b | a in s && b in s && DirectlyDepends(a, b)
      ensures KeyLess(b, a)
    {
      var i :| 0 <= i < |views| && a == WithPriority(views, adj, starts, now, i, ps[i]);
      var j :| 0 <= j < |views| && b == WithPriority(views, adj, starts, now, j, ps[j]);
      assert j in adj[i] && StartsBefore(views, adj, starts, j, i);
      ComesFirstIff(views, adj, starts, now, i, j);
    }
  }

  /** That the dependencies follow the key with the priorities that the tasks have. */
  lemma StartsBeforeFollowKey(
      views: seq<TaskView>, adj: Matrix, starts: seq<int>, now: int, id: string, name: string)
    requires Solves(views, adj, starts) && Placed(views, id, name) && AllStartBefore(views, adj, starts)
    ensures DependenciesFollowKey(ScheduledTasks(views, adj, starts, now))
  {
    var ps := seq(|views|, i requires 0 <= i < |views| => views[i].priority);
    PrioritizedFollowKey(views, adj, starts, now, id, name, ps);
    hide DependenciesFollowKey;
    forall i | 0 <= i < |views|
      ensures Scheduled(views[i], adj[i], starts[i], now) == WithPriority(views, adj, starts, now, i, ps[i])
    {
    }
    assert ScheduledTasks(views, adj, starts, now) == Prioritized(views, adj, starts, now, ps);
  }

  lemma LastingStartBefore(views: seq<TaskView>, adj: Matrix, starts: seq<int>)
    requires Solves(views, adj, starts) && AllLastLongEnough(views, adj)
    ensures AllStartBefore(views, adj, starts)
  {
  }

  /** With the right priorities any edge can be made to disagree unless its task starts later. */
  lemma SomePrioritiesDisagree(
      views: seq<TaskView>, adj: Matrix, starts: seq<int>, now: int, id: string, name: string, i: nat, d: nat)
    returns (ps: seq<int>)
    requires Solves(views, adj, starts) && Placed(views, id, name) && i < |views| && d in adj[i] && d != i
    requires !StartsBefore(views, adj, starts, d, i)
    ensures |ps| == |views| && !DependenciesFollowKey(Prioritized(views, adj, starts, now, ps))
  {
    ComesFirstIff(views, adj, starts, now, i, d);
    var p, q :| !KeyLess(WithPriority(views, adj, starts, now, d, p), WithPriority(views, adj, starts, now, i, q));
    ps := seq(|views|, k => if k == d then p else q);
    var a, b := WithPriority(views, adj, starts, now, i, ps[i]), WithPriority(views, adj, starts, now, d, ps[d]);
    assert a in Prioritized(views, adj, starts, now, ps) && b in Prioritized(views, adj, starts, now, ps);
    assert DirectlyDepends(a, b);
  }

  /**
   For a scheduled sequence whose tasks may be given any priorities, the dependencies follow the
   key, and with it the comparator is that key, exactly when every prerequisite lasts long enough
   or its task starts later for another reason.
   */
  lemma OrderIsLawfulIff(views: seq<TaskView>, adj: Matrix, starts: seq<int>, now: int, id: string, name: string)
    requires Solves(views, adj, starts) && Placed(views, id, name) && !Cyclic(adj, |views|)
    ensures AllStartBefore(views, adj, starts) <==>
      forall ps: seq<int> :: |ps| == |views| ==> DependenciesFollowKey(Prioritized(views, adj, starts, now, ps))
  {
    if AllStartBefore(views, adj, starts) {
      forall ps: seq<int> | |ps| == |views|
        ensures DependenciesFollowKey(Prioritized(views, adj, starts, now, ps))
      {
        PrioritizedFollowKey(views, adj, starts, now, id, name, ps);
      }
    } else {
      var i, d :| 0 <= i < |views| && d in adj[i] && !StartsBefore(views, adj, starts, d, i);
      NoSelfLoop(adj, |views|, i);
      var ps := SomePrioritiesDisagree(views, adj, starts, now, id, name, i, d);
    }
  }

  // ----- waiting for activation -----

  /** The timeout runs towards the activation, and scheduling put the worst-case start no earlier. */
  predicate TimeoutInStep(v: TaskView) {
    v.times.InStep() && (v.dependent && v.times.activationTimeout.Some? ==> v.times.activation <= v.expMaxActivation)
  }

  /** The scheduling pass leaves timeouts in step. */
  lemma ScheduledKeepsInStep(views: seq<TaskView>, adj: Matrix, starts: seq<int>, now: int, i: nat)
    requires Solves(views, adj, starts) && i < |views| && views[i].times.InStep()
    ensures TimeoutInStep(Scheduled(views[i], adj[i], starts[i], now))
  {
    assert Marked(views, adj, i) ==> IsWorstStart(views, adj, starts, i);
  }

  /** The timeout of a waiting task ends no later than the start by which the queue orders it. */
  predicate EndsByStart(v: TaskView)
    requires v.times.activationTimeout.Some?
  {
    StartKey(v).Some? && v.times.activationTimeout.value <= StartKey(v).value
  }

  /** The timeout of a waiting task ends no earlier than the start by which the queue orders it. */
  predicate EndsAfterStart(v: TaskView)
    requires v.times.activationTimeout.Some?
  {
    StartKey(v).Some? && StartKey(v).value <= v.times.activationTimeout.value
  }

  lemma InStepEndsByStart(v: TaskView)
    requires TimeoutInStep(v) && v.times.activationTimeout.Some?
    ensures EndsByStart(v) && (!v.dependent ==> EndsAfterStart(v))
  {
  }

  /** A task outside of the sequence of `v` that waits alone, in step. */
  predicate Bystander(v: TaskView, b: TaskView) {
    WaitsAlone(b) && b.times.InStep() && !InSameSequence(v, b)
  }

  /**
   For any task that waits, dependent or not: its timeout ends by its start exactly if every
   bystander that the queue puts behind it waits at least as long.
   */
  lemma EndsByStartIff(v: TaskView)
    requires v.times.activationTimeout.Some? && StartKey(v).Some?
    ensures EndsByStart(v) <==> forall b :: Bystander(v, b) && ComparatorFcn(v, b) ==>
      v.times.activationTimeout.value <= b.times.activationTimeout.value
  {
    var start := StartKey(v).value;
    if v.times.activationTimeout.value > start {
      var b := v.(inSequence := false, dependent := false, priority := v.priority - 1,
                  times := v.times.(hasActivation := true, activation := start, activationTimeout := Some(start)));
      assert Bystander(v, b) && ComparatorFcn(v, b);
    }
  }

  /** Likewise, its timeout ends no earlier than its start exactly if no bystander before it waits longer. */
  lemma EndsAfterStartIff(v: TaskView)
    requires v.times.activationTimeout.Some? && StartKey(v).Some?
    ensures EndsAfterStart(v) <==> forall b :: Bystander(v, b) && ComparatorFcn(b, v) ==>
      b.times.activationTimeout.value <= v.times.activationTimeout.value
  {
    var start := StartKey(v).value;
    if v.times.activationTimeout.value < start {
      var b := v.(inSequence := false, dependent := false, priority := v.priority + 1,
                  times := v.times.(hasActivation := true, activation := start, activationTimeout := Some(start)));
      assert Bystander(v, b) && ComparatorFcn(b, v);
    }
  }

  predicate WaitsAlone(v: TaskView) {
    !v.dependent && v.times.hasActivation && v.times.activationTimeout.Some?
  }

  /** Whichever comes first in the queue does not wait longer than the other. */
  predicate WaitsInTurn(a: TaskView, b: TaskView)
    requires WaitsAlone(a) && WaitsAlone(b)
  {
    var x, y := a.times.activationTimeout.value, b.times.activationTimeout.value;
    (ComparatorFcn(a, b) ==> x <= y) && (ComparatorFcn(b, a) ==> y <= x)
  }

  /**
   The queue puts an independent waiting task in turn with every task whose timeout is in step,
   exactly when its own timeout is.
   */
  lemma InStepIffWaitsInTurn(a: TaskView)
    requires WaitsAlone(a)
    ensures a.times.InStep() <==> forall b :: WaitsAlone(b) && b.times.InStep() ==> WaitsInTurn(a, b)
  {
    var moment := a.times.activation;
    if a.times.activationTimeout.value != moment {
      var priority := if a.times.activationTimeout.value > moment then a.priority - 1 else a.priority + 1;
      var b := a.(priority := priority, times := a.times.(activationTimeout := Some(moment)));
      assert WaitsAlone(b) && b.times.InStep() && !WaitsInTurn(a, b);
    }
  }

  // ----- sub-second durations break the order -----

  /** The task at `index` of the sequence of the example, as it is before scheduling. */
  function Example(name: string, priority: int, index: int, duration: nat): TaskView {
    TaskView(name, name, priority, false, "", true, "uuid", "seq", index, false, [],
             Times(false, 0, None, true, 6000, Some(6000), duration, 0), 0, 0)
  }

  const SUB_SECOND: seq<TaskView> :=
    [Example("a", 1, 0, 6000), Example("b", 0, 1, 999), Example("c", 2, 2, 6000), Example("d", 1, 3, 6000)]

  const SUB_SECOND_ROWS: Matrix := [[], [0], [1], [0]]

  const SUB_SECOND_STARTS: seq<int> := [0, 6000, 6000, 6000]

  lemma SubSecondIsSolved()
    ensures Solves(SUB_SECOND, SUB_SECOND_ROWS, SUB_SECOND_STARTS)
    ensures Placed(SUB_SECOND, "uuid", "seq")
  {
    var views, adj, starts := SUB_SECOND, SUB_SECOND_ROWS, SUB_SECOND_STARTS;
    assert 0 in adj[1] && 1 in adj[2] && 0 in adj[3];
    assert End(views, adj, starts, 0) == 6000 && End(views, adj, starts, 1) == 6000;
  }

  /** Task `i` of the example after the pass. */
  function SubSecondTask(i: nat, now: int): TaskView
    requires i < 4
  {
    Scheduled(SUB_SECOND[i], SUB_SECOND_ROWS[i], SUB_SECOND_STARTS[i], now)
  }

  lemma SubSecondFields(i: nat, now: int)
    requires 1 <= i < 4
    ensures var t := SubSecondTask(i, now);
      && t.name == ["b", "c", "d"][i - 1] && t.id == t.name && t.priority == [0, 2, 1][i - 1]
      && t.inSequence && t.sequenceId == "uuid" && t.sequenceName == "seq" && t.sequenceIndex == i
      && t.dependent && t.depIndexes == [[0], [1], [0]][i - 1] && t.expMaxActivation == 6000
  {
  }

  lemma SubSecondNames(i: nat, j: nat, now: int)
    requires i < j < 4
    ensures SubSecondTask(i, now).name != SubSecondTask(j, now).name
  {
    assert SubSecondTask(0, now).name == "a";
    if i > 0 {
      SubSecondFields(i, now);
    }
    SubSecondFields(j, now);
    assert "a"[0] != "b"[0] && "c"[0] != "d"[0] && "b"[0] != "c"[0];
  }

  lemma SubSecondCircle(now: int)
    ensures var b, c, d := SubSecondTask(1, now), SubSecondTask(2, now), SubSecondTask(3, now);
      && ComparatorFcn(b, c) && ComparatorFcn(c, d) && ComparatorFcn(d, b) && !ComparatorFcn(b, d)
      && DirectlyDepends(c, b) && !KeyLess(b, c)
  {
    SubSecondFields(1, now);
    SubSecondFields(2, now);
    SubSecondFields(3, now);
    hide SubSecondTask;
    assert 1 in SubSecondTask(2, now).depIndexes;
  }

  /**
   Task 1 of the example lasts less than a second, so in the worst case it ends when it starts,
   and tasks 1, 2 and 3 start together. The direct-dependency rule then disagrees with the
   priorities, and after the scheduling pass the comparator runs in a circle around them. No
   other task of the sequence lasts less than a second.
   */
  lemma SubSecondDurationsBreakTheOrder(now: int)
    ensures Solves(SUB_SECOND, SUB_SECOND_ROWS, SUB_SECOND_STARTS) && Placed(SUB_SECOND, "uuid", "seq")
    ensures forall d :: 0 <= d < 4 && d != 1 ==> LastsLongEnough(SUB_SECOND, SUB_SECOND_ROWS, d)
    ensures
      var s := ScheduledTasks(SUB_SECOND, SUB_SECOND_ROWS, SUB_SECOND_STARTS, now);
      var b, c, d := SubSecondTask(1, now), SubSecondTask(2, now), SubSecondTask(3, now);
      && UniqueNames(s) && {b, c, d} <= s
      && ComparatorFcn(b, c) && ComparatorFcn(c, d) && ComparatorFcn(d, b)
      && !StrictTotalOrder(ComparatorFcn, s) && !DependenciesFollowKey(s)
  {
    SubSecondIsSolved();
    var s := ScheduledTasks(SUB_SECOND, SUB_SECOND_ROWS, SUB_SECOND_STARTS, now);
    forall t | t in s
      ensures exists i: nat :: i < 4 && t == SubSecondTask(i, now)
    {
      var i :| 0 <= i < 4 && t == Scheduled(SUB_SECOND[i], SUB_SECOND_ROWS[i], SUB_SECOND_STARTS[i], now);
      assert t == SubSecondTask(i, now);
    }
    forall i: nat | i < 4
      ensures SubSecondTask(i, now) in s
    {
    }
    SubSecondCircle(now);
    hide SubSecondTask, ComparatorFcn, KeyLess, DirectlyDepends;
    forall i: nat, j: nat | i < j < 4
      ensures SubSecondTask(i, now).name != SubSecondTask(j, now).name
    {
      SubSecondNames(i, j, now);
    }
  }

  // ----- sorting after scheduling -----

  /** Index `d`, as recorded by the tasks, still finds the task it was recorded for. */
  predicate IndexesStillMeanTheSame<T(==)>(tasks: seq<T>, sorted: seq<T>, adj: Matrix)
    requires InRange(adj, |tasks|) && |sorted| == |tasks|
  {
    forall i :: 0 <= i < |tasks| ==> forall d :: d in adj[i] ==> sorted[d] == tasks[d]
  }

  /**
   Sorting does not renumber the dependency indexes. In the order that `TaskSequence.Sort` finds
   for an acyclic matrix they keep their meaning exactly when every task stood behind its
   prerequisites already; the sort has then nothing to do.
   */
  lemma SortKeepsDependenciesIff<T>(tasks: seq<T>, order: seq<nat>, adj: Matrix)
    requires Distinct(tasks) && IsPermutation(order, |tasks|) && InRange(adj, |tasks|)
    requires VisitsInTurn(adj, |tasks|, order)
    ensures IndexesStillMeanTheSame(tasks, Permuted(tasks, order), adj) <==> Downward(adj, |tasks|)
    ensures Downward(adj, |tasks|) ==> Permuted(tasks, order) == tasks
  {
    var sorted := Permuted(tasks, order);
    forall i, d | 0 <= i < |tasks| && d in adj[i]
      ensures sorted[d] == tasks[d] <==> order[d] == d
    {
      assert sorted[d] == tasks[order[d]];
    }
    KeepsPrerequisitesIffDownward(adj, |tasks|, order);
  }

  /** The smallest damage: the sorted dependent task finds itself as its own prerequisite. */
  lemma SortMakesTaskWaitForItself<T>(dependent: T, prerequisite: T)
    requires dependent != prerequisite
    ensures
      var tasks, adj, order := [dependent, prerequisite], [[1], []], [1, 0];
      && IsPermutation(order, 2) && InRange(adj, 2) && !Cyclic(adj, 2) && Postorder(adj, 2, order)
      && VisitsInTurn(adj, 2, order)
      && Permuted(tasks, order)[adj[0][0]] == dependent
      && !IndexesStillMeanTheSame(tasks, Permuted(tasks, order), adj)
  {
    var tasks: seq<T>, adj: Matrix, order: seq<nat> := [dependent, prerequisite], [[1], []], [1, 0];
    assert order[0] == 1 && order[1] == 0;
    assert Postorder(adj, 2, order);
    PostorderExcludesCycles(adj, 2, order);
    assert 1 in adj[0] && !DownwardRow(adj, 0);
  }
}

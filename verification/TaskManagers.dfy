/**
 The task manager as an object: its queue, its sequences and its signals change in place, and the
 statuses of the tasks with them. Every operation is proved to be the corresponding step of
 `Scheduler`: each method takes, as ghosts, the world and the state that the objects represent
 and returns the state that they represent afterwards.
 */
module TaskManagers {
  import opened Wrappers
  import opened Tasks
  import opened TaskOrder
  import opened TaskSequences
  import opened SequenceStatus
  import opened Scheduler
  import opened QueueInvariants
  import opened StatusInvariants
  import opened StepMeanings

  ghost function SequenceView(q: TaskSequence): SeqView
    reads q`tasks
  {
    SeqView(q.seqId, q.seqName, q.tasks, q.creation)
  }

  class TaskManager {
    var taskQueue: seq<Task>
    var taskSequences: seq<TaskSequence>
    var wakeUpSignal: bool
    var endSignal: bool
    var maxTasksInQueue: int

    constructor ()
      ensures taskQueue == [] && taskSequences == [] && !wakeUpSignal && !endSignal
      ensures maxTasksInQueue == 30
    {
      taskQueue, taskSequences := [], [];
      wakeUpSignal, endSignal := false, false;
      maxTasksInQueue := 30;
    }

    // ----- what the objects represent -----

    /** The world records what tasks and sequences hold besides their statuses. */
    ghost predicate Reflected(w: World)
      reads w.sequences.Keys`tasks
      reads w.tasks.Keys`hasActivation, w.tasks.Keys`activation, w.tasks.Keys`activationTimeout,
            w.tasks.Keys`hasExpiration, w.tasks.Keys`expiration, w.tasks.Keys`expirationTimeout,
            w.tasks.Keys`maxDuration, w.tasks.Keys`creation, w.tasks.Keys`isAsynch, w.tasks.Keys`statusAttr,
            w.tasks.Keys`inSequence, w.tasks.Keys`sequenceId, w.tasks.Keys`sequenceName,
            w.tasks.Keys`sequenceIndex, w.tasks.Keys`dependent, w.tasks.Keys`depIndexes,
            w.tasks.Keys`expMaxActivation, w.tasks.Keys`expMaxExpiration
    {
      && (forall t :: t in w.tasks ==> w.tasks[t] == t.View())
      && (forall q :: q in w.sequences ==> w.sequences[q] == SequenceView(q))
      && (forall q, t :: q in w.sequences && t in w.sequences[q].tasks ==> t in w.tasks)
    }

    /** The map records the statuses of the tasks of the world. */
    ghost predicate TasksShown(w: World, st: StatusMap)
      reads w.tasks.Keys`status
    {
      st.Keys == w.tasks.Keys && forall t :: t in w.tasks ==> st[t] == t.status
    }

    ghost predicate SequencesShown(w: World, sst: SeqStatusMap)
      reads w.sequences.Keys`status
    {
      sst.Keys == w.sequences.Keys && forall q :: q in w.sequences ==> sst[q] == q.status
    }

    /** The manager refers only to tasks and sequences of the world. */
    ghost predicate Within(w: World)
      reads this`taskQueue, this`taskSequences
    {
      && (forall i :: 0 <= i < |taskQueue| ==> taskQueue[i] in w.tasks)
      && (forall i :: 0 <= i < |taskSequences| ==> taskSequences[i] in w.sequences)
    }

    /** The state `s` is what the objects hold now. */
    ghost predicate Shows(w: World, s: State)
      reads this, w.tasks.Keys`status, w.sequences.Keys`status
    {
      && s == State(taskQueue, taskSequences, s.status, s.seqStatus, wakeUpSignal, endSignal, maxTasksInQueue)
      && Within(w) && TasksShown(w, s.status) && SequencesShown(w, s.seqStatus)
    }

    // ----- statuses -----

    method SetStatusOf(task: Task, status: TaskStatus, ghost w: World, ghost st: StatusMap)
      returns (ghost st': StatusMap)
      requires TasksShown(w, st) && task in w.tasks
      modifies task`status
      ensures st' == st[task := status] && TasksShown(w, st')
    {
      task.SetStatus(status);
      st' := st[task := status];
    }

    /** Recomputes the status of a sequence from the statuses of its tasks. */
    method UpdateSequence(q: TaskSequence, ghost w: World, ghost st: StatusMap, ghost sst: SeqStatusMap)
      returns (ghost sst': SeqStatusMap)
      requires Reflected(w) && TasksShown(w, st) && SequencesShown(w, sst) && q in w.sequences
      modifies q`status
      ensures sst' == sst[q := Combined(StatusesIn(w, st, q))] && SequencesShown(w, sst')
    {
      q.ComputeStatus();
      assert w.Seq(q).tasks == q.tasks && forall t :: t in q.tasks ==> StatusOf(st, t) == t.status;
      assert q.TaskStatuses() == StatusesIn(w, st, q);
      sst' := sst[q := Combined(StatusesIn(w, st, q))];
    }

    // ----- the queue -----

    lemma {:induction false} WithoutSnoc(w: World, st: StatusMap, q: seq<Task>, t: Task, m: Match)
      ensures Without(w, st, q + [t], m) ==
        Without(w, st, q, m) + if m.Matches(w.View(t), StatusOf(st, t)) then [] else [t]
    {
      if q != [] {
        WithoutSnoc(w, st, q[1..], t, m);
        assert (q + [t])[1..] == q[1..] + [t];
      }
    }

    /** Filtering `q` in place has come to position `i` of the current queue, with `k` tasks examined. */
    ghost predicate Filtering(w: World, st: StatusMap, q: seq<Task>, m: Match, current: seq<Task>, i: int, k: int) {
      && 0 <= k <= |q|
      && 0 <= i <= |current|
      && current[..i] == Without(w, st, q[..k], m)
      && current[i..] == q[k..]
    }

    lemma FilteringNext(w: World, st: StatusMap, q: seq<Task>, m: Match, current: seq<Task>, i: int, k: int)
      requires Filtering(w, st, q, m, current, i, k) && i < |current|
      ensures k < |q| && current[i] == q[k]
      ensures if m.Matches(w.View(q[k]), StatusOf(st, q[k]))
              then Filtering(w, st, q, m, current[..i] + current[i + 1..], i, k + 1)
              else Filtering(w, st, q, m, current, i + 1, k + 1)
    {
      assert current[i..][0] == q[k..][0];
      WithoutSnoc(w, st, q[..k], q[k], m);
      assert q[..k + 1] == q[..k] + [q[k]];
      assert current[i + 1..] == current[i..][1..] == q[k..][1..] == q[k + 1..];
      assert current[..i + 1] == current[..i] + [current[i]];
    }

    lemma FilteringDone(w: World, st: StatusMap, q: seq<Task>, m: Match, current: seq<Task>, k: int)
      requires Filtering(w, st, q, m, current, |current|, k)
      ensures current == Without(w, st, q, m)
    {
      assert |q[k..]| == 0;
      assert q[..k] == q && current[..|current|] == current;
    }

    ghost predicate Recorded(w: World, st: StatusMap, q: seq<Task>)
      reads q
    {
      forall k :: 0 <= k < |q| ==> w.View(q[k]) == q[k].View() && StatusOf(st, q[k]) == q[k].status
    }

    /** Erases the matching tasks one by one. */
    method RemoveTasksInQueue(m: Match, ghost w: World, ghost st: StatusMap)
      requires Recorded(w, st, taskQueue)
      modifies this`taskQueue
      ensures taskQueue == Without(w, st, old(taskQueue), m)
    {
      ghost var queue, k := taskQueue, 0;
      var i := 0;
      while i < |taskQueue|
        invariant Filtering(w, st, queue, m, taskQueue, i, k)
        decreases |queue| - k
      {
        var t := taskQueue[i];
        FilteringNext(w, st, queue, m, taskQueue, i, k);
        if m.Matches(t.View(), t.status) {
          taskQueue := taskQueue[..i] + taskQueue[i + 1..];
        } else {
          i := i + 1;
        }
        k := k + 1;
      }
      FilteringDone(w, st, queue, m, taskQueue, k);
    }

    lemma {:induction false} InsertPosition(w: World, q: seq<Task>, t: Task, i: nat)
      requires i <= |q| && forall k :: 0 <= k < i ==> w.Before(q[k], t)
      requires i < |q| ==> !w.Before(q[i], t)
      ensures Insert(w, q, t) == if i == |q| || w.Before(t, q[i]) then q[..i] + [t] + q[i..] else q
    {
      if i > 0 {
        InsertPosition(w, q[1..], t, i - 1);
      }
    }

    /** Insertion into the ordered set. */
    method InsertInQueue(task: Task, ghost w: World)
      requires forall k :: 0 <= k < |taskQueue| ==> w.View(taskQueue[k]) == taskQueue[k].View()
      requires w.View(task) == task.View()
      modifies this`taskQueue
      ensures taskQueue == Insert(w, old(taskQueue), task)
    {
      var i := 0;
      while i < |taskQueue| && ComparatorFcn(taskQueue[i].View(), task.View())
        invariant 0 <= i <= |taskQueue|
        invariant forall k :: 0 <= k < i ==> w.Before(taskQueue[k], task)
      {
        i := i + 1;
      }
      InsertPosition(w, taskQueue, task, i);
      if i == |taskQueue| || ComparatorFcn(task.View(), taskQueue[i].View()) {
        taskQueue := taskQueue[..i] + [task] + taskQueue[i..];
      }
    }

    // ----- runnable tasks -----

    lemma TailOf<T>(s: seq<T>, i: nat)
      requires i < |s|
      ensures s[i..] != [] && s[i..][0] == s[i] && s[i..][1..] == s[i + 1..]
    {
    }

    method FindTaskSequence(id: string, name: string, ghost w: World) returns (found: Option<TaskSequence>)
      requires Reflected(w) && Within(w)
      ensures found == FindSequence(w, taskSequences, id, name)
      ensures found.Some? ==> found.value in w.sequences
    {
      var i := 0;
      while i < |taskSequences|
        invariant 0 <= i <= |taskSequences|
        invariant FindSequence(w, taskSequences, id, name) == FindSequence(w, taskSequences[i..], id, name)
      {
        TailOf(taskSequences, i);
        if taskSequences[i].seqName == name && taskSequences[i].seqId == id {
          return Some(taskSequences[i]);
        }
        i := i + 1;
      }
      return None;
    }

    method PrerequisitesDone(q: TaskSequence, deps: seq<int>, ghost w: World, ghost st: StatusMap) returns (done: bool)
      requires Reflected(w) && TasksShown(w, st) && q in w.sequences
      ensures done == PrerequisitesCompleted(w, st, q, deps)
    {
      var i := 0;
      while i < |deps|
        invariant 0 <= i <= |deps|
        invariant forall k :: 0 <= k < i ==> 0 <= deps[k] < |q.tasks| && q.tasks[deps[k]].status == COMPLETED
      {
        var d := deps[i];
        assert d in deps;
        if d < 0 || d >= |q.tasks| {
          return false;
        }
        if q.tasks[d].status != COMPLETED {
          return false;
        }
        i := i + 1;
      }
      return true;
    }

    /** A dependent task waits until its sequence is found and its prerequisites are completed. */
    method IsSequenceTaskRunnable(task: Task, ghost w: World, ghost st: StatusMap) returns (runnable: bool)
      requires Reflected(w) && Within(w) && TasksShown(w, st) && task in w.tasks
      ensures runnable == SequenceTaskRunnable(w, taskSequences, st, task)
    {
      if !task.inSequence {
        return true;
      }
      if !task.dependent || task.depIndexes == [] {
        return true;
      }
      var found := FindTaskSequence(task.sequenceId, task.sequenceName, w);
      if found.None? {
        return false;
      }
      runnable := PrerequisitesDone(found.value, task.depIndexes, w, st);
    }

    method CopyTask(task: Task, ghost w: World) returns (copy: TaskView)
      requires Reflected(w) && task in w.tasks
      ensures copy == w.View(task)
    {
      copy := task.View();
    }

    method TaskCanRun(task: Task, now: int, ghost w: World, ghost st: StatusMap) returns (runnable: bool)
      requires Reflected(w) && Within(w) && TasksShown(w, st) && task in w.tasks
      ensures runnable == CanRun(w, taskSequences, st, task, now)
    {
      var isSequenceTaskRunnable := IsSequenceTaskRunnable(task, w, st);
      runnable := task.View().Runnable(task.status, now) && isSequenceTaskRunnable;
    }

    // ----- popping -----

    lemma ScanNext(
        w: World, seqs: seq<TaskSequence>, q: seq<Task>, st: StatusMap, now: int, i: nat, waiting: Option<nat>)
      requires i < |q| && (waiting.Some? ==> waiting.value < i)
      ensures Scan(w, seqs, q, st, now, i, waiting) ==
        if CanRun(w, seqs, st, q[i], now) then ScanResult(st, Some(i), waiting)
        else if w.View(q[i]).times.ExpirationReached(now) then
          Scan(w, seqs, q, st[q[i] := EXPIRED], now, i + 1, waiting)
        else if w.View(q[i]).times.WaitingForActivation(now) && waiting.None? then
          Scan(w, seqs, q, st, now, i + 1, Some(i))
        else Scan(w, seqs, q, st, now, i + 1, waiting)
    {
    }

    lemma ScanEnd(w: World, seqs: seq<TaskSequence>, q: seq<Task>, st: StatusMap, now: int, waiting: Option<nat>)
      requires waiting.Some? ==> waiting.value < |q|
      ensures Scan(w, seqs, q, st, now, |q|, waiting) == ScanResult(st, None, waiting)
    {
    }

    /** Examines the task at position `i`; a timed-out task is marked as expired. */
    method ScanTask(i: nat, now: int, waiting: Option<nat>, ghost w: World, ghost st: StatusMap)
      returns (runnable: bool, waiting': Option<nat>, ghost st': StatusMap)
      requires Reflected(w) && Within(w) && TasksShown(w, st)
      requires i < |taskQueue| && (waiting.Some? ==> waiting.value < i)
      modifies w.tasks.Keys`status
      ensures TasksShown(w, st') && (waiting'.Some? ==> waiting'.value <= i)
      ensures Scan(w, taskSequences, taskQueue, st, now, i, waiting) ==
        if runnable then ScanResult(st', Some(i), waiting')
        else Scan(w, taskSequences, taskQueue, st', now, i + 1, waiting')
    {
      var task := taskQueue[i];
      waiting', st' := waiting, st;
      ScanNext(w, taskSequences, taskQueue, st, now, i, waiting);
      assert w.View(task) == task.View();
      runnable := TaskCanRun(task, now, w, st);
      if !runnable {
        if task.GetTimes().ExpirationReached(now) {
          st' := SetStatusOf(task, EXPIRED, w, st);
        } else if task.GetTimes().WaitingForActivation(now) && waiting.None? {
          waiting' := Some(i);
        }
      }
    }

    /** Looks for the first runnable task and marks timed-out tasks as expired on the way. */
    method ScanQueue(now: int, ghost w: World, ghost st: StatusMap)
      returns (runnable: Option<nat>, waiting: Option<nat>, ghost st': StatusMap)
      requires Reflected(w) && Within(w) && TasksShown(w, st)
      modifies w.tasks.Keys`status
      ensures ScanResult(st', runnable, waiting) == Scan(w, taskSequences, taskQueue, st, now, 0, None)
      ensures TasksShown(w, st')
    {
      hide *;
      ghost var q, seqs := taskQueue, taskSequences;
      ghost var r := Scan(w, seqs, q, st, now, 0, None);
      runnable, waiting, st' := None, None, st;
      var i := 0;
      while i < |taskQueue|
        invariant 0 <= i <= |q| && (waiting.Some? ==> waiting.value < i)
        invariant TasksShown(w, st')
        invariant r == Scan(w, seqs, q, st', now, i, waiting)
      {
        var found;
        found, waiting, st' := ScanTask(i, now, waiting, w, st');
        if found {
          return Some(i), waiting, st';
        }
        i := i + 1;
      }
      ScanEnd(w, seqs, q, st', now, waiting);
    }

    /** Takes the first runnable task of a queue without expired tasks. */
    method TakeFirst(now: int, ghost w: World, ghost s: State) returns (outcome: PopOutcome, ghost s': State)
      requires Reflected(w) && Shows(w, s)
      modifies this`taskQueue, w.tasks.Keys`status
      ensures (s', outcome) == Taken(s, Scan(w, s.sequences, s.queue, s.status, now, 0, None))
      ensures Shows(w, s')
    {
      hide Reflected, TasksShown, SequencesShown, Scan;
      var index, waiting;
      ghost var st;
      index, waiting, st := ScanQueue(now, w, s.status);
      s' := s.(status := st);
      match index {
        case Some(i) =>
          outcome := Popped(taskQueue[i]);
          taskQueue := taskQueue[..i] + taskQueue[i + 1..];
          s' := s'.(queue := taskQueue);
        case None =>
          outcome := Nothing(if waiting.Some? then Some(taskQueue[waiting.value]) else None);
      }
    }

    /**
     Takes the first runnable task off the queue and returns a copy of it. A call that would block
     is a step without effect; a call that waits for an activation time ends with `FinishWait`.
     */
    method PopTask(now: int, ghost w: World, ghost s: State)
      returns (outcome: PopOutcome, copy: Option<TaskView>, ghost s': State)
      requires Reflected(w) && Shows(w, s)
      modifies this`taskQueue, this`wakeUpSignal, w.tasks.Keys`status
      ensures (s', outcome) == Pop(w, s, now)
      ensures Shows(w, s')
      ensures copy == if outcome.Popped? then Some(w.View(outcome.task)) else None
    {
      hide Reflected, TasksShown, SequencesShown, Taken, Scan, Without;
      copy, s' := None, s;
      if taskQueue == [] && !wakeUpSignal && !endSignal {
        return Blocked, copy, s';
      }
      wakeUpSignal := false;
      s' := s'.(wakeUp := false);
      if endSignal {
        return Ended, copy, s';
      }
      if taskQueue == [] {
        return Empty, copy, s';
      }
      outcome, copy, s' := PopQueued(now, w, s');
    }

    /** Purges the queue, and takes and copies its first runnable task. */
    method PopQueued(now: int, ghost w: World, ghost s: State)
      returns (outcome: PopOutcome, copy: Option<TaskView>, ghost s': State)
      requires Reflected(w) && Shows(w, s)
      modifies this`taskQueue, w.tasks.Keys`status
      ensures
        var purged := s.(queue := Without(w, s.status, s.queue, ByStatus(EXPIRED)));
        (s', outcome) == Taken(purged, Scan(w, purged.sequences, purged.queue, purged.status, now, 0, None))
      ensures Shows(w, s')
      ensures copy == if outcome.Popped? then Some(w.View(outcome.task)) else None
    {
      hide Reflected, TasksShown, SequencesShown, Taken, Scan, Without;
      copy := None;
      RemoveFromQueue(ByStatus(EXPIRED), w, s.status);
      ghost var before := s.(queue := taskQueue);
      outcome, s' := TakeFirst(now, w, before);
      TakenIsKnown(w, before, now);
      match outcome {
        case Popped(task) =>
          var view := CopyTask(task, w);
          copy := Some(view);
        case _ =>
      }
    }

    lemma TakenIsKnown(w: World, s: State, now: int)
      requires forall i :: 0 <= i < |s.queue| ==> s.queue[i] in w.tasks
      ensures var outcome := Taken(s, Scan(w, s.sequences, s.queue, s.status, now, 0, None)).1;
        outcome.Popped? ==> outcome.task in w.tasks
    {
    }

    method FinishWait(ghost w: World, ghost s: State) returns (ghost s': State)
      requires Reflected(w) && Shows(w, s)
      modifies this`wakeUpSignal
      ensures s' == Step(w, s, Op.FinishWait).state && Shows(w, s')
    {
      if wakeUpSignal {
        wakeUpSignal := false;
      }
      s' := s.(wakeUp := false);
    }

    // ----- adding -----

    /** Queues one task and marks it as idle. */
    method QueueTask(task: Task, ghost w: World, ghost st: StatusMap) returns (ghost st': StatusMap)
      requires Reflected(w) && Within(w) && TasksShown(w, st) && task in w.tasks
      modifies this`taskQueue, task`status
      ensures taskQueue == Insert(w, old(taskQueue), task) && Within(w)
      ensures st' == st[task := IDLE] && TasksShown(w, st')
    {
      InsertInQueue(task, w);
      forall i | 0 <= i < |taskQueue|
        ensures taskQueue[i] in w.tasks
      {
        InsertedFrom(w, old(taskQueue), task, i);
      }
      st' := SetStatusOf(task, IDLE, w, st);
    }

    lemma {:induction false} InsertedFrom(w: World, q: seq<Task>, t: Task, i: nat)
      requires i < |Insert(w, q, t)|
      ensures Insert(w, q, t)[i] == t || Insert(w, q, t)[i] in q
    {
      if q != [] && w.Before(q[0], t) && i > 0 {
        InsertedFrom(w, q[1..], t, i - 1);
      }
    }

    lemma InsertAllNext(w: World, q: seq<Task>, st: StatusMap, tasks: seq<Task>, attrs: set<string>, i: nat)
      requires i < |tasks|
      ensures var t := tasks[i];
        var r := InsertAll(w, q, st, tasks[i..], attrs);
        if w.View(t).isAsynch && w.View(t).statusAttr !in attrs then r.queue == q && r.status == st && !r.ok
        else
          var r' := InsertAll(w, Insert(w, q, t), st[t := IDLE], tasks[i + 1..], attrs);
          r.queue == r'.queue && r.status == r'.status && r.ok == r'.ok
    {
      assert tasks[i..][1..] == tasks[i + 1..];
    }

    lemma InsertAllEnd(w: World, q: seq<Task>, st: StatusMap, tasks: seq<Task>, attrs: set<string>)
      ensures tasks[|tasks|..] == [] && InsertAll(w, q, st, tasks[|tasks|..], attrs) == AddResult(q, st, [], true)
      ensures tasks[0..] == tasks
    {
    }

    /** Queues the tasks in order; gives up, keeping what was queued, at a missing status attribute. */
    method QueueAll(tasks: seq<Task>, attrs: set<string>, ghost w: World, ghost st: StatusMap)
      returns (ok: bool, ghost st': StatusMap)
      requires Reflected(w) && Within(w) && TasksShown(w, st)
      requires forall k :: 0 <= k < |tasks| ==> tasks[k] in w.tasks
      modifies this`taskQueue, w.tasks.Keys`status
      ensures var r := InsertAll(w, old(taskQueue), st, tasks, attrs);
        taskQueue == r.queue && st' == r.status && ok == r.ok
      ensures Within(w) && TasksShown(w, st')
    {
      hide Reflected, TasksShown, Within, InsertAll;
      ghost var r := InsertAll(w, taskQueue, st, tasks, attrs);
      st' := st;
      InsertAllEnd(w, taskQueue, st', tasks, attrs);
      var i := 0;
      while i < |tasks|
        invariant 0 <= i <= |tasks| && Within(w) && TasksShown(w, st')
        invariant var r' := InsertAll(w, taskQueue, st', tasks[i..], attrs);
          r.queue == r'.queue && r.status == r'.status && r.ok == r'.ok
      {
        InsertAllNext(w, taskQueue, st', tasks, attrs, i);
        var view := CopyTask(tasks[i], w);
        if view.isAsynch && view.statusAttr !in attrs {
          return false, st';
        }
        st' := QueueTask(tasks[i], w, st');
        i := i + 1;
      }
      InsertAllEnd(w, taskQueue, st', tasks, attrs);
      return true, st';
    }

    lemma SequenceIsKnown(w: World, q: TaskSequence)
      requires Reflected(w) && q in w.sequences
      ensures w.Seq(q) == SequenceView(q) && forall k :: 0 <= k < |q.tasks| ==> q.tasks[k] in w.tasks
    {
    }

    /** Adds a sequence, and its tasks to the queue, unless that could exceed the quota. */
    method AddTaskSequence(q: TaskSequence, addToQueue: bool, attrs: set<string>, ghost w: World, ghost s: State)
      returns (rc: int, ghost s': State)
      requires Reflected(w) && Shows(w, s) && q in w.sequences
      modifies this`taskQueue, this`taskSequences, this`wakeUpSignal, w.tasks.Keys`status
      ensures s' == Add(w, s, q, addToQueue, attrs).0 && rc == Add(w, s, q, addToQueue, attrs).2
      ensures Shows(w, s')
    {
      hide Reflected, TasksShown, SequencesShown, InsertAll;
      SequenceIsKnown(w, q);
      s' := s;
      if |q.tasks| <= 0 || |taskQueue| + |q.tasks| > maxTasksInQueue {
        rc := -1;
      } else {
        rc, s' := AddWithinQuota(q, addToQueue, attrs, w, s);
      }
    }

    method AddWithinQuota(q: TaskSequence, addToQueue: bool, attrs: set<string>, ghost w: World, ghost s: State)
      returns (rc: int, ghost s': State)
      requires Reflected(w) && Shows(w, s) && q in w.sequences
      requires 0 < |q.tasks| && |taskQueue| + |q.tasks| <= maxTasksInQueue
      modifies this`taskQueue, this`taskSequences, this`wakeUpSignal, w.tasks.Keys`status
      ensures s' == Add(w, s, q, addToQueue, attrs).0 && rc == Add(w, s, q, addToQueue, attrs).2
      ensures Shows(w, s')
    {
      hide Reflected, TasksShown, SequencesShown, InsertAll;
      SequenceIsKnown(w, q);
      var ok := true;
      ghost var st := s.status;
      if addToQueue {
        ok, st := QueueAll(q.tasks, attrs, w, s.status);
      }
      rc := -1;
      if ok {
        taskSequences := taskSequences + [q];
        wakeUpSignal := true;
        rc := 0;
      }
      s' := s.(queue := taskQueue, status := st, sequences := taskSequences, wakeUp := wakeUpSignal);
    }

    // ----- revoking and removing -----

    lemma RevokeNext(w: World, st: StatusMap, tasks: seq<Task>, name: Option<string>, i: nat)
      requires i < |tasks|
      ensures var t, rest := tasks[i], tasks[i + 1..];
        if StatusOf(st, t) == IDLE && (name.None? || w.View(t).name == name.value) then
          && Revoke(w, st, tasks[i..], name) == Revoke(w, st[t := CANCELED], rest, name)
          && SomeRevoked(w, st, tasks[i..], name)
        else
          && Revoke(w, st, tasks[i..], name) == Revoke(w, st, rest, name)
          && SomeRevoked(w, st, tasks[i..], name) == SomeRevoked(w, st, rest, name)
    {
      assert tasks[i..][1..] == tasks[i + 1..];
      assert tasks[i..] == [tasks[i]] + tasks[i + 1..];
    }

    lemma RevokeEnd(w: World, st: StatusMap, tasks: seq<Task>, name: Option<string>)
      ensures tasks[0..] == tasks && tasks[|tasks|..] == []
      ensures Revoke(w, st, [], name) == st && !SomeRevoked(w, st, [], name)
    {
    }

    /** Cancels the idle tasks of a sequence, all of them or those of one name. */
    method RevokeInSequence(tasks: seq<Task>, name: Option<string>, ghost w: World, ghost st: StatusMap)
      returns (canceled: bool, ghost st': StatusMap)
      requires Reflected(w) && TasksShown(w, st) && forall k :: 0 <= k < |tasks| ==> tasks[k] in w.tasks
      modifies w.tasks.Keys`status
      ensures st' == Revoke(w, st, tasks, name) && canceled == SomeRevoked(w, st, tasks, name)
      ensures TasksShown(w, st')
    {
      hide Reflected, TasksShown, Revoke, SomeRevoked;
      canceled, st' := false, st;
      RevokeEnd(w, st, tasks, name);
      var i := 0;
      while i < |tasks|
        invariant 0 <= i <= |tasks| && TasksShown(w, st')
        invariant Revoke(w, st, tasks, name) == Revoke(w, st', tasks[i..], name)
        invariant SomeRevoked(w, st, tasks, name) == (canceled || SomeRevoked(w, st', tasks[i..], name))
      {
        RevokeNext(w, st', tasks, name, i);
        var view, status := Inspect(tasks[i], w, st');
        if status == IDLE && (name.None? || view.name == name.value) {
          st' := SetStatusOf(tasks[i], CANCELED, w, st');
          canceled := true;
        }
        i := i + 1;
      }
      RevokeEnd(w, st', tasks, name);
    }

    method Inspect(task: Task, ghost w: World, ghost st: StatusMap) returns (view: TaskView, status: TaskStatus)
      requires Reflected(w) && TasksShown(w, st) && task in w.tasks
      ensures view == w.View(task) && status == StatusOf(st, task)
    {
      view, status := task.View(), task.status;
    }

    lemma RevokeAllNext(w: World, seqs: seq<TaskSequence>, st: StatusMap, sst: SeqStatusMap,
                        sequenceName: Option<string>, name: Option<string>, i: nat)
      requires i < |seqs|
      ensures var q, rest := seqs[i], seqs[i + 1..];
        RevokeAll(w, seqs[i..], st, sst, sequenceName, name) ==
        if sequenceName.Some? && w.Seq(q).name != sequenceName.value then
          RevokeAll(w, rest, st, sst, sequenceName, name)
        else
          var st' := Revoke(w, st, w.Seq(q).tasks, name);
          var sst' := if SomeRevoked(w, st, w.Seq(q).tasks, name)
                      then sst[q := Combined(StatusesIn(w, st', q))] else sst;
          RevokeAll(w, rest, st', sst', sequenceName, name)
    {
      assert seqs[i..][1..] == seqs[i + 1..];
    }

    lemma RevokeAllEnd(w: World, seqs: seq<TaskSequence>, st: StatusMap, sst: SeqStatusMap,
                       sequenceName: Option<string>, name: Option<string>)
      ensures seqs[0..] == seqs && seqs[|seqs|..] == []
      ensures RevokeAll(w, [], st, sst, sequenceName, name) == (st, sst)
    {
    }

    /** Cancels idle tasks in the chosen sequences and updates the sequences that had any. */
    method RevokeTasks(sequenceName: Option<string>, name: Option<string>, ghost w: World,
                       ghost st: StatusMap, ghost sst: SeqStatusMap)
      returns (ghost st': StatusMap, ghost sst': SeqStatusMap)
      requires Reflected(w) && Within(w) && TasksShown(w, st) && SequencesShown(w, sst)
      modifies w.tasks.Keys`status, w.sequences.Keys`status
      ensures (st', sst') == RevokeAll(w, taskSequences, st, sst, sequenceName, name)
      ensures TasksShown(w, st') && SequencesShown(w, sst')
    {
      hide Reflected, TasksShown, SequencesShown, Revoke, SomeRevoked, RevokeAll;
      st', sst' := st, sst;
      RevokeAllEnd(w, taskSequences, st, sst, sequenceName, name);
      var i := 0;
      while i < |taskSequences|
        invariant 0 <= i <= |taskSequences| && TasksShown(w, st') && SequencesShown(w, sst')
        invariant RevokeAll(w, taskSequences, st, sst, sequenceName, name)
               == RevokeAll(w, taskSequences[i..], st', sst', sequenceName, name)
      {
        var q := taskSequences[i];
        SequenceIsKnown(w, q);
        RevokeAllNext(w, taskSequences, st', sst', sequenceName, name, i);
        if sequenceName.None? || q.seqName == sequenceName.value {
          var canceled;
          canceled, st' := RevokeInSequence(q.tasks, name, w, st');
          if canceled {
            sst' := UpdateSequence(q, w, st', sst');
          }
        }
        i := i + 1;
      }
      RevokeAllEnd(w, taskSequences, st', sst', sequenceName, name);
    }

    /** Takes the matching tasks off the queue. */
    method RemoveFromQueue(m: Match, ghost w: World, ghost st: StatusMap)
      requires Reflected(w) && Within(w) && TasksShown(w, st)
      modifies this`taskQueue
      ensures taskQueue == Without(w, st, old(taskQueue), m) && Within(w)
    {
      assert Recorded(w, st, taskQueue);
      RemoveTasksInQueue(m, w, st);
      forall i | 0 <= i < |taskQueue|
        ensures taskQueue[i] in w.tasks
      {
        WithoutComesFrom(w, st, old(taskQueue), m, i);
      }
    }

    method RevokeTaskSequence(name: string, ghost w: World, ghost s: State) returns (ghost s': State)
      requires Reflected(w) && Shows(w, s)
      modifies this`taskQueue, w.tasks.Keys`status, w.sequences.Keys`status
      ensures s' == Step(w, s, RevokeSequence(name)).state && Shows(w, s')
    {
      hide Reflected, TasksShown, SequencesShown, RevokeAll;
      RemoveFromQueue(BySequenceName(name), w, s.status);
      ghost var st, sst := RevokeTasks(Some(name), None, w, s.status, s.seqStatus);
      s' := s.(queue := taskQueue, status := st, seqStatus := sst);
    }

    method RevokeTask(name: string, ghost w: World, ghost s: State) returns (ghost s': State)
      requires Reflected(w) && Shows(w, s)
      modifies this`taskQueue, w.tasks.Keys`status, w.sequences.Keys`status
      ensures s' == Step(w, s, Op.RevokeTask(name)).state && Shows(w, s')
    {
      hide Reflected, TasksShown, SequencesShown, RevokeAll;
      RemoveFromQueue(ByName(name), w, s.status);
      ghost var st, sst := RevokeTasks(None, Some(name), w, s.status, s.seqStatus);
      s' := s.(queue := taskQueue, status := st, seqStatus := sst);
    }

    method RemoveTaskSequence(name: string, ghost w: World, ghost s: State) returns (ghost s': State)
      requires Reflected(w) && Shows(w, s)
      modifies this`taskQueue, this`taskSequences
      ensures s' == Step(w, s, RemoveSequence(name)).state && Shows(w, s')
    {
      hide Reflected, TasksShown, SequencesShown;
      RemoveFromQueue(BySequenceName(name), w, s.status);
      ForgetNamed(name, w);
      s' := s.(queue := taskQueue, sequences := taskSequences);
    }

    lemma {:induction false} SequencesSnoc(w: World, seqs: seq<TaskSequence>, q: TaskSequence, name: string)
      ensures SequencesNotNamed(w, seqs + [q], name) ==
        SequencesNotNamed(w, seqs, name) + if w.Seq(q).name == name then [] else [q]
    {
      if seqs != [] {
        SequencesSnoc(w, seqs[1..], q, name);
        assert (seqs + [q])[1..] == seqs[1..] + [q];
      }
    }

    method ForgetNamed(name: string, ghost w: World)
      requires Reflected(w) && Within(w)
      modifies this`taskSequences
      ensures taskSequences == SequencesNotNamed(w, old(taskSequences), name) && Within(w)
    {
      var seqs := taskSequences;
      var kept: seq<TaskSequence> := [];
      for i := 0 to |seqs|
        invariant kept == SequencesNotNamed(w, seqs[..i], name)
        invariant forall k :: 0 <= k < |kept| ==> kept[k] in w.sequences
      {
        var q := seqs[i];
        SequencesSnoc(w, seqs[..i], q, name);
        assert seqs[..i + 1] == seqs[..i] + [q];
        if q.seqName != name {
          kept := kept + [q];
        }
      }
      assert seqs[..|seqs|] == seqs;
      taskSequences := kept;
    }

    lemma {:induction false} RememberedSnoc(w: World, sst: SeqStatusMap, seqs: seq<TaskSequence>, q: TaskSequence,
                                           keep: Option<TaskStatus>, age: int, now: int)
      ensures Remembered(w, sst, seqs + [q], keep, age, now) ==
        Remembered(w, sst, seqs, keep, age, now) + if Forgotten(w, sst, q, keep, age, now) then [] else [q]
    {
      if seqs != [] {
        RememberedSnoc(w, sst, seqs[1..], q, keep, age, now);
        assert (seqs + [q])[1..] == seqs[1..] + [q];
      }
    }

    method ForgetOld(keep: Option<TaskStatus>, age: int, now: int, ghost w: World, ghost sst: SeqStatusMap)
      requires Reflected(w) && Within(w) && SequencesShown(w, sst)
      modifies this`taskSequences
      ensures taskSequences == Remembered(w, sst, old(taskSequences), keep, age, now) && Within(w)
    {
      var seqs := taskSequences;
      var kept: seq<TaskSequence> := [];
      for i := 0 to |seqs|
        invariant kept == Remembered(w, sst, seqs[..i], keep, age, now)
        invariant forall k :: 0 <= k < |kept| ==> kept[k] in w.sequences
      {
        var q := seqs[i];
        RememberedSnoc(w, sst, seqs[..i], q, keep, age, now);
        assert seqs[..i + 1] == seqs[..i] + [q];
        if now - q.creation < age * 1000 || (keep.Some? && q.status == keep.value) {
          kept := kept + [q];
        }
      }
      assert seqs[..|seqs|] == seqs;
      taskSequences := kept;
    }

    method ClearOldSequences(keep: Option<TaskStatus>, age: int, now: int, ghost w: World, ghost s: State)
      returns (ghost s': State)
      requires Reflected(w) && Shows(w, s)
      modifies this`taskSequences
      ensures s' == Step(w, s, ClearOld(keep, age, now)).state && Shows(w, s')
    {
      hide Reflected, TasksShown, SequencesShown;
      ForgetOld(keep, age, now, w, s.seqStatus);
      s' := s.(sequences := taskSequences);
    }

    /** Forgets old sequences that are not running, or all old ones. */
    method ClearSequenceTasks(age: int, keepRunning: bool, now: int, ghost w: World, ghost s: State)
      returns (ghost s': State)
      requires Reflected(w) && Shows(w, s)
      modifies this`taskSequences
      ensures s' == Step(w, s, ClearOld(if keepRunning then Some(RUNNING) else None, age, now)).state && Shows(w, s')
    {
      s' := ClearOldSequences(if keepRunning then Some(RUNNING) else None, age, now, w, s);
    }

    /** Forgets old sequences that are not completed. */
    method ClearCompletedSequenceTasks(age: int, now: int, ghost w: World, ghost s: State) returns (ghost s': State)
      requires Reflected(w) && Shows(w, s)
      modifies this`taskSequences
      ensures s' == Step(w, s, ClearOld(Some(COMPLETED), age, now)).state && Shows(w, s')
    {
      s' := ClearOldSequences(Some(COMPLETED), age, now, w, s);
    }

    method ClearAllSequenceTasks(ghost w: World, ghost s: State) returns (ghost s': State)
      requires Shows(w, s)
      modifies this`taskSequences
      ensures s' == Step(w, s, ClearAll).state && Shows(w, s')
    {
      hide TasksShown, SequencesShown;
      taskSequences := [];
      s' := s.(sequences := []);
    }

    method FlushQueue(ghost w: World, ghost s: State) returns (ghost s': State)
      requires Shows(w, s)
      modifies this`taskQueue
      ensures s' == Step(w, s, Op.FlushQueue).state && Shows(w, s')
    {
      hide TasksShown, SequencesShown;
      taskQueue := [];
      s' := s.(queue := []);
    }

    // ----- status updates -----

    lemma FirstMatchingNext(w: World, st: StatusMap, tasks: seq<Task>, m: Match, i: nat)
      requires i < |tasks|
      ensures FirstMatching(w, st, tasks[i..], m) ==
        if m.Matches(w.View(tasks[i]), StatusOf(st, tasks[i])) then Some(tasks[i])
        else FirstMatching(w, st, tasks[i + 1..], m)
    {
      assert tasks[i..][1..] == tasks[i + 1..];
    }

    /** The first task of a sequence that matches. */
    method FindTask(tasks: seq<Task>, m: Match, ghost w: World, ghost st: StatusMap) returns (found: Option<Task>)
      requires Reflected(w) && TasksShown(w, st) && forall k :: 0 <= k < |tasks| ==> tasks[k] in w.tasks
      ensures found == FirstMatching(w, st, tasks, m) && (found.Some? ==> found.value in w.tasks)
    {
      hide Reflected, TasksShown;
      var i := 0;
      while i < |tasks|
        invariant 0 <= i <= |tasks|
        invariant FirstMatching(w, st, tasks, m) == FirstMatching(w, st, tasks[i..], m)
      {
        FirstMatchingNext(w, st, tasks, m, i);
        var view, status := Inspect(tasks[i], w, st);
        if m.Matches(view, status) {
          return Some(tasks[i]);
        }
        i := i + 1;
      }
      return None;
    }

    lemma SetMatchingNext(w: World, seqs: seq<TaskSequence>, st: StatusMap, sst: SeqStatusMap,
                          m: Match, status: TaskStatus, i: nat)
      requires i < |seqs|
      ensures var q, rest := seqs[i], seqs[i + 1..];
        var found := FirstMatching(w, st, w.Seq(q).tasks, m);
        SetMatching(w, seqs[i..], st, sst, m, status) ==
        if found.None? then SetMatching(w, rest, st, sst, m, status)
        else
          var st' := st[found.value := status];
          var sst' := if m.ByWatchedAttr? || w.View(found.value).inSequence
                      then sst[q := Combined(StatusesIn(w, st', q))] else sst;
          SetMatching(w, rest, st', sst', m, status)
    {
      assert seqs[i..][1..] == seqs[i + 1..];
    }

    lemma SetMatchingEnd(
        w: World, seqs: seq<TaskSequence>, st: StatusMap, sst: SeqStatusMap, m: Match, status: TaskStatus)
      ensures seqs[0..] == seqs && seqs[|seqs|..] == []
      ensures SetMatching(w, [], st, sst, m, status) == (st, sst)
    {
    }

    /** Sets the status of the first match in one sequence and recomputes the sequence. */
    method SetInSequence(q: TaskSequence, m: Match, status: TaskStatus, ghost w: World,
                         ghost st: StatusMap, ghost sst: SeqStatusMap)
      returns (found: Option<Task>, ghost st': StatusMap, ghost sst': SeqStatusMap)
      requires Reflected(w) && TasksShown(w, st) && SequencesShown(w, sst) && q in w.sequences
      modifies w.tasks.Keys`status, q`status
      ensures found == FirstMatching(w, st, w.Seq(q).tasks, m)
      ensures found.None? ==> st' == st && sst' == sst
      ensures found.Some? ==>
        && st' == st[found.value := status]
        && sst' == if m.ByWatchedAttr? || w.View(found.value).inSequence
                   then sst[q := Combined(StatusesIn(w, st', q))] else sst
      ensures TasksShown(w, st') && SequencesShown(w, sst')
    {
      hide Reflected, TasksShown, SequencesShown, FirstMatching;
      SequenceIsKnown(w, q);
      st', sst' := st, sst;
      found := FindTask(q.tasks, m, w, st);
      match found {
        case Some(task) =>
          st' := SetStatusOf(task, status, w, st);
          var view := CopyTask(task, w);
          if m.ByWatchedAttr? || view.inSequence {
            sst' := UpdateSequence(q, w, st', sst');
          }
        case None =>
      }
    }

    /** One of the first `n` sequences has a task that matches. */
    ghost predicate FoundAmong(w: World, seqs: seq<TaskSequence>, n: nat, m: Match)
      requires n <= |seqs|
    {
      exists i :: 0 <= i < n && FirstMatching(w, map[], w.Seq(seqs[i]).tasks, m).Some?
    }

    lemma FoundNamed(w: World, seqs: seq<TaskSequence>, id: string, name: string)
      ensures FoundAmong(w, seqs, |seqs|, ByIdAndName(id, name)) <==>
        exists i, t :: 0 <= i < |seqs| && t in w.Seq(seqs[i]).tasks && w.View(t).id == id && w.View(t).name == name
    {
      forall i | 0 <= i < |seqs|
        ensures FirstMatching(w, map[], w.Seq(seqs[i]).tasks, ByIdAndName(id, name)).Some? <==>
          exists t :: t in w.Seq(seqs[i]).tasks && w.View(t).id == id && w.View(t).name == name
      {
        HasNamedIff(w, seqs[i], id, name);
      }
    }

    method SetMatchingTasks(m: Match, status: TaskStatus, ghost w: World, ghost st: StatusMap, ghost sst: SeqStatusMap)
      returns (isFound: bool, ghost st': StatusMap, ghost sst': SeqStatusMap)
      requires Reflected(w) && Within(w) && TasksShown(w, st) && SequencesShown(w, sst)
      modifies w.tasks.Keys`status, w.sequences.Keys`status
      ensures (st', sst') == SetMatching(w, taskSequences, st, sst, m, status)
      ensures TasksShown(w, st') && SequencesShown(w, sst')
      ensures !m.ByStatus? ==> (isFound <==> FoundAmong(w, taskSequences, |taskSequences|, m))
    {
      hide Reflected, TasksShown, SequencesShown, SetMatching, FirstMatching;
      isFound, st', sst' := false, st, sst;
      SetMatchingEnd(w, taskSequences, st, sst, m, status);
      var i := 0;
      while i < |taskSequences|
        invariant 0 <= i <= |taskSequences| && TasksShown(w, st') && SequencesShown(w, sst')
        invariant SetMatching(w, taskSequences, st, sst, m, status)
               == SetMatching(w, taskSequences[i..], st', sst', m, status)
        invariant !m.ByStatus? ==> (isFound <==> FoundAmong(w, taskSequences, i, m))
      {
        SetMatchingNext(w, taskSequences, st', sst', m, status, i);
        if !m.ByStatus? {
          FirstMatchingIgnoresStatus(w, st', map[], w.Seq(taskSequences[i]).tasks, m);
        }
        var found;
        found, st', sst' := SetInSequence(taskSequences[i], m, status, w, st', sst');
        isFound := isFound || found.Some?;
        i := i + 1;
      }
      SetMatchingEnd(w, taskSequences, st', sst', m, status);
    }

    method SetSequenceTaskStatus(id: string, name: string, status: TaskStatus, ghost w: World, ghost s: State)
      returns (rc: int, ghost s': State)
      requires Reflected(w) && Shows(w, s)
      modifies w.tasks.Keys`status, w.sequences.Keys`status
      ensures s' == Step(w, s, SetTaskStatus(id, name, status)).state && Shows(w, s')
      ensures rc == if exists i, t :: 0 <= i < |s.sequences| && t in w.Seq(s.sequences[i]).tasks
                         && w.View(t).id == id && w.View(t).name == name
                    then 0 else -1
    {
      hide Reflected, TasksShown, SequencesShown, SetMatching, FoundAmong;
      FoundNamed(w, s.sequences, id, name);
      var isFound;
      ghost var st, sst;
      isFound, st, sst := SetMatchingTasks(ByIdAndName(id, name), status, w, s.status, s.seqStatus);
      rc := if isFound then 0 else -1;
      s' := s.(status := st, seqStatus := sst);
    }

    method SetAsynchTaskStatus(attr: string, status: TaskStatus, ghost w: World, ghost s: State)
      returns (ghost s': State)
      requires Reflected(w) && Shows(w, s)
      modifies w.tasks.Keys`status, w.sequences.Keys`status
      ensures s' == Step(w, s, SetAsynchStatus(attr, status)).state && Shows(w, s')
    {
      hide Reflected, TasksShown, SequencesShown, SetMatching;
      var isFound;
      ghost var st, sst;
      isFound, st, sst := SetMatchingTasks(ByWatchedAttr(attr), status, w, s.status, s.seqStatus);
      s' := s.(status := st, seqStatus := sst);
    }

    /**
     Runs a popped copy; `raised` tells whether the command raised an exception, which is passed on.
     An asynchronous command has only been started when it returns.
     */
    method ExecuteTask(task: TaskView, raised: bool, ghost w: World, ghost s: State)
      returns (rethrown: bool, ghost s': State)
      requires Reflected(w) && Shows(w, s)
      modifies w.tasks.Keys`status, w.sequences.Keys`status
      ensures rethrown == raised
      ensures s' == Step(w, s, SetTaskStatus(task.id, task.name,
                if raised then FAILED else if task.isAsynch then RUNNING else COMPLETED)).state
      ensures Shows(w, s')
    {
      var rc;
      rethrown := raised;
      if raised {
        rc, s' := SetSequenceTaskStatus(task.id, task.name, FAILED, w, s);
      } else if task.isAsynch {
        rc, s' := SetSequenceTaskStatus(task.id, task.name, RUNNING, w, s);
      } else {
        rc, s' := SetSequenceTaskStatus(task.id, task.name, COMPLETED, w, s);
      }
    }

    // ----- signals and options -----

    method WakeUp(ghost w: World, ghost s: State) returns (ghost s': State)
      requires Shows(w, s)
      modifies this`wakeUpSignal
      ensures s' == Step(w, s, Op.WakeUp).state && Shows(w, s')
    {
      hide TasksShown, SequencesShown;
      wakeUpSignal := true;
      s' := s.(wakeUp := true);
    }

    method End(ghost w: World, ghost s: State) returns (ghost s': State)
      requires Shows(w, s)
      modifies this`endSignal
      ensures s' == Step(w, s, Op.End).state && Shows(w, s')
    {
      hide TasksShown, SequencesShown;
      endSignal := true;
      s' := s.(end := true);
    }

    method SetMaxNTasksInQueue(max: int, ghost w: World, ghost s: State) returns (ghost s': State)
      requires Shows(w, s)
      modifies this`maxTasksInQueue
      ensures s' == Step(w, s, SetMaxQueue(max)).state && Shows(w, s')
    {
      hide TasksShown, SequencesShown;
      maxTasksInQueue := max;
      s' := s.(maxQueue := max);
    }
  }
}

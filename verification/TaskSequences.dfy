/**
 A task sequence: a dependency graph of tasks that is checked for cycles, sorted
 topologically, and annotated with worst-case activation and expiration times.
 */
module TaskSequences {
  import opened Wrappers
  import opened Graph
  import opened Tasks
  import opened SequenceStatus
  import opened CriticalPath
  import opened Scheduling

  class TaskSequence {
    const seqName: string
    const seqId: string
    const creation: int
    var tasks: seq<Task>
    var status: TaskStatus
    var dependencyMatrix: Matrix

    constructor (name: string, uuid: string, now: int)
      ensures seqName == name && seqId == uuid && creation == now
      ensures tasks == [] && status == INIT && dependencyMatrix == []
    {
      seqName, seqId, creation := name, uuid, now;
      tasks, status, dependencyMatrix := [], INIT, [];
    }

    /** Records the sequence in the task; a sequence without name or id takes no tasks. */
    method AddTask(task: Task?) returns (rc: int)
      modifies this`tasks
      modifies if task == null then {} else {task}
      ensures rc == (if task == null || seqId == "" || seqName == "" then -1 else 0)
      ensures rc != 0 ==> tasks == old(tasks) && (task != null ==> task.View() == old(task.View()))
      ensures rc == 0 ==>
        && tasks == old(tasks) + [task]
        && task.View() == old(task.View()).(inSequence := true, sequenceId := seqId,
             sequenceName := seqName, sequenceIndex := |old(tasks)|)
      ensures task != null ==> task.status == old(task.status)
    {
      if task == null {
        return -1;
      }
      if seqId == "" || seqName == "" {
        return -1;
      }
      tasks := tasks + [task];
      task.inSequence := true;
      task.sequenceId := seqId;
      task.sequenceName := seqName;
      task.sequenceIndex := |tasks| - 1;
      return 0;
    }

    // ----- status -----

    function TaskStatuses(): set<TaskStatus>
      reads this`tasks, tasks`status
    {
      set t | t in tasks :: t.status
    }

    lemma OneMore(i: nat)
      requires i < |tasks|
      ensures (set t | t in tasks[..i + 1] :: t.status) == (set t | t in tasks[..i] :: t.status) + {tasks[i].status}
    {
      assert tasks[..i + 1] == tasks[..i] + [tasks[i]];
    }

    /** What holds of some task, and what holds of all of them. */
    method GatherFlags()
      returns (oneRunning: bool, oneFailed: bool, oneTimedOut: bool, oneCanceled: bool, oneIdle: bool,
               oneCompleted: bool, allIdle: bool, allCompleted: bool, allCanceled: bool)
      ensures oneRunning == (RUNNING in TaskStatuses())
      ensures oneFailed == (FAILED in TaskStatuses() || ABORTED in TaskStatuses())
      ensures oneTimedOut == (EXPIRED in TaskStatuses()) && oneCanceled == (CANCELED in TaskStatuses())
      ensures oneIdle == (IDLE in TaskStatuses()) && oneCompleted == (COMPLETED in TaskStatuses())
      ensures allIdle == Only(TaskStatuses(), IDLE) && allCompleted == Only(TaskStatuses(), COMPLETED)
      ensures allCanceled == Only(TaskStatuses(), CANCELED)
    {
      oneRunning, oneFailed, oneTimedOut := false, false, false;
      oneCanceled, oneIdle, oneCompleted := false, false, false;
      allIdle, allCompleted, allCanceled := true, true, true;
      ghost var seen: set<TaskStatus> := {};
      OnlyOfNone();
      hide Only;
      for i := 0 to |tasks|
        invariant seen == set t | t in tasks[..i] :: t.status
        invariant oneRunning == (RUNNING in seen) && oneFailed == (FAILED in seen || ABORTED in seen)
        invariant oneTimedOut == (EXPIRED in seen) && oneCanceled == (CANCELED in seen)
        invariant oneIdle == (IDLE in seen) && oneCompleted == (COMPLETED in seen)
        invariant allIdle == Only(seen, IDLE) && allCompleted == Only(seen, COMPLETED)
        invariant allCanceled == Only(seen, CANCELED)
      {
        var current := tasks[i].status;
        OneMore(i);
        OnlyWith(seen, current);
        seen := seen + {current};
        oneIdle, allIdle := oneIdle || current == IDLE, allIdle && current == IDLE;
        oneRunning := oneRunning || current == RUNNING;
        oneCompleted, allCompleted := oneCompleted || current == COMPLETED, allCompleted && current == COMPLETED;
        oneFailed := oneFailed || current == ABORTED || current == FAILED;
        oneTimedOut := oneTimedOut || current == EXPIRED;
        oneCanceled, allCanceled := oneCanceled || current == CANCELED, allCanceled && current == CANCELED;
      }
      assert tasks[..|tasks|] == tasks;
      assert seen == TaskStatuses();
    }

    /** Later rules override earlier ones. */
    method ComputeStatus()
      modifies this`status
      ensures status == Combined(TaskStatuses())
    {
      var oneRunning, oneFailed, oneTimedOut, oneCanceled, oneIdle, oneCompleted, allIdle, allCompleted, allCanceled
        := GatherFlags();
      CombinedByOnly(TaskStatuses());
      hide Combined, Only;
      var combined := UNKNOWN;
      if allCompleted { combined := COMPLETED; }
      if allIdle { combined := IDLE; }
      if allCanceled { combined := CANCELED; }
      if oneRunning && !oneFailed && !oneTimedOut { combined := RUNNING; }
      if oneCompleted && oneIdle && !oneFailed && !oneTimedOut { combined := RUNNING; }
      if oneFailed { combined := FAILED; }
      if oneCanceled { combined := CANCELED; }
      if oneTimedOut && !oneFailed { combined := EXPIRED; }
      status := combined;
    }

    // ----- cycle detection -----

    /** Depth-first search that keeps the vertices of the current path on a recursion stack. */
    method CheckCyclicDependencies(
        index: nat, depMatrix: Matrix, visited: array<bool>, recStack: array<bool>,
        ghost path: seq<nat>, ghost finished: seq<nat>)
      returns (cyclic: bool, ghost finished': seq<nat>)
      requires visited != recStack && recStack.Length == visited.Length
      requires SearchState(depMatrix, visited.Length, visited[..], path, finished)
      requires Postorder(depMatrix, visited.Length, finished)
      requires forall v :: 0 <= v < recStack.Length ==> (recStack[v] <==> v in path)
      requires index < visited.Length
      requires if path == [] then true else !visited[index] && Edge(depMatrix, path[|path| - 1], index)
      modifies visited, recStack
      ensures cyclic ==> Cyclic(depMatrix, visited.Length)
      ensures !cyclic ==>
        && SearchState(depMatrix, visited.Length, visited[..], path, finished')
        && Postorder(depMatrix, visited.Length, finished')
        && (forall v :: 0 <= v < recStack.Length ==> (recStack[v] <==> v in path))
        && index in finished'
        && (forall v :: v in finished ==> v in finished')
        && Unvisited(visited[..]) <= Unvisited(old(visited[..]))
      decreases Unvisited(visited[..])
    {
      ghost var n := visited.Length;
      finished' := finished;
      if !visited[index] {
        EnterVertex(depMatrix, n, visited[..], path, finished, index);
        ghost var before := visited[..];
        visited[index] := true;
        recStack[index] := true;
        assert visited[..] == before[index := true];
        ghost var here := path + [index];
        assert here[|here| - 1] == index;
        var j := 0;
        while j < |depMatrix[index]|
          invariant 0 <= j <= |depMatrix[index]|
          invariant SearchState(depMatrix, n, visited[..], here, finished')
          invariant Postorder(depMatrix, n, finished')
          invariant forall v :: 0 <= v < n ==> (recStack[v] <==> v in here)
          invariant forall v :: v in depMatrix[index][..j] ==> v in finished'
          invariant forall v :: v in finished ==> v in finished'
          invariant Unvisited(visited[..]) < Unvisited(old(visited[..]))
        {
          var next := depMatrix[index][j];
          assert Edge(depMatrix, index, next);
          var found := false;
          if !visited[next] {
            found, finished' := CheckCyclicDependencies(next, depMatrix, visited, recStack, here, finished');
          }
          if found {
            return true, finished';
          } else if recStack[next] {
            BackEdgeClosesCycle(depMatrix, n, here, next);
            return true, finished';
          }
          j := j + 1;
        }
        LeaveVertex(depMatrix, n, visited[..], path, finished', index);
        finished' := finished' + [index];
      }
      recStack[index] := false;
      return false, finished';
    }

    /** True exactly when some task depends on itself, directly or indirectly. */
    method HasCyclicDependencies(depMatrix: Matrix) returns (cyclic: bool)
      requires tasks == [] || depMatrix == [] || InRange(depMatrix, |tasks|)
      ensures cyclic == (tasks != [] && depMatrix != [] && Cyclic(depMatrix, |tasks|))
    {
      if tasks == [] {
        return false;
      }
      if depMatrix == [] {
        return false;
      }
      var visited := new bool[|tasks|](_ => false);
      var recStack := new bool[|tasks|](_ => false);
      ghost var finished: seq<nat> := [];
      var i := 0;
      while i < |tasks|
        invariant 0 <= i <= |tasks|
        invariant SearchState(depMatrix, |tasks|, visited[..], [], finished)
        invariant Postorder(depMatrix, |tasks|, finished)
        invariant forall v :: 0 <= v < |tasks| ==> !recStack[v]
        invariant forall v :: 0 <= v < i ==> v in finished
      {
        var found;
        found, finished := CheckCyclicDependencies(i, depMatrix, visited, recStack, [], finished);
        if found {
          return true;
        }
        i := i + 1;
      }
      PostorderExcludesCycles(depMatrix, |tasks|, finished);
      return false;
    }

    // ----- topological sorting -----

    /** Visits the prerequisites of a task before pushing the task itself. */
    method Sorter(index: nat, visited: array<bool>, stack: seq<nat>, ghost path: seq<nat>)
      returns (stack': seq<nat>)
      requires SearchState(dependencyMatrix, visited.Length, visited[..], path, stack)
      requires !Cyclic(dependencyMatrix, visited.Length) ==> Postorder(dependencyMatrix, visited.Length, stack)
      requires index < visited.Length && !visited[index]
      requires path == [] || Edge(dependencyMatrix, path[|path| - 1], index)
      modifies visited
      ensures SearchState(dependencyMatrix, visited.Length, visited[..], path, stack')
      ensures !Cyclic(dependencyMatrix, visited.Length) ==> Postorder(dependencyMatrix, visited.Length, stack')
      ensures index in stack' && forall v :: v in stack ==> v in stack'
      ensures Grown(dependencyMatrix, visited.Length, index,
                LeadsOn(dependencyMatrix, index, dependencyMatrix[index], old(visited[..])), stack, stack')
      ensures Unvisited(visited[..]) <= Unvisited(old(visited[..]))
      decreases Unvisited(visited[..])
    {
      hide Cyclic, Postorder, IsPath, Distinct, Unvisited;
      ghost var n := visited.Length;
      EnterVertex(dependencyMatrix, n, visited[..], path, stack, index);
      ghost var before := visited[..];
      visited[index] := true;
      assert visited[..] == before[index := true];
      ghost var here := path + [index];
      assert here[|here| - 1] == index;
      stack' := stack;
      var j := 0;
      while j < |dependencyMatrix[index]|
        invariant 0 <= j <= |dependencyMatrix[index]|
        invariant SearchState(dependencyMatrix, n, visited[..], here, stack')
        invariant !Cyclic(dependencyMatrix, n) ==> Postorder(dependencyMatrix, n, stack')
        invariant forall v :: v in stack ==> v in stack'
        invariant !Cyclic(dependencyMatrix, n) ==> forall v :: v in dependencyMatrix[index][..j] ==> v in stack'
        invariant stack <= stack'
        invariant if LeadsOn(dependencyMatrix, index, dependencyMatrix[index][..j], before)
                  then |stack| < |stack'| && Wanted(dependencyMatrix, n, stack'[|stack|])
                  else stack' == stack && visited[..] == before[index := true]
        invariant Unvisited(visited[..]) < Unvisited(old(visited[..]))
      {
        var next := dependencyMatrix[index][j];
        assert Edge(dependencyMatrix, index, next);
        if !visited[next] {
          stack' := Sorter(next, visited, stack', here);
        } else if next in here {
          BackEdgeClosesCycle(dependencyMatrix, n, here, next);
        }
        j := j + 1;
      }
      LeaveVertex(dependencyMatrix, n, visited[..], path, stack', index);
      stack' := stack' + [index];
    }

    /** The matrix set by `SetTaskDependency` still describes the tasks. */
    predicate MatrixCurrent()
      reads this
    {
      dependencyMatrix == [] || InRange(dependencyMatrix, |tasks|)
    }

    /** The part of `FindSortingIndexes` that searches from every task in turn. */
    method VisitAll() returns (stack: seq<nat>)
      requires InRange(dependencyMatrix, |tasks|)
      ensures Distinct(stack) && (forall k :: 0 <= k < |stack| ==> stack[k] < |tasks|)
      ensures forall v :: 0 <= v < |tasks| ==> v in stack
      ensures !Cyclic(dependencyMatrix, |tasks|) ==>
        Postorder(dependencyMatrix, |tasks|, stack) && VisitsInTurn(dependencyMatrix, |tasks|, stack)
    {
      hide Cyclic, InTurn, Postorder;
      stack := [];
      TurnsBegin(dependencyMatrix, |tasks|);
      var visited := new bool[|tasks|](_ => false);
      var i := 0;
      while i < |tasks|
        invariant 0 <= i <= |tasks|
        invariant SearchState(dependencyMatrix, |tasks|, visited[..], [], stack)
        invariant !Cyclic(dependencyMatrix, |tasks|) ==> Postorder(dependencyMatrix, |tasks|, stack)
        invariant forall v :: 0 <= v < i ==> v in stack
        invariant !Cyclic(dependencyMatrix, |tasks|) ==> InTurn(dependencyMatrix, |tasks|, i, stack)
      {
        ghost var before, was := visited[..], stack;
        if !visited[i] {
          stack := Sorter(i, visited, stack, []);
        }
        if !Cyclic(dependencyMatrix, |tasks|) {
          NoSelfLoop(dependencyMatrix, |tasks|, i);
          NextInTurn(dependencyMatrix, |tasks|, i, before, was, stack);
        }
        i := i + 1;
      }
      TurnsDone(dependencyMatrix, |tasks|, stack);
    }

    /** A permutation of the task indexes; prerequisites come first exactly when that is possible. */
    method FindSortingIndexes() returns (rc: int, orderIndex: seq<nat>)
      requires MatrixCurrent()
      ensures rc == 0
      ensures IsPermutation(orderIndex, |tasks|)
      ensures dependencyMatrix == [] ==> orderIndex == seq(|tasks|, i => i)
      ensures dependencyMatrix != [] ==>
        (Postorder(dependencyMatrix, |tasks|, orderIndex) <==> !Cyclic(dependencyMatrix, |tasks|))
      ensures dependencyMatrix != [] && !Cyclic(dependencyMatrix, |tasks|) ==>
        && VisitsInTurn(dependencyMatrix, |tasks|, orderIndex)
        && (KeepsPrerequisites(dependencyMatrix, |tasks|, orderIndex) <==> Downward(dependencyMatrix, |tasks|))
    {
      orderIndex := seq(|tasks|, i => i);
      if tasks == [] || dependencyMatrix == [] {
        forall v | 0 <= v < |tasks|
          ensures v in orderIndex
        {
          assert orderIndex[v] == v;
        }
        if tasks == [] && dependencyMatrix != [] {
          PostorderExcludesCycles(dependencyMatrix, 0, []);
        }
        return 0, orderIndex;
      }
      var stack := VisitAll();
      CoveringIsPermutation(stack, |tasks|);
      ghost var pushed := stack;
      var counter := |orderIndex| - 1;
      while stack != []
        invariant counter == |stack| - 1 < |orderIndex| == |pushed|
        invariant stack == pushed[..|stack|] && orderIndex[|stack|..] == pushed[|stack|..]
      {
        orderIndex := orderIndex[counter := stack[|stack| - 1]];
        counter := counter - 1;
        stack := stack[..|stack| - 1];
      }
      assert orderIndex == pushed;
      if !Cyclic(dependencyMatrix, |tasks|) {
        KeepsPrerequisitesIffDownward(dependencyMatrix, |tasks|, orderIndex);
      }
      if Postorder(dependencyMatrix, |tasks|, orderIndex) {
        PostorderExcludesCycles(dependencyMatrix, |tasks|, orderIndex);
      }
      return 0, orderIndex;
    }

    /** Reorders the tasks; the sequence indexes recorded in them and the matrix stay as they are. */
    method Sort() returns (rc: int, ghost order: seq<nat>)
      requires MatrixCurrent()
      modifies this`tasks
      ensures rc == 0
      ensures IsPermutation(order, |old(tasks)|)
      ensures tasks == Permuted(old(tasks), order)
      ensures multiset(tasks) == multiset(old(tasks))
      ensures dependencyMatrix == [] ==> tasks == old(tasks)
      ensures dependencyMatrix != [] ==>
        (Postorder(dependencyMatrix, |tasks|, order) <==> !Cyclic(dependencyMatrix, |tasks|))
      ensures dependencyMatrix != [] && !Cyclic(dependencyMatrix, |tasks|) ==>
        && VisitsInTurn(dependencyMatrix, |tasks|, order)
        && (Downward(dependencyMatrix, |tasks|) ==> tasks == old(tasks))
        && (Distinct(old(tasks)) ==>
             (IndexesStillMeanTheSame(old(tasks), tasks, dependencyMatrix) <==> Downward(dependencyMatrix, |tasks|)))
    {
      var orderIndex;
      rc, orderIndex := FindSortingIndexes();
      var ordered: seq<Task> := [];
      for i := 0 to |orderIndex|
        invariant |ordered| == i
        invariant forall k :: 0 <= k < i ==> ordered[k] == tasks[orderIndex[k]]
      {
        ordered := ordered + [tasks[orderIndex[i]]];
      }
      order := orderIndex;
      PermutedMultiset(tasks, order);
      assert ordered == Permuted(tasks, order);
      if dependencyMatrix != [] && !Cyclic(dependencyMatrix, |tasks|) {
        KeepsPrerequisitesIffDownward(dependencyMatrix, |tasks|, order);
        assert Downward(dependencyMatrix, |tasks|) ==> ordered == tasks;
        if Distinct(tasks) {
          SortKeepsDependenciesIff(tasks, order, dependencyMatrix);
        }
      }
      tasks := ordered;
    }

    // ----- scheduling -----

    ghost function Views(): (r: seq<TaskView>)
      reads this, tasks
      ensures |r| == |tasks| && forall i :: 0 <= i < |tasks| ==> r[i] == tasks[i].View()
    {
      seq(|tasks|, i requires 0 <= i < |tasks| reads this, tasks => tasks[i].View())
    }

    predicate ValidRow(row: seq<nat>, i: nat, n: nat) {
      forall d :: d in row ==> d != i && d < n
    }

    lemma AcyclicRowsAreValid(depIndexes: Matrix, n: nat)
      requires InRange(depIndexes, n) && !Cyclic(depIndexes, n)
      ensures forall i :: 0 <= i < n ==> ValidRow(depIndexes[i], i, n)
    {
      forall i | 0 <= i < n
        ensures i !in depIndexes[i]
      {
        NoSelfLoop(depIndexes, n, i);
      }
    }

    /** Copies one row into a task; stops at an entry that names no other task. */
    method RecordRow(task: Task, index: nat, row: seq<nat>) returns (rc: int)
      modifies task`depIndexes
      ensures rc == if ValidRow(row, index, |tasks|) then 0 else -1
      ensures rc == 0 ==> task.depIndexes == row
    {
      task.depIndexes := [];
      for j := 0 to |row|
        invariant forall m :: 0 <= m < j ==> row[m] != index && row[m] < |tasks|
        invariant task.depIndexes == row[..j]
      {
        var d := row[j];
        if d == index || d >= |tasks| {
          assert d in row;
          return -1;
        }
        task.depIndexes := task.depIndexes + [d];
      }
      return 0;
    }

    /** The task at `k` occurs at no later place before `end`. */
    ghost predicate LastPlace(k: nat, end: nat)
      reads this
      requires k < end <= |tasks|
    {
      forall m :: k < m < end ==> tasks[m] != tasks[k]
    }

    /** One of the first `n` rows that belong to a task is not empty. */
    ghost predicate SomeRow(task: Task, rows: Matrix, n: nat)
      reads this
      requires n <= |rows| && n <= |tasks|
    {
      exists m :: 0 <= m < n && tasks[m] == task && rows[m] != []
    }

    /** After `n` rows: every task that was marked, or has a row among them that is not empty, is marked. */
    ghost predicate Marking(marks: seq<bool>, rows: Matrix, n: nat)
      reads this, tasks`dependent
      requires n <= |rows| && n <= |tasks|
    {
      && |marks| == |tasks|
      && forall k :: 0 <= k < |tasks| ==> tasks[k].dependent == (marks[k] || SomeRow(tasks[k], rows, n))
    }

    /** After `n` rows: every task holds the last of its rows among them. */
    ghost predicate Copied(rows: Matrix, n: nat)
      reads this, tasks`depIndexes
      requires n <= |rows| && n <= |tasks|
    {
      && (forall k :: 0 <= k < n && LastPlace(k, n) ==> tasks[k].depIndexes == rows[k])
      && (forall k :: 0 <= k < n ==> ValidDependencies(tasks[k]))
    }

    ghost function Marks(): (r: seq<bool>)
      reads this, tasks
      ensures |r| == |tasks| && forall k :: 0 <= k < |tasks| ==> r[k] == tasks[k].dependent
    {
      seq(|tasks|, k requires 0 <= k < |tasks| reads this, tasks => tasks[k].dependent)
    }

    lemma NextRow(rows: Matrix, i: nat)
      requires i < |tasks| == |rows|
      ensures forall k :: 0 <= k < |tasks| ==>
        (SomeRow(tasks[k], rows, i + 1) <==> SomeRow(tasks[k], rows, i) || (tasks[k] == tasks[i] && rows[i] != []))
    {
      forall k | 0 <= k < |tasks| && SomeRow(tasks[k], rows, i)
        ensures SomeRow(tasks[k], rows, i + 1)
      {
        var m :| 0 <= m < i && tasks[m] == tasks[k] && rows[m] != [];
      }
    }

    method MarkNext(index: nat, rows: Matrix, ghost marks: seq<bool>)
      requires index < |tasks| == |rows| && Marking(marks, rows, index)
      modifies tasks`dependent
      ensures Marking(marks, rows, index + 1)
    {
      NextRow(rows, index);
      hide SomeRow;
      if |rows[index]| > 0 {
        tasks[index].dependent := true;
      }
    }

    method CopyNext(index: nat, rows: Matrix) returns (rc: int)
      requires index < |tasks| == |rows| && Copied(rows, index)
      modifies tasks`depIndexes
      ensures rc == if ValidRow(rows[index], index, |tasks|) then 0 else -1
      ensures rc == 0 ==> Copied(rows, index + 1)
    {
      rc := RecordRow(tasks[index], index, rows[index]);
      if rc == 0 {
        forall k | 0 <= k < index + 1 && LastPlace(k, index + 1)
          ensures tasks[k].depIndexes == rows[k]
        {
          assert k < index ==> tasks[index] != tasks[k] && LastPlace(k, index);
        }
      }
    }

    /**
     Copies the rows into the tasks; stops at an entry that names no other task. A task that
     was added more than once keeps the row of its last place and is marked by any of its rows.
     */
    method RecordDependencies(depIndexes: Matrix) returns (rc: int)
      requires |depIndexes| == |tasks|
      modifies tasks`dependent, tasks`depIndexes
      ensures rc == 0 <==>
        forall i :: 0 <= i < |tasks| ==> ValidRow(depIndexes[i], i, |tasks|)
      ensures rc == 0 || rc == -1
      ensures rc == 0 ==> Marking(old(Marks()), depIndexes, |tasks|) && Copied(depIndexes, |tasks|)
    {
      hide ValidRow, LastPlace, SomeRow;
      ghost var marks := Marks();
      StartOfRows(depIndexes);
      hide Marks, Marking, Copied, ValidDependencies;
      var i := 0;
      while i < |depIndexes|
        invariant 0 <= i <= |tasks|
        invariant forall k :: 0 <= k < i ==> ValidRow(depIndexes[k], k, |tasks|)
        invariant Marking(marks, depIndexes, i) && Copied(depIndexes, i)
      {
        MarkNext(i, depIndexes, marks);
        var ok := CopyNext(i, depIndexes);
        if ok != 0 {
          return -1;
        }
        i := i + 1;
      }
      return 0;
    }

    lemma StartOfRows(rows: Matrix)
      ensures Marking(Marks(), rows, 0) && Copied(rows, 0)
    {
    }

    predicate ValidDependencies(task: Task)
      reads this, task`depIndexes
    {
      forall d :: d in task.depIndexes ==> 0 <= d < |tasks|
    }

    /** The latest end among the prerequisites of a task, and not before the epoch. */
    method LatestPrerequisiteEnd(task: Task) returns (latest: int)
      requires forall d :: d in task.depIndexes ==> 0 <= d < |tasks|
      ensures latest >= 0 && forall d :: d in task.depIndexes ==> RecordedEnd(tasks[d].View()) <= latest
      ensures latest == 0 || exists d :: d in task.depIndexes && RecordedEnd(tasks[d].View()) == latest
    {
      latest := 0;
      var deps := task.depIndexes;
      assert forall m :: 0 <= m < |deps| ==> deps[m] in deps;
      for j := 0 to |deps|
        invariant forall m :: 0 <= m < |deps| ==> 0 <= deps[m] < |tasks|
        invariant latest >= 0 && forall m :: 0 <= m < j ==> RecordedEnd(tasks[deps[m]].View()) <= latest
        invariant latest == 0 || exists m :: 0 <= m < j && RecordedEnd(tasks[deps[m]].View()) == latest
      {
        var d := deps[j];
        var end := tasks[d].expiration;
        if tasks[d].dependent {
          end := tasks[d].expMaxExpiration;
        }
        assert end == RecordedEnd(tasks[d].View());
        if end > latest {
          latest := end;
        }
      }
    }

    /** Sets the worst-case times of a dependent task from those of its prerequisites. */
    method ScheduleTask(task: Task, now: int) returns (ghost start: int)
      requires forall d :: d in task.depIndexes ==> 0 <= d < |tasks|
      modifies task`expMaxActivation, task`expMaxExpiration,
               task`expiration, task`expirationTimeout, task`hasExpiration
      ensures !task.dependent ==> task.View() == old(task.View())
      ensures task.dependent ==> StartsWhenPossible(old(Views()), old(task.View()), task.expMaxActivation)
      ensures task.dependent ==>
        && FollowsRecordedEnds(old(Views()), old(task.View()), start)
        && task.expMaxActivation == start
        && task.expMaxExpiration == start + WholeSeconds(task.maxDuration)
        && task.GetTimes() == AfterExpirationSet(old(task.GetTimes()), task.expMaxExpiration, now)
    {
      if !task.dependent {
        return 0;
      }
      var latest := LatestPrerequisiteEnd(task);
      start := latest;
      if task.hasActivation && latest < task.activation {
        start := task.activation;
        task.expMaxActivation := task.activation;
      } else {
        task.expMaxActivation := latest;
      }
      assert FollowsRecordedEnds(old(Views()), old(task.View()), start);
      RecordedEndsInFields(old(Views()), old(task.View()), start);
      hide FollowsRecordedEnds, StartsWhenPossible;
      task.expMaxExpiration := task.expMaxActivation;
      task.expMaxExpiration := task.expMaxExpiration + WholeSeconds(task.maxDuration);
      var _ := task.SetExpirationTime(task.expMaxExpiration, now);
    }

    method ScheduleAt(index: nat, now: int) returns (ghost start: int)
      requires index < |tasks| && ValidDependencies(tasks[index])
      modifies tasks`expMaxActivation, tasks`expMaxExpiration,
               tasks`expiration, tasks`expirationTimeout, tasks`hasExpiration
      ensures !tasks[index].dependent ==> Views() == old(Views())
      ensures Distinct(tasks) && tasks[index].dependent ==>
        && FollowsRecordedEnds(old(Views()), old(Views())[index], start)
        && Views() == old(Views())[index := Rescheduled(old(Views())[index], start, now)]
    {
      hide StartsWhenPossible, FollowsRecordedEnds, AfterExpirationSet;
      start := ScheduleTask(tasks[index], now);
    }

    method ScheduleNext(index: nat, now: int, ghost views: seq<TaskView>, ghost starts: seq<int>, ghost done: set<nat>)
      returns (ghost starts': seq<int>)
      requires index < |tasks| && ValidDependencies(tasks[index])
      requires Distinct(tasks) ==>
        && Halfway(views, Views(), dependencyMatrix, starts, now, done)
        && index !in done && forall d :: d in dependencyMatrix[index] ==> d in done
      modifies tasks`expMaxActivation, tasks`expMaxExpiration,
               tasks`expiration, tasks`expirationTimeout, tasks`hasExpiration
      ensures Distinct(tasks) ==> Halfway(views, Views(), dependencyMatrix, starts', now, done + {index})
    {
      ghost var current := Views();
      ghost var start := ScheduleAt(index, now);
      starts' := starts;
      if Distinct(tasks) {
        assert current[index] == Recorded(views[index], dependencyMatrix[index]);
        starts' := starts[index := start];
        HalfwayStep(views, current, dependencyMatrix, starts, now, done, index, start);
      }
    }

    /** One pass over the tasks, prerequisites first. */
    method ScheduleAll(order: seq<nat>, now: int, ghost views: seq<TaskView>)
      returns (ghost starts: seq<int>, ghost done: set<nat>)
      requires forall i :: 0 <= i < |tasks| ==> ValidDependencies(tasks[i])
      requires Distinct(tasks) ==> Halfway(views, Views(), dependencyMatrix, NoStarts(|tasks|), now, {})
      requires |dependencyMatrix| >= |tasks|
      requires IsPermutation(order, |tasks|) && Postorder(dependencyMatrix, |tasks|, order)
      modifies tasks`expMaxActivation, tasks`expMaxExpiration,
               tasks`expiration, tasks`expirationTimeout, tasks`hasExpiration
      ensures Distinct(tasks) ==> Halfway(views, Views(), dependencyMatrix, starts, now, done)
      ensures forall i :: 0 <= i < |tasks| ==> i in done
    {
      hide Halfway;
      starts, done := NoStarts(|tasks|), {};
      var k := 0;
      while k < |order|
        invariant 0 <= k <= |order|
        invariant forall i :: 0 <= i < |tasks| ==> ValidDependencies(tasks[i])
        invariant Distinct(tasks) ==> Halfway(views, Views(), dependencyMatrix, starts, now, done)
        invariant Covers(done, order, k)
      {
        NextEntry(dependencyMatrix, |tasks|, order, done, k);
        starts := ScheduleNext(order[k], now, views, starts, done);
        done := done + {order[k]};
        k := k + 1;
      }
      AllCovered(order, |tasks|, done);
    }

    /** Whatever the acyclic matrix, the recorded starts are its longest chains. */
    ghost predicate ScheduledAs(views: seq<TaskView>, starts: seq<int>, now: int)
      reads this, tasks
    {
      && |views| == |tasks|
      && Solves(views, dependencyMatrix, starts)
      && (forall i :: 0 <= i < |tasks| ==>
           tasks[i].View() == Scheduled(views[i], dependencyMatrix[i], starts[i], now))
      && (forall i :: 0 <= i < |tasks| && Marked(views, dependencyMatrix, i) ==>
           IsLongestChain(views, dependencyMatrix, i, starts[i]))
      && CriticalTimes(views, Views(), dependencyMatrix, now)
    }

    method RecordAcyclic(depIndexes: Matrix, ghost now: int)
      requires |depIndexes| == |tasks|
      requires InRange(depIndexes, |tasks|) && !Cyclic(depIndexes, |tasks|)
      modifies tasks`dependent, tasks`depIndexes
      ensures forall i :: 0 <= i < |tasks| ==> ValidDependencies(tasks[i])
      ensures Distinct(tasks) ==> Halfway(old(Views()), Views(), depIndexes, NoStarts(|tasks|), now, {})
    {
      hide Cyclic, ValidRow, Halfway, InRange;
      AcyclicRowsAreValid(depIndexes, |tasks|);
      ghost var views := Views();
      var rc := RecordDependencies(depIndexes);
      if Distinct(tasks) {
        OwnRows(depIndexes);
        RecordedIsHalfway(views, Views(), depIndexes, now);
      }
    }

    /** Without duplicates every row is the last one of its task, and the only one. */
    lemma OwnRows(rows: Matrix)
      requires Distinct(tasks) && |rows| == |tasks|
      ensures forall i :: 0 <= i < |tasks| ==>
        LastPlace(i, |tasks|) && (SomeRow(tasks[i], rows, |tasks|) <==> rows[i] != [])
    {
    }

    /** The pass over tasks whose dependencies have been recorded, in a topological order. */
    method ScheduleRecorded(now: int, ghost views: seq<TaskView>) returns (ghost starts: seq<int>)
      requires |dependencyMatrix| == |tasks| && tasks != []
      requires InRange(dependencyMatrix, |tasks|) && !Cyclic(dependencyMatrix, |tasks|)
      requires forall i :: 0 <= i < |tasks| ==> ValidDependencies(tasks[i])
      requires Distinct(tasks) ==> Halfway(views, Views(), dependencyMatrix, NoStarts(|tasks|), now, {})
      modifies tasks`expMaxActivation, tasks`expMaxExpiration,
               tasks`expiration, tasks`expirationTimeout, tasks`hasExpiration
      ensures Distinct(tasks) ==> ScheduledAs(views, starts, now)
    {
      hide Cyclic, VisitsInTurn, KeepsPrerequisites, Downward, Postorder, ValidDependencies, Halfway, ScheduledAs;
      ghost var recorded := Views();
      var rc, order := FindSortingIndexes();
      assert Views() == recorded;
      ghost var done;
      starts, done := ScheduleAll(order, now, views);
      if Distinct(tasks) {
        PassDone(views, starts, now, done, order);
      }
    }

    lemma PassDone(views: seq<TaskView>, starts: seq<int>, now: int, done: set<nat>, order: seq<nat>)
      requires Halfway(views, Views(), dependencyMatrix, starts, now, done)
      requires forall i :: 0 <= i < |tasks| ==> i in done
      requires IsPermutation(order, |tasks|) && Postorder(dependencyMatrix, |tasks|, order)
      ensures ScheduledAs(views, starts, now)
    {
      HalfwayDone(views, Views(), dependencyMatrix, starts, now, done);
      SolutionInFields(views, Views(), dependencyMatrix, starts, now);
      SolutionIsLongestChain(views, dependencyMatrix, starts, order);
    }

    method ScheduleAcyclic(depIndexes: Matrix, now: int) returns (ghost starts: seq<int>)
      requires tasks != [] && |depIndexes| == |tasks|
      requires InRange(depIndexes, |tasks|) && !Cyclic(depIndexes, |tasks|)
      modifies this`dependencyMatrix, tasks`dependent, tasks`depIndexes, tasks`expMaxActivation,
               tasks`expMaxExpiration, tasks`expiration, tasks`expirationTimeout, tasks`hasExpiration
      ensures dependencyMatrix == depIndexes
      ensures Distinct(tasks) ==> ScheduledAs(old(Views()), starts, now)
    {
      hide Cyclic, Halfway, ScheduledAs, Distinct, InRange, ValidDependencies;
      ghost var views := Views();
      dependencyMatrix := depIndexes;
      assert Views() == views;
      RecordAcyclic(depIndexes, now);
      starts := ScheduleRecorded(now, views);
    }

    /**
     Annotates the tasks with their dependencies and worst-case times. It fails, changing
     nothing, for an empty, misshapen or cyclic matrix. The entries must name tasks: the
     cycle check indexes with them before they are examined. A task that was added twice makes
     the call succeed or fail like any other; only for different tasks do the times solve the
     equations.
     */
    method SetTaskDependency(depIndexes: Matrix, now: int) returns (rc: int, ghost starts: seq<int>)
      requires depIndexes != [] && |depIndexes| == |tasks| ==> InRange(depIndexes, |tasks|)
      modifies this`dependencyMatrix, tasks`dependent, tasks`depIndexes, tasks`expMaxActivation,
               tasks`expMaxExpiration, tasks`expiration, tasks`expirationTimeout, tasks`hasExpiration
      ensures rc == (if depIndexes == [] || |depIndexes| != |tasks| || Cyclic(depIndexes, |tasks|) then -1 else 0)
      ensures rc != 0 ==> dependencyMatrix == old(dependencyMatrix) && Views() == old(Views())
      ensures rc == 0 ==> dependencyMatrix == depIndexes
      ensures rc == 0 && Distinct(tasks) ==> ScheduledAs(old(Views()), starts, now)
      ensures rc == 0 && Distinct(tasks) ==> CriticalTimes(old(Views()), Views(), depIndexes, now)
    {
      starts := [];
      if depIndexes == [] || |depIndexes| != |tasks| {
        return -1, starts;
      }
      var cyclic := HasCyclicDependencies(depIndexes);
      if cyclic {
        return -1, starts;
      }
      starts := ScheduleAcyclic(depIndexes, now);
      return 0, starts;
    }
  }
}

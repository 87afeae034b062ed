# A verified model of the task scheduler and its neighbours

The library lets a device run commands later, in sequences whose tasks depend on one another, and
keeps formulas, alarms and proxies of other devices up to date. This project models the parts where
the outcome of one operation depends on what others did before, and proves what the parts are for.
Run `dafny verify dfyconfig.toml` to check all of it.

**Sequences.** `TaskSequences` is the class that checks a dependency matrix for cycles by depth-first
search, sorts it, and computes worst-case start and end times in one pass. `Graph` holds the theory of
searches and orders, `CriticalPath` the equations whose solution the pass records and the proof that it
is the longest dependency chain, `SequenceStatus` the combined status of a sequence, `Tasks` the times
of a single task.

**The queue order.** `TaskOrder` is the comparator of the queue. It is only an order because of what
the scheduling pass establishes; `Scheduling` proves that it does, and `ScheduledWorldIsLawful` turns
this into the one hypothesis (`Lawful`) of the theorems about the manager.

**The manager.** `Scheduler` describes every locked operation of the task manager as one step of a
machine over values. `TaskManagers` is the object itself, with its fields changed in place; each of its
methods is proved to be the step. `QueueInvariants`, `StatusInvariants` and `PopProperties` prove what
single steps keep and do, `StepMeanings` what each step does in the fields of tasks and sequences, without
the functions that define it, `SchedulerRuns` what holds over all runs; `QueueExamples` reaches two
surprising queues, and an ordinary pop of a dependent task, by runs. No method of the manager changes
anything in a task but its status, so the order of the queue cannot change under it.

**The others.** `FormulaIndex` is the index from events to formulas; `AlarmFormulas` the expansion of
alarm formulas; `TangoNames` and `AttributeNames` the parsers of names; `GroupReplies` the collector of
asynchronous replies; `ProxyHealth` the online, soft-offline and hard-offline states and the ping
window.

Where the code does something else than its names or comments say, the model follows the code:

- Dependencies across durations under one second: durations are divided by 1000 as integers, a
  prerequisite may end when it starts, and the comparator can run in a circle
  (`SubSecondDurationsBreakTheOrder`). Tasks that last a whole second are safe
  (`ScheduledTasksFollowKey`); `OrderIsLawfulIff` is the exact condition on a whole matrix.
- `TaskSequence::Sort` does not renumber the indexes recorded in the tasks; they survive exactly when
  there was nothing to sort (`SortKeepsDependenciesIff`, `SortMakesTaskWaitForItself`).
- A setter that moves the activation into the past leaves the old activation timeout running, and the
  queue then waits for the wrong task (`StaleTimeoutDelaysOthers`); the contracts of the setters say
  exactly when timeout and activation agree.
- `Task::SetActivationTimeDelay` compares two readings of the clock, so a delay that is no whole second
  can be refused, after the activation was changed.
- A task that is completed while it is queued can be marked as expired by the scan, which then passes
  over its dependent tasks (`CompletedInQueueBlocksItsFollower`); `PopTakesLeastRunnable` and
  `LeastRunnableIsTakenIff` say exactly when.
- The mark that a task depends on others is never reset; the scheduling theorems say what this does
  when a matrix is set again (`Marked`).
- `TaskManager::ClearCompletedSequenceTasks` keeps completed sequences (`ClearCompletedForgetsTheOthers`).
- `AlarmData::ExpandFormula` hands back the formula before the expansion, fails without symbols, and
  fails when it is called again (`SecondExpansionFails`). With a symbol whose name is a prefix of
  another it never succeeds (`SuccessLawIffPrefixFree`).
- Of several variables of one formula that are fed by the same attribute, only the first gets the value
  (`SetTwoVariables`, `AllFedVariablesAreSetIff`).
- The two parsers of attribute names agree only on names with the full number of slashes
  (`ParsersAgreeIff`).

Time is an integer number of milliseconds. A method that consults the clock takes the time as a
parameter, one reading for each call but `SetActivationTimeDelay`. Attribute existence, outcomes of registrations, replies of
proxies, ping times and whether a command raised an exception are parameters too. A `std::set` is a
sequence kept in order by insertion; strings are sequences of characters.

## Model

| member | source | states |
|---|---|---|
| TaskSequences.TaskSequence.HasCyclicDependencies | src/utils/Task.cc:1385-1413 | For every in-range matrix of any size the answer is true exactly when there is a closed walk, self-loops included; no tasks or no matrix means no cycle |
| TaskSequences.TaskSequence.CheckCyclicDependencies | src/utils/Task.cc:1360-1382 | The recursive search terminates; true only when a cycle exists; otherwise the finished vertices are again in an order with every prerequisite first, the recursion stack is restored, and the visited index is finished |
| Graph.PostorderExcludesCycles | src/utils/Task.cc:1385-1413 | If all vertices can be listed with every prerequisite first, no closed walk exists: why answering false is right |
| Graph.BackEdgeClosesCycle | src/utils/Task.cc:1360-1382 | An edge from the end of the current path back to a vertex on the recursion stack closes a cycle: why answering true is right |
| Graph.SelfLoopIsCycle | src/utils/Task.cc:1360-1382 | An edge from a task to itself counts as a cycle |
| TaskSequences.TaskSequence.Sorter | src/utils/Task.cc:1270-1283 | The recursion terminates; on an acyclic matrix the stack keeps every prerequisite below its dependents; the old stack is kept below, and on it comes the task alone if all it needs was visited, else first something else that is needed |
| TaskSequences.TaskSequence.FindSortingIndexes | src/utils/Task.cc:1315-1356 | The result is a permutation of the task indexes, the identity without a matrix, lists every prerequisite before its dependents if and only if the matrix is acyclic, and then leaves all prerequisites at their positions if and only if every row names smaller indexes only |
| TaskSequences.TaskSequence.Sort | src/utils/Task.cc:1286-1312 | The tasks are permuted by such an order: none lost, none duplicated; for an acyclic matrix over different tasks the recorded indexes still find the same tasks if and only if every row names smaller indexes only, and the tasks are then unchanged |
| Graph.PermutedMultiset | src/utils/Task.cc:1286-1312 | Reading a list through a permutation of its indexes keeps its elements with their multiplicities |
| Scheduling.SortKeepsDependenciesIff | src/utils/Task.cc:1286-1312 | In the order found for an acyclic matrix, the recorded dependency indexes keep their meaning exactly when every row of the given matrix names smaller indexes only, so that there was nothing to sort |
| Graph.KeepsPrerequisitesIffDownward | src/utils/Task.cc:1315-1356 | A search from each task in turn leaves every prerequisite at its position exactly when every row names smaller indexes only; the order is then the identity |
| Graph.NextInTurn | src/utils/Task.cc:1328-1335 | Searching from the next task keeps what is known of the order so far: tasks in turn as long as rows name smaller indexes, and something else in the place of the first task whose row does not |
| Scheduling.SortMakesTaskWaitForItself | src/utils/Task.cc:1286-1312 | Two tasks for which the order that the sort finds makes the dependent one its own recorded prerequisite |
| TaskSequences.TaskSequence.SetTaskDependency | src/utils/Task.cc:1180-1267 | Fails, changing nothing, exactly for an empty, misshapen or cyclic matrix; otherwise, if no task was added twice, each dependent task's worst-case start, in the fields it leaves, is the latest of the epoch, the activation and the recorded ends of the prerequisites, its end comes the whole seconds of its duration later, the start is the largest over all dependency chains, and only these times, expiration, marks and indexes change |
| TaskSequences.TaskSequence.RecordDependencies | src/utils/Task.cc:1195-1219 | Succeeds exactly when every entry names another task; a task then holds the row of its last place and is marked if it was before or if any of its rows is not empty; a mark is never reset |
| TaskSequences.TaskSequence.ScheduleTask | src/utils/Task.cc:1229-1263 | A dependent task starts no earlier than the epoch, its activation, and the end recorded in any prerequisite, and at one of these; it expires its duration later; an independent task is untouched |
| CriticalPath.SolutionInFields | src/utils/Task.cc:1229-1263 | Solutions of the equations are, in the fields of the tasks, the latest of epoch, activation and ends of prerequisites |
| CriticalPath.ActivationDecides | src/utils/Task.cc:1229-1263 | A dependent task activated no earlier than the epoch and every prerequisite's end starts exactly at its activation |
| QueueExamples.MakeLateSequence | src/utils/Task.cc:1180-1267 | A task activated at second 60 behind a prerequisite that ends at second 30 starts at 60 and ends at 90 |
| TaskSequences.TaskSequence.AcyclicRowsAreValid | src/utils/Task.cc:1195-1219 | The row checks after the cycle check cannot fail |
| CriticalPath.HalfwayStep | src/utils/Task.cc:1229-1263 | Scheduling a task whose prerequisites are finished keeps the finished tasks at their final values |
| CriticalPath.ChainIsLowerBound | src/utils/Task.cc:1229-1263 | No dependency chain takes longer than the recorded start |
| CriticalPath.SomeChainAttains | src/utils/Task.cc:1229-1263 | Some dependency chain takes exactly as long as the recorded start |
| CriticalPath.SolutionIsLongestChain | src/utils/Task.cc:1229-1263 | Any solution of the equations, whatever topological order produced it, gives the longest chain of every dependent task |
| TaskSequences.TaskSequence.AddTask | src/utils/Task.cc:941-957 | Refuses a missing task and a sequence without name or id; otherwise appends the task and records sequence and index in it, changing nothing else |
| TaskSequences.TaskSequence.ComputeStatus | src/utils/Task.cc:1018-1142 | The status is a function of the set of the statuses of the tasks |
| TaskSequences.TaskSequence.GatherFlags | src/utils/Task.cc:1018-1090 | Each flag says what it is named for: some task, or all tasks, have the status |
| SequenceStatus.CombinedByFlags | src/utils/Task.cc:1092-1142 | The order in which the rules override one another, as one case distinction over which statuses occur |
| SequenceStatus.NeverUnknownPastInit | src/utils/Task.cc:1018-1142 | Tasks that are all past INIT and not UNKNOWN never give UNKNOWN |
| SequenceStatus.ForwardRunComposes | src/utils/Task.cc:1018-1142 | Along a run of forward moves every task has only moved forward between any two moments |
| SequenceStatus.LeavingIsFinal | src/utils/Task.cc:1018-1142 | Along every run of forward moves a status that has left IDLE and RUNNING never returns there |
| Tasks.Task.constructor | src/utils/Task.cc:67-85 | A new task is INIT, in no sequence, without activation, and expires thirty seconds after its creation |
| Tasks.Task.SetActivationTime | src/utils/Task.cc:97-119 | Refuses the past; the default duration, not the configured one, sets the expiration; the timeout agrees with the activation afterwards exactly if that lies in the future, or no other timeout was running |
| Tasks.Task.SetActivationTimeDelay | src/utils/Task.cc:122-133 | The clock is read twice: the start is set from the first reading and judged by the second; a delay that is no whole second is refused if the clock moved on, and leaves the activation overwritten |
| Tasks.Task.SetExpirationTime | src/utils/Task.cc:136-158 | Refuses the past and anything not after the activation; otherwise only the expiration changes |
| Tasks.Task.SetMaxDuration | src/utils/Task.cc:161-186 | Counts whole seconds from the activation or the reference; a rejected reference is noticed after the duration was stored; expiring after activation is kept for durations of a whole second |
| Tasks.Task.SetTimeDelayAndDuration | src/utils/Task.cc:189-216 | Sets activation and expiration from the reference; afterwards the task expires after its activation if and only if the duration reaches one second, and the timeout agrees with the activation if and only if that lies in the future or no other timeout was running |
| Tasks.WholeSecondsIsLargest | src/utils/Task.cc:114-114 | The part of a duration that is added is its largest whole number of seconds |
| Tasks.RunnableInFields | src/utils/Task.cc:481-541 | A task is runnable exactly if it is idle, its activation timeout has ended and its expiration timeout has not; a timeout ends at its moment |
| TaskOrder.ComparatorIsKeyIff | src/utils/Task.h:431-514 | On tasks with unique names and ids the comparator equals the lexicographic order on start, descending priority, expiration, name and id if and only if every direct dependency goes to a task with a smaller key |
| TaskOrder.ComparatorIsKeyWithoutDependency | src/utils/Task.h:431-514 | Between tasks that do not depend on each other directly the comparator is that key |
| TaskOrder.DependencyDecides | src/utils/Task.h:431-514 | A task that waits for another one of its sequence comes behind it, whatever else they hold |
| TaskOrder.EarlierStartComesFirst | src/utils/Task.h:431-514 | Otherwise a task that can start at once comes before one that cannot, and the earlier start before the later |
| TaskOrder.TiesAreBroken | src/utils/Task.h:431-514 | Between tasks that start together the larger priority comes first, then the earlier expiration, then the smaller name, then the smaller id |
| TaskOrder.StringLessIff | src/utils/Task.h:431-514 | Of two names the smaller one ends, or has the smaller character, where they first differ |
| TaskOrder.KeyIsStrictTotalOrder | src/utils/Task.h:431-514 | The key is irreflexive, transitive and connected on any tasks with unique names and ids |
| TaskOrder.ComparatorIsStrictTotalOrder | src/utils/Task.h:431-514 | The comparator is a strict total order, across sequences, whenever dependencies follow the key |
| TaskOrder.StartsAfterFollowsKey | src/utils/Task.h:431-514 | A task that starts no earlier than its prerequisites end, which last some time, agrees with the key |
| Scheduling.ScheduledTasksFollowKey | src/utils/Task.cc:1229-1263 | What the scheduling pass records makes every direct dependency follow the key, if prerequisites last a whole second or expire after their activation |
| Scheduling.LastsLongEnoughIffFirst | src/utils/Task.cc:1229-1263 | Where a prerequisite is what determines the start of a task, it comes first in the key whatever the priorities exactly if it lasts a whole second or, when independent, expires after its activation |
| Scheduling.ComesFirstIff | src/utils/Task.cc:1229-1263 | Any prerequisite comes first in the key whatever the priorities exactly if it lasts long enough or its task starts later for another reason |
| Scheduling.OrderIsLawfulIff | src/utils/Task.cc:1229-1263 | For a whole acyclic matrix, the dependencies follow the key under all priorities exactly if that holds of every prerequisite of every task |
| Scheduling.SubSecondDurationsBreakTheOrder | src/utils/Task.h:431-514 | A sequence of four tasks, one of which lasts 999 ms: after the scheduling pass the comparator runs in a circle around three of them |
| Scheduling.ScheduledKeepsInStep | src/utils/Task.cc:1229-1263 | The scheduling pass leaves a timeout that agrees with the activation in agreement, and the worst-case start no earlier than it |
| Scheduling.InStepIffWaitsInTurn | src/utils/Task.h:431-514 | An independent waiting task is put before those that wait longer, and behind those that wait less, exactly if its timeout agrees with its recorded activation |
| Scheduling.EndsByStartIff | src/utils/Task.h:431-514 | The timeout of any waiting task, dependent or not, ends by the start that orders it exactly if no task outside of its sequence that waits in step behind it waits less |
| Scheduling.EndsAfterStartIff | src/utils/Task.h:431-514 | It ends no earlier than that start exactly if no such task before it waits longer |
| Scheduling.InStepEndsByStart | src/utils/Task.h:431-514 | Agreement of timeout and activation gives both for independent tasks, and the first for dependent ones |
| Scheduling.QueueOrderIsLawful | src/utils/Task.h:352-355 | The tasks of any number of separately scheduled sequences have one strict total queue order, equal to the key |
| QueueInvariants.ScheduledWorldIsLawful | src/utils/Task.h:352-355 | Scheduling passes over different sequences, in which tasks start later than their prerequisites, unique ids and correct placement give the hypothesis of the run theorems |
| QueueInvariants.ScheduledSequenceIsPass | src/utils/Task.cc:1180-1267 | What `SetTaskDependency` leaves behind is such a pass, if prerequisites last long enough |
| TaskManagers.TaskManager.PopTask | src/utils/TaskManager.cc:359-467 | The whole object state and the returned copy are those of the pop step: purge, scan in queue order with tasks marked as expired on the way, take the first runnable |
| StepMeanings.PopSignals | src/utils/TaskManager.cc:359-376 | A pop blocks exactly with an empty queue and no signal, ends exactly on the end signal, and is empty-handed at once exactly when woken up with nothing queued; unless it blocks it takes the wake-up signal with it |
| StepMeanings.PopMeans | src/utils/TaskManager.cc:380-443 | A pop purges exactly the EXPIRED tasks, takes the one it returns, and marks exactly the expired ones: those before the task it returns, or all if there is none |
| StepMeanings.CanRunMeans | src/utils/TaskManager.cc:1021-1066 | A task can run exactly if it is idle, activated and unexpired, and, if it waits for tasks of its sequence, that is stored and all of them are COMPLETED |
| TaskManagers.TaskManager.IsSequenceTaskRunnable | src/utils/TaskManager.cc:1021-1066 | A dependent task is runnable exactly when its sequence is found and each recorded index names a completed task of it |
| TaskManagers.TaskManager.AddTaskSequence | src/utils/TaskManager.cc:205-288 | Object and return code are those of the step whose outcomes the next five rows state |
| StepMeanings.AddSucceedsIff | src/utils/TaskManager.cc:205-288 | Adding succeeds if and only if the sequence has tasks, they fit into the quota, and, if they are to be queued, no asynchronous one lacks its status attribute |
| StepMeanings.AddMeans | src/utils/TaskManager.cc:234-286 | A success stores the sequence last and wakes the manager up; if asked to, exactly the tasks of the sequence join the queue and become IDLE; otherwise queue and statuses stay |
| StepMeanings.AddRefuses | src/utils/TaskManager.cc:216-229 | An empty sequence, or one that does not fit, changes nothing |
| StepMeanings.AddStopsAtMissing | src/utils/TaskManager.cc:238-241 | At the first missing attribute exactly the tasks before it have joined the queue and become IDLE, and the sequence is not stored |
| StepMeanings.InsertAllMeans | src/utils/TaskManager.cc:234-262 | Inserting goes on to the first missing attribute and no further |
| TaskManagers.TaskManager.RemoveTaskSequence | src/utils/TaskManager.cc:292-310 | Exactly the queued tasks of the named sequence leave the queue and exactly the sequences of that name are forgotten |
| StepMeanings.RemoveSequenceMeans | src/utils/TaskManager.cc:292-310 | Exactly the queued tasks of the sequence leave the queue, exactly the stored sequences of that name are forgotten, and nothing else changes |
| TaskManagers.TaskManager.RevokeTaskSequence | src/utils/TaskManager.cc:313-333 | The object is that of the step described by `RevokeSequenceMeans` |
| StepMeanings.RevokeSequenceMeans | src/utils/TaskManager.cc:313-333 | Exactly the queued tasks of the named sequence leave the queue; exactly the idle tasks of the stored sequences of that name become CANCELED; exactly the sequences that lost one get the combined status of their tasks as they are afterwards |
| TaskManagers.TaskManager.RevokeTask | src/utils/TaskManager.cc:336-355 | The object is that of the step described by `RevokeTaskMeans` |
| StepMeanings.RevokeTaskMeans | src/utils/TaskManager.cc:336-355 | Exactly the queued tasks of the name leave the queue; exactly the idle ones of that name in stored sequences become CANCELED; exactly the sequences that lost one get the combined status of their tasks as they are afterwards |
| TaskManagers.TaskManager.FlushQueue | src/utils/TaskManager.cc:471-477 | Only the queue changes, to empty |
| TaskManagers.TaskManager.SetSequenceTaskStatus | src/utils/TaskManager.cc:480-484 | In every sequence the first task with the id and name gets the status, and the sequence a recomputed one; 0 is returned exactly if a stored sequence has such a task |
| StepMeanings.SetTaskStatusMeans | src/utils/TaskManager.cc:921-950 | Exactly the tasks with the id and name in stored sequences get the status, and exactly the stored sequences that have one the combined status of their tasks afterwards |
| TaskManagers.TaskManager.SetAsynchTaskStatus | src/utils/TaskManager.cc:487-499 | In every sequence the first asynchronous task that watches the attribute gets the status |
| StepMeanings.SetAsynchStatusMeans | src/utils/TaskManager.cc:487-499 | In each stored sequence exactly the first asynchronous task that watches the attribute gets the status, and exactly the sequences that have one the combined status of their tasks afterwards |
| TaskManagers.TaskManager.ExecuteTask | src/utils/TaskManager.cc:144-201 | The task becomes FAILED and the exception is passed on, or RUNNING if asynchronous, or COMPLETED |
| TaskManagers.TaskManager.ClearAllSequenceTasks | src/utils/TaskManager.cc:540-556 | Only the stored sequences change, to none |
| TaskManagers.TaskManager.ClearSequenceTasks | src/utils/TaskManager.cc:559-583 | Keeps exactly the recent sequences and, if asked, the running ones |
| TaskManagers.TaskManager.ClearCompletedSequenceTasks | src/utils/TaskManager.cc:586-605 | Keeps exactly the recent and the completed sequences |
| StepMeanings.ClearMeans | src/utils/TaskManager.cc:559-605 | Exactly the recent sequences and those with the status to keep stay stored; nothing else changes |
| StepMeanings.SimpleStepsMean | src/utils/TaskManager.cc:122-140 | Flushing, clearing all, the signals and the quota each change one part of the state |
| TaskManagers.TaskManager.FinishWait | src/utils/TaskManager.cc:443-456 | The end of a timed wait only clears the wake-up signal |
| TaskManagers.TaskManager.WakeUp | src/utils/TaskManager.cc:122-130 | Only sets the wake-up signal |
| TaskManagers.TaskManager.End | src/utils/TaskManager.cc:132-140 | Only sets the end signal |
| TaskManagers.TaskManager.SetMaxNTasksInQueue | src/utils/TaskManager.h:248-251 | Only sets the quota |
| TaskManagers.TaskManager.RemoveTasksInQueue | src/utils/TaskManager.cc:785-877 | Erasing match by match leaves exactly the tasks that do not match, in order |
| TaskManagers.TaskManager.UpdateSequence | src/utils/TaskManager.cc:921-950 | The status of a sequence is recomputed from the current statuses of its tasks |
| TaskManagers.TaskManager.constructor | src/utils/TaskManager.cc:62-75 | A new manager has nothing queued, no sequences, no signals and a quota of thirty |
| QueueInvariants.StepKeepsOrder | src/utils/TaskManager.cc:205-477 | Every step keeps the queue strictly sorted by the comparator, so without duplicates |
| QueueInvariants.InsertKeepsSorted | src/utils/TaskManager.cc:240-245 | Insertion keeps the order and adds exactly the task, unless it is already queued |
| QueueInvariants.StepKeepsQuota | src/utils/TaskManager.cc:219-229 | The queue never exceeds the quota unless the quota is lowered |
| QueueInvariants.StepConserves | src/utils/TaskManager.cc:205-477 | What was queued or entered is afterwards queued, popped, purged or dropped, each exactly once |
| QueueInvariants.WithoutSplits | src/utils/TaskManager.cc:785-877 | A removal splits the queue into what stays and what leaves |
| StatusInvariants.StepKeepsQueuedIdle | src/utils/TaskManager.cc:380-432 | While updates spare queued tasks, every queued task is IDLE or EXPIRED |
| StatusInvariants.StepCompletes | src/utils/TaskManager.cc:921-950 | A task becomes COMPLETED only by a status update that hits it |
| StatusInvariants.SetMatchingStatus | src/utils/TaskManager.cc:921-950 | An update gives the status to the tasks it hits and leaves all others |
| StatusInvariants.RevokeAllStatus | src/utils/TaskManager.cc:724-783 | Revoking turns only idle tasks of the named sequences or name into canceled ones |
| PopProperties.PopTakesLeastRunnable | src/utils/TaskManager.cc:386-441 | In every queue a pop takes the least task that is idle, activated, unexpired, has its prerequisites completed, and has none of them before it in the queue that has expired; it takes one if and only if there is one and the end is not signaled |
| PopProperties.LeastRunnableIsTakenIff | src/utils/TaskManager.cc:386-441 | The least runnable task of the queue is the one taken exactly if none of its prerequisites is before it in the queue and has expired |
| PopProperties.PopPrefers | src/utils/TaskManager.cc:386-441 | Of two tasks that can be taken and start together, the one with the smaller priority, or later expiration, is not taken |
| PopProperties.ScanStopsAtFirst | src/utils/TaskManager.cc:394-426 | The scan stops at the first task that is runnable after what it has marked before it |
| PopProperties.RunnableWhenReached | src/utils/TaskManager.cc:394-426 | What the scan has marked before it comes to a task leaves it runnable exactly if none of its prerequisites is among it |
| QueueExamples.CompletedInQueueBlocksItsFollower | src/utils/TaskManager.cc:394-419 | A run that adds a sequence of two tasks and completes the first while it is queued; when that has expired, the scan marks it and passes over its follower, the only runnable task |
| QueueExamples.MakeDependentSequence | src/utils/Task.cc:1180-1267 | The two tasks of that run, as constructor, `AddTask` and `SetTaskDependency` leave them |
| PopProperties.ScanFindsRunnable | src/utils/TaskManager.cc:394-419 | In any queue, the task found is runnable after everything the scan has marked before it |
| PopProperties.PopWaitsForEarliest | src/utils/TaskManager.cc:421-456 | A pop waits no longer than until the timeout of a waiting task, if that ends no earlier than the start by which the queue orders the task, and those of the other waiting tasks no later than theirs |
| QueueExamples.StaleTimeoutDelaysOthers | src/utils/TaskManager.cc:421-456 | After a run that adds a sequence of two tasks, a pop at second 6 waits until second 1000 for one whose activation was moved into the past, past the other one that activates at second 20 |
| QueueExamples.MakeStale | src/utils/Task.cc:189-216 | The two calls of setters that leave the activation in the past and the old timeout running |
| QueueExamples.MakeStaleSequence | src/utils/Task.cc:941-957 | The two tasks of that run in one sequence, as the setters and `AddTask` leave them |
| PopProperties.ExpiringKeepsOthers | src/utils/TaskManager.cc:411-419 | Marking an uncompleted task as expired during the scan changes whether no other task can run |
| PopProperties.TwoPopsDrain | src/utils/TaskManager.cc:380-432 | When every queued task has expired, two pops empty the queue, take nothing, and leave every task EXPIRED |
| SchedulerRuns.RunConserves | src/utils/TaskManager.cc:205-477 | Over every run of any operations the queue stays sorted and every entry is in exactly one of queue, popped, purged, dropped |
| SchedulerRuns.EnteredOnceIsInOnePlace | src/utils/TaskManager.cc:437-443 | A task that entered once is in exactly one place, so it is popped at most once |
| SchedulerRuns.RunKeepsQuota | src/utils/TaskManager.cc:219-229 | Over every run in which the quota is never lowered, but may be raised, the queue stays within it |
| SchedulerRuns.RunKeepsQueuedIdle | src/utils/TaskManager.cc:380-432 | Over every run whose updates spare the tasks queued at the time, every queued task is IDLE or EXPIRED |
| SchedulerRuns.PopsFollowDependencies | src/utils/TaskManager.cc:359-443 | In every run whose status updates concern only tasks that have been popped, whether or not they are queued again, a task is popped only after all its direct and indirect prerequisites were popped and completed |
| QueueExamples.DependencyIsFollowed | src/utils/TaskManager.cc:359-443 | Such a run: a sequence is added, its first task popped and completed, and then its follower is popped |
| StepMeanings.HitByMeans | src/utils/TaskManager.cc:921-950 | The status updates that the run theorems speak of concern exactly the stored tasks with the id and name, or the first ones that watch the attribute |
| SchedulerRuns.RunnableHasPrerequisites | src/utils/TaskManager.cc:1021-1066 | A runnable task has each recorded prerequisite completed |
| SchedulerRuns.RevokedIsNotPopped | src/utils/TaskManager.cc:336-355 | After a name is revoked, every later pop is of another name until one of that name is added |
| SchedulerRuns.ClearCompletedForgetsTheOthers | src/utils/TaskManager.cc:586-605 | A stored sequence survives exactly when it is completed or recent: the filter is the opposite of the method name |
| FormulaIndex.EventOrderIsLawful | src/utils/EvtSubscriptionData.h:135-183 | The order is strict and transitive, its ties are exactly the events that are equal without regard to case, and these share one key |
| FormulaIndex.LowerIff | src/utils/EvtSubscriptionData.h:159-183 | Two names agree without regard to case exactly if they have the same length and at each position the same character or the two cases of one letter |
| FormulaIndex.CaseDoesNotMatter | src/utils/EvtSubscriptionData.h:135-183 | Events that differ in the case of letters only are one key, are watched by the same formulas, and feed the same variable |
| FormulaIndex.FormulaManager.constructor | src/utils/FormulaManager.cc:93-106 | An empty index agrees with no formulas |
| FormulaIndex.FormulaManager.RegisterFormula | src/utils/FormulaManager.cc:134-285 | Successful, failed or repeated registration keeps the index in agreement with the formulas; only success adds exactly the one formula |
| FormulaIndex.RegisteringKeepsAgreement | src/utils/FormulaManager.cc:251-262 | Filling the index with the keys of a new formula restores the agreement at every key |
| FormulaIndex.FilledAllFills | src/utils/FormulaManager.cc:413-442 | Filling adds the name once under each key of the formula and changes no other key |
| FormulaIndex.KeysAreWatched | src/utils/FormulaManager.cc:163-262 | The keys of a formula are exactly the events it watches |
| FormulaIndex.FormulaManager.FillEventAttrMap | src/utils/FormulaManager.cc:413-442 | One key gets the name unless it already lists it |
| FormulaIndex.FormulaManager.GetFormulasLinkedToEvent | src/utils/FormulaManager.cc:324-373 | The lookup returns, without duplicates, exactly the registered formulas that are evaluated on the kind of event and have a proxy variable whose device and attribute are those of the event but for the case of letters; it fails exactly if there is none |
| FormulaIndex.FormulaManager.UpdateEventValueInFormulas | src/utils/FormulaManager.cc:445-487 | A variable changes exactly if it is the first one fed by the event in a watching formula and accepts the value; 1 is returned only for a refusal, never because no variable was found |
| FormulaIndex.FormulaData.SetEventValue | src/utils/FormulaData.cc:292-342 | Sets exactly the first variable fed by the event; fails if there is none or it refuses |
| FormulaIndex.FormulaData.FirstFed | src/utils/FormulaData.cc:311-327 | A variable is found exactly if one is fed by the event |
| FormulaIndex.FirstFedIff | src/utils/FormulaData.cc:311-327 | What is found is the first variable that is fed by the event |
| FormulaIndex.FedByIff | src/utils/FormulaData.cc:322-322 | A proxy variable is fed by what differs from it in the case of letters only |
| FormulaIndex.AllFedVariablesAreSetIff | src/utils/FormulaData.cc:311-327 | After an event all variables fed by it hold its value exactly if each held it before, or accepts it and has no fed variable before its first position |
| FormulaIndex.SetTwoVariables | src/utils/FormulaData.cc:292-342 | A formula with two variables fed by the same attribute: the first is set, the second keeps no value |
| AlarmFormulas.StringFindAndReplace | src/utils/CodeUtils.h:278-288 | The loop terminates and is the left-to-right replacement of non-overlapping occurrences; fails exactly if there is none |
| AlarmFormulas.ReplacingSubstitutes | src/utils/AlarmData.cc:128-140 | Replacing one more symbol in a partly substituted formula substitutes that symbol at exactly its uses |
| AlarmFormulas.OccursIffUsed | src/utils/AlarmData.cc:128-140 | The next symbol to be replaced occurs exactly if the original formula uses it; without a name that is a prefix of another, so does every symbol still to be replaced |
| AlarmFormulas.SequentialIsSimultaneous | src/utils/AlarmData.cc:116-145 | For symbols in map order, replacement one after the other gives the simultaneous substitution in which each '$' stands for the first symbol it begins, and succeeds exactly when every symbol is used there; a failure leaves the symbols before an unused one substituted |
| AlarmFormulas.SucceedsIffAllOccur | src/utils/AlarmData.cc:116-145 | If no name is a prefix of another, the expansion succeeds exactly when every symbol occurs |
| AlarmFormulas.SuccessLawIffPrefixFree | src/utils/AlarmData.cc:116-145 | Success exactly when every symbol occurs, for all formulas, holds if and only if no name is a prefix of another; otherwise no formula at all can be expanded |
| AlarmFormulas.AlarmData.ExpandFormula | src/utils/AlarmData.cc:116-145 | The formula is rewritten in place by that sequence; without symbols it fails; the string handed back is the formula before the expansion |
| AlarmFormulas.SecondExpansionFails | src/utils/AlarmData.cc:116-145 | A second expansion of an expanded formula fails |
| AlarmFormulas.PrefixedNamesGoWrong | src/utils/AlarmData.cc:128-140 | The expansion of "$ab" fails for the names a and ab although both occur |
| AlarmFormulas.StrayDollarsGoWrong | src/utils/AlarmData.cc:128-140 | With a '$' that begins no symbol, an inserted value is replaced again |
| TangoNames.ParseFullProxyName | src/utils/TangoUtils.cc:400-463 | The searches and substrings, a wrapped length included, compute the specified split; -1 exactly where it is undefined |
| TangoNames.ParsedNameJoinsBack | src/utils/TangoUtils.cc:400-463 | Every name that parses is rebuilt exactly by joining its parts |
| TangoNames.JoinedPartsParseIff | src/utils/TangoUtils.cc:400-463 | Joining parts and parsing gives the parts back if and only if the parts are well formed |
| TangoNames.ParsedIsWellFormed | src/utils/TangoUtils.cc:400-463 | What the parser returns is well formed |
| TangoNames.RefusedIffNotJoined | src/utils/TangoUtils.cc:400-463 | A name is refused exactly if no well-formed parts join to it |
| TangoNames.GetPlainProxyName | src/utils/TangoUtils.cc:378-398 | The plain name is the given name without its facility |
| AttributeNames.ParseFullAttrName | src/utils/TangoUtils.cc:263-287 | Counting slashes cuts at the third slash, or the sixth of a qualified name, and drops the slashes of the attribute; an empty part fails |
| AttributeNames.CountingMeans | src/utils/TangoUtils.cc:263-287 | With fewer than three slashes, six if qualified, it fails; otherwise the device is what precedes that slash, the attribute the rest without its slashes, and it fails only if one is empty |
| AttributeNames.ParseFullAttrNameAndQuality | src/utils/TangoUtils.cc:290-375 | The searches cut a qualified name at the host and at its last slash, a plain one at its last slash; a quality tag drops the last eight characters |
| AttributeNames.SearchRefusesIff | src/utils/TangoUtils.cc:290-345 | A qualified name is refused exactly without a colon before the first slash behind the prefix; a plain one exactly with a colon, a double slash, or without a slash |
| AttributeNames.SearchMeans | src/utils/TangoUtils.cc:290-373 | The attribute is what follows the last slash, less eight characters if the tag occurs in it; the device is what precedes that slash, behind the host of a qualified name |
| AttributeNames.TagIsDropped | src/utils/TangoUtils.cc:364-370 | A quality tag at the end is noticed and dropped |
| AttributeNames.ParsersAgreeIff | src/utils/TangoUtils.cc:263-375 | On every untagged name that the search splits, the two parsers give the same attribute and the same joined device if and only if the attribute is not empty and the name has exactly three slashes, six if qualified |
| AttributeNames.CutAtLastSlash | src/utils/TangoUtils.cc:271-280 | If the last slash is the counted one, counting cuts the name there |
| AttributeNames.HostOnlyIsTooShort | src/utils/TangoUtils.cc:296-318 | A qualified name without a slash behind its host has too few slashes for the counting parser |
| GroupReplies.CollectReplies | src/utils/TangoProxyManager.cc:877-924 | Ends normally if and only if the first answer to every command is a reply within the rounds; a failure is passed on if and only if one comes in, and it is the first one; the data handed out are one for each first reply in the order of the requests |
| GroupReplies.BeforeIsExact | src/utils/TangoProxyManager.cc:877-914 | The collected requests are exactly the first answers made so far, by round and then by index |
| GroupReplies.AllReplyIff | src/utils/TangoProxyManager.cc:877-924 | All commands reply within the rounds exactly when each is answered and no first answer is a failure |
| GroupReplies.ReplyKeeps | src/utils/TangoProxyManager.cc:907-911 | Taking a reply keeps the number of replies equal to the number of arrived flags, and one datum per first answer |
| GroupReplies.NothingAfterAll | src/utils/TangoProxyManager.cc:881-885 | Stopping when all replies have arrived loses nothing |
| GroupReplies.RepliesArePermutation | src/utils/TangoProxyManager.cc:877-924 | After a normal end there is exactly one datum for each command |
| GroupReplies.RepliesAreOrdered | src/utils/TangoProxyManager.cc:877-914 | Data come by ascending round and, inside a round, by ascending index |
| ProxyHealth.ProxyHelper.constructor | src/utils/TangoProxyHelper.cc:840-862 | A new helper is offline without a running timeout, with ten seconds and ten pings configured |
| ProxyHealth.ProxyHelper.SetOnline | src/utils/TangoProxyHelper.cc:780-808 | Stops the timeout, drops the oldest ping of a full window before adding the new one, and renews the average |
| ProxyHealth.ProxyHelper.SetOffline | src/utils/TangoProxyHelper.cc:810-838 | Starts the timeout only on the first offline observation since the last online one, and clears the window |
| ProxyHealth.ProxyHelper.SetTimeout | src/utils/TangoProxyHelper.cc:383-406 | Refuses non-positive values and changes while an offline timeout runs; otherwise replaces the timeout by a stopped one |
| ProxyHealth.ProxyHelper.SetMaxPingTimeBufferSize | src/utils/TangoProxyHelper.cc:375-380 | Only sets the maximal size of the window |
| ProxyHealth.ProxyHelper.ComputePingTimeMean | src/utils/TangoProxyHelper.cc:864-880 | The average is the mean of the window, 0 if it is empty |
| ProxyHealth.SumAdds | src/utils/TangoProxyHelper.cc:864-880 | The sum of a window adds over its parts and is the value of a single ping |
| ProxyHealth.ProxyHelper.GetProxyRunStatus | src/utils/TangoProxyHelper.cc:915-924 | ONLINE while online; otherwise HARD_OFFLINE exactly when the timeout runs and has expired, else SOFT_OFFLINE |
| ProxyHealth.RunTracks | src/utils/TangoProxyHelper.cc:780-838 | Over every defined run the timeout runs exactly while the device is seen offline, since the first offline observation, with the timeout in force |
| ProxyHealth.HardOfflineIff | src/utils/TangoProxyHelper.cc:915-924 | After every defined run with an observation or a positive timeout, the status is ONLINE exactly if the last observation was online, and HARD_OFFLINE exactly if the first offline observation since the last online one is at least as old as the timeout in force |
| ProxyHealth.StatusIsDefinedIff | src/utils/TangoProxyHelper.cc:915-924 | The status can be asked for exactly after an online or offline observation or a positive timeout; before that the code follows a null pointer |
| ProxyHealth.FreshHelperHasNoStatus | src/utils/TangoProxyHelper.cc:840-862 | A new helper, with or without a size set, is outside of that condition |
| ProxyHealth.DefinedIffCanPush | src/utils/TangoProxyHelper.cc:794-800 | An online observation is defined exactly if the size in force is positive or a ping has come since the last offline observation |
| ProxyHealth.NoRoomForFirstPing | src/utils/TangoProxyHelper.cc:794-800 | Setting the size to zero before the first ping leads out of the defined runs |
| ProxyHealth.WindowHoldsNewest | src/utils/TangoProxyHelper.cc:794-804 | After every defined run, whatever the sizes set, the window is a prefix of the pings since the last offline observation, newest first, empty only if there are none, and the average is its mean |
| ProxyHealth.WindowIsFull | src/utils/TangoProxyHelper.cc:794-804 | With a positive size set once every run is defined, and the window holds as many of the newest pings as fit |

## Left out

- TaskManagers.TaskManager.PopTask: the duration of the timed wait is not modelled, since the unit of the library's timer is not part of this model; the wait ends with the separate step `FinishWait`. A call that would block for ever is a step without effect.
- TaskManagers.TaskManager.AddTaskSequence: the null pointer, which is refused, and exceptions of the containers are not modelled.
- QueueInvariants.StepKeepsQuota: speaks of the check made when a sequence is added; the separate, never used collection quota is not modelled.
- SchedulerRuns.PopsFollowDependencies: assumes that status updates concern tasks that have been popped; the model also has updates of tasks that never were, and then only the invariants of order and conservation are claimed.
- Scheduling.ScheduledTasksFollowKey: needs prerequisites that last a whole second or expire after their activation; without this it can fail, see `SubSecondDurationsBreakTheOrder`, and `OrderIsLawfulIff` for the exact condition.
- PopProperties.PopWaitsForEarliest: assumes how the timeouts of the waiting tasks lie to the starts that order them, which is exact by `EndsByStartIff` and `EndsAfterStartIff`; the setters say when timeout and activation agree, and `StaleTimeoutDelaysOthers` is a run after which they do not.
- TaskSequences.TaskSequence.SetTaskDependency: when a task was added twice, which `AddTask` does not check, only success, failure and the matrix are claimed and not the times; and the entries of a well-shaped matrix must name tasks, since the code indexes with them before it checks them.
- TaskSequences.TaskSequence.FindSortingIndexes: adding tasks after dependencies were set leaves a matrix of the wrong size, with which the code reads outside of it; excluded by its precondition.
- AlarmFormulas.StringFindAndReplace: an empty search string is excluded; with it the loop of the code does not end.
- AlarmFormulas.SequentialIsSimultaneous: asks for names and values without '$' and a formula in which every '$' begins a symbol; `StrayDollarsGoWrong` shows what happens otherwise.
- FormulaIndex.FormulaManager.RegisterFormula: the subscriptions made and undone at the proxies are not modelled. The code looks for existing subscriptions under the name of the formula's own attribute, so undoing a failed registration may not restore them.
- FormulaIndex.FormulaManager.UpdateEventValueInFormulas: the null checks of its arguments and the conversion of the value to the type of a variable are not modelled; which variables refuse a value is a parameter.
- FormulaIndex.EventOrderIsLawful: the printed names of the kinds of events are modelled as numbers; only the ASCII letters have two cases.
- TangoNames.ParseFullProxyName: names as long as the largest position are excluded.
- AttributeNames.ParsersAgreeIff: speaks of names without a quality tag and without NUL characters; what the searching parser does with the tag is stated by `SearchMeans` and `TagIsDropped`.
- GroupReplies.CollectReplies: begins after the commands were sent; the comparison of argument list sizes, the lookup of the helpers and sending itself are not modelled. What a request answers in each round is a parameter, with exceptions other than Tango's left out.
- ProxyHealth.ProxyHelper.SetOnline: the state text, the time stamp and the timer of the time spent in a status are not modelled; with a maximal size below one and an empty window the code removes from an empty container, which the precondition excludes and `DefinedIffCanPush` describes by the events.
- ProxyHealth.ProxyHelper.GetProxyRunStatus: an offline helper that was never given a timeout is excluded, since the code dereferences a null pointer there; `StatusIsDefinedIff` says on which runs. A timeout counts as expired from the moment its period has passed.
- Mutexes and condition variables: every locked method is one atomic step.
- Statuses are the nine enumerated values; their texts, logging and the counters of statuses are left out.
- Generation of unique ids: uniqueness is part of the hypothesis `Lawful`.
- JSON encoding, data values, configuration parsing, evaluation of formulas, the older `AttrFormula` classes, rule factories and archiving: they would add easy members only.

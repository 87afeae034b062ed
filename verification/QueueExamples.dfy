/**
 Runs of an empty manager with tasks made by their setters: two queues in which a pop does not do what
 its comments say, a task that starts at its activation, and a dependency that is followed.
 */
module QueueExamples {
  import opened Wrappers
  import opened Graph
  import opened Tasks
  import opened TaskOrder
  import opened CriticalPath
  import opened TaskSequences
  import opened Scheduler
  import opened Scheduling
  import opened QueueInvariants
  import opened PopProperties
  import opened StatusInvariants
  import opened StepMeanings
  import opened SchedulerRuns

  /** The world of one sequence of two tasks. */
  ghost function PairWorld(q: TaskSequence, a: Task, b: Task, va: TaskView, vb: TaskView): World {
    World(map[a := va, b := vb], map[q := SeqView("uuid", "seq", [a, b], 0)])
  }

  predicate Member(v: TaskView, name: string, index: nat) {
    v.name == name && v.inSequence && v.sequenceId == "uuid" && v.sequenceName == "seq" && v.sequenceIndex == index
  }

  lemma PairIsLawful(q: TaskSequence, a: Task, b: Task, va: TaskView, vb: TaskView)
    requires a != b && Member(va, "a", 0) && Member(vb, "b", 1)
    requires !va.dependent && KeyLess(va, vb)
    ensures var w := PairWorld(q, a, b, va, vb); Lawful(w) && w.Before(a, b) && Sorted(w, [a, b])
  {
    assert "a"[0] != "b"[0];
    KeyLessConnected(va, vb);
    var w := PairWorld(q, a, b, va, vb);
    forall x, y | x in Views(w) && y in Views(w) && DirectlyDepends(x, y)
      ensures KeyLess(y, x)
    {
      assert x == vb && y == va;
    }
    BeforeIsTotal(w, a, b);
  }

  /** Adding the sequence to an empty queue puts both tasks into it. */
  lemma PairIsAdded(w: World, s: State, q: TaskSequence, a: Task, b: Task)
    requires a != b && w.Seq(q).tasks == [a, b] && w.Before(a, b)
    requires !w.View(a).isAsynch && !w.View(b).isAsynch
    requires s.queue == [] && s.maxQueue >= 2
    ensures Step(w, s, AddSequence(q, true, {})).state ==
      s.(queue := [a, b], status := s.status[a := IDLE][b := IDLE], sequences := s.sequences + [q], wakeUp := true)
  {
    hide World.Before;
    var st := s.status[a := IDLE][b := IDLE];
    assert [a, b][1..] == [b] && [b][1..] == [];
    assert Insert(w, [], a) == [a];
    assert [a][1..] == [] && Insert(w, [a], b) == [a] + [b] == [a, b];
    assert InsertAll(w, [a, b], st, [], {}) == AddResult([a, b], st, [], true);
    assert InsertAll(w, [a], s.status[a := IDLE], [b], {}).queue == [a, b];
    assert InsertAll(w, [a], s.status[a := IDLE], [b], {}).status == st;
    assert InsertAll(w, [a], s.status[a := IDLE], [b], {}).ok;
  }

  lemma NothingPurged(w: World, st: StatusMap, a: Task, b: Task)
    requires StatusOf(st, a) != EXPIRED && StatusOf(st, b) != EXPIRED
    ensures Without(w, st, [a, b], ByStatus(EXPIRED)) == [a, b]
  {
    var m := ByStatus(EXPIRED);
    assert [a, b][1..] == [b] && [b][1..] == [];
    assert Without(w, st, [b], m) == [b];
    assert Without(w, st, [a, b], m) == [a] + [b];
  }

  /** What `AddTask` records in the task at `index` of the sequence. */
  function InPair(v: TaskView, index: int): TaskView {
    v.(inSequence := true, sequenceId := "uuid", sequenceName := "seq", sequenceIndex := index)
  }

  method MakeSequence(a: Task, b: Task) returns (q: TaskSequence)
    requires a != b
    modifies a, b
    ensures fresh(q) && q.seqId == "uuid" && q.seqName == "seq" && q.tasks == [a, b] && q.creation == 0
    ensures a.View() == InPair(old(a.View()), 0) && b.View() == InPair(old(b.View()), 1)
  {
    q := new TaskSequence("seq", "uuid", 0);
    ghost var vb := b.View();
    var rc := q.AddTask(a);
    assert b.View() == vb;
    ghost var va := a.View();
    rc := q.AddTask(b);
    assert a.View() == va;
  }

  // ----- a timeout left behind -----

  const STALE: TaskView :=
    TaskView("1", "a", 0, false, "", true, "uuid", "seq", 0, false, [],
             Times(true, 0, Some(1000000), true, 2000000, Some(2000000), 2000000, 0), 0, 0)

  const PUNCTUAL: TaskView :=
    TaskView("2", "b", 0, false, "", true, "uuid", "seq", 1, false, [],
             Times(true, 20000, Some(20000), true, 50000, Some(50000), DEFAULT_MAX_DURATION, 5000), 0, 0)

  /** The second setter moves the activation into the past and leaves the timeout of the first running. */
  method MakeStale() returns (a: Task)
    ensures fresh(a) && a.View() == STALE.(inSequence := false, sequenceId := "", sequenceName := "")
  {
    a := new Task("1", "a", 0, 0);
    var rc := a.SetActivationTime(1000000, 0);
    rc := a.SetTimeDelayAndDuration(0, 2000000, CreationRef, 5000);
  }

  method MakePunctual() returns (b: Task)
    ensures fresh(b)
    ensures b.View() == PUNCTUAL.(inSequence := false, sequenceId := "", sequenceName := "", sequenceIndex := 0)
  {
    b := new Task("2", "b", 0, 5000);
    var rc := b.SetActivationTime(20000, 5000);
  }

  method MakeStaleSequence() returns (q: TaskSequence, a: Task, b: Task)
    ensures a != b && a.View() == STALE && b.View() == PUNCTUAL
    ensures q.seqId == "uuid" && q.seqName == "seq" && q.tasks == [a, b] && q.creation == 0
  {
    a := MakeStale();
    b := MakePunctual();
    q := MakeSequence(a, b);
  }

  lemma StaleScan(w: World, s: State, q: TaskSequence, a: Task, b: Task)
    requires a != b && w == PairWorld(q, a, b, STALE, PUNCTUAL)
    requires s.queue == [a, b] && !s.end && StatusOf(s.status, a) == StatusOf(s.status, b) == IDLE
    ensures Pop(w, s, 6000).1 == Nothing(Some(a))
  {
    NothingPurged(w, s.status, a, b);
    hide Without;
    assert s.queue[0] == a && s.queue[1] == b;
    assert Scan(w, s.sequences, s.queue, s.status, 6000, 2, Some(0)) == ScanResult(s.status, None, Some(0));
    assert Scan(w, s.sequences, s.queue, s.status, 6000, 1, Some(0)) == ScanResult(s.status, None, Some(0));
  }

  /**
   After the sequence has been added to an empty manager, a pop at second 6 waits for the stale
   task until second 1000, although the other one activates at second 20.
   */
  lemma StaleTimeoutDelaysOthers(w: World, s: State, q: TaskSequence, a: Task, b: Task)
    requires a != b && w == PairWorld(q, a, b, STALE, PUNCTUAL)
    requires Initial(w, s) && s.maxQueue >= 2 && !s.end
    ensures Lawful(w) && LegalRun(w, Start(w, s), [AddSequence(q, true, {})])
    ensures var reached := Run(w, Start(w, s), [AddSequence(q, true, {})]).state;
      && reached.queue == [a, b]
      && Pop(w, reached, 6000).1 == Nothing(Some(a))
    ensures Waits(w, a, 6000) && Waits(w, b, 6000) && Deadline(w, a, 6000) == 1000000 && Deadline(w, b, 6000) == 20000
    ensures !EndsByStart(w.View(a)) && EndsAfterStart(w.View(b))
  {
    var op := AddSequence(q, true, {});
    PairIsLawful(q, a, b, STALE, PUNCTUAL);
    PairIsAdded(w, s, q, a, b);
    OneStep(w, s, op);
    StaleScan(w, Step(w, s, op).state, q, a, b);
  }

  lemma OneStep(w: World, s: State, op: Op)
    ensures Run(w, Start(w, s), [op]) == Exec(w, Start(w, s), op)
    ensures KnownSequence(w, op) && op.AddSequence? ==> LegalRun(w, Start(w, s), [op])
  {
    assert [op][1..] == [];
    assert Run(w, Exec(w, Start(w, s), op), []) == Exec(w, Start(w, s), op);
  }

  // ----- a task completed in the queue -----

  const FINISHED: TaskView :=
    TaskView("1", "a", 0, false, "", true, "uuid", "seq", 0, false, [],
             Times(false, 0, None, true, 30000, Some(30000), DEFAULT_MAX_DURATION, 0), 0, 0)

  const FOLLOWER: TaskView :=
    TaskView("2", "b", 0, false, "", true, "uuid", "seq", 1, true, [0],
             Times(false, 0, None, true, 60000, Some(60000), DEFAULT_MAX_DURATION, 0), 30000, 60000)

  const FOLLOWS: Matrix := [[], [0]]

  lemma FollowsIsAcyclic()
    ensures InRange(FOLLOWS, 2) && !Cyclic(FOLLOWS, 2)
  {
    assert [0, 1][..1] == [0];
    assert Postorder(FOLLOWS, 2, [0, 1]);
    PostorderExcludesCycles(FOLLOWS, 2, [0, 1]);
  }

  /** The follower before it is scheduled. */
  function NewMember(id: string, name: string, index: int): TaskView {
    TaskView(id, name, 0, false, "", true, "uuid", "seq", index, false, [],
             Times(false, 0, None, true, 30000, Some(30000), DEFAULT_MAX_DURATION, 0), 0, 0)
  }

  lemma FollowerIsScheduled(starts: seq<int>)
    requires Solves([NewMember("1", "a", 0), NewMember("2", "b", 1)], FOLLOWS, starts)
    ensures Scheduled(NewMember("1", "a", 0), FOLLOWS[0], starts[0], 0) == FINISHED
    ensures Scheduled(NewMember("2", "b", 1), FOLLOWS[1], starts[1], 0) == FOLLOWER
  {
    var views := [NewMember("1", "a", 0), NewMember("2", "b", 1)];
    assert 0 in FOLLOWS[1] && FOLLOWS[0] == [];
    assert IsWorstStart(views, FOLLOWS, starts, 1);
    assert CriticalPath.End(views, FOLLOWS, starts, 0) == 30000;
  }

  method MakeMembers() returns (q: TaskSequence, a: Task, b: Task)
    ensures fresh(q) && fresh(a) && fresh(b) && a != b
    ensures a.View() == NewMember("1", "a", 0) && b.View() == NewMember("2", "b", 1)
    ensures q.seqId == "uuid" && q.seqName == "seq" && q.tasks == [a, b] && q.creation == 0
  {
    a := new Task("1", "a", 0, 0);
    b := new Task("2", "b", 0, 0);
    q := MakeSequence(a, b);
  }

  method MakeDependentSequence() returns (q: TaskSequence, a: Task, b: Task)
    ensures a != b && a.View() == FINISHED && b.View() == FOLLOWER
    ensures q.seqId == "uuid" && q.seqName == "seq" && q.tasks == [a, b] && q.creation == 0
  {
    q, a, b := MakeMembers();
    FollowsIsAcyclic();
    hide Cyclic, IsLongestChain, Solves, Scheduled, InRange, CriticalTimes;
    assert q.Views() == [NewMember("1", "a", 0), NewMember("2", "b", 1)];
    var rc;
    ghost var starts;
    rc, starts := q.SetTaskDependency(FOLLOWS, 0);
    FollowerIsScheduled(starts);
  }

  lemma FinishedScan(w: World, s: State, q: TaskSequence, a: Task, b: Task)
    requires a != b && w == PairWorld(q, a, b, FINISHED, FOLLOWER)
    requires s.queue == [a, b] && s.sequences == [q] && !s.end
    requires StatusOf(s.status, a) == COMPLETED && StatusOf(s.status, b) == IDLE
    ensures CanRun(w, s.sequences, s.status, b, 30000)
    ensures Requires(w, s.sequences, b, a) && Pop(w, s, 30000).1 == Nothing(None)
  {
    var st := s.status[a := EXPIRED];
    NothingPurged(w, s.status, a, b);
    hide Without;
    assert s.queue[0] == a && s.queue[1] == b;
    assert FindSequence(w, s.sequences, "uuid", "seq") == Some(q);
    assert 0 in FOLLOWER.depIndexes && w.Seq(q).tasks[0] == a;
    assert CanRun(w, s.sequences, s.status, b, 30000);
    assert !CanRun(w, s.sequences, st, b, 30000);
    assert Scan(w, s.sequences, s.queue, st, 30000, 2, None) == ScanResult(st, None, None);
    assert Scan(w, s.sequences, s.queue, st, 30000, 1, None) == ScanResult(st, None, None);
  }

  lemma FirstIsCompleted(w: World, s: State, q: TaskSequence, a: Task, b: Task)
    requires a != b && w == PairWorld(q, a, b, FINISHED, FOLLOWER) && s.sequences == [q]
    ensures var s' := Step(w, s, SetTaskStatus("1", "a", COMPLETED)).state;
      && s'.queue == s.queue && s'.sequences == s.sequences && s'.end == s.end
      && s'.status == s.status[a := COMPLETED]
  {
    var m := ByIdAndName("1", "a");
    assert [a, b][0] == a && FirstMatching(w, s.status, [a, b], m) == Some(a);
    assert s.sequences[0] == q && s.sequences[1..] == [];
    hide SequenceStatus.Combined, StatusesIn, FirstMatching;
    assert SetMatching(w, s.sequences, s.status, s.seqStatus, m, COMPLETED).0 == s.status[a := COMPLETED];
  }

  lemma TwoSteps(w: World, s: State, op: Op, op': Op)
    ensures Run(w, Start(w, s), [op, op']).state == Step(w, Step(w, s, op).state, op').state
  {
    assert [op, op'][1..] == [op'] && [op'][1..] == [];
    var one := Exec(w, Start(w, s), op);
    assert Run(w, Exec(w, one, op'), []) == Exec(w, one, op');
    assert Run(w, one, [op']) == Exec(w, one, op');
  }

  /**
   The first task of the sequence is completed by a status update while it is still queued, and has
   expired at second 30. Its follower is then the only runnable task of the queue, but the scan
   marks the first task as expired before it comes to it, and the pop takes nothing.
   */
  lemma CompletedInQueueBlocksItsFollower(w: World, s: State, q: TaskSequence, a: Task, b: Task)
    requires a != b && w == PairWorld(q, a, b, FINISHED, FOLLOWER)
    requires Initial(w, s) && s.maxQueue >= 2 && !s.end
    ensures Lawful(w)
    ensures var reached := Run(w, Start(w, s), [AddSequence(q, true, {}), SetTaskStatus("1", "a", COMPLETED)]).state;
      && reached.queue == [a, b] && CanRun(w, reached.sequences, reached.status, b, 30000)
      && Passed(w, reached, b, 30000) && Pop(w, reached, 30000).1 == Nothing(None)
  {
    var op, op' := AddSequence(q, true, {}), SetTaskStatus("1", "a", COMPLETED);
    assert 0 in FOLLOWER.depIndexes;
    PairIsLawful(q, a, b, FINISHED, FOLLOWER);
    PairIsAdded(w, s, q, a, b);
    TwoSteps(w, s, op, op');
    var added := Step(w, s, op).state;
    assert added.sequences == [q];
    FirstIsCompleted(w, added, q, a, b);
    var reached := Step(w, added, op').state;
    hide Step, Lawful, Scan, CanRun;
    FinishedScan(w, reached, q, a, b);
    assert Blocks(w, reached.sequences, reached.queue[0], b, 30000);
  }

  // ----- an activation after the prerequisite has ended -----

  const LATE: TaskView :=
    NewMember("2", "b", 1).(times := Times(true, 60000, Some(60000), true, 90000, Some(90000), DEFAULT_MAX_DURATION, 0))

  lemma LateTimes(after: seq<TaskView>)
    requires CriticalTimes([NewMember("1", "a", 0), LATE], after, FOLLOWS, 0)
    ensures after[0] == FINISHED && after[1].dependent
    ensures after[1].expMaxActivation == 60000 && after[1].expMaxExpiration == 90000
  {
    var before := [NewMember("1", "a", 0), LATE];
    assert TimesInFields(before, after, FOLLOWS, 0, 0) && TimesInFields(before, after, FOLLOWS, 0, 1);
    assert 0 in FOLLOWS[1] && FOLLOWS[0] == [];
  }

  method MakeLateMembers() returns (q: TaskSequence, a: Task, b: Task)
    ensures fresh(q) && fresh(a) && fresh(b) && a != b && q.tasks == [a, b]
    ensures a.View() == NewMember("1", "a", 0) && b.View() == LATE
  {
    q, a, b := MakeMembers();
    ghost var va := a.View();
    var rc := b.SetActivationTime(60000, 0);
    assert a.View() == va;
  }

  /** The task that follows is activated at second 60, long after its prerequisite ends: it starts exactly then. */
  method MakeLateSequence() returns (q: TaskSequence, a: Task, b: Task)
    ensures a != b && q.tasks == [a, b] && a.View() == FINISHED
    ensures b.dependent && b.expMaxActivation == 60000 && b.expMaxExpiration == 90000
  {
    FollowsIsAcyclic();
    hide Cyclic, IsLongestChain, Solves, Scheduled, InRange, TimesInFields, CriticalTimes, TaskSequence.ScheduledAs;
    q, a, b := MakeLateMembers();
    assert q.Views() == [NewMember("1", "a", 0), LATE];
    var rc;
    ghost var starts;
    rc, starts := q.SetTaskDependency(FOLLOWS, 0);
    LateTimes(q.Views());
    assert q.Views()[0] == a.View() && q.Views()[1] == b.View();
  }

  // ----- a run that pops both tasks in the order of their dependency -----

  lemma FirstIsPopped(w: World, s: State, q: TaskSequence, a: Task, b: Task)
    requires a != b && w == PairWorld(q, a, b, FINISHED, FOLLOWER)
    requires s.queue == [a, b] && !s.end && StatusOf(s.status, a) == StatusOf(s.status, b) == IDLE
    ensures Pop(w, s, 1000) == (s.(wakeUp := false, queue := [b]), Popped(a))
  {
    NothingPurged(w, s.status, a, b);
    hide Without;
    assert s.queue[0] == a && s.queue[..0] + s.queue[1..] == [b];
    assert CanRun(w, s.sequences, s.status, a, 1000);
  }

  lemma FollowerIsPopped(w: World, s: State, q: TaskSequence, a: Task, b: Task)
    requires a != b && w == PairWorld(q, a, b, FINISHED, FOLLOWER)
    requires s.queue == [b] && s.sequences == [q] && !s.end
    requires StatusOf(s.status, a) == COMPLETED && StatusOf(s.status, b) == IDLE
    ensures Pop(w, s, 2000).1 == Popped(b)
  {
    assert [b][1..] == [] && Without(w, s.status, [b], ByStatus(EXPIRED)) == [b];
    hide Without;
    assert FindSequence(w, s.sequences, "uuid", "seq") == Some(q);
    assert FOLLOWER.depIndexes == [0] && w.Seq(q).tasks[0] == a;
    assert CanRun(w, s.sequences, s.status, b, 2000);
  }

  lemma ThreeSteps(w: World, s: State, x: Op, y: Op, z: Op)
    ensures var start := Start(w, s);
      && Run(w, start, [x, y, z]) == Exec(w, Exec(w, Exec(w, start, x), y), z)
      && (LegalRun(w, start, [x, y, z]) <==>
           && LegalStep(w, start, x) && LegalStep(w, Exec(w, start, x), y)
           && LegalStep(w, Exec(w, Exec(w, start, x), y), z))
  {
    var one := Exec(w, Start(w, s), x);
    var two := Exec(w, one, y);
    var three := Exec(w, two, z);
    assert [x, y, z][1..] == [y, z] && [y, z][1..] == [z] && [z][1..] == [];
    hide Exec, LegalStep;
    assert Run(w, three, []) == three && Run(w, two, [z]) == three && Run(w, one, [y, z]) == three;
    assert LegalRun(w, three, []);
    assert LegalRun(w, two, [z]) <==> LegalStep(w, two, z);
    assert LegalRun(w, one, [y, z]) <==> LegalStep(w, one, y) && LegalRun(w, two, [z]);
  }

  predicate Reached(s: State, queue: seq<Task>, q: TaskSequence, a: Task, b: Task, statusOfA: TaskStatus) {
    && s.queue == queue && s.sequences == [q] && !s.end
    && StatusOf(s.status, a) == statusOfA && StatusOf(s.status, b) == IDLE
  }

  lemma AddReaches(w: World, s: State, q: TaskSequence, a: Task, b: Task)
    requires a != b && w == PairWorld(q, a, b, FINISHED, FOLLOWER)
    requires s.queue == [] && s.sequences == [] && s.maxQueue >= 2 && !s.end
    ensures Reached(Step(w, s, AddSequence(q, true, {})).state, [a, b], q, a, b, IDLE)
  {
    assert 0 in FOLLOWER.depIndexes;
    PairIsLawful(q, a, b, FINISHED, FOLLOWER);
    PairIsAdded(w, s, q, a, b);
    hide Step, Lawful, World.Before;
  }

  lemma PopReaches(w: World, s: State, q: TaskSequence, a: Task, b: Task)
    requires a != b && w == PairWorld(q, a, b, FINISHED, FOLLOWER) && Reached(s, [a, b], q, a, b, IDLE)
    ensures var r := Step(w, s, PopTask(1000)); r.popped == [a] && Reached(r.state, [b], q, a, b, IDLE)
  {
    FirstIsPopped(w, s, q, a, b);
    hide Pop, Selected;
  }

  lemma UpdateReaches(w: World, s: State, q: TaskSequence, a: Task, b: Task)
    requires a != b && w == PairWorld(q, a, b, FINISHED, FOLLOWER) && Reached(s, [b], q, a, b, IDLE)
    ensures Reached(Step(w, s, SetTaskStatus("1", "a", COMPLETED)).state, [b], q, a, b, COMPLETED)
  {
    FirstIsCompleted(w, s, q, a, b);
    hide Step;
  }

  /** What the three steps do. */
  lemma StepsOfRun(w: World, s: State, q: TaskSequence, a: Task, b: Task)
    requires a != b && w == PairWorld(q, a, b, FINISHED, FOLLOWER)
    requires s.queue == [] && s.sequences == [] && s.maxQueue >= 2 && !s.end
    ensures var added := Step(w, s, AddSequence(q, true, {}));
      var popped := Step(w, added.state, PopTask(1000));
      && popped.popped == [a]
      && Pop(w, Step(w, popped.state, SetTaskStatus("1", "a", COMPLETED)).state, 2000).1 == Popped(b)
  {
    hide Step, Pop;
    AddReaches(w, s, q, a, b);
    var added := Step(w, s, AddSequence(q, true, {})).state;
    PopReaches(w, added, q, a, b);
    var popped := Step(w, added, PopTask(1000)).state;
    UpdateReaches(w, popped, q, a, b);
    FollowerIsPopped(w, Step(w, popped, SetTaskStatus("1", "a", COMPLETED)).state, q, a, b);
  }

  lemma UpdateIsLegal(w: World, tr: Trace, q: TaskSequence, a: Task, b: Task)
    requires a != b && w == PairWorld(q, a, b, FINISHED, FOLLOWER) && a in tr.popped
    ensures LegalStep(w, tr, SetTaskStatus("1", "a", COMPLETED))
  {
    forall t | t in w.tasks && HitBy(w, tr.state, SetTaskStatus("1", "a", COMPLETED), t)
      ensures t == a
    {
      assert "b"[0] != "a"[0];
      OnlyNamedIsHit(w, tr.state, "1", "a", COMPLETED, t);
    }
  }

  lemma PairIsChain(w: World, q: TaskSequence, a: Task, b: Task)
    requires a != b && w == PairWorld(q, a, b, FINISHED, FOLLOWER)
    ensures Lawful(w) && PrerequisiteChain(w, [b, a])
  {
    assert 0 in FOLLOWER.depIndexes && w.Seq(q).tasks[0] == a;
    PairIsLawful(q, a, b, FINISHED, FOLLOWER);
  }

  /**
   The run theorem about dependencies speaks of runs like this one: the sequence is added, its first
   task is popped and completed, and then its follower is popped.
   */
  lemma DependencyIsFollowed(w: World, s: State, q: TaskSequence, a: Task, b: Task)
    requires a != b && w == PairWorld(q, a, b, FINISHED, FOLLOWER)
    requires Initial(w, s) && s.maxQueue >= 2 && !s.end
    ensures Lawful(w) && PrerequisiteChain(w, [b, a])
    ensures var ops := [AddSequence(q, true, {}), PopTask(1000), SetTaskStatus("1", "a", COMPLETED)];
      && LegalRun(w, Start(w, s), ops)
      && Pop(w, Run(w, Start(w, s), ops).state, 2000).1 == Popped(b)
  {
    var x, y, z := AddSequence(q, true, {}), PopTask(1000), SetTaskStatus("1", "a", COMPLETED);
    PairIsChain(w, q, a, b);
    ThreeSteps(w, s, x, y, z);
    StepsOfRun(w, s, q, a, b);
    hide Step, Pop, Lawful, PrerequisiteChain, Run, LegalRun;
    UpdateIsLegal(w, Exec(w, Exec(w, Start(w, s), x), y), q, a, b);
  }

  lemma OnlyNamedIsHit(w: World, s: State, id: string, name: string, status: TaskStatus, t: Task)
    requires HitBy(w, s, SetTaskStatus(id, name, status), t)
    ensures w.View(t).id == id && w.View(t).name == name
  {
    var i :| 0 <= i < |s.sequences| &&
      FirstMatching(w, map[], w.Seq(s.sequences[i]).tasks, ByIdAndName(id, name)) == Some(t);
    FoundMatches(w, map[], w.Seq(s.sequences[i]).tasks, ByIdAndName(id, name));
  }
}

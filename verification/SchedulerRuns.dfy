/**
 Safety over whole runs of the task manager, for any number of add, pop, update, revoke, remove,
 flush, clear and signal steps at any times. A trace remembers what has gone through the queue.
 */
module SchedulerRuns {
  import opened Wrappers
  import opened Tasks
  import opened TaskSequences
  import opened Scheduler
  import opened QueueInvariants
  import opened StatusInvariants
  import opened PopProperties

  datatype Trace = Trace(
    state: State,
    entered: seq<Task>,
    popped: seq<Task>,
    purged: seq<Task>,
    dropped: seq<Task>,
    completed: set<Task>)   // every task that has been COMPLETED at some time

  ghost function CompletedNow(w: World, s: State): set<Task> {
    set t | t in w.tasks && StatusOf(s.status, t) == COMPLETED
  }

  ghost function Start(w: World, s: State): Trace {
    Trace(s, [], [], [], [], CompletedNow(w, s))
  }

  ghost function Exec(w: World, tr: Trace, op: Op): Trace {
    var r := Step(w, tr.state, op);
    Trace(r.state, tr.entered + r.entered, tr.popped + r.popped, tr.purged + r.purged,
          tr.dropped + r.dropped, tr.completed + CompletedNow(w, r.state))
  }

  ghost function Run(w: World, tr: Trace, ops: seq<Op>): Trace
    decreases |ops|
  {
    if ops == [] then tr else Run(w, Exec(w, tr, ops[0]), ops[1..])
  }

  /** Nothing queued, no sequences, nothing completed. */
  ghost predicate Initial(w: World, s: State) {
    s.queue == [] && s.sequences == [] && CompletedNow(w, s) == {} && s.maxQueue >= 0
  }

  /** A status update concerns only tasks that have been popped, whether or not they are queued again. */
  ghost predicate UpdatesPoppedOnly(w: World, tr: Trace, op: Op) {
    forall t :: t in w.tasks && HitBy(w, tr.state, op, t) ==> t in tr.popped
  }

  ghost predicate LegalStep(w: World, tr: Trace, op: Op) {
    KnownSequence(w, op) && UpdatesPoppedOnly(w, tr, op)
  }

  ghost predicate LegalRun(w: World, tr: Trace, ops: seq<Op>)
    decreases |ops|
  {
    ops != [] ==> LegalStep(w, tr, ops[0]) && LegalRun(w, Exec(w, tr, ops[0]), ops[1..])
  }

  // ----- conservation -----

  /** Every entry into the queue is accounted for by exactly one place. */
  ghost predicate Accounted(tr: Trace) {
    multiset(tr.entered) ==
      multiset(tr.state.queue) + multiset(tr.popped) + multiset(tr.purged) + multiset(tr.dropped)
  }

  lemma Regroup<T>(e: multiset<T>, q: multiset<T>, p: multiset<T>, u: multiset<T>, d: multiset<T>,
                   e': multiset<T>, q': multiset<T>, p': multiset<T>, u': multiset<T>, d': multiset<T>)
    requires e == q + p + u + d && q + e' == q' + p' + u' + d'
    ensures e + e' == q' + (p + p') + (u + u') + (d + d')
  {
    assert e + e' == (q + e') + (p + u + d);
    assert (q' + p' + u' + d') + (p + u + d) == q' + (p + p') + (u + u') + (d + d');
  }

  lemma {:induction false} ExecAccounts(w: World, tr: Trace, op: Op)
    requires Lawful(w) && QueueInOrder(w, tr.state) && KnownSequence(w, op) && Accounted(tr)
    ensures Accounted(Exec(w, tr, op))
  {
    var r := Step(w, tr.state, op);
    StepConserves(w, tr.state, op);
    Regroup(multiset(tr.entered), multiset(tr.state.queue), multiset(tr.popped), multiset(tr.purged),
            multiset(tr.dropped), multiset(r.entered), multiset(r.state.queue), multiset(r.popped),
            multiset(r.purged), multiset(r.dropped));
  }

  /** In every run the queue stays strictly sorted and no entry into it is lost or duplicated. */
  lemma {:induction false} RunConserves(w: World, tr: Trace, ops: seq<Op>)
    requires Lawful(w) && QueueInOrder(w, tr.state) && Accounted(tr)
    requires forall i :: 0 <= i < |ops| ==> KnownSequence(w, ops[i])
    ensures QueueInOrder(w, Run(w, tr, ops).state) && Accounted(Run(w, tr, ops))
    decreases |ops|
  {
    if ops != [] {
      StepKeepsOrder(w, tr.state, ops[0]);
      ExecAccounts(w, tr, ops[0]);
      RunConserves(w, Exec(w, tr, ops[0]), ops[1..]);
    }
  }

  /** A task that entered once is at each moment in exactly one place; in particular it is popped at most once. */
  lemma {:induction false} EnteredOnceIsInOnePlace(w: World, s: State, ops: seq<Op>, t: Task)
    requires Lawful(w) && Initial(w, s) && forall i :: 0 <= i < |ops| ==> KnownSequence(w, ops[i])
    requires multiset(Run(w, Start(w, s), ops).entered)[t] == 1
    ensures var tr := Run(w, Start(w, s), ops);
      multiset(tr.state.queue)[t] + multiset(tr.popped)[t] + multiset(tr.purged)[t] + multiset(tr.dropped)[t] == 1
  {
    RunConserves(w, Start(w, s), ops);
  }

  /** The quota may be raised at any time, but is never lowered. */
  ghost predicate QuotaNotLowered(w: World, tr: Trace, ops: seq<Op>)
    decreases |ops|
  {
    ops != [] ==>
      && (ops[0].SetMaxQueue? ==> ops[0].max >= tr.state.maxQueue)
      && QuotaNotLowered(w, Exec(w, tr, ops[0]), ops[1..])
  }

  /** In every run that does not lower the quota the queue stays within it. */
  lemma {:induction false} RunKeepsQuota(w: World, tr: Trace, ops: seq<Op>)
    requires Lawful(w) && QueueInOrder(w, tr.state) && |tr.state.queue| <= tr.state.maxQueue
    requires forall i :: 0 <= i < |ops| ==> KnownSequence(w, ops[i])
    requires QuotaNotLowered(w, tr, ops)
    ensures var s := Run(w, tr, ops).state; |s.queue| <= s.maxQueue
    decreases |ops|
  {
    if ops != [] {
      StepKeepsOrder(w, tr.state, ops[0]);
      StepKeepsQuota(w, tr.state, ops[0]);
      RunKeepsQuota(w, Exec(w, tr, ops[0]), ops[1..]);
    }
  }

  /** Every status update of the run spares the tasks that are queued at the time. */
  ghost predicate UpdatesSpareQueues(w: World, tr: Trace, ops: seq<Op>)
    decreases |ops|
  {
    ops != [] ==>
      UpdateSparesQueue(w, tr.state, ops[0]) && UpdatesSpareQueues(w, Exec(w, tr, ops[0]), ops[1..])
  }

  /** In every run whose updates spare queued tasks, a queued task is idle, or expired and about to be purged. */
  lemma {:induction false} RunKeepsQueuedIdle(w: World, tr: Trace, ops: seq<Op>)
    requires Lawful(w) && QueueInOrder(w, tr.state) && QueuedIdleOrExpired(tr.state)
    requires forall i :: 0 <= i < |ops| ==> KnownSequence(w, ops[i])
    requires UpdatesSpareQueues(w, tr, ops)
    ensures QueuedIdleOrExpired(Run(w, tr, ops).state)
    decreases |ops|
  {
    if ops != [] {
      StepKeepsOrder(w, tr.state, ops[0]);
      StepKeepsQueuedIdle(w, tr.state, ops[0]);
      RunKeepsQueuedIdle(w, Exec(w, tr, ops[0]), ops[1..]);
    }
  }

  // ----- prerequisites first -----

  /** `d` is recorded as a direct prerequisite of `t` in the sequence of `t`. */
  ghost predicate Prerequisite(w: World, t: Task, d: Task) {
    var v := w.View(t);
    v.inSequence && v.dependent &&
    exists q, i :: q in w.sequences && w.Seq(q).id == v.sequenceId && w.Seq(q).name == v.sequenceName
      && i in v.depIndexes && 0 <= i < |w.Seq(q).tasks| && w.Seq(q).tasks[i] == d
  }

  lemma {:induction false} FoundSequence(w: World, seqs: seq<TaskSequence>, id: string, name: string)
    ensures var found := FindSequence(w, seqs, id, name);
      found.Some? ==> found.value in seqs && w.Seq(found.value).id == id && w.Seq(found.value).name == name
  {
    if seqs != [] {
      FoundSequence(w, seqs[1..], id, name);
    }
  }

  lemma RunnableHasPrerequisites(w: World, s: State, t: Task, d: Task, now: int)
    requires Lawful(w) && QueueInOrder(w, s) && CanRun(w, s.sequences, s.status, t, now) && Prerequisite(w, t, d)
    ensures StatusOf(s.status, d) == COMPLETED && d in w.tasks
  {
    var v := w.View(t);
    var q, i :| q in w.sequences && w.Seq(q).id == v.sequenceId && w.Seq(q).name == v.sequenceName
      && i in v.depIndexes && 0 <= i < |w.Seq(q).tasks| && w.Seq(q).tasks[i] == d;
    FoundSequence(w, s.sequences, v.sequenceId, v.sequenceName);
    var found := FindSequence(w, s.sequences, v.sequenceId, v.sequenceName);
    assert found == Some(q);
    assert d in w.sequences[q].tasks;
  }

  /** What is completed was popped, and what was popped had its prerequisites completed. */
  ghost predicate PrerequisitesFirst(w: World, tr: Trace) {
    && QueueInOrder(w, tr.state)
    && CompletedNow(w, tr.state) <= tr.completed
    && (forall t :: t in w.tasks && t in tr.completed ==> t in tr.popped)
    && (forall t, d :: t in w.tasks && d in w.tasks && t in tr.popped && Prerequisite(w, t, d) ==> d in tr.completed)
  }

  lemma PoppedIsRunnable(w: World, s: State, now: int, d: Task)
    requires Lawful(w) && QueueInOrder(w, s)
    requires Pop(w, s, now).1.Popped? && Prerequisite(w, Pop(w, s, now).1.task, d)
    ensures d in CompletedNow(w, s)
  {
    var q := Without(w, s.status, s.queue, ByStatus(EXPIRED));
    var r := Scan(w, s.sequences, q, s.status, now, 0, None);
    ScanFindsRunnable(w, s.sequences, q, s.status, now, 0, None);
    RunnableHasPrerequisites(w, s.(status := r.status), q[r.runnable.value], d, now);
    ScanStatus(w, s.sequences, q, s.status, now, 0, None, d);
  }

  lemma OnlyPopsTake(w: World, s: State, op: Op, t: Task)
    requires t in Step(w, s, op).popped
    ensures op.PopTask? && Pop(w, s, op.now).1 == Popped(t)
  {
  }

  lemma ExecKeepsPrerequisitesFirst(w: World, tr: Trace, op: Op)
    requires Lawful(w) && LegalStep(w, tr, op) && PrerequisitesFirst(w, tr)
    ensures PrerequisitesFirst(w, Exec(w, tr, op))
  {
    hide Lawful, Step, Pop, Prerequisite, HitBy;
    var s, tr' := tr.state, Exec(w, tr, op);
    StepKeepsOrder(w, s, op);
    forall t | t in w.tasks && t in tr'.completed
      ensures t in tr'.popped
    {
      if t !in tr.completed {
        StepCompletes(w, s, op, t);
        assert t in tr.popped;
      }
    }
    forall t, d | t in w.tasks && d in w.tasks && t in tr'.popped && Prerequisite(w, t, d)
      ensures d in tr'.completed
    {
      if t !in tr.popped {
        OnlyPopsTake(w, s, op, t);
        PoppedIsRunnable(w, s, op.now, d);
      }
    }
  }

  lemma {:induction false} RunKeepsPrerequisitesFirst(w: World, tr: Trace, ops: seq<Op>)
    requires Lawful(w) && LegalRun(w, tr, ops) && PrerequisitesFirst(w, tr)
    ensures PrerequisitesFirst(w, Run(w, tr, ops))
    decreases |ops|
  {
    if ops != [] {
      ExecKeepsPrerequisitesFirst(w, tr, ops[0]);
      RunKeepsPrerequisitesFirst(w, Exec(w, tr, ops[0]), ops[1..]);
    }
  }

  /** Each task of the chain is a direct prerequisite of the one before it. */
  ghost predicate PrerequisiteChain(w: World, chain: seq<Task>) {
    && |chain| >= 2
    && (forall k :: 0 <= k < |chain| ==> chain[k] in w.tasks)
    && forall k :: 0 <= k < |chain| - 1 ==> Prerequisite(w, chain[k], chain[k + 1])
  }

  lemma {:induction false} ChainFollowsPopped(w: World, tr: Trace, chain: seq<Task>, k: nat)
    requires PrerequisitesFirst(w, tr) && PrerequisiteChain(w, chain)
    requires 1 <= k < |chain| && chain[1] in tr.completed && chain[1] in tr.popped
    ensures chain[k] in tr.completed && chain[k] in tr.popped
    decreases k
  {
    if k > 1 {
      ChainFollowsPopped(w, tr, chain, k - 1);
      assert Prerequisite(w, chain[k - 1], chain[k]);
    }
  }

  /**
   In every legal run a task is popped only after all of its direct and indirect prerequisites
   were popped and completed: the pops of a sequence are a linear extension of its dependencies.
   */
  lemma {:induction false} PopsFollowDependencies(w: World, s: State, ops: seq<Op>, now: int, chain: seq<Task>)
    requires Lawful(w) && Initial(w, s) && LegalRun(w, Start(w, s), ops)
    requires PrerequisiteChain(w, chain)
    requires Pop(w, Run(w, Start(w, s), ops).state, now).1 == Popped(chain[0])
    ensures var before := Run(w, Start(w, s), ops);
      chain[|chain| - 1] in before.popped && chain[|chain| - 1] in before.completed
  {
    var tr := Run(w, Start(w, s), ops);
    RunKeepsPrerequisitesFirst(w, Start(w, s), ops);
    PoppedIsRunnable(w, tr.state, now, chain[1]);
    ChainFollowsPopped(w, tr, chain, |chain| - 1);
  }

  // ----- revoked tasks -----

  /** The step does not queue a task of that name. */
  predicate DoesNotAdd(w: World, op: Op, name: string) {
    op.AddSequence? && op.toQueue ==> forall t :: t in w.Seq(op.sequence).tasks ==> w.View(t).name != name
  }

  ghost predicate NoneNamed(w: World, q: seq<Task>, name: string) {
    forall i :: 0 <= i < |q| ==> w.View(q[i]).name != name
  }

  lemma Outcomes(s: State, r: StepResult, t: Task)
    requires Conserves(s, r) && (t in r.state.queue || t in r.popped)
    ensures t in s.queue || t in r.entered
  {
    assert t in multiset(s.queue) + multiset(r.entered);
  }

  lemma StepStaysWithout(w: World, s: State, op: Op, name: string)
    requires Lawful(w) && QueueInOrder(w, s) && KnownSequence(w, op)
    requires DoesNotAdd(w, op, name) && NoneNamed(w, s.queue, name)
    ensures NoneNamed(w, Step(w, s, op).state.queue, name)
    ensures NoneNamed(w, Step(w, s, op).popped, name)
  {
    var r := Step(w, s, op);
    StepConserves(w, s, op);
    if op.AddSequence? {
      InsertAllKeepsSorted(w, s.queue, s.status, w.Seq(op.sequence).tasks, op.attrs);
    }
    StepKeepsOrder(w, s, op);
    forall i | 0 <= i < |r.state.queue|
      ensures w.View(r.state.queue[i]).name != name
    {
      Outcomes(s, r, r.state.queue[i]);
    }
    forall i | 0 <= i < |r.popped|
      ensures w.View(r.popped[i]).name != name
    {
      Outcomes(s, r, r.popped[i]);
    }
  }

  /** `later` extends `earlier` by tasks of other names. */
  ghost predicate ExtendsWithout(w: World, earlier: seq<Task>, later: seq<Task>, name: string) {
    |earlier| <= |later| && later[..|earlier|] == earlier && NoneNamed(w, later[|earlier|..], name)
  }

  lemma ExtendsTwice(w: World, a: seq<Task>, b: seq<Task>, c: seq<Task>, name: string)
    requires ExtendsWithout(w, a, b, name) && ExtendsWithout(w, b, c, name)
    ensures ExtendsWithout(w, a, c, name)
  {
    assert c[..|a|] == c[..|b|][..|a|];
    assert c[|a|..] == b[|a|..] + c[|b|..];
  }

  lemma {:induction false} RunStaysWithout(w: World, tr: Trace, ops: seq<Op>, name: string)
    requires Lawful(w) && QueueInOrder(w, tr.state) && NoneNamed(w, tr.state.queue, name)
    requires forall i :: 0 <= i < |ops| ==> KnownSequence(w, ops[i]) && DoesNotAdd(w, ops[i], name)
    ensures ExtendsWithout(w, tr.popped, Run(w, tr, ops).popped, name)
    decreases |ops|
  {
    if ops != [] {
      StepKeepsOrder(w, tr.state, ops[0]);
      StepStaysWithout(w, tr.state, ops[0], name);
      var next := Exec(w, tr, ops[0]);
      assert next.popped[|tr.popped|..] == Step(w, tr.state, ops[0]).popped;
      RunStaysWithout(w, next, ops[1..], name);
      ExtendsTwice(w, tr.popped, next.popped, Run(w, tr, ops).popped, name);
    }
  }

  /** After a task name has been revoked, no task of that name is popped until one is added again. */
  lemma RevokedIsNotPopped(w: World, tr: Trace, ops: seq<Op>, name: string)
    requires Lawful(w) && QueueInOrder(w, tr.state)
    requires forall i :: 0 <= i < |ops| ==> KnownSequence(w, ops[i]) && DoesNotAdd(w, ops[i], name)
    ensures ExtendsWithout(w, tr.popped, Run(w, Exec(w, tr, RevokeTask(name)), ops).popped, name)
  {
    var s := tr.state;
    StepKeepsOrder(w, s, RevokeTask(name));
    var revoked := Exec(w, tr, RevokeTask(name));
    forall i | 0 <= i < |revoked.state.queue|
      ensures w.View(revoked.state.queue[i]).name != name
    {
      RemainsInQueue(w, s, ByName(name), i);
    }
    assert revoked.popped == tr.popped;
    RunStaysWithout(w, revoked, ops, name);
  }

  // ----- clearing -----

  lemma {:induction false} RememberedMembers(
      w: World, sst: SeqStatusMap, seqs: seq<TaskSequence>, keep: Option<TaskStatus>, age: int, now: int,
      q: TaskSequence)
    ensures q in Remembered(w, sst, seqs, keep, age, now) <==> q in seqs && !Forgotten(w, sst, q, keep, age, now)
  {
    if seqs != [] {
      RememberedMembers(w, sst, seqs[1..], keep, age, now, q);
      assert seqs == [seqs[0]] + seqs[1..];
    }
  }

  /**
   `ClearCompletedSequenceTasks` keeps exactly the completed and the recent sequences: its
   filter is the opposite of its name.
   */
  lemma ClearCompletedForgetsTheOthers(w: World, s: State, age: int, now: int, q: TaskSequence)
    requires q in s.sequences && q in s.seqStatus
    ensures q in Step(w, s, ClearOld(Some(COMPLETED), age, now)).state.sequences
            <==> s.seqStatus[q] == COMPLETED || now - w.Seq(q).creation < age * 1000
  {
    RememberedMembers(w, s.seqStatus, s.sequences, Some(COMPLETED), age, now, q);
  }
}

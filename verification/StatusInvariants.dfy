/** How the operations of the task manager may change the statuses of tasks. */
module StatusInvariants {
  import opened Wrappers
  import opened Tasks
  import opened TaskSequences
  import opened Scheduler
  import opened QueueInvariants

  lemma {:induction false} InsertAllStatus(
      w: World, q: seq<Task>, st: StatusMap, tasks: seq<Task>, attrs: set<string>, u: Task)
    ensures var r := InsertAll(w, q, st, tasks, attrs);
      && (StatusOf(r.status, u) == StatusOf(st, u) || StatusOf(r.status, u) == IDLE)
      && (u in r.entered ==> StatusOf(r.status, u) == IDLE)
    decreases |tasks|
  {
    if tasks != [] && !(w.View(tasks[0]).isAsynch && w.View(tasks[0]).statusAttr !in attrs) {
      var t := tasks[0];
      assert StatusOf(st[t := IDLE], t) == IDLE;
      InsertAllStatus(w, Insert(w, q, t), st[t := IDLE], tasks[1..], attrs, u);
    }
  }

  /** Revoking only cancels idle tasks of the given name. */
  lemma {:induction false} RevokeStatus(
      w: World, st: StatusMap, tasks: seq<Task>, name: Option<string>, u: Task)
    ensures var st' := Revoke(w, st, tasks, name);
      || StatusOf(st', u) == StatusOf(st, u)
      || (StatusOf(st, u) == IDLE && StatusOf(st', u) == CANCELED && u in tasks
          && (name.None? || w.View(u).name == name.value))
    decreases |tasks|
  {
    if tasks != [] {
      if StatusOf(st, tasks[0]) == IDLE && (name.None? || w.View(tasks[0]).name == name.value) {
        RevokeStatus(w, st[tasks[0] := CANCELED], tasks[1..], name, u);
      } else {
        RevokeStatus(w, st, tasks[1..], name, u);
      }
    }
  }

  lemma {:induction false} RevokeAllStatus(
      w: World, seqs: seq<TaskSequence>, st: StatusMap, sst: SeqStatusMap,
      sequenceName: Option<string>, name: Option<string>, u: Task)
    ensures var st' := RevokeAll(w, seqs, st, sst, sequenceName, name).0;
      || StatusOf(st', u) == StatusOf(st, u)
      || (StatusOf(st, u) == IDLE && StatusOf(st', u) == CANCELED
          && (name.None? || w.View(u).name == name.value)
          && exists i :: 0 <= i < |seqs| && u in w.Seq(seqs[i]).tasks
               && (sequenceName.None? || w.Seq(seqs[i]).name == sequenceName.value))
    decreases |seqs|
  {
    if seqs != [] {
      var q := seqs[0];
      var tail := seqs[1..];
      assert forall i :: 0 <= i < |tail| ==> tail[i] == seqs[i + 1];
      if sequenceName.Some? && w.Seq(q).name != sequenceName.value {
        RevokeAllStatus(w, tail, st, sst, sequenceName, name, u);
      } else {
        var st' := Revoke(w, st, w.Seq(q).tasks, name);
        var sst' := if SomeRevoked(w, st, w.Seq(q).tasks, name)
                    then sst[q := SequenceStatus.Combined(StatusesIn(w, st', q))] else sst;
        RevokeStatus(w, st, w.Seq(q).tasks, name, u);
        RevokeAllStatus(w, tail, st', sst', sequenceName, name, u);
      }
    }
  }

  lemma {:induction false} FirstMatchingIgnoresStatus(
      w: World, st: StatusMap, st': StatusMap, tasks: seq<Task>, m: Match)
    requires !m.ByStatus?
    ensures FirstMatching(w, st, tasks, m) == FirstMatching(w, st', tasks, m)
  {
    if tasks != [] {
      FirstMatchingIgnoresStatus(w, st, st', tasks[1..], m);
    }
  }

  /** `t` is the task that an update by `m` hits in some sequence. */
  predicate Hit(w: World, seqs: seq<TaskSequence>, m: Match, t: Task) {
    exists i :: 0 <= i < |seqs| && FirstMatching(w, map[], w.Seq(seqs[i]).tasks, m) == Some(t)
  }

  lemma HitFirst(w: World, seqs: seq<TaskSequence>, m: Match, u: Task)
    requires seqs != []
    ensures Hit(w, seqs, m, u) <==>
      FirstMatching(w, map[], w.Seq(seqs[0]).tasks, m) == Some(u) || Hit(w, seqs[1..], m, u)
  {
    var tail := seqs[1..];
    if Hit(w, tail, m, u) {
      var i :| 0 <= i < |tail| && FirstMatching(w, map[], w.Seq(tail[i]).tasks, m) == Some(u);
      assert FirstMatching(w, map[], w.Seq(seqs[i + 1]).tasks, m) == Some(u);
    }
  }

  /** An update only changes the tasks it hits. */
  lemma {:induction false} SetMatchingStatus(
      w: World, seqs: seq<TaskSequence>, st: StatusMap, sst: SeqStatusMap, m: Match, status: TaskStatus, u: Task)
    requires !m.ByStatus?
    ensures var st' := SetMatching(w, seqs, st, sst, m, status).0;
      if Hit(w, seqs, m, u) then StatusOf(st', u) == status else StatusOf(st', u) == StatusOf(st, u)
    decreases |seqs|
  {
    if seqs != [] {
      var q := seqs[0];
      var tail := seqs[1..];
      FirstMatchingIgnoresStatus(w, st, map[], w.Seq(q).tasks, m);
      var found := FirstMatching(w, st, w.Seq(q).tasks, m);
      HitFirst(w, seqs, m, u);
      hide Hit, FirstMatching;
      if found.None? {
        SetMatchingStatus(w, tail, st, sst, m, status, u);
      } else {
        var st' := st[found.value := status];
        var sst' := if m.ByWatchedAttr? || w.View(found.value).inSequence
                    then sst[q := SequenceStatus.Combined(StatusesIn(w, st', q))] else sst;
        SetMatchingStatus(w, tail, st', sst', m, status, u);
      }
    }
  }

  /** A scan only marks tasks as expired. */
  lemma {:induction false} ScanStatus(
      w: World, seqs: seq<TaskSequence>, q: seq<Task>, st: StatusMap, now: int, i: nat, waiting: Option<nat>, u: Task)
    requires i <= |q| && (waiting.Some? ==> waiting.value < i)
    ensures var st' := Scan(w, seqs, q, st, now, i, waiting).status;
      StatusOf(st', u) == StatusOf(st, u) || StatusOf(st', u) == EXPIRED
    decreases |q| - i
  {
    if i < |q| && !CanRun(w, seqs, st, q[i], now) {
      if w.View(q[i]).times.ExpirationReached(now) {
        ScanStatus(w, seqs, q, st[q[i] := EXPIRED], now, i + 1, waiting, u);
      } else if w.View(q[i]).times.WaitingForActivation(now) && waiting.None? {
        ScanStatus(w, seqs, q, st, now, i + 1, Some(i), u);
      } else {
        ScanStatus(w, seqs, q, st, now, i + 1, waiting, u);
      }
    }
  }

  // ----- queued tasks are idle or expired -----

  ghost predicate QueuedIdleOrExpired(s: State) {
    forall i :: 0 <= i < |s.queue| ==> StatusOf(s.status, s.queue[i]) in {IDLE, EXPIRED}
  }

  /** A status update hits only tasks that are not waiting in the queue. */
  ghost predicate UpdateSparesQueue(w: World, s: State, op: Op) {
    forall i :: 0 <= i < |s.queue| ==>
      && (op.SetTaskStatus? ==> !Hit(w, s.sequences, ByIdAndName(op.id, op.taskName), s.queue[i]))
      && (op.SetAsynchStatus? ==> !Hit(w, s.sequences, ByWatchedAttr(op.attr), s.queue[i]))
  }

  /** The matching tasks leave, so what remains was queued before and does not match. */
  lemma RemainsInQueue(w: World, s: State, m: Match, i: nat)
    requires Sorted(w, s.queue) && i < |Without(w, s.status, s.queue, m)|
    ensures var t := Without(w, s.status, s.queue, m)[i];
      t in s.queue && !m.Matches(w.View(t), StatusOf(s.status, t)) && t in w.tasks
  {
    WithoutKeepsSorted(w, s.status, s.queue, m);
    WithoutMembers(w, s.status, s.queue, m);
  }

  lemma RevokeSparesQueue(w: World, s: State, m: Match, sequenceName: Option<string>, name: Option<string>)
    requires Lawful(w) && QueueInOrder(w, s) && QueuedIdleOrExpired(s)
    requires (m.BySequenceName? && sequenceName == Some(m.sequenceName)) || (m.ByName? && name == Some(m.name))
    ensures QueuedIdleOrExpired(RevokeStep(w, s, m, sequenceName, name).state)
  {
    var s' := RevokeStep(w, s, m, sequenceName, name).state;
    forall i | 0 <= i < |s'.queue|
      ensures StatusOf(s'.status, s'.queue[i]) in {IDLE, EXPIRED}
    {
      RemainsInQueue(w, s, m, i);
      RevokeAllStatus(w, s.sequences, s.status, s.seqStatus, sequenceName, name, s'.queue[i]);
    }
  }

  lemma RemovalSparesQueue(w: World, s: State, m: Match)
    requires Sorted(w, s.queue) && QueuedIdleOrExpired(s)
    ensures QueuedIdleOrExpired(RemoveMatching(w, s, m).state)
  {
    var s' := RemoveMatching(w, s, m).state;
    forall i | 0 <= i < |s'.queue|
      ensures StatusOf(s'.status, s'.queue[i]) in {IDLE, EXPIRED}
    {
      RemainsInQueue(w, s, m, i);
    }
  }

  lemma AddSparesQueue(w: World, s: State, q: TaskSequence, toQueue: bool, attrs: set<string>)
    requires Lawful(w) && QueueInOrder(w, s) && QueuedIdleOrExpired(s) && q in w.sequences
    ensures QueuedIdleOrExpired(AddStep(w, s, q, toQueue, attrs).state)
  {
    var tasks := w.Seq(q).tasks;
    var r := InsertAll(w, s.queue, s.status, tasks, attrs);
    InsertAllKeepsSorted(w, s.queue, s.status, tasks, attrs);
    forall i | 0 <= i < |r.queue|
      ensures StatusOf(r.status, r.queue[i]) in {IDLE, EXPIRED}
    {
      assert r.queue[i] in multiset(s.queue) + multiset(r.entered);
      InsertAllStatus(w, s.queue, s.status, tasks, attrs, r.queue[i]);
    }
  }

  lemma PopSparesQueue(w: World, s: State, now: int)
    requires Sorted(w, s.queue) && QueuedIdleOrExpired(s)
    ensures QueuedIdleOrExpired(PopStep(w, s, now).state)
  {
    if !s.end && s.queue != [] {
      var q := Without(w, s.status, s.queue, ByStatus(EXPIRED));
      var r := Scan(w, s.sequences, q, s.status, now, 0, None);
      forall i | 0 <= i < |q|
        ensures StatusOf(r.status, q[i]) in {IDLE, EXPIRED}
      {
        RemainsInQueue(w, s, ByStatus(EXPIRED), i);
        ScanStatus(w, s.sequences, q, s.status, now, 0, None, q[i]);
      }
    }
  }

  lemma SetSparesQueue(w: World, s: State, m: Match, status: TaskStatus)
    requires QueuedIdleOrExpired(s) && !m.ByStatus?
    requires forall i :: 0 <= i < |s.queue| ==> !Hit(w, s.sequences, m, s.queue[i])
    ensures QueuedIdleOrExpired(SetStep(w, s, m, status).state)
  {
    forall i | 0 <= i < |s.queue|
      ensures StatusOf(SetStep(w, s, m, status).state.status, s.queue[i]) == StatusOf(s.status, s.queue[i])
    {
      SetMatchingStatus(w, s.sequences, s.status, s.seqStatus, m, status, s.queue[i]);
    }
  }

  /** As long as updates spare the queue, every queued task is idle, or expired and about to be purged. */
  lemma StepKeepsQueuedIdle(w: World, s: State, op: Op)
    requires Lawful(w) && QueueInOrder(w, s) && KnownSequence(w, op)
    requires QueuedIdleOrExpired(s) && UpdateSparesQueue(w, s, op)
    ensures QueuedIdleOrExpired(Step(w, s, op).state)
  {
    match op {
      case AddSequence(q, toQueue, attrs) => AddSparesQueue(w, s, q, toQueue, attrs);
      case RemoveSequence(name) => RemovalSparesQueue(w, s, BySequenceName(name));
      case RevokeSequence(name) => RevokeSparesQueue(w, s, BySequenceName(name), Some(name), None);
      case RevokeTask(name) => RevokeSparesQueue(w, s, ByName(name), None, Some(name));
      case PopTask(now) => PopSparesQueue(w, s, now);
      case SetTaskStatus(id, name, status) => SetSparesQueue(w, s, ByIdAndName(id, name), status);
      case SetAsynchStatus(attr, status) => SetSparesQueue(w, s, ByWatchedAttr(attr), status);
      case _ =>
    }
  }

  // ----- only updates complete tasks -----

  predicate HitBy(w: World, s: State, op: Op, t: Task) {
    || (op.SetTaskStatus? && Hit(w, s.sequences, ByIdAndName(op.id, op.taskName), t))
    || (op.SetAsynchStatus? && Hit(w, s.sequences, ByWatchedAttr(op.attr), t))
  }

  /** A task becomes completed only by a status update that hits it. */
  lemma StepCompletes(w: World, s: State, op: Op, t: Task)
    requires StatusOf(Step(w, s, op).state.status, t) == COMPLETED
    ensures StatusOf(s.status, t) == COMPLETED || HitBy(w, s, op, t)
  {
    match op {
      case AddSequence(q, toQueue, attrs) =>
        InsertAllStatus(w, s.queue, s.status, w.Seq(q).tasks, attrs, t);
      case RevokeSequence(name) => RevokeAllStatus(w, s.sequences, s.status, s.seqStatus, Some(name), None, t);
      case RevokeTask(name) => RevokeAllStatus(w, s.sequences, s.status, s.seqStatus, None, Some(name), t);
      case PopTask(now) =>
        var q := Without(w, s.status, s.queue, ByStatus(EXPIRED));
        ScanStatus(w, s.sequences, q, s.status, now, 0, None, t);
      case SetTaskStatus(id, name, status) =>
        SetMatchingStatus(w, s.sequences, s.status, s.seqStatus, ByIdAndName(id, name), status, t);
      case SetAsynchStatus(attr, status) =>
        SetMatchingStatus(w, s.sequences, s.status, s.seqStatus, ByWatchedAttr(attr), status, t);
      case _ =>
    }
  }
}

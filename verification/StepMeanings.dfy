/**
 What every operation of the task manager does, in terms of the fields of tasks and sequences: which
 tasks are queued afterwards, which statuses change and to what, and what is stored. Nothing here
 speaks of the functions that describe the steps.
 */
module StepMeanings {
  import opened Wrappers
  import opened Tasks
  import opened TaskOrder
  import opened SequenceStatus
  import opened TaskSequences
  import opened Scheduler
  import opened QueueInvariants
  import opened StatusInvariants
  import opened PopProperties

  // ----- tasks and their sequences -----

  /** In a lawful world no task is in two sequences. */
  lemma TaskHasOneSequence(w: World, p: TaskSequence, q: TaskSequence, t: Task)
    requires Lawful(w) && p in w.sequences && q in w.sequences
    requires t in w.Seq(p).tasks && t in w.Seq(q).tasks
    ensures p == q
  {
    assert t in w.sequences[p].tasks && w.tasks[t].sequenceId == w.sequences[p].id;
    assert t in w.sequences[q].tasks && w.tasks[t].sequenceId == w.sequences[q].id;
    assert w.sequences[p].name == w.sequences[q].name;
  }

  /** Some stored sequence holds the task. */
  ghost predicate Stored(w: World, seqs: seq<TaskSequence>, t: Task) {
    exists i :: 0 <= i < |seqs| && t in w.Seq(seqs[i]).tasks
  }

  ghost predicate AllKnown(w: World, seqs: seq<TaskSequence>) {
    forall i :: 0 <= i < |seqs| ==> seqs[i] in w.sequences
  }

  /** The status of a sequence is the combined one of its tasks, given their statuses. */
  ghost predicate IsCombined(w: World, st: StatusMap, sst: SeqStatusMap, q: TaskSequence) {
    q in sst && sst[q] == Combined(set t | t in w.Seq(q).tasks :: StatusOf(st, t))
  }

  ghost predicate SameSeqStatus(before: SeqStatusMap, after: SeqStatusMap, q: TaskSequence) {
    (q in before <==> q in after) && (q in before ==> before[q] == after[q])
  }

  // ----- revoking -----

  /** The task can be revoked: it is idle and has the name, if one is given. */
  predicate Revocable(w: World, st: StatusMap, name: Option<string>, t: Task) {
    StatusOf(st, t) == IDLE && (name.None? || w.View(t).name == name.value)
  }

  predicate NamedSequence(w: World, sequenceName: Option<string>, q: TaskSequence) {
    sequenceName.None? || w.Seq(q).name == sequenceName.value
  }

  ghost predicate InNamedSequence(w: World, seqs: seq<TaskSequence>, sequenceName: Option<string>, t: Task) {
    exists i :: 0 <= i < |seqs| && NamedSequence(w, sequenceName, seqs[i]) && t in w.Seq(seqs[i]).tasks
  }

  lemma {:induction false} RevokeMeans(w: World, st: StatusMap, tasks: seq<Task>, name: Option<string>, u: Task)
    ensures StatusOf(Revoke(w, st, tasks, name), u) ==
      if u in tasks && Revocable(w, st, name, u) then CANCELED else StatusOf(st, u)
    decreases |tasks|
  {
    if tasks != [] {
      assert tasks == [tasks[0]] + tasks[1..];
      if Revocable(w, st, name, tasks[0]) {
        RevokeMeans(w, st[tasks[0] := CANCELED], tasks[1..], name, u);
      } else {
        RevokeMeans(w, st, tasks[1..], name, u);
      }
    }
  }

  lemma NamedSequenceTail(w: World, seqs: seq<TaskSequence>, sequenceName: Option<string>, t: Task)
    requires seqs != []
    ensures InNamedSequence(w, seqs, sequenceName, t) <==>
      (NamedSequence(w, sequenceName, seqs[0]) && t in w.Seq(seqs[0]).tasks)
      || InNamedSequence(w, seqs[1..], sequenceName, t)
  {
    if InNamedSequence(w, seqs[1..], sequenceName, t) {
      var i :| 0 <= i < |seqs[1..]| && NamedSequence(w, sequenceName, seqs[1..][i]) && t in w.Seq(seqs[1..][i]).tasks;
      assert NamedSequence(w, sequenceName, seqs[i + 1]);
    }
  }

  lemma {:induction false} RevokeAllMeans(
      w: World, seqs: seq<TaskSequence>, st: StatusMap, sst: SeqStatusMap,
      sequenceName: Option<string>, name: Option<string>, u: Task)
    ensures StatusOf(RevokeAll(w, seqs, st, sst, sequenceName, name).0, u) ==
      if Revocable(w, st, name, u) && InNamedSequence(w, seqs, sequenceName, u) then CANCELED else StatusOf(st, u)
    decreases |seqs|
  {
    if seqs != [] {
      var q := seqs[0];
      NamedSequenceTail(w, seqs, sequenceName, u);
      if NamedSequence(w, sequenceName, q) {
        var st' := Revoke(w, st, w.Seq(q).tasks, name);
        var sst' := if SomeRevoked(w, st, w.Seq(q).tasks, name) then sst[q := Combined(StatusesIn(w, st', q))] else sst;
        RevokeMeans(w, st, w.Seq(q).tasks, name, u);
        RevokeAllMeans(w, seqs[1..], st', sst', sequenceName, name, u);
      } else {
        RevokeAllMeans(w, seqs[1..], st, sst, sequenceName, name, u);
      }
    }
  }

  /** Some task of the sequence can be revoked. */
  predicate HasRevocable(w: World, st: StatusMap, name: Option<string>, q: TaskSequence) {
    exists t :: t in w.Seq(q).tasks && Revocable(w, st, name, t)
  }

  /** Equal statuses of its tasks give a sequence the same combined one. */
  lemma SameCombined(w: World, st: StatusMap, st': StatusMap, q: TaskSequence)
    requires forall t :: t in w.Seq(q).tasks ==> StatusOf(st, t) == StatusOf(st', t)
    ensures StatusesIn(w, st, q) == StatusesIn(w, st', q) == set t | t in w.Seq(q).tasks :: StatusOf(st', t)
  {
  }

  /** After the first sequence has been revoked, the rest of the revocation leaves its tasks alone. */
  lemma RevokedStays(
      w: World, seqs: seq<TaskSequence>, st: StatusMap, sst: SeqStatusMap,
      sequenceName: Option<string>, name: Option<string>, q: TaskSequence)
    requires Lawful(w) && AllKnown(w, seqs) && q in w.sequences && !HasRevocable(w, st, name, q)
    ensures forall t :: t in w.Seq(q).tasks ==>
      StatusOf(RevokeAll(w, seqs, st, sst, sequenceName, name).0, t) == StatusOf(st, t)
  {
    forall t | t in w.Seq(q).tasks
      ensures StatusOf(RevokeAll(w, seqs, st, sst, sequenceName, name).0, t) == StatusOf(st, t)
    {
      RevokeAllMeans(w, seqs, st, sst, sequenceName, name, t);
    }
  }

  lemma RevokeClears(w: World, st: StatusMap, name: Option<string>, p: TaskSequence, q: TaskSequence)
    requires Lawful(w) && p in w.sequences && q in w.sequences
    ensures var st' := Revoke(w, st, w.Seq(p).tasks, name);
      if q == p then !HasRevocable(w, st', name, q) else HasRevocable(w, st', name, q) == HasRevocable(w, st, name, q)
  {
    var st' := Revoke(w, st, w.Seq(p).tasks, name);
    forall t | t in w.Seq(q).tasks
      ensures Revocable(w, st', name, t) == (q != p && Revocable(w, st, name, t))
    {
      RevokeMeans(w, st, w.Seq(p).tasks, name, t);
      if q != p && t in w.Seq(p).tasks {
        TaskHasOneSequence(w, p, q, t);
      }
    }
  }

  lemma {:induction false} RevokeAllCombines(
      w: World, seqs: seq<TaskSequence>, st: StatusMap, sst: SeqStatusMap,
      sequenceName: Option<string>, name: Option<string>, q: TaskSequence)
    requires Lawful(w) && AllKnown(w, seqs) && q in w.sequences
    ensures var (st', sst') := RevokeAll(w, seqs, st, sst, sequenceName, name);
      if q in seqs && NamedSequence(w, sequenceName, q) && HasRevocable(w, st, name, q)
      then IsCombined(w, st', sst', q) else SameSeqStatus(sst, sst', q)
    decreases |seqs|
  {
    if seqs != [] {
      var p, tail := seqs[0], seqs[1..];
      assert AllKnown(w, tail) && seqs == [p] + tail;
      if NamedSequence(w, sequenceName, p) {
        var st1 := Revoke(w, st, w.Seq(p).tasks, name);
        var sst1 := if SomeRevoked(w, st, w.Seq(p).tasks, name) then sst[p := Combined(StatusesIn(w, st1, p))] else sst;
        assert SomeRevoked(w, st, w.Seq(p).tasks, name) == HasRevocable(w, st, name, p);
        RevokeClears(w, st, name, p, q);
        RevokeAllCombines(w, tail, st1, sst1, sequenceName, name, q);
        if q == p {
          RevokedStays(w, tail, st1, sst1, sequenceName, name, q);
          SameCombined(w, st1, RevokeAll(w, tail, st1, sst1, sequenceName, name).0, q);
        }
      } else {
        RevokeAllCombines(w, tail, st, sst, sequenceName, name, q);
      }
    }
  }

  /** Nothing but the queue and the statuses may differ. */
  predicate SameRest(s: State, s': State) {
    s'.sequences == s.sequences && s'.wakeUp == s.wakeUp && s'.end == s.end && s'.maxQueue == s.maxQueue
  }

  /**
   Revoking a sequence takes exactly its tasks off the queue, cancels exactly the idle tasks of the
   stored sequences of that name, and gives exactly those sequences that lost one a new combined
   status.
   */
  lemma RevokeSequenceMeans(w: World, s: State, name: string)
    requires Lawful(w) && QueueInOrder(w, s)
    ensures var s' := Step(w, s, RevokeSequence(name)).state;
      && SameRest(s, s')
      && (forall t :: t in s'.queue <==> t in s.queue && !(w.View(t).inSequence && w.View(t).sequenceName == name))
      && (forall t :: StatusOf(s'.status, t) ==
           if StatusOf(s.status, t) == IDLE
              && (exists i :: 0 <= i < |s.sequences| && w.Seq(s.sequences[i]).name == name
                    && t in w.Seq(s.sequences[i]).tasks)
           then CANCELED else StatusOf(s.status, t))
      && (forall q :: q in w.sequences ==>
           if q in s.sequences && w.Seq(q).name == name
              && (exists t :: t in w.Seq(q).tasks && StatusOf(s.status, t) == IDLE)
           then IsCombined(w, s'.status, s'.seqStatus, q) else SameSeqStatus(s.seqStatus, s'.seqStatus, q))
  {
    var s', none := Step(w, s, RevokeSequence(name)).state, None;
    WithoutMembers(w, s.status, s.queue, BySequenceName(name));
    forall t
      ensures StatusOf(s'.status, t) ==
        if Revocable(w, s.status, none, t) && InNamedSequence(w, s.sequences, Some(name), t)
        then CANCELED else StatusOf(s.status, t)
    {
      RevokeAllMeans(w, s.sequences, s.status, s.seqStatus, Some(name), none, t);
    }
    forall q | q in w.sequences
      ensures if q in s.sequences && NamedSequence(w, Some(name), q) && HasRevocable(w, s.status, none, q)
              then IsCombined(w, s'.status, s'.seqStatus, q) else SameSeqStatus(s.seqStatus, s'.seqStatus, q)
    {
      RevokeAllCombines(w, s.sequences, s.status, s.seqStatus, Some(name), none, q);
    }
    hide Step, IsCombined, SameSeqStatus, Lawful;
  }

  /**
   Revoking a task name takes exactly the tasks of that name off the queue, cancels exactly the idle
   ones of that name in stored sequences, and gives exactly the sequences that lost one a new
   combined status.
   */
  lemma RevokeTaskMeans(w: World, s: State, name: string)
    requires Lawful(w) && QueueInOrder(w, s)
    ensures var s' := Step(w, s, RevokeTask(name)).state;
      && SameRest(s, s')
      && (forall t :: t in s'.queue <==> t in s.queue && w.View(t).name != name)
      && (forall t :: StatusOf(s'.status, t) ==
           if StatusOf(s.status, t) == IDLE && w.View(t).name == name && Stored(w, s.sequences, t)
           then CANCELED else StatusOf(s.status, t))
      && (forall q :: q in w.sequences ==>
           if q in s.sequences
              && (exists t :: t in w.Seq(q).tasks && StatusOf(s.status, t) == IDLE && w.View(t).name == name)
           then IsCombined(w, s'.status, s'.seqStatus, q) else SameSeqStatus(s.seqStatus, s'.seqStatus, q))
  {
    var s', none := Step(w, s, RevokeTask(name)).state, None;
    WithoutMembers(w, s.status, s.queue, ByName(name));
    forall t
      ensures StatusOf(s'.status, t) ==
        if Revocable(w, s.status, Some(name), t) && InNamedSequence(w, s.sequences, none, t)
        then CANCELED else StatusOf(s.status, t)
      ensures InNamedSequence(w, s.sequences, none, t) <==> Stored(w, s.sequences, t)
    {
      RevokeAllMeans(w, s.sequences, s.status, s.seqStatus, none, Some(name), t);
    }
    forall q | q in w.sequences
      ensures if q in s.sequences && NamedSequence(w, none, q) && HasRevocable(w, s.status, Some(name), q)
              then IsCombined(w, s'.status, s'.seqStatus, q) else SameSeqStatus(s.seqStatus, s'.seqStatus, q)
    {
      RevokeAllCombines(w, s.sequences, s.status, s.seqStatus, none, Some(name), q);
    }
    hide Step, IsCombined, SameSeqStatus, Lawful, InNamedSequence, Stored;
  }

  // ----- adding -----

  /** The attribute that an asynchronous task watches is missing. */
  predicate Missing(w: World, attrs: set<string>, t: Task) {
    w.View(t).isAsynch && w.View(t).statusAttr !in attrs
  }

  /** The position of the first task whose attribute is missing. */
  lemma {:induction false} FirstMissing(w: World, tasks: seq<Task>, attrs: set<string>) returns (k: nat)
    ensures k <= |tasks| && (forall i :: 0 <= i < k ==> !Missing(w, attrs, tasks[i]))
    ensures k < |tasks| ==> Missing(w, attrs, tasks[k])
    decreases |tasks|
  {
    k := 0;
    if tasks != [] && !Missing(w, attrs, tasks[0]) {
      k := FirstMissing(w, tasks[1..], attrs);
      assert forall i :: 1 <= i <= |tasks[1..]| ==> tasks[i] == tasks[1..][i - 1];
      k := k + 1;
    }
  }

  /** Inserting stops at the first missing attribute; every task before it is queued and idle. */
  lemma {:induction false} InsertAllMeans(
      w: World, q: seq<Task>, st: StatusMap, tasks: seq<Task>, attrs: set<string>, k: nat, u: Task)
    requires Lawful(w) && Sorted(w, q) && forall t :: t in tasks ==> t in w.tasks
    requires k <= |tasks| && (forall i :: 0 <= i < k ==> !Missing(w, attrs, tasks[i]))
    requires k < |tasks| ==> Missing(w, attrs, tasks[k])
    ensures var r := InsertAll(w, q, st, tasks, attrs);
      && (r.ok <==> k == |tasks|)
      && (u in r.queue <==> u in q || u in tasks[..k])
      && StatusOf(r.status, u) == if u in tasks[..k] then IDLE else StatusOf(st, u)
    decreases |tasks|
  {
    if k > 0 {
      var t, q' := tasks[0], Insert(w, q, tasks[0]);
      InsertKeepsSorted(w, q, t);
      assert tasks[..k] == [t] + tasks[1..][..k - 1];
      assert forall i :: 0 <= i < |tasks[1..]| ==> tasks[1..][i] == tasks[i + 1];
      assert !Missing(w, attrs, t);
      hide Lawful, Sorted, Insert, Missing, World.View;
      InsertAllMeans(w, q', st[t := IDLE], tasks[1..], attrs, k - 1, u);
    }
  }

  /** Adding fails for an empty sequence and for one that does not fit, and then changes nothing. */
  lemma AddRefuses(w: World, s: State, q: TaskSequence, toQueue: bool, attrs: set<string>)
    requires w.Seq(q).tasks == [] || |s.queue| + |w.Seq(q).tasks| > s.maxQueue
    ensures Add(w, s, q, toQueue, attrs) == (s, [], -1)
  {
  }

  /** Otherwise it succeeds exactly if nothing is to be queued, or no task lacks its status attribute. */
  lemma AddSucceedsIff(w: World, s: State, q: TaskSequence, toQueue: bool, attrs: set<string>)
    requires Lawful(w) && QueueInOrder(w, s) && q in w.sequences
    ensures Add(w, s, q, toQueue, attrs).2 == 0 <==>
      && w.Seq(q).tasks != [] && |s.queue| + |w.Seq(q).tasks| <= s.maxQueue
      && (toQueue ==> forall t :: t in w.Seq(q).tasks && w.View(t).isAsynch ==> w.View(t).statusAttr in attrs)
    ensures Add(w, s, q, toQueue, attrs).2 in {0, -1}
  {
    SequenceTasksAreKnown(w, q);
    var tasks := w.Seq(q).tasks;
    var k := FirstMissing(w, tasks, attrs);
    assert k < |tasks| ==> tasks[k] in tasks;
    if toQueue && tasks != [] {
      InsertAllMeans(w, s.queue, s.status, tasks, attrs, k, tasks[0]);
    }
  }

  /**
   A successful call stores the sequence behind the others and wakes the manager up. If asked to, it
   queues exactly the tasks of the sequence besides those already queued and makes them idle;
   if not, queue and statuses stay.
   */
  lemma AddMeans(w: World, s: State, q: TaskSequence, toQueue: bool, attrs: set<string>)
    requires Lawful(w) && QueueInOrder(w, s) && q in w.sequences
    requires Add(w, s, q, toQueue, attrs).2 == 0
    ensures var s' := Step(w, s, AddSequence(q, toQueue, attrs)).state;
      && s'.sequences == s.sequences + [q] && s'.wakeUp
      && s'.seqStatus == s.seqStatus && s'.end == s.end && s'.maxQueue == s.maxQueue
      && (!toQueue ==> s'.queue == s.queue && s'.status == s.status)
      && (toQueue ==> forall t :: t in s'.queue <==> t in s.queue || t in w.Seq(q).tasks)
      && (toQueue ==>
           forall t :: StatusOf(s'.status, t) == if t in w.Seq(q).tasks then IDLE else StatusOf(s.status, t))
  {
    SequenceTasksAreKnown(w, q);
    var tasks := w.Seq(q).tasks;
    var k := FirstMissing(w, tasks, attrs);
    if toQueue {
      forall t
        ensures var r := InsertAll(w, s.queue, s.status, tasks, attrs);
          && (r.ok <==> k == |tasks|)
          && (t in r.queue <==> t in s.queue || t in tasks[..k])
          && StatusOf(r.status, t) == if t in tasks[..k] then IDLE else StatusOf(s.status, t)
      {
        InsertAllMeans(w, s.queue, s.status, tasks, attrs, k, t);
      }
      InsertAllMeans(w, s.queue, s.status, tasks, attrs, k, tasks[0]);
      hide InsertAll, Lawful;
      assert tasks[..|tasks|] == tasks;
    }
  }

  /** A missing attribute stops the call: the tasks before it stay queued and idle, and nothing is stored. */
  lemma AddStopsAtMissing(w: World, s: State, q: TaskSequence, attrs: set<string>, k: nat)
    requires Lawful(w) && QueueInOrder(w, s) && q in w.sequences
    requires |s.queue| + |w.Seq(q).tasks| <= s.maxQueue && k < |w.Seq(q).tasks|
    requires w.View(w.Seq(q).tasks[k]).isAsynch && w.View(w.Seq(q).tasks[k]).statusAttr !in attrs
    requires forall i :: 0 <= i < k && w.View(w.Seq(q).tasks[i]).isAsynch ==>
      w.View(w.Seq(q).tasks[i]).statusAttr in attrs
    ensures var s' := Step(w, s, AddSequence(q, true, attrs)).state;
      && Add(w, s, q, true, attrs).2 == -1
      && SameRest(s, s') && s'.seqStatus == s.seqStatus
      && (forall t :: t in s'.queue <==> t in s.queue || t in w.Seq(q).tasks[..k])
      && (forall t :: StatusOf(s'.status, t) ==
           if t in w.Seq(q).tasks[..k] then IDLE else StatusOf(s.status, t))
  {
    SequenceTasksAreKnown(w, q);
    var tasks := w.Seq(q).tasks;
    forall t
      ensures var r := InsertAll(w, s.queue, s.status, tasks, attrs);
        && (t in r.queue <==> t in s.queue || t in tasks[..k])
        && StatusOf(r.status, t) == if t in tasks[..k] then IDLE else StatusOf(s.status, t)
    {
      InsertAllMeans(w, s.queue, s.status, tasks, attrs, k, t);
    }
    InsertAllMeans(w, s.queue, s.status, tasks, attrs, k, tasks[0]);
    hide InsertAll, Lawful;
  }

  // ----- status updates -----

  /** A search in a sequence finds its first task that matches. */
  lemma {:induction false} FirstMatchingMeans(w: World, st: StatusMap, tasks: seq<Task>, m: Match, u: Task)
    ensures FirstMatching(w, st, tasks, m) == Some(u) <==>
      exists k :: 0 <= k < |tasks| && tasks[k] == u && m.Matches(w.View(u), StatusOf(st, u))
        && forall j :: 0 <= j < k ==> !m.Matches(w.View(tasks[j]), StatusOf(st, tasks[j]))
    ensures FirstMatching(w, st, tasks, m).None? <==>
      forall j :: 0 <= j < |tasks| ==> !m.Matches(w.View(tasks[j]), StatusOf(st, tasks[j]))
    decreases |tasks|
  {
    if tasks != [] && !m.Matches(w.View(tasks[0]), StatusOf(st, tasks[0])) {
      var tail := tasks[1..];
      FirstMatchingMeans(w, st, tail, m, u);
      assert forall j :: 0 <= j < |tail| ==> tail[j] == tasks[j + 1];
      if k :| 0 <= k < |tail| && tail[k] == u && m.Matches(w.View(u), StatusOf(st, u))
              && forall j :: 0 <= j < k ==> !m.Matches(w.View(tail[j]), StatusOf(st, tail[j])) {
        assert tasks[k + 1] == u;
      }
      if k :| 0 <= k < |tasks| && tasks[k] == u && m.Matches(w.View(u), StatusOf(st, u))
              && forall j :: 0 <= j < k ==> !m.Matches(w.View(tasks[j]), StatusOf(st, tasks[j])) {
        assert k > 0 && tail[k - 1] == u;
        assert forall j :: 0 <= j < k - 1 ==> tail[j] == tasks[j + 1];
      }
    }
  }

  lemma SameIdIsSameTask(w: World, t: Task, u: Task)
    requires Lawful(w) && t in w.tasks && u in w.tasks
    requires w.View(t).id == w.View(u).id && w.View(t).name == w.View(u).name
    ensures t == u
  {
  }

  /** With unique names and ids there is one task to find. */
  lemma FoundByNameIff(w: World, st: StatusMap, q: TaskSequence, id: string, name: string, u: Task)
    requires Lawful(w) && q in w.sequences
    ensures FirstMatching(w, st, w.Seq(q).tasks, ByIdAndName(id, name)) == Some(u) <==>
      u in w.Seq(q).tasks && w.View(u).id == id && w.View(u).name == name
  {
    var tasks, m := w.Seq(q).tasks, ByIdAndName(id, name);
    FoundMatches(w, st, tasks, m);
    SequenceTasksAreKnown(w, q);
    var found := FirstMatching(w, st, tasks, m);
    hide FirstMatching, Lawful;
    if u in tasks && w.View(u).id == id && w.View(u).name == name {
      assert m.Matches(w.View(u), StatusOf(st, u));
      SameIdIsSameTask(w, u, found.value);
    }
  }

  lemma {:induction false} FoundMatches(w: World, st: StatusMap, tasks: seq<Task>, m: Match)
    ensures var found := FirstMatching(w, st, tasks, m);
      && (found.Some? ==> found.value in tasks && m.Matches(w.View(found.value), StatusOf(st, found.value)))
      && forall u :: u in tasks && m.Matches(w.View(u), StatusOf(st, u)) ==> found.Some?
  {
    if tasks != [] {
      FoundMatches(w, st, tasks[1..], m);
      assert tasks == [tasks[0]] + tasks[1..];
    }
  }

  /** An update leaves every sequence in which it found a task with a new combined status. */
  lemma {:induction false} SetMatchingCombines(
      w: World, seqs: seq<TaskSequence>, st: StatusMap, sst: SeqStatusMap, m: Match, status: TaskStatus,
      q: TaskSequence)
    requires Lawful(w) && AllKnown(w, seqs) && q in w.sequences && !m.ByStatus?
    ensures var (st', sst') := SetMatching(w, seqs, st, sst, m, status);
      if q in seqs && FirstMatching(w, map[], w.Seq(q).tasks, m).Some?
      then IsCombined(w, st', sst', q) else SameSeqStatus(sst, sst', q)
    decreases |seqs|
  {
    if seqs != [] {
      var p, tail := seqs[0], seqs[1..];
      assert AllKnown(w, tail) && seqs == [p] + tail;
      FirstMatchingIgnoresStatus(w, st, map[], w.Seq(p).tasks, m);
      var found := FirstMatching(w, st, w.Seq(p).tasks, m);
      if found.None? {
        SetMatchingCombines(w, tail, st, sst, m, status, q);
      } else {
        FoundIsInSequence(w, st, p, m);
        var st1 := st[found.value := status];
        var sst1 := sst[p := Combined(StatusesIn(w, st1, p))];
        SetMatchingCombines(w, tail, st1, sst1, m, status, q);
        if q == p && q !in tail {
          SettingOthersStays(w, tail, st1, sst1, m, status, q);
          SameCombined(w, st1, SetMatching(w, tail, st1, sst1, m, status).0, q);
        }
      }
    }
  }

  lemma FoundIsInSequence(w: World, st: StatusMap, p: TaskSequence, m: Match)
    requires Lawful(w) && p in w.sequences && FirstMatching(w, st, w.Seq(p).tasks, m).Some?
    ensures var u := FirstMatching(w, st, w.Seq(p).tasks, m).value; u in w.Seq(p).tasks && w.View(u).inSequence
  {
    var u := FirstMatching(w, st, w.Seq(p).tasks, m).value;
    FoundMatches(w, st, w.Seq(p).tasks, m);
    assert u in w.sequences[p].tasks;
  }

  /** Updates of other sequences leave the tasks of this one alone. */
  lemma SettingOthersStays(
      w: World, seqs: seq<TaskSequence>, st: StatusMap, sst: SeqStatusMap, m: Match, status: TaskStatus,
      q: TaskSequence)
    requires Lawful(w) && AllKnown(w, seqs) && q in w.sequences && q !in seqs && !m.ByStatus?
    ensures forall t :: t in w.Seq(q).tasks ==>
      StatusOf(SetMatching(w, seqs, st, sst, m, status).0, t) == StatusOf(st, t)
  {
    forall t | t in w.Seq(q).tasks
      ensures StatusOf(SetMatching(w, seqs, st, sst, m, status).0, t) == StatusOf(st, t)
    {
      SetMatchingStatus(w, seqs, st, sst, m, status, t);
      if Hit(w, seqs, m, t) {
        var i :| 0 <= i < |seqs| && FirstMatching(w, map[], w.Seq(seqs[i]).tasks, m) == Some(t);
        FoundIsInSequence(w, map[], seqs[i], m);
        TaskHasOneSequence(w, q, seqs[i], t);
      }
    }
  }

  /**
   A status update by id and name gives the status to exactly the tasks with both in stored
   sequences, and exactly the stored sequences that hold one a new combined status.
   */
  lemma SetTaskStatusMeans(w: World, s: State, id: string, name: string, status: TaskStatus)
    requires Lawful(w) && QueueInOrder(w, s)
    ensures var s' := Step(w, s, SetTaskStatus(id, name, status)).state;
      && SameRest(s, s') && s'.queue == s.queue
      && (forall t :: StatusOf(s'.status, t) ==
           if Stored(w, s.sequences, t) && w.View(t).id == id && w.View(t).name == name
           then status else StatusOf(s.status, t))
      && (forall q :: q in w.sequences ==>
           if q in s.sequences && exists t :: t in w.Seq(q).tasks && w.View(t).id == id && w.View(t).name == name
           then IsCombined(w, s'.status, s'.seqStatus, q) else SameSeqStatus(s.seqStatus, s'.seqStatus, q))
  {
    var s', m := Step(w, s, SetTaskStatus(id, name, status)).state, ByIdAndName(id, name);
    assert AllKnown(w, s.sequences);
    forall t
      ensures StatusOf(s'.status, t) ==
        if Stored(w, s.sequences, t) && w.View(t).id == id && w.View(t).name == name
        then status else StatusOf(s.status, t)
    {
      SetMatchingStatus(w, s.sequences, s.status, s.seqStatus, m, status, t);
      HitByNameIff(w, s.sequences, id, name, t);
    }
    forall q | q in w.sequences
      ensures if q in s.sequences && exists t :: t in w.Seq(q).tasks && w.View(t).id == id && w.View(t).name == name
              then IsCombined(w, s'.status, s'.seqStatus, q) else SameSeqStatus(s.seqStatus, s'.seqStatus, q)
    {
      SetMatchingCombines(w, s.sequences, s.status, s.seqStatus, m, status, q);
      HasNamedIff(w, q, id, name);
    }
    hide Step, IsCombined, SameSeqStatus, Lawful, Stored;
  }

  lemma HitByNameIff(w: World, seqs: seq<TaskSequence>, id: string, name: string, t: Task)
    requires Lawful(w) && AllKnown(w, seqs)
    ensures Hit(w, seqs, ByIdAndName(id, name), t) <==>
      Stored(w, seqs, t) && w.View(t).id == id && w.View(t).name == name
  {
    forall i | 0 <= i < |seqs|
      ensures FirstMatching(w, map[], w.Seq(seqs[i]).tasks, ByIdAndName(id, name)) == Some(t) <==>
        t in w.Seq(seqs[i]).tasks && w.View(t).id == id && w.View(t).name == name
    {
      FoundByNameIff(w, map[], seqs[i], id, name, t);
    }
  }

  lemma HasNamedIff(w: World, q: TaskSequence, id: string, name: string)
    ensures FirstMatching(w, map[], w.Seq(q).tasks, ByIdAndName(id, name)).Some? <==>
      exists t :: t in w.Seq(q).tasks && w.View(t).id == id && w.View(t).name == name
  {
    FoundMatches(w, map[], w.Seq(q).tasks, ByIdAndName(id, name));
    hide FirstMatching;
  }

  /**
   An update of a watched attribute gives the status, in each stored sequence, to exactly the first
   asynchronous task that watches it, and a new combined status to exactly the sequences that have one.
   */
  lemma SetAsynchStatusMeans(w: World, s: State, attr: string, status: TaskStatus)
    requires Lawful(w) && QueueInOrder(w, s)
    ensures var s' := Step(w, s, SetAsynchStatus(attr, status)).state;
      && SameRest(s, s') && s'.queue == s.queue
      && (forall t :: StatusOf(s'.status, t) ==
           if exists i :: 0 <= i < |s.sequences| && FirstWatching(w, w.Seq(s.sequences[i]).tasks, attr, t)
           then status else StatusOf(s.status, t))
      && (forall q :: q in w.sequences ==>
           if q in s.sequences && exists t :: t in w.Seq(q).tasks && Watching(w, attr, t)
           then IsCombined(w, s'.status, s'.seqStatus, q) else SameSeqStatus(s.seqStatus, s'.seqStatus, q))
  {
    var s', m := Step(w, s, SetAsynchStatus(attr, status)).state, ByWatchedAttr(attr);
    assert AllKnown(w, s.sequences);
    forall t
      ensures StatusOf(s'.status, t) ==
        if exists i :: 0 <= i < |s.sequences| && FirstWatching(w, w.Seq(s.sequences[i]).tasks, attr, t)
        then status else StatusOf(s.status, t)
    {
      SetMatchingStatus(w, s.sequences, s.status, s.seqStatus, m, status, t);
      HitByWatchingIff(w, s.sequences, attr, t);
    }
    forall q | q in w.sequences
      ensures if q in s.sequences && exists t :: t in w.Seq(q).tasks && Watching(w, attr, t)
              then IsCombined(w, s'.status, s'.seqStatus, q) else SameSeqStatus(s.seqStatus, s'.seqStatus, q)
    {
      SetMatchingCombines(w, s.sequences, s.status, s.seqStatus, m, status, q);
      HasWatchingIff(w, q, attr);
    }
    hide Step, IsCombined, SameSeqStatus, Lawful, FirstWatching, Watching;
  }

  predicate Watching(w: World, attr: string, t: Task) {
    w.View(t).isAsynch && w.View(t).statusAttr == attr && attr != ""
  }

  predicate FirstWatching(w: World, tasks: seq<Task>, attr: string, t: Task) {
    exists k :: 0 <= k < |tasks| && tasks[k] == t && Watching(w, attr, t)
      && forall j :: 0 <= j < k ==> !Watching(w, attr, tasks[j])
  }

  lemma FirstWatchingIff(w: World, tasks: seq<Task>, attr: string, t: Task)
    ensures FirstMatching(w, map[], tasks, ByWatchedAttr(attr)) == Some(t) <==> FirstWatching(w, tasks, attr, t)
  {
    FirstMatchingMeans(w, map[], tasks, ByWatchedAttr(attr), t);
    hide FirstMatching;
  }

  lemma HitByWatchingIff(w: World, seqs: seq<TaskSequence>, attr: string, t: Task)
    ensures Hit(w, seqs, ByWatchedAttr(attr), t) <==>
      exists i :: 0 <= i < |seqs| && FirstWatching(w, w.Seq(seqs[i]).tasks, attr, t)
  {
    forall i | 0 <= i < |seqs|
      ensures FirstMatching(w, map[], w.Seq(seqs[i]).tasks, ByWatchedAttr(attr)) == Some(t)
        <==> FirstWatching(w, w.Seq(seqs[i]).tasks, attr, t)
    {
      FirstWatchingIff(w, w.Seq(seqs[i]).tasks, attr, t);
    }
    hide FirstWatching, FirstMatching;
  }

  /** The tasks that an operation hits, by which the run theorems speak of status updates, in fields. */
  lemma HitByMeans(w: World, s: State, op: Op, t: Task)
    requires Lawful(w) && QueueInOrder(w, s)
    ensures HitBy(w, s, op, t) <==>
      || (op.SetTaskStatus? && Stored(w, s.sequences, t) && w.View(t).id == op.id && w.View(t).name == op.taskName)
      || (op.SetAsynchStatus?
          && exists i :: 0 <= i < |s.sequences| && FirstWatching(w, w.Seq(s.sequences[i]).tasks, op.attr, t))
  {
    assert AllKnown(w, s.sequences);
    if op.SetTaskStatus? {
      HitByNameIff(w, s.sequences, op.id, op.taskName, t);
    } else if op.SetAsynchStatus? {
      HitByWatchingIff(w, s.sequences, op.attr, t);
    }
  }

  lemma HasWatchingIff(w: World, q: TaskSequence, attr: string)
    ensures FirstMatching(w, map[], w.Seq(q).tasks, ByWatchedAttr(attr)).Some? <==>
      exists t :: t in w.Seq(q).tasks && Watching(w, attr, t)
  {
    FoundMatches(w, map[], w.Seq(q).tasks, ByWatchedAttr(attr));
    hide FirstMatching;
  }

  // ----- popping -----

  /** When a call returns, and that it takes the wake-up signal with it. */
  lemma PopSignals(w: World, s: State, now: int)
    ensures var (s', outcome) := Pop(w, s, now);
      && (outcome.Blocked? <==> s.queue == [] && !s.wakeUp && !s.end)
      && (outcome.Ended? <==> s.end)
      && (outcome.Empty? <==> s.queue == [] && s.wakeUp && !s.end)
      && (outcome.Blocked? ==> s' == s)
      && (outcome.Ended? || outcome.Empty? ==> s' == s.(wakeUp := false))
      && s'.wakeUp == false
      && s'.sequences == s.sequences && s'.seqStatus == s.seqStatus && s'.end == s.end && s'.maxQueue == s.maxQueue
  {
    hide Scan;
  }

  lemma {:induction false} ScanMarks(
      w: World, seqs: seq<TaskSequence>, q: seq<Task>, st: StatusMap, now: int, i: nat, waiting: Option<nat>)
    requires i <= |q| && (waiting.Some? ==> waiting.value < i)
    ensures var r := Scan(w, seqs, q, MarkedTo(w, q, st, now, i), now, i, waiting);
      r.status == MarkedTo(w, q, st, now, if r.runnable.Some? then r.runnable.value else |q|)
    decreases |q| - i
  {
    if i < |q| {
      var waiting' := ScanMarkedNext(w, seqs, q, st, now, i, waiting);
      hide CanRun, MarkedTo, Scan;
      if !CanRun(w, seqs, MarkedTo(w, q, st, now, i), q[i], now) {
        ScanMarks(w, seqs, q, st, now, i + 1, waiting');
      }
    }
  }

  /** The pop of a queue that is not empty, in terms of its scan. */
  lemma PopOfScan(w: World, s: State, q: seq<Task>, now: int)
    requires !s.end && q == Without(w, s.status, s.queue, ByStatus(EXPIRED)) && s.queue != []
    ensures var ((s', outcome), r) := (Pop(w, s, now), ScanOf(w, s, q, now));
      && s'.queue == (if r.Some? then q[..r.value] + q[r.value + 1..] else q)
      && s'.status == MarkedTo(w, q, s.status, now, if r.Some? then r.value else |q|)
      && (r.Some? ==> outcome == Popped(q[r.value]))
      && (r.None? ==> outcome.Nothing?)
  {
    ScanMarks(w, s.sequences, q, s.status, now, 0, None);
  }

  lemma RemovedMembers(w: World, q: seq<Task>, i: nat)
    requires Lawful(w) && Sorted(w, q) && i < |q|
    ensures forall t :: t in q[..i] + q[i + 1..] <==> t in q && t != q[i]
    ensures forall t :: t in q[..i] <==> t in q && w.Before(t, q[i])
  {
    forall t | t in q[..i] || t in q[i + 1..]
      ensures t in q && t != q[i] && (t in q[..i] ==> w.Before(t, q[i]))
    {
      if t in q[..i] {
        var k :| 0 <= k < i && q[k] == t;
        SortedIsDistinct(w, q, k, i);
      } else {
        var k :| 0 <= k < |q[i + 1..]| && q[i + 1..][k] == t;
        SortedIsDistinct(w, q, i, i + 1 + k);
      }
    }
    forall t | t in q
      ensures t == q[i] || t in q[..i] || t in q[i + 1..]
      ensures w.Before(t, q[i]) ==> t in q[..i]
    {
      var k :| 0 <= k < |q| && q[k] == t;
      assert k > i ==> q[i + 1..][k - i - 1] == t;
      assert k < i ==> q[..i][k] == t;
      BeforeIsTotal(w, t, q[i]);
    }
  }

  /** The queue that a pop leaves, in terms of its scan. */
  lemma PopLeaves(w: World, s: State, q: seq<Task>, now: int)
    requires Lawful(w) && QueueInOrder(w, s) && !s.end && s.queue != []
    requires q == Without(w, s.status, s.queue, ByStatus(EXPIRED))
    ensures var (s', outcome) := Pop(w, s, now);
      && (outcome.Popped? || outcome.Nothing?)
      && forall t :: t in s'.queue <==> t in s.queue && StatusOf(s.status, t) != EXPIRED && outcome != Popped(t)
  {
    WithoutMembers(w, s.status, s.queue, ByStatus(EXPIRED));
    WithoutKeepsSorted(w, s.status, s.queue, ByStatus(EXPIRED));
    PopOfScan(w, s, q, now);
    var r := ScanOf(w, s, q, now);
    if r.Some? {
      RemovedMembers(w, q, r.value);
    }
    hide Pop, ScanOf, Without, Lawful, Sorted, MarkedTo;
  }

  /** The tasks that a pop marks are the expired ones of the part of the queue that it has passed. */
  lemma PopMarks(w: World, s: State, q: seq<Task>, now: int, t: Task)
    requires Lawful(w) && QueueInOrder(w, s) && !s.end && s.queue != []
    requires q == Without(w, s.status, s.queue, ByStatus(EXPIRED))
    ensures var ((s', _), r) := (Pop(w, s, now), ScanOf(w, s, q, now));
      StatusOf(s'.status, t) ==
        if t in q && w.View(t).times.ExpirationReached(now) && (r.Some? ==> w.Before(t, q[r.value]))
        then EXPIRED else StatusOf(s.status, t)
  {
    WithoutKeepsSorted(w, s.status, s.queue, ByStatus(EXPIRED));
    PopOfScan(w, s, q, now);
    var r := ScanOf(w, s, q, now);
    var end := if r.Some? then r.value else |q|;
    if r.Some? {
      RemovedMembers(w, q, r.value);
    }
    assert q[..|q|] == q;
    MarkedStatus(w, q, s.status, now, end, t);
    hide Pop, ScanOf, Without, Lawful, Sorted, World.Before, MarkedTo;
  }

  /**
   A pop purges exactly the tasks that were EXPIRED before, takes the task it returns, and marks exactly
   the queued tasks that have expired: those before the task it returns, or all if there is none.
   */
  lemma PopMeans(w: World, s: State, now: int)
    requires Lawful(w) && QueueInOrder(w, s) && !s.end && s.queue != []
    ensures var (s', outcome) := Pop(w, s, now);
      && (outcome.Popped? || outcome.Nothing?)
      && (forall t :: t in s'.queue <==>
           t in s.queue && StatusOf(s.status, t) != EXPIRED && outcome != Popped(t))
      && (forall t :: StatusOf(s'.status, t) ==
           if t in s.queue && (exists moment :: w.View(t).times.expirationTimeout == Some(moment) && moment <= now)
              && (outcome.Popped? ==> w.Before(t, outcome.task))
           then EXPIRED else StatusOf(s.status, t))
  {
    var q := Without(w, s.status, s.queue, ByStatus(EXPIRED));
    PopLeaves(w, s, q, now);
    PopOfScan(w, s, q, now);
    WithoutMembers(w, s.status, s.queue, ByStatus(EXPIRED));
    hide Pop, ScanOf, Without, Lawful, World.Before, MarkedTo;
    forall t
      ensures StatusOf(Pop(w, s, now).0.status, t) ==
        if t in s.queue && (exists moment :: w.View(t).times.expirationTimeout == Some(moment) && moment <= now)
           && (Pop(w, s, now).1.Popped? ==> w.Before(t, Pop(w, s, now).1.task))
        then EXPIRED else StatusOf(s.status, t)
    {
      PopMarks(w, s, q, now, t);
      RunnableInFields(w.View(t), IDLE, now);
    }
  }

  lemma {:induction false} FoundSequenceIff(
      w: World, seqs: seq<TaskSequence>, id: string, name: string, q: TaskSequence)
    requires Lawful(w) && AllKnown(w, seqs)
    ensures FindSequence(w, seqs, id, name) == Some(q) <==> q in seqs && w.Seq(q).id == id && w.Seq(q).name == name
  {
    if seqs != [] {
      assert seqs == [seqs[0]] + seqs[1..];
      FoundSequenceIff(w, seqs[1..], id, name, q);
      if q in seqs && q != seqs[0] {
        assert w.sequences[q].name != w.sequences[seqs[0]].name || w.sequences[q].id != w.sequences[seqs[0]].id;
      }
    }
  }

  /**
   A task can run exactly if it is idle, its activation timeout has ended and its expiration timeout has
   not, and, if it waits for tasks of its sequence, that is stored and all of them are completed.
   */
  lemma CanRunMeans(w: World, s: State, t: Task, now: int)
    requires Lawful(w) && QueueInOrder(w, s)
    ensures var v := w.View(t);
      CanRun(w, s.sequences, s.status, t, now) <==>
        && StatusOf(s.status, t) == IDLE
        && (forall moment :: v.times.activationTimeout == Some(moment) ==> moment <= now)
        && (forall moment :: v.times.expirationTimeout == Some(moment) ==> now < moment)
        && (v.inSequence && v.dependent && v.depIndexes != [] ==>
             exists q :: q in s.sequences && w.Seq(q).id == v.sequenceId && w.Seq(q).name == v.sequenceName
               && forall d :: d in v.depIndexes ==>
                    0 <= d < |w.Seq(q).tasks| && StatusOf(s.status, w.Seq(q).tasks[d]) == COMPLETED)
  {
    var v := w.View(t);
    RunnableInFields(v, StatusOf(s.status, t), now);
    assert AllKnown(w, s.sequences);
    var found := FindSequence(w, s.sequences, v.sequenceId, v.sequenceName);
    if found.Some? {
      FoundSequenceIff(w, s.sequences, v.sequenceId, v.sequenceName, found.value);
    }
    forall q | q in s.sequences && w.Seq(q).id == v.sequenceId && w.Seq(q).name == v.sequenceName
      ensures found == Some(q)
    {
      FoundSequenceIff(w, s.sequences, v.sequenceId, v.sequenceName, q);
    }
    hide FindSequence, Lawful;
  }

  // ----- removing and forgetting -----

  /** Removing a sequence takes its tasks off the queue and forgets the sequences of that name. */
  lemma RemoveSequenceMeans(w: World, s: State, name: string)
    ensures var s' := Step(w, s, RemoveSequence(name)).state;
      && (forall t :: t in s'.queue <==> t in s.queue && !(w.View(t).inSequence && w.View(t).sequenceName == name))
      && (forall q :: q in s'.sequences <==> q in s.sequences && w.Seq(q).name != name)
      && s' == s.(queue := s'.queue, sequences := s'.sequences)
  {
    WithoutMembers(w, s.status, s.queue, BySequenceName(name));
    NotNamedMembers(w, s.sequences, name);
  }

  lemma {:induction false} NotNamedMembers(w: World, seqs: seq<TaskSequence>, name: string)
    ensures forall q :: q in SequencesNotNamed(w, seqs, name) <==> q in seqs && w.Seq(q).name != name
  {
    if seqs != [] {
      NotNamedMembers(w, seqs[1..], name);
      assert seqs == [seqs[0]] + seqs[1..];
    }
  }

  lemma {:induction false} KeptMembers(
      w: World, sst: SeqStatusMap, seqs: seq<TaskSequence>, keep: Option<TaskStatus>, age: int, now: int)
    ensures forall q :: q in Remembered(w, sst, seqs, keep, age, now) <==>
      && q in seqs
      && (now - w.Seq(q).creation < age * 1000
          || (keep.Some? && (if q in sst then sst[q] else UNKNOWN) == keep.value))
  {
    if seqs != [] {
      KeptMembers(w, sst, seqs[1..], keep, age, now);
      assert seqs == [seqs[0]] + seqs[1..];
    }
  }

  /** Clearing keeps the recent sequences and those with the status to keep, and changes nothing else. */
  lemma ClearMeans(w: World, s: State, keep: Option<TaskStatus>, age: int, now: int)
    ensures var s' := Step(w, s, ClearOld(keep, age, now)).state;
      && s' == s.(sequences := s'.sequences)
      && forall q :: q in s'.sequences <==>
           && q in s.sequences
           && (now - w.Seq(q).creation < age * 1000
               || (keep.Some? && (if q in s.seqStatus then s.seqStatus[q] else UNKNOWN) == keep.value))
  {
    KeptMembers(w, s.seqStatus, s.sequences, keep, age, now);
  }

  /** The remaining operations each change one thing. */
  lemma SimpleStepsMean(w: World, s: State, max: int)
    ensures Step(w, s, FlushQueue).state == s.(queue := [])
    ensures Step(w, s, ClearAll).state == s.(sequences := [])
    ensures Step(w, s, WakeUp).state == s.(wakeUp := true) && Step(w, s, FinishWait).state == s.(wakeUp := false)
    ensures Step(w, s, End).state == s.(end := true) && Step(w, s, SetMaxQueue(max)).state == s.(maxQueue := max)
  {
  }
}

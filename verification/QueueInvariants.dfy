/**
 What every step of the task manager keeps: the queue is strictly sorted and bounded, and no
 task is lost or duplicated between the queue and the ways of leaving it.
 */
module QueueInvariants {
  import opened Wrappers
  import opened Graph
  import opened Tasks
  import opened CriticalPath
  import opened TaskOrder
  import opened TaskSequences
  import opened Scheduler
  import opened Scheduling

  ghost function Views(w: World): set<TaskView> {
    set t | t in w.tasks :: w.tasks[t]
  }

  /** Every task and every sequence has its own name and id. */
  ghost predicate UniqueIds(w: World) {
    && (forall a, b :: a in w.tasks && b in w.tasks && a != b ==>
         w.tasks[a].name != w.tasks[b].name || w.tasks[a].id != w.tasks[b].id)
    && (forall p, q :: p in w.sequences && q in w.sequences && p != q ==>
         w.sequences[p].name != w.sequences[q].name || w.sequences[p].id != w.sequences[q].id)
  }

  /** The tasks of a sequence know which sequence they are in. */
  ghost predicate SequencesPlaced(w: World) {
    forall q, t :: q in w.sequences && t in w.sequences[q].tasks ==>
      && t in w.tasks && w.tasks[t].inSequence
      && w.tasks[t].sequenceId == w.sequences[q].id && w.tasks[t].sequenceName == w.sequences[q].name
  }

  /** Unique ids, consistent sequences, and dependencies scheduled in agreement with the queue order. */
  ghost predicate Lawful(w: World) {
    UniqueIds(w) && SequencesPlaced(w) && DependenciesFollowKey(Views(w))
  }

  /** One sequence as it goes into a scheduling pass at the time `now`. */
  datatype Pass = Pass(id: string, name: string, views: seq<TaskView>, adj: Matrix, starts: seq<int>, now: int) {
    /** The starts are those of the pass, and every task starts later than its prerequisites. */
    ghost predicate Succeeds() {
      Solves(views, adj, starts) && Placed(views, id, name) && AllStartBefore(views, adj, starts)
    }

    ghost function Result(): set<TaskView>
      requires Succeeds()
    {
      ScheduledTasks(views, adj, starts, now)
    }
  }

  ghost function Results(passes: seq<Pass>): (r: seq<set<TaskView>>)
    requires forall p :: p in passes ==> p.Succeeds()
    ensures |r| == |passes| && forall i :: 0 <= i < |r| ==> r[i] == passes[i].Result()
  {
    seq(|passes|, i requires 0 <= i < |passes| => assert passes[i] in passes; passes[i].Result())
  }

  /**
   What `SetTaskDependency` leaves behind for different tasks that `AddTask` put in place is such a
   pass, if prerequisites last long enough.
   */
  lemma ScheduledSequenceIsPass(q: TaskSequence, views: seq<TaskView>, starts: seq<int>, now: int)
    requires q.ScheduledAs(views, starts, now)
    requires Placed(views, q.seqId, q.seqName) && AllLastLongEnough(views, q.dependencyMatrix)
    ensures var p := Pass(q.seqId, q.seqName, views, q.dependencyMatrix, starts, now);
      p.Succeeds() && p.Result() == set i | 0 <= i < |q.tasks| :: q.tasks[i].View()
  {
    LastingStartBefore(views, q.dependencyMatrix, starts);
    hide Solves, IsLongestChain, Scheduled;
  }

  /**
   A world whose tasks come from scheduling passes over different sequences is lawful: what the
   run theorems assume is what `SetTaskDependency` leaves behind.
   */
  lemma ScheduledWorldIsLawful(w: World, passes: seq<Pass>)
    requires UniqueIds(w) && SequencesPlaced(w)
    requires forall p :: p in passes ==> p.Succeeds()
    requires forall i, j :: 0 <= i < j < |passes| ==> passes[i].id != passes[j].id || passes[i].name != passes[j].name
    requires Views(w) == Together(Results(passes))
    ensures Lawful(w)
  {
    hide DependenciesFollowKey, InSameSequence, UniqueIds, SequencesPlaced, Pass.Succeeds, Pass.Result;
    var groups := Results(passes);
    forall g | g in groups
      ensures DependenciesFollowKey(g)
    {
      var i :| 0 <= i < |groups| && groups[i] == g;
      assert passes[i] in passes;
      PassFollowsKey(passes[i]);
    }
    forall g, h, a, b | g in groups && h in groups && a in g && b in h && InSameSequence(a, b)
      ensures g == h
    {
      var i :| 0 <= i < |groups| && groups[i] == g;
      var j :| 0 <= j < |groups| && groups[j] == h;
      assert passes[i] in passes && passes[j] in passes;
      SameSequenceSamePass(passes[i], passes[j], a, b);
    }
    ViewsAreUnique(w);
    QueueOrderIsLawful(groups);
  }

  lemma PassFollowsKey(p: Pass)
    requires p.Succeeds()
    ensures DependenciesFollowKey(p.Result())
  {
    StartsBeforeFollowKey(p.views, p.adj, p.starts, p.now, p.id, p.name);
  }

  lemma SameSequenceSamePass(p: Pass, q: Pass, a: TaskView, b: TaskView)
    requires p.Succeeds() && q.Succeeds() && a in p.Result() && b in q.Result() && InSameSequence(a, b)
    ensures p.id == q.id && p.name == q.name
  {
  }

  lemma ViewsAreUnique(w: World)
    requires UniqueIds(w)
    ensures UniqueNames(Views(w))
  {
  }

  // ----- the order on references -----

  lemma BeforeIsTotal(w: World, a: Task, b: Task)
    requires Lawful(w) && a in w.tasks && b in w.tasks
    ensures w.Before(a, b) == KeyLess(w.View(a), w.View(b))
    ensures !w.Before(a, a) && !(w.Before(a, b) && w.Before(b, a))
    ensures a != b ==> w.Before(a, b) || w.Before(b, a)
  {
    assert UniqueNames(Views(w)) by {
      forall x, y | x in Views(w) && y in Views(w) && x.name == y.name && x.id == y.id
        ensures x == y
      {
        var c :| c in w.tasks && w.tasks[c] == x;
        var d :| d in w.tasks && w.tasks[d] == y;
        assert c == d;
      }
    }
    ComparatorIsKeyIff(Views(w));
    assert w.tasks[a] in Views(w) && w.tasks[b] in Views(w);
    assert w.Before(b, a) == KeyLess(w.View(b), w.View(a));
    assert w.Before(a, a) == KeyLess(w.View(a), w.View(a));
    KeyLessConnected(w.View(a), w.View(b));
  }

  lemma BeforeIsTransitive(w: World, a: Task, b: Task, c: Task)
    requires Lawful(w) && a in w.tasks && b in w.tasks && c in w.tasks
    requires w.Before(a, b) && w.Before(b, c)
    ensures w.Before(a, c)
  {
    BeforeIsTotal(w, a, b);
    BeforeIsTotal(w, b, c);
    BeforeIsTotal(w, a, c);
    KeyLessTransitive(w.View(a), w.View(b), w.View(c));
  }

  /** Strictly increasing, and therefore free of duplicates. */
  ghost predicate Sorted(w: World, q: seq<Task>) {
    && (forall i :: 0 <= i < |q| ==> q[i] in w.tasks)
    && forall i, j :: 0 <= i < j < |q| ==> w.Before(q[i], q[j])
  }

  // ----- insertion and removal -----

  lemma ConsSorted(w: World, t: Task, q: seq<Task>)
    requires Sorted(w, q) && t in w.tasks && forall u :: u in q ==> w.Before(t, u)
    ensures Sorted(w, [t] + q)
  {
  }

  lemma SortedTail(w: World, q: seq<Task>)
    requires Sorted(w, q) && q != []
    ensures Sorted(w, q[1..]) && q[0] in w.tasks && forall u :: u in q[1..] ==> w.Before(q[0], u)
    ensures q == [q[0]] + q[1..]
  {
  }

  /** A task before the first one is before all of them. */
  lemma BeforeAll(w: World, q: seq<Task>, t: Task)
    requires Lawful(w) && Sorted(w, q) && t in w.tasks && q != [] && w.Before(t, q[0])
    ensures t !in q && forall u :: u in q ==> w.Before(t, u)
  {
    forall j | 0 <= j < |q|
      ensures w.Before(t, q[j]) && q[j] != t
    {
      if j > 0 {
        BeforeIsTransitive(w, t, q[0], q[j]);
      }
      BeforeIsTotal(w, t, q[j]);
    }
  }

  lemma {:induction false} InsertKeepsSorted(w: World, q: seq<Task>, t: Task)
    requires Lawful(w) && Sorted(w, q) && t in w.tasks
    ensures Sorted(w, Insert(w, q, t))
    ensures t in q ==> Insert(w, q, t) == q
    ensures t !in q ==> multiset(Insert(w, q, t)) == multiset(q) + multiset{t} && |Insert(w, q, t)| == |q| + 1
    ensures forall u :: u in Insert(w, q, t) <==> u in q || u == t
  {
    hide Lawful;
    if q != [] {
      SortedTail(w, q);
      BeforeIsTotal(w, q[0], t);
      if w.Before(q[0], t) {
        InsertKeepsSorted(w, q[1..], t);
        ConsSorted(w, q[0], Insert(w, q[1..], t));
      } else if w.Before(t, q[0]) {
        BeforeAll(w, q, t);
        ConsSorted(w, t, q);
      }
    }
  }

  lemma {:induction false} WithoutMembers(w: World, st: StatusMap, q: seq<Task>, m: Match)
    ensures forall t :: t in Without(w, st, q, m) <==> t in q && !m.Matches(w.View(t), StatusOf(st, t))
    ensures forall t :: t in Selected(w, st, q, m) <==> t in q && m.Matches(w.View(t), StatusOf(st, t))
  {
    if q != [] {
      WithoutMembers(w, st, q[1..], m);
      assert q == [q[0]] + q[1..];
    }
  }

  lemma {:induction false} WithoutComesFrom(w: World, st: StatusMap, q: seq<Task>, m: Match, i: nat)
    requires i < |Without(w, st, q, m)|
    ensures Without(w, st, q, m)[i] in q
  {
    if m.Matches(w.View(q[0]), StatusOf(st, q[0])) {
      WithoutComesFrom(w, st, q[1..], m, i);
    } else if i > 0 {
      WithoutComesFrom(w, st, q[1..], m, i - 1);
    }
  }

  lemma ConsMultiset<T>(x: T, q: seq<T>)
    ensures multiset([x] + q) == multiset{x} + multiset(q)
  {
  }

  lemma {:induction false} WithoutSplits(w: World, st: StatusMap, q: seq<Task>, m: Match)
    ensures multiset(q) == multiset(Without(w, st, q, m)) + multiset(Selected(w, st, q, m))
    ensures |Without(w, st, q, m)| <= |q|
  {
    if q != [] {
      var kept, taken := Without(w, st, q[1..], m), Selected(w, st, q[1..], m);
      WithoutSplits(w, st, q[1..], m);
      ConsMultiset(q[0], q[1..]);
      assert q == [q[0]] + q[1..];
      if m.Matches(w.View(q[0]), StatusOf(st, q[0])) {
        ConsMultiset(q[0], taken);
      } else {
        ConsMultiset(q[0], kept);
      }
    }
  }

  lemma {:induction false} WithoutKeepsSorted(w: World, st: StatusMap, q: seq<Task>, m: Match)
    requires Sorted(w, q)
    ensures Sorted(w, Without(w, st, q, m))
  {
    if q != [] {
      SortedTail(w, q);
      WithoutKeepsSorted(w, st, q[1..], m);
      WithoutMembers(w, st, q[1..], m);
      ConsSorted(w, q[0], Without(w, st, q[1..], m));
    }
  }

  lemma {:induction false} InsertAllKeepsSorted(
      w: World, q: seq<Task>, st: StatusMap, tasks: seq<Task>, attrs: set<string>)
    requires Lawful(w) && Sorted(w, q) && forall t :: t in tasks ==> t in w.tasks
    ensures var r := InsertAll(w, q, st, tasks, attrs);
      && Sorted(w, r.queue)
      && multiset(r.queue) == multiset(q) + multiset(r.entered)
      && |r.queue| <= |q| + |tasks|
      && (forall t :: t in r.entered ==> t in tasks)
    decreases |tasks|
  {
    hide Lawful, Sorted, Insert;
    if tasks != [] && !(w.View(tasks[0]).isAsynch && w.View(tasks[0]).statusAttr !in attrs) {
      var t := tasks[0];
      InsertKeepsSorted(w, q, t);
      var q' := Insert(w, q, t);
      InsertAllKeepsSorted(w, q', st[t := IDLE], tasks[1..], attrs);
      assert multiset(q') == multiset(q) + multiset(if q' == q then [] else [t]);
    }
  }

  // ----- one step -----

  /** The step hands over a sequence of the world. */
  predicate KnownSequence(w: World, op: Op) {
    op.AddSequence? ==> op.sequence in w.sequences
  }

  ghost predicate QueueInOrder(w: World, s: State) {
    && Sorted(w, s.queue)
    && forall q :: q in s.sequences ==> q in w.sequences
  }

  lemma SequencesStayKnown(w: World, seqs: seq<TaskSequence>, sst: SeqStatusMap, name: string,
                           keep: Option<TaskStatus>, age: int, now: int)
    ensures forall q :: q in SequencesNotNamed(w, seqs, name) ==> q in seqs
    ensures forall q :: q in Remembered(w, sst, seqs, keep, age, now) ==> q in seqs
  {
    if seqs != [] {
      SequencesStayKnown(w, seqs[1..], sst, name, keep, age, now);
    }
  }

  lemma RemovalKeepsSorted(q: seq<Task>, i: nat, w: World)
    requires Sorted(w, q) && i < |q|
    ensures Sorted(w, q[..i] + q[i + 1..])
  {
  }

  lemma PopKeepsSorted(w: World, s: State, now: int)
    requires Sorted(w, s.queue)
    ensures Sorted(w, Pop(w, s, now).0.queue)
  {
    WithoutKeepsSorted(w, s.status, s.queue, ByStatus(EXPIRED));
    var q := Without(w, s.status, s.queue, ByStatus(EXPIRED));
    var r := Scan(w, s.sequences, q, s.status, now, 0, None);
    if r.runnable.Some? {
      RemovalKeepsSorted(q, r.runnable.value, w);
    }
  }

  /** What was in the queue or entered it is in the queue or left it, and nothing was duplicated. */
  ghost predicate Conserves(s: State, r: StepResult) {
    multiset(s.queue) + multiset(r.entered)
    == multiset(r.state.queue) + multiset(r.popped) + multiset(r.purged) + multiset(r.dropped)
  }

  lemma RemovedAt<T>(q: seq<T>, i: nat)
    requires i < |q|
    ensures multiset(q) == multiset(q[..i] + q[i + 1..]) + multiset([q[i]])
    ensures |q[..i] + q[i + 1..]| == |q| - 1
  {
    assert q == q[..i] + [q[i]] + q[i + 1..];
  }

  lemma TakenConserves(s: State, r: ScanResult)
    requires r.runnable.Some? ==> r.runnable.value < |s.queue|
    requires r.waiting.Some? ==> r.waiting.value < |s.queue|
    ensures var (s', outcome) := Taken(s, r);
      && multiset(s.queue) == multiset(s'.queue) + multiset(if outcome.Popped? then [outcome.task] else [])
      && |s'.queue| <= |s.queue|
  {
    if r.runnable.Some? {
      RemovedAt(s.queue, r.runnable.value);
    }
  }

  lemma PopConserves(w: World, s: State, now: int)
    ensures Conserves(s, PopStep(w, s, now))
    ensures |PopStep(w, s, now).state.queue| <= |s.queue|
  {
    hide Taken, Scan, Without, Selected;
    if !s.end && s.queue != [] {
      WithoutSplits(w, s.status, s.queue, ByStatus(EXPIRED));
      var s' := s.(wakeUp := false, queue := Without(w, s.status, s.queue, ByStatus(EXPIRED)));
      TakenConserves(s', Scan(w, s'.sequences, s'.queue, s'.status, now, 0, None));
    } else if !s.end {
      EmptyHasNoneSelected(w, s.status, ByStatus(EXPIRED));
    }
  }

  lemma EmptyHasNoneSelected(w: World, st: StatusMap, m: Match)
    ensures Selected(w, st, [], m) == []
  {
  }

  lemma RemovalConserves(w: World, s: State, m: Match)
    ensures Conserves(s, RemoveMatching(w, s, m))
    ensures |RemoveMatching(w, s, m).state.queue| <= |s.queue|
  {
    WithoutSplits(w, s.status, s.queue, m);
  }

  lemma SequenceTasksAreKnown(w: World, q: TaskSequence)
    requires SequencesPlaced(w) && q in w.sequences
    ensures forall t :: t in w.Seq(q).tasks ==> t in w.tasks
  {
  }

  lemma AddKeepsSorted(w: World, s: State, q: TaskSequence, toQueue: bool, attrs: set<string>)
    requires Lawful(w) && Sorted(w, s.queue) && q in w.sequences
    ensures Sorted(w, AddStep(w, s, q, toQueue, attrs).state.queue)
    ensures Conserves(s, AddStep(w, s, q, toQueue, attrs))
    ensures var s' := AddStep(w, s, q, toQueue, attrs).state;
      |s'.queue| > |s.queue| ==> |s'.queue| <= s.maxQueue == s'.maxQueue
  {
    SequenceTasksAreKnown(w, q);
    hide Lawful, Sorted, InsertAll, World.Seq;
    InsertAllKeepsSorted(w, s.queue, s.status, w.Seq(q).tasks, attrs);
  }

  /** Every step keeps the queue strictly sorted by the comparator. */
  lemma StepKeepsOrder(w: World, s: State, op: Op)
    requires Lawful(w) && QueueInOrder(w, s) && KnownSequence(w, op)
    ensures QueueInOrder(w, Step(w, s, op).state)
  {
    hide Lawful, InsertAll, Without, Selected, Scan, RevokeAll, SetMatching;
    match op {
      case AddSequence(q, toQueue, attrs) => AddKeepsSorted(w, s, q, toQueue, attrs);
      case RemoveSequence(name) =>
        WithoutKeepsSorted(w, s.status, s.queue, BySequenceName(name));
        SequencesStayKnown(w, s.sequences, s.seqStatus, name, None, 0, 0);
      case RevokeSequence(name) => WithoutKeepsSorted(w, s.status, s.queue, BySequenceName(name));
      case RevokeTask(name) => WithoutKeepsSorted(w, s.status, s.queue, ByName(name));
      case PopTask(now) => PopKeepsSorted(w, s, now);
      case ClearOld(keep, age, now) => SequencesStayKnown(w, s.sequences, s.seqStatus, "", keep, age, now);
      case _ =>
    }
  }

  /** What a step moves into the queue stays there or leaves it in exactly one way. */
  lemma StepConserves(w: World, s: State, op: Op)
    requires Lawful(w) && QueueInOrder(w, s) && KnownSequence(w, op)
    ensures Conserves(s, Step(w, s, op))
  {
    hide Lawful, Sorted, InsertAll, Without, Selected, Scan, RevokeAll, SetMatching;
    match op {
      case AddSequence(q, toQueue, attrs) => AddKeepsSorted(w, s, q, toQueue, attrs);
      case RemoveSequence(name) => RemovalConserves(w, s, BySequenceName(name));
      case RevokeSequence(name) => RemovalConserves(w, s, BySequenceName(name));
      case RevokeTask(name) => RemovalConserves(w, s, ByName(name));
      case PopTask(now) => PopConserves(w, s, now);
      case _ =>
    }
  }

  /** The queue never outgrows its quota, unless the quota itself is lowered. */
  lemma StepKeepsQuota(w: World, s: State, op: Op)
    requires Lawful(w) && QueueInOrder(w, s) && KnownSequence(w, op)
    requires |s.queue| <= s.maxQueue && (op.SetMaxQueue? ==> op.max >= s.maxQueue)
    ensures var s' := Step(w, s, op).state; |s'.queue| <= s'.maxQueue
  {
    hide Lawful, Sorted, InsertAll, Without, Selected, Scan, RevokeAll, SetMatching, Conserves;
    match op {
      case AddSequence(q, toQueue, attrs) => AddKeepsSorted(w, s, q, toQueue, attrs);
      case RemoveSequence(name) => RemovalConserves(w, s, BySequenceName(name));
      case RevokeSequence(name) => RemovalConserves(w, s, BySequenceName(name));
      case RevokeTask(name) => RemovalConserves(w, s, ByName(name));
      case PopTask(now) => PopConserves(w, s, now);
      case _ =>
    }
  }
}

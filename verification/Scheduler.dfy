/**
 The task manager as a machine over values. Every locked operation is one atomic step. Tasks
 and sequences are identified by reference; what they hold besides their status does not
 change while the manager works, and is kept apart from the state in a `World`.
 */
module Scheduler {
  import opened Wrappers
  import opened Tasks
  import opened TaskOrder
  import opened SequenceStatus
  import opened TaskSequences

  // ----- the fixed part -----

  datatype SeqView = SeqView(id: string, name: string, tasks: seq<Task>, creation: int)

  const NO_TASK: TaskView :=
    TaskView("", "", 0, false, "", false, "", "", 0, false, [], Times(false, 0, None, false, 0, None, 0, 0), 0, 0)

  datatype World = World(tasks: map<Task, TaskView>, sequences: map<TaskSequence, SeqView>) {
    function View(t: Task): TaskView {
      if t in tasks then tasks[t] else NO_TASK
    }

    function Seq(q: TaskSequence): SeqView {
      if q in sequences then sequences[q] else SeqView("", "", [], 0)
    }

    /** The order of the queue on references. */
    predicate Before(a: Task, b: Task) {
      ComparatorFcn(View(a), View(b))
    }
  }

  /** The search criteria that operations use to pick tasks. */
  datatype Match =
    | ByIdAndName(id: string, name: string)
    | ByName(name: string)
    | BySequenceName(sequenceName: string)
    | ByStatus(status: TaskStatus)
    | ByWatchedAttr(attr: string)
  {
    predicate Matches(v: TaskView, current: TaskStatus) {
      match this
      case ByIdAndName(i, n) => v.id == i && v.name == n
      case ByName(n) => v.name == n
      case BySequenceName(n) => v.inSequence && v.sequenceName == n
      case ByStatus(s) => current == s
      case ByWatchedAttr(a) => v.isAsynch && v.statusAttr == a && a != ""
    }
  }

  // ----- the changing part -----

  type StatusMap = map<Task, TaskStatus>
  type SeqStatusMap = map<TaskSequence, TaskStatus>

  datatype State = State(
    queue: seq<Task>,
    sequences: seq<TaskSequence>,
    status: StatusMap,
    seqStatus: SeqStatusMap,
    wakeUp: bool,
    end: bool,
    maxQueue: int)

  function StatusOf(st: StatusMap, t: Task): TaskStatus {
    if t in st then st[t] else UNKNOWN
  }

  /** The tasks that do not match, in order. */
  function Without(w: World, st: StatusMap, q: seq<Task>, m: Match): seq<Task> {
    if q == [] then []
    else if m.Matches(w.View(q[0]), StatusOf(st, q[0])) then Without(w, st, q[1..], m)
    else [q[0]] + Without(w, st, q[1..], m)
  }

  /** The tasks that match, in order. */
  function Selected(w: World, st: StatusMap, q: seq<Task>, m: Match): seq<Task> {
    if q == [] then []
    else if m.Matches(w.View(q[0]), StatusOf(st, q[0])) then [q[0]] + Selected(w, st, q[1..], m)
    else Selected(w, st, q[1..], m)
  }

  function FirstMatching(w: World, st: StatusMap, q: seq<Task>, m: Match): Option<Task> {
    if q == [] then None
    else if m.Matches(w.View(q[0]), StatusOf(st, q[0])) then Some(q[0])
    else FirstMatching(w, st, q[1..], m)
  }

  /** Insertion into an ordered set: an element equivalent to one present is not inserted. */
  function Insert(w: World, q: seq<Task>, t: Task): seq<Task> {
    if q == [] then [t]
    else if w.Before(q[0], t) then [q[0]] + Insert(w, q[1..], t)
    else if w.Before(t, q[0]) then [t] + q
    else q
  }

  function FindSequence(w: World, seqs: seq<TaskSequence>, id: string, name: string): Option<TaskSequence> {
    if seqs == [] then None
    else if w.Seq(seqs[0]).name == name && w.Seq(seqs[0]).id == id then Some(seqs[0])
    else FindSequence(w, seqs[1..], id, name)
  }

  // ----- runnable tasks -----

  predicate PrerequisitesCompleted(w: World, st: StatusMap, q: TaskSequence, deps: seq<int>) {
    forall d :: d in deps ==> 0 <= d < |w.Seq(q).tasks| && StatusOf(st, w.Seq(q).tasks[d]) == COMPLETED
  }

  predicate SequenceTaskRunnable(w: World, seqs: seq<TaskSequence>, st: StatusMap, t: Task) {
    var v := w.View(t);
    if !v.inSequence || !v.dependent || v.depIndexes == [] then true
    else
      var found := FindSequence(w, seqs, v.sequenceId, v.sequenceName);
      found.Some? && PrerequisitesCompleted(w, st, found.value, v.depIndexes)
  }

  predicate CanRun(w: World, seqs: seq<TaskSequence>, st: StatusMap, t: Task, now: int) {
    w.View(t).Runnable(StatusOf(st, t), now) && SequenceTaskRunnable(w, seqs, st, t)
  }

  datatype ScanResult = ScanResult(status: StatusMap, runnable: Option<nat>, waiting: Option<nat>)

  /** Looks for the first runnable task from position `i` on, marking timed-out tasks on the way. */
  function Scan(w: World, seqs: seq<TaskSequence>, q: seq<Task>, st: StatusMap, now: int, i: nat,
                waiting: Option<nat>): (r: ScanResult)
    requires i <= |q| && (waiting.Some? ==> waiting.value < i)
    ensures r.runnable.Some? ==> i <= r.runnable.value < |q|
    ensures r.waiting.Some? ==> r.waiting.value < |q|
    decreases |q| - i
  {
    if i == |q| then ScanResult(st, None, waiting)
    else if CanRun(w, seqs, st, q[i], now) then ScanResult(st, Some(i), waiting)
    else if w.View(q[i]).times.ExpirationReached(now) then
      Scan(w, seqs, q, st[q[i] := EXPIRED], now, i + 1, waiting)
    else if w.View(q[i]).times.WaitingForActivation(now) && waiting.None? then
      Scan(w, seqs, q, st, now, i + 1, Some(i))
    else
      Scan(w, seqs, q, st, now, i + 1, waiting)
  }

  datatype PopOutcome =
    | Blocked             // the call does not return before a signal
    | Ended               // the end signal is set
    | Empty               // woken up with nothing queued
    | Popped(task: Task)
    | Nothing(waiting: Option<Task>)

  /** The outcome of a scan: the task it found leaves the queue. */
  function Taken(s: State, r: ScanResult): (State, PopOutcome)
    requires r.runnable.Some? ==> r.runnable.value < |s.queue|
    requires r.waiting.Some? ==> r.waiting.value < |s.queue|
  {
    match r.runnable
    case Some(i) => (s.(queue := s.queue[..i] + s.queue[i + 1..], status := r.status), Popped(s.queue[i]))
    case None =>
      (s.(status := r.status), Nothing(if r.waiting.Some? then Some(s.queue[r.waiting.value]) else None))
  }

  function Pop(w: World, s: State, now: int): (State, PopOutcome) {
    if s.queue == [] && !s.wakeUp && !s.end then (s, Blocked)
    else if s.end then (s.(wakeUp := false), Ended)
    else if s.queue == [] then (s.(wakeUp := false), Empty)
    else
      var s' := s.(wakeUp := false, queue := Without(w, s.status, s.queue, ByStatus(EXPIRED)));
      Taken(s', Scan(w, s'.sequences, s'.queue, s'.status, now, 0, None))
  }

  // ----- adding -----

  datatype AddResult = AddResult(queue: seq<Task>, status: StatusMap, entered: seq<Task>, ok: bool)

  /** Queues the tasks of a sequence one by one; stops at a task whose status attribute is missing. */
  function InsertAll(w: World, q: seq<Task>, st: StatusMap, tasks: seq<Task>, attrs: set<string>): AddResult
    decreases |tasks|
  {
    if tasks == [] then AddResult(q, st, [], true)
    else
      var t := tasks[0];
      if w.View(t).isAsynch && w.View(t).statusAttr !in attrs then AddResult(q, st, [], false)
      else
        var q' := Insert(w, q, t);
        var r := InsertAll(w, q', st[t := IDLE], tasks[1..], attrs);
        r.(entered := (if q' == q then [] else [t]) + r.entered)
  }

  function Add(w: World, s: State, q: TaskSequence, toQueue: bool, attrs: set<string>): (State, seq<Task>, int) {
    var tasks := w.Seq(q).tasks;
    if |tasks| <= 0 then (s, [], -1)
    else if |s.queue| + |tasks| > s.maxQueue then (s, [], -1)
    else
      var r := if toQueue then InsertAll(w, s.queue, s.status, tasks, attrs)
               else AddResult(s.queue, s.status, [], true);
      if !r.ok then (s.(queue := r.queue, status := r.status), r.entered, -1)
      else (s.(queue := r.queue, status := r.status, sequences := s.sequences + [q], wakeUp := true), r.entered, 0)
  }

  // ----- changing statuses -----

  function StatusesIn(w: World, st: StatusMap, q: TaskSequence): set<TaskStatus> {
    set t | t in w.Seq(q).tasks :: StatusOf(st, t)
  }

  /** Queued tasks, all of them or those of one name, become canceled. */
  function Revoke(w: World, st: StatusMap, tasks: seq<Task>, name: Option<string>): StatusMap {
    if tasks == [] then st
    else if StatusOf(st, tasks[0]) == IDLE && (name.None? || w.View(tasks[0]).name == name.value) then
      Revoke(w, st[tasks[0] := CANCELED], tasks[1..], name)
    else Revoke(w, st, tasks[1..], name)
  }

  predicate SomeRevoked(w: World, st: StatusMap, tasks: seq<Task>, name: Option<string>) {
    exists t :: t in tasks && StatusOf(st, t) == IDLE && (name.None? || w.View(t).name == name.value)
  }

  function RevokeAll(w: World, seqs: seq<TaskSequence>, st: StatusMap, sst: SeqStatusMap,
                     sequenceName: Option<string>, name: Option<string>): (StatusMap, SeqStatusMap)
  {
    if seqs == [] then (st, sst)
    else
      var q := seqs[0];
      if sequenceName.Some? && w.Seq(q).name != sequenceName.value then
        RevokeAll(w, seqs[1..], st, sst, sequenceName, name)
      else
        var st' := Revoke(w, st, w.Seq(q).tasks, name);
        var sst' := if SomeRevoked(w, st, w.Seq(q).tasks, name)
                    then sst[q := Combined(StatusesIn(w, st', q))] else sst;
        RevokeAll(w, seqs[1..], st', sst', sequenceName, name)
  }

  /** In every sequence the first matching task gets the status. */
  function SetMatching(w: World, seqs: seq<TaskSequence>, st: StatusMap, sst: SeqStatusMap,
                       m: Match, status: TaskStatus): (StatusMap, SeqStatusMap)
  {
    if seqs == [] then (st, sst)
    else
      var q := seqs[0];
      var found := FirstMatching(w, st, w.Seq(q).tasks, m);
      if found.None? then SetMatching(w, seqs[1..], st, sst, m, status)
      else
        var st' := st[found.value := status];
        var sst' := if m.ByWatchedAttr? || w.View(found.value).inSequence
                    then sst[q := Combined(StatusesIn(w, st', q))] else sst;
        SetMatching(w, seqs[1..], st', sst', m, status)
  }

  // ----- forgetting sequences -----

  function SequencesNotNamed(w: World, seqs: seq<TaskSequence>, name: string): seq<TaskSequence> {
    if seqs == [] then []
    else if w.Seq(seqs[0]).name == name then SequencesNotNamed(w, seqs[1..], name)
    else [seqs[0]] + SequencesNotNamed(w, seqs[1..], name)
  }

  /** An old sequence is forgotten unless it has the status to keep. */
  predicate Forgotten(w: World, sst: SeqStatusMap, q: TaskSequence, keep: Option<TaskStatus>, age: int, now: int) {
    && now - w.Seq(q).creation >= age * 1000
    && (keep.None? || (if q in sst then sst[q] else UNKNOWN) != keep.value)
  }

  function Remembered(w: World, sst: SeqStatusMap, seqs: seq<TaskSequence>, keep: Option<TaskStatus>,
                      age: int, now: int): seq<TaskSequence>
  {
    if seqs == [] then []
    else if Forgotten(w, sst, seqs[0], keep, age, now) then Remembered(w, sst, seqs[1..], keep, age, now)
    else [seqs[0]] + Remembered(w, sst, seqs[1..], keep, age, now)
  }

  // ----- steps -----

  datatype Op =
    | AddSequence(sequence: TaskSequence, toQueue: bool, attrs: set<string>)
    | RemoveSequence(name: string)
    | RevokeSequence(name: string)
    | RevokeTask(name: string)
    | FlushQueue
    | PopTask(now: int)
    | FinishWait                  // the tail of a pop that waited for an activation time
    | SetTaskStatus(id: string, taskName: string, status: TaskStatus)
    | SetAsynchStatus(attr: string, status: TaskStatus)
    | WakeUp
    | End
    | SetMaxQueue(max: int)
    | ClearAll
    | ClearOld(keep: Option<TaskStatus>, age: int, now: int)

  /** A step tells what happened to the tasks it moved into or out of the queue. */
  datatype StepResult = StepResult(
    state: State, entered: seq<Task>, popped: seq<Task>, purged: seq<Task>, dropped: seq<Task>)

  function Quiet(s: State): StepResult {
    StepResult(s, [], [], [], [])
  }

  function RemoveMatching(w: World, s: State, m: Match): StepResult {
    StepResult(s.(queue := Without(w, s.status, s.queue, m)), [], [], [], Selected(w, s.status, s.queue, m))
  }

  function AddStep(w: World, s: State, q: TaskSequence, toQueue: bool, attrs: set<string>): StepResult {
    var (s', entered, _) := Add(w, s, q, toQueue, attrs);
    StepResult(s', entered, [], [], [])
  }

  function PopStep(w: World, s: State, now: int): StepResult {
    var (s', outcome) := Pop(w, s, now);
    StepResult(s', [], if outcome.Popped? then [outcome.task] else [],
      if s.end then [] else Selected(w, s.status, s.queue, ByStatus(EXPIRED)), [])
  }

  function RemoveStep(w: World, s: State, name: string): StepResult {
    var r := RemoveMatching(w, s, BySequenceName(name));
    r.(state := r.state.(sequences := SequencesNotNamed(w, s.sequences, name)))
  }

  /** Takes matching tasks off the queue and cancels the idle tasks of the chosen sequences. */
  function RevokeStep(w: World, s: State, m: Match, sequenceName: Option<string>, name: Option<string>): StepResult {
    var r := RemoveMatching(w, s, m);
    var (st, sst) := RevokeAll(w, s.sequences, s.status, s.seqStatus, sequenceName, name);
    r.(state := r.state.(status := st, seqStatus := sst))
  }

  function SetStep(w: World, s: State, m: Match, status: TaskStatus): StepResult {
    var (st, sst) := SetMatching(w, s.sequences, s.status, s.seqStatus, m, status);
    Quiet(s.(status := st, seqStatus := sst))
  }

  function Step(w: World, s: State, op: Op): StepResult {
    match op
    case AddSequence(q, toQueue, attrs) => AddStep(w, s, q, toQueue, attrs)
    case RemoveSequence(name) => RemoveStep(w, s, name)
    case RevokeSequence(name) => RevokeStep(w, s, BySequenceName(name), Some(name), None)
    case RevokeTask(name) => RevokeStep(w, s, ByName(name), None, Some(name))
    case FlushQueue => StepResult(s.(queue := []), [], [], [], s.queue)
    case PopTask(now) => PopStep(w, s, now)
    case FinishWait => Quiet(s.(wakeUp := false))
    case SetTaskStatus(id, name, status) => SetStep(w, s, ByIdAndName(id, name), status)
    case SetAsynchStatus(attr, status) => SetStep(w, s, ByWatchedAttr(attr), status)
    case WakeUp => Quiet(s.(wakeUp := true))
    case End => Quiet(s.(end := true))
    case SetMaxQueue(max) => Quiet(s.(maxQueue := max))
    case ClearAll => Quiet(s.(sequences := []))
    case ClearOld(keep, age, now) =>
      Quiet(s.(sequences := Remembered(w, s.seqStatus, s.sequences, keep, age, now)))
  }
}

/** The status of a task sequence as a function of the set of its tasks' statuses. */
module SequenceStatus {
  import opened Tasks

  function StatusSet(statuses: seq<TaskStatus>): set<TaskStatus> {
    set s | s in statuses
  }

  predicate SomeFailed(s: set<TaskStatus>) {
    FAILED in s || ABORTED in s
  }

  function Combined(s: set<TaskStatus>): TaskStatus {
    if EXPIRED in s && !SomeFailed(s) then EXPIRED
    else if CANCELED in s then CANCELED
    else if SomeFailed(s) then FAILED
    else if RUNNING in s || (COMPLETED in s && IDLE in s) then RUNNING
    else if s == {} then CANCELED
    else if s == {IDLE} then IDLE
    else if s == {COMPLETED} then COMPLETED
    else UNKNOWN
  }

  predicate Only(s: set<TaskStatus>, status: TaskStatus) {
    forall x :: x in s ==> x == status
  }

  lemma OnlyOfNone()
    ensures forall y :: Only({}, y)
  {
  }

  lemma OnlyWith(s: set<TaskStatus>, x: TaskStatus)
    ensures forall y :: Only(s + {x}, y) <==> Only(s, y) && x == y
  {
  }

  lemma CombinedByOnly(s: set<TaskStatus>)
    ensures Combined(s) ==
      if EXPIRED in s && !SomeFailed(s) then EXPIRED
      else if CANCELED in s then CANCELED
      else if SomeFailed(s) then FAILED
      else if RUNNING in s || (COMPLETED in s && IDLE in s) then RUNNING
      else if Only(s, CANCELED) then CANCELED
      else if Only(s, IDLE) then IDLE
      else if Only(s, COMPLETED) then COMPLETED
      else UNKNOWN
  {
    if s != {} {
      var y :| y in s;
      if Only(s, y) {
        assert s == {y};
      }
    }
  }

  /** The combined status in the order in which the flags override each other. */
  lemma CombinedByFlags(s: set<TaskStatus>)
    ensures Combined(s) ==
      if EXPIRED in s && FAILED !in s && ABORTED !in s then EXPIRED
      else if CANCELED in s then CANCELED
      else if FAILED in s || ABORTED in s then FAILED
      else if RUNNING in s || (COMPLETED in s && IDLE in s) then RUNNING
      else if forall x :: x in s ==> x == CANCELED then CANCELED
      else if forall x :: x in s ==> x == IDLE then IDLE
      else if forall x :: x in s ==> x == COMPLETED then COMPLETED
      else UNKNOWN
  {
    CombinedByOnly(s);
    hide Combined;
  }

  predicate Terminal(s: TaskStatus) {
    s in {COMPLETED, FAILED, ABORTED, EXPIRED, CANCELED}
  }

  predicate PastInit(statuses: seq<TaskStatus>) {
    forall i :: 0 <= i < |statuses| ==> statuses[i] != INIT && statuses[i] != UNKNOWN
  }

  /** Queued tasks may go anywhere but back, running tasks end, and ends are final. */
  predicate Forward(before: TaskStatus, after: TaskStatus) {
    || after == before
    || (before == IDLE && (after == RUNNING || Terminal(after)))
    || (before == RUNNING && Terminal(after))
  }

  predicate AllForward(before: seq<TaskStatus>, after: seq<TaskStatus>) {
    |before| == |after| && forall i :: 0 <= i < |before| ==> Forward(before[i], after[i])
  }

  lemma NeverUnknownPastInit(statuses: seq<TaskStatus>)
    requires PastInit(statuses)
    ensures Combined(StatusSet(statuses)) != UNKNOWN
  {
    var s := StatusSet(statuses);
    assert forall x :: x in s ==> x != INIT && x != UNKNOWN;
    if IDLE in s && COMPLETED !in s && Combined(s) !in {EXPIRED, CANCELED, FAILED, RUNNING} {
      assert s == {IDLE};
    } else if COMPLETED in s && IDLE !in s && Combined(s) !in {EXPIRED, CANCELED, FAILED, RUNNING} {
      assert s == {COMPLETED};
    }
  }

  ghost predicate ForwardRun(run: seq<seq<TaskStatus>>) {
    forall k :: 0 <= k < |run| - 1 ==> AllForward(run[k], run[k + 1])
  }

  lemma {:induction false} ForwardRunComposes(run: seq<seq<TaskStatus>>, i: nat, j: nat)
    requires ForwardRun(run) && i <= j < |run|
    ensures AllForward(run[i], run[j])
    decreases j
  {
    if i < j {
      ForwardRunComposes(run, i, j - 1);
      assert AllForward(run[j - 1], run[j]);
    }
  }

  /** Once the sequence has left "queued" and "running" it never returns there. */
  lemma LeavingIsFinal(run: seq<seq<TaskStatus>>, i: nat, j: nat)
    requires ForwardRun(run) && i <= j < |run| && PastInit(run[0])
    requires Combined(StatusSet(run[i])) !in {IDLE, RUNNING}
    ensures Combined(StatusSet(run[j])) !in {IDLE, RUNNING}
  {
    ForwardRunComposes(run, 0, i);
    ForwardRunComposes(run, i, j);
    var before, after := run[i], run[j];
    var s, t := StatusSet(before), StatusSet(after);
    NeverUnknownPastInit(before);
    forall x | x in s && Terminal(x)
      ensures x in t
    {
      var k :| 0 <= k < |before| && before[k] == x;
      assert after[k] == x;
    }
    if before == [] {
      assert after == [];
    } else {
      assert before[0] in s;
      if Combined(s) == COMPLETED {
        forall k | 0 <= k < |before|
          ensures after[k] == COMPLETED
        {
          assert before[k] in s;
        }
        assert t == {COMPLETED};
      }
    }
  }
}

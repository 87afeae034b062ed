/**
 The order of the task queue: the comparator as the code writes it, the key it is meant
 to sort by, and the exact condition under which the two are the same order.
 */
module TaskOrder {
  import opened Wrappers
  import opened Tasks

  // ----- the order on strings -----

  predicate StringLess(a: string, b: string) {
    b != [] && (a == [] || a[0] < b[0] || (a[0] == b[0] && StringLess(a[1..], b[1..])))
  }

  lemma {:induction false} StringLessTransitive(a: string, b: string, c: string)
    requires StringLess(a, b) && StringLess(b, c)
    ensures StringLess(a, c)
  {
    if a != [] && a[0] == b[0] && b[0] == c[0] {
      StringLessTransitive(a[1..], b[1..], c[1..]);
    }
  }

  lemma {:induction false} StringLessConnected(a: string, b: string)
    ensures !StringLess(a, a)
    ensures a == b || StringLess(a, b) || StringLess(b, a)
    ensures !(StringLess(a, b) && StringLess(b, a))
  {
    if a != [] && b != [] && a[0] == b[0] {
      StringLessConnected(a[1..], b[1..]);
      assert a == [a[0]] + a[1..] && b == [b[0]] + b[1..];
    } else if a != [] {
      StringLessConnected(a[1..], a[1..]);
    }
    if a != [] {
      StringLessConnected(a[1..], a[1..]);
    }
  }

  /** `a` ends where `b` goes on, or has the smaller character, at the first position where they differ. */
  ghost predicate SmallerAtFirstDifference(a: string, b: string) {
    exists k :: 0 <= k <= |a| && k <= |b| && DifferFirstAt(a, b, k) && (k == |a| || a[k] < b[k])
  }

  predicate DifferFirstAt(a: string, b: string, k: nat)
    requires k <= |a| && k <= |b|
  {
    a[..k] == b[..k] && k < |b| && (k < |a| ==> a[k] != b[k])
  }

  lemma SameStart(a: string, b: string, k: nat)
    requires k <= |a| && k <= |b| && a[..k] == b[..k]
    ensures k > 0 ==> a[0] == b[0]
  {
    assert k > 0 ==> a[..k][0] == b[..k][0];
  }

  lemma DifferentStarts(a: string, b: string)
    requires a == "" || b == "" || a[0] != b[0]
    ensures SmallerAtFirstDifference(a, b) <==> b != "" && (a == "" || a[0] < b[0])
  {
    if b != "" && (a == "" || a[0] < b[0]) {
      assert DifferFirstAt(a, b, 0);
    }
    if k :| 0 <= k <= |a| && k <= |b| && DifferFirstAt(a, b, k) && (k == |a| || a[k] < b[k]) {
      SameStart(a, b, k);
    }
  }

  lemma DifferInTail(a: string, b: string, k: nat)
    requires a != "" && b != "" && a[0] == b[0] && k + 1 <= |a| && k + 1 <= |b|
    ensures DifferFirstAt(a, b, k + 1) <==> DifferFirstAt(a[1..], b[1..], k)
  {
    assert a[..k + 1] == [a[0]] + a[1..][..k] && b[..k + 1] == [b[0]] + b[1..][..k];
    assert a[..k + 1][1..] == a[1..][..k] && b[..k + 1][1..] == b[1..][..k];
  }

  lemma SameStarts(a: string, b: string)
    requires a != "" && b != "" && a[0] == b[0]
    ensures SmallerAtFirstDifference(a, b) <==> SmallerAtFirstDifference(a[1..], b[1..])
  {
    if k :| 0 <= k <= |a| && k <= |b| && DifferFirstAt(a, b, k) && (k == |a| || a[k] < b[k]) {
      assert k > 0;
      DifferInTail(a, b, k - 1);
    }
    if k :| 0 <= k <= |a[1..]| && k <= |b[1..]| && DifferFirstAt(a[1..], b[1..], k)
            && (k == |a[1..]| || a[1..][k] < b[1..][k]) {
      DifferInTail(a, b, k);
    }
  }

  lemma {:induction false} StringLessIff(a: string, b: string)
    ensures StringLess(a, b) <==> SmallerAtFirstDifference(a, b)
  {
    if a == "" || b == "" || a[0] != b[0] {
      DifferentStarts(a, b);
    } else {
      SameStarts(a, b);
      StringLessIff(a[1..], b[1..]);
    }
  }

  /** Comparison of the (name, id) pairs. */
  predicate NameIdLess(a: TaskView, b: TaskView) {
    StringLess(a.name, b.name) || (!StringLess(b.name, a.name) && StringLess(a.id, b.id))
  }

  // ----- the comparator -----

  predicate InSameSequence(a: TaskView, b: TaskView) {
    a.inSequence && b.inSequence && a.sequenceId == b.sequenceId && a.sequenceName == b.sequenceName
  }

  /** Priorities, then expiration times, then names and ids. */
  predicate TieBreak(a: TaskView, b: TaskView) {
    if a.priority != b.priority then a.priority > b.priority
    else if a.times.expiration != b.times.expiration then a.times.expiration < b.times.expiration
    else NameIdLess(a, b)
  }

  predicate ComparatorFcn(a: TaskView, b: TaskView) {
    if InSameSequence(a, b) && a.DependsOn(b) then false
    else if InSameSequence(a, b) && b.DependsOn(a) then true
    else if a.dependent && !b.dependent then
      if !b.times.hasActivation then false
      else if a.expMaxActivation != b.times.activation then a.expMaxActivation < b.times.activation
      else TieBreak(a, b)
    else if b.dependent && !a.dependent then
      if !a.times.hasActivation then true
      else if a.times.activation != b.expMaxActivation then a.times.activation < b.expMaxActivation
      else TieBreak(a, b)
    else if a.dependent && b.dependent then
      if a.expMaxActivation != b.expMaxActivation then a.expMaxActivation < b.expMaxActivation
      else TieBreak(a, b)
    else
      if !a.times.hasActivation && b.times.hasActivation then true
      else if !b.times.hasActivation && a.times.hasActivation then false
      else if a.times.hasActivation && b.times.hasActivation && a.times.activation != b.times.activation then
        a.times.activation < b.times.activation
      else TieBreak(a, b)
  }

  // ----- what the comparator does, in the fields of two tasks -----

  /** A task that waits for another one of its sequence comes behind it. */
  lemma DependencyDecides(a: TaskView, b: TaskView)
    requires a.inSequence && b.inSequence && a.sequenceId == b.sequenceId && a.sequenceName == b.sequenceName
    requires a.dependent && b.sequenceIndex in a.depIndexes
    ensures !ComparatorFcn(a, b)
    ensures !(b.dependent && a.sequenceIndex in b.depIndexes) ==> ComparatorFcn(b, a)
  {
  }

  /** Neither of the tasks is recorded as waiting for the other. */
  predicate Unrelated(a: TaskView, b: TaskView) {
    a.inSequence && b.inSequence && a.sequenceId == b.sequenceId && a.sequenceName == b.sequenceName ==>
      !(a.dependent && b.sequenceIndex in a.depIndexes) && !(b.dependent && a.sequenceIndex in b.depIndexes)
  }

  /** A task that can start at once comes before one that cannot, and the earlier start before the later. */
  lemma EarlierStartComesFirst(a: TaskView, b: TaskView)
    requires Unrelated(a, b) && (b.dependent || b.times.hasActivation)
    requires a.dependent || a.times.hasActivation ==>
      (if a.dependent then a.expMaxActivation else a.times.activation)
      < (if b.dependent then b.expMaxActivation else b.times.activation)
    ensures ComparatorFcn(a, b) && !ComparatorFcn(b, a)
  {
  }

  /** Both tasks can start at once, or both at the same moment. */
  predicate StartTogether(a: TaskView, b: TaskView) {
    && (a.dependent || a.times.hasActivation <==> b.dependent || b.times.hasActivation)
    && (a.dependent || a.times.hasActivation ==>
         (if a.dependent then a.expMaxActivation else a.times.activation)
         == (if b.dependent then b.expMaxActivation else b.times.activation))
  }

  /** Between tasks that start together the larger priority comes first, then the earlier expiration, name and id. */
  lemma TiesAreBroken(a: TaskView, b: TaskView)
    requires Unrelated(a, b) && StartTogether(a, b)
    ensures a.priority > b.priority ==> ComparatorFcn(a, b) && !ComparatorFcn(b, a)
    ensures a.priority == b.priority && a.times.expiration < b.times.expiration ==>
      ComparatorFcn(a, b) && !ComparatorFcn(b, a)
    ensures a.priority == b.priority && a.times.expiration == b.times.expiration ==>
      (ComparatorFcn(a, b) <==>
        SmallerAtFirstDifference(a.name, b.name) || (a.name == b.name && SmallerAtFirstDifference(a.id, b.id)))
  {
    StringLessIff(a.name, b.name);
    StringLessIff(b.name, a.name);
    StringLessIff(a.id, b.id);
    StringLessConnected(a.name, b.name);
    hide StringLess, SmallerAtFirstDifference;
  }

  // ----- the key -----

  /** When a task can start: at once, or not before a moment. */
  function StartKey(t: TaskView): Option<int> {
    if t.dependent then Some(t.expMaxActivation)
    else if t.times.hasActivation then Some(t.times.activation)
    else None
  }

  predicate StartLess(a: Option<int>, b: Option<int>) {
    b.Some? && (a.None? || a.value < b.value)
  }

  /** Lexicographic order on start, descending priority, expiration, name and id. */
  predicate KeyLess(a: TaskView, b: TaskView) {
    || StartLess(StartKey(a), StartKey(b))
    || (StartKey(a) == StartKey(b) && TieBreak(a, b))
  }

  predicate UniqueNames(s: set<TaskView>) {
    forall a, b :: a in s && b in s && a.name == b.name && a.id == b.id ==> a == b
  }

  /** `a` is recorded as depending directly on a different task `b` of its sequence. */
  predicate DirectlyDepends(a: TaskView, b: TaskView) {
    a != b && InSameSequence(a, b) && a.DependsOn(b)
  }

  /** Every direct dependency goes to a task with a smaller key. */
  predicate DependenciesFollowKey(s: set<TaskView>) {
    forall a, b :: a in s && b in s && DirectlyDepends(a, b) ==> KeyLess(b, a)
  }

  ghost predicate StrictTotalOrder(less: (TaskView, TaskView) -> bool, s: set<TaskView>) {
    && (forall a :: a in s ==> !less(a, a))
    && (forall a, b :: a in s && b in s && a != b ==> less(a, b) || less(b, a))
    && (forall a, b, c :: a in s && b in s && c in s && less(a, b) && less(b, c) ==> less(a, c))
  }

  // ----- the key orders any set of tasks -----

  lemma NameIdLessTransitive(a: TaskView, b: TaskView, c: TaskView)
    requires NameIdLess(a, b) && NameIdLess(b, c)
    ensures NameIdLess(a, c)
  {
    StringLessConnected(a.name, b.name);
    StringLessConnected(b.name, c.name);
    StringLessConnected(a.name, c.name);
    if StringLess(a.name, b.name) && StringLess(b.name, c.name) {
      StringLessTransitive(a.name, b.name, c.name);
    } else if a.name == b.name == c.name {
      StringLessTransitive(a.id, b.id, c.id);
    }
  }

  lemma KeyLessTransitive(a: TaskView, b: TaskView, c: TaskView)
    requires KeyLess(a, b) && KeyLess(b, c)
    ensures KeyLess(a, c)
  {
    if NameIdLess(a, b) && NameIdLess(b, c) {
      NameIdLessTransitive(a, b, c);
    }
  }

  lemma KeyLessConnected(a: TaskView, b: TaskView)
    ensures !KeyLess(a, a)
    ensures !(KeyLess(a, b) && KeyLess(b, a))
    ensures a.name != b.name || a.id != b.id ==> KeyLess(a, b) || KeyLess(b, a)
  {
    StringLessConnected(a.name, b.name);
    StringLessConnected(a.id, b.id);
  }

  /** The key is a strict total order on any tasks with unique names and ids. */
  lemma KeyIsStrictTotalOrder(s: set<TaskView>)
    requires UniqueNames(s)
    ensures StrictTotalOrder(KeyLess, s)
  {
    forall a, b | a in s && b in s
      ensures !KeyLess(a, a) && (a != b ==> KeyLess(a, b) || KeyLess(b, a))
    {
      KeyLessConnected(a, b);
    }
    forall a, b, c | a in s && b in s && c in s && KeyLess(a, b) && KeyLess(b, c)
      ensures KeyLess(a, c)
    {
      KeyLessTransitive(a, b, c);
    }
  }

  // ----- comparator and key -----

  lemma ComparatorIsKeyWithoutDependency(a: TaskView, b: TaskView)
    requires !DirectlyDepends(a, b) && !DirectlyDepends(b, a)
    ensures ComparatorFcn(a, b) == KeyLess(a, b)
  {
    KeyLessConnected(a, b);
  }

  /**
   The comparator is the key order exactly when no direct dependency contradicts the key:
   the direct-dependency rule is then redundant, and otherwise it breaks the order.
   */
  lemma ComparatorIsKeyIff(s: set<TaskView>)
    requires UniqueNames(s)
    ensures (forall a, b :: a in s && b in s ==> ComparatorFcn(a, b) == KeyLess(a, b))
            <==> DependenciesFollowKey(s)
  {
    if DependenciesFollowKey(s) {
      forall a, b | a in s && b in s
        ensures ComparatorFcn(a, b) == KeyLess(a, b)
      {
        KeyLessConnected(a, b);
        if !DirectlyDepends(a, b) && !DirectlyDepends(b, a) {
          ComparatorIsKeyWithoutDependency(a, b);
        }
      }
    } else {
      var a, b :| a in s && b in s && DirectlyDepends(a, b) && !KeyLess(b, a);
      KeyLessConnected(a, b);
      assert !ComparatorFcn(a, b);
      assert KeyLess(a, b);
    }
  }

  /** So the queue order is lawful, across sequences, whenever dependencies follow the key. */
  lemma ComparatorIsStrictTotalOrder(s: set<TaskView>)
    requires UniqueNames(s) && DependenciesFollowKey(s)
    ensures StrictTotalOrder(ComparatorFcn, s)
  {
    KeyIsStrictTotalOrder(s);
    ComparatorIsKeyIff(s);
    assert forall a, b :: a in s && b in s ==> ComparatorFcn(a, b) == KeyLess(a, b);
  }

  /** What the scheduling pass establishes between a task and one of its prerequisites. */
  predicate StartsAfter(t: TaskView, d: TaskView) {
    && t.dependent
    && if d.dependent then
         d.expMaxActivation < d.expMaxExpiration <= t.expMaxActivation
       else
         d.times.ExpiresAfterActivation() && d.times.expiration <= t.expMaxActivation
  }

  lemma StartsAfterFollowsKey(s: set<TaskView>)
    requires forall a, b :: a in s && b in s && DirectlyDepends(a, b) ==> StartsAfter(a, b)
    ensures DependenciesFollowKey(s)
  {
    forall a, b | a in s && b in s && DirectlyDepends(a, b)
      ensures KeyLess(b, a)
    {
      assert StartLess(StartKey(b), StartKey(a));
    }
  }
}

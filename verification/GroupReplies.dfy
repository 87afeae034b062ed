/**
 Collecting the replies of a group of asynchronous commands. Each round asks every command
 that has not replied yet; what a request in a given round answers is an input.
 */
module GroupReplies {
  import opened Graph

  datatype Answer<D> = NotArrived | Reply(data: D) | Failure(error: string)

  datatype Outcome = Completed | Rethrown(at: Slot, error: string) | TimedOut

  datatype Slot = Slot(round: nat, command: nat)

  /** The order in which requests are made. */
  predicate SlotLess(a: Slot, b: Slot) {
    a.round < b.round || (a.round == b.round && a.command < b.command)
  }

  ghost predicate Answered<D(!new)>(ask: (int, int) -> Answer<D>, rounds: int, command: int) {
    exists k :: 0 <= k < rounds && !ask(k, command).NotArrived?
  }

  /** The command is answered in this round and in none before. */
  ghost predicate FirstAnswer<D(!new)>(ask: (int, int) -> Answer<D>, s: Slot) {
    !ask(s.round, s.command).NotArrived? && !Answered(ask, s.round, s.command)
  }

  ghost predicate FailsAt<D(!new)>(ask: (int, int) -> Answer<D>, s: Slot) {
    FirstAnswer(ask, s) && ask(s.round, s.command).Failure?
  }

  /** Every command's first answer is a reply and comes within the rounds. */
  ghost predicate AllReply<D(!new)>(ask: (int, int) -> Answer<D>, n: nat, rounds: int) {
    forall i :: 0 <= i < n ==> RepliesWithin(ask, rounds, i)
  }

  ghost predicate RepliesWithin<D(!new)>(ask: (int, int) -> Answer<D>, rounds: int, command: nat) {
    exists k: nat :: k < rounds && FirstAnswer(ask, Slot(k, command)) && ask(k, command).Reply?
  }

  /** The first answers of the requests made before slot (round, command). */
  ghost function Before<D(!new)>(ask: (int, int) -> Answer<D>, n: nat, round: nat, command: nat): seq<Slot>
    decreases round, command
  {
    if command > 0 then
      var s := Slot(round, command - 1);
      Before(ask, n, round, command - 1) + if FirstAnswer(ask, s) then [s] else []
    else if round > 0 then Before(ask, n, round - 1, n)
    else []
  }

  /** One reply for each slot, in the same order. */
  ghost predicate Delivers<D(!new)>(ask: (int, int) -> Answer<D>, slots: seq<Slot>, data: seq<D>) {
    && |data| == |slots|
    && forall j :: 0 <= j < |slots| ==> ask(slots[j].round, slots[j].command) == Reply(data[j])
  }

  ghost predicate NoFailureBefore<D(!new)>(ask: (int, int) -> Answer<D>, n: nat, end: Slot) {
    forall s: Slot :: s.command < n && SlotLess(s, end) ==> !FailsAt(ask, s)
  }

  function Count(flags: seq<bool>): nat {
    if flags == [] then 0
    else Count(flags[..|flags| - 1]) + if flags[|flags| - 1] then 1 else 0
  }

  lemma {:induction false} CountSet(flags: seq<bool>, i: nat)
    requires i < |flags| && !flags[i]
    ensures Count(flags[i := true]) == Count(flags) + 1
  {
    var init := flags[..|flags| - 1];
    if i < |flags| - 1 {
      CountSet(init, i);
      assert flags[i := true][..|flags| - 1] == init[i := true];
    } else {
      assert flags[i := true][..i] == init;
    }
  }

  lemma {:induction false} CountNone(flags: seq<bool>)
    requires forall i :: 0 <= i < |flags| ==> !flags[i]
    ensures Count(flags) == 0
  {
    if flags != [] {
      CountNone(flags[..|flags| - 1]);
    }
  }

  lemma {:induction false} CountAll(flags: seq<bool>)
    ensures Count(flags) <= |flags|
    ensures Count(flags) == |flags| <==> forall i :: 0 <= i < |flags| ==> flags[i]
  {
    if flags != [] {
      var init := flags[..|flags| - 1];
      CountAll(init);
      assert forall i :: 0 <= i < |init| ==> init[i] == flags[i];
    }
  }

  // ----- what the slots are -----

  /** The slots are exactly the first answers before the end, in the order of the requests. */
  lemma {:induction false} BeforeIsExact<D(!new)>(ask: (int, int) -> Answer<D>, n: nat, round: nat, command: nat)
    requires command <= n
    ensures var b := Before(ask, n, round, command);
      && (forall s: Slot :: s in b <==> s.command < n && SlotLess(s, Slot(round, command)) && FirstAnswer(ask, s))
      && (forall j, l :: 0 <= j < l < |b| ==> SlotLess(b[j], b[l]))
    decreases round, command
  {
    if command > 0 {
      BeforeIsExact(ask, n, round, command - 1);
    } else if round > 0 {
      BeforeIsExact(ask, n, round - 1, n);
    }
  }

  lemma AnsweredStep<D(!new)>(ask: (int, int) -> Answer<D>, s: Slot)
    ensures Answered(ask, s.round + 1, s.command) <==>
      Answered(ask, s.round, s.command) || !ask(s.round, s.command).NotArrived?
  {
  }

  lemma {:induction false} AnsweredHasFirst<D(!new)>(ask: (int, int) -> Answer<D>, rounds: int, command: nat)
    returns (k: nat)
    requires Answered(ask, rounds, command)
    ensures k < rounds && FirstAnswer(ask, Slot(k, command))
  {
    k :| k < rounds && !ask(k, command).NotArrived?;
    if Answered(ask, k, command) {
      k := AnsweredHasFirst(ask, k, command);
    }
  }

  /** Once every command is answered, further rounds bring nothing. */
  lemma {:induction false} NothingAfterAll<D(!new)>(
    ask: (int, int) -> Answer<D>, n: nat, from: nat, round: nat, command: nat)
    requires command <= n && from <= round
    requires forall i :: 0 <= i < n ==> Answered(ask, from, i)
    ensures Before(ask, n, round, command) == Before(ask, n, from, 0)
    decreases round, command
  {
    if command > 0 {
      NothingAfterAll(ask, n, from, round, command - 1);
      assert Answered(ask, from, command - 1);
    } else if round > from {
      NothingAfterAll(ask, n, from, round - 1, n);
    }
  }

  lemma NoFailureAfterAll<D(!new)>(ask: (int, int) -> Answer<D>, n: nat, from: nat, rounds: nat)
    requires from <= rounds && NoFailureBefore(ask, n, Slot(from, 0))
    requires forall i :: 0 <= i < n ==> Answered(ask, from, i)
    ensures NoFailureBefore(ask, n, Slot(rounds, 0))
    ensures forall i :: 0 <= i < n ==> Answered(ask, rounds, i)
  {
    forall i | 0 <= i < n
      ensures Answered(ask, rounds, i)
    {
      assert Answered(ask, from, i);
    }
    forall s: Slot | s.command < n && SlotLess(s, Slot(rounds, 0))
      ensures !FailsAt(ask, s)
    {
      assert Answered(ask, from, s.command);
      assert SlotLess(s, Slot(from, 0)) || s.round >= from;
    }
  }

  lemma AllReplyIff<D(!new)>(ask: (int, int) -> Answer<D>, n: nat, rounds: nat)
    ensures AllReply(ask, n, rounds) <==>
      NoFailureBefore(ask, n, Slot(rounds, 0)) && forall i :: 0 <= i < n ==> Answered(ask, rounds, i)
  {
    if AllReply(ask, n, rounds) {
      forall s: Slot | s.command < n && SlotLess(s, Slot(rounds, 0))
        ensures !FailsAt(ask, s)
      {
        assert RepliesWithin(ask, rounds, s.command);
      }
      forall i | 0 <= i < n
        ensures Answered(ask, rounds, i)
      {
        assert RepliesWithin(ask, rounds, i);
      }
    } else {
      var i: nat :| i < n && !RepliesWithin(ask, rounds, i);
      if Answered(ask, rounds, i) {
        var k := AnsweredHasFirst(ask, rounds, i);
        assert SlotLess(Slot(k, i), Slot(rounds, 0));
        assert FailsAt(ask, Slot(k, i));
      }
    }
  }

  // ----- the collector -----

  /** Where the collector stands before the request of slot (round, command). */
  ghost predicate Collected<D(!new)>(
    ask: (int, int) -> Answer<D>, round: nat, command: nat, flags: seq<bool>, nreplies: nat, data: seq<D>)
  {
    var n := |flags|;
    && command <= n
    && nreplies == Count(flags)
    && (forall j :: 0 <= j < n ==> flags[j] == Answered(ask, if j < command then round + 1 else round, j))
    && Delivers(ask, Before(ask, n, round, command), data)
    && NoFailureBefore(ask, n, Slot(round, command))
  }

  lemma SkipKeeps<D(!new)>(
    ask: (int, int) -> Answer<D>, round: nat, command: nat, flags: seq<bool>, nreplies: nat, data: seq<D>)
    requires Collected(ask, round, command, flags, nreplies, data) && command < |flags|
    requires flags[command] || ask(round, command).NotArrived?
    ensures Collected(ask, round, command + 1, flags, nreplies, data)
  {
    AnsweredStep(ask, Slot(round, command));
    assert !FirstAnswer(ask, Slot(round, command));
  }

  lemma ReplyKeeps<D(!new)>(
    ask: (int, int) -> Answer<D>, round: nat, command: nat, flags: seq<bool>, nreplies: nat, data: seq<D>)
    requires Collected(ask, round, command, flags, nreplies, data) && command < |flags|
    requires !flags[command] && ask(round, command).Reply?
    ensures Collected(ask, round, command + 1, flags[command := true], nreplies + 1, data + [ask(round, command).data])
  {
    AnsweredStep(ask, Slot(round, command));
    CountSet(flags, command);
    assert FirstAnswer(ask, Slot(round, command));
  }

  lemma NextRound<D(!new)>(ask: (int, int) -> Answer<D>, round: nat, flags: seq<bool>, nreplies: nat, data: seq<D>)
    requires Collected(ask, round, |flags|, flags, nreplies, data)
    ensures Collected(ask, round + 1, 0, flags, nreplies, data)
  {
  }

  lemma FailureStops<D(!new)>(
    ask: (int, int) -> Answer<D>, round: nat, command: nat, flags: seq<bool>, nreplies: nat, data: seq<D>, rounds: nat)
    requires Collected(ask, round, command, flags, nreplies, data) && command < |flags| && round < rounds
    requires !flags[command] && ask(round, command).Failure?
    ensures FailsAt(ask, Slot(round, command)) && !AllReply(ask, |flags|, rounds)
  {
    assert FailsAt(ask, Slot(round, command)) && SlotLess(Slot(round, command), Slot(rounds, 0));
    AllReplyIff(ask, |flags|, rounds);
  }

  lemma EndOfRounds<D(!new)>(
    ask: (int, int) -> Answer<D>, round: nat, flags: seq<bool>, nreplies: nat, data: seq<D>, rounds: nat)
    requires Collected(ask, round, 0, flags, nreplies, data) && round <= rounds
    requires nreplies == |flags| || round == rounds
    ensures nreplies == |flags| <==> AllReply(ask, |flags|, rounds)
    ensures NoFailureBefore(ask, |flags|, Slot(rounds, 0))
    ensures Delivers(ask, Before(ask, |flags|, rounds, 0), data)
  {
    CountAll(flags);
    AllReplyIff(ask, |flags|, rounds);
    if nreplies == |flags| {
      forall i | 0 <= i < |flags|
        ensures Answered(ask, round, i)
      {
        assert flags[i];
      }
      NoFailureAfterAll(ask, |flags|, round, rounds);
      NothingAfterAll(ask, |flags|, round, rounds, 0);
    }
  }

  /**
   Asks for the replies to `n` commands in at most `nretries` rounds and appends their data.
   It ends normally exactly when the first answer to every command is a reply within the
   rounds; the first failure that comes in ends it with that failure.
   */
  method CollectReplies<D(!new)>(ask: (int, int) -> Answer<D>, n: nat, nretries: int, given: seq<D>)
    returns (outcome: Outcome, dout: seq<D>)
    ensures outcome.Completed? <==> AllReply(ask, n, nretries)
    ensures outcome.Rethrown? <==> exists s: Slot :: s.round < nretries && s.command < n && FailsAt(ask, s)
    ensures outcome.Rethrown? ==>
      var s := outcome.at;
      && s.round < nretries && s.command < n
      && FailsAt(ask, s) && ask(s.round, s.command) == Failure(outcome.error)
      && NoFailureBefore(ask, n, s)
    ensures given <= dout
    ensures
      var slots := if outcome.Rethrown? then Before(ask, n, outcome.at.round, outcome.at.command)
                   else Before(ask, n, if nretries > 0 then nretries else 0, 0);
      Delivers(ask, slots, dout[|given|..])
  {
    hide Collected, FailsAt, Answered, FirstAnswer, Before, AllReply, Delivers;
    ghost var rounds: nat := if nretries > 0 then nretries else 0;
    var isReplyArrived := new bool[n](_ => false);
    var nreplies := 0;
    dout := given;
    ghost var data: seq<D> := [];
    NothingCollected(ask, isReplyArrived[..]);
    var k := 0;
    while k < nretries
      invariant 0 <= k <= rounds
      invariant Collected(ask, k, 0, isReplyArrived[..], nreplies, data) && dout == given + data
    {
      if nreplies == n {
        break;
      }
      for i := 0 to n
        invariant Collected(ask, k, i, isReplyArrived[..], nreplies, data) && dout == given + data
      {
        if isReplyArrived[i] {
          SkipKeeps(ask, k, i, isReplyArrived[..], nreplies, data);
          continue;
        }
        match ask(k, i) {
          case NotArrived =>
            SkipKeeps(ask, k, i, isReplyArrived[..], nreplies, data);
          case Failure(e) =>
            FailureStops(ask, k, i, isReplyArrived[..], nreplies, data, rounds);
            CollectedMeans(ask, k, i, isReplyArrived[..], nreplies, data);
            AllReplyOfRounds(ask, n, nretries);
            return Rethrown(Slot(k, i), e), dout;
          case Reply(d) =>
            ReplyKeeps(ask, k, i, isReplyArrived[..], nreplies, data);
            ghost var flags := isReplyArrived[..];
            isReplyArrived[i] := true;
            assert isReplyArrived[..] == flags[i := true];
            dout := dout + [d];
            data := data + [d];
            nreplies := nreplies + 1;
        }
      }
      NextRound(ask, k, isReplyArrived[..], nreplies, data);
      k := k + 1;
    }
    EndOfRounds(ask, k, isReplyArrived[..], nreplies, data, rounds);
    AllReplyOfRounds(ask, n, nretries);
    outcome := if nreplies != n then TimedOut else Completed;
  }

  lemma NothingCollected<D(!new)>(ask: (int, int) -> Answer<D>, flags: seq<bool>)
    requires forall i :: 0 <= i < |flags| ==> !flags[i]
    ensures Collected(ask, 0, 0, flags, 0, [])
  {
    CountNone(flags);
  }

  lemma CollectedMeans<D(!new)>(
    ask: (int, int) -> Answer<D>, round: nat, command: nat, flags: seq<bool>, nreplies: nat, data: seq<D>)
    requires Collected(ask, round, command, flags, nreplies, data)
    ensures Delivers(ask, Before(ask, |flags|, round, command), data)
    ensures NoFailureBefore(ask, |flags|, Slot(round, command))
  {
  }

  /** No round is made when the number of retries is negative. */
  lemma AllReplyOfRounds<D(!new)>(ask: (int, int) -> Answer<D>, n: nat, nretries: int)
    ensures AllReply(ask, n, nretries) == AllReply(ask, n, if nretries > 0 then nretries else 0)
  {
    var rounds := if nretries > 0 then nretries else 0;
    assert forall i: nat :: RepliesWithin(ask, nretries, i) == RepliesWithin(ask, rounds, i);
  }

  function Commands(slots: seq<Slot>): (r: seq<nat>)
    ensures |r| == |slots|
    ensures forall j :: 0 <= j < |slots| ==> r[j] == slots[j].command
  {
    seq(|slots|, j requires 0 <= j < |slots| => slots[j].command)
  }

  /** When all commands reply, the replies handed out are exactly one for each command. */
  lemma RepliesArePermutation<D(!new)>(ask: (int, int) -> Answer<D>, n: nat, rounds: nat)
    requires AllReply(ask, n, rounds)
    ensures IsPermutation(Commands(Before(ask, n, rounds, 0)), n)
  {
    BeforeIsExact(ask, n, rounds, 0);
    var b := Before(ask, n, rounds, 0);
    var order := Commands(b);
    forall v | 0 <= v < n
      ensures v in order
    {
      assert RepliesWithin(ask, rounds, v);
      var k: nat :| k < rounds && FirstAnswer(ask, Slot(k, v));
      var j :| 0 <= j < |b| && b[j] == Slot(k, v);
      assert order[j] == v;
    }
    forall i, j | 0 <= i < j < |order|
      ensures order[i] != order[j]
    {
      assert b[i] in b && b[j] in b && SlotLess(b[i], b[j]);
    }
    CoveringIsPermutation(order, n);
  }

  /** Replies of a lower round come first; inside a round, those of lower indexes. */
  lemma RepliesAreOrdered<D(!new)>(ask: (int, int) -> Answer<D>, n: nat, rounds: nat, j: nat, l: nat)
    requires j < l < |Before(ask, n, rounds, 0)|
    ensures var b := Before(ask, n, rounds, 0);
      SlotLess(b[j], b[l]) && FirstAnswer(ask, b[j]) && b[j].round < rounds && b[j].command < n
  {
    BeforeIsExact(ask, n, rounds, 0);
    assert Before(ask, n, rounds, 0)[j] in Before(ask, n, rounds, 0);
  }
}

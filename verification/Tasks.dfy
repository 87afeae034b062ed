/**
 A task: a device command with a priority, an optional activation time, an expiration
 time, and its place in a task sequence. Times are milliseconds since the epoch; a
 method that consults the clock takes the current time as the parameter `now`.
 */
module Tasks {
  import opened Wrappers

  datatype TaskStatus = UNKNOWN | INIT | IDLE | RUNNING | COMPLETED | FAILED | ABORTED | EXPIRED | CANCELED

  /** The reference time of a delay; `OtherRef` stands for any mode the code rejects. */
  datatype TimeRef = NowRef | CreationRef | ExternalRef(time: int) | OtherRef

  const DEFAULT_MAX_DURATION: nat := 30000

  /** Durations are divided by 1000 as integers and added as seconds. */
  function WholeSeconds(ms: nat): nat {
    ms / 1000 * 1000
  }

  /** The largest number of whole seconds in a duration. */
  lemma WholeSecondsIsLargest(ms: nat, seconds: nat)
    ensures seconds * 1000 <= ms <==> seconds * 1000 <= WholeSeconds(ms)
    ensures exists k: nat :: WholeSeconds(ms) == k * 1000
    ensures ms < WholeSeconds(ms) + 1000
  {
    assert WholeSeconds(ms) == ms / 1000 * 1000;
  }

  /** A timeout is only restarted towards a moment in the future; otherwise the old one stays. */
  function Restarted(timeout: Option<int>, moment: int, now: int): Option<int> {
    if moment - now <= 0 then timeout else Some(moment)
  }

  /** The times of a task. */
  datatype Times = Times(
    hasActivation: bool,
    activation: int,
    activationTimeout: Option<int>,
    hasExpiration: bool,
    expiration: int,
    expirationTimeout: Option<int>,
    maxDuration: nat,
    creation: int)
  {
    /** No timeout, or one that has run out. */
    predicate ActivationReached(now: int) {
      activationTimeout.None? || now >= activationTimeout.value
    }

    predicate WaitingForActivation(now: int) {
      activationTimeout.Some? && now < activationTimeout.value
    }

    predicate ExpirationReached(now: int) {
      expirationTimeout.Some? && now >= expirationTimeout.value
    }

    /** A timeout that runs towards the activation runs towards the recorded one. */
    predicate InStep() {
      activationTimeout.Some? ==> hasActivation && activation == activationTimeout.value
    }

    /** A task with an activation time expires strictly later. */
    predicate ExpiresAfterActivation() {
      hasActivation ==> activation < expiration
    }
  }

  /** Everything a task holds except its status, as a value. */
  datatype TaskView = TaskView(
    id: string,
    name: string,
    priority: int,
    isAsynch: bool,
    statusAttr: string,
    inSequence: bool,
    sequenceId: string,
    sequenceName: string,
    sequenceIndex: int,
    dependent: bool,
    depIndexes: seq<int>,
    times: Times,
    expMaxActivation: int,
    expMaxExpiration: int)
  {
    /** The time-dependent half of being runnable, apart from prerequisites. */
    predicate Runnable(status: TaskStatus, now: int) {
      status == IDLE && times.ActivationReached(now) && !times.ExpirationReached(now)
    }

    /** A direct dependency inside one sequence, judged from the recorded indexes. */
    predicate DependsOn(other: TaskView) {
      && dependent
      && sequenceId == other.sequenceId
      && sequenceName == other.sequenceName
      && other.sequenceIndex in depIndexes
    }
  }

  /** A task can run from the end of its activation timeout until that of its expiration timeout. */
  lemma RunnableInFields(v: TaskView, status: TaskStatus, now: int)
    ensures v.Runnable(status, now) <==>
      && status == IDLE
      && (forall moment :: v.times.activationTimeout == Some(moment) ==> moment <= now)
      && (forall moment :: v.times.expirationTimeout == Some(moment) ==> now < moment)
    ensures v.times.ExpirationReached(now) <==>
      exists moment :: v.times.expirationTimeout == Some(moment) && moment <= now
    ensures v.times.WaitingForActivation(now) <==>
      exists moment :: v.times.activationTimeout == Some(moment) && now < moment
  {
  }

  class Task {
    const id: string
    const cmdName: string
    const priority: int
    var status: TaskStatus
    var isAsynch: bool
    var statusAttr: string
    var inSequence: bool
    var sequenceId: string
    var sequenceName: string
    var sequenceIndex: int
    var dependent: bool
    var depIndexes: seq<int>
    var hasActivation: bool
    var activation: int
    var activationTimeout: Option<int>
    var hasExpiration: bool
    var expiration: int
    var expirationTimeout: Option<int>
    var maxDuration: nat
    var creation: int
    var expMaxActivation: int
    var expMaxExpiration: int

    function GetTimes(): Times
      reads this`hasActivation, this`activation, this`activationTimeout, this`hasExpiration,
            this`expiration, this`expirationTimeout, this`maxDuration, this`creation
    {
      Times(hasActivation, activation, activationTimeout, hasExpiration, expiration,
            expirationTimeout, maxDuration, creation)
    }

    function View(): TaskView
      reads this`hasActivation, this`activation, this`activationTimeout, this`hasExpiration,
            this`expiration, this`expirationTimeout, this`maxDuration, this`creation,
            this`isAsynch, this`statusAttr, this`inSequence, this`sequenceId, this`sequenceName,
            this`sequenceIndex, this`dependent, this`depIndexes, this`expMaxActivation, this`expMaxExpiration
    {
      TaskView(id, cmdName, priority, isAsynch, statusAttr, inSequence, sequenceId, sequenceName,
               sequenceIndex, dependent, depIndexes, GetTimes(), expMaxActivation, expMaxExpiration)
    }

    /** A fresh task expires thirty seconds after its creation and belongs to no sequence. */
    constructor (uuid: string, name: string, level: int, now: int)
      ensures status == INIT
      ensures GetTimes() == Times(false, 0, None, true, now + DEFAULT_MAX_DURATION,
                                  Some(now + DEFAULT_MAX_DURATION), DEFAULT_MAX_DURATION, now)
      ensures View() == TaskView(uuid, name, level, false, "", false, "", "", 0, false, [],
                                 GetTimes(), 0, 0)
    {
      id, cmdName, priority := uuid, name, level;
      creation := now;
      activation, expMaxActivation, expMaxExpiration := 0, 0, 0;
      activationTimeout := None;
      hasActivation := false;
      maxDuration := DEFAULT_MAX_DURATION;
      expiration := now + WholeSeconds(DEFAULT_MAX_DURATION);
      expirationTimeout := Some(now + WholeSeconds(DEFAULT_MAX_DURATION));
      hasExpiration := true;
      status := INIT;
      isAsynch, statusAttr := false, "";
      inSequence, sequenceId, sequenceName, sequenceIndex := false, "", "", 0;
      dependent, depIndexes := false, [];
    }

    method SetStatus(newStatus: TaskStatus)
      modifies this`status
      ensures status == newStatus
    {
      status := newStatus;
    }

    /** Refuses a start in the past; on success the default duration sets the expiration. */
    method SetActivationTime(start: int, now: int) returns (rc: int)
      modifies this`hasActivation, this`activation, this`activationTimeout, this`hasExpiration,
               this`expiration, this`expirationTimeout, this`maxDuration
      ensures rc == (if start < now then -1 else 0)
      ensures rc != 0 ==> GetTimes() == old(GetTimes())
      ensures rc == 0 ==>
        GetTimes() == old(GetTimes()).(hasActivation := true, activation := start, hasExpiration := true,
          expiration := start + DEFAULT_MAX_DURATION,
          activationTimeout := Restarted(old(activationTimeout), start, now),
          expirationTimeout := Some(start + DEFAULT_MAX_DURATION))
      ensures rc == 0 ==>
        (GetTimes().InStep() <==> now < start || old(activationTimeout).None? || old(activationTimeout).value == start)
      ensures old(GetTimes()).ExpiresAfterActivation() ==> GetTimes().ExpiresAfterActivation()
    {
      if start < now {
        return -1;
      }
      activation := start;
      activationTimeout := Restarted(activationTimeout, start, now);
      hasActivation := true;
      expiration := start;
      expiration := expiration + WholeSeconds(DEFAULT_MAX_DURATION);
      expirationTimeout := Restarted(expirationTimeout, expiration, now);
      hasExpiration := true;
      return 0;
    }

    /**
     Reads the clock once for the start and `later` again to judge it: a delay of no whole second
     is refused if the clock has moved on, after the activation has been overwritten.
     */
    method SetActivationTimeDelay(delay: int, now: int, later: int) returns (rc: int)
      modifies this`hasActivation, this`activation, this`activationTimeout, this`hasExpiration,
               this`expiration, this`expirationTimeout, this`maxDuration
      ensures rc == (if delay < 0 || now + WholeSeconds(delay) < later then -1 else 0)
      ensures delay < 0 ==> GetTimes() == old(GetTimes())
      ensures delay >= 0 && rc != 0 ==> GetTimes() == old(GetTimes()).(activation := now + WholeSeconds(delay))
      ensures rc == 0 ==>
        var start := now + WholeSeconds(delay);
        && GetTimes() == old(GetTimes()).(hasActivation := true, activation := start, hasExpiration := true,
             expiration := start + DEFAULT_MAX_DURATION,
             activationTimeout := Restarted(old(activationTimeout), start, later),
             expirationTimeout := Some(start + DEFAULT_MAX_DURATION))
        && (GetTimes().InStep() <==>
             later < start || old(activationTimeout).None? || old(activationTimeout).value == start)
      ensures rc == 0 ==> GetTimes().ExpiresAfterActivation()
    {
      if delay < 0 {
        return -1;
      }
      activation := now;
      activation := activation + WholeSeconds(delay);
      rc := SetActivationTime(activation, later);
    }

    /** Refuses a stop in the past or not after the activation. */
    method SetExpirationTime(stop: int, now: int) returns (rc: int)
      modifies this`expiration, this`expirationTimeout, this`hasExpiration
      ensures rc == (if stop < now || (hasActivation && stop <= activation) then -1 else 0)
      ensures rc != 0 ==> GetTimes() == old(GetTimes())
      ensures rc == 0 ==>
        GetTimes() == old(GetTimes()).(hasExpiration := true, expiration := stop,
          expirationTimeout := Restarted(old(expirationTimeout), stop, now))
      ensures old(GetTimes()).ExpiresAfterActivation() ==> GetTimes().ExpiresAfterActivation()
    {
      if stop < now {
        return -1;
      }
      if hasActivation && stop <= activation {
        return -1;
      }
      expiration := stop;
      expirationTimeout := Restarted(expirationTimeout, stop, now);
      hasExpiration := true;
      return 0;
    }

    /** The duration counts from the activation when there is one, else from `ref`.
        A rejected mode is noticed after the duration has been stored. */
    method SetMaxDuration(duration: int, ref: TimeRef, now: int) returns (rc: int)
      modifies this`hasActivation, this`activation, this`activationTimeout, this`hasExpiration,
               this`expiration, this`expirationTimeout, this`maxDuration
      ensures rc == (if duration < 0 || (!old(hasActivation) && ref.OtherRef?) then -1 else 0)
      ensures duration < 0 ==> GetTimes() == old(GetTimes())
      ensures rc != 0 && duration >= 0 ==> GetTimes() == old(GetTimes()).(maxDuration := duration)
      ensures rc == 0 ==>
        var origin := if old(hasActivation) then old(activation)
                      else if ref.NowRef? then now
                      else if ref.CreationRef? then old(creation) else ref.time;
        var stop := origin + WholeSeconds(duration);
        GetTimes() == old(GetTimes()).(maxDuration := duration, hasExpiration := true, expiration := stop,
          expirationTimeout := Restarted(old(expirationTimeout), stop, now))
      ensures old(GetTimes()).ExpiresAfterActivation() && (rc == 0 ==> duration >= 1000) ==>
                GetTimes().ExpiresAfterActivation()
    {
      if duration < 0 {
        return -1;
      }
      maxDuration := duration;
      if hasActivation {
        expiration := activation;
      } else {
        match ref {
          case NowRef => expiration := now;
          case CreationRef => expiration := creation;
          case ExternalRef(time) => expiration := time;
          case OtherRef => return -1;
        }
      }
      expiration := expiration + WholeSeconds(duration);
      expirationTimeout := Restarted(expirationTimeout, expiration, now);
      hasExpiration := true;
      return 0;
    }

    method SetTimeDelayAndDuration(delay: int, duration: int, ref: TimeRef, now: int) returns (rc: int)
      modifies this`hasActivation, this`activation, this`activationTimeout, this`hasExpiration,
               this`expiration, this`expirationTimeout, this`maxDuration
      ensures rc == (if delay < 0 || duration < 0 || ref.OtherRef? then -1 else 0)
      ensures rc != 0 ==> GetTimes() == old(GetTimes())
      ensures rc == 0 ==>
        var origin := if ref.NowRef? then now else if ref.CreationRef? then old(creation) else ref.time;
        var start := origin + WholeSeconds(delay);
        var stop := start + WholeSeconds(duration);
        GetTimes() == old(GetTimes()).(maxDuration := duration, hasActivation := true, activation := start,
          activationTimeout := Restarted(old(activationTimeout), start, now),
          hasExpiration := true, expiration := stop,
          expirationTimeout := Restarted(old(expirationTimeout), stop, now))
      ensures rc == 0 ==> (GetTimes().ExpiresAfterActivation() <==> duration >= 1000)
      ensures rc == 0 ==>
        (GetTimes().InStep() <==>
          now < activation || old(activationTimeout).None? || old(activationTimeout).value == activation)
    {
      if delay < 0 || duration < 0 {
        return -1;
      }
      match ref {
        case NowRef => activation := now;
        case CreationRef => activation := creation;
        case ExternalRef(time) => activation := time;
        case OtherRef => return -1;
      }
      activation := activation + WholeSeconds(delay);
      activationTimeout := Restarted(activationTimeout, activation, now);
      hasActivation := true;
      maxDuration := duration;
      expiration := activation;
      expiration := expiration + WholeSeconds(duration);
      expirationTimeout := Restarted(expirationTimeout, expiration, now);
      hasExpiration := true;
      return 0;
    }
  }
}

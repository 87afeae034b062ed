/**
 How a proxy helper judges its device: online, offline for a while (soft), or offline
 for at least the configured timeout (hard), together with a window of recent ping
 times. Moments are in milliseconds, timeouts in seconds.
 */
module ProxyHealth {
  import opened Wrappers

  datatype RunStatus = ONLINE | SOFT_OFFLINE | HARD_OFFLINE

  datatype Timeout = Timeout(period: int, started: int, enabled: bool) {
    predicate Expired(now: int) {
      now - started >= period * 1000
    }
  }

  datatype Health = Health(
    online: bool,
    timeout: Option<Timeout>,
    actionTimeout: int,
    pings: seq<int>,
    maxPings: int,
    pingTime: int,
    average: real)

  const INITIAL := Health(false, None, 10, [], 10, -1, -1.0)

  datatype Event =
    | Online(ping: int)
    | Offline(now: int)
    | Configure(timeout: int, now: int)
    | Resize(bufsize: int)

  function Sum(s: seq<int>): int {
    if s == [] then 0 else Sum(s[..|s| - 1]) + s[|s| - 1]
  }

  /** The sum is the one function that adds over concatenation and is each single value. */
  lemma {:induction false} SumAdds(s: seq<int>, t: seq<int>, x: int)
    ensures Sum([x]) == x && Sum(s + t) == Sum(s) + Sum(t)
    decreases |t|
  {
    assert [x][..0] == [];
    if t == [] {
      assert s + t == s;
    } else {
      assert (s + t)[..|s + t| - 1] == s + t[..|t| - 1];
      SumAdds(s, t[..|t| - 1], x);
    }
  }

  /** The mean of a window that is not empty, times its length, is the sum. */
  lemma MeanOfWindow(s: seq<int>)
    ensures s != [] ==> Mean(s) * |s| as real == Sum(s) as real
    ensures s == [] ==> Mean(s) == 0.0
  {
  }

  function Mean(s: seq<int>): real {
    if s == [] then 0.0 else Sum(s) as real / |s| as real
  }

  // ----- one step -----

  /** A full window must hold a ping to drop. */
  predicate CanPush(pings: seq<int>, maxPings: int) {
    |pings| >= maxPings ==> pings != []
  }

  /** A full window drops one ping, its oldest, before it takes a new one. */
  function Pushed(pings: seq<int>, maxPings: int, ping: int): seq<int>
    requires CanPush(pings, maxPings)
  {
    [ping] + if |pings| >= maxPings then pings[..|pings| - 1] else pings
  }

  predicate Refuses(h: Health, timeout: int) {
    timeout <= 0 || (h.timeout.Some? && !h.online && h.timeout.value.enabled)
  }

  function Step(h: Health, e: Event): Health
    requires e.Online? ==> CanPush(h.pings, h.maxPings)
  {
    match e
    case Online(ping) =>
      var pings := Pushed(h.pings, h.maxPings, ping);
      var timeout := if h.timeout.Some? then Some(h.timeout.value.(enabled := false)) else None;
      h.(online := true, timeout := timeout, pings := pings, pingTime := ping, average := Mean(pings))
    case Offline(now) =>
      var timeout :=
        if h.timeout.None? then Timeout(h.actionTimeout, now, true)
        else if !h.timeout.value.enabled || h.online then h.timeout.value.(started := now, enabled := true)
        else h.timeout.value;
      h.(online := false, timeout := Some(timeout), pings := [])
    case Configure(timeout, now) =>
      if Refuses(h, timeout) then h
      else h.(timeout := Some(Timeout(timeout, now, false)), actionTimeout := timeout)
    case Resize(bufsize) => h.(maxPings := bufsize)
  }

  function Status(h: Health, now: int): RunStatus
    requires !h.online ==> h.timeout.Some?
  {
    if h.online then ONLINE
    else if h.timeout.value.enabled && h.timeout.value.Expired(now) then HARD_OFFLINE
    else SOFT_OFFLINE
  }

  // ----- the helper object -----

  class ProxyHelper {
    var isOnline: bool
    var downtimeActionTimeout: Option<Timeout>
    var actionTimeout: int
    var pingTimeBuffer: seq<int>
    var maxBufferSize: int
    var pingTime: int
    var pingTimeAvg: real

    function View(): Health
      reads this
    {
      Health(isOnline, downtimeActionTimeout, actionTimeout, pingTimeBuffer, maxBufferSize, pingTime, pingTimeAvg)
    }

    constructor ()
      ensures View() == INITIAL
      ensures !isOnline && downtimeActionTimeout == None && actionTimeout == 10
      ensures pingTimeBuffer == [] && maxBufferSize == 10 && pingTime == -1 && pingTimeAvg == -1.0
    {
      pingTime, pingTimeAvg := -1, -1.0;
      maxBufferSize := 10;
      isOnline := false;
      pingTimeBuffer := [];
      actionTimeout := 10;
      downtimeActionTimeout := None;
    }

    method ComputePingTimeMean()
      modifies this`pingTimeAvg
      ensures pingTimeAvg == Mean(pingTimeBuffer)
    {
      if |pingTimeBuffer| == 0 {
        pingTimeAvg := 0.0;
        return;
      }
      pingTimeAvg := 0.0;
      for i := 0 to |pingTimeBuffer|
        invariant pingTimeAvg == Sum(pingTimeBuffer[..i]) as real
      {
        pingTimeAvg := pingTimeAvg + pingTimeBuffer[i] as real;
        assert pingTimeBuffer[..i + 1][..i] == pingTimeBuffer[..i];
      }
      assert pingTimeBuffer[..|pingTimeBuffer|] == pingTimeBuffer;
      pingTimeAvg := pingTimeAvg / |pingTimeBuffer| as real;
    }

    method SetOnline(ping: int)
      requires CanPush(pingTimeBuffer, maxBufferSize)
      modifies this
      ensures View() == Step(old(View()), Online(ping))
    {
      isOnline := true;
      if downtimeActionTimeout.Some? {
        downtimeActionTimeout := Some(downtimeActionTimeout.value.(enabled := false));
      }
      pingTime := ping;
      if |pingTimeBuffer| >= maxBufferSize {
        pingTimeBuffer := pingTimeBuffer[..|pingTimeBuffer| - 1];
      }
      pingTimeBuffer := [ping] + pingTimeBuffer;
      ComputePingTimeMean();
    }

    method SetOffline(now: int)
      modifies this
      ensures View() == Step(old(View()), Offline(now))
    {
      if downtimeActionTimeout.None? {
        downtimeActionTimeout := Some(Timeout(actionTimeout, now, true));
      } else if !downtimeActionTimeout.value.enabled || isOnline {
        downtimeActionTimeout := Some(downtimeActionTimeout.value.(enabled := true));
        downtimeActionTimeout := Some(downtimeActionTimeout.value.(started := now));
      }
      isOnline := false;
      pingTimeBuffer := [];
    }

    method SetTimeout(timeout: int, now: int) returns (rc: int)
      modifies this
      ensures rc == if Refuses(old(View()), timeout) then -1 else 0
      ensures View() == Step(old(View()), Configure(timeout, now))
    {
      if timeout <= 0 {
        return -1;
      }
      if downtimeActionTimeout.Some? {
        if !isOnline && downtimeActionTimeout.value.enabled {
          return -1;
        }
        downtimeActionTimeout := None;
      }
      downtimeActionTimeout := Some(Timeout(timeout, now, false));
      actionTimeout := timeout;
      return 0;
    }

    method SetMaxPingTimeBufferSize(bufsize: int)
      modifies this
      ensures View() == Step(old(View()), Resize(bufsize))
    {
      maxBufferSize := bufsize;
    }

    /** An offline helper must have been given its timeout. */
    method GetProxyRunStatus(now: int) returns (status: RunStatus)
      requires !isOnline ==> downtimeActionTimeout.Some?
      ensures status == Status(View(), now)
    {
      status := ONLINE;
      if !isOnline {
        if downtimeActionTimeout.value.enabled && downtimeActionTimeout.value.Expired(now) {
          status := HARD_OFFLINE;
        } else {
          status := SOFT_OFFLINE;
        }
      }
    }
  }

  // ----- runs -----

  /** The pings since the last offline observation, newest first. */
  function Newest(events: seq<Event>): seq<int> {
    if events == [] then []
    else
      var before, e := events[..|events| - 1], events[|events| - 1];
      match e
      case Online(ping) => [ping] + Newest(before)
      case Offline(_) => []
      case _ => Newest(before)
  }

  /** The maximal size of the window that was set last. */
  function SizeSet(events: seq<Event>): int {
    if events == [] then INITIAL.maxPings
    else
      var before, e := events[..|events| - 1], events[|events| - 1];
      if e.Resize? then e.bufsize else SizeSet(before)
  }

  /**
   The events on which the code is defined: an online observation needs a positive size, or an
   earlier ping since the last offline one, which it can drop.
   */
  predicate Defined(events: seq<Event>) {
    events != [] ==>
      var before, e := events[..|events| - 1], events[|events| - 1];
      Defined(before) && (e.Online? ==> SizeSet(before) >= 1 || Newest(before) != [])
  }

  /** A run of a new helper. */
  function Run(events: seq<Event>): (h: Health)
    requires Defined(events)
    ensures h.maxPings == SizeSet(events)
    ensures h.pings <= Newest(events) && (h.pings == [] <==> Newest(events) == [])
  {
    if events == [] then INITIAL else Step(Run(events[..|events| - 1]), events[|events| - 1])
  }

  /** One more online observation is defined exactly if the window can take its ping. */
  lemma DefinedIffCanPush(events: seq<Event>, ping: int)
    requires Defined(events)
    ensures Defined(events + [Online(ping)]) <==> CanPush(Run(events).pings, Run(events).maxPings)
  {
    assert (events + [Online(ping)])[..|events|] == events;
  }

  /** Event j is an offline observation and no online one came after it. */
  predicate OfflineSince(events: seq<Event>, j: nat) {
    && j < |events| && events[j].Offline?
    && forall k :: j < k < |events| ==> !events[k].Online?
  }

  /** The first offline observation since the last online one. */
  predicate FirstOffline(events: seq<Event>, j: nat) {
    && OfflineSince(events, j)
    && forall k: nat :: k < j ==> !OfflineSince(events, k)
  }

  ghost predicate LastSeenOnline(events: seq<Event>) {
    exists j :: 0 <= j < |events| && events[j].Online? && forall k :: j < k < |events| ==> !events[k].Offline?
  }

  /** The timeout in force: the last positive one that was not set while the device was seen offline. */
  ghost function InForce(events: seq<Event>): int {
    if events == [] then INITIAL.actionTimeout
    else
      var before, e := events[..|events| - 1], events[|events| - 1];
      if e.Configure? && e.timeout > 0 && !SeenOffline(before) then e.timeout else InForce(before)
  }

  ghost predicate SeenOffline(events: seq<Event>) {
    exists j: nat :: OfflineSince(events, j)
  }

  lemma {:induction false} SeenOfflineHasFirst(events: seq<Event>, k: nat) returns (j: nat)
    requires OfflineSince(events, k)
    ensures FirstOffline(events, j)
  {
    j := k;
    if i: nat :| i < k && OfflineSince(events, i) {
      j := SeenOfflineHasFirst(events, i);
    }
  }

  lemma OfflineSinceStep(events: seq<Event>, e: Event)
    ensures forall j: nat :: OfflineSince(events + [e], j) <==>
      if j < |events| then OfflineSince(events, j) && !e.Online? else j == |events| && e.Offline?
  {
    var more := events + [e];
    forall j: nat | j < |events|
      ensures OfflineSince(more, j) <==> OfflineSince(events, j) && !e.Online?
    {
      assert OfflineSince(more, j) ==> !more[|events|].Online?;
      assert OfflineSince(more, j) ==> forall k :: j < k < |events| ==> more[k] == events[k];
    }
  }

  lemma SeenOfflineStep(events: seq<Event>, e: Event)
    ensures SeenOffline(events + [e]) <==> e.Offline? || (SeenOffline(events) && !e.Online?)
    ensures forall j: nat :: FirstOffline(events + [e], j) <==>
      if j < |events| then FirstOffline(events, j) && !e.Online?
      else j == |events| && e.Offline? && !SeenOffline(events)
    ensures forall j: nat :: FirstOffline(events, j) ==> SeenOffline(events)
  {
    OfflineSinceStep(events, e);
    var more := events + [e];
    if e.Offline? {
      assert OfflineSince(more, |events|);
    } else if SeenOffline(events) && !e.Online? {
      var j: nat :| OfflineSince(events, j);
      assert OfflineSince(more, j);
    }
  }

  lemma LastSeenOnlineStep(events: seq<Event>, e: Event)
    ensures LastSeenOnline(events + [e]) <==> e.Online? || (LastSeenOnline(events) && !e.Offline?)
  {
    var more := events + [e];
    if e.Online? {
      assert more[|events|].Online?;
    } else if LastSeenOnline(events) && !e.Offline? {
      var j :| 0 <= j < |events| && events[j].Online? && forall k :: j < k < |events| ==> !events[k].Offline?;
      assert more[j].Online?;
    }
    if LastSeenOnline(more) && !e.Online? {
      var j :| 0 <= j < |more| && more[j].Online? && forall k :: j < k < |more| ==> !more[k].Offline?;
      assert events[j].Online? && !more[|events|].Offline?;
      assert forall k :: j < k < |events| ==> more[k] == events[k];
    }
  }

  /** What the timeout of a run has to do with its observations. */
  ghost predicate Tracks(h: Health, events: seq<Event>) {
    && h.actionTimeout == InForce(events)
    && (h.timeout.Some? ==> h.timeout.value.period == h.actionTimeout)
    && (h.timeout.Some? && h.timeout.value.enabled <==> SeenOffline(events))
    && (SeenOffline(events) ==> forall j: nat :: FirstOffline(events, j) ==> events[j].now == h.timeout.value.started)
    && (h.online <==> LastSeenOnline(events))
    && (h.online ==> !SeenOffline(events))
  }

  lemma InForceStep(events: seq<Event>, e: Event)
    ensures InForce(events + [e]) ==
      if e.Configure? && e.timeout > 0 && !SeenOffline(events) then e.timeout else InForce(events)
  {
    assert (events + [e])[..|events|] == events;
  }

  lemma StepTracks(h: Health, events: seq<Event>, e: Event)
    requires Tracks(h, events) && (e.Online? ==> CanPush(h.pings, h.maxPings))
    ensures Tracks(Step(h, e), events + [e])
  {
    var more := events + [e];
    SeenOfflineStep(events, e);
    LastSeenOnlineStep(events, e);
    InForceStep(events, e);
    hide SeenOffline, FirstOffline, LastSeenOnline, InForce;
    assert forall j: nat :: j < |events| ==> more[j] == events[j];
    match e
    case Online(_) =>
    case Offline(_) =>
    case Configure(_, _) =>
    case Resize(_) =>
  }

  lemma {:induction false} RunTracks(events: seq<Event>)
    requires Defined(events)
    ensures Tracks(Run(events), events)
  {
    if events != [] {
      var before, e := events[..|events| - 1], events[|events| - 1];
      RunTracks(before);
      StepTracks(Run(before), before, e);
      assert events == before + [e];
    }
  }

  /** Something has been observed, or a timeout has been set. */
  predicate Settled(events: seq<Event>) {
    exists k :: 0 <= k < |events| && Settles(events[k])
  }

  predicate Settles(e: Event) {
    e.Online? || e.Offline? || (e.Configure? && e.timeout > 0)
  }

  /** The run status can be asked for exactly then; before, the code follows a null pointer. */
  lemma {:induction false} StatusIsDefinedIff(events: seq<Event>)
    requires Defined(events)
    ensures Run(events).online || Run(events).timeout.Some? <==> Settled(events)
  {
    if events != [] {
      var before, e := events[..|events| - 1], events[|events| - 1];
      StatusIsDefinedIff(before);
      if Settled(before) {
        var k :| 0 <= k < |before| && Settles(before[k]);
        assert Settles(events[k]);
      }
    }
  }

  /** A new helper that has at most been given a size cannot be asked. */
  lemma FreshHelperHasNoStatus(bufsize: int)
    ensures !Settled([]) && !Run([]).online && Run([]).timeout.None?
    ensures Defined([Resize(bufsize)]) && !Settled([Resize(bufsize)])
    ensures !Run([Resize(bufsize)]).online && Run([Resize(bufsize)]).timeout.None?
  {
    assert [Resize(bufsize)][..0] == [];
    StatusIsDefinedIff([]);
    StatusIsDefinedIff([Resize(bufsize)]);
  }

  /** The device is hard offline exactly when its first offline observation is as old as the timeout in force. */
  lemma {:induction false} HardOfflineIff(events: seq<Event>, now: int)
    requires Defined(events) && Settled(events)
    ensures Run(events).online || Run(events).timeout.Some?
    ensures Status(Run(events), now) == ONLINE <==> LastSeenOnline(events)
    ensures Status(Run(events), now) == HARD_OFFLINE <==>
      exists j: nat :: FirstOffline(events, j) && now - events[j].now >= InForce(events) * 1000
  {
    StatusIsDefinedIff(events);
    RunTracks(events);
    if SeenOffline(events) {
      var k: nat :| OfflineSince(events, k);
      var j := SeenOfflineHasFirst(events, k);
    }
  }

  // ----- the ping window -----

  /**
   In every run that is defined, the window holds the newest pings, however its maximal size
   is changed, and the average is their mean.
   */
  lemma {:induction false} WindowHoldsNewest(events: seq<Event>)
    requires Defined(events)
    ensures var h := Run(events);
      && h.pings <= Newest(events) && (h.pings == [] <==> Newest(events) == [])
      && (h.pings != [] ==> h.average == Mean(h.pings))
  {
    if events != [] {
      WindowHoldsNewest(events[..|events| - 1]);
    }
  }

  /** Without a change of the size to zero or less every run is defined. */
  lemma {:induction false} PositiveSizesAreDefined(events: seq<Event>)
    requires forall i :: 0 <= i < |events| && events[i].Resize? ==> events[i].bufsize >= 1
    ensures Defined(events) && SizeSet(events) >= 1
  {
    if events != [] {
      PositiveSizesAreDefined(events[..|events| - 1]);
    }
  }

  /** With a maximal size set once, the window holds as many of the newest pings as it can. */
  lemma {:induction false} WindowIsFull(max: int, events: seq<Event>)
    requires max >= 1 && forall i :: 0 <= i < |events| ==> !events[i].Resize?
    ensures var all := [Resize(max)] + events;
      && Defined(all) && Run(all).maxPings == max
      && Newest(all) == Newest(events)
      && Run(all).pings == if |Newest(events)| <= max then Newest(events) else Newest(events)[..max]
  {
    var all := [Resize(max)] + events;
    PositiveSizesAreDefined(all);
    if events != [] {
      var before := events[..|events| - 1];
      assert all[..|all| - 1] == [Resize(max)] + before;
      WindowIsFull(max, before);
    } else {
      assert all[..|all| - 1] == [];
    }
  }

  /** The smallest run that is not defined. */
  lemma NoRoomForFirstPing(ping: int)
    ensures Defined([Resize(0)]) && !Defined([Resize(0), Online(ping)])
    ensures !CanPush(Run([Resize(0)]).pings, Run([Resize(0)]).maxPings)
  {
    assert [Resize(0)][..0] == [];
    assert [Resize(0), Online(ping)][..1] == [Resize(0)];
    DefinedIffCanPush([Resize(0)], ping);
  }
}

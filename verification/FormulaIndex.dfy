/**
 Formulas registered for device attributes, and the index from events to the formulas that
 watch them. Device and attribute names are compared without regard to case.
 */
module FormulaIndex {
  import opened Wrappers
  import opened Graph
  import opened TaskOrder

  /** The kind of event; its printed name is not part of this model. */
  type EventType = nat

  // ----- names without case -----

  function ToLower(c: char): char {
    if 'A' <= c <= 'Z' then ((c as int) + 32) as char else c
  }

  function Lower(s: string): (r: string)
    ensures |r| == |s| && forall i :: 0 <= i < |s| ==> r[i] == ToLower(s[i])
  {
    seq(|s|, i requires 0 <= i < |s| => ToLower(s[i]))
  }

  /** The same character, or the upper and the lower case of one letter. */
  predicate SameLetter(c: char, d: char) {
    || c == d
    || ('A' <= c <= 'Z' && d as int == c as int - 'A' as int + 'a' as int)
    || ('A' <= d <= 'Z' && c as int == d as int - 'A' as int + 'a' as int)
  }

  predicate SameButCase(s: string, t: string) {
    |s| == |t| && forall i :: 0 <= i < |s| ==> SameLetter(s[i], t[i])
  }

  lemma LettersIff(c: char, d: char)
    ensures ToLower(c) == ToLower(d) <==> SameLetter(c, d)
  {
  }

  /** Names agree in lower case exactly if they differ in the case of letters only. */
  lemma LowerIff(s: string, t: string)
    ensures Lower(s) == Lower(t) <==> SameButCase(s, t)
  {
    if |s| == |t| {
      forall i | 0 <= i < |s|
        ensures Lower(s)[i] == Lower(t)[i] <==> SameLetter(s[i], t[i])
      {
        LettersIff(s[i], t[i]);
      }
    }
  }

  datatype Event = Event(device: string, attr: string, kind: EventType)

  /** What two events must share to be the same key of the index. */
  function KeyOf(e: Event): Event {
    Event(Lower(e.device), Lower(e.attr), e.kind)
  }

  predicate SameEvent(a: Event, b: Event) {
    Lower(a.attr) == Lower(b.attr) && Lower(a.device) == Lower(b.device) && a.kind == b.kind
  }

  /** The order of the index: attribute, device and kind of the lower-cased names. */
  predicate EventLess(a: Event, b: Event) {
    if Lower(a.attr) != Lower(b.attr) then StringLess(Lower(a.attr), Lower(b.attr))
    else if Lower(a.device) != Lower(b.device) then StringLess(Lower(a.device), Lower(b.device))
    else a.kind < b.kind
  }

  /** The order is a strict weak order, and its ties are exactly the equal events. */
  lemma EventOrderIsLawful(a: Event, b: Event, c: Event)
    ensures !EventLess(a, a)
    ensures EventLess(a, b) && EventLess(b, c) ==> EventLess(a, c)
    ensures !EventLess(a, b) && !EventLess(b, a) <==> SameEvent(a, b)
    ensures SameEvent(a, b) <==> KeyOf(a) == KeyOf(b)
  {
    StringLessConnected(Lower(a.attr), Lower(b.attr));
    StringLessConnected(Lower(a.attr), Lower(c.attr));
    StringLessConnected(Lower(a.device), Lower(b.device));
    StringLessConnected(Lower(a.device), Lower(c.device));
    if StringLess(Lower(a.attr), Lower(b.attr)) && StringLess(Lower(b.attr), Lower(c.attr)) {
      StringLessTransitive(Lower(a.attr), Lower(b.attr), Lower(c.attr));
    }
    if StringLess(Lower(a.device), Lower(b.device)) && StringLess(Lower(b.device), Lower(c.device)) {
      StringLessTransitive(Lower(a.device), Lower(b.device), Lower(c.device));
    }
  }

  // ----- formulas -----

  class FormulaVar {
    const isProxyAttr: bool
    const device: string
    const attr: string
    var value: Option<int>

    constructor (isProxyAttr: bool, device: string, attr: string)
      ensures this.isProxyAttr == isProxyAttr && this.device == device && this.attr == attr && value == None
    {
      this.isProxyAttr, this.device, this.attr, value := isProxyAttr, device, attr, None;
    }

    /** The variable is fed by this attribute of this device. */
    predicate FedBy(device: string, attr: string) {
      isProxyAttr && Lower(this.device) == Lower(device) && Lower(this.attr) == Lower(attr)
    }
  }

  class FormulaData {
    const vars: seq<FormulaVar>      // in the order of the symbol map
    const modes: seq<EventType>

    constructor (vars: seq<FormulaVar>, modes: seq<EventType>)
      ensures this.vars == vars && this.modes == modes
    {
      this.vars, this.modes := vars, modes;
    }

    /** Some variable of the formula is fed by the event, and the formula is evaluated on it. */
    predicate Watches(e: Event) {
      e.kind in modes && exists i :: 0 <= i < |vars| && vars[i].FedBy(e.device, e.attr)
    }

    /** No variable from position `i` on and before `k` is fed by the attribute. */
    predicate NoneFedBefore(device: string, attr: string, i: nat, k: nat)
      requires k <= |vars|
    {
      forall j :: i <= j < k ==> !vars[j].FedBy(device, attr)
    }

    function FirstFed(device: string, attr: string, i: nat): (r: Option<FormulaVar>)
      requires i <= |vars|
      ensures r.Some? <==> exists k :: i <= k < |vars| && vars[k].FedBy(device, attr)
      ensures r.Some? ==> r.value in vars && r.value.FedBy(device, attr)
      decreases |vars| - i
    {
      if i == |vars| then None
      else if vars[i].FedBy(device, attr) then Some(vars[i])
      else FirstFed(device, attr, i + 1)
    }

    /** The value of a variable after an event, which was `was` before. */
    function ValueAfter(
        e: Event, value: int, accepts: set<FormulaVar>, v: FormulaVar, was: Option<int>): Option<int>
    {
      if FirstFed(e.device, e.attr, 0) == Some(v) && v in accepts then Some(value) else was
    }

    /** Sets the first variable fed by the event; `accepts` tells which variables take the value. */
    method SetEventValue(e: Event, value: int, accepts: set<FormulaVar>) returns (rc: int)
      modifies vars`value
      ensures var found := FirstFed(e.device, e.attr, 0);
        && rc == (if found.Some? && found.value in accepts then 0 else -1)
        && forall v :: v in vars ==>
             v.value == ValueAfter(e, value, accepts, v, old(v.value))
    {
      var i := 0;
      while i < |vars|
        invariant 0 <= i <= |vars|
        invariant FirstFed(e.device, e.attr, 0) == FirstFed(e.device, e.attr, i)
      {
        if vars[i].isProxyAttr && Lower(vars[i].device) == Lower(e.device) && Lower(vars[i].attr) == Lower(e.attr) {
          if vars[i] !in accepts {
            return -1;
          }
          vars[i].value := Some(value);
          return 0;
        }
        i := i + 1;
      }
      return -1;
    }
  }

  /**
   After an event all the variables that it feeds hold its value exactly if each of them held it
   before, or takes it and has no fed variable before its first position. For fresh values this
   means that a single variable is fed.
   */
  lemma AllFedVariablesAreSetIff(
      f: FormulaData, e: Event, value: int, accepts: set<FormulaVar>, was: FormulaVar -> Option<int>)
    ensures
      (forall v :: v in f.vars && v.FedBy(e.device, e.attr) ==>
         f.ValueAfter(e, value, accepts, v, was(v)) == Some(value))
      <==>
      (forall v :: v in f.vars && v.FedBy(e.device, e.attr) ==>
         was(v) == Some(value) ||
         (v in accepts && exists k :: 0 <= k < |f.vars| && f.vars[k] == v && f.NoneFedBefore(e.device, e.attr, 0, k)))
  {
    forall v | v in f.vars && v.FedBy(e.device, e.attr)
      ensures f.FirstFed(e.device, e.attr, 0) == Some(v) <==>
        exists k :: 0 <= k < |f.vars| && f.vars[k] == v && f.NoneFedBefore(e.device, e.attr, 0, k)
    {
      FirstFedIff(f, e.device, e.attr, v);
    }
  }

  lemma {:induction false} FirstFedPosition(f: FormulaData, device: string, attr: string, i: nat) returns (k: nat)
    requires i <= |f.vars| && f.FirstFed(device, attr, i).Some?
    ensures i <= k < |f.vars| && Some(f.vars[k]) == f.FirstFed(device, attr, i)
    ensures f.NoneFedBefore(device, attr, i, k) && f.vars[k].FedBy(device, attr)
    decreases |f.vars| - i
  {
    k := i;
    if !f.vars[i].FedBy(device, attr) {
      k := FirstFedPosition(f, device, attr, i + 1);
    }
  }

  /** The variable that is found is the first one that is fed. */
  lemma FirstFedIff(f: FormulaData, device: string, attr: string, v: FormulaVar)
    requires v.FedBy(device, attr)
    ensures f.FirstFed(device, attr, 0) == Some(v) <==>
      exists k :: 0 <= k < |f.vars| && f.vars[k] == v && f.NoneFedBefore(device, attr, 0, k)
  {
    if f.FirstFed(device, attr, 0).Some? {
      var m := FirstFedPosition(f, device, attr, 0);
      if k :| 0 <= k < |f.vars| && f.vars[k] == v && f.NoneFedBefore(device, attr, 0, k) {
        assert k == m;
      }
    }
  }

  /** Two variables of a formula with the same attribute: the second one never gets a value. */
  method SetTwoVariables(device: string, attr: string, kind: EventType, value: int)
    returns (f: FormulaData, rc: int)
    ensures |f.vars| == 2 && f.vars[0] != f.vars[1] && f.Watches(Event(device, attr, kind))
    ensures f.vars[0].FedBy(device, attr) && f.vars[1].FedBy(device, attr)
    ensures rc == 0 && f.vars[0].value == Some(value) && f.vars[1].value == None
  {
    var x := new FormulaVar(true, device, attr);
    var y := new FormulaVar(true, device, attr);
    f := new FormulaData([x, y], [kind]);
    assert f.vars[0].FedBy(device, attr);
    rc := f.SetEventValue(Event(device, attr, kind), value, {x, y});
  }

  /** A proxy variable is fed by what differs from it in the case of letters only. */
  lemma FedByIff(v: FormulaVar, device: string, attr: string)
    ensures v.FedBy(device, attr) <==> v.isProxyAttr && SameButCase(v.device, device) && SameButCase(v.attr, attr)
  {
    LowerIff(v.device, device);
    LowerIff(v.attr, attr);
  }

  /** The kind of the event is a mode of the formula, and one of its proxy variables has its names but for case. */
  ghost predicate HasVariableFor(f: FormulaData, e: Event) {
    e.kind in f.modes &&
    exists v :: v in f.vars && v.isProxyAttr && SameButCase(v.device, e.device) && SameButCase(v.attr, e.attr)
  }

  lemma WatchesIff(f: FormulaData, e: Event)
    ensures f.Watches(e) <==> HasVariableFor(f, e)
  {
    forall v | v in f.vars
      ensures v.FedBy(e.device, e.attr) <==>
        v.isProxyAttr && SameButCase(v.device, e.device) && SameButCase(v.attr, e.attr)
    {
      FedByIff(v, e.device, e.attr);
    }
    hide SameButCase;
    if f.Watches(e) {
      var i :| 0 <= i < |f.vars| && f.vars[i].FedBy(e.device, e.attr);
      assert f.vars[i] in f.vars;
    }
  }

  /** Events that differ in the case of letters only are watched by the same formulas and are one key. */
  lemma CaseDoesNotMatter(f: FormulaData, e: Event, e': Event)
    requires SameButCase(e.device, e'.device) && SameButCase(e.attr, e'.attr) && e.kind == e'.kind
    ensures f.Watches(e) <==> f.Watches(e')
    ensures KeyOf(e) == KeyOf(e') && SameEvent(e, e') && !EventLess(e, e') && !EventLess(e', e)
    ensures f.FirstFed(e.device, e.attr, 0) == f.FirstFed(e'.device, e'.attr, 0)
  {
    LowerIff(e.device, e'.device);
    LowerIff(e.attr, e'.attr);
    EventOrderIsLawful(e, e', e);
    EventOrderIsLawful(e', e, e);
    hide Lower, EventLess;
    assert forall v: FormulaVar :: v in f.vars ==> (v.FedBy(e.device, e.attr) <==> v.FedBy(e'.device, e'.attr));
    SameFirstFed(f, e, e', 0);
  }

  lemma {:induction false} SameFirstFed(f: FormulaData, e: Event, e': Event, i: nat)
    requires i <= |f.vars|
    requires forall k :: i <= k < |f.vars| ==>
      (f.vars[k].FedBy(e.device, e.attr) <==> f.vars[k].FedBy(e'.device, e'.attr))
    ensures f.FirstFed(e.device, e.attr, i) == f.FirstFed(e'.device, e'.attr, i)
    decreases |f.vars| - i
  {
    if i < |f.vars| {
      SameFirstFed(f, e, e', i + 1);
    }
  }

  // ----- the index -----

  type FormulaMap = map<string, FormulaData>
  type EventMap = map<Event, seq<string>>

  /** Under the key `k` the index lists, once each, the names of exactly the formulas that watch it. */
  ghost predicate AgreesAt(formulas: FormulaMap, events: EventMap, k: Event) {
    if k in events then
      && Distinct(events[k]) && events[k] != []
      && forall name :: name in events[k] <==> name in formulas && formulas[name].Watches(k)
    else
      forall name :: name in formulas ==> !formulas[name].Watches(k)
  }

  /** The index agrees, for every key, with a scan of all the formulas. */
  ghost predicate Agrees(formulas: FormulaMap, events: EventMap) {
    && (forall k :: k in events ==> KeyOf(k) == k)
    && forall k: Event :: KeyOf(k) == k ==> AgreesAt(formulas, events, k)
  }

  function Filled(events: EventMap, k: Event, name: string): EventMap {
    if k !in events then events[k := [name]]
    else if name in events[k] then events
    else events[k := events[k] + [name]]
  }

  function FilledAll(events: EventMap, keys: seq<Event>, name: string): EventMap
    decreases |keys|
  {
    if keys == [] then events else FilledAll(Filled(events, keys[0], name), keys[1..], name)
  }

  /** The keys of one variable, one for each evaluation mode. */
  function KeysOfVar(v: FormulaVar, modes: seq<EventType>): seq<Event> {
    seq(|modes|, j requires 0 <= j < |modes| => KeyOf(Event(v.device, v.attr, modes[j])))
  }

  /** The keys of a formula: its proxy variables in order, each with all evaluation modes. */
  function KeysOf(vars: seq<FormulaVar>, modes: seq<EventType>): seq<Event> {
    if vars == [] then []
    else (if vars[0].isProxyAttr then KeysOfVar(vars[0], modes) else []) + KeysOf(vars[1..], modes)
  }

  lemma {:induction false} KeysAreWatched(vars: seq<FormulaVar>, modes: seq<EventType>, k: Event)
    requires KeyOf(k) == k
    ensures k in KeysOf(vars, modes) <==>
      k.kind in modes && exists i :: 0 <= i < |vars| && vars[i].FedBy(k.device, k.attr)
  {
    if vars != [] {
      KeysAreWatched(vars[1..], modes, k);
      assert forall i :: 0 <= i < |vars[1..]| ==> vars[1..][i] == vars[i + 1];
      var v := vars[0];
      var own := KeysOfVar(v, modes);
      if k.kind in modes && v.FedBy(k.device, k.attr) {
        var j :| 0 <= j < |modes| && modes[j] == k.kind;
        assert own[j] == k;
      }
      if exists i :: 0 <= i < |vars| && vars[i].FedBy(k.device, k.attr) {
        var i :| 0 <= i < |vars| && vars[i].FedBy(k.device, k.attr);
        assert i == 0 || vars[1..][i - 1].FedBy(k.device, k.attr);
      }
    }
  }

  lemma LowerTwice(s: string)
    ensures Lower(Lower(s)) == Lower(s)
  {
  }

  lemma {:induction false} KeysAreKeys(vars: seq<FormulaVar>, modes: seq<EventType>, k: Event)
    ensures k in KeysOf(vars, modes) ==> KeyOf(k) == k
  {
    if vars != [] {
      KeysAreKeys(vars[1..], modes, k);
      LowerTwice(vars[0].device);
      LowerTwice(vars[0].attr);
    }
  }

  /** Filling adds a new name once under each of the keys and changes nothing else. */
  ghost predicate IsFilled(events: EventMap, keys: set<Event>, name: string, events': EventMap) {
    && events'.Keys == events.Keys + keys
    && forall k :: k in events' ==>
         events'[k] == (if k in events then events[k] else []) + (if k in keys then [name] else [])
  }

  lemma FilledOnce(events: EventMap, done: set<Event>, current: EventMap, k: Event, name: string)
    requires IsFilled(events, done, name, current) && forall k :: k in events ==> name !in events[k]
    ensures IsFilled(events, done + {k}, name, Filled(current, k, name))
  {
    if k in done {
      assert current[k][|current[k]| - 1] == name;
    }
  }

  lemma {:induction false} FilledAllFills(
      events: EventMap, done: set<Event>, current: EventMap, keys: seq<Event>, name: string)
    requires IsFilled(events, done, name, current) && forall k :: k in events ==> name !in events[k]
    ensures IsFilled(events, done + Elements(keys), name, FilledAll(current, keys, name))
    decreases |keys|
  {
    if keys == [] {
      assert done + Elements(keys) == done;
    } else {
      var k := keys[0];
      var next := Filled(current, k, name);
      FilledOnce(events, done, current, k, name);
      FilledAllFills(events, done + {k}, next, keys[1..], name);
      assert done + {k} + Elements(keys[1..]) == done + Elements(keys);
    }
  }

  lemma AgreementAtKey(formulas: FormulaMap, events: EventMap, events': EventMap,
                       keys: set<Event>, name: string, f: FormulaData, k: Event)
    requires AgreesAt(formulas, events, k) && name !in formulas
    requires IsFilled(events, keys, name, events') && (k in keys <==> f.Watches(k))
    ensures AgreesAt(formulas[name := f], events', k)
  {
    if k in events {
      assert name !in events[k];
    }
  }

  /** Registering a formula under a new name keeps the index in agreement. */
  lemma RegisteringKeepsAgreement(formulas: FormulaMap, events: EventMap, name: string, f: FormulaData)
    requires Agrees(formulas, events) && name !in formulas
    ensures Agrees(formulas[name := f], FilledAll(events, KeysOf(f.vars, f.modes), name))
  {
    var keys := KeysOf(f.vars, f.modes);
    var events' := FilledAll(events, keys, name);
    forall k | k in events
      ensures name !in events[k]
    {
      assert AgreesAt(formulas, events, k);
    }
    FilledAllFills(events, {}, events, keys, name);
    assert IsFilled(events, Elements(keys), name, events') by {
      assert {} + Elements(keys) == Elements(keys);
    }
    forall k: Event | KeyOf(k) == k
      ensures AgreesAt(formulas[name := f], events', k)
    {
      KeysAreWatched(f.vars, f.modes, k);
      AgreementAtKey(formulas, events, events', Elements(keys), name, f, k);
    }
    forall k | k in events'
      ensures KeyOf(k) == k
    {
      KeysAreKeys(f.vars, f.modes, k);
    }
  }

  // ----- passing a value on -----

  function VarsOf(formulas: seq<FormulaData>): set<FormulaVar> {
    set i, v | 0 <= i < |formulas| && v in formulas[i].vars :: v
  }

  /** `v` is the first variable fed by the event in one of the first `n` formulas. */
  predicate IsTarget(formulas: seq<FormulaData>, n: nat, e: Event, v: FormulaVar)
    requires n <= |formulas|
  {
    exists i :: 0 <= i < n && formulas[i].FirstFed(e.device, e.attr, 0) == Some(v)
  }

  /** The first `n` formulas have variables for the event, and all of them take its value. */
  predicate AllAccept(formulas: seq<FormulaData>, n: nat, e: Event, accepts: set<FormulaVar>)
    requires n <= |formulas|
  {
    forall i :: 0 <= i < n ==>
      var found := formulas[i].FirstFed(e.device, e.attr, 0); found.Some? && found.value in accepts
  }

  lemma NextTarget(formulas: seq<FormulaData>, i: nat, e: Event, accepts: set<FormulaVar>)
    requires i < |formulas|
    ensures var found := formulas[i].FirstFed(e.device, e.attr, 0);
      && (forall v :: IsTarget(formulas, i + 1, e, v) <==> IsTarget(formulas, i, e, v) || found == Some(v))
      && (AllAccept(formulas, i + 1, e, accepts)
          <==> AllAccept(formulas, i, e, accepts) && found.Some? && found.value in accepts)
    ensures forall v :: v in formulas[i].vars ==> v in VarsOf(formulas)
  {
  }

  /** Sets the value in every formula and goes on after a refusal; 1 reports that there was one. */
  method SetInAll(formulas: seq<FormulaData>, e: Event, value: int, accepts: set<FormulaVar>) returns (status: int)
    modifies VarsOf(formulas)`value
    ensures status == if AllAccept(formulas, |formulas|, e, accepts) then 0 else 1
    ensures forall v :: v in VarsOf(formulas) ==>
      v.value == if IsTarget(formulas, |formulas|, e, v) && v in accepts then Some(value) else old(v.value)
  {
    status := 0;
    assert AllAccept(formulas, 0, e, accepts) && forall v :: !IsTarget(formulas, 0, e, v);
    hide *;
    for i := 0 to |formulas|
      invariant status == if AllAccept(formulas, i, e, accepts) then 0 else 1
      invariant forall v :: v in VarsOf(formulas) ==>
        v.value == if IsTarget(formulas, i, e, v) && v in accepts then Some(value) else old(v.value)
    {
      NextTarget(formulas, i, e, accepts);
      var done := formulas[i].SetEventValue(e, value, accepts);
      if done < 0 {
        status := 1;
      }
    }
  }

  // ----- the manager -----

  class FormulaManager {
    var attrFormulaMap: FormulaMap
    var eventAttrsMap: EventMap

    constructor ()
      ensures attrFormulaMap == map[] && eventAttrsMap == map[]
      ensures Agrees(attrFormulaMap, eventAttrsMap)
    {
      attrFormulaMap, eventAttrsMap := map[], map[];
    }

    method FillEventAttrMap(name: string, device: string, attr: string, kind: EventType)
      modifies this`eventAttrsMap
      ensures eventAttrsMap == Filled(old(eventAttrsMap), KeyOf(Event(device, attr, kind)), name)
    {
      var key := KeyOf(Event(device, attr, kind));
      if key in eventAttrsMap {
        if name !in eventAttrsMap[key] {
          eventAttrsMap := eventAttrsMap[key := eventAttrsMap[key] + [name]];
        }
      } else {
        eventAttrsMap := eventAttrsMap[key := [name]];
      }
    }

    lemma FilledAppend(events: EventMap, a: seq<Event>, b: seq<Event>, name: string)
      ensures FilledAll(events, a + b, name) == FilledAll(FilledAll(events, a, name), b, name)
      decreases |a|
    {
      if a == [] {
        assert a + b == b;
      } else {
        assert (a + b)[1..] == a[1..] + b;
        FilledAppend(Filled(events, a[0], name), a[1..], b, name);
      }
    }

    method FillForVar(name: string, v: FormulaVar, modes: seq<EventType>)
      modifies this`eventAttrsMap
      ensures eventAttrsMap == FilledAll(old(eventAttrsMap), KeysOfVar(v, modes), name)
    {
      ghost var events, keys := eventAttrsMap, KeysOfVar(v, modes);
      for j := 0 to |modes|
        invariant eventAttrsMap == FilledAll(events, keys[..j], name)
      {
        FillEventAttrMap(name, v.device, v.attr, modes[j]);
        FilledAppend(events, keys[..j], [keys[j]], name);
        assert keys[..j + 1] == keys[..j] + [keys[j]];
      }
      assert keys[..|modes|] == keys;
    }

    method FillForFormula(name: string, f: FormulaData)
      modifies this`eventAttrsMap
      ensures eventAttrsMap == FilledAll(old(eventAttrsMap), KeysOf(f.vars, f.modes), name)
    {
      ghost var events, keys := eventAttrsMap, KeysOf(f.vars, f.modes);
      var i := 0;
      while i < |f.vars|
        invariant 0 <= i <= |f.vars|
        invariant FilledAll(events, keys, name) == FilledAll(eventAttrsMap, KeysOf(f.vars[i..], f.modes), name)
      {
        var v := f.vars[i];
        assert f.vars[i..][1..] == f.vars[i + 1..];
        FilledAppend(eventAttrsMap, if v.isProxyAttr then KeysOfVar(v, f.modes) else [],
                     KeysOf(f.vars[i + 1..], f.modes), name);
        if v.isProxyAttr {
          FillForVar(name, v, f.modes);
        }
        i := i + 1;
      }
      assert f.vars[i..] == [];
    }

    /** Registers a formula; `subscribed` tells for which variables proxy and events could be registered. */
    method RegisterFormula(name: string, f: FormulaData, subscribed: set<FormulaVar>) returns (rc: int)
      requires Agrees(attrFormulaMap, eventAttrsMap)
      modifies this
      ensures Agrees(attrFormulaMap, eventAttrsMap)
      ensures var fits := forall v :: v in f.vars && v.isProxyAttr ==> v in subscribed;
        && rc == (if name in old(attrFormulaMap) || fits then 0 else -1)
        && if name !in old(attrFormulaMap) && fits
           then attrFormulaMap.Keys == old(attrFormulaMap).Keys + {name}
             && attrFormulaMap[name].vars == f.vars && attrFormulaMap[name].modes == f.modes
             && forall other :: other in old(attrFormulaMap) ==> attrFormulaMap[other] == old(attrFormulaMap)[other]
           else attrFormulaMap == old(attrFormulaMap) && eventAttrsMap == old(eventAttrsMap)
    {
      if name in attrFormulaMap {
        return 0;
      }
      var status := 0;
      var i := 0;
      while i < |f.vars| && status == 0
        invariant 0 <= i <= |f.vars|
        invariant status == 0 ==> forall k :: 0 <= k < i && f.vars[k].isProxyAttr ==> f.vars[k] in subscribed
        invariant status != 0 ==> exists k :: 0 <= k < |f.vars| && f.vars[k].isProxyAttr && f.vars[k] !in subscribed
        decreases |f.vars| - i, if status == 0 then 1 else 0
      {
        if f.vars[i].isProxyAttr && f.vars[i] !in subscribed {
          status := -1;
        } else {
          i := i + 1;
        }
      }
      if status != 0 {
        return -1;
      }
      var copy := new FormulaData(f.vars, f.modes);
      RegisteringKeepsAgreement(attrFormulaMap, eventAttrsMap, name, copy);
      attrFormulaMap := attrFormulaMap[name := copy];
      FillForFormula(name, copy);
      return 0;
    }

    lemma Listed(e: Event)
      requires Agrees(attrFormulaMap, eventAttrsMap)
      ensures var key := KeyOf(e);
        if key in eventAttrsMap then
          && Distinct(eventAttrsMap[key]) && eventAttrsMap[key] != []
          && forall name :: name in eventAttrsMap[key] <==> name in attrFormulaMap && attrFormulaMap[name].Watches(e)
        else
          forall name :: name in attrFormulaMap ==> !attrFormulaMap[name].Watches(e)
    {
      WatchingIgnoresCase(e);
      assert AgreesAt(attrFormulaMap, eventAttrsMap, KeyOf(e));
    }

    /** The names and formulas under an event: exactly those that watch it, none listed twice. */
    method GetFormulasLinkedToEvent(e: Event) returns (rc: int, names: seq<string>, formulas: seq<FormulaData>)
      requires Agrees(attrFormulaMap, eventAttrsMap)
      ensures rc == 0 || (rc == -1 && names == [] && formulas == [])
      ensures rc == 0 <==> exists name :: name in attrFormulaMap && attrFormulaMap[name].Watches(e)
      ensures Distinct(names) && |formulas| == |names|
      ensures forall name :: name in names <==> name in attrFormulaMap && attrFormulaMap[name].Watches(e)
      ensures forall name :: name in names <==> name in attrFormulaMap && HasVariableFor(attrFormulaMap[name], e)
      ensures forall i :: 0 <= i < |names| ==> names[i] in attrFormulaMap && formulas[i] == attrFormulaMap[names[i]]
    {
      names, formulas := [], [];
      var key := KeyOf(e);
      WatchingIgnoresCase(e);
      Listed(e);
      hide Agrees, AgreesAt;
      forall name | name in attrFormulaMap
        ensures attrFormulaMap[name].Watches(e) <==> HasVariableFor(attrFormulaMap[name], e)
      {
        WatchesIff(attrFormulaMap[name], e);
      }
      hide FormulaData.Watches, HasVariableFor, KeyOf;
      if key !in eventAttrsMap {
        return -1, names, formulas;
      }
      names := eventAttrsMap[key];
      for i := 0 to |names|
        invariant |formulas| == i
        invariant forall k :: 0 <= k < i ==> formulas[k] == attrFormulaMap[names[k]]
      {
        assert names[i] in attrFormulaMap;  // so the look-up cannot fail
        formulas := formulas + [attrFormulaMap[names[i]]];
      }
      assert names[0] in names;
      return 0, names, formulas;
    }

    ghost function AllVars(): set<FormulaVar>
      reads this
    {
      set name, v | name in attrFormulaMap && v in attrFormulaMap[name].vars :: v
    }

    /** Some formula that watches the event has `v` as its first variable fed by the event. */
    ghost predicate Receives(v: FormulaVar, e: Event)
      reads this
    {
      exists name :: name in attrFormulaMap && attrFormulaMap[name].Watches(e)
        && attrFormulaMap[name].FirstFed(e.device, e.attr, 0) == Some(v)
    }

    /**
     Passes an event value to every formula that watches the event. In each of them a variable is
     found, so the call reports a failure only for variables that refuse the value.
     */
    method UpdateEventValueInFormulas(e: Event, value: int, accepts: set<FormulaVar>) returns (rc: int)
      requires Agrees(attrFormulaMap, eventAttrsMap)
      modifies AllVars()`value
      ensures rc == -1 <==> forall name :: name in attrFormulaMap ==> !attrFormulaMap[name].Watches(e)
      ensures rc != -1 ==> rc == if forall v :: v in AllVars() && Receives(v, e) ==> v in accepts then 0 else 1
      ensures forall v :: v in AllVars() ==>
        v.value == if Receives(v, e) && v in accepts then Some(value) else old(v.value)
    {
      hide Agrees, Receives, IsTarget, AllAccept, VarsOf, FormulaData.Watches, FormulaData.FirstFed;
      var names, formulas;
      rc, names, formulas := GetFormulasLinkedToEvent(e);
      if rc < 0 {
        NobodyReceives(e);
        return -1;
      }
      LinkedVariables(e, names, formulas, accepts);
      rc := SetInAll(formulas, e, value, accepts);
    }

    lemma NobodyReceives(e: Event)
      requires forall name :: name in attrFormulaMap ==> !attrFormulaMap[name].Watches(e)
      ensures forall v :: v in AllVars() ==> !Receives(v, e)
    {
    }

    lemma LinkedVariables(e: Event, names: seq<string>, formulas: seq<FormulaData>, accepts: set<FormulaVar>)
      requires |formulas| == |names|
      requires forall name :: name in names <==> name in attrFormulaMap && attrFormulaMap[name].Watches(e)
      requires forall i :: 0 <= i < |names| ==> names[i] in attrFormulaMap && formulas[i] == attrFormulaMap[names[i]]
      ensures forall v :: v in VarsOf(formulas) ==> v in AllVars()
      ensures forall v :: IsTarget(formulas, |formulas|, e, v) ==> v in VarsOf(formulas)
      ensures forall v :: v in AllVars() ==> (Receives(v, e) <==> IsTarget(formulas, |formulas|, e, v))
      ensures AllAccept(formulas, |formulas|, e, accepts)
              <==> forall v :: v in AllVars() && Receives(v, e) ==> v in accepts
    {
      forall i | 0 <= i < |formulas|
        ensures var found := formulas[i].FirstFed(e.device, e.attr, 0); found.Some? && found.value in AllVars()
        ensures Receives(formulas[i].FirstFed(e.device, e.attr, 0).value, e)
      {
        assert names[i] in names && attrFormulaMap[names[i]].Watches(e);
      }
      forall v | Receives(v, e)
        ensures IsTarget(formulas, |formulas|, e, v)
      {
        var name :| name in attrFormulaMap && attrFormulaMap[name].Watches(e)
          && attrFormulaMap[name].FirstFed(e.device, e.attr, 0) == Some(v);
        assert name in names;
      }
      forall v | v in VarsOf(formulas)
        ensures v in AllVars()
      {
        var i :| 0 <= i < |formulas| && v in formulas[i].vars;
        assert names[i] in attrFormulaMap;
      }
    }

    lemma WatchingIgnoresCase(e: Event)
      ensures KeyOf(KeyOf(e)) == KeyOf(e)
      ensures forall f: FormulaData :: f.Watches(e) <==> f.Watches(KeyOf(e))
    {
      LowerTwice(e.device);
      LowerTwice(e.attr);
      forall f: FormulaData
        ensures f.Watches(e) <==> f.Watches(KeyOf(e))
      {
        assert forall i :: 0 <= i < |f.vars| ==>
          (f.vars[i].FedBy(e.device, e.attr) <==> f.vars[i].FedBy(Lower(e.device), Lower(e.attr)));
      }
    }
  }
}

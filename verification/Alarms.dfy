/** Intrinsic alarms (section 13.3.6 of ASHRAE 135-2020): the OUT_OF_RANGE state machine. */
module Alarms {
  import opened Machine
  import opened BacnetTypes
  import opened SimValues

  datatype EventState = Normal | Fault | OffNormal | HighLimit | LowLimit | LifeSafetyAlarm

  datatype IntrinsicAlgorithm =
    | OutOfRange(highLimit: real, lowLimit: real, deadband: real)
    | ChangeOfValue(covIncrement: real)
    | CommandFailure(feedbackTimeout: nat)

  datatype EventNotification =
    EventNotification(eventObject: ObjectId, fromState: EventState, toState: EventState, timestamp: nat)

  datatype Alarm = Alarm(
    currentState: EventState,
    timeDelay: nat,
    notificationClass: U32,
    algorithm: IntrinsicAlgorithm,
    transitionStart: Option<nat>)

  /** The state that a reading calls for; the deadband holds on to the present one. */
  function Candidate(a: IntrinsicAlgorithm, current: EventState, v: real): EventState
    requires a.OutOfRange?
  {
    if v > a.highLimit then HighLimit
    else if v < a.lowLimit then LowLimit
    else if (current == HighLimit && v > a.highLimit - a.deadband)
      || (current == LowLimit && v < a.lowLimit + a.deadband) then current
    else Normal
  }

  /** The three outcomes for every value and state: a limit state is called for beyond its limit, and kept until the
      value is a deadband inside it or beyond the other limit. */
  lemma CandidateExactly(a: IntrinsicAlgorithm, current: EventState, v: real)
    requires a.OutOfRange?
    ensures Candidate(a, current, v) == HighLimit <==>
      v > a.highLimit || (current == HighLimit && v >= a.lowLimit && v > a.highLimit - a.deadband)
    ensures Candidate(a, current, v) == LowLimit <==>
      v <= a.highLimit && (v < a.lowLimit || (current == LowLimit && v < a.lowLimit + a.deadband))
    ensures Candidate(a, current, v) in {Normal, HighLimit, LowLimit}
  {
  }

  /** In particular from Normal: what calls for a limit state is being beyond the limit. */
  lemma CandidateFromNormal(a: IntrinsicAlgorithm, v: real)
    requires a.OutOfRange?
    ensures Candidate(a, Normal, v) == HighLimit <==> v > a.highLimit
    ensures Candidate(a, Normal, v) == LowLimit <==> v <= a.highLimit && v < a.lowLimit
  {
  }

  function Evaluated(m: Alarm, value: SimValue, now: nat, objectId: ObjectId): (Alarm, Option<EventNotification>) {
    if !m.algorithm.OutOfRange? || value.AsF32() == None then (m, None)
    else
      var next := Candidate(m.algorithm, m.currentState, value.AsF32().value);
      if next == m.currentState then (m.(transitionStart := None), None)
      else
        var start := if m.transitionStart.Some? then m.transitionStart.value else now;
        if Since(now, start) < m.timeDelay then (m.(transitionStart := Some(start)), None)
        else
          (m.(currentState := next, transitionStart := None),
           Some(EventNotification(objectId, m.currentState, next, now)))
  }

  class AlarmStateMachine {
    var currentState: EventState
    var timeDelay: nat
    var notificationClass: U32
    var algorithm: IntrinsicAlgorithm
    var transitionStart: Option<nat>

    function View(): Alarm
      reads this
    {
      Alarm(currentState, timeDelay, notificationClass, algorithm, transitionStart)
    }

    constructor (timeDelay: nat, notificationClass: U32, algorithm: IntrinsicAlgorithm)
      ensures View() == Alarm(Normal, timeDelay, notificationClass, algorithm, None)
    {
      currentState := Normal;
      this.timeDelay := timeDelay;
      this.notificationClass := notificationClass;
      this.algorithm := algorithm;
      transitionStart := None;
    }

    method Evaluate(value: SimValue, now: nat, objectId: ObjectId) returns (r: Option<EventNotification>)
      modifies this`currentState, this`transitionStart
      ensures (View(), r) == Evaluated(old(View()), value, now, objectId)
    {
      if !algorithm.OutOfRange? {
        return None;
      }
      var number := value.AsF32();
      if number == None {
        return None;
      }
      var v := number.value;
      var newState;
      if v > algorithm.highLimit {
        newState := HighLimit;
      } else if v < algorithm.lowLimit {
        newState := LowLimit;
      } else {
        var inDead := match currentState
          case HighLimit => v > algorithm.highLimit - algorithm.deadband
          case LowLimit => v < algorithm.lowLimit + algorithm.deadband
          case _ => false;
        newState := if inDead then currentState else Normal;
      }
      if newState == currentState {
        transitionStart := None;
        return None;
      }
      if transitionStart == None {
        transitionStart := Some(now);
      }
      if Since(now, transitionStart.value) < timeDelay {
        return None;
      }
      var from := currentState;
      currentState := newState;
      transitionStart := None;
      return Some(EventNotification(objectId, from, newState, now));
    }
  }

  // ---- Runs ------------------------------------------------------------------------------

  datatype Reading = Reading(value: SimValue, now: nat)

  function After(m: Alarm, readings: seq<Reading>, objectId: ObjectId): Alarm {
    if readings == [] then m
    else
      var n := |readings| - 1;
      Evaluated(After(m, readings[..n], objectId), readings[n].value, readings[n].now, objectId).0
  }

  /** The answer to reading `k`. */
  function Answer(m: Alarm, readings: seq<Reading>, objectId: ObjectId, k: nat): Option<EventNotification>
    requires k < |readings|
  {
    Evaluated(After(m, readings[..k], objectId), readings[k].value, readings[k].now, objectId).1
  }

  function Emitted(m: Alarm, readings: seq<Reading>, objectId: ObjectId): seq<EventNotification> {
    if readings == [] then []
    else
      var n := |readings| - 1;
      var answer := Evaluated(After(m, readings[..n], objectId), readings[n].value, readings[n].now, objectId).1;
      Emitted(m, readings[..n], objectId) + if answer.Some? then [answer.value] else []
  }

  /** The readings that are numbers. */
  function Numbers(readings: seq<Reading>): seq<real> {
    if readings == [] then []
    else
      var n := |readings| - 1;
      var number := readings[n].value.AsF32();
      Numbers(readings[..n]) + if number.Some? then [number.value] else []
  }

  /** How often a state is entered. */
  function Entries(ns: seq<EventNotification>, side: EventState): nat {
    if ns == [] then 0
    else Entries(ns[..|ns| - 1], side) + if ns[|ns| - 1].toState == side then 1 else 0
  }

  // ---- Notifications form a chain ------------------------------------------------------------

  predicate Link(start: EventState, ns: seq<EventNotification>, i: nat)
    requires i < |ns|
  {
    ns[i].fromState == (if i == 0 then start else ns[i - 1].toState)
    && ns[i].fromState != ns[i].toState
    && (ns[i].toState == Normal || ns[i].toState == HighLimit || ns[i].toState == LowLimit)
  }

  predicate Chained(start: EventState, ns: seq<EventNotification>) {
    forall i :: 0 <= i < |ns| ==> Link(start, ns, i)
  }

  /** The state after a chain of notifications. */
  function EndOf(start: EventState, ns: seq<EventNotification>): EventState {
    if ns == [] then start else ns[|ns| - 1].toState
  }

  /** Each notification starts where the one before ended, changes the state, and leads to a state of the
      algorithm; the last one tells the present state. */
  lemma {:induction false} NotificationsChain(m: Alarm, readings: seq<Reading>, objectId: ObjectId)
    ensures Chained(m.currentState, Emitted(m, readings, objectId))
    ensures After(m, readings, objectId).currentState == EndOf(m.currentState, Emitted(m, readings, objectId))
    decreases |readings|
  {
    hide Evaluated;
    if readings != [] {
      var n := |readings| - 1;
      var before, answer := After(m, readings[..n], objectId), Answer(m, readings, objectId, n);
      NotificationsChain(m, readings[..n], objectId);
      StepNotifies(before, readings[n].value, readings[n].now, objectId);
      var ns := Emitted(m, readings[..n], objectId);
      if answer.Some? {
        ChainAppend(m.currentState, ns, answer.value);
      } else {
        assert ns + [] == ns;
      }
    }
  }

  lemma ChainAppend(start: EventState, ns: seq<EventNotification>, n: EventNotification)
    requires Chained(start, ns) && n.fromState == EndOf(start, ns) && n.fromState != n.toState
    requires n.toState == Normal || n.toState == HighLimit || n.toState == LowLimit
    ensures Chained(start, ns + [n]) && EndOf(start, ns + [n]) == n.toState
  {
    forall i | 0 <= i < |ns| + 1 ensures Link(start, ns + [n], i) {
      assert i < |ns| ==> Link(start, ns, i);
    }
  }

  /** A number that calls for another state. */
  predicate Deviates(m: Alarm, value: SimValue) {
    m.algorithm.OutOfRange? && value.AsF32().Some?
    && Candidate(m.algorithm, m.currentState, value.AsF32().value) != m.currentState
  }

  lemma StepNotifies(m: Alarm, value: SimValue, now: nat, objectId: ObjectId)
    ensures var (next, answer) := Evaluated(m, value, now, objectId);
      if answer.Some? then
        answer.value == EventNotification(objectId, m.currentState, next.currentState, now)
        && next.currentState != m.currentState
        && (next.currentState == Normal || next.currentState == HighLimit || next.currentState == LowLimit)
        && next.transitionStart == None
      else next.currentState == m.currentState
    ensures Evaluated(m, value, now, objectId).1.Some? ==> Deviates(m, value)
    ensures Evaluated(m, value, now, objectId).1.Some? ==>
      Candidate(m.algorithm, m.currentState, value.AsF32().value) == Evaluated(m, value, now, objectId).0.currentState
  {
  }

  lemma {:induction false} SettingsKept(m: Alarm, readings: seq<Reading>, objectId: ObjectId)
    ensures var a := After(m, readings, objectId);
      a == m.(currentState := a.currentState, transitionStart := a.transitionStart)
    decreases |readings|
  {
    if readings != [] {
      SettingsKept(m, readings[..|readings| - 1], objectId);
    }
  }

  /** Readings that are not numbers change nothing and start nothing. */
  lemma {:induction false} OnlyNumbersCount(m: Alarm, readings: seq<Reading>, more: seq<Reading>, objectId: ObjectId)
    requires forall i :: 0 <= i < |more| ==> more[i].value.AsF32() == None
    ensures After(m, readings + more, objectId) == After(m, readings, objectId)
    ensures Emitted(m, readings + more, objectId) == Emitted(m, readings, objectId)
    decreases |more|
  {
    if more == [] {
      assert readings + more == readings;
    } else {
      var n := |more| - 1;
      assert (readings + more)[..|readings| + n] == readings + more[..n];
      OnlyNumbersCount(m, readings, more[..n], objectId);
    }
  }

  // ---- Flapping is paid for ---------------------------------------------------------------------

  /** The distance between entering and leaving a limit state. */
  function Band(a: IntrinsicAlgorithm): (b: real)
    requires a.OutOfRange?
    ensures b >= 0.0
  {
    Max(0.0, if a.deadband < a.highLimit - a.lowLimit then a.deadband else a.highLimit - a.lowLimit)
  }

  /** How far a reading is back inside its limit, at most a band. */
  function Depth(a: IntrinsicAlgorithm, side: EventState, x: real): (u: real)
    requires a.OutOfRange?
    ensures 0.0 <= u <= Band(a)
  {
    var inside := if side == HighLimit then a.highLimit - x else x - a.lowLimit;
    if inside < 0.0 then 0.0 else if inside > Band(a) then Band(a) else inside
  }

  lemma DepthMoves(a: IntrinsicAlgorithm, side: EventState, x: real, y: real)
    requires a.OutOfRange?
    ensures Depth(a, side, y) <= Depth(a, side, x) + Abs(y - x)
    ensures Depth(a, side, x) <= Depth(a, side, y) + Abs(y - x)
  {
  }

  /** A limit state is entered at depth zero and left at full depth. */
  lemma DepthAtTransition(a: IntrinsicAlgorithm, side: EventState, current: EventState, v: real)
    requires a.OutOfRange? && (side == HighLimit || side == LowLimit)
    ensures current != side && Candidate(a, current, v) == side ==> Depth(a, side, v) == 0.0
    ensures current == side && Candidate(a, current, v) != side ==> Depth(a, side, v) == Band(a)
  {
  }

  lemma EntriesStep(ns: seq<EventNotification>, n: EventNotification, side: EventState)
    ensures Entries(ns + [n], side) == Entries(ns, side) + if n.toState == side then 1 else 0
  {
    assert (ns + [n])[..|ns|] == ns;
  }

  /** What one reading does to depth and entries. */
  lemma SideStep(m: Alarm, side: EventState, value: SimValue, now: nat, objectId: ObjectId)
    requires m.algorithm.OutOfRange? && (side == HighLimit || side == LowLimit)
    ensures var (next, answer) := Evaluated(m, value, now, objectId);
      var entered := answer.Some? && answer.value.toState == side;
      next.algorithm == m.algorithm
      && (value.AsF32() == None ==> next == m && answer == None)
      && (entered <==> m.currentState != side && next.currentState == side)
      && (entered ==> Depth(m.algorithm, side, value.AsF32().value) == 0.0)
      && (m.currentState == side && next.currentState != side ==>
        value.AsF32().Some? && Depth(m.algorithm, side, value.AsF32().value) == Band(m.algorithm))
  {
    hide Candidate, Depth, Band;
    if value.AsF32().Some? {
      DepthAtTransition(m.algorithm, side, m.currentState, value.AsF32().value);
    }
  }

  /** The running account of one limit: entries so far against the distance moved so far, given how deep the
      latest number is and whether the state is at the limit. */
  predicate Account(a: IntrinsicAlgorithm, side: EventState, state: EventState, entries: nat, moved: real, latest: real)
    requires a.OutOfRange?
  {
    Cost(2.0 * Band(a), entries) <=
      moved + if state == side then 2.0 * Band(a) - Depth(a, side, latest) else Depth(a, side, latest)
  }

  lemma AccountStep(a: IntrinsicAlgorithm, side: EventState, state: EventState, next: EventState, entries: nat,
      moved: real, latest: real, y: real)
    requires a.OutOfRange? && Account(a, side, state, entries, moved, latest)
    requires state != side && next == side ==> Depth(a, side, y) == 0.0
    requires state == side && next != side ==> Depth(a, side, y) == Band(a)
    ensures Account(a, side, next, entries + if state != side && next == side then 1 else 0, moved + Abs(y - latest), y)
  {
    hide Depth, Band, Cost;
    DepthMoves(a, side, latest, y);
    OneMore(2.0 * Band(a), entries);
  }

  lemma {:induction false} AccountHolds(m: Alarm, side: EventState, readings: seq<Reading>, objectId: ObjectId,
      start: real)
    requires m.algorithm.OutOfRange? && (side == HighLimit || side == LowLimit)
    ensures var a := After(m, readings, objectId);
      a.algorithm == m.algorithm
      && Account(m.algorithm, side, a.currentState, Entries(Emitted(m, readings, objectId), side),
        Variation(start, Numbers(readings)), Latest(start, Numbers(readings)))
    decreases |readings|
  {
    hide Evaluated, Depth, Band, Account, Variation, Entries, Latest;
    if readings == [] {
      AccountOpens(m.algorithm, side, m.currentState, start);
    } else {
      var n := |readings| - 1;
      var before, numbers := After(m, readings[..n], objectId), Numbers(readings[..n]);
      var number := readings[n].value.AsF32();
      AccountHolds(m, side, readings[..n], objectId, start);
      SideStep(before, side, readings[n].value, readings[n].now, objectId);
      StepNotifies(before, readings[n].value, readings[n].now, objectId);
      if number.Some? {
        VariationAppend(start, numbers, number.value);
        LatestAppend(start, numbers, number.value);
        var (next, answer) := Evaluated(before, readings[n].value, readings[n].now, objectId);
        var emitted := Emitted(m, readings[..n], objectId);
        AccountStep(m.algorithm, side, before.currentState, next.currentState, Entries(emitted, side),
          Variation(start, numbers), Latest(start, numbers), number.value);
        if answer.Some? {
          EntriesStep(emitted, answer.value, side);
        } else {
          assert emitted + [] == emitted;
        }
      } else {
        assert Emitted(m, readings, objectId) == Emitted(m, readings[..n], objectId) && Numbers(readings) == numbers;
      }
    }
  }

  lemma AccountOpens(a: IntrinsicAlgorithm, side: EventState, state: EventState, start: real)
    requires a.OutOfRange?
    ensures Account(a, side, state, Entries([], side), Variation(start, []), Latest(start, []))
  {
    hide Depth, Band;
  }

  lemma LatestAppend(before: real, readings: seq<real>, y: real)
    ensures Latest(before, readings + [y]) == y
  {
  }

  lemma CostLess(d: real, n: nat)
    requires n > 0
    ensures Cost(d, n) == Cost(d, n - 1) + d
  {
  }

  /** The main result on flapping: from any state on, each further entry into a limit state costs the value a
      way out across the band and a way back, so entries are bounded by half the distance moved per band. */
  lemma EntriesBounded(m: Alarm, side: EventState, readings: seq<Reading>, objectId: ObjectId)
    requires m.algorithm.OutOfRange? && (side == HighLimit || side == LowLimit)
    ensures var entries, numbers := Entries(Emitted(m, readings, objectId), side), Numbers(readings);
      entries > 0 ==>
        (numbers != [] && Cost(2.0 * Band(m.algorithm), entries - 1) <= Variation(numbers[0], numbers[1..]))
  {
    hide Emitted, Entries, Band, Depth, Evaluated, Cost, Latest;
    var entries, numbers := Entries(Emitted(m, readings, objectId), side), Numbers(readings);
    NoEntries(side);
    if entries > 0 {
      EntriesNeedNumbers(m, side, readings, objectId);
      AccountHolds(m, side, readings, objectId, numbers[0]);
      CostLess(2.0 * Band(m.algorithm), entries);
    }
  }

  lemma NoEntries(side: EventState)
    ensures Entries([], side) == 0
  {
  }

  lemma {:induction false} EntriesNeedNumbers(m: Alarm, side: EventState, readings: seq<Reading>, objectId: ObjectId)
    ensures Numbers(readings) == [] ==> Emitted(m, readings, objectId) == []
    decreases |readings|
  {
    hide Evaluated;
    if readings != [] {
      var n := |readings| - 1;
      EntriesNeedNumbers(m, side, readings[..n], objectId);
      StepNotifies(After(m, readings[..n], objectId), readings[n].value, readings[n].now, objectId);
    }
  }

  /** With low limit at most a deadband under the high limit, the band is the deadband. */
  lemma BandIsDeadband(a: IntrinsicAlgorithm)
    requires a.OutOfRange? && a.deadband >= 0.0
    ensures Band(a) == a.deadband <==> a.deadband == 0.0 || a.lowLimit <= a.highLimit - a.deadband
  {
  }

  // ---- The time delay -------------------------------------------------------------------------------

  /** Clocks do not run backwards. */
  predicate InTime(readings: seq<Reading>) {
    forall i, j :: 0 <= i <= j < |readings| ==> readings[i].now <= readings[j].now
  }

  /** After the first `k` readings. */
  function Before(m: Alarm, readings: seq<Reading>, objectId: ObjectId, k: nat): Alarm
    requires k <= |readings|
  {
    After(m, readings[..k], objectId)
  }

  lemma BeforeNext(m: Alarm, readings: seq<Reading>, objectId: ObjectId, k: nat)
    requires k < |readings|
    ensures Before(m, readings, objectId, k + 1)
      == Evaluated(Before(m, readings, objectId, k), readings[k].value, readings[k].now, objectId).0
  {
    assert readings[..k + 1][..k] == readings[..k];
  }

  /** Reading `i` asks for another state, or says nothing, and the state stays what it is at `k`. */
  predicate Waits(m: Alarm, readings: seq<Reading>, objectId: ObjectId, i: nat, k: nat)
    requires i < k <= |readings|
  {
    Before(m, readings, objectId, i).currentState == Before(m, readings, objectId, k).currentState
    && (readings[i].value.AsF32().Some? ==> Deviates(Before(m, readings, objectId, i), readings[i].value))
  }

  /** From reading `j`, a number, up to `k` every number called for another state, and none was granted. */
  ghost predicate Window(m: Alarm, readings: seq<Reading>, objectId: ObjectId, j: nat, k: nat)
    requires j < k <= |readings|
  {
    readings[j].value.AsF32().Some? && forall i: nat :: j <= i < k ==> Waits(m, readings, objectId, i, k)
  }

  lemma WindowGrows(m: Alarm, readings: seq<Reading>, objectId: ObjectId, k: nat)
    requires k < |readings|
    ensures Window(m, readings, objectId, k, k + 1) <==>
      (readings[k].value.AsF32().Some? && Waits(m, readings, objectId, k, k + 1))
    ensures forall j: nat :: j < k ==>
      (Window(m, readings, objectId, j, k + 1) <==>
        (Window(m, readings, objectId, j, k) && Waits(m, readings, objectId, k, k + 1)))
  {
    hide Deviates, Before;
    forall j: nat | j < k
      ensures Window(m, readings, objectId, j, k + 1) <==>
        (Window(m, readings, objectId, j, k) && Waits(m, readings, objectId, k, k + 1))
    {
      if Window(m, readings, objectId, j, k + 1) {
        assert Waits(m, readings, objectId, k, k + 1);
        forall i: nat | j <= i < k ensures Waits(m, readings, objectId, i, k) {
          assert Waits(m, readings, objectId, i, k + 1);
        }
      }
      if Window(m, readings, objectId, j, k) && Waits(m, readings, objectId, k, k + 1) {
        var n := k + 1;
        forall i: nat | j <= i < n ensures Waits(m, readings, objectId, i, n) {
          assert i < k ==> Waits(m, readings, objectId, i, k);
        }
      }
    }
  }

  /** What one reading does to the timer. */
  lemma TimerStep(m: Alarm, value: SimValue, now: nat, objectId: ObjectId)
    requires m.algorithm.OutOfRange?
    ensures var (next, answer) := Evaluated(m, value, now, objectId);
      var start := if m.transitionStart.Some? then m.transitionStart.value else now;
      (answer.Some? <==> Deviates(m, value) && Since(now, start) >= m.timeDelay)
      && (value.AsF32() == None ==> next == m)
      && (value.AsF32().Some? ==>
        next.transitionStart == if Deviates(m, value) && next.currentState == m.currentState then Some(start) else None)
  {
    hide Candidate;
  }

  /** The timer runs exactly while there is a window, and from the start of the longest one. */
  ghost predicate TimerTells(m: Alarm, readings: seq<Reading>, objectId: ObjectId, k: nat)
    requires k <= |readings|
  {
    var start := Before(m, readings, objectId, k).transitionStart;
    (start.Some? ==> exists j: nat :: j < k && Window(m, readings, objectId, j, k) && readings[j].now == start.value)
    && forall j: nat :: j < k && Window(m, readings, objectId, j, k) ==> start.Some? && start.value <= readings[j].now
  }

  lemma {:induction false} TimerInvariant(m: Alarm, readings: seq<Reading>, objectId: ObjectId, k: nat)
    requires k <= |readings| && InTime(readings) && m.algorithm.OutOfRange? && m.transitionStart == None
    ensures TimerTells(m, readings, objectId, k)
    decreases k
  {
    hide Window, Waits, Deviates, Evaluated, Before;
    if k == 0 {
      assert Before(m, readings, objectId, 0) == m by { BeforeFirst(m, readings, objectId); }
    } else {
      TimerInvariant(m, readings, objectId, k - 1);
      TimerGoesOn(m, readings, objectId, k - 1);
    }
  }

  lemma BeforeFirst(m: Alarm, readings: seq<Reading>, objectId: ObjectId)
    ensures Before(m, readings, objectId, 0) == m
  {
  }

  lemma BeforeKeepsSettings(m: Alarm, readings: seq<Reading>, objectId: ObjectId, k: nat)
    requires k <= |readings|
    ensures var b := Before(m, readings, objectId, k);
      b == m.(currentState := b.currentState, transitionStart := b.transitionStart)
  {
    SettingsKept(m, readings[..k], objectId);
  }

  lemma WaitsOne(m: Alarm, readings: seq<Reading>, objectId: ObjectId, k: nat)
    requires k < |readings|
    ensures Waits(m, readings, objectId, k, k + 1) <==>
      (Before(m, readings, objectId, k).currentState == Before(m, readings, objectId, k + 1).currentState
      && (readings[k].value.AsF32().Some? ==> Deviates(Before(m, readings, objectId, k), readings[k].value)))
  {
    hide Before, Deviates;
  }

  lemma TimerGoesOn(m: Alarm, readings: seq<Reading>, objectId: ObjectId, k: nat)
    requires k < |readings| && InTime(readings) && m.algorithm.OutOfRange?
    requires TimerTells(m, readings, objectId, k)
    ensures TimerTells(m, readings, objectId, k + 1)
  {
    hide Window, Waits, Deviates, Evaluated, Before;
    var n := k + 1;
    var now, next, r := Before(m, readings, objectId, k), Before(m, readings, objectId, n), readings[k];
    BeforeNext(m, readings, objectId, k);
    BeforeKeepsSettings(m, readings, objectId, k);
    TimerStep(now, r.value, r.now, objectId);
    WindowGrows(m, readings, objectId, k);
    WaitsOne(m, readings, objectId, k);
    forall j: nat | j < n && Window(m, readings, objectId, j, n)
      ensures next.transitionStart.Some? && next.transitionStart.value <= readings[j].now
    {
      if j < k {
        assert Window(m, readings, objectId, j, k);
      }
      if now.transitionStart.Some? {
        var first: nat :| first < k && Window(m, readings, objectId, first, k)
          && readings[first].now == now.transitionStart.value;
        assert readings[first].now <= readings[k].now;
      }
    }
    if next.transitionStart.Some? {
      var j: nat := if now.transitionStart.Some?
        then
          var j: nat :| j < k && Window(m, readings, objectId, j, k) && readings[j].now == now.transitionStart.value;
          j
        else k;
      assert Window(m, readings, objectId, j, n) && readings[j].now == next.transitionStart.value;
    }
  }

  ghost predicate WindowSince(m: Alarm, readings: seq<Reading>, objectId: ObjectId, j: nat, k: nat, duration: nat)
    requires j < k < |readings|
  {
    Window(m, readings, objectId, j, k) && readings[k].now - readings[j].now >= duration
  }

  /** The main result on the time delay, for clocks that do not run backwards: a reading is answered with a
      notification if and only if it calls for another state and either no delay is set, or an unbroken window of
      readings doing so started at least the delay ago. */
  lemma NotifiedExactlyAfterDelay(m: Alarm, readings: seq<Reading>, objectId: ObjectId, k: nat)
    requires k < |readings| && InTime(readings) && m.algorithm.OutOfRange? && m.transitionStart == None
    ensures Answer(m, readings, objectId, k).Some? <==>
      (Deviates(Before(m, readings, objectId, k), readings[k].value)
      && (m.timeDelay == 0 || exists j: nat :: j < k && WindowSince(m, readings, objectId, j, k, m.timeDelay)))
  {
    hide Window, Waits, Deviates, Evaluated;
    TimerInvariant(m, readings, objectId, k);
    BeforeKeepsSettings(m, readings, objectId, k);
    var b, now := Before(m, readings, objectId, k), readings[k].now;
    TimerStep(b, readings[k].value, now, objectId);
    if b.transitionStart.Some? {
      var j: nat :| j < k && Window(m, readings, objectId, j, k) && readings[j].now == b.transitionStart.value;
      assert now - readings[j].now >= m.timeDelay ==> WindowSince(m, readings, objectId, j, k, m.timeDelay);
    }
  }

  /** The delay is not started anew when the state called for changes: here the value is below the low limit
      for one reading only, and the delay of ten seconds has been spent above the high limit. */
  lemma DelayCarriesOver(objectId: ObjectId)
    ensures var m := Alarm(Normal, 10 * SECOND, 0, OutOfRange(30.0, 10.0, 1.0), None);
      var readings := [Reading(SimValue.Real(35.0), 0), Reading(SimValue.Real(5.0), 10 * SECOND)];
      Answer(m, readings, objectId, 1) == Some(EventNotification(objectId, Normal, LowLimit, 10 * SECOND))
  {
    var m := Alarm(Normal, 10 * SECOND, 0, OutOfRange(30.0, 10.0, 1.0), None);
    var readings := [Reading(SimValue.Real(35.0), 0), Reading(SimValue.Real(5.0), 10 * SECOND)];
    assert readings[..1] == [readings[0]] && readings[..1][..0] == [];
    assert After(m, [], objectId) == m;
    assert After(m, readings[..1], objectId) == m.(transitionStart := Some(0));
  }
}

/** The time delay against the rule it stands for: the state that is notified was itself called for
    throughout a delay. */
module AlarmDelay {
  import opened Machine
  import opened BacnetTypes
  import opened SimValues
  import opened Alarms

  /** Reading `i`, if it is a number, calls for this state. */
  predicate CallsFor(m: Alarm, readings: seq<Reading>, objectId: ObjectId, i: nat, state: EventState)
    requires i < |readings|
  {
    var b, number := Before(m, readings, objectId, i), readings[i].value.AsF32();
    number.Some? ==> b.algorithm.OutOfRange? && Candidate(b.algorithm, b.currentState, number.value) == state
  }

  /** From reading `j`, a number, up to and including reading `k`, every number calls for this state. */
  ghost predicate SteadyCall(m: Alarm, readings: seq<Reading>, objectId: ObjectId, j: nat, k: nat, state: EventState)
    requires j <= k < |readings|
  {
    readings[j].value.AsF32().Some? && forall i: nat :: j <= i <= k ==> CallsFor(m, readings, objectId, i, state)
  }

  ghost predicate SteadySince(m: Alarm, readings: seq<Reading>, objectId: ObjectId, j: nat, k: nat, state: EventState)
    requires j <= k < |readings|
  {
    SteadyCall(m, readings, objectId, j, k, state) && readings[k].now - readings[j].now >= m.timeDelay
  }

  /** This state was called for throughout a delay that ends with reading `k`. */
  ghost predicate Earned(m: Alarm, readings: seq<Reading>, objectId: ObjectId, k: nat, state: EventState)
    requires k < |readings|
  {
    exists j: nat :: j <= k && SteadySince(m, readings, objectId, j, k, state)
  }

  /** The state that a notification at reading `k` would announce. */
  function Next(m: Alarm, readings: seq<Reading>, objectId: ObjectId, k: nat): EventState
    requires k < |readings| && Deviates(Before(m, readings, objectId, k), readings[k].value)
  {
    var b := Before(m, readings, objectId, k);
    Candidate(b.algorithm, b.currentState, readings[k].value.AsF32().value)
  }

  lemma AnswerAnnounces(m: Alarm, readings: seq<Reading>, objectId: ObjectId, k: nat)
    requires k < |readings| && Answer(m, readings, objectId, k).Some?
    ensures Deviates(Before(m, readings, objectId, k), readings[k].value)
    ensures Answer(m, readings, objectId, k).value.toState == Next(m, readings, objectId, k)
  {
    hide Evaluated, Candidate;
    StepNotifies(Before(m, readings, objectId, k), readings[k].value, readings[k].now, objectId);
  }

  // ---- The program is never late -----------------------------------------------------------

  /** The next state is the present one or the one called for. */
  lemma OneStep(m: Alarm, readings: seq<Reading>, objectId: ObjectId, i: nat, state: EventState)
    requires i < |readings| && CallsFor(m, readings, objectId, i, state)
    ensures var b, next := Before(m, readings, objectId, i), Before(m, readings, objectId, i + 1);
      next.currentState != state ==>
        (b.currentState == next.currentState && (readings[i].value.AsF32().Some? ==> Deviates(b, readings[i].value)))
  {
    hide Candidate, Before;
    BeforeNext(m, readings, objectId, i);
  }

  /** A state that was called for all along and is still not reached leaves an unbroken window. */
  lemma {:induction false} SteadyIsWindow(m: Alarm, readings: seq<Reading>, objectId: ObjectId, i: nat, k: nat,
      state: EventState)
    requires i < k < |readings| && Before(m, readings, objectId, k).currentState != state
    requires forall l: nat :: i <= l < k ==> CallsFor(m, readings, objectId, l, state)
    ensures forall l: nat :: i <= l < k ==> Waits(m, readings, objectId, l, k)
    decreases k - i
  {
    hide CallsFor, Before, Deviates;
    if i + 1 < k {
      SteadyIsWindow(m, readings, objectId, i + 1, k, state);
      assert Waits(m, readings, objectId, i + 1, k);
    }
    OneStep(m, readings, objectId, i, state);
  }

  /** Whenever the rule is met by a state other than the present one, the program notifies that state. */
  lemma NeverLate(m: Alarm, readings: seq<Reading>, objectId: ObjectId, k: nat)
    requires k < |readings| && InTime(readings) && m.algorithm.OutOfRange? && m.transitionStart == None
    requires Deviates(Before(m, readings, objectId, k), readings[k].value)
    requires Earned(m, readings, objectId, k, Next(m, readings, objectId, k))
    ensures Answer(m, readings, objectId, k).Some?
  {
    hide CallsFor, Before, Deviates, Waits, Answer, Candidate;
    var state := Next(m, readings, objectId, k);
    var j: nat :| j <= k && SteadySince(m, readings, objectId, j, k, state);
    DeviationIsNext(m, readings, objectId, k);
    if j < k {
      SteadyIsWindow(m, readings, objectId, j, k, state);
      assert WindowSince(m, readings, objectId, j, k, m.timeDelay);
    }
    NotifiedExactlyAfterDelay(m, readings, objectId, k);
  }

  lemma DeviationIsNext(m: Alarm, readings: seq<Reading>, objectId: ObjectId, k: nat)
    requires k < |readings| && Deviates(Before(m, readings, objectId, k), readings[k].value)
    ensures Before(m, readings, objectId, k).currentState != Next(m, readings, objectId, k)
    ensures CallsFor(m, readings, objectId, k, Next(m, readings, objectId, k))
    ensures readings[k].value.AsF32().Some?
  {
    hide Candidate, Before;
  }

  /** And where no window calls for two different states, the program keeps the rule exactly. */
  lemma KeepsRuleOnSteadyWindows(m: Alarm, readings: seq<Reading>, objectId: ObjectId, k: nat)
    requires k < |readings| && InTime(readings) && m.algorithm.OutOfRange? && m.transitionStart == None
    requires Deviates(Before(m, readings, objectId, k), readings[k].value)
    requires forall j: nat :: j < k && Window(m, readings, objectId, j, k) ==>
      SteadyCall(m, readings, objectId, j, k, Next(m, readings, objectId, k))
    ensures Answer(m, readings, objectId, k).Some? <==> Earned(m, readings, objectId, k, Next(m, readings, objectId, k))
  {
    hide CallsFor, Before, Deviates, Window, Answer, Candidate, Next;
    var state := Next(m, readings, objectId, k);
    if Earned(m, readings, objectId, k, state) {
      NeverLate(m, readings, objectId, k);
    }
    if Answer(m, readings, objectId, k).Some? {
      NotifiedExactlyAfterDelay(m, readings, objectId, k);
      DeviationIsNext(m, readings, objectId, k);
      if m.timeDelay == 0 {
        assert SteadySince(m, readings, objectId, k, k, state);
      } else {
        var j: nat :| j < k && WindowSince(m, readings, objectId, j, k, m.timeDelay);
        assert SteadySince(m, readings, objectId, j, k, state);
      }
    }
  }

  // ---- Which machines keep the rule ---------------------------------------------------------------

  ghost predicate AlwaysEarned(m: Alarm, readings: seq<Reading>, objectId: ObjectId)
  {
    forall k: nat :: k < |readings| && Answer(m, readings, objectId, k).Some? ==>
      Earned(m, readings, objectId, k, Answer(m, readings, objectId, k).value.toState)
  }

  /** In every run every state notified was called for throughout a delay. */
  ghost predicate KeepsRule(m: Alarm, objectId: ObjectId) {
    forall readings: seq<Reading> :: InTime(readings) ==> AlwaysEarned(m, readings, objectId)
  }

  /** The limits leave no value for the way back from a limit state to Normal. */
  predicate NoWayBack(a: IntrinsicAlgorithm)
    requires a.OutOfRange?
  {
    a.lowLimit > a.highLimit - Max(0.0, a.deadband)
  }

  predicate AtLimit(state: EventState) {
    state == HighLimit || state == LowLimit
  }

  lemma CandidateAtLimit(a: IntrinsicAlgorithm, current: EventState, v: real)
    requires a.OutOfRange? && AtLimit(current) && NoWayBack(a)
    ensures AtLimit(Candidate(a, current, v))
  {
  }

  lemma {:induction false} StaysAtLimit(m: Alarm, readings: seq<Reading>, objectId: ObjectId, k: nat)
    requires k <= |readings| && m.algorithm.OutOfRange? && AtLimit(m.currentState) && NoWayBack(m.algorithm)
    ensures AtLimit(Before(m, readings, objectId, k).currentState)
    decreases k
  {
    hide Candidate, NoWayBack, Before;
    if k == 0 {
      BeforeFirst(m, readings, objectId);
    } else {
      StaysAtLimit(m, readings, objectId, k - 1);
      BeforeNext(m, readings, objectId, k - 1);
      BeforeKeepsSettings(m, readings, objectId, k - 1);
      var b, number := Before(m, readings, objectId, k - 1), readings[k - 1].value.AsF32();
      if number.Some? {
        CandidateAtLimit(m.algorithm, b.currentState, number.value);
      }
    }
  }

  /** Between two limits without a way back there is only one other state to call for. */
  lemma WindowsAreSteady(m: Alarm, readings: seq<Reading>, objectId: ObjectId, j: nat, k: nat)
    requires j < k < |readings| && m.algorithm.OutOfRange? && AtLimit(m.currentState) && NoWayBack(m.algorithm)
    requires Deviates(Before(m, readings, objectId, k), readings[k].value) && Window(m, readings, objectId, j, k)
    ensures SteadyCall(m, readings, objectId, j, k, Next(m, readings, objectId, k))
  {
    hide Candidate, NoWayBack, Before;
    forall i: nat | j <= i <= k ensures CallsFor(m, readings, objectId, i, Next(m, readings, objectId, k)) {
      assert i < k ==> Waits(m, readings, objectId, i, k);
      StaysAtLimit(m, readings, objectId, i);
      StaysAtLimit(m, readings, objectId, k);
      BeforeKeepsSettings(m, readings, objectId, i);
      BeforeKeepsSettings(m, readings, objectId, k);
      CandidateAtLimit(m.algorithm, Before(m, readings, objectId, k).currentState, readings[k].value.AsF32().value);
      if readings[i].value.AsF32().Some? {
        CandidateAtLimit(m.algorithm, Before(m, readings, objectId, i).currentState, readings[i].value.AsF32().value);
      }
    }
  }

  lemma RuleKept(m: Alarm, objectId: ObjectId, readings: seq<Reading>)
    requires InTime(readings) && m.algorithm.OutOfRange? && m.transitionStart == None
    requires m.timeDelay == 0 || (AtLimit(m.currentState) && NoWayBack(m.algorithm))
    ensures AlwaysEarned(m, readings, objectId)
  {
    hide NoWayBack, Before, Deviates, Window, Answer, Next, CallsFor, SteadyCall;
    forall k: nat | k < |readings| && Answer(m, readings, objectId, k).Some?
      ensures Earned(m, readings, objectId, k, Answer(m, readings, objectId, k).value.toState)
    {
      AnswerAnnounces(m, readings, objectId, k);
      if m.timeDelay == 0 {
        SteadyAlone(m, readings, objectId, k);
      } else {
        forall j: nat | j < k && Window(m, readings, objectId, j, k)
          ensures SteadyCall(m, readings, objectId, j, k, Next(m, readings, objectId, k))
        {
          WindowsAreSteady(m, readings, objectId, j, k);
        }
        KeepsRuleOnSteadyWindows(m, readings, objectId, k);
      }
    }
  }

  lemma SteadyAlone(m: Alarm, readings: seq<Reading>, objectId: ObjectId, k: nat)
    requires k < |readings| && m.timeDelay == 0 && Deviates(Before(m, readings, objectId, k), readings[k].value)
    ensures Earned(m, readings, objectId, k, Next(m, readings, objectId, k))
  {
    hide Before, Deviates, Next, CallsFor;
    DeviationIsNext(m, readings, objectId, k);
    assert SteadySince(m, readings, objectId, k, k, Next(m, readings, objectId, k));
  }

  /** Two values that call for two different states, neither of them the present one. */
  function FirstCall(a: IntrinsicAlgorithm, current: EventState): real
    requires a.OutOfRange?
  {
    match current
    case HighLimit => a.highLimit - Max(0.0, a.deadband)
    case LowLimit => a.lowLimit + Max(0.0, a.deadband)
    case _ => a.highLimit + 1.0
  }

  function SecondCall(a: IntrinsicAlgorithm, current: EventState): real
    requires a.OutOfRange?
  {
    if current == LowLimit then a.highLimit + 1.0
    else (if a.highLimit < a.lowLimit then a.highLimit else a.lowLimit) - 1.0
  }

  lemma TwoCalls(a: IntrinsicAlgorithm, current: EventState)
    requires a.OutOfRange? && !(AtLimit(current) && NoWayBack(a))
    ensures var first := Candidate(a, current, FirstCall(a, current));
      var second := Candidate(a, current, SecondCall(a, current));
      first != current && second != current && first != second
  {
  }

  /** The first call starts the delay and the second one uses it up. */
  function BorrowedDelay(m: Alarm): seq<Reading>
    requires m.algorithm.OutOfRange?
  {
    [Reading(SimValue.Real(FirstCall(m.algorithm, m.currentState)), 0),
     Reading(SimValue.Real(SecondCall(m.algorithm, m.currentState)), m.timeDelay)]
  }

  lemma RuleBroken(m: Alarm, objectId: ObjectId)
    requires m.algorithm.OutOfRange? && m.transitionStart == None
    requires m.timeDelay > 0 && !(AtLimit(m.currentState) && NoWayBack(m.algorithm))
    ensures InTime(BorrowedDelay(m)) && !AlwaysEarned(m, BorrowedDelay(m), objectId)
  {
    hide Candidate, NoWayBack, FirstCall, SecondCall;
    TwoCalls(m.algorithm, m.currentState);
    var readings := BorrowedDelay(m);
    var first, second := Candidate(m.algorithm, m.currentState, FirstCall(m.algorithm, m.currentState)),
      Candidate(m.algorithm, m.currentState, SecondCall(m.algorithm, m.currentState));
    BeforeFirst(m, readings, objectId);
    BeforeNext(m, readings, objectId, 0);
    assert Before(m, readings, objectId, 1) == m.(transitionStart := Some(0));
    assert Answer(m, readings, objectId, 1) == Some(EventNotification(objectId, m.currentState, second, m.timeDelay));
    assert !CallsFor(m, readings, objectId, 0, second);
    assert !SteadyCall(m, readings, objectId, 0, 1, second);
    assert !Earned(m, readings, objectId, 1, second);
  }

  /** The main result: a machine keeps the rule in every run exactly when it has no delay, or stands at a limit
      and the limits leave no way back to Normal, so that only one other state can ever be called for. */
  lemma KeepsRuleExactly(m: Alarm, objectId: ObjectId)
    requires m.algorithm.OutOfRange? && m.transitionStart == None
    ensures KeepsRule(m, objectId) <==> m.timeDelay == 0 || (AtLimit(m.currentState) && NoWayBack(m.algorithm))
  {
    hide NoWayBack, AlwaysEarned, BorrowedDelay;
    if m.timeDelay == 0 || (AtLimit(m.currentState) && NoWayBack(m.algorithm)) {
      forall readings: seq<Reading> | InTime(readings) ensures AlwaysEarned(m, readings, objectId) {
        RuleKept(m, objectId, readings);
      }
    } else {
      RuleBroken(m, objectId);
    }
  }

  /** In particular from Normal, the state every machine starts in. */
  lemma KeepsRuleFromNormal(m: Alarm, objectId: ObjectId)
    requires m.algorithm.OutOfRange? && m.transitionStart == None && m.currentState == Normal
    ensures KeepsRule(m, objectId) <==> m.timeDelay == 0
  {
    hide KeepsRule, NoWayBack;
    KeepsRuleExactly(m, objectId);
  }
}

/** Whole runs of the subscription engine: subscriptions do not disturb each other, and the number of
    notifications is bounded by how much the value moves. */
module CovRuns {
  import opened Machine
  import opened PropertyIds
  import opened SimValues
  import opened CovEngines

  datatype Event =
    | Check(change: Change, now: nat)
    | Subscribe(key: CovSubKey, sub: CovSubscription)
    | Unsubscribe(key: CovSubKey)
    | Expire(now: nat)

  function Step(subs: Subscriptions, e: Event): Subscriptions {
    match e
    case Check(c, now) => CheckAll(subs, c, now)
    case Subscribe(key, sub) => subs[key := sub]
    case Unsubscribe(key) => subs - {key}
    case Expire(now) => Unexpired(subs, now)
  }

  function Run(subs: Subscriptions, events: seq<Event>): Subscriptions
    decreases |events|
  {
    if events == [] then subs else Run(Step(subs, events[0]), events[1..])
  }

  /** Everything one subscriber is sent in a run. */
  function RunReports(subs: Subscriptions, events: seq<Event>, key: CovSubKey): seq<CovNotification>
    decreases |events|
  {
    if events == [] then []
    else
      (if events[0].Check? then Reports(subs, key, events[0].change) else [])
      + RunReports(Step(subs, events[0]), events[1..], key)
  }

  // ---- One subscriber alone ------------------------------------------------------------------

  function Entry(subs: Subscriptions, key: CovSubKey): Option<CovSubscription> {
    if key in subs then Some(subs[key]) else None
  }

  predicate Concerns(sub: Option<CovSubscription>, key: CovSubKey, e: Event) {
    e.Check? && sub.Some? && Matches(key, sub.value, e.change)
  }

  function LoneStep(sub: Option<CovSubscription>, key: CovSubKey, e: Event): Option<CovSubscription> {
    match e
    case Check(c, now) =>
      if Concerns(sub, key, e) && Triggers(sub.value, c.value)
      then Some(sub.value.(lastValue := c.value, lastNotifiedAt := now)) else sub
    case Subscribe(k, s) => if k == key then Some(s) else sub
    case Unsubscribe(k) => if k == key then None else sub
    case Expire(now) => if sub.Some? && !Alive(sub.value, now) then None else sub
  }

  function Lone(sub: Option<CovSubscription>, key: CovSubKey, events: seq<Event>): Option<CovSubscription>
    decreases |events|
  {
    if events == [] then sub else Lone(LoneStep(sub, key, events[0]), key, events[1..])
  }

  /** The values compared with the subscription. */
  function Offered(sub: Option<CovSubscription>, key: CovSubKey, events: seq<Event>): seq<SimValue>
    decreases |events|
  {
    if events == [] then []
    else
      (if Concerns(sub, key, events[0]) then [events[0].change.value] else [])
      + Offered(LoneStep(sub, key, events[0]), key, events[1..])
  }

  /** The values the subscriber is told. */
  function Told(sub: Option<CovSubscription>, key: CovSubKey, events: seq<Event>): seq<SimValue>
    decreases |events|
  {
    if events == [] then []
    else
      (if Concerns(sub, key, events[0]) && Triggers(sub.value, events[0].change.value)
       then [events[0].change.value] else [])
      + Told(LoneStep(sub, key, events[0]), key, events[1..])
  }

  function ValuesOf(ns: seq<CovNotification>): (vs: seq<SimValue>)
    ensures |vs| == |ns|
  {
    seq(|ns|, i requires 0 <= i < |ns| => ns[i].value)
  }

  lemma EntryStep(subs: Subscriptions, key: CovSubKey, e: Event)
    ensures Entry(Step(subs, e), key) == LoneStep(Entry(subs, key), key, e)
  {
    hide Matches, Triggers, Alive;
  }

  /** A subscriber's fate in a run depends on its own entry alone, whoever else subscribes. */
  lemma {:induction false} Isolation(subs: Subscriptions, events: seq<Event>, key: CovSubKey)
    ensures Entry(Run(subs, events), key) == Lone(Entry(subs, key), key, events)
    ensures ValuesOf(RunReports(subs, events, key)) == Told(Entry(subs, key), key, events)
    decreases events
  {
    hide Step, LoneStep, Matches, Triggers;
    if events != [] {
      EntryStep(subs, key, events[0]);
      Isolation(Step(subs, events[0]), events[1..], key);
    }
  }

  /** The notifications, field by field: to the subscriber of the key, with what the event says, confirmed or not as the
      subscription in force asks. */
  function Notices(sub: Option<CovSubscription>, key: CovSubKey, events: seq<Event>): seq<CovNotification>
    decreases |events|
  {
    if events == [] then []
    else
      var e := events[0];
      (if Concerns(sub, key, e) && Triggers(sub.value, e.change.value) then
        [CovNotification(key.subscriber, key.processId, key.deviceId, key.objectId, e.change.propertyId, e.change.value,
          sub.value.confirmed)]
       else [])
      + Notices(LoneStep(sub, key, e), key, events[1..])
  }

  lemma ReportsNotice(subs: Subscriptions, key: CovSubKey, e: Event)
    requires e.Check?
    ensures Reports(subs, key, e.change) ==
      if Concerns(Entry(subs, key), key, e) && Triggers(Entry(subs, key).value, e.change.value) then
        [CovNotification(key.subscriber, key.processId, key.deviceId, key.objectId, e.change.propertyId, e.change.value,
          Entry(subs, key).value.confirmed)]
      else []
  {
    hide Triggers;
  }

  /** The main result on what is sent: in every run, whoever else subscribes, a subscriber is sent exactly these
      notifications, in this order. */
  lemma {:induction false} SentExactly(subs: Subscriptions, events: seq<Event>, key: CovSubKey)
    ensures RunReports(subs, events, key) == Notices(Entry(subs, key), key, events)
    decreases events
  {
    hide Step, LoneStep, Reports, Concerns, Triggers;
    if events != [] {
      EntryStep(subs, key, events[0]);
      SentExactly(Step(subs, events[0]), events[1..], key);
      if events[0].Check? {
        ReportsNotice(subs, key, events[0]);
      } else {
        NotConcerned(Entry(subs, key), key, events[0]);
      }
    }
  }

  lemma NotConcerned(sub: Option<CovSubscription>, key: CovSubKey, e: Event)
    requires !e.Check?
    ensures !Concerns(sub, key, e)
  {
  }

  /** A check concerns a subscription for the same device and object, and for this property or for all. */
  lemma ConcernsExactly(sub: CovSubscription, key: CovSubKey, c: Change, now: nat)
    ensures Concerns(Some(sub), key, Check(c, now)) <==>
      (key.deviceId, key.objectId) == (c.deviceId, c.objectId)
      && (sub.monitoredProp == None || sub.monitoredProp == Some(c.propertyId))
  {
  }

  // ---- Values that are not real ------------------------------------------------------------------

  predicate NoneReal(values: seq<SimValue>) {
    forall i :: 0 <= i < |values| ==> !values[i].Real?
  }

  /** The values that differ from the one before. */
  function Changed(last: SimValue, values: seq<SimValue>): seq<SimValue>
    decreases |values|
  {
    if values == [] then []
    else (if values[0] != last then [values[0]] else []) + Changed(values[0], values[1..])
  }

  /** A real value against a real one is told from the increment on; any other value exactly when it differs from what
      was told last. */
  lemma TriggersExactly(sub: CovSubscription, v: SimValue)
    ensures v.Real? && sub.lastValue.Real? ==>
      (Triggers(sub, v) <==> Abs(v.real32 - sub.lastValue.real32) >= sub.Increment())
    ensures !v.Real? || !sub.lastValue.Real? ==> (Triggers(sub, v) <==> v != sub.lastValue)
    ensures sub.Increment() == match sub.covIncrement case Some(d) => d case None => 0.0
  {
  }

  lemma LoneStepOther(sub: CovSubscription, key: CovSubKey, e: Event)
    requires !(e.Subscribe? && e.key == key) && (Concerns(Some(sub), key, e) ==> !e.change.value.Real?)
    ensures var next := LoneStep(Some(sub), key, e);
      next.Some? ==> next.value.lastValue == if Concerns(Some(sub), key, e) then e.change.value else sub.lastValue
    ensures Concerns(Some(sub), key, e) ==> LoneStep(Some(sub), key, e).Some?
    ensures Concerns(Some(sub), key, e) ==> (Triggers(sub, e.change.value) <==> e.change.value != sub.lastValue)
  {
    hide Matches;
  }

  lemma {:induction false} LoneOther(sub: CovSubscription, key: CovSubKey, events: seq<Event>)
    requires NotResubscribed(events, key) && NoneReal(Offered(Some(sub), key, events))
    ensures Told(Some(sub), key, events) == Changed(sub.lastValue, Offered(Some(sub), key, events))
    decreases |events|
  {
    hide Matches, Triggers, LoneStep;
    if events != [] {
      var e, rest := events[0], events[1..];
      var offered := Offered(Some(sub), key, events);
      var next := LoneStep(Some(sub), key, e);
      if Concerns(Some(sub), key, e) {
        assert offered[0] == e.change.value && offered[1..] == Offered(next, key, rest);
      } else {
        assert offered == Offered(next, key, rest);
      }
      LoneStepOther(sub, key, e);
      if next == None {
        NothingWithoutSubscription(key, rest);
      } else {
        LoneOther(next.value, key, rest);
      }
    }
  }

  /** For values that are not real, in every run: exactly the changes are told. */
  lemma ChangesTold(subs: Subscriptions, events: seq<Event>, key: CovSubKey)
    requires key in subs && NotResubscribed(events, key) && NoneReal(Offered(Some(subs[key]), key, events))
    ensures ValuesOf(RunReports(subs, events, key))
      == Changed(subs[key].lastValue, Offered(Some(subs[key]), key, events))
  {
    hide RunReports, Told, Offered, Changed;
    Isolation(subs, events, key);
    LoneOther(subs[key], key, events);
  }

  // ---- Real values -----------------------------------------------------------------------------

  predicate AllReal(values: seq<SimValue>) {
    forall i :: 0 <= i < |values| ==> values[i].Real?
  }

  function Reals(values: seq<SimValue>): (rs: seq<real>)
    requires AllReal(values)
    ensures |rs| == |values|
  {
    seq(|values|, i requires 0 <= i < |values| => values[i].real32)
  }

  predicate NotResubscribed(events: seq<Event>, key: CovSubKey) {
    forall i :: 0 <= i < |events| ==> !(events[i].Subscribe? && events[i].key == key)
  }

  /** A subscription for a real value: its increment, and the value last told. */
  predicate RealSubscription(sub: CovSubscription, d: real, last: real) {
    sub.Increment() == d && sub.lastValue == SimValue.Real(last)
  }

  lemma LoneStepReal(sub: CovSubscription, key: CovSubKey, e: Event, d: real, last: real)
    requires RealSubscription(sub, d, last)
    requires !(e.Subscribe? && e.key == key)
    requires Concerns(Some(sub), key, e) ==> e.change.value.Real?
    ensures var next := LoneStep(Some(sub), key, e);
      next.Some? ==> RealSubscription(next.value, d,
        if Concerns(Some(sub), key, e) && Abs(e.change.value.real32 - last) >= d then e.change.value.real32 else last)
    ensures Concerns(Some(sub), key, e) ==> LoneStep(Some(sub), key, e).Some?
    ensures Concerns(Some(sub), key, e) ==>
      (Triggers(sub, e.change.value) <==> Abs(e.change.value.real32 - last) >= d)
  {
    hide Matches;
  }

  lemma {:induction false} NothingWithoutSubscription(key: CovSubKey, events: seq<Event>)
    requires NotResubscribed(events, key)
    ensures Offered(None, key, events) == [] && Told(None, key, events) == [] && Lone(None, key, events) == None
    decreases events
  {
    if events != [] {
      NothingWithoutSubscription(key, events[1..]);
    }
  }

  lemma TailReal(values: seq<SimValue>)
    requires values != [] && AllReal(values)
    ensures AllReal(values[1..]) && Reals(values)[0] == values[0].real32 && Reals(values)[1..] == Reals(values[1..])
  {
  }

  /** A notification costs the observed value a move of at least the increment, whatever else happens. */
  lemma {:induction false} LoneBound(sub: CovSubscription, key: CovSubKey, events: seq<Event>, d: real, last: real)
    requires RealSubscription(sub, d, last) && NotResubscribed(events, key)
    requires AllReal(Offered(Some(sub), key, events))
    ensures Cost(d, |Told(Some(sub), key, events)|) <= Variation(last, Reals(Offered(Some(sub), key, events)))
    decreases events
  {
    hide Matches, Triggers, LoneStep, RealSubscription, Cost;
    OneMore(d, 0);
    if events != [] {
      var e, rest := events[0], events[1..];
      var offered := Offered(Some(sub), key, events);
      var next := LoneStep(Some(sub), key, e);
      if Concerns(Some(sub), key, e) {
        assert offered[0] == e.change.value && offered[1..] == Offered(next, key, rest);
        TailReal(offered);
      } else {
        assert offered == Offered(next, key, rest);
      }
      LoneStepReal(sub, key, e, d, last);
      if next == None {
        NothingWithoutSubscription(key, rest);
      } else if Concerns(Some(sub), key, e) {
        var v := e.change.value.real32;
        if Abs(v - last) >= d {
          LoneBound(next.value, key, rest, d, v);
          OneMore(d, |Told(next, key, rest)|);
        } else {
          LoneBound(next.value, key, rest, d, last);
          VariationFrom(last, v, Reals(offered[1..]));
        }
      } else {
        LoneBound(next.value, key, rest, d, last);
      }
    }
  }

  /** The engine remembers what it last told the subscriber. */
  lemma {:induction false} RemembersTold(sub: CovSubscription, key: CovSubKey, events: seq<Event>)
    requires NotResubscribed(events, key)
    ensures var end := Lone(Some(sub), key, events);
      end.Some? ==> end.value.lastValue == Latest(sub.lastValue, Told(Some(sub), key, events))
    decreases events
  {
    hide Matches, Triggers, Alive;
    if events != [] {
      var e, rest := events[0], events[1..];
      var next := LoneStep(Some(sub), key, e);
      if next == None {
        NothingWithoutSubscription(key, rest);
      } else {
        RemembersTold(next.value, key, rest);
        var told := Told(Some(sub), key, events);
        if Concerns(Some(sub), key, e) && Triggers(sub, e.change.value) {
          assert told[0] == e.change.value && told[1..] == Told(next, key, rest);
          LatestTail(sub.lastValue, told);
        } else {
          assert told == Told(next, key, rest);
        }
      }
    }
  }

  /** As long as the subscription lasts, the latest checked value is within the increment of what was told. */
  lemma {:induction false} LoneTracks(sub: CovSubscription, key: CovSubKey, events: seq<Event>, d: real, last: real,
      latest: real)
    requires d > 0.0 && RealSubscription(sub, d, last) && NotResubscribed(events, key)
    requires AllReal(Offered(Some(sub), key, events)) && Abs(latest - last) < d
    ensures var end := Lone(Some(sub), key, events);
      end.Some? ==> (end.value.lastValue.Real?
        && Abs(Latest(latest, Reals(Offered(Some(sub), key, events))) - end.value.lastValue.real32) < d)
    decreases events
  {
    hide Matches, Triggers, LoneStep;
    if events != [] {
      var e, rest := events[0], events[1..];
      var offered := Offered(Some(sub), key, events);
      var next := LoneStep(Some(sub), key, e);
      if Concerns(Some(sub), key, e) {
        assert offered[0] == e.change.value && offered[1..] == Offered(next, key, rest);
        TailReal(offered);
        LatestTail(latest, Reals(offered));
      } else {
        assert offered == Offered(next, key, rest);
      }
      LoneStepReal(sub, key, e, d, last);
      if next == None {
        NothingWithoutSubscription(key, rest);
      } else if Concerns(Some(sub), key, e) {
        var v := e.change.value.real32;
        LoneTracks(next.value, key, rest, d, if Abs(v - last) >= d then v else last, v);
      } else {
        LoneTracks(next.value, key, rest, d, last, latest);
      }
    }
  }

  // ---- The results for the whole engine --------------------------------------------------------------

  /** The main result: in any run, increment times notifications is at most the distance the checked values
      move, counted from the value the subscription starts with. */
  lemma NotificationBound(subs: Subscriptions, events: seq<Event>, key: CovSubKey, d: real, last: real)
    requires key in subs && RealSubscription(subs[key], d, last) && NotResubscribed(events, key)
    requires AllReal(Offered(Some(subs[key]), key, events))
    ensures d * (|RunReports(subs, events, key)| as real)
      <= Variation(last, Reals(Offered(Some(subs[key]), key, events)))
  {
    hide RunReports, Told, Offered, Reals, RealSubscription;
    Isolation(subs, events, key);
    LoneBound(subs[key], key, events, d, last);
  }

  /** At the end of any run (so after each of its steps) a subscription that is still there remembers exactly
      what its subscriber was told last, and the value checked last is within the increment of it. */
  lemma SubscriberUpToDate(subs: Subscriptions, events: seq<Event>, key: CovSubKey, d: real, last: real)
    requires key in subs && d > 0.0 && RealSubscription(subs[key], d, last) && NotResubscribed(events, key)
    requires AllReal(Offered(Some(subs[key]), key, events))
    ensures key in Run(subs, events) ==>
      var told := Latest(SimValue.Real(last), ValuesOf(RunReports(subs, events, key)));
      told == Run(subs, events)[key].lastValue && told.Real?
      && Abs(Latest(last, Reals(Offered(Some(subs[key]), key, events))) - told.real32) < d
  {
    hide Run, RunReports, Told, Offered, Lone, Latest;
    Isolation(subs, events, key);
    RemembersTold(subs[key], key, events);
    LoneTracks(subs[key], key, events, d, last, last);
  }

  /** Without an increment, or with one that is not positive, every real value is told, moved or not. */
  lemma {:induction false} EverythingTold(sub: CovSubscription, key: CovSubKey, events: seq<Event>, d: real, last: real)
    requires d <= 0.0 && RealSubscription(sub, d, last) && NotResubscribed(events, key)
    requires AllReal(Offered(Some(sub), key, events))
    ensures Told(Some(sub), key, events) == Offered(Some(sub), key, events)
    decreases events
  {
    hide Matches, Triggers, LoneStep, RealSubscription;
    if events != [] {
      var e, rest := events[0], events[1..];
      var offered := Offered(Some(sub), key, events);
      var next := LoneStep(Some(sub), key, e);
      if Concerns(Some(sub), key, e) {
        assert offered[0] == e.change.value && offered[1..] == Offered(next, key, rest);
        TailReal(offered);
      } else {
        assert offered == Offered(next, key, rest);
      }
      LoneStepReal(sub, key, e, d, last);
      if next == None {
        NothingWithoutSubscription(key, rest);
      } else if Concerns(Some(sub), key, e) {
        EverythingTold(next.value, key, rest, d, e.change.value.real32);
      } else {
        EverythingTold(next.value, key, rest, d, last);
      }
    }
  }

  // ---- Unchanged values --------------------------------------------------------------------------------

  /** The value before position `i`. */
  function Previous(last: SimValue, told: seq<SimValue>, i: nat): SimValue
    requires i < |told|
  {
    if i == 0 then last else told[i - 1]
  }

  /** Each value differs from the one before it. */
  predicate NoRepeat(last: SimValue, told: seq<SimValue>) {
    forall i :: 0 <= i < |told| ==> Previous(last, told, i) != told[i]
  }

  lemma NoRepeatCons(last: SimValue, v: SimValue, told: seq<SimValue>)
    requires v != last && NoRepeat(v, told)
    ensures NoRepeat(last, [v] + told)
  {
    forall i | 0 <= i < |told| + 1 ensures Previous(last, [v] + told, i) != ([v] + told)[i] {
      if i > 0 {
        assert Previous(v, told, i - 1) != told[i - 1];
      }
    }
  }

  lemma {:induction false} LoneNoRepeat(sub: CovSubscription, key: CovSubKey, events: seq<Event>, d: real, last: real)
    requires d > 0.0 && RealSubscription(sub, d, last) && NotResubscribed(events, key)
    requires AllReal(Offered(Some(sub), key, events))
    ensures NoRepeat(SimValue.Real(last), Told(Some(sub), key, events))
    decreases events
  {
    hide Matches, Triggers, LoneStep, RealSubscription, NoRepeat;
    if events == [] {
      assert NoRepeat(SimValue.Real(last), []) by { NothingRepeats(SimValue.Real(last)); }
    } else {
      var e, rest := events[0], events[1..];
      var offered := Offered(Some(sub), key, events);
      var next := LoneStep(Some(sub), key, e);
      if Concerns(Some(sub), key, e) {
        assert offered[0] == e.change.value && offered[1..] == Offered(next, key, rest);
        TailReal(offered);
      } else {
        assert offered == Offered(next, key, rest);
      }
      LoneStepReal(sub, key, e, d, last);
      if next == None {
        NothingWithoutSubscription(key, rest);
        NothingRepeats(SimValue.Real(last));
      } else if Concerns(Some(sub), key, e) && Triggers(sub, e.change.value) {
        LoneNoRepeat(next.value, key, rest, d, e.change.value.real32);
        NoRepeatCons(SimValue.Real(last), e.change.value, Told(next, key, rest));
      } else {
        LoneNoRepeat(next.value, key, rest, d, last);
        assert Told(Some(sub), key, events) == Told(next, key, rest);
      }
    }
  }

  lemma NothingRepeats(last: SimValue)
    ensures NoRepeat(last, [])
  {
  }

  /** In no run, whoever else subscribes, is a real value told again that was told last. */
  ghost predicate NeverRepeats(sub: CovSubscription, key: CovSubKey) {
    forall subs: Subscriptions, events: seq<Event> :: Undisturbed(subs, events, sub, key) ==>
      NoRepeat(sub.lastValue, ValuesOf(RunReports(subs, events, key)))
  }

  /** The subscription is there at the start, is not replaced, and is checked against real values only. */
  predicate Undisturbed(subs: Subscriptions, events: seq<Event>, sub: CovSubscription, key: CovSubKey) {
    key in subs && subs[key] == sub && NotResubscribed(events, key) && AllReal(Offered(Some(sub), key, events))
  }

  /** One check of the value that was told last. */
  function SameAgain(sub: CovSubscription, key: CovSubKey): Event {
    Check(Change(key.deviceId, key.objectId, if sub.monitoredProp.Some? then sub.monitoredProp.value else PresentValue,
      sub.lastValue), 0)
  }

  lemma SameAgainTold(sub: CovSubscription, key: CovSubKey)
    requires sub.lastValue.Real? && sub.Increment() <= 0.0
    ensures var events := [SameAgain(sub, key)];
      Undisturbed(map[key := sub], events, sub, key)
      && ValuesOf(RunReports(map[key := sub], events, key)) == [sub.lastValue]
  {
    var subs, events := map[key := sub], [SameAgain(sub, key)];
    assert Triggers(sub, sub.lastValue) && Matches(key, sub, events[0].change);
    hide Matches, Triggers;
    assert events[1..] == [];
    assert Offered(LoneStep(Some(sub), key, events[0]), key, []) == [];
    assert Offered(Some(sub), key, events) == [sub.lastValue];
    assert RunReports(subs, events, key) == Reports(subs, key, events[0].change) + [];
    assert Reports(subs, key, events[0].change) == [Report(key, sub, events[0].change)];
  }

  /** The exact condition: unchanged values are kept from a subscriber to a real value exactly when its increment
      is positive. */
  lemma NeverRepeatsExactly(sub: CovSubscription, key: CovSubKey)
    requires sub.lastValue.Real?
    ensures NeverRepeats(sub, key) <==> sub.Increment() > 0.0
  {
    hide RunReports, Told, NoRepeat, Offered;
    if sub.Increment() > 0.0 {
      forall subs: Subscriptions, events: seq<Event> | Undisturbed(subs, events, sub, key)
        ensures NoRepeat(sub.lastValue, ValuesOf(RunReports(subs, events, key)))
      {
        Isolation(subs, events, key);
        LoneNoRepeat(sub, key, events, sub.Increment(), sub.lastValue.real32);
      }
    } else {
      SameAgainTold(sub, key);
      Repeated(sub.lastValue);
    }
  }

  lemma Repeated(v: SimValue)
    ensures !NoRepeat(v, [v])
  {
    assert Previous(v, [v], 0) == [v][0];
  }
}

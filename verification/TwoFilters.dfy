/** The two threshold filters together: how far what a subscriber was told can be from the model's output. */
module TwoFilters {
  import opened Machine
  import opened PropertyIds
  import opened SimValues
  import opened CovEngines
  import opened ObjectStores
  import opened SimEngines
  import opened SimEngineRuns

  /** Equal, or closer than the threshold. */
  predicate Near(a: real, b: real, threshold: real) {
    a == b || Abs(a - b) < threshold
  }

  /** A threshold that is missing or negative lets every change through. */
  function Threshold(sub: CovSubscription): (t: real)
    ensures t >= 0.0
  {
    Max(0.0, sub.Increment())
  }

  /** What the subscriber was told last is no further from the model's entry than the second filter allows. */
  predicate SubInSync(sub: CovSubscription, last: real) {
    ForPresentValue(sub) && sub.lastValue.Real? && Abs(sub.lastValue.real32 - last) <= Threshold(sub)
  }

  predicate InSync(e: Engine, key: CovSubKey) {
    key in e.subs ==> Home(key) in e.models && SubInSync(e.subs[key], e.models[Home(key)].lastValue)
  }

  /** What the subscriber was told last, against the model's latest output. */
  predicate WithinBoth(e: Engine, key: CovSubKey, v: real) {
    key in e.subs ==>
      (Home(key) in e.models && e.subs[key].lastValue.Real?
      && Near(e.subs[key].lastValue.real32, v, e.models[Home(key)].covIncrement + Threshold(e.subs[key])))
  }

  // ---- One tick --------------------------------------------------------------------------------

  lemma TriggersOrClose(sub: CovSubscription, v: real)
    ensures Triggers(sub, SimValue.Real(v))
      || (sub.lastValue.Real? && Abs(sub.lastValue.real32 - v) < Threshold(sub))
  {
  }

  lemma PresentValueMatches(sub: CovSubscription, key: CovSubKey, v: SimValue)
    ensures Matches(key, sub, Change(key.deviceId, key.objectId, PresentValue, v)) <==> ForPresentValue(sub)
  {
  }

  lemma WatchesIncrement(e: Engine, key: CovSubKey)
    requires Watches(e, key)
    ensures Home(key) in e.models && e.models[Home(key)].covIncrement >= 0.0
  {
    hide Home;
  }

  /** An output that passes the first filter is told or is already close, whatever was told before. */
  lemma PassedOn(sub: CovSubscription, v: real, now: nat, increment: real)
    requires ForPresentValue(sub) && increment >= 0.0
    ensures var next := AfterTick(sub, Triggers(sub, SimValue.Real(v)), SimValue.Real(v), now);
      SubInSync(next, v) && Near(next.lastValue.real32, v, increment + Threshold(next))
  {
    TriggersOrClose(sub, v);
    hide Triggers;
  }

  /** An output that does not pass is close to the entry. */
  lemma HeldBack(sub: CovSubscription, entry: ModelEntry, v: real)
    requires SubInSync(sub, entry.lastValue) && !Passes(entry, v)
    ensures Near(sub.lastValue.real32, v, entry.covIncrement + Threshold(sub))
  {
    hide Threshold, ForPresentValue;
  }

  /** After one tick a subscription is in sync and within both thresholds if it was in sync before, or if the
      output passes the first filter, whatever the subscription started from. */
  lemma TickInSync(e: Engine, output: Key -> real, now: nat, later: nat, key: CovSubKey)
    requires Watches(e, key) && (key in e.subs ==> ForPresentValue(e.subs[key]))
    requires InSync(e, key) || (Home(key) in e.models && Passes(e.models[Home(key)], output(Home(key))))
    ensures var next := Step(e, Tick(output, now, later));
      InSync(next, key) && WithinBoth(next, key, output(Home(key)))
  {
    hide Home, Step, Watches, Near, Triggers, Passes, Matches, Threshold, ForPresentValue, SubInSync;
    WatchesHome(e, key);
    var v, next := output(Home(key)), Step(e, Tick(output, now, later));
    TickForWatcher(e, output, now, later, key);
    StepKeepsWatching(e, Tick(output, now, later), key);
    WatchesHome(next, key);
    WatchesIncrement(e, key);
    if key in next.subs {
      var sub, entry := e.subs[key], e.models[Home(key)];
      PresentValueMatches(sub, key, SimValue.Real(v));
      if Passes(entry, v) {
        PassedOn(sub, v, later, entry.covIncrement);
        InSyncIsReal(next.subs[key], v);
      } else {
        HeldBack(sub, entry, v);
        InSyncIsReal(sub, entry.lastValue);
      }
    }
  }

  lemma InSyncIsReal(sub: CovSubscription, last: real)
    requires SubInSync(sub, last)
    ensures sub.lastValue.Real? && ForPresentValue(sub)
  {
    hide ForPresentValue;
  }

  // ---- Runs ----------------------------------------------------------------------------------------

  /** The subscription is in sync after the first `i` events for one of two reasons: it was in sync at the
      start, or the last of these events is a tick whose output passes the first filter. */
  predicate Settles(e: Engine, events: seq<Event>, key: CovSubKey, i: nat)
    requires i <= |events|
  {
    if i == 0 then InSync(e, key) else PassesAt(Run(e, events[..i - 1]), events[i - 1], key)
  }

  predicate PassesAt(e: Engine, event: Event, key: CovSubKey) {
    event.Tick? && Home(key) in e.models && Passes(e.models[Home(key)], event.output(Home(key)))
    && (key in e.subs ==> ForPresentValue(e.subs[key]))
  }

  /** From then on new subscriptions under the key start no further from the model's entry than their own
      threshold. */
  predicate JoinsInSync(e: Engine, events: seq<Event>, key: CovSubKey, i: nat) {
    forall j: nat :: i <= j < |events| ==> JoinInSync(Run(e, events[..j]), events[j], key)
  }

  predicate JoinInSync(e: Engine, event: Event, key: CovSubKey) {
    event.Subscribe? && event.key == key ==>
      Home(key) in e.models && SubInSync(event.sub, e.models[Home(key)].lastValue)
  }

  lemma OtherStepKeepsSync(e: Engine, event: Event, key: CovSubKey)
    requires InSync(e, key) && !event.Tick? && JoinInSync(e, event, key)
    ensures InSync(Step(e, event), key)
  {
    hide Home, SubInSync;
  }

  lemma InSyncForPresentValue(e: Engine, key: CovSubKey)
    requires InSync(e, key)
    ensures key in e.subs ==> ForPresentValue(e.subs[key])
  {
    hide ForPresentValue, Home;
  }

  /** The state in front of the last event. */
  lemma Shorter(e: Engine, events: seq<Event>, key: CovSubKey, i: nat)
    requires i < |events| && Settles(e, events, key, i) && JoinsInSync(e, events, key, i)
    ensures var n := |events| - 1;
      Settles(e, events[..n], key, i) && JoinsInSync(e, events[..n], key, i)
      && JoinInSync(Run(e, events[..n]), events[n], key)
  {
    hide InSync, JoinInSync, PassesAt, Run;
    var n := |events| - 1;
    assert i > 0 ==> events[..n][..i - 1] == events[..i - 1];
    forall j: nat | i <= j < n ensures JoinInSync(Run(e, events[..n][..j]), events[..n][j], key) {
      assert events[..n][..j] == events[..j];
    }
  }

  lemma {:induction false} SyncKept(e: Engine, events: seq<Event>, key: CovSubKey, i: nat)
    requires Watches(e, key) && i <= |events| && Settles(e, events, key, i) && JoinsInSync(e, events, key, i)
    ensures InSync(Run(e, events), key)
    ensures events != [] && events[|events| - 1].Tick? ==>
      WithinBoth(Run(e, events), key, events[|events| - 1].output(Home(key)))
    decreases |events|
  {
    hide Watches, InSync, Step, WithinBoth, Home, Passes, ForPresentValue, JoinInSync, JoinsInSync;
    if events != [] {
      var n := |events| - 1;
      var before, event := Run(e, events[..n]), events[n];
      RunKeepsWatching(e, events[..n], key);
      if i < |events| {
        Shorter(e, events, key, i);
        SyncKept(e, events[..n], key, i);
        InSyncForPresentValue(before, key);
      }
      if event.Tick? {
        TickInSync(before, event.output, event.now, event.later, key);
      } else {
        OtherStepKeepsSync(before, event, key);
      }
    }
  }

  /** The main result on the two filters: in every run, if the subscription was in sync at the start or some
      output has passed the first filter since, then after every tick what the subscriber was told last equals the
      model's latest output or is closer to it than the two thresholds together. */
  lemma SubscriberWithinBothThresholds(e: Engine, events: seq<Event>, key: CovSubKey, i: nat)
    requires Watches(e, key) && i <= |events| && Settles(e, events, key, i) && JoinsInSync(e, events, key, i)
    requires events != [] && events[|events| - 1].Tick?
    ensures WithinBoth(Run(e, events), key, events[|events| - 1].output(Home(key)))
  {
    hide Run, Settles, JoinsInSync, WithinBoth;
    SyncKept(e, events, key, i);
  }

  // ---- Which subscriptions are never out of step -------------------------------------------------------

  /** The clock stands at `clock` before the first tick and does not run backwards. */
  predicate InTime(clock: nat, events: seq<Event>) {
    (forall i :: 0 <= i < |events| && events[i].Tick? ==> clock <= events[i].now <= events[i].later)
    && forall i, j :: 0 <= i < j < |events| && events[i].Tick? && events[j].Tick? ==> events[i].later <= events[j].now
  }

  /** After every tick of every run that goes on from here, until the subscription is replaced. */
  ghost predicate AlwaysWithin(e: Engine, key: CovSubKey, clock: nat) {
    forall events: seq<Event> :: InTime(clock, events) && EndsInTick(events) && NotResubscribed(events, key) ==>
      WithinBoth(Run(e, events), key, LastOutput(events, key))
  }

  predicate EndsInTick(events: seq<Event>) {
    events != [] && events[|events| - 1].Tick?
  }

  function LastOutput(events: seq<Event>, key: CovSubKey): real
    requires EndsInTick(events)
  {
    events[|events| - 1].output(Home(key))
  }

  lemma NoJoins(e: Engine, events: seq<Event>, key: CovSubKey, i: nat)
    requires NotResubscribed(events, key)
    ensures JoinsInSync(e, events, key, i)
  {
    hide SubInSync, Home;
  }

  lemma StepKeepsMonitoring(e: Engine, event: Event, key: CovSubKey)
    requires Watches(e, key) && !(event.Subscribe? && event.key == key)
    requires key in e.subs ==> ForPresentValue(e.subs[key])
    ensures var next := Step(e, event); key in next.subs ==> ForPresentValue(next.subs[key])
  {
    if event.Tick? {
      hide Watches, Step, Hears;
      TickForWatcher(e, event.output, event.now, event.later, key);
    }
  }

  lemma {:induction false} KeepsMonitoring(e: Engine, events: seq<Event>, key: CovSubKey)
    requires Watches(e, key) && NotResubscribed(events, key) && (key in e.subs ==> ForPresentValue(e.subs[key]))
    ensures key in Run(e, events).subs ==> ForPresentValue(Run(e, events).subs[key])
    decreases |events|
  {
    hide Watches, Step, ForPresentValue;
    if events != [] {
      var n := |events| - 1;
      KeepsMonitoring(e, events[..n], key);
      RunKeepsWatching(e, events[..n], key);
      StepKeepsMonitoring(Run(e, events[..n]), events[n], key);
    }
  }

  /** An output that the first filter holds back, as far from what was told as possible. */
  function Opposite(sub: CovSubscription, entry: ModelEntry): real {
    if !sub.lastValue.Real? then entry.lastValue
    else
      var x, both := sub.lastValue.real32 - entry.lastValue, entry.covIncrement + Threshold(sub);
      if x > 0.0 then entry.lastValue - Max(0.0, both - x) else entry.lastValue + Max(0.0, both + x)
  }

  lemma OppositeIsHeldBack(sub: CovSubscription, entry: ModelEntry)
    requires entry.covIncrement > 0.0 && ForPresentValue(sub) && !SubInSync(sub, entry.lastValue)
    ensures !Passes(entry, Opposite(sub, entry))
    ensures sub.lastValue.Real? ==>
      !Near(sub.lastValue.real32, Opposite(sub, entry), entry.covIncrement + Threshold(sub))
  {
    hide Threshold;
  }

  /** The next tick will drop the subscription, whenever it comes. */
  predicate Overdue(e: Engine, key: CovSubKey, clock: nat) {
    key in e.subs && ExpiryDue(clock, e.lastExpire) && !Alive(e.subs[key], clock)
  }

  /** A tick right away that announces nothing changes no subscription that is not overdue. */
  lemma SilentTick(e: Engine, v: real, key: CovSubKey, clock: nat)
    requires Watches(e, key) && key in e.subs && Home(key) in e.models && !Passes(e.models[Home(key)], v)
    requires !Overdue(e, key, clock)
    ensures var next := Step(e, Tick(_ => v, clock, clock));
      key in next.subs && next.subs[key] == e.subs[key] && Home(key) in next.models
      && next.models[Home(key)].covIncrement == e.models[Home(key)].covIncrement
  {
    hide Passes, Home, Alive, ExpiryDue;
    var output: Key -> real := _ => v;
    NewsForWatcher(e, output, key);
    assert News(e.objects, e.models, output, key) == [];
  }

  lemma OutOfStep(e: Engine, key: CovSubKey, clock: nat)
    requires Watches(e, key) && key in e.subs && ForPresentValue(e.subs[key]) && Home(key) in e.models
    requires e.models[Home(key)].covIncrement > 0.0 && !SubInSync(e.subs[key], e.models[Home(key)].lastValue)
    requires !Overdue(e, key, clock)
    ensures !AlwaysWithin(e, key, clock)
  {
    hide Watches, Step, Home, Passes, SubInSync, ForPresentValue, Near, Threshold, Opposite, Overdue;
    var sub, entry := e.subs[key], e.models[Home(key)];
    var v := Opposite(sub, entry);
    OppositeIsHeldBack(sub, entry);
    SilentTick(e, v, key, clock);
    var events := [Tick(_ => v, clock, clock)];
    assert events[..0] == [] && Run(e, []) == e;
    assert Run(e, events) == Step(e, events[0]);
    assert InTime(clock, events) && EndsInTick(events) && NotResubscribed(events, key);
    assert LastOutput(events, key) == v && !WithinBoth(Run(e, events), key, v);
  }

  // ---- Overdue subscriptions ------------------------------------------------------------------------------

  lemma LaterStill(sub: CovSubscription, clock: nat, later: nat, lastExpire: nat)
    requires clock <= later
    ensures !Alive(sub, clock) ==> !Alive(sub, later)
    ensures ExpiryDue(clock, lastExpire) ==> ExpiryDue(later, lastExpire)
  {
    SecondsGrow(Since(clock, sub.subscribedAt), Since(later, sub.subscribedAt));
    SecondsGrow(Since(clock, lastExpire), Since(later, lastExpire));
  }

  lemma SecondsGrow(a: nat, b: nat)
    requires a <= b
    ensures a / SECOND <= b / SECOND
  {
  }

  /** Until the first tick the subscription stays as it is; the first tick drops it. */
  lemma OverdueStep(e: Engine, event: Event, key: CovSubKey, clock: nat)
    requires Watches(e, key) && Overdue(e, key, clock) && !(event.Subscribe? && event.key == key)
    requires event.Tick? ==> clock <= event.now <= event.later
    ensures var next := Step(e, event); key in next.subs ==> Overdue(next, key, clock) && !event.Tick?
  {
    hide Watches, ExpiryDue, Alive, News, Checked;
    if event.Tick? {
      LaterStill(e.subs[key], clock, event.now, e.lastExpire);
      LaterStill(e.subs[key], clock, event.later, e.lastExpire);
      SameLifetime(News(e.objects, e.models, event.output, key), key, e.subs[key], event.later);
    }
  }

  lemma SameLifetime(news: seq<Change>, key: CovSubKey, sub: CovSubscription, now: nat)
    ensures Alive(AfterNews(news, key, sub, now), now) <==> Alive(sub, now)
  {
    hide Notifies;
  }

  lemma {:induction false} OverdueDropped(e: Engine, events: seq<Event>, key: CovSubKey, clock: nat)
    requires Watches(e, key) && Overdue(e, key, clock) && InTime(clock, events) && NotResubscribed(events, key)
    ensures key in Run(e, events).subs ==> Overdue(Run(e, events), key, clock)
    ensures key in Run(e, events).subs ==> !EndsInTick(events)
    decreases |events|
  {
    hide Watches, Step, Overdue;
    if events != [] {
      var n := |events| - 1;
      var before := Run(e, events[..n]);
      OverdueDropped(e, events[..n], key, clock);
      RunKeepsWatching(e, events[..n], key);
      if key in before.subs {
        OverdueStep(before, events[n], key, clock);
      } else {
        StaysAway(before, events[n], key);
      }
    }
  }

  lemma StaysAway(e: Engine, event: Event, key: CovSubKey)
    requires key !in e.subs && !(event.Subscribe? && event.key == key)
    ensures key !in Step(e, event).subs
  {
  }

  lemma AllPass(e: Engine, events: seq<Event>, key: CovSubKey)
    requires Watches(e, key) && Home(key) in e.models && e.models[Home(key)].covIncrement == 0.0
    requires key in e.subs && ForPresentValue(e.subs[key]) && EndsInTick(events) && NotResubscribed(events, key)
    ensures Settles(e, events, key, |events|)
  {
    hide Watches, Run, ForPresentValue, Home;
    var n := |events| - 1;
    RunKeepsWatching(e, events[..n], key);
    WatchesHome(Run(e, events[..n]), key);
    KeepsMonitoring(e, events[..n], key);
  }

  /** The exact condition: a subscription to the present value is within both thresholds after every tick of
      every run if and only if the first filter passes everything, or what it was told is a real value within its own
      threshold of the model's entry, or its lifetime is over and the next tick drops it. */
  lemma AlwaysWithinExactly(e: Engine, key: CovSubKey, clock: nat)
    requires Watches(e, key) && key in e.subs && ForPresentValue(e.subs[key])
    ensures Home(key) in e.models
    ensures AlwaysWithin(e, key, clock) <==>
      (e.models[Home(key)].covIncrement == 0.0 || SubInSync(e.subs[key], e.models[Home(key)].lastValue)
      || Overdue(e, key, clock))
  {
    WatchesIncrement(e, key);
    hide Watches, Run, ForPresentValue, Home, SubInSync, JoinsInSync, NotResubscribed, LastOutput, Overdue, Near,
      InTime;
    var increment := e.models[Home(key)].covIncrement;
    if increment == 0.0 || SubInSync(e.subs[key], e.models[Home(key)].lastValue) || Overdue(e, key, clock) {
      forall events: seq<Event> | InTime(clock, events) && EndsInTick(events) && NotResubscribed(events, key)
        ensures WithinBoth(Run(e, events), key, LastOutput(events, key))
      {
        if Overdue(e, key, clock) {
          OverdueDropped(e, events, key, clock);
        } else {
          var i := if increment == 0.0 then |events| else 0;
          if increment == 0.0 {
            AllPass(e, events, key);
          }
          NoJoins(e, events, key, i);
          SubscriberWithinBothThresholds(e, events, key, i);
          LastOutputIs(events, key);
        }
      }
    } else {
      OutOfStep(e, key, clock);
    }
  }

  lemma LastOutputIs(events: seq<Event>, key: CovSubKey)
    requires EndsInTick(events)
    ensures LastOutput(events, key) == events[|events| - 1].output(Home(key))
  {
  }
}

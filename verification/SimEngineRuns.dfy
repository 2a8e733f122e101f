/** Whole runs of the simulation: the two threshold filters together, seen from one subscriber. */
module SimEngineRuns {
  import opened Machine
  import opened PropertyIds
  import opened SimValues
  import opened Alarms
  import opened CovEngines
  import CovRuns
  import opened ObjectStores
  import opened SimEngines

  /** Every object is stored under its own device and identifier. */
  predicate Consistent(objects: Objects) {
    forall k :: k in objects ==> ObjectKey(objects[k].deviceId, objects[k].objectId) == k
  }

  // ---- The order of visits does not matter ---------------------------------------------------

  /** Where the object of a subscription is stored. */
  function Home(key: CovSubKey): Key {
    ObjectKey(key.deviceId, key.objectId)
  }

  predicate About(key: CovSubKey, c: Change) {
    key.deviceId == c.deviceId && key.objectId == c.objectId
  }

  /** What the tick announces to a subscription. */
  function News(objects: Objects, models: Models, output: Key -> real, key: CovSubKey): seq<Change> {
    var announced := Announced(objects, models, output, Home(key));
    if announced != [] && About(key, announced[0]) then announced else []
  }

  function AfterNews(news: seq<Change>, key: CovSubKey, sub: CovSubscription, now: nat): CovSubscription {
    if news == [] then sub else Checked(key, sub, news[0], now)
  }

  function NewsReports(news: seq<Change>, subs: Subscriptions, key: CovSubKey): seq<CovNotification> {
    if news == [] then [] else Reports(subs, key, news[0])
  }

  lemma NotAbout(subs: Subscriptions, c: Change, now: nat, key: CovSubKey)
    requires !About(key, c)
    ensures Reports(subs, key, c) == []
    ensures key in subs ==> CheckAll(subs, c, now)[key] == subs[key]
  {
  }

  lemma AnnouncedAbout(objects: Objects, models: Models, output: Key -> real, k: Key, key: CovSubKey)
    requires Consistent(objects)
    ensures var a := Announced(objects, models, output, k);
      a != [] && About(key, a[0]) ==> k == Home(key)
  {
    hide ObjectKey;
  }

  lemma AnnouncedLength(objects: Objects, models: Models, output: Key -> real, k: Key)
    ensures |Announced(objects, models, output, k)| <= 1
  {
  }

  lemma NewsIs(objects: Objects, models: Models, output: Key -> real, key: CovSubKey)
    ensures var a, news := Announced(objects, models, output, Home(key)), News(objects, models, output, key);
      (a == [] ==> news == [])
      && (a != [] && !About(key, a[0]) ==> news == [])
      && (a != [] && About(key, a[0]) ==> news == a)
  {
    hide Announced, About, ObjectKey;
  }

  lemma DispatchNext(subs: Subscriptions, changes: seq<Change>, c: Change, now: nat, key: CovSubKey)
    ensures Dispatched(subs, changes + [c], now) == CheckAll(Dispatched(subs, changes, now), c, now)
    ensures DispatchReports(subs, changes + [c], now, key)
      == DispatchReports(subs, changes, now, key) + Reports(Dispatched(subs, changes, now), key, c)
  {
    hide CheckAll, Reports;
    assert (changes + [c])[..|changes|] == changes;
  }

  /** A change announced to a subscription that was not disturbed before. */
  lemma CheckUndisturbed(subs: Subscriptions, before: Subscriptions, c: Change, now: nat, key: CovSubKey)
    requires key in before <==> key in subs
    requires key in subs ==> before[key] == subs[key]
    ensures Reports(before, key, c) == Reports(subs, key, c)
    ensures key in CheckAll(before, c, now) <==> key in subs
    ensures key in subs ==> CheckAll(before, c, now)[key] == Checked(key, subs[key], c, now)
  {
    hide Notifies, Checked, Report;
  }

  /** The state of affairs of one subscription in the middle of a tick. */
  predicate Halfway(subs: Subscriptions, changes: seq<Change>, now: nat, key: CovSubKey, news: seq<Change>) {
    var after := Dispatched(subs, changes, now);
    (key in after <==> key in subs)
    && (key in subs ==> after[key] == AfterNews(news, key, subs[key], now))
    && DispatchReports(subs, changes, now, key) == NewsReports(news, subs, key)
  }

  lemma HalfwayNext(subs: Subscriptions, changes: seq<Change>, c: Change, now: nat, key: CovSubKey, news: seq<Change>)
    requires Halfway(subs, changes, now, key, news) && (About(key, c) ==> news == [])
    ensures Halfway(subs, changes + [c], now, key, if About(key, c) then [c] else news)
  {
    hide About, Reports, Checked, CheckAll, Dispatched, DispatchReports;
    DispatchNext(subs, changes, c, now, key);
    var before := Dispatched(subs, changes, now);
    if About(key, c) {
      CheckUndisturbed(subs, before, c, now, key);
    } else {
      NotAbout(before, c, now, key);
      CheckKeeps(before, c, now, key);
      assert NewsReports(news, subs, key) + [] == NewsReports(news, subs, key);
    }
  }

  lemma CheckKeeps(subs: Subscriptions, c: Change, now: nat, key: CovSubKey)
    ensures key in CheckAll(subs, c, now) <==> key in subs
  {
  }

  /** While the objects are visited one by one, a subscription waits for its own object's turn. */
  lemma {:induction false} DispatchedForOne(objects: Objects, models: Models, output: Key -> real, order: seq<Key>,
      subs: Subscriptions, now: nat, key: CovSubKey)
    requires Consistent(objects)
    requires forall i, j :: 0 <= i < j < |order| ==> order[i] != order[j]
    ensures Halfway(subs, Changes(objects, models, output, order), now, key,
      if Home(key) in order then News(objects, models, output, key) else [])
    decreases |order|
  {
    hide Announced, About, ObjectKey, News, Consistent, Halfway;
    if order == [] {
      HalfwayBegins(subs, now, key);
    } else {
      var n := |order| - 1;
      var k, before := order[n], Changes(objects, models, output, order[..n]);
      var announced, news := Announced(objects, models, output, k), News(objects, models, output, key);
      DispatchedForOne(objects, models, output, order[..n], subs, now, key);
      AnnouncedAbout(objects, models, output, k, key);
      AnnouncedLength(objects, models, output, k);
      NewsIs(objects, models, output, key);
      LastIsNew(order, Home(key));
      if announced == [] {
        assert before + [] == before;
      } else {
        assert announced == [announced[0]];
        HalfwayNext(subs, before, announced[0], now, key, if Home(key) in order[..n] then news else []);
      }
    }
  }

  lemma LastIsNew(order: seq<Key>, k: Key)
    requires order != [] && forall i, j :: 0 <= i < j < |order| ==> order[i] != order[j]
    ensures k == order[|order| - 1] ==> k in order && k !in order[..|order| - 1]
    ensures k != order[|order| - 1] ==> (k in order <==> k in order[..|order| - 1])
  {
  }

  lemma HalfwayBegins(subs: Subscriptions, now: nat, key: CovSubKey)
    ensures Halfway(subs, [], now, key, [])
  {
    hide Checked, Reports, CheckAll;
  }

  // ---- Runs ----------------------------------------------------------------------------------------

  datatype Engine = Engine(objects: Objects, models: Models, subs: Subscriptions, lastExpire: nat)

  datatype Event =
    | Tick(output: Key -> real, now: nat, later: nat)
    | Subscribe(key: CovSubKey, sub: CovSubscription)
    | Unsubscribe(key: CovSubKey)

  /** A tick as each subscription sees it. */
  function TickSubs(e: Engine, output: Key -> real, later: nat): Subscriptions {
    map key | key in e.subs :: AfterNews(News(e.objects, e.models, output, key), key, e.subs[key], later)
  }

  function Step(e: Engine, event: Event): Engine {
    match event
    case Tick(output, now, later) =>
      var told := TickSubs(e, output, later);
      var due := ExpiryDue(now, e.lastExpire);
      Engine(e.objects, ModelsAfter(e.objects, e.models, output, now),
        if due then Unexpired(told, later) else told, if due then now else e.lastExpire)
    case Subscribe(key, sub) => e.(subs := e.subs[key := sub])
    case Unsubscribe(key) => e.(subs := e.subs - {key})
  }

  /** What the step sends to one subscriber. */
  function StepReports(e: Engine, event: Event, key: CovSubKey): seq<CovNotification> {
    if event.Tick? then NewsReports(News(e.objects, e.models, event.output, key), e.subs, key) else []
  }

  /** Whatever the order of the visits, a tick of the program is a tick as each subscription sees it. */
  lemma TickIsStep(e: Engine, output: Key -> real, now: nat, later: nat, order: seq<Key>)
    requires Consistent(e.objects) && VisitsOnce(order, e.objects.Keys)
    ensures var changes := Changes(e.objects, e.models, output, order);
      Dispatched(e.subs, changes, later) == TickSubs(e, output, later)
      && forall key :: DispatchReports(e.subs, changes, later, key) == StepReports(e, Tick(output, now, later), key)
  {
    hide Consistent, Changes, Dispatched, DispatchReports, AfterNews, News, NewsReports, Home;
    var changes := Changes(e.objects, e.models, output, order);
    forall key
      ensures key in Dispatched(e.subs, changes, later) <==> key in e.subs
      ensures key in e.subs ==> Dispatched(e.subs, changes, later)[key] == TickSubs(e, output, later)[key]
      ensures DispatchReports(e.subs, changes, later, key) == StepReports(e, Tick(output, now, later), key)
    {
      DispatchedForOne(e.objects, e.models, output, order, e.subs, later, key);
      NoNewsFromNowhere(e.objects, e.models, output, key);
    }
  }

  lemma NoNewsFromNowhere(objects: Objects, models: Models, output: Key -> real, key: CovSubKey)
    ensures Home(key) !in objects ==> News(objects, models, output, key) == []
  {
    hide ObjectKey;
  }

  function Run(e: Engine, events: seq<Event>): Engine {
    if events == [] then e else Step(Run(e, events[..|events| - 1]), events[|events| - 1])
  }

  function RunReports(e: Engine, events: seq<Event>, key: CovSubKey): seq<CovNotification> {
    if events == [] then []
    else
      var n := |events| - 1;
      RunReports(e, events[..n], key) + StepReports(Run(e, events[..n]), events[n], key)
  }

  /** What a model put out during a run. */
  function Outputs(events: seq<Event>, k: Key): seq<real> {
    if events == [] then []
    else
      var n := |events| - 1;
      Outputs(events[..n], k) + if events[n].Tick? then [events[n].output(k)] else []
  }

  function Readings(events: seq<Event>, k: Key): seq<Reading> {
    if events == [] then []
    else
      var n := |events| - 1;
      Readings(events[..n], k)
      + if events[n].Tick? then [Reading(SimValue.Real(events[n].output(k)), events[n].now)] else []
  }

  /** The subscription is for the present value of a modelled object. */
  predicate Watches(e: Engine, key: CovSubKey) {
    var k := Home(key);
    k in e.objects && k in e.models && e.objects[k].deviceId == key.deviceId && e.objects[k].objectId == key.objectId
    && e.models[k].covIncrement >= 0.0
  }

  predicate ForPresentValue(sub: CovSubscription) {
    sub.monitoredProp == None || sub.monitoredProp == Some(PresentValue)
  }

  /** Which subscriptions a tick keeps: those within their lifetime, or all when the last expiry was less than
      ten seconds ago. */
  lemma TickExpiry(e: Engine, output: Key -> real, now: nat, later: nat, key: CovSubKey)
    requires key in e.subs
    ensures var sub := e.subs[key];
      key in Step(e, Tick(output, now, later)).subs <==>
        (e.lastExpire + 10 * SECOND <= now && sub.lifetimeSecs.Some? ==>
          0 < sub.lifetimeSecs.value && later < sub.subscribedAt + sub.lifetimeSecs.value * SECOND)
  {
    hide Alive, News;
    var sub := AfterNews(News(e.objects, e.models, output, key), key, e.subs[key], later);
    LifetimeExactly(sub, later);
    if e.lastExpire <= now { WholeSeconds(now - e.lastExpire, 10); }
  }

  // ---- The alarms of the models --------------------------------------------------------------------

  /** In every run an object's alarm is the alarm machine run on the model's outputs, so everything proved
      about that machine holds of it. */
  lemma {:induction false} AlarmFollowsModel(e: Engine, events: seq<Event>, k: Key)
    requires k in e.objects && k in e.models && e.models[k].alarm.Some?
    ensures var after := Run(e, events);
      after.objects == e.objects && k in after.models
      && after.models[k].covIncrement == e.models[k].covIncrement
      && after.models[k].alarm == Some(After(e.models[k].alarm.value, Readings(events, k), e.objects[k].objectId))
    decreases |events|
  {
    hide TickSubs, Evaluated, Passes, Unexpired, ExpiryDue;
    if events != [] {
      var n := |events| - 1;
      AlarmFollowsModel(e, events[..n], k);
      if events[n].Tick? {
        var r := Reading(SimValue.Real(events[n].output(k)), events[n].now);
        assert (Readings(events[..n], k) + [r])[..|Readings(events[..n], k)|] == Readings(events[..n], k);
      } else {
        assert Readings(events, k) == Readings(events[..n], k);
      }
    }
  }

  // ---- One subscriber ---------------------------------------------------------------------------------

  /** A tick for a subscription to the present value of a modelled object. */
  predicate Hears(e: Engine, output: Key -> real, key: CovSubKey)
    requires Watches(e, key)
  {
    key in e.subs && Passes(e.models[Home(key)], output(Home(key)))
    && Matches(key, e.subs[key], Change(key.deviceId, key.objectId, PresentValue, SimValue.Real(output(Home(key)))))
    && Triggers(e.subs[key], SimValue.Real(output(Home(key))))
  }

  function AfterTick(sub: CovSubscription, told: bool, v: SimValue, now: nat): CovSubscription {
    if told then sub.(lastValue := v, lastNotifiedAt := now) else sub
  }

  lemma TickForWatcher(e: Engine, output: Key -> real, now: nat, later: nat, key: CovSubKey)
    requires Watches(e, key)
    ensures var next, v, reports := Step(e, Tick(output, now, later)), SimValue.Real(output(Home(key))),
        StepReports(e, Tick(output, now, later), key);
      (key in next.subs ==> key in e.subs && next.subs[key] == AfterTick(e.subs[key], Hears(e, output, key), v, later))
      && (if Hears(e, output, key) then |reports| == 1 && reports[0].value == v else reports == [])
  {
    hide ObjectKey, Passes, Triggers, Alive, ExpiryDue, Matches, ModelsAfter;
    NewsForWatcher(e, output, key);
  }

  lemma NewsForWatcher(e: Engine, output: Key -> real, key: CovSubKey)
    requires Watches(e, key)
    ensures News(e.objects, e.models, output, key) ==
      if Passes(e.models[Home(key)], output(Home(key)))
      then [Change(key.deviceId, key.objectId, PresentValue, SimValue.Real(output(Home(key))))] else []
  {
    hide ObjectKey, Passes;
  }

  lemma StepKeepsWatching(e: Engine, event: Event, key: CovSubKey)
    requires Watches(e, key)
    ensures var next := Step(e, event);
      Watches(next, key) && next.models[Home(key)].covIncrement == e.models[Home(key)].covIncrement
      && next.models[Home(key)].lastValue ==
        if event.Tick? && Passes(e.models[Home(key)], event.output(Home(key))) then event.output(Home(key))
        else e.models[Home(key)].lastValue
  {
    hide ObjectKey, Passes, TickSubs, Unexpired, ExpiryDue, AlarmAfter;
  }

  lemma {:induction false} RunKeepsWatching(e: Engine, events: seq<Event>, key: CovSubKey)
    requires Watches(e, key)
    ensures Watches(Run(e, events), key)
    ensures Run(e, events).models[Home(key)].covIncrement == e.models[Home(key)].covIncrement
    decreases |events|
  {
    hide Watches, Step;
    WatchesHome(e, key);
    if events != [] {
      var n := |events| - 1;
      RunKeepsWatching(e, events[..n], key);
      StepKeepsWatching(Run(e, events[..n]), events[n], key);
    }
    WatchesHome(Run(e, events), key);
  }

  lemma WatchesHome(e: Engine, key: CovSubKey)
    ensures Watches(e, key) ==> Home(key) in e.models
  {
    hide Home;
  }

  // ---- What the engine remembers -----------------------------------------------------------------------

  predicate NotResubscribed(events: seq<Event>, key: CovSubKey) {
    forall i :: 0 <= i < |events| ==> !(events[i].Subscribe? && events[i].key == key)
  }

  lemma StepTells(e: Engine, event: Event, key: CovSubKey)
    requires Watches(e, key) && !(event.Subscribe? && event.key == key)
    ensures var next, reports := Step(e, event), StepReports(e, event, key);
      key in next.subs ==>
        (key in e.subs && next.subs[key].lastValue == Latest(e.subs[key].lastValue, CovRuns.ValuesOf(reports)))
  {
    hide Hears;
    if event.Tick? {
      hide Watches, Step;
      TickForWatcher(e, event.output, event.now, event.later, key);
    }
  }

  /** And what the engine remembers is what the subscriber was sent last. */
  lemma {:induction false} EngineRemembersTold(e: Engine, events: seq<Event>, key: CovSubKey)
    requires Watches(e, key) && NotResubscribed(events, key)
    ensures key in Run(e, events).subs ==> key in e.subs
    ensures key in Run(e, events).subs ==>
      Run(e, events).subs[key].lastValue == Latest(e.subs[key].lastValue, CovRuns.ValuesOf(RunReports(e, events, key)))
    decreases |events|
  {
    hide Watches, Step, StepReports, Home;
    if events != [] {
      var n := |events| - 1;
      var before := Run(e, events[..n]);
      EngineRemembersTold(e, events[..n], key);
      RunKeepsWatching(e, events[..n], key);
      StepTells(before, events[n], key);
      var a, b := RunReports(e, events[..n], key), StepReports(before, events[n], key);
      assert CovRuns.ValuesOf(a + b) == CovRuns.ValuesOf(a) + CovRuns.ValuesOf(b);
    }
  }

  // ---- How many notifications ---------------------------------------------------------------------------

  /** So many notifications at this price, and the way still open, are covered by the distance moved. */
  predicate Covered(d: real, count: nat, moved: real, latest: real, reference: real) {
    Cost(d, count) + Abs(latest - reference) <= moved
  }

  lemma CoveredStep(d: real, count: nat, moved: real, latest: real, reference: real, y: real)
    requires Covered(d, count, moved, latest, reference)
    ensures Covered(d, count, moved + Abs(y - latest), y, reference) && Covered(d, count, moved + Abs(y - latest), y, y)
    ensures Abs(y - reference) >= d ==> Covered(d, count + 1, moved + Abs(y - latest), y, y)
  {
    hide Cost;
    OneMore(d, count);
  }

  lemma CoveredOpens(d: real, start: real)
    ensures Covered(d, 0, Variation(start, []), Latest(start, []), start)
  {
  }

  lemma OutputsNext(start: real, events: seq<Event>, k: Key)
    requires events != []
    ensures var n := |events| - 1;
      var before, after := Outputs(events[..n], k), Outputs(events, k);
      if events[n].Tick? then
        Variation(start, after) == Variation(start, before) + Abs(events[n].output(k) - Latest(start, before))
        && Latest(start, after) == events[n].output(k)
      else after == before
  {
    var n := |events| - 1;
    if events[n].Tick? {
      VariationAppend(start, Outputs(events[..n], k), events[n].output(k));
    }
  }

  /** One event against the first filter. */
  lemma StepAgainstEntry(e: Engine, event: Event, key: CovSubKey)
    requires Watches(e, key)
    ensures Home(key) in e.models && Home(key) in Step(e, event).models
    ensures var last, next := e.models[Home(key)].lastValue, Step(e, event).models[Home(key)].lastValue;
      if event.Tick? then
        (next == last || next == event.output(Home(key)))
        && |StepReports(e, event, key)| <= 1
        && (StepReports(e, event, key) != [] ==>
          next == event.output(Home(key)) && Abs(next - last) >= e.models[Home(key)].covIncrement)
      else next == last && StepReports(e, event, key) == []
  {
    hide Watches, Step, Home, StepReports;
    WatchesHome(e, key);
    StepKeepsWatching(e, event, key);
    WatchesHome(Step(e, event), key);
    if event.Tick? {
      TickForWatcher(e, event.output, event.now, event.later, key);
      HearsPasses(e, event.output, key);
    } else {
      NothingToReport(e, event, key);
    }
  }

  lemma NothingToReport(e: Engine, event: Event, key: CovSubKey)
    ensures !event.Tick? ==> StepReports(e, event, key) == []
  {
  }

  lemma HearsPasses(e: Engine, output: Key -> real, key: CovSubKey)
    requires Watches(e, key)
    ensures Home(key) in e.models
    ensures Hears(e, output, key) ==> Passes(e.models[Home(key)], output(Home(key)))
  {
    hide Home;
  }

  /** The first filter's increment pays for every notification to every subscriber. */
  lemma {:induction false} EntryCovers(e: Engine, events: seq<Event>, key: CovSubKey)
    requires Watches(e, key)
    ensures Watches(Run(e, events), key)
    ensures var k := Home(key);
      k in e.models && k in Run(e, events).models
      && Covered(e.models[k].covIncrement, |RunReports(e, events, key)|,
        Variation(e.models[k].lastValue, Outputs(events, k)),
        Latest(e.models[k].lastValue, Outputs(events, k)), Run(e, events).models[k].lastValue)
    decreases |events|
  {
    hide Watches, Step, Home, StepReports, Covered, Variation, Outputs, Latest;
    var k := Home(key);
    WatchesHome(e, key);
    var start, d := e.models[k].lastValue, e.models[k].covIncrement;
    if events == [] {
      assert Outputs(events, k) == [] by { NoOutputs(k); }
      CoveredOpens(d, start);
    } else {
      var n := |events| - 1;
      var before := Run(e, events[..n]);
      EntryCovers(e, events[..n], key);
      RunKeepsWatching(e, events[..n], key);
      RunKeepsWatching(e, events, key);
      StepAgainstEntry(before, events[n], key);
      OutputsNext(start, events, k);
      if events[n].Tick? {
        CoveredStep(d, |RunReports(e, events[..n], key)|, Variation(start, Outputs(events[..n], k)),
          Latest(start, Outputs(events[..n], k)), before.models[k].lastValue, events[n].output(k));
      }
    }
  }

  lemma NoOutputs(k: Key)
    ensures Outputs([], k) == []
  {
  }

  /** One event against the second filter. */
  lemma StepAgainstSub(e: Engine, event: Event, key: CovSubKey)
    requires Watches(e, key) && !(event.Subscribe? && event.key == key)
    requires key in e.subs && e.subs[key].lastValue.Real?
    ensures var sub, next, reports := e.subs[key], Step(e, event), StepReports(e, event, key);
      var v := if event.Tick? then event.output(Home(key)) else sub.lastValue.real32;
      |reports| <= 1
      && (reports != [] ==> event.Tick? && Abs(v - sub.lastValue.real32) >= sub.Increment())
      && (key in next.subs ==> next.subs[key].Increment() == sub.Increment())
      && (key in next.subs ==> next.subs[key].lastValue == if reports != [] then SimValue.Real(v) else sub.lastValue)
  {
    if event.Tick? {
      hide Watches, Step, Home, StepReports;
      TickForWatcher(e, event.output, event.now, event.later, key);
      if Hears(e, event.output, key) {
        HearsTriggers(e, event.output, key);
      }
    }
  }

  lemma HearsTriggers(e: Engine, output: Key -> real, key: CovSubKey)
    requires Watches(e, key) && Hears(e, output, key) && e.subs[key].lastValue.Real?
    ensures Abs(output(Home(key)) - e.subs[key].lastValue.real32) >= e.subs[key].Increment()
  {
    hide Home;
  }

  lemma SilentStep(e: Engine, event: Event, key: CovSubKey)
    requires key !in e.subs && !(event.Subscribe? && event.key == key)
    ensures key !in Step(e, event).subs && StepReports(e, event, key) == []
  {
  }

  predicate CoveredWhileSubscribed(e: Engine, key: CovSubKey, d: real, count: nat, moved: real, latest: real) {
    if key in e.subs then
      e.subs[key].lastValue.Real? && e.subs[key].Increment() == d
      && Covered(d, count, moved, latest, e.subs[key].lastValue.real32)
    else Cost(d, count) <= moved
  }

  lemma CoveredWhileStep(e: Engine, event: Event, key: CovSubKey, d: real, count: nat, moved: real, latest: real)
    requires Watches(e, key) && !(event.Subscribe? && event.key == key)
    requires CoveredWhileSubscribed(e, key, d, count, moved, latest)
    ensures var reports := StepReports(e, event, key);
      var y := if event.Tick? then event.output(Home(key)) else latest;
      CoveredWhileSubscribed(Step(e, event), key, d, count + |reports|, moved + Abs(y - latest), y)
  {
    hide Watches, Step, Home, StepReports, Cost;
    var y := if event.Tick? then event.output(Home(key)) else latest;
    if key in e.subs {
      StepAgainstSub(e, event, key);
      CoveredStep(d, count, moved, latest, e.subs[key].lastValue.real32, y);
    } else {
      SilentStep(e, event, key);
    }
  }

  /** The second filter's increment pays for every notification to its subscriber. */
  lemma {:induction false} SubCovers(e: Engine, events: seq<Event>, key: CovSubKey)
    requires Watches(e, key) && key in e.subs && e.subs[key].lastValue.Real? && NotResubscribed(events, key)
    ensures var start, k := e.subs[key].lastValue.real32, Home(key);
      CoveredWhileSubscribed(Run(e, events), key, e.subs[key].Increment(), |RunReports(e, events, key)|,
        Variation(start, Outputs(events, k)), Latest(start, Outputs(events, k)))
    decreases |events|
  {
    hide Watches, Step, Home, StepReports, CoveredWhileSubscribed, Variation, Outputs, Latest;
    var k, start, d := Home(key), e.subs[key].lastValue.real32, e.subs[key].Increment();
    if events == [] {
      assert Outputs(events, k) == [] by { NoOutputs(k); }
      CoveredOpens(d, start);
      assert CoveredWhileSubscribed(e, key, d, 0, Variation(start, []), Latest(start, [])) by { SubOpens(e, key); }
    } else {
      var n := |events| - 1;
      var before := Run(e, events[..n]);
      SubCovers(e, events[..n], key);
      RunKeepsWatching(e, events[..n], key);
      OutputsNext(start, events, k);
      CoveredWhileStep(before, events[n], key, d, |RunReports(e, events[..n], key)|,
        Variation(start, Outputs(events[..n], k)), Latest(start, Outputs(events[..n], k)));
    }
  }

  lemma SubOpens(e: Engine, key: CovSubKey)
    requires key in e.subs && e.subs[key].lastValue.Real?
    ensures var start := e.subs[key].lastValue.real32;
      CoveredWhileSubscribed(e, key, e.subs[key].Increment(), 0, Variation(start, []), Latest(start, []))
  {
  }

  /** The main result on traffic: in every run the number of notifications to a subscriber, times either
      increment, is at most the distance that the model's outputs move. */
  lemma NotificationsCovered(e: Engine, events: seq<Event>, key: CovSubKey)
    requires Watches(e, key) && key in e.subs && e.subs[key].lastValue.Real? && NotResubscribed(events, key)
    ensures Home(key) in e.models
    ensures var entry, sub := e.models[Home(key)], e.subs[key];
      var n, outputs := |RunReports(e, events, key)|, Outputs(events, Home(key));
      Cost(entry.covIncrement, n) <= Variation(entry.lastValue, outputs)
      && Cost(sub.Increment(), n) <= Variation(sub.lastValue.real32, outputs)
  {
    hide Watches, Run, RunReports, Home, Variation, Outputs, Latest, Cost;
    EntryCovers(e, events, key);
    SubCovers(e, events, key);
  }
}

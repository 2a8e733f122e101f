/** The simulation tick: value models feed alarms, and a first threshold filter feeds the subscriptions. */
module SimEngines {
  import opened Machine
  import opened BacnetTypes
  import opened PropertyIds
  import opened SimValues
  import opened Alarms
  import opened CovEngines
  import opened ObjectStores

  datatype ModelEntry = ModelEntry(covIncrement: real, lastValue: real, alarm: Option<Alarm>)

  type Models = map<Key, ModelEntry>
  type Objects = map<Key, BacnetObject>

  // ---- One object ----------------------------------------------------------------------------

  predicate Passes(entry: ModelEntry, v: real) {
    Abs(v - entry.lastValue) >= entry.covIncrement
  }

  function AlarmAfter(alarm: Option<Alarm>, v: real, now: nat, oid: ObjectId): Option<Alarm> {
    match alarm
    case None => None
    case Some(m) => Some(Evaluated(m, SimValue.Real(v), now, oid).0)
  }

  function Advanced(entry: ModelEntry, v: real, now: nat, oid: ObjectId): ModelEntry {
    entry.(lastValue := if Passes(entry, v) then v else entry.lastValue, alarm := AlarmAfter(entry.alarm, v, now, oid))
  }

  // ---- One tick --------------------------------------------------------------------------------

  function ModelsAfter(objects: Objects, models: Models, output: Key -> real, now: nat): Models {
    map k | k in models :: if k in objects then Advanced(models[k], output(k), now, objects[k].objectId) else models[k]
  }

  /** What the tick has to announce about one object. */
  function Announced(objects: Objects, models: Models, output: Key -> real, k: Key): seq<Change> {
    if k in objects && k in models && Passes(models[k], output(k))
    then [Change(objects[k].deviceId, objects[k].objectId, PresentValue, SimValue.Real(output(k)))] else []
  }

  /** The list of changes when the objects are visited in this order. */
  function Changes(objects: Objects, models: Models, output: Key -> real, order: seq<Key>): seq<Change> {
    if order == [] then []
    else
      Changes(objects, models, output, order[..|order| - 1])
      + Announced(objects, models, output, order[|order| - 1])
  }

  function Dispatched(subs: Subscriptions, changes: seq<Change>, now: nat): Subscriptions {
    if changes == [] then subs
    else CheckAll(Dispatched(subs, changes[..|changes| - 1], now), changes[|changes| - 1], now)
  }

  function DispatchReports(subs: Subscriptions, changes: seq<Change>, now: nat, key: CovSubKey): seq<CovNotification> {
    if changes == [] then []
    else
      var n := |changes| - 1;
      DispatchReports(subs, changes[..n], now, key) + Reports(Dispatched(subs, changes[..n], now), key, changes[n])
  }

  predicate ExpiryDue(now: nat, lastExpire: nat) {
    Since(now, lastExpire) / SECOND >= 10
  }

  /** Every object is visited once. */
  ghost predicate VisitsOnce(order: seq<Key>, keys: set<Key>) {
    (forall k :: k in keys <==> k in order) && forall i, j :: 0 <= i < j < |order| ==> order[i] != order[j]
  }

  // ---- The loop over the objects ------------------------------------------------------------------

  function ModelStep(objects: Objects, models: Models, k: Key, v: real, now: nat): Models
    requires k in objects
  {
    if k in models then models[k := Advanced(models[k], v, now, objects[k].objectId)] else models
  }

  predicate HalfWay(objects: Objects, before: Models, models: Models, output: Key -> real, now: nat,
      remaining: set<Key>)
  {
    models.Keys == before.Keys
    && forall k :: k in before ==> models[k] == EntryOnTheWay(objects, before, output, now, remaining, k)
  }

  function EntryOnTheWay(objects: Objects, before: Models, output: Key -> real, now: nat, remaining: set<Key>,
      k: Key): ModelEntry
    requires k in before
  {
    if k in objects && k !in remaining then Advanced(before[k], output(k), now, objects[k].objectId) else before[k]
  }

  lemma WayBegins(objects: Objects, before: Models, output: Key -> real, now: nat)
    ensures HalfWay(objects, before, before, output, now, objects.Keys)
    ensures VisitsOnce([], objects.Keys - objects.Keys)
    ensures Changes(objects, before, output, []) == []
  {
  }

  lemma WayGoesOn(objects: Objects, before: Models, models: Models, output: Key -> real, now: nat,
      remaining: set<Key>, k: Key)
    requires HalfWay(objects, before, models, output, now, remaining) && k in remaining && k in objects
    ensures HalfWay(objects, before, ModelStep(objects, models, k, output(k), now), output, now, remaining - {k})
    ensures Announced(objects, models, _ => output(k), k) == Announced(objects, before, output, k)
  {
    hide Advanced, Passes;
  }

  lemma WayEnds(objects: Objects, before: Models, models: Models, output: Key -> real, now: nat)
    requires HalfWay(objects, before, models, output, now, {})
    ensures models == ModelsAfter(objects, before, output, now)
  {
    hide Advanced;
  }

  lemma NextVisit(objects: Objects, models: Models, output: Key -> real, order: seq<Key>, k: Key, visited: set<Key>)
    requires VisitsOnce(order, visited) && k !in visited
    ensures VisitsOnce(order + [k], visited + {k})
    ensures Changes(objects, models, output, order + [k])
      == Changes(objects, models, output, order) + Announced(objects, models, output, k)
  {
    hide Announced;
    assert (order + [k])[..|order|] == order;
  }

  class SimEngine {
    var objects: Objects
    var models: Models
    var lastExpire: nat
    const cov: CovEngine

    constructor (objects: Objects, start: nat)
      ensures this.objects == objects && models == map[] && lastExpire == start && fresh(cov)
      ensures cov.subscriptions == map[] && cov.sent == []
    {
      this.objects := objects;
      models := map[];
      lastExpire := start;
      cov := new CovEngine();
    }

    method AddModel(device: U32, oid: ObjectId, covIncrement: real, alarm: Option<Alarm>)
      modifies this`models
      ensures models == old(models)[ObjectKey(device, oid) := ModelEntry(Max(0.0, covIncrement), 0.0, alarm)]
    {
      models := models[ObjectKey(device, oid) := ModelEntry(Max(0.0, covIncrement), 0.0, alarm)];
    }

    /** One round of the loop.  `now` is the time at its start, `later` the time when changes are dispatched. */
    method Tick(output: Key -> real, now: nat, later: nat) returns (ghost order: seq<Key>)
      modifies this`models, this`lastExpire, cov
      ensures VisitsOnce(order, objects.Keys)
      ensures models == ModelsAfter(objects, old(models), output, now)
      ensures lastExpire == if ExpiryDue(now, old(lastExpire)) then now else old(lastExpire)
      ensures var told := Dispatched(old(cov.subscriptions), Changes(objects, old(models), output, order), later);
        cov.subscriptions == if ExpiryDue(now, old(lastExpire)) then Unexpired(told, later) else told
      ensures var changes := Changes(objects, old(models), output, order);
        forall key ::
          SentTo(cov.sent, key) ==
            SentTo(old(cov.sent), key) + DispatchReports(old(cov.subscriptions), changes, later, key)
    {
      var changed;
      changed, order := StepModels(output, now);
      Dispatch(changed, later);
      if Since(now, lastExpire) / SECOND >= 10 {
        var removed := cov.ExpireOld(later);
        lastExpire := now;
      }
    }

    method StepModels(output: Key -> real, now: nat) returns (changed: seq<Change>, ghost order: seq<Key>)
      modifies this`models
      ensures VisitsOnce(order, objects.Keys)
      ensures models == ModelsAfter(objects, old(models), output, now)
      ensures changed == Changes(objects, old(models), output, order)
    {
      hide Advanced, Passes, VisitsOnce, Changes, Announced, HalfWay;
      changed, order := [], [];
      ghost var before := models;
      var remaining := objects.Keys;
      WayBegins(objects, before, output, now);
      while remaining != {}
        invariant remaining <= objects.Keys
        invariant VisitsOnce(order, objects.Keys - remaining)
        invariant HalfWay(objects, before, models, output, now, remaining)
        invariant changed == Changes(objects, before, output, order)
        decreases |remaining|
      {
        var k :| k in remaining;
        WayGoesOn(objects, before, models, output, now, remaining, k);
        var change := StepModel(k, output(k), now);
        NextVisit(objects, before, output, order, k, objects.Keys - remaining);
        assert objects.Keys - remaining + {k} == objects.Keys - (remaining - {k});
        changed := changed + change;
        order := order + [k];
        remaining := remaining - {k};
      }
      assert objects.Keys - {} == objects.Keys;
      WayEnds(objects, before, models, output, now);
    }

    /** One object with its model, if it has one. */
    method StepModel(k: Key, v: real, now: nat) returns (change: seq<Change>)
      requires k in objects
      modifies this`models
      ensures models == ModelStep(objects, old(models), k, v, now)
      ensures change == Announced(objects, old(models), _ => v, k)
    {
      change := [];
      if k in models {
        var entry := models[k];
        var alarm := AlarmAfter(entry.alarm, v, now, objects[k].objectId);
        var last := entry.lastValue;
        if Abs(v - last) >= entry.covIncrement {
          last := v;
          change := [Change(objects[k].deviceId, objects[k].objectId, PresentValue, SimValue.Real(v))];
        }
        models := models[k := ModelEntry(entry.covIncrement, last, alarm)];
      }
    }

    method Dispatch(changed: seq<Change>, now: nat)
      modifies cov
      ensures cov.subscriptions == Dispatched(old(cov.subscriptions), changed, now)
      ensures forall key ::
        SentTo(cov.sent, key) == SentTo(old(cov.sent), key) + DispatchReports(old(cov.subscriptions), changed, now, key)
    {
      hide CheckAll, Reports, SentTo, Notifies;
      for i := 0 to |changed|
        invariant cov.subscriptions == Dispatched(old(cov.subscriptions), changed[..i], now)
        invariant forall key ::
          SentTo(cov.sent, key) ==
            SentTo(old(cov.sent), key) + DispatchReports(old(cov.subscriptions), changed[..i], now, key)
      {
        var notified := cov.CheckAndNotify(changed[i], now);
        assert changed[..i + 1][..i] == changed[..i];
      }
      assert changed[..|changed|] == changed;
    }
  }
}

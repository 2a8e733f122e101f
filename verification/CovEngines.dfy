/** Change-of-value subscriptions: the subscription map and its updates. */
module CovEngines {
  import opened Machine
  import opened BacnetTypes
  import opened PropertyIds
  import opened SimValues

  datatype MacAddr = Ip(ip: U32, port: U16) | MsTp(station: U8) | Sc(nodeId: Bytes)

  datatype NetworkAddress = NetworkAddress(networkNumber: U16, mac: MacAddr)

  datatype CovSubKey = CovSubKey(subscriber: NetworkAddress, processId: U32, objectId: ObjectId, deviceId: U32)

  datatype CovSubscription = CovSubscription(
    confirmed: bool,
    lifetimeSecs: Option<U32>,
    subscribedAt: nat,
    covIncrement: Option<real>,
    monitoredProp: Option<PropertyIdentifier>,
    lastNotifiedAt: nat,
    lastValue: SimValue)
  {
    function Increment(): real {
      match covIncrement
      case Some(i) => i
      case None => 0.0
    }
  }

  datatype CovNotification = CovNotification(
    subscriber: NetworkAddress,
    processId: U32,
    deviceId: U32,
    objectId: ObjectId,
    propertyId: PropertyIdentifier,
    value: SimValue,
    confirmed: bool)

  datatype Change = Change(deviceId: U32, objectId: ObjectId, propertyId: PropertyIdentifier, value: SimValue)

  type Subscriptions = map<CovSubKey, CovSubscription>

  // ---- One subscription -------------------------------------------------------------------

  predicate Matches(key: CovSubKey, sub: CovSubscription, c: Change) {
    key.deviceId == c.deviceId && key.objectId == c.objectId
    && (sub.monitoredProp.Some? ==> sub.monitoredProp.value == c.propertyId)
  }

  predicate Triggers(sub: CovSubscription, value: SimValue) {
    if value.Real? && sub.lastValue.Real? then Abs(value.real32 - sub.lastValue.real32) >= sub.Increment()
    else value != sub.lastValue
  }

  predicate Notifies(key: CovSubKey, sub: CovSubscription, c: Change) {
    Matches(key, sub, c) && Triggers(sub, c.value)
  }

  function Checked(key: CovSubKey, sub: CovSubscription, c: Change, now: nat): CovSubscription {
    if Notifies(key, sub, c) then sub.(lastValue := c.value, lastNotifiedAt := now) else sub
  }

  function Report(key: CovSubKey, sub: CovSubscription, c: Change): CovNotification {
    CovNotification(key.subscriber, key.processId, c.deviceId, c.objectId, c.propertyId, c.value, sub.confirmed)
  }

  predicate Alive(sub: CovSubscription, now: nat) {
    sub.lifetimeSecs.Some? ==> Since(now, sub.subscribedAt) / SECOND < sub.lifetimeSecs.value
  }

  /** Counting whole seconds loses nothing: a subscription lives exactly as long as its lifetime, to the
      nanosecond.  A clock behind the subscription's start counts as its start. */
  lemma LifetimeExactly(sub: CovSubscription, now: nat)
    ensures Alive(sub, now) <==>
      (sub.lifetimeSecs.Some? ==>
        0 < sub.lifetimeSecs.value && now < sub.subscribedAt + sub.lifetimeSecs.value * SECOND)
  {
    if sub.lifetimeSecs.Some? && sub.subscribedAt <= now {
      WholeSeconds(now - sub.subscribedAt, sub.lifetimeSecs.value);
    }
  }

  lemma WholeSeconds(duration: nat, limit: nat)
    ensures duration / 1_000_000_000 < limit <==> duration < limit * 1_000_000_000
  {
  }

  // ---- All subscriptions --------------------------------------------------------------------

  function CheckAll(subs: Subscriptions, c: Change, now: nat): Subscriptions {
    map key | key in subs :: Checked(key, subs[key], c, now)
  }

  function Unexpired(subs: Subscriptions, now: nat): Subscriptions {
    map key | key in subs && Alive(subs[key], now) :: subs[key]
  }

  /** What a change sends to one subscriber. */
  function Reports(subs: Subscriptions, key: CovSubKey, c: Change): seq<CovNotification> {
    if key in subs && Notifies(key, subs[key], c) then [Report(key, subs[key], c)] else []
  }

  predicate For(n: CovNotification, key: CovSubKey) {
    n.subscriber == key.subscriber && n.processId == key.processId && n.deviceId == key.deviceId
    && n.objectId == key.objectId
  }

  /** The notifications for one subscriber, in the order sent. */
  function SentTo(sent: seq<CovNotification>, key: CovSubKey): seq<CovNotification> {
    if sent == [] then []
    else
      var last := |sent| - 1;
      SentTo(sent[..last], key) + if For(sent[last], key) then [sent[last]] else []
  }

  lemma OneMoreSent(sent: seq<CovNotification>, n: CovNotification, key: CovSubKey)
    ensures SentTo(sent + [n], key) == SentTo(sent, key) + if For(n, key) then [n] else []
  {
    assert (sent + [n])[..|sent|] == sent;
  }

  /** The subscription map on the way through the loop. */
  predicate HalfChecked(before: Subscriptions, subs: Subscriptions, remaining: set<CovSubKey>, c: Change, now: nat) {
    subs.Keys == before.Keys
    && forall key :: key in before ==>
      subs[key] == if key in remaining then before[key] else Checked(key, before[key], c, now)
  }

  lemma CheckBegins(before: Subscriptions, c: Change, now: nat)
    ensures HalfChecked(before, before, before.Keys, c, now)
  {
  }

  lemma CheckGoesOn(before: Subscriptions, subs: Subscriptions, remaining: set<CovSubKey>, c: Change, now: nat,
      key: CovSubKey)
    requires HalfChecked(before, subs, remaining, c, now) && key in remaining && key in before
    ensures key in subs && subs[key] == before[key]
    ensures HalfChecked(before, subs[key := Checked(key, subs[key], c, now)], remaining - {key}, c, now)
  {
    hide Checked;
  }

  lemma CheckEnds(before: Subscriptions, subs: Subscriptions, c: Change, now: nat)
    requires HalfChecked(before, subs, {}, c, now)
    ensures subs == CheckAll(before, c, now)
  {
    hide Checked;
  }

  class CovEngine {
    var subscriptions: Subscriptions
    var sent: seq<CovNotification>

    constructor ()
      ensures subscriptions == map[] && sent == []
    {
      subscriptions := map[];
      sent := [];
    }

    method Subscribe(key: CovSubKey, sub: CovSubscription)
      modifies this`subscriptions
      ensures subscriptions == old(subscriptions)[key := sub]
    {
      subscriptions := subscriptions[key := sub];
    }

    method Unsubscribe(key: CovSubKey)
      modifies this`subscriptions
      ensures subscriptions == old(subscriptions) - {key}
    {
      subscriptions := subscriptions - {key};
    }

    method ActiveCount() returns (n: nat)
      ensures n == |subscriptions.Keys|
    {
      n := |subscriptions|;
    }

    /** One subscription on the way through the map. */
    method Visit(key: CovSubKey, c: Change, now: nat) returns (notified: bool)
      requires key in subscriptions
      modifies this
      ensures subscriptions == old(subscriptions)[key := Checked(key, old(subscriptions)[key], c, now)]
      ensures forall k ::
        SentTo(sent, k) == SentTo(old(sent), k) + if k == key then Reports(old(subscriptions), k, c) else []
      ensures notified == Notifies(key, old(subscriptions)[key], c)
    {
      hide Notifies, Report, For, SentTo;
      var sub := subscriptions[key];
      notified := Notifies(key, sub, c);
      if notified {
        subscriptions := subscriptions[key := sub.(lastValue := c.value, lastNotifiedAt := now)];
        sent := sent + [Report(key, sub, c)];
        ReportIsFor(key, sub, c);
        forall k ensures SentTo(sent, k) == SentTo(old(sent), k) + if k == key then [Report(key, sub, c)] else [] {
          OneMoreSent(old(sent), Report(key, sub, c), k);
        }
      }
    }

    /** The loop visits the subscriptions in some order; each subscriber sees the same whatever it is. */
    method CheckAndNotify(c: Change, now: nat) returns (notified: bool)
      modifies this
      ensures subscriptions == CheckAll(old(subscriptions), c, now)
      ensures forall key :: SentTo(sent, key) == SentTo(old(sent), key) + Reports(old(subscriptions), key, c)
      ensures notified <==> exists key :: key in old(subscriptions) && Notifies(key, old(subscriptions)[key], c)
    {
      hide Notifies, Report, Reports, SentTo, Checked, HalfChecked;
      notified := false;
      NoReports(subscriptions, c);
      ghost var before := subscriptions;
      var remaining := subscriptions.Keys;
      CheckBegins(before, c, now);
      while remaining != {}
        invariant remaining <= before.Keys
        invariant HalfChecked(before, subscriptions, remaining, c, now)
        invariant forall key ::
          SentTo(sent, key) == SentTo(old(sent), key) + if key in remaining then [] else Reports(before, key, c)
        invariant notified <==> exists key :: key in before && key !in remaining && Notifies(key, before[key], c)
        decreases |remaining|
      {
        var key :| key in remaining;
        CheckGoesOn(before, subscriptions, remaining, c, now, key);
        ReportsOne(subscriptions, before, key, c);
        var told := Visit(key, c, now);
        notified := notified || told;
        remaining := remaining - {key};
      }
      CheckEnds(before, subscriptions, c, now);
    }

    method ExpireOld(now: nat) returns (removed: nat)
      modifies this`subscriptions
      ensures subscriptions == Unexpired(old(subscriptions), now)
      ensures removed == |old(subscriptions)| - |subscriptions|
    {
      hide Alive;
      removed := 0;
      ghost var before := subscriptions;
      var remaining := subscriptions.Keys;
      while remaining != {}
        invariant remaining <= before.Keys
        invariant subscriptions ==
          map key | key in before && (key in remaining || Alive(before[key], now)) :: before[key]
        invariant removed + |subscriptions| == |before|
        decreases |remaining|
      {
        var key :| key in remaining;
        if !Alive(subscriptions[key], now) {
          removed := removed + 1;
          OneLess(subscriptions, key);
          subscriptions := subscriptions - {key};
        }
        remaining := remaining - {key};
      }
    }
  }

  lemma NoReports(subs: Subscriptions, c: Change)
    ensures forall key :: key !in subs ==> Reports(subs, key, c) == []
  {
  }

  lemma ReportsOne(a: Subscriptions, b: Subscriptions, key: CovSubKey, c: Change)
    requires key in a && key in b && a[key] == b[key]
    ensures Reports(a, key, c) == Reports(b, key, c)
  {
  }

  lemma OneLess(subs: Subscriptions, key: CovSubKey)
    requires key in subs
    ensures |subs - {key}| == |subs| - 1
  {
    assert (subs - {key}).Keys == subs.Keys - {key};
    assert |(subs - {key}).Keys| == |subs - {key}|;
    assert |subs.Keys| == |subs|;
  }

  lemma ReportIsFor(key: CovSubKey, sub: CovSubscription, c: Change)
    requires Notifies(key, sub, c)
    ensures forall k :: For(Report(key, sub, c), k) <==> k == key
  {
  }
}

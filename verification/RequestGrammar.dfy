/** Which bodies of confirmed requests are accepted, for which request, and what happens to all others. */
module RequestGrammar {
  import opened Machine
  import opened BacnetTypes
  import opened PropertyIds
  import opened Tags
  import opened Readers
  import opened Confirmed
  import opened WireGrammar
  import opened ValueGrammar

  // ---- ReadProperty, WriteProperty, SubscribeCOV ------------------------------------------------

  /** Object [0], property [1] and optional index [2]; what follows is not looked at. */
  ghost predicate ReadPropertyAt(body: Bytes, end: nat, r: ReadPropertyRequest) {
    exists p: nat, q: nat ::
      CtxObjectAt(body, 0, p, 0, r.objectId) && CtxPropertyAt(body, p, q, 1, r.propertyId)
      && OptionAt(body, q, end, 2, r.arrayIndex)
  }

  lemma Numbers()
    ensures NumberOf(0) == 0 && NumberOf(1) == 1 && NumberOf(2) == 2 && NumberOf(3) == 3 && NumberOf(4) == 4
  {
  }

  lemma ReadPropertyExactly(body: Bytes, r: ReadPropertyRequest, end: nat)
    ensures DecodeReadProperty(body) == Ok(r, end) <==> ReadPropertyAt(body, end, r)
    ensures var d := DecodeReadProperty(body); d.Ok? || d == Err(DecodeError)
  {
    hide DecodeCtxObjectId, DecodeCtxPropertyId, DecodeOption, CtxObjectAt, CtxPropertyAt, OptionAt, NumberOf;
    Numbers();
    forall p: nat ensures DecodeCtxObjectId(body, 0, 0) == Ok(r.objectId, p) <==> CtxObjectAt(body, 0, p, 0, r.objectId)
    {
      CtxObjectExactly(body, 0, 0, r.objectId, p);
    }
    forall p: nat, q: nat
      ensures DecodeCtxPropertyId(body, p, 1) == Ok(r.propertyId, q) <==> CtxPropertyAt(body, p, q, 1, r.propertyId)
    {
      CtxPropertyExactly(body, p, 1, r.propertyId, q);
    }
    forall q: nat ensures DecodeOption(body, q, 2) == Ok(r.arrayIndex, end) <==> OptionAt(body, q, end, 2, r.arrayIndex)
    {
      OptionExactly(body, q, 2, r.arrayIndex, end);
    }
    ReadPropertyFails(body);
  }

  lemma ReadPropertyFails(body: Bytes)
    ensures var d := DecodeReadProperty(body); d.Ok? || d == Err(DecodeError)
  {
    hide DecodeCtxObjectId, DecodeCtxPropertyId, DecodeOption;
    CtxObjectExactly(body, 0, 0, ObjectId(0, 0), 0);
    var a := DecodeCtxObjectId(body, 0, 0);
    if a.Ok? {
      CtxPropertyExactly(body, a.pos, 1, All, 0);
      var b := DecodeCtxPropertyId(body, a.pos, 1);
      if b.Ok? {
        OptionExactly(body, b.pos, 2, None, 0);
      }
    }
  }

  /** A priority is cut to its low octet, whatever number is sent. */
  ghost predicate PriorityAt(body: Bytes, pos: nat, end: nat, priority: Option<U8>) {
    match priority
    case None => OptionAt(body, pos, end, 4, None)
    case Some(p) => exists n: U32 :: OptionAt(body, pos, end, 4, Some(n)) && p == n % 0x100
  }

  lemma PriorityExactly(body: Bytes, pos: nat, end: nat, priority: Option<U8>)
    ensures DecodePriority(body, pos) == Ok(priority, end) <==> PriorityAt(body, pos, end, priority)
  {
    hide DecodeOption, OptionAt, NumberOf;
    Numbers();
    forall v: Option<U32> ensures DecodeOption(body, pos, 4) == Ok(v, end) <==> OptionAt(body, pos, end, 4, v) {
      OptionExactly(body, pos, 4, v, end);
    }
    var d := DecodeOption(body, pos, 4);
    if d.Ok? && d.value.Some? && d.pos == end {
      assert OptionAt(body, pos, end, 4, Some(d.value.value));
    }
  }

  /** The same, then the value in brackets [3] and an optional priority [4]. */
  ghost predicate WritePropertyAt(body: Bytes, end: nat, r: WritePropertyRequest) {
    exists p: nat, q: nat ::
      ReadPropertyAt(body, p, ReadPropertyRequest(r.objectId, r.propertyId, r.arrayIndex)) && OpeningAt(body, p, 3)
      && ApplicationAt(body, p + 1, q, r.value) && ClosingAt(body, q, 3) && PriorityAt(body, q + 1, end, r.priority)
  }

  lemma WritePropertyExactly(body: Bytes, r: WritePropertyRequest, end: nat)
    ensures DecodeWriteProperty(body) == Ok(r, end) <==> WritePropertyAt(body, end, r)
  {
    hide DecodeReadProperty, ReadPropertyAt, DecodeApplicationValue, ApplicationAt, IsOpening, IsClosing, OpeningAt,
      ClosingAt, DecodePriority, PriorityAt, NumberOf;
    Numbers();
    var target := ReadPropertyRequest(r.objectId, r.propertyId, r.arrayIndex);
    forall p: nat ensures DecodeReadProperty(body) == Ok(target, p) <==> ReadPropertyAt(body, p, target) {
      ReadPropertyExactly(body, target, p);
    }
    forall p: nat
      ensures IsOpening(body, p, 3) <==> OpeningAt(body, p, 3)
      ensures IsClosing(body, p, 3) <==> ClosingAt(body, p, 3)
    {
      TagTestsExactly(body, p, 3);
    }
    forall p: nat, q: nat
      ensures DecodeApplicationValue(body, p) == Ok(r.value, q) <==> ApplicationAt(body, p, q, r.value)
    {
      ValueExactly(body, p, q, r.value);
    }
    forall q: nat ensures DecodePriority(body, q) == Ok(r.priority, end) <==> PriorityAt(body, q, end, r.priority) {
      PriorityExactly(body, q, end, r.priority);
    }
  }

  /** Any number but 0 says yes. */
  ghost predicate FlagAt(body: Bytes, pos: nat, end: nat, flag: Option<bool>) {
    match flag
    case None => OptionAt(body, pos, end, 2, None)
    case Some(b) => exists n: U32 :: OptionAt(body, pos, end, 2, Some(n)) && (b <==> n != 0)
  }

  lemma FlagExactly(body: Bytes, pos: nat, end: nat, flag: Option<bool>)
    ensures DecodeOptionBool(body, pos, 2) == Ok(flag, end) <==> FlagAt(body, pos, end, flag)
  {
    hide DecodeCtxU32, HasContextTag, OptionAt, NumberOf;
    Numbers();
    forall v: Option<U32> ensures DecodeOption(body, pos, 2) == Ok(v, end) <==> OptionAt(body, pos, end, 2, v) {
      OptionExactly(body, pos, 2, v, end);
    }
    var d := DecodeOption(body, pos, 2);
    if d.Ok? && d.value.Some? && d.pos == end {
      assert OptionAt(body, pos, end, 2, Some(d.value.value));
    }
  }

  /** Process [0], object [1], optional flag [2] and lifetime [3]. */
  ghost predicate SubscribeCovAt(body: Bytes, end: nat, r: SubscribeCovRequest) {
    exists p: nat, q: nat, f: nat ::
      CtxNumberAt(body, 0, p, 0, r.processId) && CtxObjectAt(body, p, q, 1, r.monitoredObject)
      && FlagAt(body, q, f, r.issueConfirmed) && OptionAt(body, f, end, 3, r.lifetime)
  }

  lemma SubscribeCovExactly(body: Bytes, r: SubscribeCovRequest, end: nat)
    ensures DecodeSubscribeCov(body) == Ok(r, end) <==> SubscribeCovAt(body, end, r)
  {
    hide DecodeCtxU32, CtxNumberAt, DecodeCtxObjectId, CtxObjectAt, DecodeOptionBool, FlagAt, DecodeOption, OptionAt,
      NumberOf;
    Numbers();
    forall p: nat ensures DecodeCtxU32(body, 0, 0) == Ok(r.processId, p) <==> CtxNumberAt(body, 0, p, 0, r.processId) {
      CtxNumberExactly(body, 0, 0, r.processId, p);
    }
    forall p: nat, q: nat
      ensures DecodeCtxObjectId(body, p, 1) == Ok(r.monitoredObject, q) <==>
        CtxObjectAt(body, p, q, 1, r.monitoredObject)
    {
      CtxObjectExactly(body, p, 1, r.monitoredObject, q);
    }
    forall q: nat, f: nat
      ensures DecodeOptionBool(body, q, 2) == Ok(r.issueConfirmed, f) <==> FlagAt(body, q, f, r.issueConfirmed)
    {
      FlagExactly(body, q, f, r.issueConfirmed);
    }
    forall f: nat ensures DecodeOption(body, f, 3) == Ok(r.lifetime, end) <==> OptionAt(body, f, end, 3, r.lifetime) {
      OptionExactly(body, f, 3, r.lifetime, end);
    }
  }

  // ---- ReadPropertyMultiple -------------------------------------------------------------------------

  ghost predicate ReferenceAt(body: Bytes, pos: nat, end: nat, p: PropertyReference) {
    exists q: nat :: CtxPropertyAt(body, pos, q, 0, p.propertyId) && OptionAt(body, q, end, 1, p.arrayIndex)
  }

  lemma ReferenceExactly(body: Bytes, pos: nat, end: nat, p: PropertyReference)
    ensures DecodeReference(body, pos) == Ok(p, end) <==> ReferenceAt(body, pos, end, p)
    ensures var d := DecodeReference(body, pos); d.Ok? || d == Err(DecodeError)
  {
    hide DecodeCtxPropertyId, CtxPropertyAt, DecodeOption, OptionAt, NumberOf;
    Numbers();
    forall q: nat
      ensures DecodeCtxPropertyId(body, pos, 0) == Ok(p.propertyId, q) <==> CtxPropertyAt(body, pos, q, 0, p.propertyId)
    {
      CtxPropertyExactly(body, pos, 0, p.propertyId, q);
    }
    forall q: nat ensures DecodeOption(body, q, 1) == Ok(p.arrayIndex, end) <==> OptionAt(body, q, end, 1, p.arrayIndex)
    {
      OptionExactly(body, q, 1, p.arrayIndex, end);
    }
    CtxPropertyExactly(body, pos, 0, p.propertyId, 0);
    var d := DecodeCtxPropertyId(body, pos, 0);
    if d.Ok? {
      OptionExactly(body, d.pos, 1, p.arrayIndex, 0);
    }
  }

  /** References one after another; `end` is the place of the closing tag. */
  ghost predicate ReferencesAt(body: Bytes, pos: nat, end: nat, ps: seq<PropertyReference>)
    decreases |ps|
  {
    if ps == [] then end == pos && ClosingAt(body, pos, 1)
    else
      !ClosingAt(body, pos, 1) && pos < |body|
      && exists q: nat :: ReferenceAt(body, pos, q, ps[0]) && ReferencesAt(body, q, end, ps[1..])
  }

  lemma {:induction false} ReferencesExactly(body: Bytes, pos: nat, end: nat, ps: seq<PropertyReference>)
    ensures DecodeReferences(body, pos) == Ok(ps, end) <==> ReferencesAt(body, pos, end, ps)
    ensures var d := DecodeReferences(body, pos); d.Ok? || d == Err(DecodeError)
    decreases |body| - pos
  {
    hide DecodeReference, ReferenceAt, IsClosing, ClosingAt, NumberOf;
    Numbers();
    TagTestsExactly(body, pos, 1);
    if !IsClosing(body, pos, 1) && pos < |body| {
      var d := DecodeReference(body, pos);
      ReferenceAdvances(body, pos);
      ReferenceExactly(body, pos, end, if ps == [] then PropertyReference(All, None) else ps[0]);
      if ps != [] {
        forall q: nat ensures d == Ok(ps[0], q) <==> ReferenceAt(body, pos, q, ps[0]) {
          ReferenceExactly(body, pos, q, ps[0]);
        }
      }
      if d.Ok? {
        ReferencesExactly(body, d.pos, end, if ps == [] then [] else ps[1..]);
        var rest := DecodeReferences(body, d.pos);
        if rest.Ok? {
          FirstOf(d.value, rest.value, ps);
        }
      }
    }
  }

  lemma FirstOf<T>(first: T, rest: seq<T>, whole: seq<T>)
    ensures [first] + rest == whole <==> whole != [] && whole[0] == first && whole[1..] == rest
  {
    assert ([first] + rest)[1..] == rest;
    if whole != [] {
      assert whole == [whole[0]] + whole[1..];
    }
  }

  /** One object with its bracketed list; `end` is behind the closing tag. */
  ghost predicate SpecAt(body: Bytes, pos: nat, end: nat, s: ReadSpec) {
    exists p: nat ::
      CtxObjectAt(body, pos, p, 0, s.objectId) && OpeningAt(body, p, 1) && end > 0
      && ReferencesAt(body, p + 1, end - 1, s.properties)
  }

  lemma SpecExactly(body: Bytes, pos: nat, end: nat, s: ReadSpec)
    ensures DecodeSpec(body, pos) == Ok(s, end) <==> SpecAt(body, pos, end, s)
    ensures var d := DecodeSpec(body, pos); d.Ok? || d == Err(DecodeError)
  {
    hide DecodeCtxObjectId, CtxObjectAt, IsOpening, OpeningAt, DecodeReferences, ReferencesAt, NumberOf;
    Numbers();
    forall p: nat
      ensures DecodeCtxObjectId(body, pos, 0) == Ok(s.objectId, p) <==> CtxObjectAt(body, pos, p, 0, s.objectId)
      ensures IsOpening(body, p, 1) <==> OpeningAt(body, p, 1)
    {
      CtxObjectExactly(body, pos, 0, s.objectId, p);
      TagTestsExactly(body, p, 1);
    }
    forall p: nat, e: nat
      ensures DecodeReferences(body, p) == Ok(s.properties, e) <==> ReferencesAt(body, p, e, s.properties)
    {
      ReferencesExactly(body, p, e, s.properties);
    }
    CtxObjectExactly(body, pos, 0, s.objectId, 0);
    var d := DecodeCtxObjectId(body, pos, 0);
    if d.Ok? {
      ReferencesExactly(body, d.pos + 1, 0, s.properties);
    }
  }

  /** Objects one after another up to the very end of the body. */
  ghost predicate SpecsAt(body: Bytes, pos: nat, specs: seq<ReadSpec>)
    decreases |specs|
  {
    if specs == [] then pos >= |body|
    else pos < |body| && exists q: nat :: SpecAt(body, pos, q, specs[0]) && SpecsAt(body, q, specs[1..])
  }

  lemma {:induction false} SpecsExactly(body: Bytes, pos: nat, specs: seq<ReadSpec>)
    requires pos <= |body|
    ensures DecodeRpm(body, pos) == Ok(specs, |body|) <==> SpecsAt(body, pos, specs)
    ensures var d := DecodeRpm(body, pos); (d.Ok? && d.pos == |body|) || d == Err(DecodeError)
    decreases |body| - pos
  {
    hide DecodeSpec, SpecAt;
    if pos < |body| {
      var d := DecodeSpec(body, pos);
      SpecAdvances(body, pos);
      SpecExactly(body, pos, 0, if specs == [] then ReadSpec(ObjectId(0, 0), []) else specs[0]);
      if specs != [] {
        forall q: nat ensures d == Ok(specs[0], q) <==> SpecAt(body, pos, q, specs[0]) {
          SpecExactly(body, pos, q, specs[0]);
        }
      }
      if d.Ok? {
        SpecsExactly(body, d.pos, if specs == [] then [] else specs[1..]);
        var rest := DecodeRpm(body, d.pos);
        if rest.Ok? {
          FirstOf(d.value, rest.value, specs);
        }
      }
    }
  }

  /** The main result on ReadPropertyMultiple: a body is accepted for a request exactly when the whole of it is that
      request by the grammar of section 15.7, numbers in any count of octets; every other body is a decoding error. */
  lemma RpmExactly(body: Bytes, specs: seq<ReadSpec>)
    ensures DecodeRpm(body, 0) == Ok(specs, |body|) <==> SpecsAt(body, 0, specs)
    ensures var d := DecodeRpm(body, 0); (d.Ok? && d.pos == |body|) || d == Err(DecodeError)
  {
    hide DecodeRpm, SpecsAt;
    SpecsExactly(body, 0, specs);
  }
}

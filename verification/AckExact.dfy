/** Exactly which ReadPropertyMultiple acknowledgements are read back. */
module AckExact {
  import opened Machine
  import opened BacnetTypes
  import opened PropertyIds
  import opened Buffers
  import opened Tags
  import opened Application
  import opened ValueRoundTrip
  import opened Readers
  import opened Misreadings
  import opened Ack
  import opened AckReader

  lemma OutcomeMisread(buf: Bytes, pos: nat, o: Outcome)
    requires At(buf, pos, OutcomeBytes(o)) && !OutcomeInRange(o)
    ensures var r := ReadOutcomeAt(buf, pos); r.Ok? ==> r.value != OutcomeView(o)
    ensures !HasContextTag(buf, pos, 3)
  {
    hide ContextTag, Encoding, ReadValues, IsOpening, IsClosing, HasContextTag, At, AllReadable, Leaves;
    var value := Encoding(o.value);
    AtConcat(buf, pos, OpeningTag(4) + value, ClosingTag(4));
    AtConcat(buf, pos, OpeningTag(4), value);
    TagByte(buf, pos, 4, 6);
    ValueMisread(buf, pos + 1, o.value, 4);
  }

  lemma PropertyMisread(buf: Bytes, pos: nat, p: PropertyResult)
    requires At(buf, pos, PropertyBytes(p)) && !OutcomeInRange(p.value)
    ensures var r := ReadPropertyAt(buf, pos); r.Ok? ==> r.value != PropertyView(p)
    ensures !IsClosing(buf, pos, 1)
  {
    hide CtxU32Bytes, OutcomeBytes, DecodeCtxPropertyId, DecodeOption, ReadOutcomeAt, IsClosing, HasContextTag,
      OptionBytes, At, OutcomeInRange, OutcomeView, PropertyCode, PropertyFrom;
    var id, index := CtxU32Bytes(2, PropertyCode(p.propertyId)), OptionBytes(3, p.arrayIndex);
    AtConcat(buf, pos, id + index, OutcomeBytes(p.value));
    AtConcat(buf, pos, id, index);
    CtxPropertyIdRoundTrip(buf, pos, 2, p.propertyId);
    OutcomeMisread(buf, pos + |id| + |index|, p.value);
    NoOptionBytes(3, p.arrayIndex);
    OptionRoundTrip(buf, pos + |id|, 3, p.arrayIndex);
  }

  // ---- The first part that is out of range ------------------------------------------------------

  lemma {:induction false} PropertiesPrefix(buf: Bytes, pos: nat, ps: seq<PropertyResult>, k: nat)
    requires At(buf, pos, PropertiesBytes(ps)) && k <= |ps|
    ensures At(buf, pos, PropertiesBytes(ps[..k]))
    decreases |ps|
  {
    hide At, PropertyBytes;
    if k == |ps| {
      assert ps[..k] == ps;
    } else {
      var n := |ps| - 1;
      AtConcat(buf, pos, PropertiesBytes(ps[..n]), PropertyBytes(ps[n]));
      PropertiesPrefix(buf, pos, ps[..n], k);
      assert ps[..n][..k] == ps[..k];
    }
  }

  lemma {:induction false} PropertiesViewAt(ps: seq<PropertyResult>, k: nat)
    requires k < |ps|
    ensures |PropertiesView(ps)| == |ps| && PropertiesView(ps)[k] == PropertyView(ps[k])
    decreases |ps|
  {
    hide PropertyView;
    var n := |ps| - 1;
    if k < n {
      PropertiesViewAt(ps[..n], k);
    } else if n > 0 {
      PropertiesViewAt(ps[..n], 0);
    }
  }

  /** Reading goes on with a part that does not come out as written. */
  lemma PropertiesGoWrong(buf: Bytes, pos: nat, p: PropertyResult)
    requires At(buf, pos, PropertyBytes(p)) && !OutcomeInRange(p.value)
    ensures var r := ReadProperties(buf, pos); r.Ok? ==> r.value != [] && r.value[0] != PropertyView(p)
  {
    hide ReadPropertyAt, IsClosing, PropertyBytes, PropertyView, OutcomeInRange;
    PropertyMisread(buf, pos, p);
  }

  lemma {:induction false} FirstOutOfRange(ps: seq<PropertyResult>) returns (k: nat)
    requires !PropertiesInRange(ps)
    ensures k < |ps| && !OutcomeInRange(ps[k].value) && PropertiesInRange(ps[..k])
    decreases |ps|
  {
    hide OutcomeInRange;
    var n := |ps| - 1;
    if PropertiesInRange(ps[..n]) {
      k := n;
      assert OutcomeInRange(ps[n].value) ==> PropertiesInRange(ps);
    } else {
      k := FirstOutOfRange(ps[..n]);
      assert ps[..n][..k] == ps[..k];
    }
  }

  /** What is read starts well and goes wrong at position `k`. */
  lemma WrongAt<T>(before: seq<T>, r: Parsed<seq<T>>, whole: seq<T>, k: nat)
    requires |before| == k < |whole|
    requires r.Ok? ==> r.value != [] && r.value[0] != whole[k]
    ensures Prepend(before, r).Ok? ==> Prepend(before, r).value != whole
  {
    if r.Ok? {
      assert (before + r.value)[k] == r.value[0];
    }
  }

  lemma PropertiesNext(ps: seq<PropertyResult>, k: nat)
    requires k < |ps|
    ensures PropertiesBytes(ps[..k + 1]) == PropertiesBytes(ps[..k]) + PropertyBytes(ps[k])
  {
    hide PropertyBytes;
    assert ps[..k + 1][..k] == ps[..k];
  }

  lemma PropertiesSplit(buf: Bytes, pos: nat, ps: seq<PropertyResult>, k: nat)
    requires At(buf, pos, PropertiesBytes(ps)) && k < |ps|
    ensures At(buf, pos, PropertiesBytes(ps[..k]))
    ensures At(buf, pos + |PropertiesBytes(ps[..k])|, PropertyBytes(ps[k]))
  {
    hide At, PropertyBytes, PropertiesBytes;
    PropertiesPrefix(buf, pos, ps, k + 1);
    PropertiesNext(ps, k);
    AtConcat(buf, pos, PropertiesBytes(ps[..k]), PropertyBytes(ps[k]));
  }

  lemma PropertiesMisread(buf: Bytes, pos: nat, ps: seq<PropertyResult>)
    requires At(buf, pos, PropertiesBytes(ps)) && !PropertiesInRange(ps)
    ensures var r := ReadProperties(buf, pos); r.Ok? ==> r.value != PropertiesView(ps)
  {
    hide At, PropertyBytes, PropertiesBytes, PropertiesInRange, OutcomeInRange, PropertyView, ReadProperties,
      PropertiesView, Prepend, PropertyFrom, PropertyCode;
    var k := FirstOutOfRange(ps);
    PropertiesSplit(buf, pos, ps, k);
    var before := PropertiesBytes(ps[..k]);
    PropertiesBack(buf, pos, ps[..k]);
    PropertiesGoWrong(buf, pos + |before|, ps[k]);
    PropertiesViewAt(ps, k);
    PropertiesViewLength(ps[..k]);
    WrongAt(PropertiesView(ps[..k]), ReadProperties(buf, pos + |before|), PropertiesView(ps), k);
  }

  lemma PropertiesViewLength(ps: seq<PropertyResult>)
    ensures |PropertiesView(ps)| == |ps|
  {
    hide PropertyView;
    if ps != [] {
      PropertiesViewAt(ps, 0);
    }
  }

  // ---- Objects ---------------------------------------------------------------------------------------

  predicate ObjectInRange(o: ObjectPropertyResult) {
    PlainObjectId(o.objectId) && PropertiesInRange(o.propertyResults)
  }

  lemma ObjectMisread(buf: Bytes, pos: nat, o: ObjectPropertyResult)
    requires At(buf, pos, ObjectBytes(o)) && !ObjectInRange(o)
    ensures var r := ReadObjectAt(buf, pos); r.Ok? ==> r.value != ObjectView(o)
    ensures pos < |buf|
  {
    hide ContextTag, CtxObjectIdBytes, PropertiesBytes, DecodeCtxObjectId, IsOpening, At, PropertiesInRange,
      PlainObjectId, UnpackObjectId, PackObjectId, PropertiesView, ReadProperties;
    var id, ps := CtxObjectIdBytes(0, o.objectId), PropertiesBytes(o.propertyResults);
    AtConcat(buf, pos, id + OpeningTag(1) + ps, ClosingTag(1));
    AtConcat(buf, pos, id + OpeningTag(1), ps);
    AtConcat(buf, pos, id, OpeningTag(1));
    CtxObjectIdRoundTrip(buf, pos, 0, o.objectId);
    UnpackPacked(o.objectId);
    TagByte(buf, pos + 5, 1, 6);
    if !PropertiesInRange(o.propertyResults) {
      PropertiesMisread(buf, pos + 6, o.propertyResults);
    }
  }

  lemma {:induction false} ObjectsPrefix(buf: Bytes, pos: nat, results: seq<ObjectPropertyResult>, k: nat)
    requires At(buf, pos, RpmAckBytes(results)) && k <= |results|
    ensures At(buf, pos, RpmAckBytes(results[..k]))
    decreases |results|
  {
    hide At, ObjectBytes;
    if k == |results| {
      assert results[..k] == results;
    } else {
      var n := |results| - 1;
      AtConcat(buf, pos, RpmAckBytes(results[..n]), ObjectBytes(results[n]));
      ObjectsPrefix(buf, pos, results[..n], k);
      assert results[..n][..k] == results[..k];
    }
  }

  lemma {:induction false} ViewAt(results: seq<ObjectPropertyResult>, k: nat)
    requires k < |results|
    ensures |View(results)| == |results| && View(results)[k] == ObjectView(results[k])
    decreases |results|
  {
    hide ObjectView;
    var n := |results| - 1;
    if k < n {
      ViewAt(results[..n], k);
    } else if n > 0 {
      ViewAt(results[..n], 0);
    }
  }

  lemma ViewLength(results: seq<ObjectPropertyResult>)
    ensures |View(results)| == |results|
  {
    hide ObjectView;
    if results != [] {
      ViewAt(results, 0);
    }
  }

  lemma ObjectsGoWrong(buf: Bytes, pos: nat, o: ObjectPropertyResult)
    requires At(buf, pos, ObjectBytes(o)) && !ObjectInRange(o)
    ensures var r := ReadObjects(buf, pos); r.Ok? ==> r.value != [] && r.value[0] != ObjectView(o)
  {
    hide ReadObjectAt, ObjectBytes, ObjectView, ObjectInRange;
    ObjectMisread(buf, pos, o);
  }

  lemma {:induction false} FirstObjectOutOfRange(results: seq<ObjectPropertyResult>) returns (k: nat)
    requires !InRange(results)
    ensures k < |results| && !ObjectInRange(results[k]) && InRange(results[..k])
    decreases |results|
  {
    hide PlainObjectId, PropertiesInRange;
    var n := |results| - 1;
    if InRange(results[..n]) {
      k := n;
      assert ObjectInRange(results[n]) ==> InRange(results);
    } else {
      k := FirstObjectOutOfRange(results[..n]);
      assert results[..n][..k] == results[..k];
    }
  }

  lemma ObjectsNext(results: seq<ObjectPropertyResult>, k: nat)
    requires k < |results|
    ensures RpmAckBytes(results[..k + 1]) == RpmAckBytes(results[..k]) + ObjectBytes(results[k])
  {
    hide ObjectBytes;
    assert results[..k + 1][..k] == results[..k];
  }

  lemma ObjectsSplit(buf: Bytes, pos: nat, results: seq<ObjectPropertyResult>, k: nat)
    requires At(buf, pos, RpmAckBytes(results)) && k < |results|
    ensures At(buf, pos, RpmAckBytes(results[..k]))
    ensures At(buf, pos + |RpmAckBytes(results[..k])|, ObjectBytes(results[k]))
  {
    hide At, ObjectBytes, RpmAckBytes;
    ObjectsPrefix(buf, pos, results, k + 1);
    ObjectsNext(results, k);
    AtConcat(buf, pos, RpmAckBytes(results[..k]), ObjectBytes(results[k]));
  }

  lemma ObjectsMisread(buf: Bytes, pos: nat, results: seq<ObjectPropertyResult>)
    requires At(buf, pos, RpmAckBytes(results)) && !InRange(results)
    ensures var r := ReadObjects(buf, pos); r.Ok? ==> r.value != View(results)
  {
    hide At, ObjectBytes, RpmAckBytes, InRange, ObjectInRange, ObjectView, ReadObjects, View, Prepend;
    var k := FirstObjectOutOfRange(results);
    ObjectsSplit(buf, pos, results, k);
    var before := RpmAckBytes(results[..k]);
    ObjectsBack(buf, pos, results[..k]);
    ObjectsGoWrong(buf, pos + |before|, results[k]);
    ViewAt(results, k);
    ViewLength(results[..k]);
    WrongAt(View(results[..k]), ReadObjects(buf, pos + |before|), View(results), k);
  }

  /** The exact condition: reading gives back what an acknowledgement says, up to the end of the buffer, if and
      only if its object types are listed, its instances have 22 bits, and every leaf of its values is readable. */
  lemma RpmAckReadExactly(results: seq<ObjectPropertyResult>)
    ensures ReadObjects(RpmAckBytes(results), 0) == Ok(View(results), |RpmAckBytes(results)|) <==> InRange(results)
  {
    hide RpmAckBytes, View, InRange, ReadObjects, At;
    if InRange(results) {
      RpmAckReadBack(results);
    } else {
      AtWhole(RpmAckBytes(results));
      ObjectsMisread(RpmAckBytes(results), 0, results);
    }
  }

  /** What a ReadProperty acknowledgement says. */
  function AckView(ack: ReadPropertyAck): ReadAck {
    ReadAck(ack.objectId, PropertyFrom(PropertyCode(ack.propertyId)), ack.arrayIndex, Leaves(ack.value))
  }

  lemma ReadPropertyAckMisread(ack: ReadPropertyAck)
    requires !PlainObjectId(ack.objectId) || !AllReadable(ack.value)
    ensures var r := ReadReadPropertyAck(ReadPropertyAckBytes(ack)); r.Ok? ==> r.value != AckView(ack)
  {
    hide ContextTag, CtxObjectIdBytes, CtxU32Bytes, OptionBytes, Encoding, DecodeCtxObjectId, DecodeCtxPropertyId,
      DecodeOption, ReadValues, IsOpening, HasContextTag, At, AllReadable, Leaves, PlainObjectId, UnpackObjectId,
      PackObjectId, PropertyCode, PropertyFrom;
    var buf := ReadPropertyAckBytes(ack);
    var a, b, c, d := CtxObjectIdBytes(0, ack.objectId), CtxU32Bytes(1, PropertyCode(ack.propertyId)),
      OptionBytes(2, ack.arrayIndex), Encoding(ack.value);
    AtWhole(buf);
    AtConcat(buf, 0, a + b + c + OpeningTag(3) + d, ClosingTag(3));
    AtConcat(buf, 0, a + b + c + OpeningTag(3), d);
    AtConcat(buf, 0, a + b + c, OpeningTag(3));
    AtConcat(buf, 0, a + b, c);
    AtConcat(buf, 0, a, b);
    CtxObjectIdRoundTrip(buf, 0, 0, ack.objectId);
    UnpackPacked(ack.objectId);
    CtxPropertyIdRoundTrip(buf, 5, 1, ack.propertyId);
    TagByte(buf, 5 + |b| + |c|, 3, 6);
    NoOptionBytes(2, ack.arrayIndex);
    OptionRoundTrip(buf, 5 + |b|, 2, ack.arrayIndex);
    if !AllReadable(ack.value) {
      ValueMisread(buf, 6 + |b| + |c|, ack.value, 3);
    }
  }

  /** The same for the ReadProperty acknowledgement. */
  lemma ReadPropertyAckReadExactly(ack: ReadPropertyAck)
    ensures ReadReadPropertyAck(ReadPropertyAckBytes(ack)) == Ok(AckView(ack), |ReadPropertyAckBytes(ack)|) <==>
      (PlainObjectId(ack.objectId) && AllReadable(ack.value))
  {
    hide ReadPropertyAckBytes, ReadReadPropertyAck, PlainObjectId, AllReadable, Leaves, PropertyCode, PropertyFrom;
    if PlainObjectId(ack.objectId) && AllReadable(ack.value) {
      ReadPropertyAckReadBack(ack);
    } else {
      ReadPropertyAckMisread(ack);
    }
  }
}

/** Bodies of confirmed requests: the decoders, and the request grammar they read. */
module Confirmed {
  import opened Machine
  import opened BacnetTypes
  import opened PropertyIds
  import opened Tags
  import opened Readers

  datatype ReadPropertyRequest =
    ReadPropertyRequest(objectId: ObjectId, propertyId: PropertyIdentifier, arrayIndex: Option<U32>)

  datatype WritePropertyRequest = WritePropertyRequest(
    objectId: ObjectId,
    propertyId: PropertyIdentifier,
    arrayIndex: Option<U32>,
    value: PropertyValue,
    priority: Option<U8>)

  datatype SubscribeCovRequest = SubscribeCovRequest(
    processId: U32,
    monitoredObject: ObjectId,
    issueConfirmed: Option<bool>,
    lifetime: Option<U32>)

  datatype PropertyReference = PropertyReference(propertyId: PropertyIdentifier, arrayIndex: Option<U32>)

  datatype ReadSpec = ReadSpec(objectId: ObjectId, properties: seq<PropertyReference>)

  // ---- Decoders ---------------------------------------------------------------------

  function DecodeReadProperty(body: Bytes): Parsed<ReadPropertyRequest> {
    var (objectId, pos1) :- DecodeCtxObjectId(body, 0, 0);
    var (propertyId, pos2) :- DecodeCtxPropertyId(body, pos1, 1);
    var (arrayIndex, pos3) :- DecodeOption(body, pos2, 2);
    Ok(ReadPropertyRequest(objectId, propertyId, arrayIndex), pos3)
  }

  /** The priority is cut to one byte. */
  function DecodePriority(body: Bytes, pos: nat): Parsed<Option<U8>> {
    var (p, pos1) :- DecodeOption(body, pos, 4);
    Ok(match p case None => None case Some(n) => Some(Truncate8(n)), pos1)
  }

  function DecodeWriteProperty(body: Bytes): Parsed<WritePropertyRequest> {
    var (target, pos1) :- DecodeReadProperty(body);
    if !IsOpening(body, pos1, 3) then Err(DecodeError)
    else
      var (value, pos2) :- DecodeApplicationValue(body, pos1 + 1);
      if !IsClosing(body, pos2, 3) then Err(DecodeError)
      else
        var (priority, pos3) :- DecodePriority(body, pos2 + 1);
        Ok(WritePropertyRequest(target.objectId, target.propertyId, target.arrayIndex, value, priority), pos3)
  }

  function DecodeOptionBool(buf: Bytes, pos: nat, number: Byte): Parsed<Option<bool>> {
    if HasContextTag(buf, pos, number) then
      var (v, pos1) :- DecodeCtxBool(buf, pos, number);
      Ok(Some(v), pos1)
    else Ok(None, pos)
  }

  function DecodeSubscribeCov(body: Bytes): Parsed<SubscribeCovRequest> {
    var (processId, pos1) :- DecodeCtxU32(body, 0, 0);
    var (monitoredObject, pos2) :- DecodeCtxObjectId(body, pos1, 1);
    var (issueConfirmed, pos3) :- DecodeOptionBool(body, pos2, 2);
    var (lifetime, pos4) :- DecodeOption(body, pos3, 3);
    Ok(SubscribeCovRequest(processId, monitoredObject, issueConfirmed, lifetime), pos4)
  }

  function DecodeReference(body: Bytes, pos: nat): Parsed<PropertyReference> {
    var (propertyId, pos1) :- DecodeCtxPropertyId(body, pos, 0);
    var (arrayIndex, pos2) :- DecodeOption(body, pos1, 1);
    Ok(PropertyReference(propertyId, arrayIndex), pos2)
  }

  /** References up to the closing tag, which is not consumed. */
  function DecodeReferences(body: Bytes, pos: nat): Parsed<seq<PropertyReference>>
    decreases |body| - pos
  {
    if IsClosing(body, pos, 1) then Ok([], pos)
    else if |body| <= pos then Err(DecodeError)
    else
      ReferenceAdvances(body, pos);
      var (reference, pos1) :- DecodeReference(body, pos);
      var (rest, pos2) :- DecodeReferences(body, pos1);
      Ok([reference] + rest, pos2)
  }

  function DecodeSpec(body: Bytes, pos: nat): Parsed<ReadSpec> {
    var (objectId, pos1) :- DecodeCtxObjectId(body, pos, 0);
    if !IsOpening(body, pos1, 1) then Err(DecodeError)
    else
      var (properties, pos2) :- DecodeReferences(body, pos1 + 1);
      Ok(ReadSpec(objectId, properties), pos2 + 1)
  }

  function DecodeRpm(body: Bytes, pos: nat): Parsed<seq<ReadSpec>>
    decreases |body| - pos
  {
    if |body| <= pos then Ok([], pos)
    else
      SpecAdvances(body, pos);
      var (spec, pos1) :- DecodeSpec(body, pos);
      var (rest, pos2) :- DecodeRpm(body, pos1);
      Ok([spec] + rest, pos2)
  }

  lemma ReferenceAdvances(body: Bytes, pos: nat)
    ensures var r := DecodeReference(body, pos); r.Ok? ==> pos < r.pos <= |body|
  {
    hide DecodeCtxU32, DecodeOption, PropertyFrom;
    CtxU32Advances(body, pos, 0);
    var r := DecodeCtxPropertyId(body, pos, 0);
    if r.Ok? {
      OptionAdvances(body, r.pos, 1);
    }
  }

  lemma ReferencesAdvance(body: Bytes, pos: nat)
    requires pos <= |body|
    ensures var r := DecodeReferences(body, pos); r.Ok? ==> pos <= r.pos < |body|
    decreases |body| - pos
  {
    hide IsClosing, DecodeReference;
    if IsClosing(body, pos, 1) {
      TagInside(body, pos, 1);
    } else {
      ReferenceAdvances(body, pos);
      var r := DecodeReference(body, pos);
      if r.Ok? {
        ReferencesAdvance(body, r.pos);
      }
    }
  }

  lemma SpecAdvances(body: Bytes, pos: nat)
    ensures var r := DecodeSpec(body, pos); r.Ok? ==> pos < r.pos <= |body|
  {
    hide DecodeCtxObjectId, IsOpening, DecodeReferences;
    CtxObjectIdAdvances(body, pos, 0);
    var r := DecodeCtxObjectId(body, pos, 0);
    if r.Ok? && IsOpening(body, r.pos, 1) {
      TagInside(body, r.pos, 1);
      ReferencesAdvance(body, r.pos + 1);
    }
  }

  // ---- The nested loops of the ReadPropertyMultiple decoder --------------------------------

  method DecodePropertyList(body: Bytes, start: nat) returns (r: Parsed<seq<PropertyReference>>)
    requires start <= |body|
    ensures r == DecodeReferences(body, start)
  {
    hide IsClosing, DecodeReference;
    var pos, props := start, [];
    PrependTwice([], [], DecodeReferences(body, start));
    while !IsClosing(body, pos, 1)
      invariant start <= pos <= |body|
      invariant DecodeReferences(body, start) == Prepend(props, DecodeReferences(body, pos))
      decreases |body| - pos
    {
      if pos >= |body| {
        return Err(DecodeError);
      }
      ReferenceAdvances(body, pos);
      var reference := DecodeReference(body, pos);
      if reference.IsFailure() {
        return reference.PropagateFailure();
      }
      PrependTwice(props, [reference.value], DecodeReferences(body, reference.pos));
      props := props + [reference.value];
      pos := reference.pos;
    }
    assert props + [] == props;
    r := Ok(props, pos);
  }

  method DecodeReadPropertyMultiple(body: Bytes) returns (r: Parsed<seq<ReadSpec>>)
    ensures r == DecodeRpm(body, 0)
    ensures r.Ok? ==> r.pos == |body|
  {
    hide IsOpening, DecodeCtxObjectId, DecodeReferences;
    var pos, specs := 0, [];
    PrependTwice([], [], DecodeRpm(body, 0));
    while pos < |body|
      invariant 0 <= pos <= |body|
      invariant DecodeRpm(body, 0) == Prepend(specs, DecodeRpm(body, pos))
    {
      SpecAdvances(body, pos);
      var objectId := DecodeCtxObjectId(body, pos, 0);
      if objectId.IsFailure() {
        return objectId.PropagateFailure();
      }
      CtxObjectIdAdvances(body, pos, 0);
      if !IsOpening(body, objectId.pos, 1) {
        return Err(DecodeError);
      }
      TagInside(body, objectId.pos, 1);
      var props := DecodePropertyList(body, objectId.pos + 1);
      if props.IsFailure() {
        return props.PropagateFailure();
      }
      var spec := ReadSpec(objectId.value, props.value);
      PrependTwice(specs, [spec], DecodeRpm(body, props.pos + 1));
      specs := specs + [spec];
      pos := props.pos + 1;
    }
    assert specs + [] == specs;
    r := Ok(specs, pos);
  }

  /** The request decoder uses the whole body or fails. */
  lemma RpmConsumesBody(body: Bytes, pos: nat)
    requires pos <= |body|
    ensures var r := DecodeRpm(body, pos); r.Ok? ==> r.pos == |body|
    decreases |body| - pos
  {
    hide DecodeSpec;
    if pos < |body| {
      SpecAdvances(body, pos);
      var r := DecodeSpec(body, pos);
      if r.Ok? {
        RpmConsumesBody(body, r.pos);
      }
    }
  }
}

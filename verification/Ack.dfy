/** The acknowledgements of ReadProperty and ReadPropertyMultiple (sections 15.5 and 15.7 of
    ASHRAE 135-2020): the nested encoders. */
module Ack {
  import opened Machine
  import opened BacnetTypes
  import opened PropertyIds
  import opened Buffers
  import opened Tags
  import opened Application
  import opened Readers

  datatype Outcome = Success(value: PropertyValue) | Failure(error: BacnetError)

  datatype PropertyResult = PropertyResult(propertyId: PropertyIdentifier, arrayIndex: Option<U32>, value: Outcome)

  datatype ObjectPropertyResult = ObjectPropertyResult(objectId: ObjectId, propertyResults: seq<PropertyResult>)

  datatype ReadPropertyAck =
    ReadPropertyAck(objectId: ObjectId, propertyId: PropertyIdentifier, arrayIndex: Option<U32>, value: PropertyValue)

  function ErrorClassNumber(c: ErrorClass): U32 {
    match c
    case DeviceClass => 0
    case ObjectClass => 1
    case PropertyClass => 2
    case Resources => 3
    case Security => 4
    case Services => 5
    case Vt => 6
    case Communication => 7
  }

  function ErrorCodeNumber(c: ErrorCode): U32 {
    match c
    case UnknownObjectCode => 31
    case UnknownPropertyCode => 32
    case WriteAccessDeniedCode => 40
    case ValueOutOfRangeCode => 37
    case InvalidDataTypeCode => 9
    case ServiceRequestDenied => 29
    case NotConfigured => 140
    case Other(v) => v
  }

  /** The error class and code sent for an error. */
  function ErrorClassCode(e: BacnetError): (U32, U32) {
    match e
    case UnknownObject => (1, 31)
    case UnknownProperty => (2, 32)
    case WriteAccessDenied => (2, 40)
    case ValueOutOfRange => (2, 37)
    case InvalidDataType => (2, 9)
    case ServiceError(errorClass, errorCode) => (ErrorClassNumber(errorClass), ErrorCodeNumber(errorCode))
    case _ => (5, 0)
  }

  // ---- Encoded forms -----------------------------------------------------------------

  function OutcomeBytes(o: Outcome): Bytes {
    match o
    case Success(v) => OpeningTag(4) + Encoding(v) + ClosingTag(4)
    case Failure(e) =>
      OpeningTag(5) + CtxU32Bytes(0, ErrorClassCode(e).0) + CtxU32Bytes(1, ErrorClassCode(e).1) + ClosingTag(5)
  }

  function PropertyBytes(p: PropertyResult): Bytes {
    CtxU32Bytes(2, PropertyCode(p.propertyId)) + OptionBytes(3, p.arrayIndex) + OutcomeBytes(p.value)
  }

  function PropertiesBytes(ps: seq<PropertyResult>): Bytes {
    if ps == [] then [] else PropertiesBytes(ps[..|ps| - 1]) + PropertyBytes(ps[|ps| - 1])
  }

  function ObjectBytes(o: ObjectPropertyResult): Bytes {
    CtxObjectIdBytes(0, o.objectId) + OpeningTag(1) + PropertiesBytes(o.propertyResults) + ClosingTag(1)
  }

  function RpmAckBytes(results: seq<ObjectPropertyResult>): Bytes {
    if results == [] then [] else RpmAckBytes(results[..|results| - 1]) + ObjectBytes(results[|results| - 1])
  }

  function ReadPropertyAckBytes(ack: ReadPropertyAck): Bytes {
    CtxObjectIdBytes(0, ack.objectId) + CtxU32Bytes(1, PropertyCode(ack.propertyId)) + OptionBytes(2, ack.arrayIndex)
    + OpeningTag(3) + Encoding(ack.value) + ClosingTag(3)
  }

  // ---- Encoders --------------------------------------------------------------------------

  method EncodeOption(buf: BytesMut, number: Byte, v: Option<U32>)
    modifies buf
    ensures buf.data == old(buf.data) + OptionBytes(number, v)
  {
    if v.Some? {
      EncodeCtxU32(buf, number, v.value);
    }
  }

  method EncodeReadPropertyAck(buf: BytesMut, ack: ReadPropertyAck)
    modifies buf
    ensures buf.data == old(buf.data) + ReadPropertyAckBytes(ack)
  {
    hide CtxObjectIdBytes, CtxU32Bytes, OptionBytes, OpeningTag, ClosingTag, Encoding, PropertyCode;
    EncodeCtxObjectId(buf, 0, ack.objectId);
    EncodeCtxU32(buf, 1, PropertyCode(ack.propertyId));
    EncodeOption(buf, 2, ack.arrayIndex);
    EncodeOpeningTag(buf, 3);
    EncodePropertyValue(buf, ack.value);
    EncodeClosingTag(buf, 3);
    assert buf.data == old(buf.data) + ReadPropertyAckBytes(ack);
  }

  method EncodeOutcome(buf: BytesMut, o: Outcome)
    modifies buf
    ensures buf.data == old(buf.data) + OutcomeBytes(o)
  {
    hide CtxU32Bytes, OpeningTag, ClosingTag, Encoding, ErrorClassCode;
    match o
    case Success(v) =>
      EncodeOpeningTag(buf, 4);
      EncodePropertyValue(buf, v);
      EncodeClosingTag(buf, 4);
      assert buf.data == old(buf.data) + OutcomeBytes(o);
    case Failure(e) =>
      EncodeOpeningTag(buf, 5);
      var (errorClass, errorCode) := ErrorClassCode(e);
      EncodeCtxU32(buf, 0, errorClass);
      EncodeCtxU32(buf, 1, errorCode);
      EncodeClosingTag(buf, 5);
      assert buf.data == old(buf.data) + OutcomeBytes(o);
  }

  method EncodeProperties(buf: BytesMut, ps: seq<PropertyResult>)
    modifies buf
    ensures buf.data == old(buf.data) + PropertiesBytes(ps)
  {
    hide CtxU32Bytes, OptionBytes, OutcomeBytes, PropertyCode;
    for i := 0 to |ps|
      invariant buf.data == old(buf.data) + PropertiesBytes(ps[..i])
    {
      ghost var before := buf.data;
      EncodeCtxU32(buf, 2, PropertyCode(ps[i].propertyId));
      EncodeOption(buf, 3, ps[i].arrayIndex);
      EncodeOutcome(buf, ps[i].value);
      assert buf.data == before + PropertyBytes(ps[i]);
      assert ps[..i + 1][..i] == ps[..i];
      assert old(buf.data) + PropertiesBytes(ps[..i]) + PropertyBytes(ps[i])
        == old(buf.data) + (PropertiesBytes(ps[..i]) + PropertyBytes(ps[i]));
    }
    assert ps[..|ps|] == ps;
  }

  method EncodeRpmAck(buf: BytesMut, results: seq<ObjectPropertyResult>)
    modifies buf
    ensures buf.data == old(buf.data) + RpmAckBytes(results)
  {
    hide CtxObjectIdBytes, OpeningTag, ClosingTag, PropertiesBytes;
    for i := 0 to |results|
      invariant buf.data == old(buf.data) + RpmAckBytes(results[..i])
    {
      ghost var before := buf.data;
      EncodeCtxObjectId(buf, 0, results[i].objectId);
      EncodeOpeningTag(buf, 1);
      EncodeProperties(buf, results[i].propertyResults);
      EncodeClosingTag(buf, 1);
      assert buf.data == before + ObjectBytes(results[i]);
      assert results[..i + 1][..i] == results[..i];
      assert old(buf.data) + RpmAckBytes(results[..i]) + ObjectBytes(results[i])
        == old(buf.data) + (RpmAckBytes(results[..i]) + ObjectBytes(results[i]));
    }
    assert results[..|results|] == results;
  }
}

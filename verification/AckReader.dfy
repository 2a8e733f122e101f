/** Acknowledgements are uniquely readable: a reader made of the program's own tag predicates and
    decoders recovers everything they carry and stops exactly at the end. */
module AckReader {
  import opened Machine
  import opened BacnetTypes
  import opened PropertyIds
  import opened Buffers
  import opened Tags
  import opened Application
  import opened ValueRoundTrip
  import opened Readers
  import opened Ack

  // ---- What an acknowledgement says ---------------------------------------------------

  datatype ReadOutcome = Values(leaves: seq<PropertyValue>) | ErrorPair(errorClass: U32, errorCode: U32)

  datatype ReadProperty = ReadProperty(propertyId: PropertyIdentifier, arrayIndex: Option<U32>, outcome: ReadOutcome)

  datatype ReadObject = ReadObject(objectId: ObjectId, properties: seq<ReadProperty>)

  function OutcomeView(o: Outcome): ReadOutcome {
    match o
    case Success(v) => Values(Leaves(v))
    case Failure(e) => ErrorPair(ErrorClassCode(e).0, ErrorClassCode(e).1)
  }

  /** A property identifier is named by its number. */
  function PropertyView(p: PropertyResult): ReadProperty {
    ReadProperty(PropertyFrom(PropertyCode(p.propertyId)), p.arrayIndex, OutcomeView(p.value))
  }

  function PropertiesView(ps: seq<PropertyResult>): seq<ReadProperty> {
    if ps == [] then [] else PropertiesView(ps[..|ps| - 1]) + [PropertyView(ps[|ps| - 1])]
  }

  function ObjectView(o: ObjectPropertyResult): ReadObject {
    ReadObject(o.objectId, PropertiesView(o.propertyResults))
  }

  function View(results: seq<ObjectPropertyResult>): seq<ReadObject> {
    if results == [] then [] else View(results[..|results| - 1]) + [ObjectView(results[|results| - 1])]
  }

  predicate OutcomeInRange(o: Outcome) {
    o.Success? ==> AllReadable(o.value)
  }

  predicate PropertiesInRange(ps: seq<PropertyResult>) {
    forall i :: 0 <= i < |ps| ==> OutcomeInRange(ps[i].value)
  }

  /** Listed object types, 22-bit instances, and values whose leaves can be read back. */
  predicate InRange(results: seq<ObjectPropertyResult>) {
    forall i :: 0 <= i < |results| ==>
      PlainObjectId(results[i].objectId) && PropertiesInRange(results[i].propertyResults)
  }

  // ---- The reader --------------------------------------------------------------------------

  function ReadOutcomeAt(buf: Bytes, pos: nat): Parsed<ReadOutcome> {
    if IsOpening(buf, pos, 4) then
      var (leaves, end) :- ReadValues(buf, pos + 1, 4);
      Ok(Values(leaves), end + 1)
    else if IsOpening(buf, pos, 5) then
      var (errorClass, pos1) :- DecodeCtxU32(buf, pos + 1, 0);
      var (errorCode, pos2) :- DecodeCtxU32(buf, pos1, 1);
      if IsClosing(buf, pos2, 5) then Ok(ErrorPair(errorClass, errorCode), pos2 + 1) else Err(DecodeError)
    else Err(DecodeError)
  }

  function ReadPropertyAt(buf: Bytes, pos: nat): Parsed<ReadProperty> {
    var (propertyId, pos1) :- DecodeCtxPropertyId(buf, pos, 2);
    var (arrayIndex, pos2) :- DecodeOption(buf, pos1, 3);
    var (outcome, pos3) :- ReadOutcomeAt(buf, pos2);
    Ok(ReadProperty(propertyId, arrayIndex, outcome), pos3)
  }

  function ReadProperties(buf: Bytes, pos: nat): Parsed<seq<ReadProperty>>
    decreases |buf| - pos
  {
    if IsClosing(buf, pos, 1) then Ok([], pos)
    else
      PropertyAdvances(buf, pos);
      var (property, pos1) :- ReadPropertyAt(buf, pos);
      var (rest, pos2) :- ReadProperties(buf, pos1);
      Ok([property] + rest, pos2)
  }

  function ReadObjectAt(buf: Bytes, pos: nat): Parsed<ReadObject> {
    var (objectId, pos1) :- DecodeCtxObjectId(buf, pos, 0);
    if !IsOpening(buf, pos1, 1) then Err(DecodeError)
    else
      var (properties, pos2) :- ReadProperties(buf, pos1 + 1);
      Ok(ReadObject(objectId, properties), pos2 + 1)
  }

  function ReadObjects(buf: Bytes, pos: nat): Parsed<seq<ReadObject>>
    decreases |buf| - pos
  {
    if pos >= |buf| then Ok([], pos)
    else
      ObjectAdvances(buf, pos);
      var (obj, pos1) :- ReadObjectAt(buf, pos);
      var (rest, pos2) :- ReadObjects(buf, pos1);
      Ok([obj] + rest, pos2)
  }

  lemma PropertyAdvances(buf: Bytes, pos: nat)
    ensures var r := ReadPropertyAt(buf, pos); r.Ok? ==> pos < r.pos <= |buf|
  {
    hide DecodeCtxU32, DecodeOption, ReadValues, IsOpening, IsClosing, PropertyFrom;
    CtxU32Advances(buf, pos, 2);
    var id := DecodeCtxPropertyId(buf, pos, 2);
    if id.Ok? {
      OptionAdvances(buf, id.pos, 3);
      var index := DecodeOption(buf, id.pos, 3);
      if index.Ok? {
        OutcomeAdvances(buf, index.pos);
      }
    }
  }

  lemma OutcomeAdvances(buf: Bytes, pos: nat)
    ensures var r := ReadOutcomeAt(buf, pos); r.Ok? ==> pos < r.pos <= |buf|
  {
    hide DecodeCtxU32, ReadValues, IsOpening, IsClosing;
    if IsOpening(buf, pos, 4) {
      TagInside(buf, pos, 4);
      ReadValuesAdvances(buf, pos + 1, 4);
      var r := ReadValues(buf, pos + 1, 4);
      if r.Ok? { TagInside(buf, r.pos, 4); }
    } else if IsOpening(buf, pos, 5) {
      CtxU32Advances(buf, pos + 1, 0);
      var r := DecodeCtxU32(buf, pos + 1, 0);
      if r.Ok? {
        CtxU32Advances(buf, r.pos, 1);
        var s := DecodeCtxU32(buf, r.pos, 1);
        if s.Ok? && IsClosing(buf, s.pos, 5) { TagInside(buf, s.pos, 5); }
      }
    }
  }

  lemma PropertiesAdvance(buf: Bytes, pos: nat)
    requires pos <= |buf|
    ensures var r := ReadProperties(buf, pos); r.Ok? ==> pos <= r.pos < |buf|
    decreases |buf| - pos
  {
    hide IsClosing, ReadPropertyAt;
    if IsClosing(buf, pos, 1) {
      TagInside(buf, pos, 1);
    } else {
      PropertyAdvances(buf, pos);
      var r := ReadPropertyAt(buf, pos);
      if r.Ok? {
        PropertiesAdvance(buf, r.pos);
      }
    }
  }

  lemma ObjectAdvances(buf: Bytes, pos: nat)
    ensures var r := ReadObjectAt(buf, pos); r.Ok? ==> pos < r.pos <= |buf|
  {
    hide DecodeCtxObjectId, IsOpening, ReadProperties;
    CtxObjectIdAdvances(buf, pos, 0);
    var r := DecodeCtxObjectId(buf, pos, 0);
    if r.Ok? && IsOpening(buf, r.pos, 1) {
      TagInside(buf, r.pos, 1);
      PropertiesAdvance(buf, r.pos + 1);
    }
  }

  // ---- Reading back ---------------------------------------------------------------------------

  lemma OutcomeBack(buf: Bytes, pos: nat, o: Outcome)
    requires At(buf, pos, OutcomeBytes(o)) && OutcomeInRange(o)
    ensures ReadOutcomeAt(buf, pos) == Ok(OutcomeView(o), pos + |OutcomeBytes(o)|)
    ensures forall n: Byte :: !HasContextTag(buf, pos, n) && !IsClosing(buf, pos, n)
  {
    hide ContextTag, CtxU32Bytes, Encoding, DecodeCtxU32, ReadValues, IsOpening, IsClosing, HasContextTag, At,
      AllReadable, Leaves, ErrorClassCode;
    match o
    case Success(v) =>
      var value := Encoding(v);
      AtConcat(buf, pos, OpeningTag(4) + value, ClosingTag(4));
      AtConcat(buf, pos, OpeningTag(4), value);
      TagByte(buf, pos, 4, 6);
      TagByte(buf, pos + 1 + |value|, 4, 7);
      ReadValuesBack(buf, pos + 1, v, 4);
    case Failure(e) =>
      var a, b := CtxU32Bytes(0, ErrorClassCode(e).0), CtxU32Bytes(1, ErrorClassCode(e).1);
      AtConcat(buf, pos, OpeningTag(5) + a + b, ClosingTag(5));
      AtConcat(buf, pos, OpeningTag(5) + a, b);
      AtConcat(buf, pos, OpeningTag(5), a);
      TagByte(buf, pos, 5, 6);
      TagByte(buf, pos + 1 + |a| + |b|, 5, 7);
      CtxU32RoundTrip(buf, pos + 1, 0, ErrorClassCode(e).0);
      CtxU32RoundTrip(buf, pos + 1 + |a|, 1, ErrorClassCode(e).1);
  }

  lemma PropertyBack(buf: Bytes, pos: nat, p: PropertyResult)
    requires At(buf, pos, PropertyBytes(p)) && OutcomeInRange(p.value)
    ensures ReadPropertyAt(buf, pos) == Ok(PropertyView(p), pos + |PropertyBytes(p)|)
    ensures !IsClosing(buf, pos, 1)
  {
    hide CtxU32Bytes, OutcomeBytes, DecodeCtxPropertyId, DecodeOption, ReadOutcomeAt, IsClosing, HasContextTag,
      OptionBytes, At, OutcomeInRange, OutcomeView, PropertyCode, PropertyFrom;
    var id, index := CtxU32Bytes(2, PropertyCode(p.propertyId)), OptionBytes(3, p.arrayIndex);
    AtConcat(buf, pos, id + index, OutcomeBytes(p.value));
    AtConcat(buf, pos, id, index);
    CtxPropertyIdRoundTrip(buf, pos, 2, p.propertyId);
    OutcomeBack(buf, pos + |id| + |index|, p.value);
    NoOptionBytes(3, p.arrayIndex);
    OptionRoundTrip(buf, pos + |id|, 3, p.arrayIndex);
  }

  lemma NoOptionBytes(number: Byte, v: Option<U32>)
    ensures v == None ==> OptionBytes(number, v) == []
  {
  }

  /** Reading starts with the properties that stand there. */
  lemma {:induction false} PropertiesBack(buf: Bytes, pos: nat, ps: seq<PropertyResult>)
    requires At(buf, pos, PropertiesBytes(ps)) && PropertiesInRange(ps)
    ensures ReadProperties(buf, pos) == Prepend(PropertiesView(ps), ReadProperties(buf, pos + |PropertiesBytes(ps)|))
    decreases ps
  {
    hide ReadProperties, Prepend, OutcomeInRange, At, PropertyBytes, PropertyView;
    if ps == [] {
      PrependTwice([], [], ReadProperties(buf, pos));
    } else {
      var n := |ps| - 1;
      var first, last := PropertiesBytes(ps[..n]), PropertyBytes(ps[n]);
      AtConcat(buf, pos, first, last);
      PropertiesBack(buf, pos, ps[..n]);
      NextProperty(buf, pos + |first|, ps[n]);
      PrependTwice(PropertiesView(ps[..n]), [PropertyView(ps[n])], ReadProperties(buf, pos + |first| + |last|));
    }
  }

  lemma NextProperty(buf: Bytes, pos: nat, p: PropertyResult)
    requires At(buf, pos, PropertyBytes(p)) && OutcomeInRange(p.value)
    ensures ReadProperties(buf, pos) == Prepend([PropertyView(p)], ReadProperties(buf, pos + |PropertyBytes(p)|))
  {
    hide ReadPropertyAt, IsClosing, OutcomeInRange, At, PropertyBytes, PropertyView;
    PropertyBack(buf, pos, p);
  }

  lemma AllProperties(buf: Bytes, pos: nat, ps: seq<PropertyResult>)
    requires At(buf, pos, PropertiesBytes(ps)) && PropertiesInRange(ps)
    requires IsClosing(buf, pos + |PropertiesBytes(ps)|, 1)
    ensures ReadProperties(buf, pos) == Ok(PropertiesView(ps), pos + |PropertiesBytes(ps)|)
  {
    hide IsClosing, At, PropertiesInRange, PropertiesView, PropertiesBytes, ReadProperties;
    PropertiesBack(buf, pos, ps);
    NoMoreProperties(buf, pos + |PropertiesBytes(ps)|);
    assert PropertiesView(ps) + [] == PropertiesView(ps);
  }

  lemma NoMoreProperties(buf: Bytes, pos: nat)
    requires IsClosing(buf, pos, 1)
    ensures ReadProperties(buf, pos) == Ok([], pos)
  {
    hide IsClosing, ReadPropertyAt;
  }

  lemma ObjectBack(buf: Bytes, pos: nat, o: ObjectPropertyResult)
    requires At(buf, pos, ObjectBytes(o)) && PlainObjectId(o.objectId) && PropertiesInRange(o.propertyResults)
    ensures ReadObjectAt(buf, pos) == Ok(ObjectView(o), pos + |ObjectBytes(o)|)
    ensures |ObjectBytes(o)| > 0
  {
    hide ContextTag, CtxObjectIdBytes, PropertiesBytes, DecodeCtxObjectId, IsOpening, IsClosing, At, PropertiesInRange,
      PlainObjectId, UnpackObjectId, PackObjectId, PropertiesView, ReadProperties;
    var id, ps := CtxObjectIdBytes(0, o.objectId), PropertiesBytes(o.propertyResults);
    AtConcat(buf, pos, id + OpeningTag(1) + ps, ClosingTag(1));
    AtConcat(buf, pos, id + OpeningTag(1), ps);
    AtConcat(buf, pos, id, OpeningTag(1));
    CtxObjectIdRoundTrip(buf, pos, 0, o.objectId);
    UnpackPacked(o.objectId);
    TagByte(buf, pos + 5, 1, 6);
    TagByte(buf, pos + 6 + |ps|, 1, 7);
    AllProperties(buf, pos + 6, o.propertyResults);
  }

  lemma NextObject(buf: Bytes, pos: nat, o: ObjectPropertyResult)
    requires At(buf, pos, ObjectBytes(o)) && PlainObjectId(o.objectId) && PropertiesInRange(o.propertyResults)
    ensures ReadObjects(buf, pos) == Prepend([ObjectView(o)], ReadObjects(buf, pos + |ObjectBytes(o)|))
  {
    hide ReadObjectAt, ObjectBytes, ObjectView, PlainObjectId, PropertiesInRange;
    ObjectBack(buf, pos, o);
  }

  lemma {:induction false} ObjectsBack(buf: Bytes, pos: nat, results: seq<ObjectPropertyResult>)
    requires At(buf, pos, RpmAckBytes(results)) && InRange(results)
    ensures ReadObjects(buf, pos) == Prepend(View(results), ReadObjects(buf, pos + |RpmAckBytes(results)|))
    decreases results
  {
    hide ReadObjects, Prepend, At, ObjectBytes, ObjectView, PlainObjectId, PropertiesInRange;
    if results == [] {
      PrependTwice([], [], ReadObjects(buf, pos));
    } else {
      var n := |results| - 1;
      var first, last := RpmAckBytes(results[..n]), ObjectBytes(results[n]);
      AtConcat(buf, pos, first, last);
      ObjectsBack(buf, pos, results[..n]);
      NextObject(buf, pos + |first|, results[n]);
      PrependTwice(View(results[..n]), [ObjectView(results[n])], ReadObjects(buf, pos + |first| + |last|));
    }
  }

  /** The main result: reading a ReadPropertyMultiple acknowledgement gives every object, property, index,
      list of values and error pair, and ends exactly at the end of the buffer. */
  lemma RpmAckReadBack(results: seq<ObjectPropertyResult>)
    requires InRange(results)
    ensures ReadObjects(RpmAckBytes(results), 0) == Ok(View(results), |RpmAckBytes(results)|)
  {
    hide RpmAckBytes, View, InRange, ReadObjectAt;
    var buf := RpmAckBytes(results);
    assert buf[0..|buf|] == buf;
    ObjectsBack(buf, 0, results);
    assert ReadObjects(buf, |buf|) == Ok([], |buf|);
    assert View(results) + [] == View(results);
  }

  /** Hence acknowledgements with the same bytes say the same. */
  lemma RpmAckUniquelyReadable(a: seq<ObjectPropertyResult>, b: seq<ObjectPropertyResult>)
    requires InRange(a) && InRange(b) && RpmAckBytes(a) == RpmAckBytes(b)
    ensures View(a) == View(b)
  {
    hide RpmAckBytes, View, InRange, ReadObjects;
    RpmAckReadBack(a);
    RpmAckReadBack(b);
  }

  // ---- The ReadProperty acknowledgement -----------------------------------------------------------

  datatype ReadAck = ReadAck(
    objectId: ObjectId,
    propertyId: PropertyIdentifier,
    arrayIndex: Option<U32>,
    leaves: seq<PropertyValue>)

  function ReadReadPropertyAck(buf: Bytes): Parsed<ReadAck> {
    var (objectId, pos1) :- DecodeCtxObjectId(buf, 0, 0);
    var (propertyId, pos2) :- DecodeCtxPropertyId(buf, pos1, 1);
    var (arrayIndex, pos3) :- DecodeOption(buf, pos2, 2);
    if !IsOpening(buf, pos3, 3) then Err(DecodeError)
    else
      var (leaves, pos4) :- ReadValues(buf, pos3 + 1, 3);
      Ok(ReadAck(objectId, propertyId, arrayIndex, leaves), pos4 + 1)
  }

  lemma ReadPropertyAckReadBack(ack: ReadPropertyAck)
    requires PlainObjectId(ack.objectId) && AllReadable(ack.value)
    ensures ReadReadPropertyAck(ReadPropertyAckBytes(ack)) == Ok(
      ReadAck(ack.objectId, PropertyFrom(PropertyCode(ack.propertyId)), ack.arrayIndex, Leaves(ack.value)),
      |ReadPropertyAckBytes(ack)|)
  {
    hide ContextTag, CtxObjectIdBytes, CtxU32Bytes, OptionBytes, Encoding, DecodeCtxObjectId, DecodeCtxPropertyId,
      DecodeOption, ReadValues, IsOpening, IsClosing, HasContextTag, At, AllReadable, Leaves, PlainObjectId,
      UnpackObjectId, PackObjectId, PropertyCode, PropertyFrom;
    var buf := ReadPropertyAckBytes(ack);
    var a, b, c, d := CtxObjectIdBytes(0, ack.objectId), CtxU32Bytes(1, PropertyCode(ack.propertyId)),
      OptionBytes(2, ack.arrayIndex), Encoding(ack.value);
    AtWhole(buf);
    AtConcat(buf, 0, a + b + c + OpeningTag(3) + d, ClosingTag(3));
    AtConcat(buf, 0, a + b + c + OpeningTag(3), d);
    AtConcat(buf, 0, a + b + c, OpeningTag(3));
    AtConcat(buf, 0, a + b, c);
    AtConcat(buf, 0, a, b);
    CtxObjectIdRoundTrip(buf, 0, 0, ack.objectId);
    UnpackPacked(ack.objectId);
    CtxPropertyIdRoundTrip(buf, 5, 1, ack.propertyId);
    TagByte(buf, 5 + |b| + |c|, 3, 6);
    NoOptionBytes(2, ack.arrayIndex);
    OptionRoundTrip(buf, 5 + |b|, 2, ack.arrayIndex);
    TagByte(buf, 6 + |b| + |c| + |d|, 3, 7);
    ReadValuesBack(buf, 6 + |b| + |c|, ack.value, 3);
  }

  lemma AtWhole(buf: Bytes)
    ensures At(buf, 0, buf)
  {
  }

  // ---- Errors -----------------------------------------------------------------------------------------

  /** An error with a name of its own, spelled out as class and code. */
  function SpelledOut(e: BacnetError): BacnetError {
    match e
    case UnknownObject => ServiceError(ObjectClass, UnknownObjectCode)
    case UnknownProperty => ServiceError(PropertyClass, UnknownPropertyCode)
    case WriteAccessDenied => ServiceError(PropertyClass, WriteAccessDeniedCode)
    case ValueOutOfRange => ServiceError(PropertyClass, ValueOutOfRangeCode)
    case InvalidDataType => ServiceError(PropertyClass, InvalidDataTypeCode)
    case ServiceError(_, _) => e
    case _ => ServiceError(Services, Other(0))
  }

  predicate NamedCode(c: ErrorCode) {
    !c.Other? || (c.number != 31 && c.number != 32 && c.number != 40 && c.number != 37 && c.number != 9
      && c.number != 29 && c.number != 140)
  }

  /** Errors are sent as the same pair exactly when they spell out the same, unless a bare number repeats the
      number of a named code. */
  lemma ErrorPairsTellApart(a: BacnetError, b: BacnetError)
    requires a.ServiceError? ==> NamedCode(a.errorCode)
    requires b.ServiceError? ==> NamedCode(b.errorCode)
    ensures ErrorClassCode(a) == ErrorClassCode(b) <==> SpelledOut(a) == SpelledOut(b)
  {
    SpelledOutAgrees(a);
    SpelledOutAgrees(b);
    hide ErrorClassCode;
    var x, y := SpelledOut(a), SpelledOut(b);
    ClassNumbersDiffer(x.errorClass, y.errorClass);
    CodeNumbersDiffer(x.errorCode, y.errorCode);
  }

  lemma SpelledOutAgrees(e: BacnetError)
    ensures var s := SpelledOut(e);
      s.ServiceError? && ErrorClassCode(e) == (ErrorClassNumber(s.errorClass), ErrorCodeNumber(s.errorCode))
  {
  }

  lemma ClassNumbersDiffer(a: ErrorClass, b: ErrorClass)
    ensures ErrorClassNumber(a) == ErrorClassNumber(b) <==> a == b
  {
  }

  lemma CodeNumbersDiffer(a: ErrorCode, b: ErrorCode)
    requires NamedCode(a) && NamedCode(b)
    ensures ErrorCodeNumber(a) == ErrorCodeNumber(b) <==> a == b
  {
  }

  /** The classes and codes by their numbers (section 18 of ASHRAE 135-2020, as far as the program names them). */
  lemma ErrorNumbers()
    ensures forall c: ErrorClass ::
      [DeviceClass, ObjectClass, PropertyClass, Resources, Security, Services, Vt, Communication][ErrorClassNumber(c)]
        == c
    ensures ErrorCodeNumber(InvalidDataTypeCode) == 9 && ErrorCodeNumber(ServiceRequestDenied) == 29
    ensures ErrorCodeNumber(UnknownObjectCode) == 31 && ErrorCodeNumber(UnknownPropertyCode) == 32
    ensures ErrorCodeNumber(ValueOutOfRangeCode) == 37 && ErrorCodeNumber(WriteAccessDeniedCode) == 40
    ensures ErrorCodeNumber(NotConfigured) == 140 && forall n: U32 :: ErrorCodeNumber(Other(n)) == n
  {
  }
}

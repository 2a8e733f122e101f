/** The request grammar written with the program's own encoders, and the decoders as its inverse. */
module ConfirmedRoundTrip {
  import opened Machine
  import opened BigEndian
  import opened BitStrings
  import opened BacnetTypes
  import opened PropertyIds
  import opened Buffers
  import opened Tags
  import opened Asn1
  import opened Application
  import opened ValueRoundTrip
  import opened Readers
  import opened AckReader
  import opened Confirmed

  // ---- The request grammar --------------------------------------------------------------------

  function TargetBytes(objectId: ObjectId, propertyId: PropertyIdentifier, arrayIndex: Option<U32>): Bytes {
    CtxObjectIdBytes(0, objectId) + CtxU32Bytes(1, PropertyCode(propertyId)) + OptionBytes(2, arrayIndex)
  }

  function PriorityNumber(priority: Option<U8>): Option<U32> {
    match priority
    case None => None
    case Some(p) => Some(p)
  }

  function WritePropertyBytes(r: WritePropertyRequest): Bytes {
    TargetBytes(r.objectId, r.propertyId, r.arrayIndex) + OpeningTag(3) + Encoding(r.value) + ClosingTag(3)
    + OptionBytes(4, PriorityNumber(r.priority))
  }

  function FlagOf(b: Option<bool>): Option<U32> {
    match b
    case None => None
    case Some(v) => Some(if v then 1 else 0)
  }

  function SubscribeCovBytes(r: SubscribeCovRequest): Bytes {
    CtxU32Bytes(0, r.processId) + CtxObjectIdBytes(1, r.monitoredObject) + OptionBytes(2, FlagOf(r.issueConfirmed))
    + OptionBytes(3, r.lifetime)
  }

  function ReferenceBytes(p: PropertyReference): Bytes {
    CtxU32Bytes(0, PropertyCode(p.propertyId)) + OptionBytes(1, p.arrayIndex)
  }

  function ReferencesBytes(ps: seq<PropertyReference>): Bytes {
    if ps == [] then [] else ReferenceBytes(ps[0]) + ReferencesBytes(ps[1..])
  }

  function SpecBytes(s: ReadSpec): Bytes {
    CtxObjectIdBytes(0, s.objectId) + OpeningTag(1) + ReferencesBytes(s.properties) + ClosingTag(1)
  }

  function RpmBytes(specs: seq<ReadSpec>): Bytes {
    if specs == [] then [] else SpecBytes(specs[0]) + RpmBytes(specs[1..])
  }

  // ---- ReadProperty ---------------------------------------------------------------------------

  /** The object, property and index of a request, when what follows is not another index. */
  lemma TargetBack(buf: Bytes, objectId: ObjectId, propertyId: PropertyIdentifier, arrayIndex: Option<U32>)
    requires At(buf, 0, TargetBytes(objectId, propertyId, arrayIndex))
    requires !HasContextTag(buf, |TargetBytes(objectId, propertyId, arrayIndex)|, 2)
    ensures DecodeReadProperty(buf) == Ok(
      ReadPropertyRequest(UnpackObjectId(PackObjectId(objectId)), PropertyFrom(PropertyCode(propertyId)), arrayIndex),
      |TargetBytes(objectId, propertyId, arrayIndex)|)
  {
    hide CtxObjectIdBytes, CtxU32Bytes, OptionBytes, DecodeCtxObjectId, DecodeCtxPropertyId, DecodeOption,
      HasContextTag, At, UnpackObjectId, PackObjectId, PropertyCode, PropertyFrom;
    var a, b, c := CtxObjectIdBytes(0, objectId), CtxU32Bytes(1, PropertyCode(propertyId)), OptionBytes(2, arrayIndex);
    AtConcat(buf, 0, a + b, c);
    AtConcat(buf, 0, a, b);
    CtxObjectIdRoundTrip(buf, 0, 0, objectId);
    CtxPropertyIdRoundTrip(buf, 5, 1, propertyId);
    NoOptionBytes(2, arrayIndex);
    OptionRoundTrip(buf, 5 + |b|, 2, arrayIndex);
  }

  lemma NoTagAtEnd(buf: Bytes, number: Byte)
    ensures !HasContextTag(buf, |buf|, number)
  {
  }

  /** The decoder gives a request back exactly when its object identifier fits the encoding and its property
      is not a listed one in disguise. */
  lemma ReadPropertyRoundTrip(r: ReadPropertyRequest)
    ensures var bytes := TargetBytes(r.objectId, r.propertyId, r.arrayIndex);
      DecodeReadProperty(bytes) == Ok(r, |bytes|) <==> PlainObjectId(r.objectId) && Canonical(r.propertyId)
  {
    hide TargetBytes, DecodeReadProperty, HasContextTag, At, PlainObjectId, Canonical, UnpackObjectId, PackObjectId,
      PropertyCode, PropertyFrom;
    var bytes := TargetBytes(r.objectId, r.propertyId, r.arrayIndex);
    AtWhole(bytes);
    NoTagAtEnd(bytes, 2);
    TargetBack(bytes, r.objectId, r.propertyId, r.arrayIndex);
    UnpackPacked(r.objectId);
    TablesAgree(r.propertyId);
  }

  // ---- WriteProperty --------------------------------------------------------------------------

  lemma LongStringDiffers(buf: Bytes, pos: nat, s: Bytes)
    requires At(buf, pos, StringBytes(s)) && |s| > 254
    ensures var r := DecodeApplicationValue(buf, pos); r.Ok? ==> r.value != CharacterString(s)
  {
    hide DecodeApplicationValue, StringBytes, At;
    StringOutcome(buf, pos, s);
  }

  lemma LongOctetsDiffer(buf: Bytes, pos: nat, b: Bytes)
    requires At(buf, pos, Encoding(OctetString(b))) && |b| > 255
    ensures var r := DecodeApplicationValue(buf, pos); r.Ok? ==> r.value != OctetString(b)
  {
    hide DecodeApplicationValue, Encoding, At, TagAndLength;
    OctetsOutcome(buf, pos, b);
  }

  lemma BitStringDiffers(buf: Bytes, pos: nat, bits: seq<bool>)
    requires At(buf, pos, BitStringBytes(bits)) && !Decodable(BitString(bits))
    ensures var r := DecodeApplicationValue(buf, pos); r.Ok? ==> r.value != BitString(bits)
  {
    hide DecodeApplicationValue, BitStringBytes, At, LowBits, Pack, TailClear, Unused;
    if |bits| <= 2032 {
      BitStringOutcome(buf, pos, bits);
      LowBitsRoundTrip(bits);
    } else {
      LongBitStringFails(buf, pos, bits);
    }
  }

  /** Apart from `Boolean(true)`, a value that is not decodable is not even recovered at the wrong place. */
  lemma OnlyDecodableRecovered(buf: Bytes, pos: nat, value: PropertyValue)
    requires At(buf, pos, Encoding(value)) && value != Boolean(true)
    ensures var r := DecodeApplicationValue(buf, pos); r.Ok? && r.value == value ==> Decodable(value)
  {
    hide DecodeApplicationValue, At, PlainObjectId, PlainYear, TailClear, TagAndLength, UnsignedBytes, StringBytes,
      BitStringBytes, EnumeratedBytes, EncodingOfAll, ApplicationTag, Word, UnpackObjectId, PackObjectId, YearByte,
      WeekdayFrom, WeekdayCode;
    DecodedIsPrimitive(buf, pos);
    match value
    case Boolean(v) => BooleanFails(buf, pos, v);
    case CharacterString(s) => if |s| > 254 { LongStringDiffers(buf, pos, s); }
    case OctetString(b) => if |b| > 255 { LongOctetsDiffer(buf, pos, b); }
    case BitString(bits) => if !Decodable(value) { BitStringDiffers(buf, pos, bits); }
    case ObjectIdValue(oid) =>
      ObjectIdOutcome(buf, pos, oid);
      UnpackPacked(oid);
    case Date(d) =>
      DateOutcome(buf, pos, d);
      YearRoundTrip(d.year);
      WeekdayRoundTrip(d.weekday);
    case _ =>
  }

  /** After the type byte of a Boolean stands the flag, which is no closing tag. */
  lemma BooleanNotClosed(buf: Bytes, pos: nat, number: Byte)
    requires At(buf, pos, Encoding(Boolean(true)))
    ensures !IsClosing(buf, pos + 1, number)
  {
    AtIndex(buf, pos, Encoding(Boolean(true)), 1);
  }

  /** The value between its two tags: recovered and closed exactly when it is decodable. */
  lemma ClosedValueExactly(buf: Bytes, pos: nat, value: PropertyValue, number: Byte)
    requires At(buf, pos, Encoding(value)) && IsClosing(buf, pos + |Encoding(value)|, number)
    ensures var r := DecodeApplicationValue(buf, pos);
      (r.Ok? && r.value == value && IsClosing(buf, r.pos, number)) <==> Decodable(value)
    ensures Decodable(value) ==> DecodeApplicationValue(buf, pos).pos == pos + |Encoding(value)|
  {
    hide DecodeApplicationValue, At, Encoding, Decodable, IsClosing;
    DecodeExactly(buf, pos, value);
    if value == Boolean(true) {
      BooleanFails(buf, pos, true);
      BooleanNotClosed(buf, pos, number);
    } else {
      OnlyDecodableRecovered(buf, pos, value);
    }
  }

  lemma PriorityBack(buf: Bytes, pos: nat, priority: Option<U8>)
    requires At(buf, pos, OptionBytes(4, PriorityNumber(priority)))
    requires pos + |OptionBytes(4, PriorityNumber(priority))| == |buf|
    ensures DecodePriority(buf, pos) == Ok(priority, |buf|)
  {
    hide CtxU32Bytes, DecodeOption, HasContextTag, At;
    NoTagAtEnd(buf, 4);
    OptionRoundTrip(buf, pos, 4, PriorityNumber(priority));
  }

  /** A write request is given back exactly when object, property and value all survive their encodings. */
  lemma WritePropertyRoundTrip(r: WritePropertyRequest)
    ensures var bytes := WritePropertyBytes(r);
      DecodeWriteProperty(bytes) == Ok(r, |bytes|) <==>
        (PlainObjectId(r.objectId) && Canonical(r.propertyId) && Decodable(r.value))
  {
    hide ContextTag, TargetBytes, Encoding, OptionBytes, PriorityNumber, DecodeReadProperty, DecodeApplicationValue,
      DecodePriority, HasContextTag, IsOpening, IsClosing, At, PlainObjectId, Canonical, Decodable, UnpackObjectId,
      PackObjectId, PropertyCode, PropertyFrom;
    var bytes := WritePropertyBytes(r);
    var target, value, priority := TargetBytes(r.objectId, r.propertyId, r.arrayIndex), Encoding(r.value),
      OptionBytes(4, PriorityNumber(r.priority));
    AtWhole(bytes);
    AtConcat(bytes, 0, target + OpeningTag(3) + value + ClosingTag(3), priority);
    AtConcat(bytes, 0, target + OpeningTag(3) + value, ClosingTag(3));
    AtConcat(bytes, 0, target + OpeningTag(3), value);
    AtConcat(bytes, 0, target, OpeningTag(3));
    TagByte(bytes, |target|, 3, 6);
    TagByte(bytes, |target| + 1 + |value|, 3, 7);
    TargetBack(bytes, r.objectId, r.propertyId, r.arrayIndex);
    UnpackPacked(r.objectId);
    TablesAgree(r.propertyId);
    ClosedValueExactly(bytes, |target| + 1, r.value, 3);
    PriorityBack(bytes, |target| + 2 + |value|, r.priority);
  }

  // ---- SubscribeCOV ---------------------------------------------------------------------------

  lemma FlagBack(buf: Bytes, pos: nat, flag: Option<bool>)
    requires At(buf, pos, OptionBytes(2, FlagOf(flag)))
    requires flag == None ==> !HasContextTag(buf, pos, 2)
    ensures DecodeOptionBool(buf, pos, 2) == Ok(flag, pos + |OptionBytes(2, FlagOf(flag))|)
  {
    hide CtxU32Bytes, DecodeCtxU32, HasContextTag, At;
    if flag.Some? {
      CtxU32RoundTrip(buf, pos, 2, FlagOf(flag).value);
    }
  }

  lemma NoFlagBytes(flag: Option<bool>)
    ensures flag == None ==> OptionBytes(2, FlagOf(flag)) == []
  {
  }

  /** What stands at an optional part is that part's tag or whatever follows. */
  lemma OptionStart(buf: Bytes, pos: nat, number: Byte, v: Option<U32>, other: Byte)
    requires number < 16 && number != other && At(buf, pos, OptionBytes(number, v))
    requires v == None ==> !HasContextTag(buf, pos, other)
    ensures !HasContextTag(buf, pos, other)
  {
    hide CtxU32Bytes, HasContextTag, At;
    if v.Some? {
      CtxU32RoundTrip(buf, pos, number, v.value);
    }
  }

  lemma SubscribeCovRoundTrip(r: SubscribeCovRequest)
    ensures var bytes := SubscribeCovBytes(r);
      DecodeSubscribeCov(bytes) == Ok(r, |bytes|) <==> PlainObjectId(r.monitoredObject)
  {
    hide CtxObjectIdBytes, CtxU32Bytes, OptionBytes, FlagOf, DecodeCtxU32, DecodeCtxObjectId, DecodeOption,
      DecodeOptionBool, HasContextTag, At, PlainObjectId, UnpackObjectId, PackObjectId;
    var bytes := SubscribeCovBytes(r);
    var a, b, c, d := CtxU32Bytes(0, r.processId), CtxObjectIdBytes(1, r.monitoredObject),
      OptionBytes(2, FlagOf(r.issueConfirmed)), OptionBytes(3, r.lifetime);
    AtWhole(bytes);
    AtConcat(bytes, 0, a + b + c, d);
    AtConcat(bytes, 0, a + b, c);
    AtConcat(bytes, 0, a, b);
    CtxU32RoundTrip(bytes, 0, 0, r.processId);
    CtxObjectIdRoundTrip(bytes, |a|, 1, r.monitoredObject);
    UnpackPacked(r.monitoredObject);
    NoTagAtEnd(bytes, 2);
    NoTagAtEnd(bytes, 3);
    NoOptionBytes(3, r.lifetime);
    NoFlagBytes(r.issueConfirmed);
    OptionStart(bytes, |a| + 5 + |c|, 3, r.lifetime, 2);
    FlagBack(bytes, |a| + 5, r.issueConfirmed);
    OptionRoundTrip(bytes, |a| + 5 + |c|, 3, r.lifetime);
  }

  // ---- ReadPropertyMultiple ---------------------------------------------------------------------

  predicate ReferenceInRange(p: PropertyReference) {
    Canonical(p.propertyId)
  }

  predicate ReferencesInRange(ps: seq<PropertyReference>) {
    forall i :: 0 <= i < |ps| ==> ReferenceInRange(ps[i])
  }

  predicate SpecInRange(s: ReadSpec) {
    PlainObjectId(s.objectId) && ReferencesInRange(s.properties)
  }

  predicate SpecsInRange(specs: seq<ReadSpec>) {
    forall i :: 0 <= i < |specs| ==> SpecInRange(specs[i])
  }

  /** The next part of the body is no index: a reference starts with tag 0, the list ends with a closing tag. */
  lemma ReferencesStart(buf: Bytes, pos: nat, ps: seq<PropertyReference>)
    requires At(buf, pos, ReferencesBytes(ps)) && IsClosing(buf, pos + |ReferencesBytes(ps)|, 1)
    ensures !HasContextTag(buf, pos, 1)
    ensures ps != [] ==> !IsClosing(buf, pos, 1) && pos < |buf|
  {
    hide CtxU32Bytes, At, OptionBytes, PropertyCode, TagNumber, Lvt, IsContext;
    if ps != [] {
      hide HasContextTag, IsClosing;
      var id, index := CtxU32Bytes(0, PropertyCode(ps[0].propertyId)), OptionBytes(1, ps[0].arrayIndex);
      AtConcat(buf, pos, id + index, ReferencesBytes(ps[1..]));
      AtConcat(buf, pos, id, index);
      CtxU32RoundTrip(buf, pos, 0, PropertyCode(ps[0].propertyId));
      HasTagInside(buf, pos, 0);
    }
  }

  lemma HasTagInside(buf: Bytes, pos: nat, number: Byte)
    requires HasContextTag(buf, pos, number)
    ensures pos < |buf|
  {
  }

  lemma ReferenceBack(buf: Bytes, pos: nat, p: PropertyReference)
    requires At(buf, pos, ReferenceBytes(p)) && !HasContextTag(buf, pos + |ReferenceBytes(p)|, 1)
    ensures DecodeReference(buf, pos)
      == Ok(PropertyReference(PropertyFrom(PropertyCode(p.propertyId)), p.arrayIndex), pos + |ReferenceBytes(p)|)
  {
    hide CtxU32Bytes, OptionBytes, DecodeCtxPropertyId, DecodeOption, HasContextTag, At, PropertyCode, PropertyFrom;
    var id, index := CtxU32Bytes(0, PropertyCode(p.propertyId)), OptionBytes(1, p.arrayIndex);
    AtConcat(buf, pos, id, index);
    CtxPropertyIdRoundTrip(buf, pos, 0, p.propertyId);
    NoOptionBytes(1, p.arrayIndex);
    OptionRoundTrip(buf, pos + |id|, 1, p.arrayIndex);
  }

  /** What the decoder makes of a reference: the same, unless its identifier hides a listed one. */
  function Normal(p: PropertyReference): PropertyReference {
    PropertyReference(PropertyFrom(PropertyCode(p.propertyId)), p.arrayIndex)
  }

  function NormalAll(ps: seq<PropertyReference>): (ns: seq<PropertyReference>)
    ensures |ns| == |ps|
  {
    seq(|ps|, i requires 0 <= i < |ps| => Normal(ps[i]))
  }

  lemma {:induction false} ReferencesBack(buf: Bytes, pos: nat, ps: seq<PropertyReference>)
    requires At(buf, pos, ReferencesBytes(ps)) && IsClosing(buf, pos + |ReferencesBytes(ps)|, 1)
    ensures DecodeReferences(buf, pos) == Ok(NormalAll(ps), pos + |ReferencesBytes(ps)|)
    decreases ps
  {
    hide ReferenceBytes, DecodeReference, HasContextTag, IsClosing, At, Normal;
    if ps == [] {
      assert NormalAll(ps) == [];
    } else {
      var first, rest := ReferenceBytes(ps[0]), ReferencesBytes(ps[1..]);
      AtConcat(buf, pos, first, rest);
      ReferencesStart(buf, pos, ps);
      ReferencesStart(buf, pos + |first|, ps[1..]);
      ReferenceBack(buf, pos, ps[0]);
      assert DecodeReference(buf, pos) == Ok(Normal(ps[0]), pos + |first|) by { NormalIs(ps[0]); }
      ReferencesBack(buf, pos + |first|, ps[1..]);
      assert [Normal(ps[0])] + NormalAll(ps[1..]) == NormalAll(ps);
    }
  }

  lemma NormalIs(p: PropertyReference)
    ensures Normal(p) == PropertyReference(PropertyFrom(PropertyCode(p.propertyId)), p.arrayIndex)
  {
    hide PropertyFrom, PropertyCode;
  }

  function NormalSpec(s: ReadSpec): ReadSpec {
    ReadSpec(UnpackObjectId(PackObjectId(s.objectId)), NormalAll(s.properties))
  }

  function NormalSpecs(specs: seq<ReadSpec>): (ns: seq<ReadSpec>)
    ensures |ns| == |specs|
  {
    seq(|specs|, i requires 0 <= i < |specs| => NormalSpec(specs[i]))
  }

  lemma SpecBack(buf: Bytes, pos: nat, s: ReadSpec)
    requires At(buf, pos, SpecBytes(s))
    ensures DecodeSpec(buf, pos) == Ok(NormalSpec(s), pos + |SpecBytes(s)|)
    ensures pos < |buf|
  {
    hide ContextTag, CtxObjectIdBytes, ReferencesBytes, DecodeCtxObjectId, DecodeReferences, IsOpening, IsClosing, At,
      UnpackObjectId, PackObjectId, NormalAll;
    var id, ps := CtxObjectIdBytes(0, s.objectId), ReferencesBytes(s.properties);
    AtConcat(buf, pos, id + OpeningTag(1) + ps, ClosingTag(1));
    AtConcat(buf, pos, id + OpeningTag(1), ps);
    AtConcat(buf, pos, id, OpeningTag(1));
    CtxObjectIdRoundTrip(buf, pos, 0, s.objectId);
    TagByte(buf, pos + 5, 1, 6);
    TagByte(buf, pos + 6 + |ps|, 1, 7);
    ReferencesBack(buf, pos + 6, s.properties);
  }

  lemma {:induction false} SpecsBack(buf: Bytes, pos: nat, specs: seq<ReadSpec>)
    requires At(buf, pos, RpmBytes(specs)) && pos + |RpmBytes(specs)| == |buf|
    ensures DecodeRpm(buf, pos) == Ok(NormalSpecs(specs), |buf|)
    decreases specs
  {
    hide SpecBytes, DecodeSpec, At, NormalSpec;
    if specs == [] {
      assert NormalSpecs(specs) == [];
    } else {
      var first, rest := SpecBytes(specs[0]), RpmBytes(specs[1..]);
      AtConcat(buf, pos, first, rest);
      SpecBack(buf, pos, specs[0]);
      SpecsBack(buf, pos + |first|, specs[1..]);
      assert [NormalSpec(specs[0])] + NormalSpecs(specs[1..]) == NormalSpecs(specs);
    }
  }

  lemma NormalExactly(ps: seq<PropertyReference>)
    ensures NormalAll(ps) == ps <==> ReferencesInRange(ps)
  {
    hide PropertyFrom, PropertyCode, Canonical;
    forall i | 0 <= i < |ps|
      ensures NormalAll(ps)[i] == ps[i] <==> ReferenceInRange(ps[i])
    {
      TablesAgree(ps[i].propertyId);
    }
    if NormalAll(ps) != ps {
      var i :| 0 <= i < |ps| && NormalAll(ps)[i] != ps[i];
    }
  }

  lemma NormalSpecExactly(s: ReadSpec)
    ensures NormalSpec(s) == s <==> SpecInRange(s)
  {
    hide UnpackObjectId, PackObjectId, PlainObjectId, NormalAll, ReferencesInRange;
    UnpackPacked(s.objectId);
    NormalExactly(s.properties);
  }

  lemma NormalSpecsExactly(specs: seq<ReadSpec>)
    ensures NormalSpecs(specs) == specs <==> SpecsInRange(specs)
  {
    hide NormalSpec, SpecInRange;
    forall i | 0 <= i < |specs|
      ensures NormalSpecs(specs)[i] == specs[i] <==> SpecInRange(specs[i])
    {
      NormalSpecExactly(specs[i]);
    }
    if NormalSpecs(specs) != specs {
      var i :| 0 <= i < |specs| && NormalSpecs(specs)[i] != specs[i];
    }
  }

  /** The main result: decoding inverts the request grammar exactly on listed object types with 22-bit
      instances and canonical properties, for any number of objects, properties and indices. */
  lemma RpmRoundTrip(specs: seq<ReadSpec>)
    ensures DecodeRpm(RpmBytes(specs), 0) == Ok(specs, |RpmBytes(specs)|) <==> SpecsInRange(specs)
  {
    hide RpmBytes, DecodeRpm, At, NormalSpecs, SpecsInRange;
    var bytes := RpmBytes(specs);
    AtWhole(bytes);
    SpecsBack(bytes, 0, specs);
    NormalSpecsExactly(specs);
  }

  // ---- Whatever is decoded is in range -------------------------------------------------------------

  lemma UnpackedIsPlain(raw: U32)
    ensures PlainObjectId(UnpackObjectId(raw))
  {
  }

  lemma DecodedObjectIdIsPlain(buf: Bytes, pos: nat, number: Byte)
    ensures var r := DecodeCtxObjectId(buf, pos, number); r.Ok? ==> PlainObjectId(r.value)
  {
    hide PlainObjectId, UnpackObjectId, ReadUint, DecodeLvtLen, TagNumber, Lvt, IsContext;
    if pos < |buf| {
      var len := DecodeLvtLen(buf, pos + 1, Lvt(buf[pos]));
      if len.Ok? {
        var raw := ReadUint(buf, len.pos, 4);
        if raw.Ok? { UnpackedIsPlain(raw.value); }
      }
    }
  }

  lemma DecodedReferenceIsCanonical(buf: Bytes, pos: nat)
    ensures var r := DecodeReference(buf, pos); r.Ok? ==> ReferenceInRange(r.value)
  {
    hide DecodeCtxU32, DecodeOption, PropertyFrom;
    var v := DecodeCtxU32(buf, pos, 0);
    if v.Ok? { UnknownRoundTrip(v.value); }
  }

  lemma {:induction false} DecodedReferencesInRange(buf: Bytes, pos: nat)
    ensures var r := DecodeReferences(buf, pos); r.Ok? ==> ReferencesInRange(r.value)
    decreases |buf| - pos
  {
    hide DecodeReference, ReferenceInRange, IsClosing;
    if !IsClosing(buf, pos, 1) && pos < |buf| {
      ReferenceAdvances(buf, pos);
      DecodedReferenceIsCanonical(buf, pos);
      var r := DecodeReference(buf, pos);
      if r.Ok? { DecodedReferencesInRange(buf, r.pos); }
    }
  }

  lemma DecodedSpecInRange(buf: Bytes, pos: nat)
    ensures var r := DecodeSpec(buf, pos); r.Ok? ==> SpecInRange(r.value)
  {
    hide DecodeCtxObjectId, DecodeReferences, ReferencesInRange, PlainObjectId, IsOpening;
    DecodedObjectIdIsPlain(buf, pos, 0);
    var id := DecodeCtxObjectId(buf, pos, 0);
    if id.Ok? { DecodedReferencesInRange(buf, id.pos + 1); }
  }

  lemma {:induction false} DecodedSpecsInRange(buf: Bytes, pos: nat)
    ensures var r := DecodeRpm(buf, pos); r.Ok? ==> SpecsInRange(r.value)
    decreases |buf| - pos
  {
    hide DecodeSpec, SpecInRange;
    if pos < |buf| {
      SpecAdvances(buf, pos);
      DecodedSpecInRange(buf, pos);
      var r := DecodeSpec(buf, pos);
      if r.Ok? { DecodedSpecsInRange(buf, r.pos); }
    }
  }

  /** Any body that is accepted, however it was written, means a request that the grammar writes and the
      decoder reads back unchanged. */
  lemma RpmNormalForm(body: Bytes)
    ensures var r := DecodeRpm(body, 0);
      r.Ok? ==> DecodeRpm(RpmBytes(r.value), 0) == Ok(r.value, |RpmBytes(r.value)|)
  {
    hide RpmBytes, DecodeRpm, SpecsInRange;
    DecodedSpecsInRange(body, 0);
    var r := DecodeRpm(body, 0);
    if r.Ok? { RpmRoundTrip(r.value); }
  }
}

/** Application-tagged property values: the encoder, and exactly which values survive decoding. */
module Application {
  import opened Machine
  import opened BigEndian
  import opened BitStrings
  import opened BacnetTypes
  import opened Buffers
  import opened Tags
  import opened Asn1

  // ---- Encoding --------------------------------------------------------------------

  /** The length octet of a string is always there, even for short strings. */
  function StringBytes(utf8: Bytes): Bytes {
    [ApplicationTag(7, 5), ByteOf(Truncate8(|utf8| + 1)), 0] + utf8
  }

  function EnumeratedBytes(v: U32): Bytes {
    if v < 0x100 then [ApplicationTag(9, 1)] + Word(v, 1) else [ApplicationTag(9, 4)] + Word(v, 4)
  }

  function TimeBytes(t: BacnetTime): Bytes {
    [ApplicationTag(11, 4), ByteOf(t.hour), ByteOf(t.minute), ByteOf(t.second), ByteOf(t.hundredths)]
  }

  /** A Boolean has a value octet of its own; an array or a list is just its elements. */
  function Encoding(value: PropertyValue): Bytes {
    match value
    case Null => [0x00]
    case Boolean(v) => [0x11, if v then 0x01 else 0x00]
    case Unsigned(v) => UnsignedBytes(v)
    case Real(v) => RealBytes(v)
    case CharacterString(s) => StringBytes(s)
    case ObjectIdValue(oid) => ObjectIdBytes(oid)
    case Date(d) => DateBytes(d)
    case BitString(b) => BitStringBytes(b)
    case Enumerated(v) => EnumeratedBytes(v)
    case Any(raw) => raw
    case Array(items) => EncodingOfAll(items)
    case List(items) => EncodingOfAll(items)
    case Integer(v) => [ApplicationTag(3, 4)] + Word(v, 4)
    case Double(v) => [ApplicationTag(5, 5), 0x08] + Word(v, 8)
    case OctetString(b) => TagAndLength(6, |b|) + b
    case Time(t) => TimeBytes(t)
  }

  function EncodingOfAll(items: seq<PropertyValue>): Bytes {
    if items == [] then [] else EncodingOfAll(items[..|items| - 1]) + Encoding(items[|items| - 1])
  }

  method EncodeCharacterString(buf: BytesMut, s: Bytes)
    modifies buf
    ensures buf.data == old(buf.data) + StringBytes(s)
  {
    hide ApplicationTag, ByteOf, Truncate8;
    var len := |s| + 1;
    buf.ExtendFromSlice([ApplicationTag(7, 5), ByteOf(Truncate8(len)), 0x00]);
    buf.ExtendFromSlice(s);
    assert buf.data == old(buf.data) + ([ApplicationTag(7, 5), ByteOf(Truncate8(len)), 0x00] + s);
  }

  method EncodeEnumerated(buf: BytesMut, v: U32)
    modifies buf
    ensures buf.data == old(buf.data) + EnumeratedBytes(v)
  {
    hide ApplicationTag, Word;
    if v < 0x100 {
      buf.ExtendFromSlice([ApplicationTag(9, 1)]);
      buf.ExtendFromSlice(Word(v, 1));
    } else {
      buf.ExtendFromSlice([ApplicationTag(9, 4)]);
      buf.ExtendFromSlice(Word(v, 4));
    }
  }

  method EncodeOctetString(buf: BytesMut, bytes: Bytes)
    modifies buf
    ensures buf.data == old(buf.data) + (TagAndLength(6, |bytes|) + bytes)
  {
    hide ApplicationTag, ByteOf;
    if |bytes| <= 4 {
      buf.ExtendFromSlice([ApplicationTag(6, ByteOf(|bytes|))]);
    } else {
      buf.ExtendFromSlice([ApplicationTag(6, 5), ByteOf(Truncate8(|bytes|))]);
    }
    buf.ExtendFromSlice(bytes);
  }

  method EncodePropertyValue(buf: BytesMut, value: PropertyValue)
    modifies buf
    ensures buf.data == old(buf.data) + Encoding(value)
    decreases value
  {
    hide ApplicationTag, ByteOf, Word, DateBytes, BitStringBytes, UnsignedBytes, RealBytes, ObjectIdBytes,
      StringBytes, EnumeratedBytes, TagAndLength, EncodingOfAll;
    match value
    case Null => buf.ExtendFromSlice([0x00]);
    case Boolean(v) => buf.ExtendFromSlice([0x11, if v then 0x01 else 0x00]);
    case Unsigned(v) => EncodeApplicationUnsigned(buf, v);
    case Real(v) => EncodeApplicationReal(buf, v);
    case CharacterString(s) => EncodeCharacterString(buf, s);
    case ObjectIdValue(oid) => EncodeApplicationObjectId(buf, oid);
    case Date(d) => EncodeApplicationDate(buf, d);
    case BitString(b) => EncodeApplicationBitString(buf, b);
    case Enumerated(v) => EncodeEnumerated(buf, v);
    case Any(raw) => buf.ExtendFromSlice(raw);
    case Array(items) => EncodeItems(buf, items, value);
    case List(items) => EncodeItems(buf, items, value);
    case Integer(v) =>
      buf.ExtendFromSlice([ApplicationTag(3, 4)]);
      buf.ExtendFromSlice(Word(v, 4));
    case Double(v) =>
      buf.ExtendFromSlice([ApplicationTag(5, 5), 0x08]);
      buf.ExtendFromSlice(Word(v, 8));
    case OctetString(bytes) => EncodeOctetString(buf, bytes);
    case Time(t) =>
      buf.ExtendFromSlice(
        [ApplicationTag(11, 4), ByteOf(t.hour), ByteOf(t.minute), ByteOf(t.second), ByteOf(t.hundredths)]);
  }

  /** The loop over the elements of an array or a list. */
  method EncodeItems(buf: BytesMut, items: seq<PropertyValue>, ghost whole: PropertyValue)
    requires whole == Array(items) || whole == List(items)
    modifies buf
    ensures buf.data == old(buf.data) + EncodingOfAll(items)
    decreases whole, 0
  {
    hide Encoding;
    for i := 0 to |items|
      invariant buf.data == old(buf.data) + EncodingOfAll(items[..i])
    {
      EncodePropertyValue(buf, items[i]);
      assert items[..i + 1][..i] == items[..i];
    }
    assert items[..|items|] == items;
  }

  // ---- Which values survive -----------------------------------------------------------

  predicate PlainObjectId(oid: ObjectId) {
    oid.objectType in LISTED_TYPES && oid.instance < 0x40_0000
  }

  predicate PlainYear(year: U16) {
    1900 <= year <= 2155
  }

  /** What a caller must check before relying on `decode_application_value` to give a value back. */
  predicate Decodable(value: PropertyValue) {
    match value
    case Boolean(_) => false
    case Any(_) => false
    case Array(_) => false
    case List(_) => false
    case CharacterString(s) => |s| <= 254
    case OctetString(b) => |b| <= 255
    case BitString(b) => |b| <= 2032 && TailClear(b)
    case ObjectIdValue(oid) => PlainObjectId(oid)
    case Date(d) => PlainYear(d.year) && !d.weekday.Unspecified?
    case _ => true
  }

  /** At any place in any buffer, the encoding decodes to the value and is used up exactly. */
  ghost predicate RoundTrips(value: PropertyValue) {
    forall buf: Bytes, pos: nat :: At(buf, pos, Encoding(value)) ==>
      DecodeApplicationValue(buf, pos) == Ok(value, pos + |Encoding(value)|)
  }
}

/** Exactly which property values `decode_application_value` gives back. */
module ValueRoundTrip {
  import opened Machine
  import opened BigEndian
  import opened BitStrings
  import opened BacnetTypes
  import opened Buffers
  import opened Tags
  import opened Asn1
  import opened Application

  // ---- Tags and contents ----------------------------------------------------------------

  lemma SmallLvt(len: nat)
    requires len <= 4
    ensures ByteOf(len) < 5 && NumberOf(ByteOf(len)) == len
  {
    ByteOfSmall(len);
  }

  /** A tag with its length leads to the contents behind it. */
  lemma TagLeadsToContents(buf: Bytes, pos: nat, number: Byte, len: nat)
    requires 2 <= number <= 12 && At(buf, pos, TagAndLength(number, len))
    ensures DecodeApplicationValue(buf, pos) ==
      DecodeContents(buf, pos + |TagAndLength(number, len)|, number, if len <= 4 then len else Truncate8(len))
    ensures !IsContext(buf[pos]) && TagNumber(buf[pos]) == number
  {
    hide ApplicationTag, DecodeContents, ByteOf, NumberOf, TagNumber, Lvt, IsContext;
    var tag := TagAndLength(number, len);
    AtIndex(buf, pos, tag, 0);
    if len <= 4 {
      SmallLvt(len);
      ApplicationTagParts(number, ByteOf(len));
    } else {
      AtIndex(buf, pos, tag, 1);
      ApplicationTagParts(number, 5);
    }
  }

  /** A tag whose length does not follow the general rule. */
  lemma FixedTagLeadsToContents(buf: Bytes, pos: nat, number: Byte, tag: Bytes, len: nat)
    requires 2 <= number <= 12 && At(buf, pos, tag)
    requires (tag == [ApplicationTag(number, 5), ByteOf(len % 0x100)] && len < 0x100)
      || (tag == [ApplicationTag(number, ByteOf(len % 0x100))] && len <= 4)
    ensures DecodeApplicationValue(buf, pos) == DecodeContents(buf, pos + |tag|, number, len)
    ensures !IsContext(buf[pos]) && TagNumber(buf[pos]) == number
  {
    hide ApplicationTag, DecodeContents, ByteOf, NumberOf, TagNumber, Lvt, IsContext;
    AtIndex(buf, pos, tag, 0);
    if |tag| == 2 {
      AtIndex(buf, pos, tag, 1);
      ApplicationTagParts(number, 5);
    } else {
      SmallLvt(len);
      ApplicationTagParts(number, ByteOf(len));
    }
  }

  lemma ReadWord(buf: Bytes, pos: nat, v: U32, n: nat)
    requires n <= 4 && v < Pow256(n) && At(buf, pos, Word(v, n))
    ensures ReadUint(buf, pos, n) == Ok(v, pos + n)
  {
    hide Word, Value;
    ValueOfWord(v, n);
  }

  lemma ReadUintBytes(buf: Bytes, pos: nat, v: U32)
    requires At(buf, pos, UintBytes(v))
    ensures ReadUint(buf, pos, UintLength(v)) == Ok(v, pos + UintLength(v))
  {
    hide Word, Value;
    UintRoundTrip(v);
  }

  lemma UnpackPacked(oid: ObjectId)
    ensures UnpackObjectId(PackObjectId(oid)) == oid <==> PlainObjectId(oid)
  {
  }

  lemma WeekdayRoundTrip(w: Weekday)
    ensures WeekdayFrom(WeekdayCode(w)) == w <==> !w.Unspecified?
    ensures WeekdayFromByte(WeekdayCode(w)) == w
  {
  }

  lemma YearRoundTrip(year: U16)
    ensures YearByte(year) + 1900 == year <==> PlainYear(year)
  {
  }

  // ---- Type by type ------------------------------------------------------------------------

  /** A short tag followed by a number of as many bytes as the tag says. */
  lemma WordAfterTag(buf: Bytes, pos: nat, number: Byte, v: U32, n: nat)
    requires 2 <= number <= 12 && n <= 4 && v < Pow256(n)
    requires At(buf, pos, [ApplicationTag(number, ByteOf(n))] + Word(v, n))
    ensures DecodeApplicationValue(buf, pos) == DecodeContents(buf, pos + 1, number, n)
    ensures ReadUint(buf, pos + 1, n) == Ok(v, pos + 1 + n)
    ensures !IsContext(buf[pos]) && TagNumber(buf[pos]) == number
  {
    hide ApplicationTag, ByteOf, Word, ReadUint, DecodeApplicationValue, DecodeContents, IsContext, TagNumber, Pow256;
    var tag := [ApplicationTag(number, ByteOf(n))];
    AtConcat(buf, pos, tag, Word(v, n));
    assert n % 0x100 == n;
    FixedTagLeadsToContents(buf, pos, number, tag, n);
    ReadWord(buf, pos + 1, v, n);
  }

  lemma UintFits(v: U32)
    ensures v < Pow256(UintLength(v)) && v < Pow256(4)
    ensures v < 0x100 ==> v < Pow256(1)
  {
    PowersOf256();
  }

  lemma UnsignedSurvives(buf: Bytes, pos: nat, v: U32)
    requires At(buf, pos, UnsignedBytes(v))
    ensures DecodeApplicationValue(buf, pos) == Ok(Unsigned(v), pos + |UnsignedBytes(v)|)
  {
    hide ApplicationTag, ByteOf, Word, ReadUint, DecodeApplicationValue, Pow256, UintLength;
    UintFits(v);
    WordAfterTag(buf, pos, 2, v, UintLength(v));
  }

  lemma IntegerSurvives(buf: Bytes, pos: nat, v: U32)
    requires At(buf, pos, Encoding(Integer(v)))
    ensures DecodeApplicationValue(buf, pos) == Ok(Integer(v), pos + 5)
  {
    hide ApplicationTag, ByteOf, Word, ReadUint, DecodeApplicationValue, Pow256;
    UintFits(v);
    ByteOfSmall(4);
    WordAfterTag(buf, pos, 3, v, 4);
  }

  lemma RealSurvives(buf: Bytes, pos: nat, v: U32)
    requires At(buf, pos, RealBytes(v))
    ensures DecodeApplicationValue(buf, pos) == Ok(Real(v), pos + 5)
  {
    hide ApplicationTag, ByteOf, Word, ReadUint, DecodeApplicationValue, Pow256;
    UintFits(v);
    ByteOfSmall(4);
    WordAfterTag(buf, pos, 4, v, 4);
  }

  lemma EnumeratedSurvives(buf: Bytes, pos: nat, v: U32)
    requires At(buf, pos, EnumeratedBytes(v))
    ensures DecodeApplicationValue(buf, pos) == Ok(Enumerated(v), pos + |EnumeratedBytes(v)|)
  {
    hide ApplicationTag, ByteOf, Word, ReadUint, DecodeApplicationValue, Pow256;
    UintFits(v);
    ByteOfSmall(1);
    ByteOfSmall(4);
    WordAfterTag(buf, pos, 9, v, if v < 0x100 then 1 else 4);
  }

  lemma DoubleSurvives(buf: Bytes, pos: nat, v: U64)
    requires At(buf, pos, Encoding(Double(v)))
    ensures DecodeApplicationValue(buf, pos) == Ok(Double(v), pos + |Encoding(Double(v))|)
  {
    hide ApplicationTag, Word, Value, DecodeApplicationValue;
    PowersOf256();
    assert 0x08 == ByteOf(8 % 0x100) by { ByteOfSmall(7); }
    var tag := [ApplicationTag(5, 5), ByteOf(8 % 0x100)];
    AtConcat(buf, pos, tag, Word(v, 8));
    FixedTagLeadsToContents(buf, pos, 5, tag, 8);
    ValueOfWord(v, 8);
  }

  lemma ObjectIdOutcome(buf: Bytes, pos: nat, oid: ObjectId)
    requires At(buf, pos, ObjectIdBytes(oid))
    ensures DecodeApplicationValue(buf, pos) == Ok(ObjectIdValue(UnpackObjectId(PackObjectId(oid))), pos + 5)
  {
    hide ApplicationTag, ByteOf, Word, ReadUint, DecodeApplicationValue, UnpackObjectId, PackObjectId, Pow256;
    UintFits(PackObjectId(oid));
    ByteOfSmall(4);
    WordAfterTag(buf, pos, 12, PackObjectId(oid), 4);
  }

  lemma FourOctets(buf: Bytes, pos: nat, number: Byte, octets: Bytes)
    requires 2 <= number <= 12 && |octets| == 4 && At(buf, pos, [ApplicationTag(number, 4)] + octets)
    ensures DecodeApplicationValue(buf, pos) == DecodeContents(buf, pos + 1, number, 4)
    ensures TakeBytes(buf, pos + 1, 4) == Ok(octets, pos + 5)
    ensures !IsContext(buf[pos]) && TagNumber(buf[pos]) == number
  {
    hide ApplicationTag, DecodeContents, DecodeApplicationValue;
    ByteOfSmall(4);
    AtConcat(buf, pos, [ApplicationTag(number, 4)], octets);
    FixedTagLeadsToContents(buf, pos, number, [ApplicationTag(number, 4)], 4);
  }

  lemma DateOutcome(buf: Bytes, pos: nat, d: BacnetDate)
    requires At(buf, pos, DateBytes(d))
    ensures DecodeApplicationValue(buf, pos) ==
      Ok(Date(BacnetDate(YearByte(d.year) + 1900, d.month, d.day, WeekdayFrom(WeekdayCode(d.weekday)))), pos + 5)
  {
    hide ApplicationTag, ByteOf, NumberOf, DecodeApplicationValue, WeekdayFrom, WeekdayCode;
    var octets := [ByteOf(YearByte(d.year)), ByteOf(d.month), ByteOf(d.day), WeekdayCode(d.weekday)];
    assert DateBytes(d) == [ApplicationTag(10, 4)] + octets;
    FourOctets(buf, pos, 10, octets);
  }

  lemma TimeSurvives(buf: Bytes, pos: nat, t: BacnetTime)
    requires At(buf, pos, TimeBytes(t))
    ensures DecodeApplicationValue(buf, pos) == Ok(Time(t), pos + 5)
  {
    hide ApplicationTag, ByteOf, NumberOf, DecodeApplicationValue;
    var octets := [ByteOf(t.hour), ByteOf(t.minute), ByteOf(t.second), ByteOf(t.hundredths)];
    assert TimeBytes(t) == [ApplicationTag(11, 4)] + octets;
    FourOctets(buf, pos, 11, octets);
  }

  lemma StringOutcome(buf: Bytes, pos: nat, s: Bytes)
    requires At(buf, pos, StringBytes(s))
    ensures var r, n := DecodeApplicationValue(buf, pos), Truncate8(|s| + 1);
      if n == 0 then r == Err(DecodeError)
      else r == Ok(CharacterString(s[..n - 1]), pos + 2 + n)
  {
    hide ApplicationTag, ByteOf, DecodeApplicationValue, NumberOf, Truncate8, At;
    var n := Truncate8(|s| + 1);
    TruncateFits(|s| + 1);
    var tag, contents := [ApplicationTag(7, 5), ByteOf(n)], [0] + s;
    assert StringBytes(s) == tag + contents;
    AtConcat(buf, pos, tag, contents);
    FixedTagLeadsToContents(buf, pos, 7, tag, n);
    TakePrefix(buf, pos + 2, contents, n);
    if n > 0 {
      assert contents[..n][1..] == s[..n - 1];
    }
  }

  lemma TruncateFits(n: nat)
    ensures Truncate8(n) <= n && Truncate8(n) % 0x100 == Truncate8(n)
  {
  }

  lemma TakePrefix(buf: Bytes, pos: nat, bytes: Bytes, n: nat)
    requires At(buf, pos, bytes) && n <= |bytes|
    ensures TakeBytes(buf, pos, n) == Ok(bytes[..n], pos + n)
  {
    assert buf[pos..pos + n] == buf[pos..pos + |bytes|][..n];
  }

  /** Octet strings beyond 255 octets lose all but the low byte of their length. */
  lemma OctetsOutcome(buf: Bytes, pos: nat, b: Bytes)
    requires At(buf, pos, Encoding(OctetString(b)))
    ensures var n := if |b| <= 4 then |b| else Truncate8(|b|);
      DecodeApplicationValue(buf, pos) == Ok(OctetString(b[..n]), pos + |TagAndLength(6, |b|)| + n)
  {
    hide TagAndLength, DecodeApplicationValue;
    var n: int := if |b| <= 4 then |b| else Truncate8(|b|);
    var start := pos + |TagAndLength(6, |b|)|;
    AtConcat(buf, pos, TagAndLength(6, |b|), b);
    TagLeadsToContents(buf, pos, 6, |b|);
    TakePrefix(buf, start, b, n);
  }

  /** Bit strings that fit: the bits come back as the low bits of the last octet. */
  lemma BitStringOutcome(buf: Bytes, pos: nat, bits: seq<bool>)
    requires At(buf, pos, BitStringBytes(bits)) && |bits| <= 2032
    ensures DecodeApplicationValue(buf, pos) ==
      Ok(BitString(LowBits(Pack(bits), Unused(|bits|))), pos + |BitStringBytes(bits)|)
  {
    hide TagAndLength, DecodeApplicationValue, Pack, LowBits, ByteOf, Unused, NumberOf;
    var octets := [ByteOf(Unused(|bits|))] + Pack(bits);
    var tag := TagAndLength(8, |octets|);
    assert BitStringBytes(bits) == tag + octets;
    AtConcat(buf, pos, tag, octets);
    PackLength(bits);
    TagLeadsToContents(buf, pos, 8, |octets|);
    assert octets[1..] == Pack(bits);
    assert TakeBytes(buf, pos + |tag|, |octets|) == Ok(octets, pos + |tag| + |octets|);
    if bits == [] { UnusedFacts(0); }
  }

  /** Longer ones lose the high part of their length, and never come back whole. */
  lemma LongBitStringFails(buf: Bytes, pos: nat, bits: seq<bool>)
    requires At(buf, pos, BitStringBytes(bits)) && |bits| > 2032
    ensures var r := DecodeApplicationValue(buf, pos); !r.Ok? || r.value != BitString(bits)
  {
    hide TagAndLength, DecodeApplicationValue, Pack, LowBits, ByteOf, Unused, NumberOf, HighBits;
    var octets := [ByteOf(Unused(|bits|))] + Pack(bits);
    var tag := TagAndLength(8, |octets|);
    assert BitStringBytes(bits) == tag + octets;
    AtConcat(buf, pos, tag, octets);
    PackLength(bits);
    TagLeadsToContents(buf, pos, 8, |octets|);
    var n := Truncate8(|octets|);
    var r := DecodeContents(buf, pos + |tag|, 8, n);
    if r.Ok? {
      var taken := TakeBytes(buf, pos + |tag|, n).value;
      HighBitsLength(taken[1..], if taken[1..] == [] then 0 else NumberOf(taken[0]));
    }
  }

  lemma ContentsArePrimitive(buf: Bytes, pos: nat, tag: Byte, len: nat)
    ensures var r := DecodeContents(buf, pos, tag, len);
      r.Ok? ==> !r.value.Array? && !r.value.List? && !r.value.Any?
  {
    hide Value, LowBits, UnpackObjectId, WeekdayFrom, NumberOf, ReadUint, TakeBytes;
  }

  lemma DecodedIsPrimitive(buf: Bytes, pos: nat)
    ensures var r := DecodeApplicationValue(buf, pos);
      r.Ok? ==> !r.value.Array? && !r.value.List? && !r.value.Any?
  {
    hide TagNumber, Lvt, IsContext, DecodeContents, DecodeLvtLen;
    if pos < |buf| {
      var r := DecodeLvtLen(buf, pos + 1, Lvt(buf[pos]));
      if r.Ok? {
        ContentsArePrimitive(buf, r.pos, TagNumber(buf[pos]), r.value);
      }
    }
  }

  lemma BooleanFails(buf: Bytes, pos: nat, v: bool)
    requires At(buf, pos, Encoding(Boolean(v)))
    ensures DecodeApplicationValue(buf, pos) == Ok(Boolean(true), pos + 1)
  {
    AtIndex(buf, pos, Encoding(Boolean(v)), 0);
  }

  lemma NullSurvives(buf: Bytes, pos: nat)
    requires At(buf, pos, Encoding(Null))
    ensures DecodeApplicationValue(buf, pos) == Ok(Null, pos + 1)
  {
    AtIndex(buf, pos, Encoding(Null), 0);
  }

  // ---- The result ------------------------------------------------------------------------------

  lemma ObjectIdExactly(buf: Bytes, pos: nat, oid: ObjectId)
    requires At(buf, pos, ObjectIdBytes(oid))
    ensures DecodeApplicationValue(buf, pos) == Ok(ObjectIdValue(oid), pos + |ObjectIdBytes(oid)|)
      <==> PlainObjectId(oid)
  {
    hide DecodeApplicationValue, UnpackObjectId, PackObjectId, PlainObjectId, ApplicationTag;
    ObjectIdOutcome(buf, pos, oid);
    UnpackPacked(oid);
  }

  lemma DateExactly(buf: Bytes, pos: nat, d: BacnetDate)
    requires At(buf, pos, DateBytes(d))
    ensures DecodeApplicationValue(buf, pos) == Ok(Date(d), pos + |DateBytes(d)|)
      <==> PlainYear(d.year) && !d.weekday.Unspecified?
  {
    hide DecodeApplicationValue, WeekdayFrom, WeekdayCode, YearByte, PlainYear, ApplicationTag, ByteOf;
    DateOutcome(buf, pos, d);
    YearRoundTrip(d.year);
    WeekdayRoundTrip(d.weekday);
  }

  lemma StringExactly(buf: Bytes, pos: nat, s: Bytes)
    requires At(buf, pos, StringBytes(s))
    ensures DecodeApplicationValue(buf, pos) == Ok(CharacterString(s), pos + |StringBytes(s)|) <==> |s| <= 254
  {
    hide DecodeApplicationValue, ApplicationTag, ByteOf;
    StringOutcome(buf, pos, s);
    if |s| <= 254 {
      assert s[..|s|] == s;
    }
  }

  lemma OctetsExactly(buf: Bytes, pos: nat, b: Bytes)
    requires At(buf, pos, Encoding(OctetString(b)))
    ensures DecodeApplicationValue(buf, pos) == Ok(OctetString(b), pos + |Encoding(OctetString(b))|) <==> |b| <= 255
  {
    hide DecodeApplicationValue, TagAndLength;
    OctetsOutcome(buf, pos, b);
    if |b| <= 255 {
      assert b[..|b|] == b;
    }
  }

  lemma BitStringExactly(buf: Bytes, pos: nat, bits: seq<bool>)
    requires At(buf, pos, BitStringBytes(bits))
    ensures DecodeApplicationValue(buf, pos) == Ok(BitString(bits), pos + |BitStringBytes(bits)|)
      <==> |bits| <= 2032 && TailClear(bits)
  {
    hide DecodeApplicationValue, BitStringBytes, LowBits, Pack, TailClear, Unused;
    if |bits| <= 2032 {
      BitStringOutcome(buf, pos, bits);
      LowBitsRoundTrip(bits);
    } else {
      LongBitStringFails(buf, pos, bits);
    }
  }

  /** At every place, decoding gives the value back exactly when it is decodable. */
  lemma DecodeExactly(buf: Bytes, pos: nat, value: PropertyValue)
    requires At(buf, pos, Encoding(value))
    ensures DecodeApplicationValue(buf, pos) == Ok(value, pos + |Encoding(value)|) <==> Decodable(value)
  {
    hide DecodeApplicationValue, PlainObjectId, PlainYear, TailClear, TagAndLength, At,
      UnsignedBytes, StringBytes, BitStringBytes, EnumeratedBytes, EncodingOfAll, ApplicationTag, Word;
    match value
    case Null => NullSurvives(buf, pos);
    case Boolean(v) => BooleanFails(buf, pos, v);
    case Unsigned(v) => UnsignedSurvives(buf, pos, v);
    case Integer(v) => IntegerSurvives(buf, pos, v);
    case Real(v) => RealSurvives(buf, pos, v);
    case Enumerated(v) => EnumeratedSurvives(buf, pos, v);
    case Double(v) => DoubleSurvives(buf, pos, v);
    case Time(t) => TimeSurvives(buf, pos, t);
    case ObjectIdValue(oid) => ObjectIdExactly(buf, pos, oid);
    case Date(d) => DateExactly(buf, pos, d);
    case CharacterString(s) => StringExactly(buf, pos, s);
    case OctetString(b) => OctetsExactly(buf, pos, b);
    case BitString(bits) => BitStringExactly(buf, pos, bits);
    case Array(_) => DecodedIsPrimitive(buf, pos);
    case List(_) => DecodedIsPrimitive(buf, pos);
    case Any(_) => DecodedIsPrimitive(buf, pos);
  }

  /** The main result on single values: round trip if and only if decodable. */
  lemma RoundTripsExactly(value: PropertyValue)
    ensures RoundTrips(value) <==> Decodable(value)
  {
    hide DecodeApplicationValue, Encoding, Decodable;
    forall buf: Bytes, pos: nat | At(buf, pos, Encoding(value))
      ensures DecodeApplicationValue(buf, pos) == Ok(value, pos + |Encoding(value)|) <==> Decodable(value)
    {
      DecodeExactly(buf, pos, value);
    }
    assert At(Encoding(value), 0, Encoding(value));
  }
}

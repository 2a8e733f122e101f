/** Exactly which values the primitives' own decoders give back: more than the general decoder does. */
module Asn1RoundTrip {
  import opened Machine
  import opened BigEndian
  import opened BitStrings
  import opened BacnetTypes
  import opened Buffers
  import opened Tags
  import opened Asn1
  import opened Application
  import opened ValueRoundTrip

  lemma ApplicationTagFields(number: Byte, lvt: Byte)
    requires number < 16 && lvt < 8
    ensures ApplicationTag(number, lvt) >> 4 == number && ApplicationTag(number, lvt) & 0x07 == lvt
  {
  }

  lemma WordAtOne(buf: Bytes, tag: Byte, v: U32, n: nat)
    requires n <= 4 && v < Pow256(n) && At(buf, 0, [tag] + Word(v, n))
    ensures |buf| >= 1 + n && buf[0] == tag && Value(buf[1..1 + n]) == v
  {
    hide Word, Value, Pow256;
    AtConcat(buf, 0, [tag], Word(v, n));
    AtIndex(buf, 0, [tag], 0);
    ValueOfWord(v, n);
  }

  lemma UnsignedRoundTrip(buf: Bytes, v: U32)
    requires At(buf, 0, UnsignedBytes(v))
    ensures DecodeApplicationUnsigned(buf) == Ok(v, |UnsignedBytes(v)|)
  {
    hide ApplicationTag, ByteOf, NumberOf, Word, Value, Pow256, UintLength;
    UintFits(v);
    SmallLvt(UintLength(v));
    ApplicationTagFields(2, ByteOf(UintLength(v)));
    WordAtOne(buf, ApplicationTag(2, ByteOf(UintLength(v))), v, UintLength(v));
  }

  lemma RealRoundTrip(buf: Bytes, v: U32)
    requires At(buf, 0, RealBytes(v))
    ensures DecodeApplicationReal(buf) == Ok(v, 5)
  {
    hide ApplicationTag, Word, Value, Pow256;
    UintFits(v);
    ApplicationTagFields(4, 4);
    WordAtOne(buf, ApplicationTag(4, 4), v, 4);
  }

  lemma ObjectIdTagIsC4()
    ensures ApplicationTag(12, 4) == 0xC4
  {
  }

  /** This decoder never mistakes an unlisted type for a device, but an instance over 22 bits is cut. */
  lemma ObjectIdRoundTrip(buf: Bytes, oid: ObjectId)
    requires At(buf, 0, ObjectIdBytes(oid))
    ensures DecodeApplicationObjectId(buf) == Ok(oid, 5) <==> PlainObjectId(oid)
    ensures oid.objectType !in LISTED_TYPES <==> DecodeApplicationObjectId(buf) == Err(DecodeError)
  {
    hide ApplicationTag, Word, Value, Pow256, PackObjectId, ObjectTypeFrom;
    UintFits(PackObjectId(oid));
    ObjectIdTagIsC4();
    WordAtOne(buf, ApplicationTag(12, 4), PackObjectId(oid), 4);
    PackedParts(oid);
    ListedTypes(oid.objectType);
  }

  lemma PackedParts(oid: ObjectId)
    ensures PackObjectId(oid) / 0x40_0000 == oid.objectType
    ensures PackObjectId(oid) % 0x40_0000 == oid.instance <==> oid.instance < 0x40_0000
  {
  }

  lemma DateRoundTrip(buf: Bytes, d: BacnetDate)
    requires At(buf, 0, DateBytes(d))
    ensures DecodeApplicationDate(buf) == Ok(d, 5) <==> PlainYear(d.year)
  {
    hide ApplicationTag, ByteOf, NumberOf, YearByte, PlainYear, WeekdayCode, WeekdayFromByte;
    var bytes := DateBytes(d);
    AtIndex(buf, 0, bytes, 0);
    AtIndex(buf, 0, bytes, 1);
    AtIndex(buf, 0, bytes, 2);
    AtIndex(buf, 0, bytes, 3);
    AtIndex(buf, 0, bytes, 4);
    ApplicationTagFields(10, 4);
    YearRoundTrip(d.year);
    WeekdayRoundTrip(d.weekday);
  }

  /** Reading the length in front of a bit string. */
  lemma BitStringHeader(buf: Bytes, octets: Bytes)
    requires octets != [] && At(buf, 0, TagAndLength(8, |octets|) + octets)
    ensures var start, n := |TagAndLength(8, |octets|)|, Truncate8(|octets|);
      DecodeApplicationBitString(buf) ==
        if n == 0 then Abort
        else
          var unused, data := NumberOf(octets[0]), octets[1..n];
          if data != [] && 8 < unused then Abort
          else Ok(if data == [] then [] else HighBits(data, unused), start + n)
  {
    hide ApplicationTag, ByteOf, NumberOf, HighBits;
    var tag, n: int := TagAndLength(8, |octets|), Truncate8(|octets|);
    AtConcat(buf, 0, tag, octets);
    AtIndex(buf, 0, tag, 0);
    if |octets| <= 4 {
      SmallLvt(|octets|);
      ApplicationTagFields(8, ByteOf(|octets|));
    } else {
      AtIndex(buf, 0, tag, 1);
      ApplicationTagFields(8, 5);
    }
    var start := |tag|;
    AtIndex(buf, start, octets, 0);
    if n > 0 {
      assert buf[start + 1..start + n] == buf[start..start + |octets|][1..n];
    }
  }

  lemma BitStringRoundTrip(buf: Bytes, bits: seq<bool>)
    requires At(buf, 0, BitStringBytes(bits))
    ensures DecodeApplicationBitString(buf) == Ok(bits, |BitStringBytes(bits)|) <==> |bits| <= 2032
  {
    hide TagAndLength, DecodeApplicationBitString, Pack, HighBits, ByteOf, NumberOf, Unused;
    var octets := [ByteOf(Unused(|bits|))] + Pack(bits);
    assert BitStringBytes(bits) == TagAndLength(8, |octets|) + octets;
    BitStringHeader(buf, octets);
    PackLength(bits);
    var n: int := Truncate8(|octets|);
    if |bits| <= 2032 {
      assert octets[1..n] == Pack(bits);
      HighBitsRoundTrip(bits);
      if bits == [] { assert Pack(bits) == []; }
    } else if n > 0 {
      var unused := NumberOf(octets[0]);
      if unused <= 8 {
        HighBitsLength(octets[1..n], unused);
      }
    }
  }

  /** A short bit string, such as the four status flags, is read as all clear by the general decoder. */
  lemma ShortBitStringReadAsClear(buf: Bytes, pos: nat, bits: seq<bool>)
    requires 0 < |bits| <= 4 && At(buf, pos, BitStringBytes(bits))
    ensures DecodeApplicationValue(buf, pos) == Ok(BitString(seq(|bits|, _ => false)), pos + 3)
  {
    hide DecodeApplicationValue, OctetBits, PackOctet, ApplicationTag, ByteOf, Unused;
    BitStringOutcome(buf, pos, bits);
    UnusedFacts(|bits|);
    OctetBitsOfPack(bits, 8 - |bits|, |bits|);
    assert Pack(bits) == [PackOctet(bits)];
    assert LowBits(Pack(bits), Unused(|bits|)) == OctetBits(PackOctet(bits), 8 - |bits|, |bits|);
    assert OctetBits(PackOctet(bits), 8 - |bits|, |bits|) == seq(|bits|, _ => false);
  }
}

/** The octets that the encoders write, as numbers. */
module WireForms {
  import opened Machine
  import opened BigEndian
  import opened BitStrings
  import opened BacnetTypes
  import opened Tags
  import opened Asn1
  import opened Application
  import opened ValueRoundTrip
  import opened WireGrammar
  import opened PrimitiveGrammar

  // ---- Numbers, most significant octet first and no longer than need be ----------------------

  lemma BigEndianValue(a: Byte, b: Byte, c: Byte, d: Byte)
    ensures Value([a]) == NumberOf(a)
    ensures Value([a, b]) == 0x100 * NumberOf(a) + NumberOf(b)
    ensures Value([a, b, c]) == 0x1_0000 * NumberOf(a) + 0x100 * NumberOf(b) + NumberOf(c)
    ensures Value([a, b, c, d])
      == 0x100_0000 * NumberOf(a) + 0x1_0000 * NumberOf(b) + 0x100 * NumberOf(c) + NumberOf(d)
  {
    hide NumberOf;
    assert [a][..0] == [] && [a, b][..1] == [a] && [a, b, c][..2] == [a, b] && [a, b, c, d][..3] == [a, b, c];
  }

  lemma {:induction false} PowersGrow(m: nat, n: nat)
    requires m <= n
    ensures Pow256(m) <= Pow256(n)
    decreases n
  {
    if m < n {
      PowersGrow(m, n - 1);
    }
  }

  /** No octets with this value are fewer, but for the empty string in place of 0. */
  lemma ShortestForm(v: U32, other: Bytes)
    requires Value(other) == v && other != []
    ensures Value(UintBytes(v)) == v && 1 <= |UintBytes(v)| <= 4 && |UintBytes(v)| <= |other|
  {
    hide Word, Value, Pow256;
    UintRoundTrip(v);
    ValueBound(other);
    PowersOf256();
    if |other| < UintLength(v) {
      PowersGrow(|other|, UintLength(v) - 1);
    }
  }

  lemma WordValue(v: nat, n: nat)
    requires (n == 1 && v < 0x100) || (n == 4 && v < 0x1_0000_0000) || (n == 8 && v < 0x1_0000_0000_0000_0000)
    ensures |Word(v, n)| == n && Value(Word(v, n)) == v
  {
    hide Word, Value, Pow256;
    PowersOf256();
    ValueOfWord(v, n);
  }

  // ---- Tags -----------------------------------------------------------------------------------------

  lemma TagNumbers(number: Byte, field: Byte)
    requires number < 16 && field < 8
    ensures NumberOf(ApplicationTag(number, field)) == 16 * NumberOf(number) + NumberOf(field)
    ensures NumberOf(ContextTag(number, field)) == 16 * NumberOf(number) + 8 + NumberOf(field)
  {
    hide ApplicationTag, ContextTag, TagNumber, Lvt, IsContext, NumberOf;
    ApplicationTagParts(number, field);
    ContextTagParts(number, field);
    TagParts(ApplicationTag(number, field));
    TagParts(ContextTag(number, field));
  }

  /** Context-tagged numbers and objects, and brackets. */
  lemma ContextForms(number: Byte, v: U32, oid: ObjectId)
    requires number < 16
    ensures var b, n := CtxU32Bytes(number, v), NumberOf(number);
      2 <= |b| <= 5 && NumberOf(b[0]) == 16 * n + 8 + (|b| - 1) && Value(b[1..]) == v
    ensures var b, n := CtxObjectIdBytes(number, oid), NumberOf(number);
      |b| == 5 && NumberOf(b[0]) == 16 * n + 12
      && Value(b[1..]) == 0x40_0000 * oid.objectType + oid.instance % 0x40_0000
    ensures var b := OpeningTag(number); |b| == 1 && NumberOf(b[0]) == 16 * NumberOf(number) + 14
    ensures var b := ClosingTag(number); |b| == 1 && NumberOf(b[0]) == 16 * NumberOf(number) + 15
  {
    hide ContextTag, ApplicationTag, NumberOf, Value, Word, ByteOf;
    SmallLvt(UintLength(v));
    TagNumbers(number, ByteOf(UintLength(v)));
    TagNumbers(number, 4);
    TagNumbers(number, 6);
    TagNumbers(number, 7);
    FieldNumbers(6);
    FieldNumbers(7);
    Two();
    UintRoundTrip(v);
    WordValue(PackObjectId(oid), 4);
    assert CtxU32Bytes(number, v)[1..] == UintBytes(v);
    assert CtxObjectIdBytes(number, oid)[1..] == Word(PackObjectId(oid), 4);
  }

  // ---- Values ---------------------------------------------------------------------------------------

  /** A Null is the octet 0; a Boolean the octet 17 and one that is 1 exactly for true; raw bytes are themselves. */
  lemma SmallForms(flag: bool, raw: Bytes)
    ensures Encoding(Null) == [0] && Encoding(Any(raw)) == raw
    ensures var b := Encoding(Boolean(flag));
      |b| == 2 && NumberOf(b[0]) == 17 && NumberOf(b[1]) == if flag then 1 else 0
  {
    hide Word;
  }

  /** An octet of tag and length, and the number behind it. */
  predicate NumberForm(b: Bytes, first: nat, octets: nat, v: nat) {
    |b| == 1 + octets && NumberOf(b[0]) == first && Value(b[1..]) == v
  }

  lemma NumberFormOf(number: Byte, field: Byte, octets: nat, contents: Bytes, v: nat)
    requires number < 16 && field < 8 && |contents| == octets && Value(contents) == v
    ensures NumberForm([ApplicationTag(number, field)] + contents, 16 * NumberOf(number) + NumberOf(field), octets, v)
  {
    hide ApplicationTag, Value, NumberOf;
    TagNumbers(number, field);
    assert ([ApplicationTag(number, field)] + contents)[1..] == contents;
  }

  lemma MoreNumbers()
    ensures NumberOf(1) == 1 && NumberOf(2) == 2 && NumberOf(3) == 3 && NumberOf(4) == 4 && NumberOf(5) == 5
    ensures NumberOf(6) == 6 && NumberOf(7) == 7 && NumberOf(8) == 8 && NumberOf(9) == 9 && NumberOf(10) == 10
    ensures NumberOf(11) == 11 && NumberOf(12) == 12
  {
  }

  /** Unsigned numbers in their shortest form, enumerations in one octet or four, integers and reals in four. */
  lemma NumberForms(v: U32)
    ensures NumberForm(Encoding(Unsigned(v)), 32 + |UintBytes(v)|, |UintBytes(v)|, v)
    ensures if v < 0x100 then NumberForm(Encoding(Enumerated(v)), 145, 1, v)
      else NumberForm(Encoding(Enumerated(v)), 148, 4, v)
    ensures NumberForm(Encoding(Integer(v)), 52, 4, v) && NumberForm(Encoding(Real(v)), 68, 4, v)
  {
    hide ApplicationTag, NumberOf, Value, Word, ByteOf, NumberForm;
    MoreNumbers();
    SmallLvt(UintLength(v));
    UintRoundTrip(v);
    NumberFormOf(2, ByteOf(UintLength(v)), UintLength(v), UintBytes(v), v);
    WordValue(v, 4);
    if v < 0x100 {
      WordValue(v, 1);
      NumberFormOf(9, 1, 1, Word(v, 1), v);
    } else {
      NumberFormOf(9, 4, 4, Word(v, 4), v);
    }
    NumberFormOf(3, 4, 4, Word(v, 4), v);
    NumberFormOf(4, 4, 4, Word(v, 4), v);
  }

  lemma DoubleForm(v: U64)
    ensures var b := Encoding(Double(v));
      |b| == 10 && NumberOf(b[0]) == 85 && NumberOf(b[1]) == 8 && Value(b[2..]) == v
  {
    hide ApplicationTag, NumberOf, Value, Word;
    MoreNumbers();
    TagNumbers(5, 5);
    WordValue(v, 8);
    assert Encoding(Double(v))[2..] == Word(v, 8);
  }

  lemma ObjectIdForm(oid: ObjectId)
    ensures NumberForm(Encoding(ObjectIdValue(oid)), 196, 4, 0x40_0000 * oid.objectType + oid.instance % 0x40_0000)
  {
    hide ApplicationTag, NumberOf, Value, Word, NumberForm;
    MoreNumbers();
    WordValue(PackObjectId(oid), 4);
    NumberFormOf(12, 4, 4, Word(PackObjectId(oid), 4), PackObjectId(oid));
  }

  /** A string always has a length octet, which counts the octet for the character set 0 as well. */
  lemma StringForm(s: Bytes)
    ensures var b := Encoding(CharacterString(s));
      |b| == 3 + |s| && NumberOf(b[0]) == 117 && NumberOf(b[1]) == (|s| + 1) % 0x100 && b[2] == 0 && b[3..] == s
  {
    hide ApplicationTag, NumberOf, ByteOf;
    MoreNumbers();
    TagNumbers(7, 5);
  }

  /** Contents behind a tag: up to four octets are counted in the tag. */
  predicate SizedForm(b: Bytes, number: nat, contents: Bytes) {
    if |contents| <= 4 then |b| == 1 + |contents| && NumberOf(b[0]) == 16 * number + |contents| && b[1..] == contents
    else
      |b| == 2 + |contents| && NumberOf(b[0]) == 16 * number + 5 && NumberOf(b[1]) == |contents| % 0x100
      && b[2..] == contents
  }

  lemma SizedFormOf(number: Byte, contents: Bytes)
    requires number < 16
    ensures SizedForm(TagAndLength(number, |contents|) + contents, NumberOf(number), contents)
  {
    hide ApplicationTag, NumberOf, ByteOf;
    MoreNumbers();
    if |contents| <= 4 {
      SmallLvt(|contents|);
      TagNumbers(number, ByteOf(|contents|));
    } else {
      TagNumbers(number, 5);
    }
  }

  lemma OctetStringForm(s: Bytes)
    ensures SizedForm(Encoding(OctetString(s)), 6, s)
  {
    hide TagAndLength, NumberOf, SizedForm;
    MoreNumbers();
    SizedFormOf(6, s);
  }

  /** Years since 1900 from 0 on, cut to one octet; month, day; the weekday from 1 for Monday, 255 if unspecified. */
  lemma DateForm(d: BacnetDate)
    ensures var b := Encoding(Date(d));
      |b| == 5 && NumberOf(b[0]) == 164 && NumberOf(b[1]) == (if d.year < 1900 then 0 else (d.year - 1900) % 0x100)
      && NumberOf(b[2]) == d.month && NumberOf(b[3]) == d.day
      && (if d.weekday == Unspecified then NumberOf(b[4]) == 255
          else 1 <= NumberOf(b[4]) <= 7 && AnyWeekdayNumbered(d.weekday, NumberOf(b[4])))
  {
    WeekdayForm(d.weekday);
    hide ApplicationTag, NumberOf, ByteOf, WeekdayCode, AnyWeekdayNumbered;
    MoreNumbers();
    TagNumbers(10, 4);
  }

  lemma WeekdayForm(w: Weekday)
    ensures var n := NumberOf(WeekdayCode(w));
      if w == Unspecified then n == 255 else 1 <= n <= 7 && AnyWeekdayNumbered(w, n)
  {
  }

  lemma TimeForm(t: BacnetTime)
    ensures var b := Encoding(Time(t));
      |b| == 5 && NumberOf(b[0]) == 180 && NumberOf(b[1]) == t.hour && NumberOf(b[2]) == t.minute
      && NumberOf(b[3]) == t.second && NumberOf(b[4]) == t.hundredths
  {
    hide ApplicationTag, NumberOf, ByteOf;
    MoreNumbers();
    TagNumbers(11, 4);
  }

  /** A bit string counts its spare bits first, then has its bits from the high end. */
  lemma BitStringForm(bits: seq<bool>)
    ensures exists contents: Bytes ::
      SizedForm(Encoding(BitString(bits)), 8, contents) && |contents| == 1 + (|bits| + 7) / 8
      && NumberOf(contents[0]) == (8 - |bits| % 8) % 8 && HighBitsOf(contents[1..], NumberOf(contents[0]), bits)
  {
    hide ApplicationTag, NumberOf, ByteOf, Pack, SizedForm, HighBitsOf, TagAndLength, HighBits;
    var contents := [ByteOf(Unused(|bits|))] + Pack(bits);
    MoreNumbers();
    PackLength(bits);
    SizedFormOf(8, contents);
    assert Encoding(BitString(bits)) == TagAndLength(8, |contents|) + contents;
    assert contents[1..] == Pack(bits);
    if bits == [] {
      assert Pack(bits) == [];
      NoBits(Unused(0), bits);
    } else {
      HighBitsRoundTrip(bits);
      HighBitsExactly(Pack(bits), Unused(|bits|), bits);
    }
  }
}

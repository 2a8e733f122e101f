/** Which octets `decode_application_value` takes for which value, on every buffer. */
module ValueGrammar {
  import opened Machine
  import opened Modular
  import opened BigEndian
  import opened BitStrings
  import opened BacnetTypes
  import opened Tags
  import opened ValueRoundTrip
  import opened WireGrammar

  /** Application tags by their numbers (section 20.2.1.4 of ASHRAE 135-2020). */
  function StandardTag(value: PropertyValue): nat
    requires !value.Array? && !value.List? && !value.Any?
  {
    match value
    case Null => 0
    case Boolean(_) => 1
    case Unsigned(_) => 2
    case Integer(_) => 3
    case Real(_) => 4
    case Double(_) => 5
    case OctetString(_) => 6
    case CharacterString(_) => 7
    case BitString(_) => 8
    case Enumerated(_) => 9
    case Date(_) => 10
    case Time(_) => 11
    case ObjectIdValue(_) => 12
  }

  /** Bit `k` of an octet, counted from the high end. */
  predicate BitOfOctet(b: Byte, k: nat)
    requires k < 8
  {
    NumberOf(b) / [128, 64, 32, 16, 8, 4, 2, 1][k] % 2 == 1
  }

  /** The bits that the general decoder reads: all of each octet but the last, and there the low ones. */
  predicate LowBitsOf(octets: Bytes, unused: nat, bits: seq<bool>) {
    |bits| == 8 * |octets| - unused && unused <= 8
    && forall i :: 0 <= i < |bits| ==>
      bits[i] == BitOfOctet(octets[i / 8], if i / 8 + 1 < |octets| then i % 8 else i % 8 + unused)
  }

  /** An octet as the sum of its bits. */
  function Bit(b: Byte, mask: Byte): nat {
    if b & mask != 0 then 1 else 0
  }

  lemma BinaryExpansion(b: Byte)
    ensures NumberOf(b) == 128 * Bit(b, 0x80) + 64 * Bit(b, 0x40) + 32 * Bit(b, 0x20) + 16 * Bit(b, 0x10)
      + 8 * Bit(b, 0x08) + 4 * Bit(b, 0x04) + 2 * Bit(b, 0x02) + Bit(b, 0x01)
  {
  }

  lemma OneBit(high: nat, bit: nat, low: nat, weight: nat)
    requires low < weight && bit < 2
    ensures ((2 * high + bit) * weight + low) / weight % 2 == bit
  {
    DivModUnique(2 * high + bit, low, weight);
  }

  lemma OctetDigits(h7: nat, h6: nat, h5: nat, h4: nat, h3: nat, h2: nat, h1: nat, h0: nat)
    requires h7 < 2 && h6 < 2 && h5 < 2 && h4 < 2 && h3 < 2 && h2 < 2 && h1 < 2 && h0 < 2
    ensures var n := 128 * h7 + 64 * h6 + 32 * h5 + 16 * h4 + 8 * h3 + 4 * h2 + 2 * h1 + h0;
      n / 128 % 2 == h7 && n / 64 % 2 == h6 && n / 32 % 2 == h5 && n / 16 % 2 == h4
      && n / 8 % 2 == h3 && n / 4 % 2 == h2 && n / 2 % 2 == h1 && n / 1 % 2 == h0
  {
    OneBit(0, h7, 64 * h6 + 32 * h5 + 16 * h4 + 8 * h3 + 4 * h2 + 2 * h1 + h0, 128);
    OneBit(h7, h6, 32 * h5 + 16 * h4 + 8 * h3 + 4 * h2 + 2 * h1 + h0, 64);
    OneBit(2 * h7 + h6, h5, 16 * h4 + 8 * h3 + 4 * h2 + 2 * h1 + h0, 32);
    OneBit(4 * h7 + 2 * h6 + h5, h4, 8 * h3 + 4 * h2 + 2 * h1 + h0, 16);
    OneBit(8 * h7 + 4 * h6 + 2 * h5 + h4, h3, 4 * h2 + 2 * h1 + h0, 8);
    OneBit(16 * h7 + 8 * h6 + 4 * h5 + 2 * h4 + h3, h2, 2 * h1 + h0, 4);
    OneBit(32 * h7 + 16 * h6 + 8 * h5 + 4 * h4 + 2 * h3 + h2, h1, h0, 2);
    OneBit(64 * h7 + 32 * h6 + 16 * h5 + 8 * h4 + 4 * h3 + 2 * h2 + h1, h0, 0, 1);
  }

  lemma BitNumber(b: Byte, k: nat)
    requires k < 8
    ensures BitAt(b, k) <==> BitOfOctet(b, k)
  {
    HighBitTable(k);
    MaskedBit(b, k);
    hide HighBit, NumberOf, Bit, BitAt;
    BinaryExpansion(b);
    OctetDigits(Bit(b, 0x80), Bit(b, 0x40), Bit(b, 0x20), Bit(b, 0x10), Bit(b, 0x08), Bit(b, 0x04), Bit(b, 0x02),
      Bit(b, 0x01));
    match k
    case 0 =>
    case 1 =>
    case 2 =>
    case 3 =>
    case 4 =>
    case 5 =>
    case 6 =>
    case _ =>
  }

  lemma MaskedBit(b: Byte, k: nat)
    requires k < 8
    ensures BitAt(b, k) <==> Bit(b, HighBit(k)) == 1
    ensures forall mask: Byte :: Bit(b, mask) < 2
  {
    hide HighBit;
  }

  // ---- Bit strings --------------------------------------------------------------------------------

  lemma OctetBitAt(b: Byte, first: nat, count: nat, k: nat)
    requires first + count <= 8 && k < count
    ensures OctetBits(b, first, count)[k] == BitOfOctet(b, first + k)
  {
    hide BitAt, BitOfOctet;
    BitNumber(b, first + k);
  }

  /** What stands at position `i` of the bits that the general decoder reads. */
  lemma {:induction false} LowBitAt(data: Bytes, unused: nat, i: nat)
    requires unused <= 8 && data != [] && i < 8 * |data| - unused
    ensures |LowBits(data, unused)| == 8 * |data| - unused
    ensures i / 8 < |data| && (i / 8 + 1 == |data| ==> i % 8 + unused < 8)
    ensures LowBits(data, unused)[i] == BitOfOctet(data[i / 8], if i / 8 + 1 < |data| then i % 8 else i % 8 + unused)
    decreases |data|
  {
    hide OctetBits, BitOfOctet;
    HighBitsLength(data, unused);
    OctetOf(i);
    if |data| == 1 {
      OctetBitAt(data[0], unused, 8 - unused, i);
    } else if i < 8 {
      OctetBitAt(data[0], 0, 8, i);
    } else {
      LowBitAt(data[1..], unused, i - 8);
    }
  }

  lemma OctetOf(i: nat)
    ensures if i < 8 then i / 8 == 0 && i % 8 == i else i / 8 == (i - 8) / 8 + 1 && i % 8 == (i - 8) % 8
  {
  }

  lemma LowBitsExactly(data: Bytes, unused: nat, bits: seq<bool>)
    requires unused <= 8 && (data == [] ==> unused == 0)
    ensures LowBits(data, unused) == bits <==> LowBitsOf(data, unused, bits)
  {
    hide LowBits, BitOfOctet;
    HighBitsLength(data, unused);
    NoHighBits(unused);
    assert |LowBits(data, unused)| == 8 * |data| - unused;
    forall i | 0 <= i < 8 * |data| - unused
      ensures i / 8 < |data| && (i / 8 + 1 == |data| ==> i % 8 + unused < 8)
      ensures LowBits(data, unused)[i] == BitOfOctet(data[i / 8], if i / 8 + 1 < |data| then i % 8 else i % 8 + unused)
    {
      LowBitAt(data, unused, i);
    }
    if LowBitsOf(data, unused, bits) {
      assert forall i :: 0 <= i < |bits| ==> bits[i] == LowBits(data, unused)[i];
    }
  }

  lemma NoHighBits(unused: nat)
    requires unused <= 8
    ensures HighBits([], unused) == []
  {
  }

  // ---- Contents -------------------------------------------------------------------------------------

  /** The weekdays by their numbers; whatever is not 1 to 6 is a Sunday to the general decoder. */
  predicate WeekdayNumbered(w: Weekday, n: nat) {
    w == [Sunday, Monday, Tuesday, Wednesday, Thursday, Friday, Saturday][if 1 <= n <= 6 then n else 0]
  }

  /** The octets `buf[from..end]` are contents of this value, when their announced count is `length`.  Types of fixed
      size pay no attention to the count. */
  predicate ContentsAt(buf: Bytes, from: nat, length: nat, end: nat, value: PropertyValue) {
    from <= end <= |buf|
    && var c := buf[from..end];
      match value
      case Unsigned(n) => |c| == length && n == Value(c) % 0x1_0000_0000
      case Integer(n) => |c| == length && n == Value(c) % 0x1_0000_0000
      case Enumerated(n) => |c| == length && n == Value(c) % 0x1_0000_0000
      case Real(n) => |c| == 4 && n == Value(c)
      case Double(n) => |c| == 8 && n == Value(c)
      case OctetString(b) => |c| == length && b == c
      case CharacterString(s) => |c| == length > 0 && s == c[1..]
      case BitString(bits) => |c| == length > 0 && LowBitsOf(c[1..], NumberOf(c[0]), bits)
      case Date(d) =>
        |c| == 4 && d.year == 1900 + NumberOf(c[0]) && d.month == NumberOf(c[1]) && d.day == NumberOf(c[2])
        && WeekdayNumbered(d.weekday, NumberOf(c[3]))
      case Time(t) =>
        |c| == 4 && t == BacnetTime(NumberOf(c[0]), NumberOf(c[1]), NumberOf(c[2]), NumberOf(c[3]))
      case ObjectIdValue(oid) => |c| == 4 && Names(oid, Value(c))
      case _ => false
  }

  lemma WeekdayExactly(b: Byte, w: Weekday)
    ensures WeekdayFrom(b) == w <==> WeekdayNumbered(w, NumberOf(b))
  {
    if b == 1 || b == 2 || b == 3 || b == 4 || b == 5 || b == 6 {
    } else {
      SmallDays(b);
    }
  }

  lemma SmallDays(b: Byte)
    ensures 1 <= NumberOf(b) <= 6 ==> b == 1 || b == 2 || b == 3 || b == 4 || b == 5 || b == 6
  {
    assert (b as int) as Byte == b;
  }

  lemma EightOctetValue(bytes: Bytes)
    requires |bytes| == 8
    ensures Value(bytes) < 0x1_0000_0000_0000_0000
  {
    hide Value;
    ValueBound(bytes);
    PowersOf256();
  }

  lemma NumbersExactly(buf: Bytes, from: nat, length: nat, end: nat, n: U32)
    ensures DecodeContents(buf, from, 2, length) == Ok(Unsigned(n), end) <==>
      ContentsAt(buf, from, length, end, Unsigned(n))
    ensures DecodeContents(buf, from, 3, length) == Ok(Integer(n), end) <==>
      ContentsAt(buf, from, length, end, Integer(n))
    ensures DecodeContents(buf, from, 9, length) == Ok(Enumerated(n), end) <==>
      ContentsAt(buf, from, length, end, Enumerated(n))
  {
    hide Value;
  }

  lemma FixedExactly(buf: Bytes, from: nat, length: nat, end: nat, n: U32, oid: ObjectId)
    ensures DecodeContents(buf, from, 4, length) == Ok(Real(n), end) <==> ContentsAt(buf, from, length, end, Real(n))
    ensures DecodeContents(buf, from, 12, length) == Ok(ObjectIdValue(oid), end) <==>
      ContentsAt(buf, from, length, end, ObjectIdValue(oid))
  {
    hide Value, UnpackObjectId, Names;
    if from + 4 <= |buf| {
      FourOctetValue(buf[from..from + 4]);
      UnpackExactly(Value(buf[from..from + 4]), oid);
    }
  }

  lemma DoubleExactly(buf: Bytes, from: nat, length: nat, end: nat, n: U64)
    ensures DecodeContents(buf, from, 5, length) == Ok(Double(n), end) <==>
      ContentsAt(buf, from, length, end, Double(n))
  {
    hide Value;
    if from + 8 <= |buf| {
      EightOctetValue(buf[from..from + 8]);
    }
  }

  lemma StringsExactly(buf: Bytes, from: nat, length: nat, end: nat, s: Bytes)
    ensures DecodeContents(buf, from, 6, length) == Ok(OctetString(s), end) <==>
      ContentsAt(buf, from, length, end, OctetString(s))
    ensures DecodeContents(buf, from, 7, length) == Ok(CharacterString(s), end) <==>
      ContentsAt(buf, from, length, end, CharacterString(s))
  {
  }

  lemma BitsExactly(buf: Bytes, from: nat, length: nat, end: nat, bits: seq<bool>)
    ensures DecodeContents(buf, from, 8, length) == Ok(BitString(bits), end) <==>
      ContentsAt(buf, from, length, end, BitString(bits))
  {
    hide LowBits, LowBitsOf, NumberOf;
    if 0 < length && from + length <= |buf| {
      var c := buf[from..from + length];
      var unused := NumberOf(c[0]);
      if unused <= 8 && (c[1..] == [] ==> unused == 0) {
        LowBitsExactly(c[1..], unused, bits);
      } else {
        NoBitsFit(c[1..], unused, bits);
      }
    }
  }

  lemma NoBitsFit(data: Bytes, unused: nat, bits: seq<bool>)
    requires unused > 8 || (data == [] && unused > 0)
    ensures !LowBitsOf(data, unused, bits)
  {
    hide BitOfOctet;
  }

  lemma DateTimeExactly(buf: Bytes, from: nat, length: nat, end: nat, d: BacnetDate, t: BacnetTime)
    ensures DecodeContents(buf, from, 10, length) == Ok(Date(d), end) <==> ContentsAt(buf, from, length, end, Date(d))
    ensures DecodeContents(buf, from, 11, length) == Ok(Time(t), end) <==> ContentsAt(buf, from, length, end, Time(t))
  {
    hide NumberOf, WeekdayFrom, WeekdayNumbered;
    if from + 4 <= |buf| {
      WeekdayExactly(buf[from + 3], d.weekday);
    }
  }

  // ---- Whole values ---------------------------------------------------------------------------------

  /** `buf[pos..end]` is this value: a Null or Boolean in one octet, anything else a tag, a length and contents. */
  ghost predicate ApplicationAt(buf: Bytes, pos: nat, end: nat, value: PropertyValue) {
    if value.Array? || value.List? || value.Any? then false
    else if value.Null? then pos < |buf| && end == pos + 1 && NumberOf(buf[pos]) < 8
    else if value.Boolean? then
      pos < |buf| && end == pos + 1 && 16 <= NumberOf(buf[pos]) < 24 && (value.flag <==> NumberOf(buf[pos]) != 16)
    else
      exists from, length: nat | from == pos + 1 || from == pos + 2 ::
        Headed(buf, pos, StandardTag(value), false, from, length) && ContentsAt(buf, from, length, end, value)
  }

  /** The decoder of contents, value by value. */
  lemma ContentsExactly(buf: Bytes, from: nat, length: nat, end: nat, value: PropertyValue)
    requires IsSized(value)
    ensures DecodeContents(buf, from, TagByteOf(value), length) == Ok(value, end) <==>
      ContentsAt(buf, from, length, end, value)
  {
    hide DecodeContents, ContentsAt;
    match value
    case Unsigned(n) => NumbersExactly(buf, from, length, end, n);
    case Integer(n) => NumbersExactly(buf, from, length, end, n);
    case Enumerated(n) => NumbersExactly(buf, from, length, end, n);
    case Real(n) => FixedExactly(buf, from, length, end, n, ObjectId(0, 0));
    case ObjectIdValue(oid) => FixedExactly(buf, from, length, end, 0, oid);
    case Double(n) => DoubleExactly(buf, from, length, end, n);
    case OctetString(b) => StringsExactly(buf, from, length, end, b);
    case CharacterString(s) => StringsExactly(buf, from, length, end, s);
    case BitString(bits) => BitsExactly(buf, from, length, end, bits);
    case Date(d) => DateTimeExactly(buf, from, length, end, d, BacnetTime(0, 0, 0, 0));
    case Time(t) => DateTimeExactly(buf, from, length, end, BacnetDate(0, 0, 0, Monday), t);
  }

  /** Values that have a length or a fixed size. */
  predicate IsSized(value: PropertyValue) {
    !value.Null? && !value.Boolean? && !value.Array? && !value.List? && !value.Any?
  }

  function TagByteOf(value: PropertyValue): (b: Byte)
    requires IsSized(value)
    ensures NumberOf(b) == StandardTag(value) && 2 <= b <= 12
  {
    match value
    case Unsigned(_) => 2
    case Integer(_) => 3
    case Real(_) => 4
    case Double(_) => 5
    case OctetString(_) => 6
    case CharacterString(_) => 7
    case BitString(_) => 8
    case Enumerated(_) => 9
    case Date(_) => 10
    case Time(_) => 11
    case ObjectIdValue(_) => 12
  }

  /** Contents never turn into a value of another type. */
  lemma KindOfContents(buf: Bytes, from: nat, tag: Byte, length: nat)
    ensures var r := DecodeContents(buf, from, tag, length);
      r.Ok? ==> IsSized(r.value) && TagByteOf(r.value) == tag
  {
    hide Value, LowBits, UnpackObjectId, WeekdayFrom, NumberOf, ReadUint, TakeBytes, BitsOfOctets;
    if tag == 8 { KindOfBits(buf, from, length); }
  }

  lemma KindOfBits(buf: Bytes, from: nat, length: nat)
    ensures var r := DecodeContents(buf, from, 8, length);
      r.Ok? ==> r.value.BitString?
  {
    hide LowBits, NumberOf;
  }

  lemma SmallValuesExactly(buf: Bytes, pos: nat, end: nat, flag: bool)
    ensures DecodeApplicationValue(buf, pos) == Ok(Null, end) <==> ApplicationAt(buf, pos, end, Null)
    ensures DecodeApplicationValue(buf, pos) == Ok(Boolean(flag), end) <==> ApplicationAt(buf, pos, end, Boolean(flag))
  {
    hide TagNumber, Lvt, IsContext, NumberOf, DecodeContents, DecodeLvtLen, StandardTag;
    if pos < |buf| {
      var b := buf[pos];
      TagParts(b);
      ZeroOne(TagNumber(b));
      ZeroOne(Lvt(b));
      if !IsContext(b) && 2 <= TagNumber(b) <= 12 {
        var r := DecodeLvtLen(buf, pos + 1, Lvt(b));
        if r.Ok? { KindOfContents(buf, r.pos, TagNumber(b), r.value); }
      }
    }
  }

  lemma ZeroOne(b: Byte)
    ensures b == 0 <==> NumberOf(b) == 0
    ensures b == 1 <==> NumberOf(b) == 1
  {
    assert (b as int) as Byte == b;
  }

  /** A decoded value of a sized type has this tag, and its contents behind it. */
  lemma SizedDecoded(buf: Bytes, pos: nat, end: nat, value: PropertyValue)
    requires IsSized(value) && pos < |buf|
    ensures var tag, r := TagByteOf(value), DecodeLvtLen(buf, pos + 1, Lvt(buf[pos]));
      DecodeApplicationValue(buf, pos) == Ok(value, end) <==>
        (!IsContext(buf[pos]) && TagNumber(buf[pos]) == tag && r.Ok?
        && DecodeContents(buf, r.pos, tag, r.value) == Ok(value, end))
  {
    hide TagNumber, Lvt, IsContext, NumberOf, DecodeContents, DecodeLvtLen, TagByteOf;
    var r := DecodeLvtLen(buf, pos + 1, Lvt(buf[pos]));
    if r.Ok? { KindOfContents(buf, r.pos, TagNumber(buf[pos]), r.value); }
  }

  lemma SizedExactly(buf: Bytes, pos: nat, end: nat, value: PropertyValue)
    requires IsSized(value)
    ensures DecodeApplicationValue(buf, pos) == Ok(value, end) <==> ApplicationAt(buf, pos, end, value)
  {
    hide TagNumber, Lvt, IsContext, NumberOf, DecodeContents, DecodeLvtLen, ContentsAt, Headed, StandardTag, TagByteOf,
      DecodeApplicationValue;
    var tag := TagByteOf(value);
    if pos < |buf| {
      var r := DecodeLvtLen(buf, pos + 1, Lvt(buf[pos]));
      SizedDecoded(buf, pos, end, value);
      LengthAt(buf, pos + 1, Lvt(buf[pos]));
      if r.Ok? {
        HeaderExactly(buf, pos, tag, false, r.pos, r.value);
        ContentsExactly(buf, r.pos, r.value, end, value);
      }
      forall from, length: nat | Headed(buf, pos, StandardTag(value), false, from, length)
        ensures r == Ok(length, from) && TagNumber(buf[pos]) == tag && !IsContext(buf[pos])
      {
        HeaderExactly(buf, pos, tag, false, from, length);
      }
    } else {
      NotHeaded(buf, pos, StandardTag(value), false);
      NothingDecoded(buf, pos);
    }
  }

  lemma NothingDecoded(buf: Bytes, pos: nat)
    requires |buf| <= pos
    ensures DecodeApplicationValue(buf, pos) == Err(DecodeError)
  {
  }

  /** The main result on values: on every buffer the general decoder returns a value exactly when the octets up to
      the end it gives are that value by the standard's tags and the program's rules for lengths. */
  lemma ValueExactly(buf: Bytes, pos: nat, end: nat, value: PropertyValue)
    ensures DecodeApplicationValue(buf, pos) == Ok(value, end) <==> ApplicationAt(buf, pos, end, value)
  {
    hide DecodeApplicationValue;
    if IsSized(value) {
      SizedExactly(buf, pos, end, value);
    } else if value.Null? || value.Boolean? {
      SmallValuesExactly(buf, pos, end, value.Boolean? && value.flag);
    } else {
      DecodedIsPrimitive(buf, pos);
    }
  }

  /** It fails with a decoding error on everything else, but for bit strings that count more unused bits than they can
      have, where the program stops. */
  lemma ValueFailsExactly(buf: Bytes, pos: nat)
    ensures var r := DecodeApplicationValue(buf, pos);
      !r.Ok? ==> r == Err(DecodeError) || r == Abort
    ensures DecodeApplicationValue(buf, pos) == Abort <==>
      exists from, length: nat | from == pos + 1 || from == pos + 2 ::
        Headed(buf, pos, 8, false, from, length) && 0 < length && from + length <= |buf|
        && NumberOf(buf[from]) > (if length == 1 then 0 else 8)
  {
    hide TagNumber, Lvt, IsContext, NumberOf, DecodeContents, DecodeLvtLen, Headed;
    if pos < |buf| {
      var r := DecodeLvtLen(buf, pos + 1, Lvt(buf[pos]));
      LengthAt(buf, pos + 1, Lvt(buf[pos]));
      ByteEight();
      if r.Ok? {
        HeaderExactly(buf, pos, 8, false, r.pos, r.value);
        ContentsFail(buf, r.pos, TagNumber(buf[pos]), r.value);
      }
      forall from, length: nat | Headed(buf, pos, 8, false, from, length)
        ensures r == Ok(length, from) && TagNumber(buf[pos]) == 8 && !IsContext(buf[pos])
      {
        HeaderExactly(buf, pos, 8, false, from, length);
      }
    } else {
      NotHeaded(buf, pos, 8, false);
    }
  }

  lemma ByteEight()
    ensures NumberOf(8) == 8
  {
  }

  lemma ContentsFail(buf: Bytes, from: nat, tag: Byte, length: nat)
    ensures var r := DecodeContents(buf, from, tag, length);
      r.Ok? || r == Err(DecodeError) || r == Abort
    ensures DecodeContents(buf, from, tag, length) == Abort <==>
      (tag == 8 && 0 < length && from + length <= |buf|
      && NumberOf(buf[from]) > (if length == 1 then 0 else 8))
  {
    hide Value, LowBits, UnpackObjectId, WeekdayFrom, NumberOf;
  }
}

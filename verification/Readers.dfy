/** Reading what the encoders wrote, with nothing but the program's own predicates and decoders. */
module Readers {
  import opened Machine
  import opened BigEndian
  import opened BitStrings
  import opened BacnetTypes
  import opened PropertyIds
  import opened Buffers
  import opened Tags
  import opened Asn1
  import opened Application
  import opened ValueRoundTrip
  import opened Asn1RoundTrip

  // ---- Context-tagged parts ------------------------------------------------------------

  lemma TagByte(buf: Bytes, pos: nat, number: Byte, lvt: Byte)
    requires number < 16 && lvt < 8 && At(buf, pos, [ContextTag(number, lvt)])
    ensures forall n: Byte :: HasContextTag(buf, pos, n) <==> n == number && lvt < 6
    ensures forall n: Byte :: IsOpening(buf, pos, n) <==> n == number && lvt == 6
    ensures forall n: Byte :: IsClosing(buf, pos, n) <==> n == number && lvt == 7
    ensures pos < |buf| && IsContext(buf[pos]) && TagNumber(buf[pos]) == number && Lvt(buf[pos]) == lvt
  {
    hide ContextTag, TagNumber, Lvt, IsContext;
    AtIndex(buf, pos, [ContextTag(number, lvt)], 0);
    ContextTagParts(number, lvt);
  }

  lemma CtxU32RoundTrip(buf: Bytes, pos: nat, number: Byte, v: U32)
    requires number < 16 && At(buf, pos, CtxU32Bytes(number, v))
    ensures DecodeCtxU32(buf, pos, number) == Ok(v, pos + |CtxU32Bytes(number, v)|)
    ensures forall n: Byte :: HasContextTag(buf, pos, n) <==> n == number
    ensures forall n: Byte :: !IsOpening(buf, pos, n) && !IsClosing(buf, pos, n)
  {
    hide ContextTag, ByteOf, NumberOf, Word, TagNumber, Lvt, IsContext, HasContextTag, IsOpening, IsClosing;
    var len := UintLength(v);
    AtConcat(buf, pos, [ContextTag(number, ByteOf(len))], UintBytes(v));
    SmallLvt(len);
    TagByte(buf, pos, number, ByteOf(len));
    ReadUintBytes(buf, pos + 1, v);
  }

  lemma CtxObjectIdRoundTrip(buf: Bytes, pos: nat, number: Byte, oid: ObjectId)
    requires number < 16 && At(buf, pos, CtxObjectIdBytes(number, oid))
    ensures |CtxObjectIdBytes(number, oid)| == 5
    ensures DecodeCtxObjectId(buf, pos, number) == Ok(UnpackObjectId(PackObjectId(oid)), pos + 5)
  {
    hide ContextTag, NumberOf, ByteOf, Word, TagNumber, Lvt, IsContext, PackObjectId, UnpackObjectId, ReadUint, Pow256;
    AtConcat(buf, pos, [ContextTag(number, 4)], Word(PackObjectId(oid), 4));
    TagByte(buf, pos, number, 4);
    ByteOfSmall(4);
    SmallLvt(4);
    UintFits(PackObjectId(oid));
    ReadWord(buf, pos + 1, PackObjectId(oid), 4);
  }

  lemma CtxPropertyIdRoundTrip(buf: Bytes, pos: nat, number: Byte, p: PropertyIdentifier)
    requires number < 16 && At(buf, pos, CtxU32Bytes(number, PropertyCode(p)))
    ensures DecodeCtxPropertyId(buf, pos, number)
      == Ok(PropertyFrom(PropertyCode(p)), pos + |CtxU32Bytes(number, PropertyCode(p))|)
    ensures forall n: Byte :: !IsOpening(buf, pos, n) && !IsClosing(buf, pos, n)
  {
    hide DecodeCtxU32, PropertyCode, PropertyFrom, CtxU32Bytes;
    CtxU32RoundTrip(buf, pos, number, PropertyCode(p));
  }

  /** An optional context-tagged number. */
  function OptionBytes(number: Byte, v: Option<U32>): Bytes {
    match v
    case None => []
    case Some(n) => CtxU32Bytes(number, n)
  }

  function DecodeOption(buf: Bytes, pos: nat, number: Byte): Parsed<Option<U32>> {
    if HasContextTag(buf, pos, number) then
      var (v, pos1) :- DecodeCtxU32(buf, pos, number);
      Ok(Some(v), pos1)
    else Ok(None, pos)
  }

  lemma OptionRoundTrip(buf: Bytes, pos: nat, number: Byte, v: Option<U32>)
    requires number < 16 && At(buf, pos, OptionBytes(number, v))
    requires v == None ==> !HasContextTag(buf, pos, number)
    ensures DecodeOption(buf, pos, number) == Ok(v, pos + |OptionBytes(number, v)|)
  {
    hide DecodeCtxU32, HasContextTag, CtxU32Bytes;
    if v.Some? {
      CtxU32RoundTrip(buf, pos, number, v.value);
    }
  }

  lemma TagInside(buf: Bytes, pos: nat, number: Byte)
    requires IsOpening(buf, pos, number) || IsClosing(buf, pos, number)
    ensures pos < |buf|
  {
  }

  // ---- Every decoder moves forward -------------------------------------------------------

  lemma CtxU32Advances(buf: Bytes, pos: nat, number: Byte)
    ensures var r := DecodeCtxU32(buf, pos, number); r.Ok? ==> pos < r.pos <= |buf|
  {
    hide NumberOf, TagNumber, Lvt, IsContext, Value;
  }

  lemma CtxObjectIdAdvances(buf: Bytes, pos: nat, number: Byte)
    ensures var r := DecodeCtxObjectId(buf, pos, number); r.Ok? ==> pos < r.pos <= |buf|
  {
    hide NumberOf, TagNumber, Lvt, IsContext, Value, UnpackObjectId;
  }

  lemma OptionAdvances(buf: Bytes, pos: nat, number: Byte)
    requires pos <= |buf|
    ensures var r := DecodeOption(buf, pos, number); r.Ok? ==> pos <= r.pos <= |buf|
  {
    hide DecodeCtxU32, HasContextTag;
    CtxU32Advances(buf, pos, number);
  }

  lemma ContentsAdvance(buf: Bytes, pos: nat, tag: Byte, len: nat)
    ensures var r := DecodeContents(buf, pos, tag, len); r.Ok? ==> pos <= r.pos <= |buf|
  {
    hide NumberOf, Value, LowBits, UnpackObjectId, WeekdayFrom;
  }

  lemma ApplicationValueAdvances(buf: Bytes, pos: nat)
    ensures var r := DecodeApplicationValue(buf, pos); r.Ok? ==> pos < r.pos <= |buf|
  {
    hide NumberOf, TagNumber, Lvt, IsContext, DecodeContents;
    if pos < |buf| {
      var r := DecodeLvtLen(buf, pos + 1, Lvt(buf[pos]));
      if r.Ok? {
        ContentsAdvance(buf, r.pos, TagNumber(buf[pos]), r.value);
      }
    }
  }

  // ---- One application-tagged value --------------------------------------------------------

  /** The general decoder; what turns out to be a bit string or a date is read again by the
      primitive's own decoder, which loses less. */
  function ReadValue(buf: Bytes, pos: nat): Parsed<PropertyValue> {
    match DecodeApplicationValue(buf, pos)
    case Ok(BitString(_), _) =>
      var (bits, used) :- DecodeApplicationBitString(if pos <= |buf| then buf[pos..] else []);
      Ok(BitString(bits), pos + used)
    case Ok(Date(_), _) =>
      var (date, used) :- DecodeApplicationDate(if pos <= |buf| then buf[pos..] else []);
      Ok(Date(date), pos + used)
    case r => r
  }

  /** A single value that can be read back. */
  predicate Readable(value: PropertyValue) {
    match value
    case Boolean(_) => false
    case Any(_) => false
    case Array(_) => false
    case List(_) => false
    case CharacterString(s) => |s| <= 254
    case OctetString(b) => |b| <= 255
    case BitString(b) => |b| <= 2032
    case ObjectIdValue(oid) => PlainObjectId(oid)
    case Date(d) => PlainYear(d.year)
    case _ => true
  }

  lemma ReadValueAdvances(buf: Bytes, pos: nat)
    ensures var r := ReadValue(buf, pos); r.Ok? ==> pos < r.pos <= |buf|
  {
    hide HighBits, DecodeApplicationValue, NumberOf, WeekdayFromByte, Value;
    ApplicationValueAdvances(buf, pos);
  }

  lemma AtTail(buf: Bytes, pos: nat, bytes: Bytes)
    requires At(buf, pos, bytes)
    ensures pos <= |buf| && At(buf[pos..], 0, bytes)
  {
    assert buf[pos..][0..|bytes|] == buf[pos..pos + |bytes|];
  }

  lemma ReadValueBack(buf: Bytes, pos: nat, value: PropertyValue)
    requires At(buf, pos, Encoding(value)) && Readable(value)
    ensures ReadValue(buf, pos) == Ok(value, pos + |Encoding(value)|)
  {
    hide DecodeApplicationValue, DecodeApplicationBitString, DecodeApplicationDate, At, BitStringBytes,
      PlainObjectId, PlainYear, LowBits, TailClear, ApplicationTag, YearByte, WeekdayFrom;
    match value
    case BitString(bits) =>
      BitStringOutcome(buf, pos, bits);
      AtTail(buf, pos, BitStringBytes(bits));
      BitStringRoundTrip(buf[pos..], bits);
    case Date(d) =>
      DateOutcome(buf, pos, d);
      AtTail(buf, pos, DateBytes(d));
      DateRoundTrip(buf[pos..], d);
    case _ =>
      DecodeExactly(buf, pos, value);
  }

  // ---- The values of a property ----------------------------------------------------------------

  /** Arrays and lists leave no trace of their nesting. */
  function Leaves(value: PropertyValue): seq<PropertyValue> {
    match value
    case Array(items) => LeavesOfAll(items)
    case List(items) => LeavesOfAll(items)
    case _ => [value]
  }

  function LeavesOfAll(items: seq<PropertyValue>): seq<PropertyValue> {
    if items == [] then [] else LeavesOfAll(items[..|items| - 1]) + Leaves(items[|items| - 1])
  }

  predicate AllReadable(value: PropertyValue) {
    forall leaf :: leaf in Leaves(value) ==> Readable(leaf)
  }

  /** Values one after another, up to a closing tag. */
  function ReadValues(buf: Bytes, pos: nat, number: Byte): Parsed<seq<PropertyValue>>
    decreases |buf| - pos
  {
    if IsClosing(buf, pos, number) then Ok([], pos)
    else
      ReadValueAdvances(buf, pos);
      var (value, pos1) :- ReadValue(buf, pos);
      var (rest, pos2) :- ReadValues(buf, pos1, number);
      Ok([value] + rest, pos2)
  }

  function Prepend<T>(items: seq<T>, r: Parsed<seq<T>>): Parsed<seq<T>> {
    match r
    case Ok(rest, pos) => Ok(items + rest, pos)
    case _ => r
  }

  lemma PrependTwice<T>(a: seq<T>, b: seq<T>, r: Parsed<seq<T>>)
    ensures Prepend(a, Prepend(b, r)) == Prepend(a + b, r)
    ensures Prepend([], r) == r
  {
    if r.Ok? {
      assert a + (b + r.value) == a + b + r.value;
      assert [] + r.value == r.value;
    }
  }

  lemma ValueIsNotClosing(buf: Bytes, pos: nat, number: Byte)
    requires DecodeApplicationValue(buf, pos).Ok?
    ensures !IsClosing(buf, pos, number)
  {
    hide IsContext, TagNumber, Lvt, DecodeContents;
  }

  lemma ReadLeaf(buf: Bytes, pos: nat, value: PropertyValue, number: Byte)
    requires At(buf, pos, Encoding(value)) && Readable(value)
    ensures ReadValues(buf, pos, number) == Prepend([value], ReadValues(buf, pos + |Encoding(value)|, number))
  {
    hide Encoding, DecodeApplicationValue, Readable, IsClosing, At, DecodeApplicationBitString, DecodeApplicationDate;
    ReadValueBack(buf, pos, value);
    ValueIsNotClosing(buf, pos, number);
  }

  /** Reading starts with the leaves of the value that stands there. */
  lemma {:induction false} ReadLeaves(buf: Bytes, pos: nat, value: PropertyValue, number: Byte)
    requires At(buf, pos, Encoding(value)) && AllReadable(value)
    ensures ReadValues(buf, pos, number) == Prepend(Leaves(value), ReadValues(buf, pos + |Encoding(value)|, number))
    decreases value
  {
    hide ReadValues, Prepend, Readable, At;
    if value.Array? || value.List? {
      ReadLeavesOfAll(buf, pos, value.items, number);
    } else {
      assert Leaves(value) == [value];
      ReadLeaf(buf, pos, value, number);
    }
  }

  lemma {:induction false} ReadLeavesOfAll(buf: Bytes, pos: nat, items: seq<PropertyValue>, number: Byte)
    requires At(buf, pos, EncodingOfAll(items))
    requires forall leaf :: leaf in LeavesOfAll(items) ==> Readable(leaf)
    ensures ReadValues(buf, pos, number)
      == Prepend(LeavesOfAll(items), ReadValues(buf, pos + |EncodingOfAll(items)|, number))
    decreases items
  {
    hide ReadValues, Prepend, Readable, At, Encoding, Leaves;
    if items == [] {
      PrependTwice([], [], ReadValues(buf, pos, number));
    } else {
      var n := |items| - 1;
      var first, last := EncodingOfAll(items[..n]), Encoding(items[n]);
      AtConcat(buf, pos, first, last);
      ReadLeavesOfAll(buf, pos, items[..n], number);
      ReadLeaves(buf, pos + |first|, items[n], number);
      PrependTwice(LeavesOfAll(items[..n]), Leaves(items[n]), ReadValues(buf, pos + |first| + |last|, number));
    }
  }

  /** A whole value between its tags: the leaves come back, and reading stops at the closing tag. */
  lemma ReadValuesBack(buf: Bytes, pos: nat, value: PropertyValue, number: Byte)
    requires At(buf, pos, Encoding(value)) && AllReadable(value)
    requires IsClosing(buf, pos + |Encoding(value)|, number)
    ensures ReadValues(buf, pos, number) == Ok(Leaves(value), pos + |Encoding(value)|)
  {
    hide Encoding, At, AllReadable, Leaves, ReadValues, IsClosing;
    ReadLeaves(buf, pos, value, number);
    ReadNothing(buf, pos + |Encoding(value)|, number);
    assert Leaves(value) + [] == Leaves(value);
  }

  lemma ReadNothing(buf: Bytes, pos: nat, number: Byte)
    requires IsClosing(buf, pos, number)
    ensures ReadValues(buf, pos, number) == Ok([], pos)
  {
    hide IsClosing, ReadValue;
  }

  lemma ReadValuesAdvances(buf: Bytes, pos: nat, number: Byte)
    requires pos <= |buf|
    ensures var r := ReadValues(buf, pos, number); r.Ok? ==> pos <= r.pos <= |buf| && IsClosing(buf, r.pos, number)
    decreases |buf| - pos
  {
    hide IsClosing, ReadValue;
    if !IsClosing(buf, pos, number) {
      ReadValueAdvances(buf, pos);
      var r := ReadValue(buf, pos);
      if r.Ok? {
        ReadValuesAdvances(buf, r.pos, number);
      }
    }
  }

  // ---- The same for the general decoder alone ---------------------------------------------------

  /** `count` values one after another. */
  function DecodeRun(buf: Bytes, pos: nat, count: nat): Parsed<seq<PropertyValue>> {
    if count == 0 then Ok([], pos)
    else
      var (init, pos1) :- DecodeRun(buf, pos, count - 1);
      var (last, pos2) :- DecodeApplicationValue(buf, pos1);
      Ok(init + [last], pos2)
  }

  lemma {:induction false} DecodeRunAppend(buf: Bytes, pos: nat, m: nat, n: nat)
    ensures DecodeRun(buf, pos, m + n) ==
      (var (first, pos1) :- DecodeRun(buf, pos, m);
       var (second, pos2) :- DecodeRun(buf, pos1, n);
       Ok(first + second, pos2))
  {
    hide DecodeApplicationValue;
    var r := DecodeRun(buf, pos, m);
    if n > 0 {
      DecodeRunAppend(buf, pos, m, n - 1);
      if r.Ok? {
        var s := DecodeRun(buf, r.pos, n - 1);
        if s.Ok? {
          var t := DecodeApplicationValue(buf, s.pos);
          if t.Ok? { assert r.value + s.value + [t.value] == r.value + (s.value + [t.value]); }
        }
      }
    } else if r.Ok? {
      assert r.value + [] == r.value;
    }
  }

  /** Repeated decoding of an encoded array or list gives its leaves, when each of them is decodable. */
  lemma {:induction false} DecodeLeaves(buf: Bytes, pos: nat, value: PropertyValue)
    requires At(buf, pos, Encoding(value))
    requires forall leaf :: leaf in Leaves(value) ==> Decodable(leaf)
    ensures DecodeRun(buf, pos, |Leaves(value)|) == Ok(Leaves(value), pos + |Encoding(value)|)
    decreases value
  {
    hide DecodeApplicationValue, Decodable, At;
    if value.Array? || value.List? {
      hide DecodeRun;
      DecodeLeavesOfAll(buf, pos, value.items);
    } else {
      assert Leaves(value) == [value];
      DecodeExactly(buf, pos, value);
      assert DecodeRun(buf, pos, 0) == Ok([], pos);
      assert [] + [value] == [value];
    }
  }

  lemma {:induction false} DecodeLeavesOfAll(buf: Bytes, pos: nat, items: seq<PropertyValue>)
    requires At(buf, pos, EncodingOfAll(items))
    requires forall leaf :: leaf in LeavesOfAll(items) ==> Decodable(leaf)
    ensures DecodeRun(buf, pos, |LeavesOfAll(items)|) == Ok(LeavesOfAll(items), pos + |EncodingOfAll(items)|)
    decreases items
  {
    hide DecodeApplicationValue, Decodable, At, Encoding, Leaves;
    if items != [] {
      hide DecodeRun;
      var n := |items| - 1;
      var first, last := EncodingOfAll(items[..n]), Encoding(items[n]);
      AtConcat(buf, pos, first, last);
      DecodeLeavesOfAll(buf, pos, items[..n]);
      DecodeLeaves(buf, pos + |first|, items[n]);
      DecodeRunAppend(buf, pos, |LeavesOfAll(items[..n])|, |Leaves(items[n])|);
    }
  }
}

/** What the decoders of `tags.rs` accept, on every buffer: octets are read as numbers, and the forms are those of
    section 20.2 of ASHRAE 135-2020 with the liberties the program takes. */
module WireGrammar {
  import opened Machine
  import opened BigEndian
  import opened BacnetTypes
  import opened PropertyIds
  import opened Tags
  import opened Readers

  // ---- The tag octet as a number --------------------------------------------------------------

  /** The first octet: tag number, class, and the length field. */
  predicate FirstOctet(b: Byte, number: nat, context: bool, field: nat) {
    number < 16 && field < 8 && NumberOf(b) == 16 * number + (if context then 8 else 0) + field
  }

  lemma TagParts(b: Byte)
    ensures NumberOf(b) == 16 * NumberOf(TagNumber(b)) + (if IsContext(b) then 8 else 0) + NumberOf(Lvt(b))
    ensures NumberOf(TagNumber(b)) < 16 && NumberOf(Lvt(b)) < 8
  {
    NibbleParts(b);
  }

  lemma NibbleParts(b: Byte)
    ensures (b as int) == 16 * (((b >> 4) & 0x0F) as int) + (if b & 0x08 != 0 then 8 else 0) + ((b & 0x07) as int)
    ensures (((b >> 4) & 0x0F) as int) < 16 && ((b & 0x07) as int) < 8
  {
  }

  /** The tag octet is what the program's bit tests say it is. */
  lemma FirstOctetExactly(b: Byte, number: Byte, context: bool, field: nat)
    requires number < 16
    ensures FirstOctet(b, NumberOf(number), context, field) <==>
      (TagNumber(b) == number && IsContext(b) == context && NumberOf(Lvt(b)) == field)
  {
    hide TagNumber, Lvt, IsContext, NumberOf;
    TagParts(b);
    SmallNumber(number);
    if field < 8 {
      PartsUnique(NumberOf(TagNumber(b)), IsContext(b), NumberOf(Lvt(b)), NumberOf(number), context, field);
    }
    if NumberOf(TagNumber(b)) == NumberOf(number) {
      NumberOfInjective(TagNumber(b), number);
    }
  }

  lemma PartsUnique(a: nat, c: bool, f: nat, a': nat, c': bool, f': nat)
    requires f < 8 && f' < 8
    ensures 16 * a + (if c then 8 else 0) + f == 16 * a' + (if c' then 8 else 0) + f' <==>
      (a == a' && c == c' && f == f')
  {
  }

  lemma SmallNumber(number: Byte)
    requires number < 16
    ensures NumberOf(number) < 16
  {
  }

  // ---- Tags and lengths ------------------------------------------------------------------------

  predicate OpeningAt(buf: Bytes, pos: nat, number: nat) {
    pos < |buf| && FirstOctet(buf[pos], number, true, 6)
  }

  predicate ClosingAt(buf: Bytes, pos: nat, number: nat) {
    pos < |buf| && FirstOctet(buf[pos], number, true, 7)
  }

  /** A tag of the context class that is neither opening nor closing. */
  predicate CtxTagAt(buf: Bytes, pos: nat, number: nat) {
    pos < |buf| && number < 16 && 16 * number + 8 <= NumberOf(buf[pos]) < 16 * number + 14
  }

  lemma TagTestsExactly(buf: Bytes, pos: nat, number: Byte)
    requires number < 16
    ensures IsOpening(buf, pos, number) <==> OpeningAt(buf, pos, NumberOf(number))
    ensures IsClosing(buf, pos, number) <==> ClosingAt(buf, pos, NumberOf(number))
    ensures HasContextTag(buf, pos, number) <==> CtxTagAt(buf, pos, NumberOf(number))
  {
    hide TagNumber, Lvt, IsContext, FirstOctet;
    SmallNumber(number);
    if pos < |buf| {
      FirstOctetExactly(buf[pos], number, true, 6);
      FirstOctetExactly(buf[pos], number, true, 7);
      FieldNumbers(Lvt(buf[pos]));
      CtxTagExactly(buf[pos], number);
    }
  }

  lemma FieldNumbers(field: Byte)
    ensures field == 5 <==> NumberOf(field) == 5
    ensures field == 6 <==> NumberOf(field) == 6
    ensures field == 7 <==> NumberOf(field) == 7
    ensures field < 5 <==> NumberOf(field) < 5
    ensures field < 6 <==> NumberOf(field) < 6
  {
    assert (field as int) as Byte == field;
  }

  lemma CtxTagExactly(b: Byte, number: Byte)
    requires number < 16
    ensures IsContext(b) && TagNumber(b) == number && Lvt(b) < 6 <==>
      16 * NumberOf(number) + 8 <= NumberOf(b) < 16 * NumberOf(number) + 14
  {
    hide TagNumber, Lvt, IsContext, NumberOf;
    FieldNumbers(Lvt(b));
    TagParts(b);
    SmallNumber(number);
    var f := NumberOf(b) - 16 * NumberOf(number) - 8;
    FirstOctetExactly(b, number, true, NumberOf(Lvt(b)));
    if 0 <= f < 6 {
      FirstOctetExactly(b, number, true, f);
    }
  }

  /** The octets behind a tag, from `from` on: the tag gives a length in its own field or in one octet more. */
  predicate Headed(buf: Bytes, pos: nat, number: nat, context: bool, from: nat, length: nat) {
    pos < |buf|
    && ((from == pos + 1 && length < 5 && FirstOctet(buf[pos], number, context, length))
      || (from == pos + 2 && from <= |buf| && FirstOctet(buf[pos], number, context, 5)
        && NumberOf(buf[pos + 1]) == length))
  }

  lemma HeaderExactly(buf: Bytes, pos: nat, number: Byte, context: bool, from: nat, length: nat)
    requires number < 16 && pos < |buf|
    ensures Headed(buf, pos, NumberOf(number), context, from, length) <==>
      (IsContext(buf[pos]) == context && TagNumber(buf[pos]) == number
      && DecodeLvtLen(buf, pos + 1, Lvt(buf[pos])) == Ok(length, from))
  {
    hide TagNumber, Lvt, IsContext, FirstOctet, NumberOf;
    FieldNumbers(Lvt(buf[pos]));
    FirstOctetExactly(buf[pos], number, context, length);
    FirstOctetExactly(buf[pos], number, context, 5);
  }

  // ---- Context-tagged parts ------------------------------------------------------------------------

  /** A number in any count of octets, of which the last four are kept. */
  ghost predicate CtxNumberAt(buf: Bytes, pos: nat, end: nat, number: nat, v: U32) {
    exists from | from == pos + 1 || from == pos + 2 ::
      from <= end <= |buf| && Headed(buf, pos, number, true, from, end - from)
      && v == Value(buf[from..end]) % 0x1_0000_0000
  }

  lemma LengthAt(buf: Bytes, pos: nat, field: Byte)
    ensures var r := DecodeLvtLen(buf, pos, field); r.Ok? || r == Err(DecodeError)
    ensures var r := DecodeLvtLen(buf, pos, field); r.Ok? ==> r.pos == pos || r.pos == pos + 1
  {
  }

  lemma CtxNumberExactly(buf: Bytes, pos: nat, number: Byte, v: U32, end: nat)
    requires number < 16
    ensures DecodeCtxU32(buf, pos, number) == Ok(v, end) <==> CtxNumberAt(buf, pos, end, NumberOf(number), v)
    ensures var r := DecodeCtxU32(buf, pos, number); r.Ok? || r == Err(DecodeError)
  {
    hide TagNumber, Lvt, IsContext, NumberOf, Value, DecodeLvtLen, Headed;
    if pos < |buf| {
      LengthAt(buf, pos + 1, Lvt(buf[pos]));
      if pos + 1 <= end {
        HeaderExactly(buf, pos, number, true, pos + 1, end - pos - 1);
      }
      if pos + 2 <= end {
        HeaderExactly(buf, pos, number, true, pos + 2, end - pos - 2);
      }
    } else {
      NotHeaded(buf, pos, NumberOf(number), true);
    }
  }

  lemma NotHeaded(buf: Bytes, pos: nat, number: nat, context: bool)
    requires |buf| <= pos
    ensures forall from: nat, length: nat :: !Headed(buf, pos, number, context, from, length)
  {
  }

  /** The object that 32 bits name: the type in the high ten bits if it is listed, otherwise a device, and the instance
      in the others. */
  predicate Names(oid: ObjectId, raw: nat) {
    var high := raw / 0x40_0000;
    oid.instance == raw % 0x40_0000 && oid.objectType == (if high in LISTED_TYPES then high else 8)
  }

  lemma UnpackExactly(raw: U32, oid: ObjectId)
    ensures UnpackObjectId(raw) == oid <==> Names(oid, raw)
  {
    ListedTypes(raw / 0x40_0000);
    hide ObjectTypeFrom;
  }

  ghost predicate CtxObjectAt(buf: Bytes, pos: nat, end: nat, number: nat, oid: ObjectId) {
    exists from | from == pos + 1 || from == pos + 2 ::
      from + 4 == end <= |buf| && Headed(buf, pos, number, true, from, 4) && Names(oid, Value(buf[from..end]))
  }

  lemma FourOctetValue(bytes: Bytes)
    requires |bytes| == 4
    ensures Value(bytes) < 0x1_0000_0000
  {
    hide Value;
    ValueBound(bytes);
    PowersOf256();
  }

  lemma CtxObjectExactly(buf: Bytes, pos: nat, number: Byte, oid: ObjectId, end: nat)
    requires number < 16
    ensures DecodeCtxObjectId(buf, pos, number) == Ok(oid, end) <==> CtxObjectAt(buf, pos, end, NumberOf(number), oid)
    ensures var r := DecodeCtxObjectId(buf, pos, number); r.Ok? || r == Err(DecodeError)
  {
    hide TagNumber, Lvt, IsContext, NumberOf, Value, DecodeLvtLen, Headed, UnpackObjectId, Names;
    if pos < |buf| {
      LengthAt(buf, pos + 1, Lvt(buf[pos]));
      HeaderExactly(buf, pos, number, true, pos + 1, 4);
      HeaderExactly(buf, pos, number, true, pos + 2, 4);
      if 4 <= end <= |buf| {
        FourOctetValue(buf[end - 4..end]);
        UnpackExactly(Value(buf[end - 4..end]) % 0x1_0000_0000, oid);
      }
    } else {
      NotHeaded(buf, pos, NumberOf(number), true);
    }
  }

  ghost predicate CtxPropertyAt(buf: Bytes, pos: nat, end: nat, number: nat, p: PropertyIdentifier) {
    exists v: U32 :: CtxNumberAt(buf, pos, end, number, v) && PropertyFrom(v) == p
  }

  lemma CtxPropertyExactly(buf: Bytes, pos: nat, number: Byte, p: PropertyIdentifier, end: nat)
    requires number < 16
    ensures DecodeCtxPropertyId(buf, pos, number) == Ok(p, end) <==>
      CtxPropertyAt(buf, pos, end, NumberOf(number), p)
    ensures var r := DecodeCtxPropertyId(buf, pos, number); r.Ok? || r == Err(DecodeError)
  {
    hide DecodeCtxU32, PropertyFrom, CtxNumberAt, NumberOf;
    forall v: U32
      ensures DecodeCtxU32(buf, pos, number) == Ok(v, end) <==> CtxNumberAt(buf, pos, end, NumberOf(number), v)
    {
      CtxNumberExactly(buf, pos, number, v, end);
    }
    CtxNumberExactly(buf, pos, number, 0, end);
  }

  /** An optional number is there exactly when its tag is. */
  ghost predicate OptionAt(buf: Bytes, pos: nat, end: nat, number: nat, v: Option<U32>) {
    match v
    case None => end == pos && !CtxTagAt(buf, pos, number)
    case Some(n) => CtxTagAt(buf, pos, number) && CtxNumberAt(buf, pos, end, number, n)
  }

  lemma OptionExactly(buf: Bytes, pos: nat, number: Byte, v: Option<U32>, end: nat)
    requires number < 16
    ensures DecodeOption(buf, pos, number) == Ok(v, end) <==> OptionAt(buf, pos, end, NumberOf(number), v)
    ensures var r := DecodeOption(buf, pos, number); r.Ok? || r == Err(DecodeError)
  {
    hide DecodeCtxU32, CtxNumberAt, NumberOf, CtxTagAt, HasContextTag;
    TagTestsExactly(buf, pos, number);
    CtxNumberExactly(buf, pos, number, if v.Some? then v.value else 0, end);
  }
}

/** Tags of section 20.2 of ASHRAE 135-2020: predicates, decoders and encoders. */
module Tags {
  import opened Machine
  import opened BigEndian
  import opened BacnetTypes
  import opened PropertyIds
  import opened Buffers
  import opened BitStrings

  // ---- The tag byte ---------------------------------------------------------------

  function TagNumber(b: Byte): Byte {
    (b >> 4) & 0x0F
  }

  predicate IsContext(b: Byte) {
    b & 0x08 != 0
  }

  function Lvt(b: Byte): Byte {
    b & 0x07
  }

  function ContextTag(number: Byte, lvt: Byte): Byte {
    (number << 4) | 0x08 | lvt
  }

  function ApplicationTag(number: Byte, lvt: Byte): Byte {
    (number << 4) | (lvt & 0x07)
  }

  lemma ContextTagParts(number: Byte, lvt: Byte)
    requires number < 16 && lvt < 8
    ensures var b := ContextTag(number, lvt); IsContext(b) && TagNumber(b) == number && Lvt(b) == lvt
  {
  }

  lemma ApplicationTagParts(number: Byte, lvt: Byte)
    requires number < 16 && lvt < 8
    ensures var b := ApplicationTag(number, lvt); !IsContext(b) && TagNumber(b) == number && Lvt(b) == lvt
  {
  }

  // ---- Predicates on a position -----------------------------------------------------

  predicate IsOpening(buf: Bytes, pos: nat, number: Byte) {
    pos < |buf| && IsContext(buf[pos]) && TagNumber(buf[pos]) == number && Lvt(buf[pos]) == 6
  }

  predicate IsClosing(buf: Bytes, pos: nat, number: Byte) {
    pos < |buf| && IsContext(buf[pos]) && TagNumber(buf[pos]) == number && Lvt(buf[pos]) == 7
  }

  predicate HasContextTag(buf: Bytes, pos: nat, number: Byte) {
    pos < |buf| && IsContext(buf[pos]) && TagNumber(buf[pos]) == number && Lvt(buf[pos]) < 6
  }

  // ---- Decoders ----------------------------------------------------------------------

  function DecodeLvtLen(buf: Bytes, pos: nat, lvt: Byte): Parsed<nat> {
    if lvt < 5 then Ok(NumberOf(lvt), pos)
    else if lvt == 5 then
      if pos < |buf| then Ok(NumberOf(buf[pos]), pos + 1) else Err(DecodeError)
    else Err(DecodeError)
  }

  /** Any number of bytes, of which the last four count. */
  function ReadUint(buf: Bytes, pos: nat, len: nat): Parsed<U32> {
    if |buf| < pos + len then Err(DecodeError)
    else Ok(Value(buf[pos..pos + len]) % 0x1_0000_0000, pos + len)
  }

  function DecodeCtxU32(buf: Bytes, pos: nat, expected: Byte): Parsed<U32> {
    if |buf| <= pos || !IsContext(buf[pos]) || TagNumber(buf[pos]) != expected then Err(DecodeError)
    else
      var (len, pos1) :- DecodeLvtLen(buf, pos + 1, Lvt(buf[pos]));
      ReadUint(buf, pos1, len)
  }

  function DecodeCtxBool(buf: Bytes, pos: nat, expected: Byte): Parsed<bool> {
    var (v, pos1) :- DecodeCtxU32(buf, pos, expected);
    Ok(v != 0, pos1)
  }

  /** The type and instance packed in 32 bits; a type that is not listed is read as a device. */
  function UnpackObjectId(raw: U32): ObjectId {
    ObjectId(match ObjectTypeFrom(raw / 0x40_0000) case Some(t) => t case None => DEVICE, raw % 0x40_0000)
  }

  function PackObjectId(oid: ObjectId): U32 {
    oid.objectType * 0x40_0000 + oid.instance % 0x40_0000
  }

  function DecodeCtxObjectId(buf: Bytes, pos: nat, expected: Byte): Parsed<ObjectId> {
    if |buf| <= pos || !IsContext(buf[pos]) || TagNumber(buf[pos]) != expected then Err(DecodeError)
    else
      var (len, pos1) :- DecodeLvtLen(buf, pos + 1, Lvt(buf[pos]));
      if len != 4 then Err(DecodeError)
      else
        var (raw, pos2) :- ReadUint(buf, pos1, 4);
        Ok(UnpackObjectId(raw), pos2)
  }

  function DecodeCtxPropertyId(buf: Bytes, pos: nat, expected: Byte): Parsed<PropertyIdentifier> {
    var (v, pos1) :- DecodeCtxU32(buf, pos, expected);
    Ok(PropertyFrom(v), pos1)
  }

  function WeekdayFrom(b: Byte): Weekday {
    match b
    case 1 => Monday
    case 2 => Tuesday
    case 3 => Wednesday
    case 4 => Thursday
    case 5 => Friday
    case 6 => Saturday
    case _ => Sunday
  }

  /** The bytes after a length, when there are that many. */
  function TakeBytes(buf: Bytes, pos: nat, len: nat): Parsed<Bytes> {
    if |buf| < pos + len then Err(DecodeError) else Ok(buf[pos..pos + len], pos + len)
  }

  /** The octets of a bit string, the first of which counts the unused bits. */
  function BitsOfOctets(octets: Bytes, pos: nat): Parsed<PropertyValue>
    requires octets != []
  {
    var unused, data := NumberOf(octets[0]), octets[1..];
    if |data| * 8 < unused || (data != [] && 8 < unused) then Abort
    else Ok(BitString(LowBits(data, unused)), pos)
  }

  function DecodeApplicationValue(buf: Bytes, pos: nat): Parsed<PropertyValue> {
    if |buf| <= pos || IsContext(buf[pos]) then Err(DecodeError)
    else
      var tag, lvt := TagNumber(buf[pos]), Lvt(buf[pos]);
      if tag == 0 then Ok(Null, pos + 1)
      else if tag == 1 then Ok(Boolean(lvt != 0), pos + 1)
      else if 12 < tag then Err(DecodeError)
      else
        var (len, pos1) :- DecodeLvtLen(buf, pos + 1, lvt);
        DecodeContents(buf, pos1, tag, len)
  }

  /** The value after a tag and a length; some types have a fixed size and ignore the length. */
  function DecodeContents(buf: Bytes, pos: nat, tag: Byte, len: nat): Parsed<PropertyValue> {
    match tag
    case 2 =>
      var (v, end) :- ReadUint(buf, pos, len);
      Ok(Unsigned(v), end)
    case 3 =>
      var (v, end) :- ReadUint(buf, pos, len);
      Ok(Integer(v), end)
    case 4 =>
      var (v, end) :- ReadUint(buf, pos, 4);
      Ok(Real(v), end)
    case 5 =>
      var (b, end) :- TakeBytes(buf, pos, 8);
      Ok(Double(Value(b) % 0x1_0000_0000_0000_0000), end)
    case 6 =>
      var (b, end) :- TakeBytes(buf, pos, len);
      Ok(OctetString(b), end)
    case 7 =>
      if len == 0 then Err(DecodeError)
      else
        var (b, end) :- TakeBytes(buf, pos, len);
        Ok(CharacterString(b[1..]), end)
    case 8 =>
      if len == 0 then Err(DecodeError)
      else
        var (b, end) :- TakeBytes(buf, pos, len);
        BitsOfOctets(b, end)
    case 9 =>
      var (v, end) :- ReadUint(buf, pos, len);
      Ok(Enumerated(v), end)
    case 10 =>
      var (b, end) :- TakeBytes(buf, pos, 4);
      Ok(Date(BacnetDate(NumberOf(b[0]) + 1900, NumberOf(b[1]), NumberOf(b[2]), WeekdayFrom(b[3]))), end)
    case 11 =>
      var (b, end) :- TakeBytes(buf, pos, 4);
      Ok(Time(BacnetTime(NumberOf(b[0]), NumberOf(b[1]), NumberOf(b[2]), NumberOf(b[3]))), end)
    case 12 =>
      var (raw, end) :- ReadUint(buf, pos, 4);
      Ok(ObjectIdValue(UnpackObjectId(raw)), end)
    case _ => Err(DecodeError)
  }

  // ---- Encoders ------------------------------------------------------------------------

  function CtxObjectIdBytes(number: Byte, oid: ObjectId): Bytes {
    [ContextTag(number, 4)] + Word(PackObjectId(oid), 4)
  }

  function CtxU32Bytes(number: Byte, v: U32): Bytes {
    [ContextTag(number, ByteOf(UintLength(v)))] + UintBytes(v)
  }

  function OpeningTag(number: Byte): Bytes {
    [ContextTag(number, 6)]
  }

  function ClosingTag(number: Byte): Bytes {
    [ContextTag(number, 7)]
  }

  method EncodeCtxObjectId(buf: BytesMut, number: Byte, oid: ObjectId)
    modifies buf
    ensures buf.data == old(buf.data) + CtxObjectIdBytes(number, oid)
  {
    buf.PutU8(ContextTag(number, 4));
    buf.ExtendFromSlice(Word(PackObjectId(oid), 4));
  }

  method EncodeCtxU32(buf: BytesMut, number: Byte, v: U32)
    modifies buf
    ensures buf.data == old(buf.data) + CtxU32Bytes(number, v)
  {
    var bytes := UintBytes(v);
    buf.PutU8(ContextTag(number, ByteOf(|bytes|)));
    buf.ExtendFromSlice(bytes);
  }

  method EncodeOpeningTag(buf: BytesMut, number: Byte)
    modifies buf
    ensures buf.data == old(buf.data) + OpeningTag(number)
  {
    buf.PutU8(ContextTag(number, 6));
  }

  method EncodeClosingTag(buf: BytesMut, number: Byte)
    modifies buf
    ensures buf.data == old(buf.data) + ClosingTag(number)
  {
    buf.PutU8(ContextTag(number, 7));
  }
}

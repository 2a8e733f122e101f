/** The encoding primitives and their own decoders, which work on a buffer from its start. */
module Asn1 {
  import opened Machine
  import opened BigEndian
  import opened BitStrings
  import opened BacnetTypes
  import opened Buffers
  import opened Tags

  // ---- Encoded forms ---------------------------------------------------------------

  function UnsignedBytes(v: U32): Bytes {
    [ApplicationTag(2, ByteOf(UintLength(v)))] + UintBytes(v)
  }

  function RealBytes(v: U32): Bytes {
    [ApplicationTag(4, 4)] + Word(v, 4)
  }

  function ObjectIdBytes(oid: ObjectId): Bytes {
    [ApplicationTag(12, 4)] + Word(PackObjectId(oid), 4)
  }

  function WeekdayCode(w: Weekday): Byte {
    match w
    case Monday => 1
    case Tuesday => 2
    case Wednesday => 3
    case Thursday => 4
    case Friday => 5
    case Saturday => 6
    case Sunday => 7
    case Unspecified => 255
  }

  /** Years since 1900, saturating below and cut to one byte above. */
  function YearByte(year: U16): U8 {
    Truncate8(if year < 1900 then 0 else year - 1900)
  }

  function DateBytes(d: BacnetDate): Bytes {
    [ApplicationTag(10, 4), ByteOf(YearByte(d.year)), ByteOf(d.month), ByteOf(d.day), WeekdayCode(d.weekday)]
  }

  /** A tag with its length: in the tag up to four, otherwise in a byte of its own. */
  function TagAndLength(number: Byte, len: nat): Bytes {
    if len <= 4 then [ApplicationTag(number, ByteOf(len))] else [ApplicationTag(number, 5), ByteOf(Truncate8(len))]
  }

  function BitStringBytes(bits: seq<bool>): Bytes {
    TagAndLength(8, 1 + |Pack(bits)|) + [ByteOf(Unused(|bits|))] + Pack(bits)
  }

  // ---- Encoders --------------------------------------------------------------------------

  method EncodeApplicationUnsigned(buf: BytesMut, v: U32)
    modifies buf
    ensures buf.data == old(buf.data) + UnsignedBytes(v)
  {
    var bytes := UintBytes(v);
    buf.ExtendFromSlice([ApplicationTag(2, ByteOf(|bytes|))]);
    buf.ExtendFromSlice(bytes);
  }

  method EncodeApplicationReal(buf: BytesMut, v: U32)
    modifies buf
    ensures buf.data == old(buf.data) + RealBytes(v)
  {
    buf.ExtendFromSlice([ApplicationTag(4, 4)]);
    buf.ExtendFromSlice(Word(v, 4));
  }

  method EncodeApplicationObjectId(buf: BytesMut, oid: ObjectId)
    modifies buf
    ensures buf.data == old(buf.data) + ObjectIdBytes(oid)
  {
    buf.ExtendFromSlice([ApplicationTag(12, 4)]);
    buf.ExtendFromSlice(Word(PackObjectId(oid), 4));
  }

  method EncodeApplicationDate(buf: BytesMut, date: BacnetDate)
    modifies buf
    ensures buf.data == old(buf.data) + DateBytes(date)
  {
    buf.ExtendFromSlice([ApplicationTag(10, 4), ByteOf(YearByte(date.year)), ByteOf(date.month), ByteOf(date.day),
                         WeekdayCode(date.weekday)]);
  }

  method EncodeApplicationBitString(buf: BytesMut, bits: seq<bool>)
    modifies buf
    ensures buf.data == old(buf.data) + BitStringBytes(bits)
  {
    hide Pack, PackOctet, HighBit, ByteOf, ApplicationTag, Unused;
    PackLength(bits);
    var unused := if bits == [] then 0 else (8 - |bits| % 8) % 8;
    assert unused == Unused(|bits|) by { UnusedValue(bits); }
    var byteCount := (|bits| + 7) / 8;
    var totalLen := 1 + byteCount;
    if totalLen <= 4 {
      buf.ExtendFromSlice([ApplicationTag(8, ByteOf(totalLen)), ByteOf(unused)]);
    } else {
      buf.ExtendFromSlice([ApplicationTag(8, 5), ByteOf(Truncate8(totalLen)), ByteOf(unused)]);
    }
    ghost var header := TagAndLength(8, totalLen) + [ByteOf(unused)];
    assert buf.data == old(buf.data) + header;
    EncodeBits(buf, bits);
    assert buf.data == old(buf.data) + (header + Pack(bits));
  }

  lemma UnusedValue(bits: seq<bool>)
    ensures Unused(|bits|) == if bits == [] then 0 else (8 - |bits| % 8) % 8
  {
  }

  /** The packing loop: a byte is written when its eighth bit is in, and a last one if bits are left over. */
  method EncodeBits(buf: BytesMut, bits: seq<bool>)
    modifies buf
    ensures buf.data == old(buf.data) + Pack(bits)
  {
    hide Pack, PackOctet, HighBit, Aligned;
    var byte: Byte := 0;
    ghost var done := 0;
    PackStart();
    for i := 0 to |bits|
      invariant done <= i < done + 8 && Aligned(done)
      invariant buf.data == old(buf.data) + Pack(bits[..done])
      invariant byte == PackOctet(bits[done..i])
    {
      PackNextBit(bits[done..i + 1]);
      LastOfSlice(bits, done, i);
      BitInOctet(i, done);
      if bits[i] {
        byte := byte | HighBit(i % 8);
      }
      if i % 8 == 7 {
        PackNextOctet(bits[..i + 1]);
        Slices(bits, done, i + 1);
        buf.ExtendFromSlice([byte]);
        byte := 0;
        done := i + 1;
        assert bits[done..i + 1] == [];
      }
    }
    BitInOctet(|bits|, done);
    if |bits| % 8 != 0 {
      PackLastOctet(bits, done);
      buf.ExtendFromSlice([byte]);
      assert bits[done..|bits|] == bits[done..];
    } else {
      assert bits[..done] == bits;
    }
  }

  /** The beginning of an octet. */
  predicate Aligned(done: nat) {
    done % 8 == 0
  }

  lemma BitInOctet(i: nat, done: nat)
    requires Aligned(done) && done <= i < done + 8
    ensures i % 8 == i - done && Aligned(done + 8)
  {
  }

  lemma Slices(bits: seq<bool>, done: nat, end: nat)
    requires done <= end <= |bits|
    ensures bits[..end][..done] == bits[..done] && bits[..end][done..] == bits[done..end]
  {
  }

  lemma LastOfSlice(bits: seq<bool>, done: nat, i: nat)
    requires done <= i < |bits|
    ensures bits[done..i + 1][..i - done] == bits[done..i] && bits[done..i + 1][i - done] == bits[i]
  {
  }

  lemma PackStart()
    ensures Pack([]) == [] && PackOctet([]) == 0 && Aligned(0)
  {
  }

  lemma PackNextBit(bits: seq<bool>)
    requires 0 < |bits| <= 8
    ensures var n := |bits| - 1;
      PackOctet(bits) == if bits[n] then PackOctet(bits[..n]) | HighBit(n) else PackOctet(bits[..n])
  {
    hide HighBit;
    var x := PackOctet(bits[..|bits| - 1]);
    assert x | 0 == x;
  }

  lemma PackNextOctet(bits: seq<bool>)
    requires |bits| >= 8 && Aligned(|bits| - 8)
    ensures Pack(bits) == Pack(bits[..|bits| - 8]) + [PackOctet(bits[|bits| - 8..])]
  {
    PackLastOctet(bits, |bits| - 8);
  }

  lemma PackLastOctet(bits: seq<bool>, done: nat)
    requires Aligned(done) && done < |bits| <= done + 8
    ensures Pack(bits) == Pack(bits[..done]) + [PackOctet(bits[done..])]
  {
    hide PackOctet;
    assert bits == bits[..done] + bits[done..];
    PackAppend(bits[..done], bits[done..]);
  }

  // ---- Decoders ----------------------------------------------------------------------------

  function DecodeApplicationUnsigned(buf: Bytes): Parsed<U32> {
    if buf == [] || buf[0] >> 4 != 2 then Err(DecodeError)
    else
      var len := NumberOf(buf[0] & 0x07);
      if |buf| < 1 + len then Err(DecodeError)
      else Ok(Value(buf[1..1 + len]) % 0x1_0000_0000, 1 + len)
  }

  function DecodeApplicationReal(buf: Bytes): Parsed<U32> {
    if |buf| < 5 || buf[0] >> 4 != 4 || buf[0] & 0x07 != 4 then Err(DecodeError)
    else Ok(Value(buf[1..5]) % 0x1_0000_0000, 5)
  }

  /** Unlike the decoder for tagged values in general, this one refuses types that are not listed. */
  function DecodeApplicationObjectId(buf: Bytes): Parsed<ObjectId> {
    if |buf| < 5 || buf[0] != 0xC4 then Err(DecodeError)
    else
      var raw: U32 := Value(buf[1..5]) % 0x1_0000_0000;
      match ObjectTypeFrom(raw / 0x40_0000)
      case None => Err(DecodeError)
      case Some(t) => Ok(ObjectId(t, raw % 0x40_0000), 5)
  }

  function WeekdayFromByte(b: Byte): Weekday {
    match b
    case 1 => Monday
    case 2 => Tuesday
    case 3 => Wednesday
    case 4 => Thursday
    case 5 => Friday
    case 6 => Saturday
    case 7 => Sunday
    case _ => Unspecified
  }

  function DecodeApplicationDate(buf: Bytes): Parsed<BacnetDate> {
    if |buf| < 5 || buf[0] >> 4 != 10 then Err(DecodeError)
    else
      Ok(BacnetDate(NumberOf(buf[1]) + 1900, NumberOf(buf[2]), NumberOf(buf[3]), WeekdayFromByte(buf[4])), 5)
  }

  function DecodeApplicationBitString(buf: Bytes): Parsed<seq<bool>> {
    if |buf| < 2 || buf[0] >> 4 != 8 then Err(DecodeError)
    else
      var lvt := buf[0] & 0x07;
      if lvt == 5 && |buf| < 3 then Err(DecodeError)
      else if 5 < lvt then Err(DecodeError)
      else
        var totalLen := if lvt <= 4 then NumberOf(lvt) else NumberOf(buf[1]);
        var start := if lvt <= 4 then 1 else 2;
        if |buf| < start + totalLen then Err(DecodeError)
        else if totalLen == 0 then Abort
        else
          var unused, data := NumberOf(buf[start]), buf[start + 1..start + totalLen];
          if data != [] && (|data| * 8 < unused || 8 < unused) then Abort
          else Ok(if data == [] then [] else HighBits(data, unused), start + totalLen)
  }
}

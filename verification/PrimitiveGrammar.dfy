/** Which octets the primitives' own decoders in `asn1.rs` take for which value, on every buffer. */
module PrimitiveGrammar {
  import opened Machine
  import opened BigEndian
  import opened BitStrings
  import opened BacnetTypes
  import opened Asn1
  import opened WireGrammar
  import opened ValueGrammar

  lemma Nibbles(b: Byte)
    ensures NumberOf(b >> 4) == NumberOf(b) / 16 && NumberOf(b & 0x07) == NumberOf(b) % 8
  {
    HighNibble(b);
    LowField(b);
  }

  lemma HighNibble(b: Byte)
    ensures (b >> 4) as int == (b as int) / 16
  {
  }

  lemma LowField(b: Byte)
    ensures (b & 0x07) as int == (b as int) % 8
  {
    assert b == (b & 0xF8) | (b & 0x07);
    assert (b as int) == ((b & 0xF8) as int) + ((b & 0x07) as int);
    assert ((b & 0xF8) as int) == 8 * ((b >> 3) as int);
  }

  lemma Same(a: Byte, b: Byte)
    ensures a == b <==> NumberOf(a) == NumberOf(b)
  {
    if NumberOf(a) == NumberOf(b) {
      NumberOfInjective(a, b);
    }
  }

  // ---- Numbers ---------------------------------------------------------------------------------

  /** Any length that fits three bits is taken, and the class bit is not looked at. */
  lemma UnsignedExactly(buf: Bytes, v: U32, end: nat)
    ensures DecodeApplicationUnsigned(buf) == Ok(v, end) <==>
      (buf != [] && NumberOf(buf[0]) / 16 == 2 && end == 1 + NumberOf(buf[0]) % 8 && end <= |buf|
      && v == Value(buf[1..end]) % 0x1_0000_0000)
    ensures var d := DecodeApplicationUnsigned(buf); d.Ok? || d == Err(DecodeError)
  {
    hide NumberOf, Value;
    if buf != [] {
      Nibbles(buf[0]);
      Same(buf[0] >> 4, 2);
      Two();
    }
  }

  lemma Two()
    ensures NumberOf(2) == 2 && NumberOf(4) == 4 && NumberOf(8) == 8 && NumberOf(10) == 10 && NumberOf(5) == 5
    ensures NumberOf(0xC4) == 196
  {
  }

  lemma RealExactly(buf: Bytes, v: U32, end: nat)
    ensures DecodeApplicationReal(buf) == Ok(v, end) <==>
      (|buf| >= 5 && NumberOf(buf[0]) / 16 == 4 && NumberOf(buf[0]) % 8 == 4 && end == 5 && v == Value(buf[1..5]))
    ensures var d := DecodeApplicationReal(buf); d.Ok? || d == Err(DecodeError)
  {
    hide NumberOf, Value;
    if |buf| >= 5 {
      Nibbles(buf[0]);
      Same(buf[0] >> 4, 4);
      Same(buf[0] & 0x07, 4);
      Two();
      FourOctetValue(buf[1..5]);
    }
  }

  /** Types that are not listed are refused. */
  lemma ObjectIdExactly(buf: Bytes, oid: ObjectId, end: nat)
    ensures DecodeApplicationObjectId(buf) == Ok(oid, end) <==>
      (|buf| >= 5 && NumberOf(buf[0]) == 196 && end == 5 && Value(buf[1..5]) / 0x40_0000 in LISTED_TYPES
      && Names(oid, Value(buf[1..5])))
    ensures var d := DecodeApplicationObjectId(buf); d.Ok? || d == Err(DecodeError)
  {
    hide NumberOf, Value, ObjectTypeFrom;
    if |buf| >= 5 {
      Same(buf[0], 0xC4);
      Two();
      FourOctetValue(buf[1..5]);
      ListedTypes(Value(buf[1..5]) / 0x40_0000);
    }
  }

  // ---- Dates ---------------------------------------------------------------------------------------

  /** Here every number but 1 to 7 is an unspecified weekday. */
  predicate AnyWeekdayNumbered(w: Weekday, n: nat) {
    w == [Unspecified, Monday, Tuesday, Wednesday, Thursday, Friday, Saturday, Sunday][if 1 <= n <= 7 then n else 0]
  }

  lemma AnyWeekdayExactly(b: Byte, w: Weekday)
    ensures WeekdayFromByte(b) == w <==> AnyWeekdayNumbered(w, NumberOf(b))
  {
    if b == 1 || b == 2 || b == 3 || b == 4 || b == 5 || b == 6 || b == 7 {
    } else {
      assert (b as int) as Byte == b;
    }
  }

  lemma DateExactly(buf: Bytes, d: BacnetDate, end: nat)
    ensures DecodeApplicationDate(buf) == Ok(d, end) <==>
      (|buf| >= 5 && NumberOf(buf[0]) / 16 == 10 && end == 5 && d.year == 1900 + NumberOf(buf[1])
      && d.month == NumberOf(buf[2]) && d.day == NumberOf(buf[3]) && AnyWeekdayNumbered(d.weekday, NumberOf(buf[4])))
    ensures var r := DecodeApplicationDate(buf); r.Ok? || r == Err(DecodeError)
  {
    hide NumberOf, WeekdayFromByte, AnyWeekdayNumbered;
    if |buf| >= 5 {
      Nibbles(buf[0]);
      Same(buf[0] >> 4, 10);
      Two();
      AnyWeekdayExactly(buf[4], d.weekday);
    }
  }

  // ---- Bit strings -----------------------------------------------------------------------------------

  /** The bits that this decoder reads: all of each octet but the last, and there the high ones. */
  predicate HighBitsOf(octets: Bytes, unused: nat, bits: seq<bool>) {
    |bits| == (if octets == [] then 0 else 8 * |octets| - unused) && (octets != [] ==> unused <= 8)
    && forall i :: 0 <= i < |bits| ==> bits[i] == BitOfOctet(octets[i / 8], i % 8)
  }

  lemma {:induction false} HighBitAt(data: Bytes, unused: nat, i: nat)
    requires unused <= 8 && data != [] && i < 8 * |data| - unused
    ensures |HighBits(data, unused)| == 8 * |data| - unused
    ensures i / 8 < |data| && HighBits(data, unused)[i] == BitOfOctet(data[i / 8], i % 8)
    decreases |data|
  {
    hide OctetBits, BitOfOctet;
    HighBitsLength(data, unused);
    OctetOf(i);
    if |data| == 1 {
      OctetBitAt(data[0], 0, 8 - unused, i);
    } else if i < 8 {
      OctetBitAt(data[0], 0, 8, i);
    } else {
      HighBitAt(data[1..], unused, i - 8);
    }
  }

  lemma HighBitsExactly(data: Bytes, unused: nat, bits: seq<bool>)
    requires data != [] && unused <= 8
    ensures HighBits(data, unused) == bits <==> HighBitsOf(data, unused, bits)
  {
    hide HighBits, BitOfOctet;
    HighBitsLength(data, unused);
    forall i | 0 <= i < 8 * |data| - unused
      ensures i / 8 < |data| && HighBits(data, unused)[i] == BitOfOctet(data[i / 8], i % 8)
    {
      HighBitAt(data, unused, i);
    }
    if HighBitsOf(data, unused, bits) {
      assert forall i :: 0 <= i < |bits| ==> bits[i] == HighBits(data, unused)[i];
    }
  }

  /** A length in the tag or in one octet more. */
  predicate BitsHeaded(buf: Bytes, from: nat, length: nat) {
    |buf| >= 2 && NumberOf(buf[0]) / 16 == 8 && from + length <= |buf|
    && ((from == 1 && length == NumberOf(buf[0]) % 8 <= 4)
      || (from == 2 && NumberOf(buf[0]) % 8 == 5 && |buf| >= 3 && NumberOf(buf[1]) == length))
  }

  lemma BitStringExactly(buf: Bytes, bits: seq<bool>, end: nat)
    ensures DecodeApplicationBitString(buf) == Ok(bits, end) <==>
      exists from | from == 1 || from == 2 ::
        from < end && BitsHeaded(buf, from, end - from) && HighBitsOf(buf[from + 1..end], NumberOf(buf[from]), bits)
    ensures var d := DecodeApplicationBitString(buf); !d.Ok? ==> d == Err(DecodeError) || d == Abort
    ensures DecodeApplicationBitString(buf) == Abort <==>
      exists from, length: nat | from == 1 || from == 2 ::
        BitsHeaded(buf, from, length) && (length == 0 || (length > 1 && NumberOf(buf[from]) > 8))
  {
    hide NumberOf, HighBits, HighBitsOf;
    if |buf| >= 2 {
      Nibbles(buf[0]);
      Same(buf[0] >> 4, 8);
      Two();
      var lvt := buf[0] & 0x07;
      FieldNumbers(lvt);
      var length: int := if lvt <= 4 then NumberOf(lvt) else NumberOf(buf[1]);
      var from := if lvt <= 4 then 1 else 2;
      if NumberOf(buf[0]) / 16 == 8 && NumberOf(buf[0]) % 8 <= 5 && from + length <= |buf| {
        if from == 1 || |buf| >= 3 {
          assert BitsHeaded(buf, from, length);
        }
        if length > 1 {
          var data, unused := buf[from + 1..from + length], NumberOf(buf[from]);
          assert |data| == length - 1;
          if unused <= 8 {
            HighBitsExactly(data, unused, bits);
          } else {
            TooManyUnused(data, unused, bits);
          }
        } else if length == 1 {
          assert buf[from + 1..from + 1] == [];
          NoBits(NumberOf(buf[from]), bits);
        }
      }
    }
  }

  lemma NoBits(unused: nat, bits: seq<bool>)
    ensures HighBitsOf([], unused, bits) <==> bits == []
  {
    hide BitOfOctet;
  }

  lemma TooManyUnused(data: Bytes, unused: nat, bits: seq<bool>)
    requires data != [] && unused > 8
    ensures !HighBitsOf(data, unused, bits)
  {
    hide BitOfOctet;
  }
}

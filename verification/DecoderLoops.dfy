/** The decoders that the program writes as loops over a moving position, proved to compute the
    decoding functions. */
module DecoderLoops {
  import opened Machine
  import opened BigEndian
  import opened BitStrings
  import opened BacnetTypes
  import opened Tags
  import opened Asn1

  lemma ShiftInByte(x: nat, b: U8)
    ensures (x % 0x1_0000_0000 * 0x100) % 0x1_0000_0000 + b == (x * 0x100 + b) % 0x1_0000_0000
  {
    var q, r := x / 0x1_0000_0000, x % 0x1_0000_0000;
    var t, s := r / 0x100_0000, r % 0x100_0000 * 0x100;
    assert r * 0x100 == t * 0x1_0000_0000 + s;
    assert x * 0x100 + b == (q * 0x100 + t) * 0x1_0000_0000 + (s + b);
    LowWord(t, s);
    LowWord(q * 0x100 + t, s + b);
  }

  lemma LowWord(high: nat, low: U32)
    ensures (high * 0x1_0000_0000 + low) % 0x1_0000_0000 == low
  {
  }

  /** Shift the bytes into a 32-bit word, dropping what overflows. */
  method AccumulateBytes(bytes: Bytes) returns (v: U32)
    ensures v == Value(bytes) % 0x1_0000_0000
  {
    hide NumberOf;
    v := 0;
    for i := 0 to |bytes|
      invariant v == Value(bytes[..i]) % 0x1_0000_0000
    {
      assert bytes[..i + 1][..i] == bytes[..i];
      ShiftInByte(Value(bytes[..i]), NumberOf(bytes[i]));
      v := (v * 0x100) % 0x1_0000_0000 + NumberOf(bytes[i]);
    }
    assert bytes[..|bytes|] == bytes;
  }

  method ReadUintAt(buf: Bytes, pos: nat, len: nat) returns (r: Parsed<U32>)
    ensures r == ReadUint(buf, pos, len)
  {
    if |buf| < pos + len {
      return Err(DecodeError);
    }
    var v := AccumulateBytes(buf[pos..pos + len]);
    r := Ok(v, pos + len);
  }

  lemma OctetBitsNext(b: Byte, first: nat, count: nat)
    requires first + count < 8
    ensures OctetBits(b, first, count + 1) == OctetBits(b, first, count) + [BitAt(b, first + count)]
  {
    hide BitAt;
  }

  lemma LowBitsNext(data: Bytes, i: nat, unused: nat)
    requires unused <= 8 && i < |data|
    ensures var n := if i + 1 == |data| then 8 - unused else 8;
      LowBits(data[i..], unused) == OctetBits(data[i], 8 - n, n) + LowBits(data[i + 1..], unused)
  {
    hide OctetBits;
    assert data[i..][1..] == data[i + 1..];
  }

  /** The bit loop of `decode_application_value`. */
  method CollectLowBits(data: Bytes, unused: nat) returns (bits: seq<bool>)
    requires unused <= 8 || data == []
    ensures bits == LowBits(data, unused)
  {
    hide BitAt, OctetBits, LowBits;
    bits := [];
    assert data[0..] == data;
    for i := 0 to |data|
      invariant bits + LowBits(data[i..], unused) == LowBits(data, unused)
    {
      var nbits := if i + 1 == |data| then 8 - unused else 8;
      ghost var before := bits;
      assert OctetBits(data[i], 8 - nbits, 0) == [];
      for bit := nbits downto 0
        invariant bits == before + OctetBits(data[i], 8 - nbits, nbits - bit)
      {
        OctetBitsNext(data[i], 8 - nbits, nbits - bit - 1);
        bits := bits + [BitAt(data[i], 7 - bit)];
      }
      LowBitsNext(data, i, unused);
      assert before + OctetBits(data[i], 8 - nbits, nbits) + LowBits(data[i + 1..], unused)
        == before + (OctetBits(data[i], 8 - nbits, nbits) + LowBits(data[i + 1..], unused));
    }
    assert data[|data|..] == [];
    assert LowBits([], unused) == [] by { NoLowBits(unused); }
  }

  lemma NoLowBits(unused: nat)
    ensures LowBits([], unused) == []
  {
  }

  /** The bit loop of `decode_application_bitstring`. */
  method CollectHighBits(data: Bytes, unused: nat) returns (bits: seq<bool>)
    requires unused <= 8
    ensures bits == HighBits(data, unused)
  {
    hide BitAt, OctetBits;
    bits := [];
    for i := 0 to |data|
      invariant bits + HighBits(data[i..], unused) == HighBits(data, unused)
    {
      var limit := if i == |data| - 1 then 8 - unused else 8;
      ghost var before := bits;
      assert OctetBits(data[i], 0, 0) == [];
      for j := 0 to limit
        invariant bits == before + OctetBits(data[i], 0, j)
      {
        OctetBitsNext(data[i], 0, j);
        bits := bits + [BitAt(data[i], j)];
      }
      assert data[i..][1..] == data[i + 1..];
      assert HighBits(data[i..], unused) == OctetBits(data[i], 0, limit) + HighBits(data[i + 1..], unused);
    }
  }

  method DecodeBitString(buf: Bytes) returns (r: Parsed<seq<bool>>)
    ensures r == DecodeApplicationBitString(buf)
  {
    hide NumberOf, HighBits;
    if |buf| < 2 || buf[0] >> 4 != 8 {
      return Err(DecodeError);
    }
    var lvt := buf[0] & 0x07;
    var totalLen: int;
    var start: int;
    if lvt <= 4 {
      totalLen, start := NumberOf(lvt), 1;
    } else if lvt == 5 {
      if |buf| < 3 {
        return Err(DecodeError);
      }
      totalLen, start := NumberOf(buf[1]), 2;
    } else {
      return Err(DecodeError);
    }
    if |buf| < start + totalLen {
      return Err(DecodeError);
    }
    if totalLen == 0 {
      return Abort;
    }
    var unused, data := NumberOf(buf[start]), buf[start + 1..start + totalLen];
    if data == [] {
      return Ok([], start + totalLen);
    }
    if |data| * 8 < unused || 8 < unused {
      return Abort;
    }
    var bits := CollectHighBits(data, unused);
    r := Ok(bits, start + totalLen);
  }

  method DecodeUnsigned(buf: Bytes) returns (r: Parsed<U32>)
    ensures r == DecodeApplicationUnsigned(buf)
  {
    hide NumberOf, Value;
    if buf == [] || buf[0] >> 4 != 2 {
      return Err(DecodeError);
    }
    var len: int := NumberOf(buf[0] & 0x07);
    if |buf| < 1 + len {
      return Err(DecodeError);
    }
    var v := AccumulateBytes(buf[1..1 + len]);
    r := Ok(v, 1 + len);
  }

  /** The value after a tag and a length; the integer and bit string types go through the loops above. */
  method DecodeContentsAt(buf: Bytes, pos: nat, tag: Byte, len: nat) returns (r: Parsed<PropertyValue>)
    ensures r == DecodeContents(buf, pos, tag, len)
  {
    hide NumberOf, Value, LowBits, WeekdayFrom, UnpackObjectId;
    if tag == 2 || tag == 3 || tag == 9 {
      var v := ReadUintAt(buf, pos, len);
      if v.Ok? {
        return Ok(
          if tag == 2 then Unsigned(v.value) else if tag == 3 then Integer(v.value) else Enumerated(v.value), v.pos);
      }
      return v.PropagateFailure();
    }
    if tag == 4 || tag == 12 {
      var v := ReadUintAt(buf, pos, 4);
      if v.Ok? {
        return Ok(if tag == 4 then Real(v.value) else ObjectIdValue(UnpackObjectId(v.value)), v.pos);
      }
      return v.PropagateFailure();
    }
    if tag == 8 {
      if len == 0 || |buf| < pos + len {
        return Err(DecodeError);
      }
      var octets := buf[pos..pos + len];
      var unused, data := NumberOf(octets[0]), octets[1..];
      if |data| * 8 < unused || (data != [] && 8 < unused) {
        return Abort;
      }
      var bits := CollectLowBits(data, unused);
      return Ok(BitString(bits), pos + len);
    }
    r := DecodeContents(buf, pos, tag, len);
  }
}

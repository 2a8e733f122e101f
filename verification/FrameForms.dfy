/** The form of a frame on the wire, octet by octet, and that decoding accepts this form and nothing else. */
module FrameForms {
  import opened Machine
  import opened MstpFrames
  import opened Crc
  import opened MstpCodec

  /** Frame types by their numbers (section 9.3 of ASHRAE 135-2020). */
  const TYPES_IN_ORDER: seq<FrameType> :=
    [Token, PollForMaster, ReplyToPollForMaster, TestRequest, TestResponse, BacnetDataExpectingReply,
     BacnetDataNotExpectingReply, ReplyPostponed]

  lemma TypeNumbers(t: FrameType)
    ensures NumberOf(FrameTypeCode(t)) < 8 && TYPES_IN_ORDER[NumberOf(FrameTypeCode(t))] == t
  {
  }

  lemma TypesFromNumbers(b: Byte)
    ensures FrameTypeFrom(b) == if NumberOf(b) < 8 then Some(TYPES_IN_ORDER[NumberOf(b)]) else None
  {
    if NumberOf(b) >= 8 {
      assert b >= 8;
    } else {
      assert b == 0 || b == 1 || b == 2 || b == 3 || b == 4 || b == 5 || b == 6 || b == 7;
    }
  }

  /** The octets of a frame: preamble, type, destination, source, length high and low, then the header checksum, the
      data, and the data checksum low octet first. */
  lemma FrameOctets(f: Frame)
    ensures var b, n := FrameBytes(f), |f.data| % 0x1_0000;
      |b| == (if f.data == [] then 8 else 10 + |f.data|)
      && b[0] == 0x55 && b[1] == 0xFF
      && NumberOf(b[2]) < 8 && TYPES_IN_ORDER[NumberOf(b[2])] == f.frameType
      && NumberOf(b[3]) == f.destination && NumberOf(b[4]) == f.source
      && NumberOf(b[5]) * 0x100 + NumberOf(b[6]) == n
      && b[7] == Crc8(b[2..7])
  {
    hide Crc8, Crc16, FrameTypeCode, LittleEndian;
    TypeNumbers(f.frameType);
    assert FrameBytes(f)[2..7] == HeaderBytes(f);
  }

  lemma ChecksumOctets(f: Frame)
    requires f.data != []
    ensures var b, n, crc := FrameBytes(f), |f.data|, Crc16(f.data);
      b[8..8 + n] == f.data && |b| == 10 + n && b[8 + n] == (crc & 0xFF) as Byte && b[9 + n] == (crc >> 8) as Byte
  {
    hide Crc8, Crc16, FrameTypeCode, ByteOf;
    assert FrameBytes(f)[8 + |f.data|..] == LittleEndian(Crc16(f.data));
  }

  lemma ByteOfNumber(b: Byte)
    ensures ByteOf(NumberOf(b)) == b
  {
    NumberOfInjective(ByteOf(NumberOf(b)), b);
  }

  lemma TypeBack(b: Byte)
    requires FrameTypeFrom(b).Some?
    ensures FrameTypeCode(FrameTypeFrom(b).value) == b
  {
  }

  lemma LengthOctets(high: U8, low: U8)
    ensures (high * 0x100 + low) / 0x100 == high && (high * 0x100 + low) % 0x100 == low
    ensures high * 0x100 + low < 0x1_0000
  {
  }

  lemma AcceptedHeader(buf: Bytes)
    requires Decode(buf).Ok?
    ensures |Decode(buf).frame.data| == NumberOf(buf[5]) * 0x100 + NumberOf(buf[6]) < 0x1_0000
    ensures HeaderBytes(Decode(buf).frame) == buf[2..7]
  {
    hide Crc8, Crc16, FrameTypeFrom, FrameTypeCode, ByteOf, NumberOf, LittleEndian;
    var f := Decode(buf).frame;
    LengthOctets(NumberOf(buf[5]), NumberOf(buf[6]));
    assert Truncate16(|f.data|) == |f.data|;
    TypeBack(buf[2]);
    ByteOfNumber(buf[3]);
    ByteOfNumber(buf[4]);
    ByteOfNumber(buf[5]);
    ByteOfNumber(buf[6]);
  }

  /** What decoding accepts begins with the encoding of what it returns. */
  lemma AcceptedIsEncoded(buf: Bytes)
    requires Decode(buf).Ok?
    ensures |Decode(buf).frame.data| < 0x1_0000 && FrameBytes(Decode(buf).frame) <= buf
  {
    hide Crc8, Crc16, FrameTypeFrom, ByteOf, NumberOf, LittleEndian, HeaderBytes;
    var f := Decode(buf).frame;
    var n := |f.data|;
    AcceptedHeader(buf);
    assert Prefix(f) == buf[..8];
    if n > 0 {
      assert buf[..10 + n] == buf[..8] + (buf[8..8 + n] + buf[8 + n..10 + n]);
    }
  }

  /** The exact condition: decoding returns a frame just when the buffer begins with the frame's encoding and the
      frame has at most 65535 data octets. */
  lemma DecodesExactlyEncodings(buf: Bytes, f: Frame)
    ensures Decode(buf) == Ok(f) <==> |f.data| < 0x1_0000 && FrameBytes(f) <= buf
  {
    hide FrameBytes, Decode;
    if Decode(buf) == Ok(f) {
      AcceptedIsEncoded(buf);
    }
    if |f.data| < 0x1_0000 && FrameBytes(f) <= buf {
      assert buf == FrameBytes(f) + buf[|FrameBytes(f)|..];
      RoundTrip(f, buf[|FrameBytes(f)|..]);
    }
  }

  /** A frame cut off anywhere is waited for, not refused. */
  lemma CutOffIsIncomplete(f: Frame, k: nat)
    requires |f.data| < 0x1_0000 && k < |FrameBytes(f)|
    ensures Decode(FrameBytes(f)[..k]) == Err(Incomplete)
  {
    hide Crc8, Crc16, LittleEndian, FrameTypeFrom, FrameTypeCode;
    if k >= 8 {
      assert FrameBytes(f)[..k] == Prefix(f) + FrameBytes(f)[8..k];
      DecodeAfterPrefix(f, FrameBytes(f)[8..k]);
    }
  }
}

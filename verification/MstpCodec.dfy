/** MS/TP frames on the wire: encoding, decoding, and which corruptions decoding rejects. */
module MstpCodec {
  import opened Machine
  import opened MstpFrames
  import opened Crc

  const MSTP_PREAMBLE_55: Byte := 0x55
  const MSTP_PREAMBLE_FF: Byte := 0xFF

  datatype DecodeError =
    | BadPreamble
    | Incomplete
    | BadHeaderCrc
    | BadDataCrc
    | UnknownFrameType(code: Byte)

  datatype Decoded = Ok(frame: Frame) | Err(error: DecodeError)

  function FrameTypeCode(t: FrameType): Byte {
    match t
    case Token => 0x00
    case PollForMaster => 0x01
    case ReplyToPollForMaster => 0x02
    case TestRequest => 0x03
    case TestResponse => 0x04
    case BacnetDataExpectingReply => 0x05
    case BacnetDataNotExpectingReply => 0x06
    case ReplyPostponed => 0x07
  }

  function FrameTypeFrom(code: Byte): Option<FrameType> {
    match code
    case 0x00 => Some(Token)
    case 0x01 => Some(PollForMaster)
    case 0x02 => Some(ReplyToPollForMaster)
    case 0x03 => Some(TestRequest)
    case 0x04 => Some(TestResponse)
    case 0x05 => Some(BacnetDataExpectingReply)
    case 0x06 => Some(BacnetDataNotExpectingReply)
    case 0x07 => Some(ReplyPostponed)
    case _ => None
  }

  /** The five header bytes that the header checksum covers. */
  function HeaderBytes(f: Frame): (h: Bytes)
    ensures |h| == 5
  {
    var len := Truncate16(|f.data|);
    [FrameTypeCode(f.frameType), ByteOf(f.destination), ByteOf(f.source), ByteOf(len / 0x100), ByteOf(len % 0x100)]
  }

  function LittleEndian(crc: bv16): (b: Bytes)
    ensures |b| == 2
  {
    [(crc & 0xFF) as Byte, (crc >> 8) as Byte]
  }

  function Prefix(f: Frame): (p: Bytes)
    ensures |p| == 8
  {
    [MSTP_PREAMBLE_55, MSTP_PREAMBLE_FF] + HeaderBytes(f) + [Crc8(HeaderBytes(f))]
  }

  function FrameBytes(f: Frame): Bytes {
    Prefix(f) + if f.data == [] then [] else f.data + LittleEndian(Crc16(f.data))
  }

  method Encode(f: Frame) returns (buf: Bytes)
    ensures buf == FrameBytes(f)
  {
    buf := [MSTP_PREAMBLE_55];
    buf := buf + [MSTP_PREAMBLE_FF];
    buf := buf + [FrameTypeCode(f.frameType)];
    buf := buf + [ByteOf(f.destination)];
    buf := buf + [ByteOf(f.source)];
    var dataLen := Truncate16(|f.data|);
    buf := buf + [ByteOf(dataLen / 0x100), ByteOf(dataLen % 0x100)];
    assert buf == [MSTP_PREAMBLE_55, MSTP_PREAMBLE_FF] + HeaderBytes(f);
    assert buf[2..7] == HeaderBytes(f);
    var headerCrc := ComputeCrc8(buf[2..7]);
    buf := buf + [headerCrc];
    assert buf == Prefix(f);
    if f.data != [] {
      buf := buf + f.data;
      var dataCrc := ComputeCrc16(f.data);
      buf := buf + LittleEndian(dataCrc);
      assert buf == Prefix(f) + (f.data + LittleEndian(Crc16(f.data)));
    }
  }

  function Decode(buf: Bytes): Decoded {
    if |buf| < 2 then Err(Incomplete)
    else if buf[0] != MSTP_PREAMBLE_55 || buf[1] != MSTP_PREAMBLE_FF then Err(BadPreamble)
    else if |buf| < 8 then Err(Incomplete)
    else
      match FrameTypeFrom(buf[2])
      case None => Err(UnknownFrameType(buf[2]))
      case Some(frameType) =>
        var dataLen := NumberOf(buf[5]) * 0x100 + NumberOf(buf[6]);
        if buf[7] != Crc8(buf[2..7]) then Err(BadHeaderCrc)
        else if |buf| < 8 + dataLen + (if dataLen > 0 then 2 else 0) then Err(Incomplete)
        else
          var data := buf[8..8 + dataLen];
          if dataLen > 0 && buf[8 + dataLen..10 + dataLen] != LittleEndian(Crc16(data)) then Err(BadDataCrc)
          else Ok(Frame(frameType, NumberOf(buf[3]), NumberOf(buf[4]), data))
  }

  // ---- Round trip ----------------------------------------------------------------

  lemma FrameTypeRoundTrip(t: FrameType)
    ensures FrameTypeFrom(FrameTypeCode(t)) == Some(t)
  {
  }

  lemma LittleEndianInjective(x: bv16, y: bv16)
    requires LittleEndian(x) == LittleEndian(y)
    ensures x == y
  {
    var a, b := LittleEndian(x), LittleEndian(y);
    assert a[0] == b[0] && a[1] == b[1];
  }

  /** What decoding makes of a good prefix followed by anything. */
  lemma DecodeAfterPrefix(f: Frame, rest: Bytes)
    ensures var n := Truncate16(|f.data|);
      Decode(Prefix(f) + rest) ==
        if |rest| < n + (if n > 0 then 2 else 0) then Err(Incomplete)
        else if n > 0 && rest[n..n + 2] != LittleEndian(Crc16(rest[..n])) then Err(BadDataCrc)
        else Ok(f.(data := rest[..n]))
  {
    hide Crc8, Crc16, LittleEndian, FrameTypeFrom, FrameTypeCode, ByteOf, NumberOf;
    var buf := Prefix(f) + rest;
    var n: int := Truncate16(|f.data|);
    assert buf[2..7] == HeaderBytes(f);
    FrameTypeRoundTrip(f.frameType);
    assert NumberOf(buf[3]) == f.destination && NumberOf(buf[4]) == f.source;
    assert NumberOf(buf[5]) == n / 0x100 && NumberOf(buf[6]) == n % 0x100;
    assert buf[7] == Crc8(HeaderBytes(f));
    if |rest| >= n {
      assert buf[8..8 + n] == rest[..n];
    }
    if |rest| >= n + 2 {
      assert buf[8 + n..10 + n] == rest[n..n + 2];
    }
  }

  /** A frame of at most 65535 data bytes, followed by anything, decodes to itself; a longer one never does. */
  lemma RoundTrip(f: Frame, suffix: Bytes)
    ensures Decode(FrameBytes(f) + suffix) == Ok(f) <==> |f.data| < 0x1_0000
  {
    hide Crc16, Prefix, Decode;
    var body := if f.data == [] then [] else f.data + LittleEndian(Crc16(f.data));
    var n := Truncate16(|f.data|);
    assert FrameBytes(f) + suffix == Prefix(f) + (body + suffix);
    DecodeAfterPrefix(f, body + suffix);
    if |f.data| < 0x1_0000 {
      assert n == |f.data|;
      assert (body + suffix)[..n] == f.data;
      if n > 0 {
        assert (body + suffix)[n..n + 2] == LittleEndian(Crc16(f.data));
      }
    } else {
      assert |(body + suffix)[..n]| < |f.data|;
    }
  }

  // ---- Corrupted frames ---------------------------------------------------------------

  /** Changing any one of the first eight bytes makes decoding fail, and names the error. */
  lemma PrefixCorruptionDetected(f: Frame, j: nat, b: Byte, suffix: Bytes)
    requires j < 8 && b != FrameBytes(f)[j]
    ensures Decode(FrameBytes(f)[j := b] + suffix) == Err(
      if j < 2 then BadPreamble
      else if j == 2 && FrameTypeFrom(b) == None then UnknownFrameType(b)
      else BadHeaderCrc)
  {
    hide Crc8, Crc16, FrameTypeFrom, FrameTypeCode;
    var good, bad := FrameBytes(f), FrameBytes(f)[j := b] + suffix;
    assert good[..8] == Prefix(f);
    assert good[2..7] == HeaderBytes(f);
    FrameTypeRoundTrip(f.frameType);
    if 2 <= j < 7 {
      assert bad[2..7] == HeaderBytes(f)[j - 2 := b];
      Crc8OneByte(HeaderBytes(f), bad[2..7], j - 2);
    } else if j == 7 {
      assert bad[2..7] == HeaderBytes(f);
    }
  }
}

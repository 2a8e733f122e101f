/** Corruption anywhere in the data and the checksum behind it. */
module FrameCheck {
  import opened Machine
  import opened MstpFrames
  import opened Crc
  import opened MstpCodec

  /** What the data checksum travels with. */
  function Payload(f: Frame): Bytes {
    f.data + LittleEndian(Crc16(f.data))
  }

  lemma OwnBytesCancel(x: bv16)
    ensures EightShifts(Xor16(x, LittleEndian(x)[0] as bv16)) == LittleEndian(x)[1] as bv16
  {
  }

  lemma Xor16Self(x: bv16)
    ensures Xor16(x, x) == 0
  {
    BitLaws.Zero16(x, x);
  }

  lemma TwoBytesFed(s: bv16, b: Bytes)
    requires |b| == 2
    ensures Register16(s, b) == Feed16(Feed16(s, b[0]), b[1])
  {
    hide Feed16;
    assert b[..1][..0] == [];
    assert Register16(s, b[..1]) == Feed16(s, b[0]);
  }

  /** A register that is fed its own two bytes is cleared. */
  lemma OwnBytesClear(x: bv16)
    ensures Register16(x, LittleEndian(x)) == 0
  {
    hide Shifts16, EightShifts, Xor16, LittleEndian, Register16;
    var b := LittleEndian(x);
    TwoBytesFed(x, b);
    EightShiftsUnfolded(Xor16(x, b[0] as bv16));
    OwnBytesCancel(x);
    Xor16Self(b[1] as bv16);
    ZeroShifts(8);
  }

  /** And by no other two bytes. */
  lemma ClearedByOwnBytes(d: Bytes, x: bv16)
    ensures Register16(0, d + LittleEndian(x)) == 0 <==> Register16(0, d) == x
  {
    hide Register16, LittleEndian;
    Register16Append(0, d, LittleEndian(x));
    OwnBytesClear(x);
    if Register16(0, d + LittleEndian(x)) == 0 {
      Register16Injective(Register16(0, d), x, LittleEndian(x));
    }
  }

  lemma LittleEndianXor(x: bv16, y: bv16)
    ensures XorBytes(LittleEndian(x), LittleEndian(y)) == LittleEndian(Xor16(x, y))
  {
    LittleEndianBytesXor(x, y);
    hide LittleEndian, Xor8, Xor16;
    var a, b, c := LittleEndian(x), LittleEndian(y), LittleEndian(Xor16(x, y));
    assert XorBytes(a, b)[0] == c[0] && XorBytes(a, b)[1] == c[1];
  }

  lemma LittleEndianBytesXor(x: bv16, y: bv16)
    ensures Xor8(LittleEndian(x)[0], LittleEndian(y)[0]) == LittleEndian(Xor16(x, y))[0]
    ensures Xor8(LittleEndian(x)[1], LittleEndian(y)[1]) == LittleEndian(Xor16(x, y))[1]
  {
  }

  lemma XorBytesAppend(a: Bytes, b: Bytes, c: Bytes, d: Bytes)
    requires |a| == |b| && |c| == |d|
    ensures XorBytes(a + c, b + d) == XorBytes(a, b) + XorBytes(c, d)
  {
    hide Xor8;
  }

  lemma ComplementXor(x: bv16, y: bv16)
    ensures Xor16(Complement16(x), Complement16(y)) == Xor16(x, y)
  {
    BitLaws.Complement16(x, y);
  }

  /** Checksums differ by the register of the difference. */
  lemma Crc16Xor(a: Bytes, b: Bytes)
    requires |a| == |b|
    ensures Xor16(Crc16(a), Crc16(b)) == Register16(0, XorBytes(a, b))
  {
    hide Register16, Xor16, Complement16;
    Xor16Self(0xFFFF);
    Register16Xor(0xFFFF, 0xFFFF, a, b);
    ComplementXor(Register16(0xFFFF, a), Register16(0xFFFF, b));
  }

  lemma Xor16Same(x: bv16, y: bv16, z: bv16)
    ensures Xor16(x, y) == Xor16(x, z) <==> y == z
  {
    BitLaws.Cancel16(x, y, z);
  }

  /** A checksum behind other data fits them exactly when the whole difference leaves a zero register. */
  lemma FitsExactly(a: Bytes, b: Bytes, crc: bv16)
    requires |a| == |b|
    ensures crc == Crc16(b)
      <==> Register16(0, XorBytes(a + LittleEndian(Crc16(a)), b + LittleEndian(crc))) == 0
  {
    hide Register16, Xor16, Crc16, LittleEndian, XorBytes;
    XorBytesAppend(a, b, LittleEndian(Crc16(a)), LittleEndian(crc));
    LittleEndianXor(Crc16(a), crc);
    ClearedByOwnBytes(XorBytes(a, b), Xor16(Crc16(a), crc));
    Crc16Xor(a, b);
    Xor16Same(Crc16(a), crc, Crc16(b));
  }

  function WordOf(low: Byte, high: Byte): bv16 {
    (low as bv16) | ((high as bv16) << 8)
  }

  lemma AnyTwoBytes(low: Byte, high: Byte)
    ensures LittleEndian(WordOf(low, high)) == [low, high]
  {
  }

  /** The exact condition: a payload of the right length that took the place of a frame's own, data and checksum
      together, is accepted just when the difference leaves a zero register, and otherwise refused. */
  lemma AcceptedExactly(f: Frame, payload: Bytes, suffix: Bytes)
    requires 0 < |f.data| < 0x1_0000 && |payload| == |Payload(f)|
    ensures Decode(Prefix(f) + payload + suffix) ==
      if Register16(0, XorBytes(Payload(f), payload)) == 0 then Ok(f.(data := payload[..|f.data|])) else Err(BadDataCrc)
  {
    hide Crc16, Prefix, Decode, LittleEndian, Register16, XorBytes, WordOf;
    var n := |f.data|;
    var data, low, high := payload[..n], payload[n], payload[n + 1];
    var crc := WordOf(low, high);
    AnyTwoBytes(low, high);
    assert payload == data + LittleEndian(crc);
    var rest := payload + suffix;
    assert Prefix(f) + payload + suffix == Prefix(f) + rest;
    DecodeAfterPrefix(f, rest);
    assert Truncate16(n) == n;
    assert rest[..n] == data && rest[n..n + 2] == LittleEndian(crc);
    if LittleEndian(crc) == LittleEndian(Crc16(data)) {
      LittleEndianInjective(crc, Crc16(data));
    }
    FitsExactly(f.data, data, crc);
  }

  /** One burst of up to sixteen bits, or any odd number of flipped bits, anywhere in data and checksum together, is
      refused. */
  lemma PayloadErrorsDetected(f: Frame, payload: Bytes, suffix: Bytes, p: nat, k: bv32, e: bv32)
    requires 0 < |f.data| < 0x1_0000 && |payload| == |Payload(f)|
    requires IsBurst(XorBytes(Payload(f), payload), p, k, e) || BitErrors(Payload(f), payload) % 2 == 1
    ensures Decode(Prefix(f) + payload + suffix) == Err(BadDataCrc)
  {
    hide Crc16, Decode, Prefix, Payload, IsBurst, Register16, XorBytes, OnesBelow;
    var diff := XorBytes(Payload(f), payload);
    if IsBurst(diff, p, k, e) {
      BurstLeavesRegister(diff, p, k, e);
    } else {
      NoOnes(16);
      RegisterParity(Payload(f), payload);
    }
    AcceptedExactly(f, payload, suffix);
  }
}

/** Corruption anywhere in the header and the checksum behind it. */
module HeaderCheck {
  import opened Machine
  import opened MstpFrames
  import opened Crc
  import opened MstpCodec

  // ---- Linearity -----------------------------------------------------------------------------

  lemma Shift8Product(x: bv8)
    ensures Shift8(x) == (x >> 1) ^ (0xE0 * (x & 1))
  {
    if x & 1 != 0 {
      assert x & 1 == 1;
    }
  }

  lemma Product8Xor(x: bv8, y: bv8)
    ensures ((x ^ y) >> 1) ^ (0xE0 * ((x ^ y) & 1))
      == ((x >> 1) ^ (0xE0 * (x & 1))) ^ ((y >> 1) ^ (0xE0 * (y & 1)))
  {
  }

  lemma Shift8Xor(x: bv8, y: bv8)
    ensures Shift8(Xor8(x, y)) == Xor8(Shift8(x), Shift8(y))
  {
    hide Shift8;
    Shift8Product(x);
    Shift8Product(y);
    Shift8Product(x ^ y);
    Product8Xor(x, y);
  }

  lemma {:induction false} Shifts8Xor(x: bv8, y: bv8, k: nat)
    ensures Shifts8(Xor8(x, y), k) == Xor8(Shifts8(x, k), Shifts8(y, k))
  {
    hide Shift8, Xor8;
    if k > 0 {
      Shifts8Xor(x, y, k - 1);
      Shift8Xor(Shifts8(x, k - 1), Shifts8(y, k - 1));
    }
  }

  lemma Xor8Shuffle(s: bv8, t: bv8, a: bv8, b: bv8)
    ensures Xor8(Xor8(s, t), Xor8(a, b)) == Xor8(Xor8(s, a), Xor8(t, b))
  {
    hide Xor8;
    Xor8OfXors(s, t, a, b);
    Xor8OfXors(s, a, t, b);
    BitLaws.Shuffle8(s, t, a, b);
  }

  lemma Xor8OfXors(s: bv8, t: bv8, a: bv8, b: bv8)
    ensures Xor8(Xor8(s, t), Xor8(a, b)) == (s ^ t) ^ (a ^ b)
  {
    hide Xor8;
    Xor8Is(s, t);
    Xor8Is(a, b);
    Xor8Is(Xor8(s, t), Xor8(a, b));
  }

  lemma Xor8Is(x: bv8, y: bv8)
    ensures Xor8(x, y) == x ^ y
  {
  }

  lemma Feed8Xor(s: bv8, t: bv8, a: Byte, b: Byte)
    ensures Feed8(Xor8(s, t), Xor8(a, b)) == Xor8(Feed8(s, a), Feed8(t, b))
  {
    hide Shifts8, Xor8;
    Xor8Shuffle(s, t, a, b);
    Shifts8Xor(Xor8(s, a), Xor8(t, b), 8);
  }

  /** The header register, too, is linear over exclusive or. */
  lemma {:induction false} Register8Xor(s: bv8, t: bv8, a: Bytes, b: Bytes)
    requires |a| == |b|
    ensures Register8(Xor8(s, t), XorBytes(a, b)) == Xor8(Register8(s, a), Register8(t, b))
  {
    hide Feed8, Xor8;
    if a != [] {
      var n := |a| - 1;
      Register8Xor(s, t, a[..n], b[..n]);
      assert XorBytes(a, b)[..n] == XorBytes(a[..n], b[..n]);
      Feed8Xor(Register8(s, a[..n]), Register8(t, b[..n]), a[n], b[n]);
    }
  }

  lemma Xor8Laws(x: bv8, y: bv8, z: bv8)
    ensures Xor8(x, x) == 0 && Xor8(!x, !y) == Xor8(x, y)
    ensures Xor8(x, y) == Xor8(x, z) <==> y == z
  {
    BitLaws.Zero8(x, x);
    BitLaws.Complement8(x, y);
    BitLaws.Cancel8(x, y, z);
  }

  lemma Crc8Xor(a: Bytes, b: Bytes)
    requires |a| == |b|
    ensures Xor8(Crc8(a), Crc8(b)) == Register8(0, XorBytes(a, b))
  {
    hide Register8, Xor8;
    Xor8Laws(0xFF, 0, 0);
    Register8Xor(0xFF, 0xFF, a, b);
    Xor8Laws(Register8(0xFF, a), Register8(0xFF, b), 0);
  }

  // ---- Header and checksum together -----------------------------------------------------------

  lemma {:induction false} ZeroShifts8(k: nat)
    ensures Shifts8(0, k) == 0
  {
    if k > 0 {
      ZeroShifts8(k - 1);
    }
  }

  /** A register is cleared by its own byte and by no other. */
  lemma ClearedByOwnByte(d: Bytes, x: Byte)
    ensures Register8(0, d + [x]) == 0 <==> Register8(0, d) == x
  {
    assert (d + [x])[..|d|] == d;
    var s := Register8(0, d);
    assert Feed8(x, x) == 0 by {
      Xor8Laws(x, x, x);
      ZeroShifts8(8);
    }
    hide Feed8, Register8;
    if Feed8(s, x) == 0 {
      Feed8Injective(s, x, x, x);
    }
  }

  lemma XorBytesLast(a: Bytes, b: Bytes, x: Byte, y: Byte)
    requires |a| == |b|
    ensures XorBytes(a + [x], b + [y]) == XorBytes(a, b) + [Xor8(x, y)]
  {
    hide Xor8;
  }

  lemma HeaderFitsExactly(a: Bytes, b: Bytes, crc: Byte)
    requires |a| == |b|
    ensures crc == Crc8(b) <==> Register8(0, XorBytes(a + [Crc8(a)], b + [crc])) == 0
  {
    hide Register8, Xor8, Crc8, XorBytes;
    XorBytesLast(a, b, Crc8(a), crc);
    ClearedByOwnByte(XorBytes(a, b), Xor8(Crc8(a), crc));
    Crc8Xor(a, b);
    Xor8Laws(Crc8(a), crc, Crc8(b));
  }

  /** The five header bytes and the checksum of a frame. */
  function Header(f: Frame): (h: Bytes)
    ensures |h| == 6
  {
    HeaderBytes(f) + [Crc8(HeaderBytes(f))]
  }

  /** What decoding makes of any six bytes behind the preamble: the type is looked at first, then the checksum. */
  lemma HeaderTested(h: Bytes, rest: Bytes)
    requires |h| == 6
    ensures var r := Decode([MSTP_PREAMBLE_55, MSTP_PREAMBLE_FF] + h + rest);
      if FrameTypeFrom(h[0]) == None then r == Err(UnknownFrameType(h[0]))
      else r == Err(BadHeaderCrc) <==> h[5] != Crc8(h[..5])
  {
    hide Crc8, Crc16, FrameTypeFrom, LittleEndian, NumberOf;
    var buf := [MSTP_PREAMBLE_55, MSTP_PREAMBLE_FF] + h + rest;
    assert buf[2..7] == h[..5] && buf[2] == h[0] && buf[7] == h[5];
  }

  /** The exact condition: six bytes in place of a frame's header and checksum pass for a header just when their type
      is known and the difference leaves a zero register. */
  lemma HeaderRefusedExactly(f: Frame, h: Bytes, rest: Bytes)
    requires |h| == 6
    ensures var r := Decode([MSTP_PREAMBLE_55, MSTP_PREAMBLE_FF] + h + rest);
      if FrameTypeFrom(h[0]) == None then r == Err(UnknownFrameType(h[0]))
      else r == Err(BadHeaderCrc) <==> Register8(0, XorBytes(Header(f), h)) != 0
  {
    hide Crc8, Decode, Register8, XorBytes, FrameTypeFrom;
    HeaderTested(h, rest);
    HeaderFitsExactly(HeaderBytes(f), h[..5], h[5]);
    assert h == h[..5] + [h[5]];
  }

  // ---- Bursts -----------------------------------------------------------------------------------

  function EightShifts8(x: bv8): bv8 {
    Shift8(Shift8(Shift8(Shift8(Shift8(Shift8(Shift8(Shift8(x))))))))
  }

  lemma EightShifts8Unfolded(x: bv8)
    ensures Shifts8(x, 8) == EightShifts8(x)
  {
    hide Shift8;
    assert Shifts8(x, 0) == x;
    assert Shifts8(x, 2) == Shift8(Shifts8(x, 1));
    assert Shifts8(x, 4) == Shift8(Shifts8(x, 3));
    assert Shifts8(x, 6) == Shift8(Shifts8(x, 5));
  }

  /** At most eight neighbouring bits, starting at bit k, of two bytes sent low bit first. */
  predicate ShortBurst(d0: Byte, d1: Byte, k: bv16, e: bv16) {
    k < 8 && 0 < e < 0x100 && (d0 as bv16) | ((d1 as bv16) << 8) == e << k
  }

  lemma ShortBurstLeavesTrace(d0: Byte, d1: Byte, k: bv16, e: bv16)
    requires ShortBurst(d0, d1, k, e)
    ensures EightShifts8(Xor8(EightShifts8(d0), d1)) != 0
  {
  }

  lemma ShortBurstRegister(d0: Byte, d1: Byte, k: bv16, e: bv16)
    requires ShortBurst(d0, d1, k, e)
    ensures Register8(0, [d0, d1]) != 0
  {
    hide EightShifts8, Shifts8, ShortBurst;
    ShortBurstLeavesTrace(d0, d1, k, e);
    assert Xor8(0, d0) == d0;
    hide Xor8;
    var c0 := Feed8(0, d0);
    EightShifts8Unfolded(d0);
    EightShifts8Unfolded(Xor8(c0, d1));
    assert [d0, d1][..1][..0] == [];
    assert Register8(0, [d0, d1][..1]) == c0;
  }

  predicate IsShortBurst(diff: Bytes, p: nat, k: bv16, e: bv16) {
    && p < |diff|
    && (forall i :: 0 <= i < |diff| && !(p <= i <= p + 1) ==> diff[i] == 0)
    && ShortBurst(diff[p], ByteAt(diff, p + 1), k, e)
  }

  lemma {:induction false} ZerosFed8(s: bv8, n: nat)
    ensures Register8(s, Zeros(n)) == 0 <==> s == 0
  {
    hide Feed8;
    if n > 0 {
      ZerosFed8(s, n - 1);
      assert Zeros(n)[..n - 1] == Zeros(n - 1);
      ZeroFed8(Register8(s, Zeros(n - 1)));
    }
  }

  lemma ZeroFed8(s: bv8)
    ensures Feed8(s, 0) == 0 <==> s == 0
  {
    assert Feed8(0, 0) == 0 by {
      Xor8Laws(0, 0, 0);
      ZeroShifts8(8);
    }
    hide Feed8;
    if Feed8(s, 0) == 0 {
      Feed8Injective(s, 0, 0, 0);
    }
  }

  lemma {:induction false} Register8Append(s: bv8, a: Bytes, b: Bytes)
    ensures Register8(s, a + b) == Register8(Register8(s, a), b)
    decreases |b|
  {
    hide Feed8;
    if b == [] {
      assert a + b == a;
    } else {
      var n := |b| - 1;
      Register8Append(s, a, b[..n]);
      assert (a + b)[..|a + b| - 1] == a + b[..n];
    }
  }

  lemma ShortBurstLeavesRegister(diff: Bytes, p: nat, k: bv16, e: bv16)
    requires IsShortBurst(diff, p, k, e)
    ensures Register8(0, diff) != 0
  {
    hide Register8, ShortBurst;
    var window := [diff[p], ByteAt(diff, p + 1)];
    var after := if |diff| <= p + 2 then 0 else |diff| - p - 2;
    var padding := if |diff| < p + 2 then 1 else 0;
    ShortBurstRegister(window[0], window[1], k, e);
    assert diff + Zeros(padding) == Zeros(p) + window + Zeros(after);
    Register8Append(0, diff, Zeros(padding));
    Register8Append(0, Zeros(p) + window, Zeros(after));
    Register8Append(0, Zeros(p), window);
    ZerosFed8(0, p);
    ZerosFed8(Register8(0, window), after);
    ZerosFed8(Register8(0, diff), padding);
  }

  // ---- Odd numbers of errors ------------------------------------------------------------------------

  lemma Shift8Wide(x: bv8)
    ensures Shift8(x) as bv16 == if x & 1 != 0 then Xor16((x as bv16) >> 1, 0xE0) else (x as bv16) >> 1
    ensures x & 1 != 0 <==> (x as bv16) & 1 != 0
  {
  }

  lemma HeaderPolynomialIsOdd()
    ensures Odd(0xE0)
  {
    assert OnesBelow(0xE0, 4) == 0;
    assert OnesBelow(0xE0, 6) == 1;
    assert OnesBelow(0xE0, 8) == 3;
    assert OnesBelow(0xE0, 12) == 3;
  }

  lemma LowBit(x: bv16)
    ensures BitOf(x, 0) == if x & 1 != 0 then 1 else 0
  {
  }

  lemma Shift8KeepsParity(x: bv8)
    ensures Odd(Shift8(x) as bv16) <==> Odd(x as bv16)
  {
    hide OnesBelow, BitOf, Shift8, Xor16;
    var w := x as bv16;
    HalfParity(w);
    HeaderPolynomialIsOdd();
    OddXor(w >> 1, 0xE0);
    LowBit(w);
    Shift8Wide(x);
  }

  lemma HalfParity(w: bv16)
    ensures Odd(w) <==> Odd(w >> 1) != (BitOf(w, 0) == 1)
  {
    hide BitOf;
    OnesBelowHalf(w, 15);
    BitOfHalf(w, 0);
    OddSum(OnesBelow(w >> 1, 16), BitOf(w, 0));
    LowBit(w);
  }

  lemma {:induction false} Shifts8KeepParity(x: bv8, k: nat)
    ensures Odd(Shifts8(x, k) as bv16) <==> Odd(x as bv16)
  {
    hide Shift8, Odd;
    if k > 0 {
      Shifts8KeepParity(x, k - 1);
      Shift8KeepsParity(Shifts8(x, k - 1));
    }
  }

  lemma Xor8Wide(x: bv8, y: bv8)
    ensures Xor8(x, y) as bv16 == Xor16(x as bv16, y as bv16)
  {
    BitLaws.Widened(x, y);
  }

  lemma Feed8Parity(s: bv8, d: Byte)
    ensures Odd(Feed8(s, d) as bv16) <==> Odd(s as bv16) != Odd(d as bv16)
  {
    hide Shifts8, Odd, Xor8, Xor16;
    Shifts8KeepParity(Xor8(s, d), 8);
    Xor8Wide(s, d);
    OddXor(s as bv16, d as bv16);
  }

  lemma {:induction false} Register8Parity(a: Bytes, b: Bytes)
    requires |a| == |b|
    ensures BitErrors(a, b) % 2 == 1 <==> Odd(Register8(0, XorBytes(a, b)) as bv16)
    decreases |a|
  {
    hide Feed8, Xor8, OnesBelow;
    if a == [] {
      NoOnes(16);
    } else {
      var n := |a| - 1;
      var d := Xor8(a[n], b[n]) as bv16;
      Register8Parity(a[..n], b[..n]);
      assert XorBytes(a, b)[..n] == XorBytes(a[..n], b[..n]);
      Feed8Parity(Register8(0, XorBytes(a[..n], b[..n])), Xor8(a[n], b[n]));
      OddSum(BitErrors(a[..n], b[..n]), OnesBelow(d, 16));
    }
  }

  /** One burst of up to eight bits, or any odd number of flipped bits, in header and checksum together, is refused,
      and the error named. */
  lemma HeaderErrorsDetected(f: Frame, h: Bytes, rest: Bytes, p: nat, k: bv16, e: bv16)
    requires |h| == 6
    requires IsShortBurst(XorBytes(Header(f), h), p, k, e) || BitErrors(Header(f), h) % 2 == 1
    ensures Decode([MSTP_PREAMBLE_55, MSTP_PREAMBLE_FF] + h + rest) ==
      Err(if FrameTypeFrom(h[0]) == None then UnknownFrameType(h[0]) else BadHeaderCrc)
  {
    hide Decode, Header, IsShortBurst, Register8, XorBytes, OnesBelow, FrameTypeFrom;
    var diff := XorBytes(Header(f), h);
    if IsShortBurst(diff, p, k, e) {
      ShortBurstLeavesRegister(diff, p, k, e);
    } else {
      NoOnes(16);
      Register8Parity(Header(f), h);
    }
    HeaderRefusedExactly(f, h, rest);
  }
}

/** The two checksums of an MS/TP frame: bitwise loops, and what errors they detect. */
module Crc {
  import opened Machine
  import BitLaws

  // ---- The checksums ------------------------------------------------------------

  function Shift8(x: bv8): bv8 {
    if x & 1 != 0 then (x >> 1) ^ 0xE0 else x >> 1
  }

  function Shift16(x: bv16): bv16 {
    if x & 1 != 0 then (x >> 1) ^ 0xA001 else x >> 1
  }

  function Xor8(x: bv8, y: bv8): bv8 {
    x ^ y
  }

  function Xor16(x: bv16, y: bv16): bv16 {
    x ^ y
  }

  function Shifts8(x: bv8, k: nat): bv8 {
    if k == 0 then x else Shift8(Shifts8(x, k - 1))
  }

  function Shifts16(x: bv16, k: nat): bv16 {
    if k == 0 then x else Shift16(Shifts16(x, k - 1))
  }

  /** The register after one more byte. */
  function Feed8(crc: bv8, b: Byte): bv8 {
    Shifts8(Xor8(crc, b), 8)
  }

  function Feed16(crc: bv16, b: Byte): bv16 {
    Shifts16(Xor16(crc, b as bv16), 8)
  }

  function Register8(start: bv8, data: Bytes): bv8 {
    if data == [] then start else Feed8(Register8(start, data[..|data| - 1]), data[|data| - 1])
  }

  function Register16(start: bv16, data: Bytes): bv16 {
    if data == [] then start else Feed16(Register16(start, data[..|data| - 1]), data[|data| - 1])
  }

  function Crc8(data: Bytes): bv8 {
    !Register8(0xFF, data)
  }

  function Complement16(x: bv16): bv16 {
    !x
  }

  function Crc16(data: Bytes): bv16 {
    Complement16(Register16(0xFFFF, data))
  }

  /** The eight shifts for one byte. */
  method FeedByte8(start: bv8, b: Byte) returns (crc: bv8)
    ensures crc == Feed8(start, b)
  {
    crc := start ^ b;
    for k := 0 to 8
      invariant crc == Shifts8(Xor8(start, b), k)
    {
      if crc & 1 != 0 {
        crc := (crc >> 1) ^ 0xE0;
      } else {
        crc := crc >> 1;
      }
    }
  }

  method ComputeCrc8(data: Bytes) returns (r: bv8)
    ensures r == Crc8(data)
  {
    hide Feed8;
    var crc: bv8 := 0xFF;
    for i := 0 to |data|
      invariant crc == Register8(0xFF, data[..i])
    {
      assert data[..i + 1][..i] == data[..i];
      crc := FeedByte8(crc, data[i]);
    }
    assert data[..|data|] == data;
    r := !crc;
  }

  /** The eight shifts for one byte. */
  method FeedByte16(start: bv16, b: Byte) returns (crc: bv16)
    ensures crc == Feed16(start, b)
  {
    crc := start ^ (b as bv16);
    for k := 0 to 8
      invariant crc == Shifts16(Xor16(start, (b as bv16)), k)
    {
      if crc & 1 != 0 {
        crc := (crc >> 1) ^ 0xA001;
      } else {
        crc := crc >> 1;
      }
    }
  }

  method ComputeCrc16(data: Bytes) returns (r: bv16)
    ensures r == Crc16(data)
  {
    hide Feed16;
    var crc: bv16 := 0xFFFF;
    for i := 0 to |data|
      invariant crc == Register16(0xFFFF, data[..i])
    {
      assert data[..i + 1][..i] == data[..i];
      crc := FeedByte16(crc, data[i]);
    }
    assert data[..|data|] == data;
    r := !crc;
  }

  // ---- Linearity -------------------------------------------------------------------

  function XorBytes(a: Bytes, b: Bytes): (r: Bytes)
    requires |a| == |b|
    ensures |r| == |a|
  {
    seq(|a|, i requires 0 <= i < |a| => Xor8(a[i], b[i]))
  }

  /** The shift without its branch. */
  lemma Shift16Product(x: bv16)
    ensures Shift16(x) == (x >> 1) ^ (0xA001 * (x & 1))
  {
    if x & 1 != 0 {
      assert x & 1 == 1;
    }
  }

  lemma ProductXor(x: bv16, y: bv16)
    ensures ((x ^ y) >> 1) ^ (0xA001 * ((x ^ y) & 1))
      == ((x >> 1) ^ (0xA001 * (x & 1))) ^ ((y >> 1) ^ (0xA001 * (y & 1)))
  {
  }

  lemma Shift16Xor(x: bv16, y: bv16)
    ensures Shift16(Xor16(x, y)) == Xor16(Shift16(x), Shift16(y))
  {
    hide Shift16;
    Shift16Product(x);
    Shift16Product(y);
    Shift16Product(x ^ y);
    ProductXor(x, y);
  }

  lemma {:induction false} Shifts16Xor(x: bv16, y: bv16, k: nat)
    ensures Shifts16(Xor16(x, y), k) == Xor16(Shifts16(x, k), Shifts16(y, k))
  {
    hide Shift16, Xor16;
    if k > 0 {
      Shifts16Xor(x, y, k - 1);
      Shift16Xor(Shifts16(x, k - 1), Shifts16(y, k - 1));
    }
  }

  lemma XorShuffle(s: bv16, t: bv16, a: Byte, b: Byte)
    ensures Xor16(Xor16(s, t), Xor8(a, b) as bv16) == Xor16(Xor16(s, a as bv16), Xor16(t, b as bv16))
  {
    BitLaws.Widened(a, b);
    assert Xor8(a, b) as bv16 == (a as bv16) ^ (b as bv16);
    hide Xor8, Xor16;
    var c, d := a as bv16, b as bv16;
    Xor16Is(s, t);
    Xor16Is(s, c);
    Xor16Is(t, d);
    Xor16Is(s ^ t, c ^ d);
    Xor16Is(s ^ c, t ^ d);
    BitLaws.Shuffle16(s, t, c, d);
  }

  lemma Xor16Is(x: bv16, y: bv16)
    ensures Xor16(x, y) == x ^ y
  {
  }

  lemma Feed16Xor(s: bv16, t: bv16, a: Byte, b: Byte)
    ensures Feed16(Xor16(s, t), Xor8(a, b)) == Xor16(Feed16(s, a), Feed16(t, b))
  {
    hide Shifts16, Xor16, Xor8;
    XorShuffle(s, t, a, b);
    Shifts16Xor(Xor16(s, a as bv16), Xor16(t, b as bv16), 8);
  }

  /** The register is linear over exclusive or, start value and data together. */
  lemma {:induction false} Register16Xor(s: bv16, t: bv16, a: Bytes, b: Bytes)
    requires |a| == |b|
    ensures Register16(Xor16(s, t), XorBytes(a, b)) == Xor16(Register16(s, a), Register16(t, b))
  {
    hide Feed16, Xor16, Xor8;
    if a != [] {
      var n := |a| - 1;
      Register16Xor(s, t, a[..n], b[..n]);
      assert XorBytes(a, b)[..n] == XorBytes(a[..n], b[..n]);
      Feed16Xor(Register16(s, a[..n]), Register16(t, b[..n]), a[n], b[n]);
    }
  }

  lemma ComplementInjective(x: bv16, y: bv16)
    requires Complement16(x) == Complement16(y)
    ensures x == y
  {
  }

  lemma Xor16IsZero(x: bv16, y: bv16)
    ensures Xor16(x, y) == 0 <==> x == y
  {
    BitLaws.Zero16(x, y);
  }

  /** Two payloads of one length have the same checksum just when their difference leaves a zero register. */
  lemma Crc16Difference(a: Bytes, b: Bytes)
    requires |a| == |b|
    ensures Crc16(a) == Crc16(b) <==> Register16(0, XorBytes(a, b)) == 0
  {
    hide Register16, Xor16, Complement16;
    var x, y := Register16(0xFFFF, a), Register16(0xFFFF, b);
    Xor16IsZero(0xFFFF, 0xFFFF);
    Register16Xor(0xFFFF, 0xFFFF, a, b);
    Xor16IsZero(x, y);
    if Complement16(x) == Complement16(y) {
      ComplementInjective(x, y);
    }
  }

  // ---- Bijectivity -----------------------------------------------------------------

  lemma Shift16Injective(x: bv16, y: bv16)
    requires Shift16(x) == Shift16(y)
    ensures x == y
  {
  }

  lemma {:induction false} Shifts16Injective(x: bv16, y: bv16, k: nat)
    requires Shifts16(x, k) == Shifts16(y, k)
    ensures x == y
  {
    hide Shift16;
    if k > 0 {
      Shift16Injective(Shifts16(x, k - 1), Shifts16(y, k - 1));
      Shifts16Injective(x, y, k - 1);
    }
  }

  lemma Xor16Cancels(s: bv16, t: bv16, b: bv16)
    requires Xor16(s, b) == Xor16(t, b)
    ensures s == t
  {
    BitLaws.Cancel16(b, s, t);
  }

  /** One byte's step is a bijection of the register. */
  lemma Feed16Injective(s: bv16, t: bv16, b: Byte)
    requires Feed16(s, b) == Feed16(t, b)
    ensures s == t
  {
    hide Shifts16, Xor16;
    Shifts16Injective(Xor16(s, b as bv16), Xor16(t, b as bv16), 8);
    Xor16Cancels(s, t, b as bv16);
  }

  lemma {:induction false} Register16Injective(s: bv16, t: bv16, data: Bytes)
    requires Register16(s, data) == Register16(t, data)
    ensures s == t
  {
    hide Feed16;
    if data != [] {
      var n := |data| - 1;
      Feed16Injective(Register16(s, data[..n]), Register16(t, data[..n]), data[n]);
      Register16Injective(s, t, data[..n]);
    }
  }

  lemma {:induction false} Register16Append(s: bv16, a: Bytes, b: Bytes)
    ensures Register16(s, a + b) == Register16(Register16(s, a), b)
  {
    hide Feed16;
    if b == [] {
      assert a + b == a;
    } else {
      var n := |b| - 1;
      Register16Append(s, a, b[..n]);
      assert (a + b)[..|a + b| - 1] == a + b[..n];
    }
  }

  // ---- Bursts --------------------------------------------------------------------------

  function Zeros(n: nat): Bytes {
    seq(n, _ => 0)
  }

  lemma {:induction false} ZeroShifts(k: nat)
    ensures Shifts16(0, k) == 0
  {
    if k > 0 {
      ZeroShifts(k - 1);
    }
  }

  lemma {:induction false} ZerosKeepZero(n: nat)
    ensures Register16(0, Zeros(n)) == 0
  {
    if n > 0 {
      ZerosKeepZero(n - 1);
      assert Zeros(n)[..n - 1] == Zeros(n - 1);
      ZeroShifts(8);
    }
  }

  function EightShifts(x: bv16): bv16 {
    Shift16(Shift16(Shift16(Shift16(Shift16(Shift16(Shift16(Shift16(x))))))))
  }

  lemma EightShiftsUnfolded(x: bv16)
    ensures Shifts16(x, 8) == EightShifts(x)
  {
    hide Shift16;
    assert Shifts16(x, 0) == x;
    assert Shifts16(x, 1) == Shift16(x);
    assert Shifts16(x, 2) == Shift16(Shifts16(x, 1));
    assert Shifts16(x, 3) == Shift16(Shifts16(x, 2));
    assert Shifts16(x, 4) == Shift16(Shifts16(x, 3));
    assert Shifts16(x, 5) == Shift16(Shifts16(x, 4));
    assert Shifts16(x, 6) == Shift16(Shifts16(x, 5));
    assert Shifts16(x, 7) == Shift16(Shifts16(x, 6));
  }

  /** At most sixteen neighbouring bits, starting at bit k, of three bytes sent low bit first. */
  predicate Burst(d0: Byte, d1: Byte, d2: Byte, k: bv32, e: bv32) {
    k < 8 && 0 < e < 0x1_0000 && (d0 as bv32) | ((d1 as bv32) << 8) | ((d2 as bv32) << 16) == e << k
  }

  lemma BurstLeavesTrace(d0: Byte, d1: Byte, d2: Byte, k: bv32, e: bv32)
    requires Burst(d0, d1, d2, k, e)
    ensures EightShifts(Xor16(EightShifts(Xor16(EightShifts(d0 as bv16), d1 as bv16)), d2 as bv16)) != 0
  {
  }

  lemma Xor16WithZero(x: bv16)
    ensures Xor16(0, x) == x
  {
  }

  lemma BurstRegister(d0: Byte, d1: Byte, d2: Byte, k: bv32, e: bv32)
    requires Burst(d0, d1, d2, k, e)
    ensures Register16(0, [d0, d1, d2]) != 0
  {
    hide EightShifts, Shifts16, Xor16, Burst;
    BurstLeavesTrace(d0, d1, d2, k, e);
    Xor16WithZero(d0 as bv16);
    var c0 := Feed16(0, d0);
    var c1 := Feed16(c0, d1);
    EightShiftsUnfolded(d0 as bv16);
    EightShiftsUnfolded(Xor16(c0, d1 as bv16));
    EightShiftsUnfolded(Xor16(c1, d2 as bv16));
    var d := [d0, d1, d2];
    assert d[..2][..1][..0] == [];
    assert Register16(0, d[..2][..1]) == c0;
    assert Register16(0, d[..2]) == c1;
  }

  function ByteAt(data: Bytes, i: nat): Byte {
    if i < |data| then data[i] else 0
  }

  /** The difference of two payloads is the burst e << k of at most sixteen bits, beginning in byte p. */
  predicate IsBurst(diff: Bytes, p: nat, k: bv32, e: bv32) {
    && p < |diff|
    && (forall i :: 0 <= i < |diff| && !(p <= i <= p + 2) ==> diff[i] == 0)
    && Burst(diff[p], ByteAt(diff, p + 1), ByteAt(diff, p + 2), k, e)
  }

  lemma BurstSurvives(window: Bytes, before: nat, after: nat)
    requires Register16(0, window) != 0
    ensures Register16(0, Zeros(before) + window + Zeros(after)) != 0
  {
    hide Register16;
    Register16Append(0, Zeros(before) + window, Zeros(after));
    Register16Append(0, Zeros(before), window);
    ZerosKeepZero(before);
    ZerosKeepZero(after);
    if Register16(Register16(0, window), Zeros(after)) == 0 {
      Register16Injective(Register16(0, window), 0, Zeros(after));
    }
  }

  lemma BurstLeavesRegister(diff: Bytes, p: nat, k: bv32, e: bv32)
    requires IsBurst(diff, p, k, e)
    ensures Register16(0, diff) != 0
  {
    hide Register16, Burst;
    var window := [diff[p], ByteAt(diff, p + 1), ByteAt(diff, p + 2)];
    var after := if |diff| <= p + 3 then 0 else |diff| - p - 3;
    var padding := if |diff| < p + 3 then p + 3 - |diff| else 0;
    assert diff + Zeros(padding) == Zeros(p) + window + Zeros(after);
    BurstRegister(window[0], window[1], window[2], k, e);
    BurstSurvives(window, p, after);
    Register16Append(0, diff, Zeros(padding));
    ZerosKeepZero(padding);
  }

  /** Any burst of up to sixteen bits, at any bit offset of a payload of any length, changes the checksum. */
  lemma BurstDetected(a: Bytes, b: Bytes, p: nat, k: bv32, e: bv32)
    requires |a| == |b| && IsBurst(XorBytes(a, b), p, k, e)
    ensures Crc16(a) != Crc16(b)
  {
    hide Register16, IsBurst, XorBytes, Crc16;
    BurstLeavesRegister(XorBytes(a, b), p, k, e);
    Crc16Difference(a, b);
  }

  lemma Xor8IsZero(x: Byte, y: Byte)
    ensures Xor8(x, y) == 0 <==> x == y
  {
    BitLaws.Zero8(x, y);
  }

  lemma TwoBytesAreBurst(d0: Byte, d1: Byte)
    requires d0 != 0 || d1 != 0
    ensures Burst(d0, d1, 0, 0, (d0 as bv32) | ((d1 as bv32) << 8))
  {
  }

  /** In particular any change inside two neighbouring bytes. */
  lemma TwoByteChangeDetected(a: Bytes, b: Bytes, p: nat)
    requires |a| == |b| && a != b && p < |a|
    requires forall i :: 0 <= i < |a| && i != p && i != p + 1 ==> a[i] == b[i]
    ensures Crc16(a) != Crc16(b)
  {
    hide Xor8, Crc16, Burst;
    var diff := XorBytes(a, b);
    forall i | 0 <= i < |diff| ensures a[i] == b[i] <==> diff[i] == 0 {
      Xor8IsZero(a[i], b[i]);
    }
    var d0, d1 := diff[p], ByteAt(diff, p + 1);
    assert d0 != 0 || d1 != 0;
    TwoBytesAreBurst(d0, d1);
    BurstDetected(a, b, p, 0, (d0 as bv32) | ((d1 as bv32) << 8));
  }

  // ---- Odd numbers of errors ---------------------------------------------------------------

  function BitOf(x: bv16, i: bv16): nat
    requires i < 16
  {
    if (x >> i) & 1 != 0 then 1 else 0
  }

  /** How many of the n low bits are set. */
  function OnesBelow(x: bv16, n: bv16): nat
    requires n <= 16
  {
    if n == 0 then 0 else OnesBelow(x, n - 1) + BitOf(x, n - 1)
  }

  /** How many bits differ between two payloads. */
  function BitErrors(a: Bytes, b: Bytes): nat
    requires |a| == |b|
  {
    if a == [] then 0
    else BitErrors(a[..|a| - 1], b[..|b| - 1]) + OnesBelow(Xor8(a[|a| - 1], b[|b| - 1]) as bv16, 16)
  }

  predicate Odd(x: bv16) {
    OnesBelow(x, 16) % 2 == 1
  }

  lemma BitOfXor(x: bv16, y: bv16, i: bv16)
    requires i < 16
    ensures BitOf(Xor16(x, y), i) == if BitOf(x, i) == BitOf(y, i) then 0 else 1
    ensures BitOf(x, i) <= 1 && BitOf(y, i) <= 1
  {
  }

  lemma OddSum(m: nat, n: nat)
    ensures (m + n) % 2 == 1 <==> (m % 2 == 1) != (n % 2 == 1)
  {
  }

  lemma ParityStep(a: nat, b: nat, c: nat, p: nat, q: nat)
    requires c % 2 == (a + b) % 2 && p <= 1 && q <= 1
    ensures (c + if p == q then 0 else 1) % 2 == (a + p + b + q) % 2
  {
  }

  lemma {:induction false} OnesBelowXor(x: bv16, y: bv16, n: bv16)
    requires n <= 16
    ensures OnesBelow(Xor16(x, y), n) % 2 == (OnesBelow(x, n) + OnesBelow(y, n)) % 2
  {
    hide BitOf, Xor16;
    if n > 0 {
      OnesBelowXor(x, y, n - 1);
      BitOfXor(x, y, n - 1);
      ParityStep(OnesBelow(x, n - 1), OnesBelow(y, n - 1), OnesBelow(Xor16(x, y), n - 1),
        BitOf(x, n - 1), BitOf(y, n - 1));
    }
  }

  lemma OddXor(x: bv16, y: bv16)
    ensures Odd(Xor16(x, y)) <==> Odd(x) != Odd(y)
  {
    hide OnesBelow, Xor16;
    OnesBelowXor(x, y, 16);
    OddSum(OnesBelow(x, 16), OnesBelow(y, 16));
  }

  lemma BitOfHalf(x: bv16, i: bv16)
    requires i < 15
    ensures BitOf(x >> 1, i) == BitOf(x, i + 1) && BitOf(x >> 1, 15) == 0
  {
  }

  lemma {:induction false} OnesBelowHalf(x: bv16, n: bv16)
    requires n < 16
    ensures OnesBelow(x >> 1, n) + BitOf(x, 0) == OnesBelow(x, n + 1)
  {
    hide BitOf;
    if n > 0 {
      OnesBelowHalf(x, n - 1);
      BitOfHalf(x, n - 1);
    }
  }

  lemma PolynomialIsOdd()
    ensures Odd(0xA001)
  {
    assert OnesBelow(0xA001, 4) == 1;
    assert OnesBelow(0xA001, 8) == 1;
    assert OnesBelow(0xA001, 12) == 1;
    assert OnesBelow(0xA001, 14) == 2;
  }

  /** A shift of the register keeps the parity of its bits: the polynomial has an odd number of them. */
  lemma ShiftKeepsParity(x: bv16)
    ensures Odd(Shift16(x)) <==> Odd(x)
  {
    OnesBelowHalf(x, 15);
    BitOfHalf(x, 0);
    PolynomialIsOdd();
    OddXor(x >> 1, 0xA001);
    OddSum(OnesBelow(x >> 1, 16), BitOf(x, 0));
    hide OnesBelow;
    assert Shift16(x) == if x & 1 != 0 then Xor16(x >> 1, 0xA001) else x >> 1;
  }

  lemma {:induction false} ShiftsKeepParity(x: bv16, k: nat)
    ensures Odd(Shifts16(x, k)) <==> Odd(x)
  {
    hide Shift16, Odd;
    if k > 0 {
      ShiftsKeepParity(x, k - 1);
      ShiftKeepsParity(Shifts16(x, k - 1));
    }
  }

  lemma FeedParity(s: bv16, d: Byte)
    ensures Odd(Feed16(s, d)) <==> Odd(s) != Odd(d as bv16)
  {
    hide Shifts16, Odd, Xor16;
    ShiftsKeepParity(Xor16(s, d as bv16), 8);
    OddXor(s, d as bv16);
  }

  lemma {:induction false} NoOnes(n: bv16)
    requires n <= 16
    ensures OnesBelow(0, n) == 0
  {
    if n > 0 {
      NoOnes(n - 1);
    }
  }

  lemma {:induction false} RegisterParity(a: Bytes, b: Bytes)
    requires |a| == |b|
    ensures BitErrors(a, b) % 2 == 1 <==> Odd(Register16(0, XorBytes(a, b)))
  {
    hide Feed16, Xor8, OnesBelow;
    if a == [] {
      NoOnes(16);
    } else {
      var n := |a| - 1;
      var d := Xor8(a[n], b[n]) as bv16;
      RegisterParity(a[..n], b[..n]);
      assert XorBytes(a, b)[..n] == XorBytes(a[..n], b[..n]);
      FeedParity(Register16(0, XorBytes(a[..n], b[..n])), Xor8(a[n], b[n]));
      OddSum(BitErrors(a[..n], b[..n]), OnesBelow(d, 16));
    }
  }

  /** Any odd number of flipped bits, anywhere in a payload of any length, changes the checksum. */
  lemma OddErrorsDetected(a: Bytes, b: Bytes)
    requires |a| == |b| && BitErrors(a, b) % 2 == 1
    ensures Crc16(a) != Crc16(b)
  {
    hide OnesBelow, Register16, Crc16;
    NoOnes(16);
    RegisterParity(a, b);
    Crc16Difference(a, b);
  }

  // ---- The header checksum -------------------------------------------------------------------

  lemma Shift8Injective(x: bv8, y: bv8)
    requires Shift8(x) == Shift8(y)
    ensures x == y
  {
  }

  lemma {:induction false} Shifts8Injective(x: bv8, y: bv8, k: nat)
    requires Shifts8(x, k) == Shifts8(y, k)
    ensures x == y
  {
    hide Shift8;
    if k > 0 {
      Shift8Injective(Shifts8(x, k - 1), Shifts8(y, k - 1));
      Shifts8Injective(x, y, k - 1);
    }
  }

  lemma Xor8Cancels(s: bv8, t: bv8, a: Byte)
    requires Xor8(s, a) == Xor8(t, a) || Xor8(a, s) == Xor8(a, t)
    ensures s == t
  {
    BitLaws.Cancel8(a, s, t);
  }

  /** The header register, too, keeps apart registers fed one byte and bytes fed to one register. */
  lemma Feed8Injective(s: bv8, t: bv8, a: Byte, b: Byte)
    requires Feed8(s, a) == Feed8(t, b)
    ensures s == t <==> a == b
  {
    hide Shifts8, Xor8;
    Shifts8Injective(Xor8(s, a), Xor8(t, b), 8);
    if a == b {
      Xor8Cancels(s, t, a);
    } else if s == t {
      Xor8Cancels(a, b, s);
    }
  }

  lemma {:induction false} Register8OneByte(start: bv8, a: Bytes, b: Bytes, p: nat)
    requires |a| == |b| && p < |a| && a[p] != b[p]
    requires forall i :: 0 <= i < |a| && i != p ==> a[i] == b[i]
    ensures Register8(start, a) != Register8(start, b)
  {
    hide Feed8;
    var n := |a| - 1;
    if p < n {
      Register8OneByte(start, a[..n], b[..n], p);
    } else {
      assert a[..n] == b[..n];
    }
    if Register8(start, a) == Register8(start, b) {
      Feed8Injective(Register8(start, a[..n]), Register8(start, b[..n]), a[n], b[n]);
    }
  }

  /** Changing any one header byte changes the header checksum. */
  lemma Crc8OneByte(a: Bytes, b: Bytes, p: nat)
    requires |a| == |b| && p < |a| && a[p] != b[p]
    requires forall i :: 0 <= i < |a| && i != p ==> a[i] == b[i]
    ensures Crc8(a) != Crc8(b)
  {
    hide Register8;
    Register8OneByte(0xFF, a, b, p);
    var x, y := Register8(0xFF, a), Register8(0xFF, b);
    assert !x == !y ==> x == y;
  }
}

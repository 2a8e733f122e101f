/** Bit strings in octets: the first bit is the high bit of the first octet. */
module BitStrings {
  import opened Machine

  /** 0x80 shifted right. */
  function HighBit(i: nat): Byte
    requires i < 8
  {
    if i == 0 then 0x80 else HighBit(i - 1) >> 1
  }

  /** Bit number `i` of an octet, counted from the high end. */
  predicate BitAt(b: Byte, i: nat)
    requires i < 8
  {
    b & HighBit(i) != 0
  }

  /** At most eight bits, packed from the high end. */
  function PackOctet(bits: seq<bool>): Byte
    requires |bits| <= 8
  {
    if bits == [] then 0
    else
      var n := |bits| - 1;
      PackOctet(bits[..n]) | (if bits[n] then HighBit(n) else 0)
  }

  function Pack(bits: seq<bool>): Bytes {
    if bits == [] then []
    else if |bits| <= 8 then [PackOctet(bits)]
    else [PackOctet(bits[..8])] + Pack(bits[8..])
  }

  /** How many bits the last octet has to spare. */
  function Unused(n: nat): (u: nat)
    ensures u < 8
  {
    (8 - n % 8) % 8
  }

  lemma UnusedFacts(n: nat)
    ensures Unused(0) == 0
    ensures 0 < n <= 8 ==> Unused(n) == 8 - n
    ensures 8 < n ==> Unused(n - 8) == Unused(n)
  {
  }

  lemma {:induction false} PackLength(bits: seq<bool>)
    ensures |Pack(bits)| == (|bits| + 7) / 8
    ensures bits != [] ==> 8 * |Pack(bits)| - Unused(|bits|) == |bits|
  {
    hide PackOctet, Unused;
    UnusedFacts(|bits|);
    OctetCount(|bits|);
    if |bits| > 8 {
      PackLength(bits[8..]);
    }
  }

  lemma OctetCount(n: nat)
    ensures (n + 7) / 8 == if n == 0 then 0 else if n <= 8 then 1 else (n - 8 + 7) / 8 + 1
  {
  }

  /** `count` bits of an octet starting with bit number `first`. */
  function OctetBits(b: Byte, first: nat, count: nat): (bits: seq<bool>)
    requires first + count <= 8
    ensures |bits| == count
  {
    seq(count, i requires 0 <= i < count => BitAt(b, first + i))
  }

  /** All bits of the octets, but of the last octet only its high ones: the reading that fits the packing. */
  function HighBits(data: Bytes, unused: nat): seq<bool>
    requires unused <= 8
  {
    if data == [] then []
    else if |data| == 1 then OctetBits(data[0], 0, 8 - unused)
    else OctetBits(data[0], 0, 8) + HighBits(data[1..], unused)
  }

  /** All bits of the octets, but of the last octet only its low ones: what `decode_application_value` reads. */
  function LowBits(data: Bytes, unused: nat): seq<bool>
    requires unused <= 8 || data == []
  {
    if data == [] then []
    else if |data| == 1 then OctetBits(data[0], unused, 8 - unused)
    else OctetBits(data[0], 0, 8) + LowBits(data[1..], unused)
  }

  // ---- Packing and reading back ------------------------------------------------------

  lemma HighBitTable(i: nat)
    requires i < 8
    ensures HighBit(i) == [0x80, 0x40, 0x20, 0x10, 0x08, 0x04, 0x02, 0x01][i]
  {
    assert HighBit(2) == 0x20;
    assert HighBit(4) == 0x08;
    assert HighBit(6) == 0x02;
  }

  lemma BitOfHighBit(i: nat, j: nat)
    requires i < 8 && j < 8
    ensures BitAt(HighBit(i), j) <==> i == j
  {
    HighBitTable(i);
    HighBitTable(j);
    hide HighBit;
  }

  lemma BitOfOr(x: Byte, y: Byte, i: nat)
    requires i < 8
    ensures BitAt(x | y, i) <==> BitAt(x, i) || BitAt(y, i)
    ensures !BitAt(0, i)
  {
    hide HighBit;
  }

  lemma {:induction false} BitOfPackOctet(bits: seq<bool>, i: nat)
    requires |bits| <= 8 && i < 8
    ensures BitAt(PackOctet(bits), i) <==> i < |bits| && bits[i]
  {
    hide BitAt, HighBit;
    if bits == [] {
      BitOfOr(0, 0, i);
    } else {
      var n := |bits| - 1;
      BitOfPackOctet(bits[..n], i);
      BitOfOr(PackOctet(bits[..n]), if bits[n] then HighBit(n) else 0, i);
      BitOfHighBit(n, i);
    }
  }

  lemma OctetBitsOfPack(bits: seq<bool>, first: nat, count: nat)
    requires |bits| <= 8 && first + count <= 8
    ensures forall k :: 0 <= k < count ==>
      (OctetBits(PackOctet(bits), first, count)[k] <==> first + k < |bits| && bits[first + k])
  {
    hide BitAt, PackOctet;
    forall k | 0 <= k < count
      ensures OctetBits(PackOctet(bits), first, count)[k] <==> first + k < |bits| && bits[first + k]
    {
      BitOfPackOctet(bits, first + k);
    }
  }

  lemma FullOctet(bits: seq<bool>)
    requires |bits| == 8
    ensures OctetBits(PackOctet(bits), 0, 8) == bits
  {
    hide PackOctet, OctetBits;
    OctetBitsOfPack(bits, 0, 8);
  }

  /** Packed bits are read back when the high bits of the last octet are taken. */
  lemma {:induction false} HighBitsRoundTrip(bits: seq<bool>)
    ensures HighBits(Pack(bits), Unused(|bits|)) == bits
  {
    hide PackOctet, OctetBits, Unused;
    UnusedFacts(|bits|);
    if bits == [] {
    } else if |bits| <= 8 {
      OctetBitsOfPack(bits, 0, |bits|);
      assert OctetBits(PackOctet(bits), 0, |bits|) == bits;
    } else {
      HighBitsRoundTrip(bits[8..]);
      FullOctet(bits[..8]);
      assert Pack(bits)[1..] == Pack(bits[8..]);
      assert Pack(bits[8..]) != [];
    }
  }

  /** The bits after the last full octet are all clear. */
  predicate TailClear(bits: seq<bool>) {
    if |bits| < 8 then forall i :: 0 <= i < |bits| ==> !bits[i] else TailClear(bits[8..])
  }

  lemma {:induction false} ShiftedIsClear(bits: seq<bool>, shift: nat, k: nat)
    requires shift > 0 && k < |bits|
    requires forall j :: 0 <= j < |bits| ==> (bits[j] <==> j + shift < |bits| && bits[j + shift])
    ensures !bits[k]
    decreases |bits| - k
  {
    assert bits[k] <==> k + shift < |bits| && bits[k + shift];
    if k + shift < |bits| {
      ShiftedIsClear(bits, shift, k + shift);
    }
  }

  lemma LastOctetLow(bits: seq<bool>)
    requires 0 < |bits| <= 8
    ensures OctetBits(PackOctet(bits), 8 - |bits|, |bits|) == bits <==> TailClear(bits)
  {
    hide PackOctet, OctetBits;
    var shift := 8 - |bits|;
    var read := OctetBits(PackOctet(bits), shift, |bits|);
    OctetBitsOfPack(bits, shift, |bits|);
    if shift == 0 {
      assert read == bits;
    } else {
      if read == bits {
        forall k | 0 <= k < |bits| ensures !bits[k] {
          ShiftedIsClear(bits, shift, k);
        }
      }
      if TailClear(bits) {
        assert read == bits;
      }
    }
  }

  /** When the low bits of the last octet are taken, the packed bits come back exactly when the bits after
      the last full octet are all clear. */
  lemma {:induction false} LowBitsRoundTrip(bits: seq<bool>)
    ensures LowBits(Pack(bits), Unused(|bits|)) == bits <==> TailClear(bits)
  {
    hide PackOctet, OctetBits, Unused;
    UnusedFacts(|bits|);
    if bits == [] {
    } else if |bits| <= 8 {
      LastOctetLow(bits);
    } else {
      var rest := bits[8..];
      LowBitsRoundTrip(rest);
      FullOctet(bits[..8]);
      assert Pack(bits)[1..] == Pack(rest) && Pack(rest) != [];
      var tail := LowBits(Pack(rest), Unused(|rest|));
      assert LowBits(Pack(bits), Unused(|bits|)) == bits[..8] + tail;
      assert (bits[..8] + tail)[8..] == tail;
      assert bits == bits[..8] + rest;
    }
  }

  lemma PackCons(bits: seq<bool>)
    requires |bits| >= 8
    ensures Pack(bits) == [PackOctet(bits[..8])] + Pack(bits[8..])
  {
    hide PackOctet;
    if |bits| == 8 {
      assert bits[..8] == bits && bits[8..] == [];
    }
  }

  lemma {:induction false} PackAppend(a: seq<bool>, b: seq<bool>)
    requires |a| % 8 == 0
    ensures Pack(a + b) == Pack(a) + Pack(b)
  {
    hide Pack, PackOctet;
    if a == [] {
      assert Pack([]) == [] by { PackLength([]); }
      assert a + b == b;
    } else {
      assert |a| >= 8;
      PackAppend(a[8..], b);
      assert (a + b)[..8] == a[..8] && (a + b)[8..] == a[8..] + b;
      PackCons(a);
      PackCons(a + b);
    }
  }

  lemma {:induction false} HighBitsLength(data: Bytes, unused: nat)
    requires unused <= 8
    ensures |HighBits(data, unused)| == if data == [] then 0 else 8 * |data| - unused
    ensures |LowBits(data, unused)| == |HighBits(data, unused)|
  {
    if |data| > 1 {
      HighBitsLength(data[1..], unused);
    }
  }
}

/** Unsigned integers as byte strings, most significant byte first. */
module BigEndian {
  import opened Machine

  function Pow256(n: nat): (p: nat)
    ensures p > 0
  {
    if n == 0 then 1 else 0x100 * Pow256(n - 1)
  }

  function Value(bytes: Bytes): nat {
    if bytes == [] then 0 else Value(bytes[..|bytes| - 1]) * 0x100 + NumberOf(bytes[|bytes| - 1])
  }

  /** The n low bytes of a number. */
  function Word(v: nat, n: nat): (w: Bytes)
    ensures |w| == n
  {
    if n == 0 then [] else Word(v / 0x100, n - 1) + [ByteOf(v % 0x100)]
  }

  /** How many bytes the shortest encoding of a 32-bit number has. */
  function UintLength(v: U32): (n: nat)
    ensures 1 <= n <= 4
  {
    if v < 0x100 then 1 else if v < 0x1_0000 then 2 else if v < 0x100_0000 then 3 else 4
  }

  function UintBytes(v: U32): Bytes {
    Word(v, UintLength(v))
  }

  lemma {:induction false} ValueOfWord(v: nat, n: nat)
    requires v < Pow256(n)
    ensures Value(Word(v, n)) == v
  {
    hide NumberOf, ByteOf;
    if n > 0 {
      LowByte(v, Pow256(n - 1));
      hide Pow256;
      ValueOfWord(v / 0x100, n - 1);
      assert Word(v, n)[..n - 1] == Word(v / 0x100, n - 1);
    }
  }

  lemma LowByte(v: nat, high: nat)
    ensures v < 0x100 * high ==> v / 0x100 < high
    ensures v == 0x100 * (v / 0x100) + v % 0x100
  {
  }

  lemma PowersOf256()
    ensures Pow256(1) == 0x100 && Pow256(2) == 0x1_0000 && Pow256(3) == 0x100_0000
    ensures Pow256(4) == 0x1_0000_0000 && Pow256(8) == 0x1_0000_0000_0000_0000
  {
    assert Pow256(6) == 0x100 * (0x100 * Pow256(4));
  }

  lemma UintRoundTrip(v: U32)
    ensures Value(UintBytes(v)) == v
  {
    PowersOf256();
    ValueOfWord(v, UintLength(v));
  }

  lemma {:induction false} ValueBound(bytes: Bytes)
    ensures Value(bytes) < Pow256(|bytes|)
  {
    hide NumberOf;
    if bytes != [] {
      ValueBound(bytes[..|bytes| - 1]);
    }
  }

  lemma ByteOfSmall(n: nat)
    requires n < 8
    ensures ByteOf(n) == [0, 1, 2, 3, 4, 5, 6, 7][n]
  {
    assert ByteOf(2) == 2;
    assert ByteOf(4) == 4;
    assert ByteOf(6) == 6;
  }
}

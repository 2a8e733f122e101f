/** Laws of exclusive or on bytes and words, with nothing else in sight of the solver. */
module BitLaws {

  lemma Shuffle8(s: bv8, t: bv8, a: bv8, b: bv8)
    ensures (s ^ t) ^ (a ^ b) == (s ^ a) ^ (t ^ b)
  {
  }

  lemma Shuffle16(s: bv16, t: bv16, a: bv16, b: bv16)
    ensures (s ^ t) ^ (a ^ b) == (s ^ a) ^ (t ^ b)
  {
  }

  lemma Widened(a: bv8, b: bv8)
    ensures (a ^ b) as bv16 == (a as bv16) ^ (b as bv16)
  {
  }

  lemma Zero8(x: bv8, y: bv8)
    ensures x ^ y == 0 <==> x == y
    ensures x ^ x == 0
  {
  }

  lemma Zero16(x: bv16, y: bv16)
    ensures x ^ y == 0 <==> x == y
    ensures x ^ x == 0
  {
  }

  lemma Cancel8(x: bv8, y: bv8, z: bv8)
    ensures x ^ y == x ^ z <==> y == z
    ensures y ^ x == z ^ x <==> y == z
  {
  }

  lemma Cancel16(x: bv16, y: bv16, z: bv16)
    ensures x ^ y == x ^ z <==> y == z
    ensures y ^ x == z ^ x <==> y == z
  {
  }

  lemma Complement8(x: bv8, y: bv8)
    ensures !x ^ !y == x ^ y
  {
  }

  lemma Complement16(x: bv16, y: bv16)
    ensures !x ^ !y == x ^ y
  {
  }
}

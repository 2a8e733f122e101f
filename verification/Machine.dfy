/** Options and the machine integers shared by all modules.
    Raw bytes are bit-vectors, because tags and checksums work on their bits.
    Addresses, counters and lengths are integers with an explicit range. */
module Machine {

  datatype Option<+T> = None | Some(value: T)

  type Byte = bv8
  type Bytes = seq<Byte>

  type U8 = n: int | 0 <= n < 0x100
  type U16 = n: int | 0 <= n < 0x1_0000
  type U32 = n: int | 0 <= n < 0x1_0000_0000
  type U64 = n: int | 0 <= n < 0x1_0000_0000_0000_0000

  /** A byte as a number. */
  function NumberOf(b: Byte): (n: U8) {
    b as int
  }

  /** A number that fits, as a byte: counted up bit-vector by bit-vector, since the solver
      is slow on direct casts from integers to bit-vectors. */
  function ByteOf(n: U8): (b: Byte)
    ensures NumberOf(b) == n
  {
    if n == 0 then 0
    else
      var b := ByteOf(n - 1);
      Successor(b);
      b + 1
  }

  lemma Successor(b: Byte)
    requires NumberOf(b) < 255
    ensures NumberOf(b + 1) == NumberOf(b) + 1
  {
  }

  lemma NumberOfInjective(a: Byte, b: Byte)
    requires NumberOf(a) == NumberOf(b)
    ensures a == b
  {
    assert (a as int) as Byte == a;
    assert (b as int) as Byte == b;
  }

  /** A truncating cast to eight bits. */
  function Truncate8(n: nat): (r: U8) {
    n % 0x100
  }

  /** A truncating cast to sixteen bits. */
  function Truncate16(n: nat): (r: U16) {
    n % 0x1_0000
  }

  function Abs(x: real): (r: real)
    ensures r >= x && r >= -x && (r == x || r == -x)
  {
    if x < 0.0 then -x else x
  }
}

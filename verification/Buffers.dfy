/** The growing byte buffer that encoders append to, and byte strings found inside a buffer. */
module Buffers {
  import opened Machine

  class BytesMut {
    var data: Bytes

    constructor ()
      ensures data == []
    {
      data := [];
    }

    method PutU8(b: Byte)
      modifies this
      ensures data == old(data) + [b]
    {
      data := data + [b];
    }

    method ExtendFromSlice(bytes: Bytes)
      modifies this
      ensures data == old(data) + bytes
    {
      data := data + bytes;
    }
  }

  /** The bytes stand in the buffer at this position. */
  predicate At(buf: Bytes, pos: nat, bytes: Bytes) {
    pos + |bytes| <= |buf| && buf[pos..pos + |bytes|] == bytes
  }

  lemma AtConcat(buf: Bytes, pos: nat, a: Bytes, b: Bytes)
    ensures At(buf, pos, a + b) <==> At(buf, pos, a) && At(buf, pos + |a|, b)
  {
    if At(buf, pos, a + b) {
      assert buf[pos..pos + |a|] == buf[pos..pos + |a + b|][..|a|];
      assert buf[pos + |a|..pos + |a| + |b|] == buf[pos..pos + |a + b|][|a|..];
    }
    if At(buf, pos, a) && At(buf, pos + |a|, b) {
      assert buf[pos..pos + |a + b|] == buf[pos..pos + |a|] + buf[pos + |a|..pos + |a| + |b|];
    }
  }

  lemma AtIndex(buf: Bytes, pos: nat, bytes: Bytes, i: nat)
    requires At(buf, pos, bytes) && i < |bytes|
    ensures buf[pos + i] == bytes[i]
  {
    assert buf[pos..pos + |bytes|][i] == bytes[i];
  }
}

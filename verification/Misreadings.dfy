/** Values that cannot be read back are misread: no other bytes around them can make up for it. */
module Misreadings {
  import opened Machine
  import opened BigEndian
  import opened BitStrings
  import opened BacnetTypes
  import opened Buffers
  import opened Tags
  import opened Asn1
  import opened Application
  import opened ValueRoundTrip
  import opened Asn1RoundTrip
  import opened ConfirmedRoundTrip
  import opened Readers

  // ---- One leaf ------------------------------------------------------------------------------

  predicate IsLeaf(value: PropertyValue) {
    !value.Array? && !value.List?
  }

  /** The reader returns what the general decoder returns, or a bit string for a bit string and a date for a date. */
  lemma ReadValueKind(buf: Bytes, pos: nat)
    ensures var d, r := DecodeApplicationValue(buf, pos), ReadValue(buf, pos);
      r.Ok? ==> d.Ok? && (r == d || (r.value.BitString? && d.value.BitString?) || (r.value.Date? && d.value.Date?))
  {
    hide DecodeApplicationValue, DecodeApplicationBitString, DecodeApplicationDate;
  }

  lemma LongBitsMisread(buf: Bytes, bits: seq<bool>)
    requires At(buf, 0, BitStringBytes(bits)) && |bits| > 2032
    ensures var r := DecodeApplicationBitString(buf); r.Ok? ==> r.value != bits
  {
    hide TagAndLength, DecodeApplicationBitString, Pack, HighBits, ByteOf, NumberOf, Unused;
    var octets := [ByteOf(Unused(|bits|))] + Pack(bits);
    assert BitStringBytes(bits) == TagAndLength(8, |octets|) + octets;
    BitStringHeader(buf, octets);
    PackLength(bits);
    var n: int := Truncate8(|octets|);
    if n > 0 {
      var unused := NumberOf(octets[0]);
      if unused <= 8 {
        HighBitsLength(octets[1..n], unused);
      }
    }
  }

  lemma DateEnds(buf: Bytes)
    ensures var r := DecodeApplicationDate(buf); r.Ok? ==> r.pos == 5
  {
    hide NumberOf, WeekdayFromByte;
  }

  lemma DateMisread(buf: Bytes, d: BacnetDate)
    requires At(buf, 0, DateBytes(d)) && !PlainYear(d.year)
    ensures var r := DecodeApplicationDate(buf); r.Ok? ==> r.value != d
  {
    hide DateBytes, PlainYear, DecodeApplicationDate, At;
    DateRoundTrip(buf, d);
    DateEnds(buf);
  }

  /** The primitives' own decoders have the last word on bit strings and dates. */
  lemma ReadAgain(buf: Bytes, pos: nat)
    requires ReadValue(buf, pos).Ok?
    ensures pos <= |buf|
    ensures var v, bits := ReadValue(buf, pos).value, DecodeApplicationBitString(buf[pos..]);
      v.BitString? ==> bits.Ok? && bits.value == v.bits
    ensures var v, date := ReadValue(buf, pos).value, DecodeApplicationDate(buf[pos..]);
      v.Date? ==> date.Ok? && date.value == v.date
  {
    hide DecodeApplicationValue, DecodeApplicationBitString, DecodeApplicationDate;
    ApplicationValueAdvances(buf, pos);
  }

  /** Apart from a true Boolean, an unreadable leaf is read as something else or not at all. */
  lemma LeafMisread(buf: Bytes, pos: nat, value: PropertyValue)
    requires At(buf, pos, Encoding(value)) && IsLeaf(value) && !Readable(value) && value != Boolean(true)
    ensures var r := ReadValue(buf, pos); r.Ok? ==> r.value != value
  {
    hide ReadValue, DecodeApplicationValue, DecodeApplicationBitString, DecodeApplicationDate, At, BitStringBytes,
      PlainObjectId, PlainYear, TailClear, ApplicationTag, StringBytes, TagAndLength, EncodingOfAll, Word;
    ReadValueKind(buf, pos);
    match value
    case BitString(bits) =>
      if ReadValue(buf, pos).Ok? { ReadAgain(buf, pos); }
      AtTail(buf, pos, BitStringBytes(bits));
      LongBitsMisread(buf[pos..], bits);
    case Date(d) =>
      if ReadValue(buf, pos).Ok? { ReadAgain(buf, pos); }
      AtTail(buf, pos, DateBytes(d));
      DateMisread(buf[pos..], d);
    case _ =>
      OnlyDecodableRecovered(buf, pos, value);
  }

  // ---- A list of leaves ---------------------------------------------------------------------------

  predicate AllLeaves(leaves: seq<PropertyValue>) {
    forall leaf :: leaf in leaves ==> IsLeaf(leaf)
  }

  /** Reading at a byte 0 or 1. */
  lemma NullRead(buf: Bytes, pos: nat, number: Byte)
    requires pos < |buf| && buf[pos] < 2
    ensures ReadValues(buf, pos, number) == Prepend([Null], ReadValues(buf, pos + 1, number))
  {
    hide DecodeContents, DecodeApplicationBitString, DecodeApplicationDate;
    assert !IsContext(buf[pos]) && TagNumber(buf[pos]) == 0;
    assert ReadValue(buf, pos) == Ok(Null, pos + 1);
    assert !IsClosing(buf, pos, number);
    hide ReadValue, IsClosing;
  }

  lemma PrependFirst(v: PropertyValue, r: Parsed<seq<PropertyValue>>, leaves: seq<PropertyValue>)
    ensures var p := Prepend([v], r);
      p.Ok? ==>
        r.Ok? && p.value != []
        && (p.value == leaves <==> leaves != [] && leaves[0] == v && leaves[1..] == r.value)
  {
    if r.Ok? {
      assert ([v] + r.value)[1..] == r.value;
      if leaves != [] {
        assert leaves == [leaves[0]] + leaves[1..];
      }
    }
  }

  lemma {:induction false} EncodingAppend(a: seq<PropertyValue>, b: seq<PropertyValue>)
    ensures EncodingOfAll(a + b) == EncodingOfAll(a) + EncodingOfAll(b)
    decreases |b|
  {
    hide Encoding;
    if b == [] {
      assert a + b == a;
    } else {
      var n := |b| - 1;
      EncodingAppend(a, b[..n]);
      assert (a + b)[..|a + b| - 1] == a + b[..n];
    }
  }

  lemma OneEncoding(value: PropertyValue)
    ensures EncodingOfAll([value]) == Encoding(value)
  {
    hide Encoding;
    assert [value][..0] == [];
  }

  /** The encoding of a list, first leaf first. */
  lemma FirstEncoding(leaves: seq<PropertyValue>)
    requires leaves != []
    ensures EncodingOfAll(leaves) == Encoding(leaves[0]) + EncodingOfAll(leaves[1..])
  {
    hide Encoding, EncodingOfAll;
    assert leaves == [leaves[0]] + leaves[1..];
    EncodingAppend([leaves[0]], leaves[1..]);
    OneEncoding(leaves[0]);
  }

  /** One byte behind, the reader sees a Null too many and never catches up. */
  lemma {:induction false} OneBehind(buf: Bytes, pos: nat, leaves: seq<PropertyValue>, number: Byte)
    requires pos < |buf| && buf[pos] < 2 && At(buf, pos + 1, EncodingOfAll(leaves))
    ensures var r := ReadValues(buf, pos, number); r.Ok? ==> r.value != leaves
    decreases |leaves|
  {
    hide ReadValues, Encoding, EncodingOfAll;
    NullRead(buf, pos, number);
    PrependFirst(Null, ReadValues(buf, pos + 1, number), leaves);
    if leaves != [] && leaves[0] == Null {
      FirstEncoding(leaves);
      AtConcat(buf, pos + 1, Encoding(leaves[0]), EncodingOfAll(leaves[1..]));
      NullByte(buf, pos + 1);
      OneBehind(buf, pos + 1, leaves[1..], number);
    }
  }

  lemma NullByte(buf: Bytes, pos: nat)
    requires At(buf, pos, Encoding(Null))
    ensures pos < |buf| && buf[pos] == 0 && |Encoding(Null)| == 1
  {
    AtIndex(buf, pos, Encoding(Null), 0);
  }

  lemma TrueRead(buf: Bytes, pos: nat, number: Byte)
    requires At(buf, pos, Encoding(Boolean(true)))
    ensures ReadValues(buf, pos, number) == Prepend([Boolean(true)], ReadValues(buf, pos + 1, number))
    ensures pos + 1 < |buf| && buf[pos + 1] == 1 && |Encoding(Boolean(true))| == 2
  {
    BooleanFails(buf, pos, true);
    AtIndex(buf, pos, Encoding(Boolean(true)), 1);
    ValueIsNotClosing(buf, pos, number);
    hide DecodeApplicationValue, IsClosing, DecodeApplicationBitString, DecodeApplicationDate;
    assert ReadValue(buf, pos) == Ok(Boolean(true), pos + 1);
  }

  lemma ReadFirst(buf: Bytes, pos: nat, number: Byte)
    ensures var v, r := ReadValue(buf, pos), ReadValues(buf, pos, number);
      r.Ok? && r.value != [] ==> v.Ok? && r.value[0] == v.value
  {
    hide ReadValue, IsClosing;
  }

  /** A list with an unreadable leaf is not read back, whatever follows it. */
  lemma {:induction false} LeavesMisread(buf: Bytes, pos: nat, leaves: seq<PropertyValue>, number: Byte)
    requires At(buf, pos, EncodingOfAll(leaves)) && AllLeaves(leaves)
    requires exists leaf :: leaf in leaves && !Readable(leaf)
    ensures var r := ReadValues(buf, pos, number); r.Ok? ==> r.value != leaves
    decreases |leaves|
  {
    hide ReadValues, ReadValue, Encoding, EncodingOfAll, Readable;
    var first := leaves[0];
    FirstEncoding(leaves);
    AtConcat(buf, pos, Encoding(first), EncodingOfAll(leaves[1..]));
    if first == Boolean(true) {
      TrueRead(buf, pos, number);
      PrependFirst(first, ReadValues(buf, pos + 1, number), leaves);
      OneBehind(buf, pos + 1, leaves[1..], number);
    } else if Readable(first) {
      ReadLeaf(buf, pos, first, number);
      PrependFirst(first, ReadValues(buf, pos + |Encoding(first)|, number), leaves);
      assert leaves == [first] + leaves[1..];
      LeavesMisread(buf, pos + |Encoding(first)|, leaves[1..], number);
    } else {
      LeafMisread(buf, pos, first);
      ReadFirst(buf, pos, number);
    }
  }

  // ---- A whole value -----------------------------------------------------------------------------------

  /** A value and the list of its leaves are encoded alike. */
  lemma {:induction false} LeavesEncoded(value: PropertyValue)
    ensures EncodingOfAll(Leaves(value)) == Encoding(value) && AllLeaves(Leaves(value))
    decreases value
  {
    hide EncodingOfAll, LeavesOfAll;
    if value.Array? || value.List? {
      LeavesOfAllEncoded(value.items);
    } else {
      OneEncoding(value);
    }
  }

  lemma {:induction false} LeavesOfAllEncoded(items: seq<PropertyValue>)
    ensures EncodingOfAll(LeavesOfAll(items)) == EncodingOfAll(items) && AllLeaves(LeavesOfAll(items))
    decreases items
  {
    hide Encoding, Leaves;
    if items != [] {
      var n := |items| - 1;
      LeavesOfAllEncoded(items[..n]);
      LeavesEncoded(items[n]);
      EncodingAppend(LeavesOfAll(items[..n]), Leaves(items[n]));
    }
  }

  lemma ValueMisread(buf: Bytes, pos: nat, value: PropertyValue, number: Byte)
    requires At(buf, pos, Encoding(value)) && !AllReadable(value)
    ensures var r := ReadValues(buf, pos, number); r.Ok? ==> r.value != Leaves(value)
  {
    hide Encoding, EncodingOfAll, Leaves, ReadValues, Readable, At;
    LeavesEncoded(value);
    LeavesMisread(buf, pos, Leaves(value), number);
  }

  // ---- The general decoder alone ---------------------------------------------------------------------------

  /** A run of values, first value first. */
  lemma RunFirst(buf: Bytes, pos: nat, count: nat)
    requires count > 0
    ensures var first := DecodeApplicationValue(buf, pos);
      DecodeRun(buf, pos, count) ==
        if first.Ok? then Prepend([first.value], DecodeRun(buf, first.pos, count - 1)) else first.PropagateFailure()
  {
    hide DecodeApplicationValue;
    DecodeRunAppend(buf, pos, 1, count - 1);
    assert DecodeRun(buf, pos, 0) == Ok([], pos);
    var first := DecodeApplicationValue(buf, pos);
    if first.Ok? {
      assert [] + [first.value] == [first.value];
    }
  }

  lemma NullDecoded(buf: Bytes, pos: nat)
    requires pos < |buf| && buf[pos] < 2
    ensures DecodeApplicationValue(buf, pos) == Ok(Null, pos + 1)
  {
    hide DecodeContents;
    assert !IsContext(buf[pos]) && TagNumber(buf[pos]) == 0;
  }

  /** One byte behind, a run that gives the right values ends one byte early. */
  lemma {:induction false} RunBehind(buf: Bytes, pos: nat, leaves: seq<PropertyValue>)
    requires pos < |buf| && buf[pos] < 2 && At(buf, pos + 1, EncodingOfAll(leaves))
    ensures DecodeRun(buf, pos, |leaves|) != Ok(leaves, pos + 1 + |EncodingOfAll(leaves)|)
    decreases |leaves|
  {
    hide DecodeRun, DecodeApplicationValue, Encoding, EncodingOfAll;
    if leaves == [] {
      assert DecodeRun(buf, pos, 0) == Ok([], pos) by { RunOfNone(buf, pos); }
    } else {
      RunFirst(buf, pos, |leaves|);
      NullDecoded(buf, pos);
      PrependFirst(Null, DecodeRun(buf, pos + 1, |leaves| - 1), leaves);
      if leaves[0] == Null {
        FirstEncoding(leaves);
        AtConcat(buf, pos + 1, Encoding(leaves[0]), EncodingOfAll(leaves[1..]));
        NullByte(buf, pos + 1);
        RunBehind(buf, pos + 1, leaves[1..]);
      }
    }
  }

  lemma RunOfNone(buf: Bytes, pos: nat)
    ensures DecodeRun(buf, pos, 0) == Ok([], pos)
  {
  }

  lemma LeafDecoded(buf: Bytes, pos: nat, leaf: PropertyValue)
    requires At(buf, pos, Encoding(leaf)) && IsLeaf(leaf)
    ensures var r := DecodeApplicationValue(buf, pos);
      if Decodable(leaf) then r == Ok(leaf, pos + |Encoding(leaf)|)
      else if leaf == Boolean(true) then r == Ok(leaf, pos + 1) && |Encoding(leaf)| == 2
      else r.Ok? ==> r.value != leaf
  {
    hide DecodeApplicationValue, Encoding, Decodable, At;
    DecodeExactly(buf, pos, leaf);
    if leaf == Boolean(true) {
      TrueRead(buf, pos, 0);
      BooleanFails(buf, pos, true);
      TrueIsNot();
    } else {
      OnlyDecodableRecovered(buf, pos, leaf);
    }
  }

  lemma TrueIsNot()
    ensures !Decodable(Boolean(true))
  {
  }

  lemma {:induction false} RunMisread(buf: Bytes, pos: nat, leaves: seq<PropertyValue>)
    requires At(buf, pos, EncodingOfAll(leaves)) && AllLeaves(leaves)
    requires exists leaf :: leaf in leaves && !Decodable(leaf)
    ensures DecodeRun(buf, pos, |leaves|) != Ok(leaves, pos + |EncodingOfAll(leaves)|)
    decreases |leaves|
  {
    hide DecodeRun, DecodeApplicationValue, Encoding, EncodingOfAll, Decodable;
    var first, n := leaves[0], |leaves|;
    FirstEncoding(leaves);
    AtConcat(buf, pos, Encoding(first), EncodingOfAll(leaves[1..]));
    RunFirst(buf, pos, n);
    LeafDecoded(buf, pos, first);
    var r := DecodeApplicationValue(buf, pos);
    if r.Ok? {
      PrependFirst(r.value, DecodeRun(buf, r.pos, n - 1), leaves);
      if Decodable(first) {
        assert leaves == [first] + leaves[1..];
        RunMisread(buf, r.pos, leaves[1..]);
      } else if first == Boolean(true) {
        TrueRead(buf, pos, 0);
        RunBehind(buf, pos + 1, leaves[1..]);
      }
    }
  }

  /** Repeated decoding of an encoded value gives its leaves and ends at its end exactly when each of them is
      decodable. */
  lemma DecodeLeavesExactly(buf: Bytes, pos: nat, value: PropertyValue)
    requires At(buf, pos, Encoding(value))
    ensures DecodeRun(buf, pos, |Leaves(value)|) == Ok(Leaves(value), pos + |Encoding(value)|) <==>
      (forall leaf :: leaf in Leaves(value) ==> Decodable(leaf))
  {
    hide Encoding, EncodingOfAll, Leaves, DecodeRun, Decodable, At;
    LeavesEncoded(value);
    if forall leaf :: leaf in Leaves(value) ==> Decodable(leaf) {
      DecodeLeaves(buf, pos, value);
    } else {
      RunMisread(buf, pos, Leaves(value));
    }
  }
}

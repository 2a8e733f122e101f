/** The two checksums against their published parameters: residues and check values.  They fix start
    value, polynomial, bit order and final complement, which differences of two payloads leave open. */
module CrcResidues {
  import opened Machine
  import opened Crc
  import opened MstpCodec
  import opened FrameCheck
  import opened HeaderCheck

  // ---- What a receiver is left with ----------------------------------------------------------

  lemma OnesFed16()
    ensures Register16(0, LittleEndian(0xFFFF)) == 0xB001
  {
    TwoBytesFed(0, LittleEndian(0xFFFF));
    EightShiftsUnfolded(Xor16(0, 0xFF));
    assert EightShifts(0xFF) == 0x4040;
    EightShiftsUnfolded(Xor16(0x4040, 0xFF));
    assert EightShifts(0x40BF) == 0xB001;
  }

  lemma ComplementIsXor16(x: bv16)
    ensures !x == Xor16(x, 0xFFFF) && Xor16(x, 0) == x && Xor16(0, x) == x
  {
  }

  /** A receiver that runs the register over data and checksum is left with one and the same residue, whatever the
      data. */
  lemma DataResidue(data: Bytes)
    ensures Register16(0xFFFF, data + LittleEndian(Crc16(data))) == 0xB001
  {
    hide Xor16, LittleEndian;
    var r := Register16(0xFFFF, data);
    assert Crc16(data) == !r;
    hide Register16;
    Register16Append(0xFFFF, data, LittleEndian(!r));
    ComplementIsXor16(r);
    LittleEndianXor(r, 0xFFFF);
    Register16Xor(r, 0, LittleEndian(r), LittleEndian(0xFFFF));
    OwnBytesClear(r);
    OnesFed16();
    ComplementIsXor16(0xB001);
  }

  lemma OnesFed8()
    ensures Feed8(0, 0xFF) == 0xCF
  {
    EightShifts8Unfolded(Xor8(0, 0xFF));
    assert EightShifts8(0xFF) == 0xCF;
  }

  lemma ComplementIsXor8(x: bv8)
    ensures !x == Xor8(x, 0xFF) && Xor8(x, 0) == x && Xor8(0, x) == x
  {
  }

  lemma OwnComplementFed(r: bv8)
    ensures Feed8(r, !r) == 0xCF
  {
    hide Xor8, Shifts8;
    ComplementIsXor8(r);
    Feed8Xor(r, 0, r, 0xFF);
    Xor8Laws(r, r, r);
    ZeroShifts8(8);
    OnesFed8();
    ComplementIsXor8(0xCF);
  }

  /** The same for the header. */
  lemma HeaderResidue(header: Bytes)
    ensures Register8(0xFF, header + [Crc8(header)]) == 0xCF
  {
    var r := Register8(0xFF, header);
    assert (header + [!r])[..|header|] == header;
    hide Feed8;
    OwnComplementFed(r);
  }

  // ---- Check values -------------------------------------------------------------------------------

  lemma Fed16(data: Bytes, b: Byte, before: bv16, after: bv16)
    requires Register16(0xFFFF, data) == before && EightShifts(Xor16(before, b as bv16)) == after
    ensures Register16(0xFFFF, data + [b]) == after
  {
    hide EightShifts, Shifts16, Xor16;
    assert (data + [b])[..|data|] == data;
    EightShiftsUnfolded(Xor16(before, b as bv16));
  }

  lemma Fed8(data: Bytes, b: Byte, before: bv8, after: bv8)
    requires Register8(0xFF, data) == before && EightShifts8(Xor8(before, b)) == after
    ensures Register8(0xFF, data + [b]) == after
  {
    hide EightShifts8, Shifts8, Xor8;
    assert (data + [b])[..|data|] == data;
    EightShifts8Unfolded(Xor8(before, b));
  }

  /** The digits 1 to 9 as characters. */
  function Digits(n: nat): Bytes
    requires n <= 9
  {
    if n == 0 then [] else Digits(n - 1) + [Digit(n)]
  }

  function Digit(n: nat): Byte
    requires n <= 9
  {
    [0x30, 0x31, 0x32, 0x33, 0x34, 0x35, 0x36, 0x37, 0x38, 0x39][n]
  }

  /** The data register digit by digit. */
  function DataTrace(n: nat): bv16
    requires n <= 9
  {
    [0xFFFF, 0x947E, 0xF595, 0x7A75, 0x30BA, 0xA471, 0x32E4, 0x9D73, 0x37DD, 0x4B37][n]
  }

  lemma DataStep(n: nat)
    requires 1 <= n <= 9
    ensures EightShifts(Xor16(DataTrace(n - 1), Digit(n) as bv16)) == DataTrace(n)
  {
    assert EightShifts(Xor16(0xFFFF, 0x31)) == 0x947E && EightShifts(Xor16(0x947E, 0x32)) == 0xF595;
    assert EightShifts(Xor16(0xF595, 0x33)) == 0x7A75 && EightShifts(Xor16(0x7A75, 0x34)) == 0x30BA;
    assert EightShifts(Xor16(0x30BA, 0x35)) == 0xA471 && EightShifts(Xor16(0xA471, 0x36)) == 0x32E4;
    assert EightShifts(Xor16(0x32E4, 0x37)) == 0x9D73 && EightShifts(Xor16(0x9D73, 0x38)) == 0x37DD;
    assert EightShifts(Xor16(0x37DD, 0x39)) == 0x4B37;
    hide EightShifts, Xor16;
  }

  lemma {:induction false} DataTraced(n: nat)
    requires n <= 9
    ensures Register16(0xFFFF, Digits(n)) == DataTrace(n)
    decreases n
  {
    if n > 0 {
      hide EightShifts, Xor16, Register16, DataTrace, Digit;
      DataTraced(n - 1);
      DataStep(n);
      Fed16(Digits(n - 1), Digit(n), DataTrace(n - 1), DataTrace(n));
    }
  }

  /** The check value of this data checksum. */
  lemma DataCheckValue()
    ensures Crc16(Digits(9)) == 0xB4C8
  {
    hide Register16, Digits;
    DataTraced(9);
  }

  /** The header register digit by digit. */
  function HeaderTrace(n: nat): bv8
    requires n <= 9
  {
    [0xFF, 0x7A, 0x7E, 0xE8, 0x85, 0xC4, 0x57, 0x48, 0x54, 0xD0][n]
  }

  lemma HeaderStep(n: nat)
    requires 1 <= n <= 9
    ensures EightShifts8(Xor8(HeaderTrace(n - 1), Digit(n))) == HeaderTrace(n)
  {
    assert EightShifts8(Xor8(0xFF, 0x31)) == 0x7A && EightShifts8(Xor8(0x7A, 0x32)) == 0x7E;
    assert EightShifts8(Xor8(0x7E, 0x33)) == 0xE8 && EightShifts8(Xor8(0xE8, 0x34)) == 0x85;
    assert EightShifts8(Xor8(0x85, 0x35)) == 0xC4 && EightShifts8(Xor8(0xC4, 0x36)) == 0x57;
    assert EightShifts8(Xor8(0x57, 0x37)) == 0x48 && EightShifts8(Xor8(0x48, 0x38)) == 0x54;
    assert EightShifts8(Xor8(0x54, 0x39)) == 0xD0;
    hide EightShifts8, Xor8;
  }

  lemma {:induction false} HeaderTraced(n: nat)
    requires n <= 9
    ensures Register8(0xFF, Digits(n)) == HeaderTrace(n)
    decreases n
  {
    if n > 0 {
      hide EightShifts8, Xor8, Register8, HeaderTrace, Digit;
      HeaderTraced(n - 1);
      HeaderStep(n);
      Fed8(Digits(n - 1), Digit(n), HeaderTrace(n - 1), HeaderTrace(n));
    }
  }

  /** And of the header checksum. */
  lemma HeaderCheckValue()
    ensures Crc8(Digits(9)) == 0x2F
  {
    hide Register8, Digits;
    HeaderTraced(9);
  }
}

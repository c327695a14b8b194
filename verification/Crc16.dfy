/**
 CRC-16 as src/l0001-0/crc16.c computes it: a 256-entry table, one lookup per byte.  A uint16_t that is
 only shifted and XORed is modelled as its sixteen bits, most significant first.
 */
module Crc16 {
  import opened Bytes
  import opened ByteTable
  import opened ShiftRegister
  import opened TableCrc

  type Word = w: seq<bool> | |w| == 16 witness Zeros(16)

  /** Bit i of a numeral, counted from the most significant. */
  predicate NumeralBit(n: bv16, i: nat)
    requires i < 16
  {
    match i
    case 0 => n & 0x8000 != 0 case 1 => n & 0x4000 != 0 case 2 => n & 0x2000 != 0 case 3 => n & 0x1000 != 0
    case 4 => n & 0x0800 != 0 case 5 => n & 0x0400 != 0 case 6 => n & 0x0200 != 0 case 7 => n & 0x0100 != 0
    case 8 => n & 0x0080 != 0 case 9 => n & 0x0040 != 0 case 10 => n & 0x0020 != 0 case 11 => n & 0x0010 != 0
    case 12 => n & 0x0008 != 0 case 13 => n & 0x0004 != 0 case 14 => n & 0x0002 != 0 case _ => n & 0x0001 != 0
  }

  function WordOf(n: bv16): Word {
    seq(16, i requires 0 <= i < 16 => NumeralBit(n, i))
  }

  const ZERO: Word := Zeros(16)

  // ----- the program -----

  function RowAt(h: byte): Row<bv16> {
    match h
    case 0x0 => Row(0x0000, 0x1021, 0x2042, 0x3063, 0x4084, 0x50A5, 0x60C6, 0x70E7,
                    0x8108, 0x9129, 0xA14A, 0xB16B, 0xC18C, 0xD1AD, 0xE1CE, 0xF1EF)
    case 0x1 => Row(0x1231, 0x0210, 0x3273, 0x2252, 0x52B5, 0x4294, 0x72F7, 0x62D6,
                    0x9339, 0x8318, 0xB37B, 0xA35A, 0xD3BD, 0xC39C, 0xF3FF, 0xE3DE)
    case 0x2 => Row(0x2462, 0x3443, 0x0420, 0x1401, 0x64E6, 0x74C7, 0x44A4, 0x5485,
                    0xA56A, 0xB54B, 0x8528, 0x9509, 0xE5EE, 0xF5CF, 0xC5AC, 0xD58D)
    case 0x3 => Row(0x3653, 0x2672, 0x1611, 0x0630, 0x76D7, 0x66F6, 0x5695, 0x46B4,
                    0xB75B, 0xA77A, 0x9719, 0x8738, 0xF7DF, 0xE7FE, 0xD79D, 0xC7BC)
    case 0x4 => Row(0x48C4, 0x58E5, 0x6886, 0x78A7, 0x0840, 0x1861, 0x2802, 0x3823,
                    0xC9CC, 0xD9ED, 0xE98E, 0xF9AF, 0x8948, 0x9969, 0xA90A, 0xB92B)
    case 0x5 => Row(0x5AF5, 0x4AD4, 0x7AB7, 0x6A96, 0x1A71, 0x0A50, 0x3A33, 0x2A12,
                    0xDBFD, 0xCBDC, 0xFBBF, 0xEB9E, 0x9B79, 0x8B58, 0xBB3B, 0xAB1A)
    case 0x6 => Row(0x6CA6, 0x7C87, 0x4CE4, 0x5CC5, 0x2C22, 0x3C03, 0x0C60, 0x1C41,
                    0xEDAE, 0xFD8F, 0xCDEC, 0xDDCD, 0xAD2A, 0xBD0B, 0x8D68, 0x9D49)
    case 0x7 => Row(0x7E97, 0x6EB6, 0x5ED5, 0x4EF4, 0x3E13, 0x2E32, 0x1E51, 0x0E70,
                    0xFF9F, 0xEFBE, 0xDFDD, 0xCFFC, 0xBF1B, 0xAF3A, 0x9F59, 0x8F78)
    case 0x8 => Row(0x9188, 0x81A9, 0xB1CA, 0xA1EB, 0xD10C, 0xC12D, 0xF14E, 0xE16F,
                    0x1080, 0x00A1, 0x30C2, 0x20E3, 0x5004, 0x4025, 0x7046, 0x6067)
    case 0x9 => Row(0x83B9, 0x9398, 0xA3FB, 0xB3DA, 0xC33D, 0xD31C, 0xE37F, 0xF35E,
                    0x02B1, 0x1290, 0x22F3, 0x32D2, 0x4235, 0x5214, 0x6277, 0x7256)
    case 0xA => Row(0xB5EA, 0xA5CB, 0x95A8, 0x8589, 0xF56E, 0xE54F, 0xD52C, 0xC50D,
                    0x34E2, 0x24C3, 0x14A0, 0x0481, 0x7466, 0x6447, 0x5424, 0x4405)
    case 0xB => Row(0xA7DB, 0xB7FA, 0x8799, 0x97B8, 0xE75F, 0xF77E, 0xC71D, 0xD73C,
                    0x26D3, 0x36F2, 0x0691, 0x16B0, 0x6657, 0x7676, 0x4615, 0x5634)
    case 0xC => Row(0xD94C, 0xC96D, 0xF90E, 0xE92F, 0x99C8, 0x89E9, 0xB98A, 0xA9AB,
                    0x5844, 0x4865, 0x7806, 0x6827, 0x18C0, 0x08E1, 0x3882, 0x28A3)
    case 0xD => Row(0xCB7D, 0xDB5C, 0xEB3F, 0xFB1E, 0x8BF9, 0x9BD8, 0xABBB, 0xBB9A,
                    0x4A75, 0x5A54, 0x6A37, 0x7A16, 0x0AF1, 0x1AD0, 0x2AB3, 0x3A92)
    case 0xE => Row(0xFD2E, 0xED0F, 0xDD6C, 0xCD4D, 0xBDAA, 0xAD8B, 0x9DE8, 0x8DC9,
                    0x7C26, 0x6C07, 0x5C64, 0x4C45, 0x3CA2, 0x2C83, 0x1CE0, 0x0CC1)
    case _   => Row(0xEF1F, 0xFF3E, 0xCF5D, 0xDF7C, 0xAF9B, 0xBFBA, 0x8FD9, 0x9FF8,
                    0x6E17, 0x7E36, 0x4E55, 0x5E74, 0x2E93, 0x3EB2, 0x0ED1, 0x1EF0)
  }

  function Table(i: byte): (w: seq<bool>)
    ensures |w| == 16
  {
    WordOf(RowAt(i >> 4).At(i & 0x0F))
  }

  function Crc(sum: Word, buf: seq<byte>): Word {
    FoldLength(MsbFirst, Table, sum, buf);
    Fold(MsbFirst, Table, sum, buf)
  }

  /** Checksumming in pieces, feeding each result into the next call, is checksumming the whole. */
  lemma CrcConcat(sum: Word, a: seq<byte>, b: seq<byte>)
    ensures Crc(sum, a + b) == Crc(Crc(sum, a), b)
  {
    FoldConcat(MsbFirst, Table, sum, a, b);
  }

  /** The C loop over size bytes starting at buf + off. */
  method Compute(sum: Word, buf: array<byte>, off: nat, size: nat) returns (crc: Word)
    requires off + size <= buf.Length
    ensures crc == Crc(sum, buf[off..off + size])
  {
    var c := TableCrc.Compute(MsbFirst, Table, sum, buf, off, size);
    assert c == Crc(sum, buf[off..off + size]);
    crc := c;
  }

  // ----- the two bytes of a stored checksum -----

  /** The register a little-endian uint16_t field holds. */
  function FromLe(lo: byte, hi: byte): Word {
    ByteBits(hi) + ByteBits(lo)
  }

  function LowByte(w: Word): byte {
    ByteFrom(w[8..])
  }

  function HighByte(w: Word): byte {
    ByteFrom(w[..8])
  }

  lemma StoredWord(w: Word)
    ensures FromLe(LowByte(w), HighByte(w)) == w
  {
    ByteFromBits(w[8..]);
    ByteFromBits(w[..8]);
  }

  // ----- the table -----

  /** The generator x^16 + x^12 + x^5 + 1. */
  const POLY: Word := WordOf(0x1021)

  // A register step on the numerals the table is written in.
  function ShiftNumeral(n: bv16): bv16 {
    if n & 0x8000 != 0 then (n << 1) ^ 0x1021 else n << 1
  }

  function Entry(i: byte): bv16 {
    var n := (i as bv16) << 8;
    ShiftNumeral(ShiftNumeral(ShiftNumeral(ShiftNumeral(
      ShiftNumeral(ShiftNumeral(ShiftNumeral(ShiftNumeral(n))))))))
  }

  lemma ShiftedBit(n: bv16, i: nat)
    requires i < 16
    ensures NumeralBit(ShiftNumeral(n), i)
         == ((i < 15 && NumeralBit(n, i + 1)) != (NumeralBit(n, 0) && NumeralBit(0x1021, i)))
  {
    if
    case i == 0 => assert ((n << 1) ^ 0x1021) & 0x8000 != 0 <==> n & 0x4000 != 0; assert (n << 1) & 0x8000 != 0 <==> n & 0x4000 != 0;
    case i == 1 => assert ((n << 1) ^ 0x1021) & 0x4000 != 0 <==> n & 0x2000 != 0; assert (n << 1) & 0x4000 != 0 <==> n & 0x2000 != 0;
    case i == 2 => assert ((n << 1) ^ 0x1021) & 0x2000 != 0 <==> n & 0x1000 != 0; assert (n << 1) & 0x2000 != 0 <==> n & 0x1000 != 0;
    case i == 3 => assert ((n << 1) ^ 0x1021) & 0x1000 != 0 <==> n & 0x0800 == 0; assert (n << 1) & 0x1000 != 0 <==> n & 0x0800 != 0;
    case i == 4 => assert ((n << 1) ^ 0x1021) & 0x0800 != 0 <==> n & 0x0400 != 0; assert (n << 1) & 0x0800 != 0 <==> n & 0x0400 != 0;
    case i == 5 => assert ((n << 1) ^ 0x1021) & 0x0400 != 0 <==> n & 0x0200 != 0; assert (n << 1) & 0x0400 != 0 <==> n & 0x0200 != 0;
    case i == 6 => assert ((n << 1) ^ 0x1021) & 0x0200 != 0 <==> n & 0x0100 != 0; assert (n << 1) & 0x0200 != 0 <==> n & 0x0100 != 0;
    case i == 7 => assert ((n << 1) ^ 0x1021) & 0x0100 != 0 <==> n & 0x0080 != 0; assert (n << 1) & 0x0100 != 0 <==> n & 0x0080 != 0;
    case i == 8 => assert ((n << 1) ^ 0x1021) & 0x0080 != 0 <==> n & 0x0040 != 0; assert (n << 1) & 0x0080 != 0 <==> n & 0x0040 != 0;
    case i == 9 => assert ((n << 1) ^ 0x1021) & 0x0040 != 0 <==> n & 0x0020 != 0; assert (n << 1) & 0x0040 != 0 <==> n & 0x0020 != 0;
    case i == 10 => assert ((n << 1) ^ 0x1021) & 0x0020 != 0 <==> n & 0x0010 == 0; assert (n << 1) & 0x0020 != 0 <==> n & 0x0010 != 0;
    case i == 11 => assert ((n << 1) ^ 0x1021) & 0x0010 != 0 <==> n & 0x0008 != 0; assert (n << 1) & 0x0010 != 0 <==> n & 0x0008 != 0;
    case i == 12 => assert ((n << 1) ^ 0x1021) & 0x0008 != 0 <==> n & 0x0004 != 0; assert (n << 1) & 0x0008 != 0 <==> n & 0x0004 != 0;
    case i == 13 => assert ((n << 1) ^ 0x1021) & 0x0004 != 0 <==> n & 0x0002 != 0; assert (n << 1) & 0x0004 != 0 <==> n & 0x0002 != 0;
    case i == 14 => assert ((n << 1) ^ 0x1021) & 0x0002 != 0 <==> n & 0x0001 != 0; assert (n << 1) & 0x0002 != 0 <==> n & 0x0001 != 0;
    case i == 15 => assert ((n << 1) ^ 0x1021) & 0x0001 != 0; assert !((n << 1) & 0x0001 != 0);
  }

  lemma WordOfShift(n: bv16)
    ensures WordOf(ShiftNumeral(n)) == Shift(POLY, WordOf(n))
  {
    forall i | 0 <= i < 16
      ensures WordOf(ShiftNumeral(n))[i] == Shift(POLY, WordOf(n))[i]
    {
      ShiftedBit(n, i);
    }
  }

  lemma WordOfEntry(i: byte)
    ensures WordOf(Entry(i)) == ShiftN(POLY, ByteBits(i) + Zeros(8), 8)
  {
    var n0 := (i as bv16) << 8;
    var n1 := ShiftNumeral(n0);
    var n2 := ShiftNumeral(n1);
    var n3 := ShiftNumeral(n2);
    var n4 := ShiftNumeral(n3);
    var n5 := ShiftNumeral(n4);
    var n6 := ShiftNumeral(n5);
    var n7 := ShiftNumeral(n6);
    WordOfIndex(i);
    WordOfShift(n0);
    WordOfShift(n1);
    WordOfShift(n2);
    WordOfShift(n3);
    WordOfShift(n4);
    WordOfShift(n5);
    WordOfShift(n6);
    WordOfShift(n7);
    EightShifts(WordOf(n0));
  }

  lemma EightShifts(r: Word)
    ensures ShiftN(POLY, r, 8)
         == Shift(POLY, Shift(POLY, Shift(POLY, Shift(POLY, Shift(POLY, Shift(POLY, Shift(POLY, Shift(POLY, r))))))))
  {
    FourShifts(r);
    FourShifts(ShiftN(POLY, r, 4));
    ShiftNPlus(POLY, r, 4, 4);
  }

  lemma FourShifts(r: Word)
    ensures ShiftN(POLY, r, 4) == Shift(POLY, Shift(POLY, Shift(POLY, Shift(POLY, r))))
  {
  }

  lemma WordOfIndex(i: byte)
    ensures WordOf((i as bv16) << 8) == ByteBits(i) + Zeros(8)
  {
    forall k | 0 <= k < 16
      ensures NumeralBit((i as bv16) << 8, k) == (k < 8 && BitOf(i, k))
    {
      IndexBit(i, k);
    }
  }

  lemma IndexBit(i: byte, k: nat)
    requires k < 16
    ensures NumeralBit((i as bv16) << 8, k) == (k < 8 && BitOf(i, k))
  {
  }

  lemma Row0()
    ensures RowAt(0x0).Is(Entry, 0x00)
  {
  }

  lemma Row1()
    ensures RowAt(0x1).Is(Entry, 0x10)
  {
  }

  lemma Row2()
    ensures RowAt(0x2).Is(Entry, 0x20)
  {
  }

  lemma Row3()
    ensures RowAt(0x3).Is(Entry, 0x30)
  {
  }

  lemma Row4()
    ensures RowAt(0x4).Is(Entry, 0x40)
  {
  }

  lemma Row5()
    ensures RowAt(0x5).Is(Entry, 0x50)
  {
  }

  lemma Row6()
    ensures RowAt(0x6).Is(Entry, 0x60)
  {
  }

  lemma Row7()
    ensures RowAt(0x7).Is(Entry, 0x70)
  {
  }

  lemma Row8()
    ensures RowAt(0x8).Is(Entry, 0x80)
  {
  }

  lemma Row9()
    ensures RowAt(0x9).Is(Entry, 0x90)
  {
  }

  lemma RowA()
    ensures RowAt(0xA).Is(Entry, 0xA0)
  {
  }

  lemma RowB()
    ensures RowAt(0xB).Is(Entry, 0xB0)
  {
  }

  lemma RowC()
    ensures RowAt(0xC).Is(Entry, 0xC0)
  {
  }

  lemma RowD()
    ensures RowAt(0xD).Is(Entry, 0xD0)
  {
  }

  lemma RowE()
    ensures RowAt(0xE).Is(Entry, 0xE0)
  {
  }

  lemma RowF()
    ensures RowAt(0xF).Is(Entry, 0xF0)
  {
  }

  lemma RowsAreEntries(i: byte)
    ensures RowAt(i >> 4).Is(Entry, i & 0xF0)
  {
    if i >> 4 == 0x0 { Row0(); }
    else if i >> 4 == 0x1 { Row1(); }
    else if i >> 4 == 0x2 { Row2(); }
    else if i >> 4 == 0x3 { Row3(); }
    else if i >> 4 == 0x4 { Row4(); }
    else if i >> 4 == 0x5 { Row5(); }
    else if i >> 4 == 0x6 { Row6(); }
    else if i >> 4 == 0x7 { Row7(); }
    else if i >> 4 == 0x8 { Row8(); }
    else if i >> 4 == 0x9 { Row9(); }
    else if i >> 4 == 0xA { RowA(); }
    else if i >> 4 == 0xB { RowB(); }
    else if i >> 4 == 0xC { RowC(); }
    else if i >> 4 == 0xD { RowD(); }
    else if i >> 4 == 0xE { RowE(); }
    else { RowF(); }
  }

  lemma TableIsEntry(i: byte)
    ensures Table(i) == WordOf(Entry(i))
  {
    RowsAreEntries(i);
    RowAt(i >> 4).AtIs(Entry, i);
  }

  /** Every table entry is eight register steps of its index. */
  lemma TableIsEightShifts(i: byte)
    ensures Table(i) == ShiftN(POLY, ByteBits(i) + Zeros(8), 8)
  {
    TableIsEntry(i);
    WordOfEntry(i);
  }

  lemma TableForPoly()
    ensures TableFor(MsbFirst, Table, POLY) && Generator(POLY)
  {
    assert POLY[15];
    forall i ensures Table(i) == ShiftN(POLY, OrderBits(MsbFirst, i) + Zeros(|POLY| - 8), 8) {
      TableIsEightShifts(i);
    }
  }

  // ----- what the program computes -----

  /** The table-driven loop is the bit-serial register, for every start value and every message. */
  lemma TableDrivenIsBitSerial(s: Word, m: seq<byte>)
    ensures Crc(s, m) == Run(POLY, s, Message(MsbFirst, m))
  {
    TableForPoly();
    FoldIsRun(MsbFirst, Table, POLY, s, m);
  }

  /** crc16(0, m) is the remainder of m(x) * x^16 on division by x^16 + x^12 + x^5 + 1. */
  lemma CrcIsRemainder(m: seq<byte>)
    ensures Crc(ZERO, m) == Divide(POLY, ZERO, Message(MsbFirst, m) + Zeros(16))
  {
    TableForPoly();
    TableDrivenIsBitSerial(ZERO, m);
    RunIsRemainder(POLY, Message(MsbFirst, m));
  }

  // ----- what it detects -----

  /** Different messages of equal length that agree outside some 16 consecutive bits never share a checksum. */
  lemma BurstDetected(s: Word, a: seq<byte>, b: seq<byte>, p: nat)
    requires |a| == |b| && a != b
    requires AgreeOutside(Message(MsbFirst, a), Message(MsbFirst, b), p, p + 16)
    ensures Crc(s, a) != Crc(s, b)
  {
    TableForPoly();
    TableCrc.BurstDetected(MsbFirst, Table, POLY, s, a, b, p);
  }

  /** Messages that differ in an odd number of bits, wherever they lie, never share a checksum. */
  lemma OddErrorsDetected(s: Word, a: seq<byte>, b: seq<byte>)
    requires |a| == |b| && Odd(Xor(Message(MsbFirst, a), Message(MsbFirst, b)))
    ensures Crc(s, a) != Crc(s, b)
  {
    TableForPoly();
    PolyIsOdd();
    TableCrc.OddErrorsDetected(MsbFirst, Table, POLY, s, a, b);
  }

  lemma PolyIsOdd()
    ensures Odd(POLY)
  {
    var x, y, z := Zeros(16)[3 := true], Zeros(16)[10 := true], Zeros(16)[15 := true];
    assert POLY == Xor(Xor(x, y), z);
    OddXor(Xor(x, y), z);
    OddXor(x, y);
    OddSingle(x, 3);
    OddSingle(y, 10);
    OddSingle(z, 15);
  }
}

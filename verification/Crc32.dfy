/**
 CRC-32 as src/l0001-0/crc32.c computes it: the table form of section 8 of RFC 1952, with the final
 complement but without the initial one.  Registers are bit strings, least significant bit first.
 */
module Crc32 {
  import opened Bytes
  import opened ByteTable
  import opened ShiftRegister
  import opened TableCrc

  type Word = w: seq<bool> | |w| == 32 witness Zeros(32)

  /** Bit i of a numeral, counted from the least significant. */
  predicate NumeralBit(n: bv32, i: nat)
    requires i < 32
  {
    match i
    case 0 => n & 0x00000001 != 0 case 1 => n & 0x00000002 != 0 case 2 => n & 0x00000004 != 0 case 3 => n & 0x00000008 != 0
    case 4 => n & 0x00000010 != 0 case 5 => n & 0x00000020 != 0 case 6 => n & 0x00000040 != 0 case 7 => n & 0x00000080 != 0
    case 8 => n & 0x00000100 != 0 case 9 => n & 0x00000200 != 0 case 10 => n & 0x00000400 != 0 case 11 => n & 0x00000800 != 0
    case 12 => n & 0x00001000 != 0 case 13 => n & 0x00002000 != 0 case 14 => n & 0x00004000 != 0 case 15 => n & 0x00008000 != 0
    case 16 => n & 0x00010000 != 0 case 17 => n & 0x00020000 != 0 case 18 => n & 0x00040000 != 0 case 19 => n & 0x00080000 != 0
    case 20 => n & 0x00100000 != 0 case 21 => n & 0x00200000 != 0 case 22 => n & 0x00400000 != 0 case 23 => n & 0x00800000 != 0
    case 24 => n & 0x01000000 != 0 case 25 => n & 0x02000000 != 0 case 26 => n & 0x04000000 != 0 case 27 => n & 0x08000000 != 0
    case 28 => n & 0x10000000 != 0 case 29 => n & 0x20000000 != 0 case 30 => n & 0x40000000 != 0 case _ => n & 0x80000000 != 0
  }

  function WordOf(n: bv32): Word {
    seq(32, i requires 0 <= i < 32 => NumeralBit(n, i))
  }

  // ----- the program -----

  function RowAt(h: byte): Row<bv32> {
    match h
    case 0x0 => Row(0x00000000, 0x77073096, 0xEE0E612C, 0x990951BA,
                    0x076DC419, 0x706AF48F, 0xE963A535, 0x9E6495A3,
                    0x0EDB8832, 0x79DCB8A4, 0xE0D5E91E, 0x97D2D988,
                    0x09B64C2B, 0x7EB17CBD, 0xE7B82D07, 0x90BF1D91)
    case 0x1 => Row(0x1DB71064, 0x6AB020F2, 0xF3B97148, 0x84BE41DE,
                    0x1ADAD47D, 0x6DDDE4EB, 0xF4D4B551, 0x83D385C7,
                    0x136C9856, 0x646BA8C0, 0xFD62F97A, 0x8A65C9EC,
                    0x14015C4F, 0x63066CD9, 0xFA0F3D63, 0x8D080DF5)
    case 0x2 => Row(0x3B6E20C8, 0x4C69105E, 0xD56041E4, 0xA2677172,
                    0x3C03E4D1, 0x4B04D447, 0xD20D85FD, 0xA50AB56B,
                    0x35B5A8FA, 0x42B2986C, 0xDBBBC9D6, 0xACBCF940,
                    0x32D86CE3, 0x45DF5C75, 0xDCD60DCF, 0xABD13D59)
    case 0x3 => Row(0x26D930AC, 0x51DE003A, 0xC8D75180, 0xBFD06116,
                    0x21B4F4B5, 0x56B3C423, 0xCFBA9599, 0xB8BDA50F,
                    0x2802B89E, 0x5F058808, 0xC60CD9B2, 0xB10BE924,
                    0x2F6F7C87, 0x58684C11, 0xC1611DAB, 0xB6662D3D)
    case 0x4 => Row(0x76DC4190, 0x01DB7106, 0x98D220BC, 0xEFD5102A,
                    0x71B18589, 0x06B6B51F, 0x9FBFE4A5, 0xE8B8D433,
                    0x7807C9A2, 0x0F00F934, 0x9609A88E, 0xE10E9818,
                    0x7F6A0DBB, 0x086D3D2D, 0x91646C97, 0xE6635C01)
    case 0x5 => Row(0x6B6B51F4, 0x1C6C6162, 0x856530D8, 0xF262004E,
                    0x6C0695ED, 0x1B01A57B, 0x8208F4C1, 0xF50FC457,
                    0x65B0D9C6, 0x12B7E950, 0x8BBEB8EA, 0xFCB9887C,
                    0x62DD1DDF, 0x15DA2D49, 0x8CD37CF3, 0xFBD44C65)
    case 0x6 => Row(0x4DB26158, 0x3AB551CE, 0xA3BC0074, 0xD4BB30E2,
                    0x4ADFA541, 0x3DD895D7, 0xA4D1C46D, 0xD3D6F4FB,
                    0x4369E96A, 0x346ED9FC, 0xAD678846, 0xDA60B8D0,
                    0x44042D73, 0x33031DE5, 0xAA0A4C5F, 0xDD0D7CC9)
    case 0x7 => Row(0x5005713C, 0x270241AA, 0xBE0B1010, 0xC90C2086,
                    0x5768B525, 0x206F85B3, 0xB966D409, 0xCE61E49F,
                    0x5EDEF90E, 0x29D9C998, 0xB0D09822, 0xC7D7A8B4,
                    0x59B33D17, 0x2EB40D81, 0xB7BD5C3B, 0xC0BA6CAD)
    case 0x8 => Row(0xEDB88320, 0x9ABFB3B6, 0x03B6E20C, 0x74B1D29A,
                    0xEAD54739, 0x9DD277AF, 0x04DB2615, 0x73DC1683,
                    0xE3630B12, 0x94643B84, 0x0D6D6A3E, 0x7A6A5AA8,
                    0xE40ECF0B, 0x9309FF9D, 0x0A00AE27, 0x7D079EB1)
    case 0x9 => Row(0xF00F9344, 0x8708A3D2, 0x1E01F268, 0x6906C2FE,
                    0xF762575D, 0x806567CB, 0x196C3671, 0x6E6B06E7,
                    0xFED41B76, 0x89D32BE0, 0x10DA7A5A, 0x67DD4ACC,
                    0xF9B9DF6F, 0x8EBEEFF9, 0x17B7BE43, 0x60B08ED5)
    case 0xA => Row(0xD6D6A3E8, 0xA1D1937E, 0x38D8C2C4, 0x4FDFF252,
                    0xD1BB67F1, 0xA6BC5767, 0x3FB506DD, 0x48B2364B,
                    0xD80D2BDA, 0xAF0A1B4C, 0x36034AF6, 0x41047A60,
                    0xDF60EFC3, 0xA867DF55, 0x316E8EEF, 0x4669BE79)
    case 0xB => Row(0xCB61B38C, 0xBC66831A, 0x256FD2A0, 0x5268E236,
                    0xCC0C7795, 0xBB0B4703, 0x220216B9, 0x5505262F,
                    0xC5BA3BBE, 0xB2BD0B28, 0x2BB45A92, 0x5CB36A04,
                    0xC2D7FFA7, 0xB5D0CF31, 0x2CD99E8B, 0x5BDEAE1D)
    case 0xC => Row(0x9B64C2B0, 0xEC63F226, 0x756AA39C, 0x026D930A,
                    0x9C0906A9, 0xEB0E363F, 0x72076785, 0x05005713,
                    0x95BF4A82, 0xE2B87A14, 0x7BB12BAE, 0x0CB61B38,
                    0x92D28E9B, 0xE5D5BE0D, 0x7CDCEFB7, 0x0BDBDF21)
    case 0xD => Row(0x86D3D2D4, 0xF1D4E242, 0x68DDB3F8, 0x1FDA836E,
                    0x81BE16CD, 0xF6B9265B, 0x6FB077E1, 0x18B74777,
                    0x88085AE6, 0xFF0F6A70, 0x66063BCA, 0x11010B5C,
                    0x8F659EFF, 0xF862AE69, 0x616BFFD3, 0x166CCF45)
    case 0xE => Row(0xA00AE278, 0xD70DD2EE, 0x4E048354, 0x3903B3C2,
                    0xA7672661, 0xD06016F7, 0x4969474D, 0x3E6E77DB,
                    0xAED16A4A, 0xD9D65ADC, 0x40DF0B66, 0x37D83BF0,
                    0xA9BCAE53, 0xDEBB9EC5, 0x47B2CF7F, 0x30B5FFE9)
    case _   => Row(0xBDBDF21C, 0xCABAC28A, 0x53B39330, 0x24B4A3A6,
                    0xBAD03605, 0xCDD70693, 0x54DE5729, 0x23D967BF,
                    0xB3667A2E, 0xC4614AB8, 0x5D681B02, 0x2A6F2B94,
                    0xB40BBE37, 0xC30C8EA1, 0x5A05DF1B, 0x2D02EF8D)
  }

  function Table(i: byte): (w: seq<bool>)
    ensures |w| == 32
  {
    WordOf(RowAt(i >> 4).At(i & 0x0F))
  }

  function Complement(w: Word): Word {
    seq(32, i requires 0 <= i < 32 => !w[i])
  }

  /** The register after the loop, before the final complement. */
  function Register(crc: Word, buf: seq<byte>): Word {
    FoldLength(LsbFirst, Table, crc, buf);
    Fold(LsbFirst, Table, crc, buf)
  }

  function Crc(crc: Word, buf: seq<byte>): Word {
    Complement(Register(crc, buf))
  }

  method Compute(crc: Word, buf: array<byte>, size: nat) returns (r: Word)
    requires size <= buf.Length
    ensures r == Crc(crc, buf[..size])
  {
    var c := TableCrc.Compute(LsbFirst, Table, crc, buf, 0, size);
    assert buf[0..0 + size] == buf[..size];
    assert c == Register(crc, buf[..size]);
    r := Complement(c);
  }

  // ----- the table -----

  /** The generator of RFC 1952, 0xEDB88320, x^31 first. */
  const POLY: Word := WordOf(0xEDB88320)

  // A register step on the numerals the table is written in.
  function ShiftNumeral(n: bv32): bv32 {
    if n & 1 != 0 then (n >> 1) ^ 0xEDB88320 else n >> 1
  }

  function Entry(i: byte): bv32 {
    var n := i as bv32;
    ShiftNumeral(ShiftNumeral(ShiftNumeral(ShiftNumeral(
      ShiftNumeral(ShiftNumeral(ShiftNumeral(ShiftNumeral(n))))))))
  }

  lemma ShiftedLowBit(n: bv32, i: nat)
    requires 0 <= i < 16
    ensures NumeralBit(ShiftNumeral(n), i)
         == ((i < 31 && NumeralBit(n, i + 1)) != (NumeralBit(n, 0) && NumeralBit(0xEDB88320, i)))
  {
    if
    case i == 0 =>
      assert ((n >> 1) ^ 0xEDB88320) & 0x00000001 != 0 <==> n & 0x00000002 != 0;
      assert (n >> 1) & 0x00000001 != 0 <==> n & 0x00000002 != 0;
    case i == 1 =>
      assert ((n >> 1) ^ 0xEDB88320) & 0x00000002 != 0 <==> n & 0x00000004 != 0;
      assert (n >> 1) & 0x00000002 != 0 <==> n & 0x00000004 != 0;
    case i == 2 =>
      assert ((n >> 1) ^ 0xEDB88320) & 0x00000004 != 0 <==> n & 0x00000008 != 0;
      assert (n >> 1) & 0x00000004 != 0 <==> n & 0x00000008 != 0;
    case i == 3 =>
      assert ((n >> 1) ^ 0xEDB88320) & 0x00000008 != 0 <==> n & 0x00000010 != 0;
      assert (n >> 1) & 0x00000008 != 0 <==> n & 0x00000010 != 0;
    case i == 4 =>
      assert ((n >> 1) ^ 0xEDB88320) & 0x00000010 != 0 <==> n & 0x00000020 != 0;
      assert (n >> 1) & 0x00000010 != 0 <==> n & 0x00000020 != 0;
    case i == 5 =>
      assert ((n >> 1) ^ 0xEDB88320) & 0x00000020 != 0 <==> n & 0x00000040 == 0;
      assert (n >> 1) & 0x00000020 != 0 <==> n & 0x00000040 != 0;
    case i == 6 =>
      assert ((n >> 1) ^ 0xEDB88320) & 0x00000040 != 0 <==> n & 0x00000080 != 0;
      assert (n >> 1) & 0x00000040 != 0 <==> n & 0x00000080 != 0;
    case i == 7 =>
      assert ((n >> 1) ^ 0xEDB88320) & 0x00000080 != 0 <==> n & 0x00000100 != 0;
      assert (n >> 1) & 0x00000080 != 0 <==> n & 0x00000100 != 0;
    case i == 8 =>
      assert ((n >> 1) ^ 0xEDB88320) & 0x00000100 != 0 <==> n & 0x00000200 == 0;
      assert (n >> 1) & 0x00000100 != 0 <==> n & 0x00000200 != 0;
    case i == 9 =>
      assert ((n >> 1) ^ 0xEDB88320) & 0x00000200 != 0 <==> n & 0x00000400 == 0;
      assert (n >> 1) & 0x00000200 != 0 <==> n & 0x00000400 != 0;
    case i == 10 =>
      assert ((n >> 1) ^ 0xEDB88320) & 0x00000400 != 0 <==> n & 0x00000800 != 0;
      assert (n >> 1) & 0x00000400 != 0 <==> n & 0x00000800 != 0;
    case i == 11 =>
      assert ((n >> 1) ^ 0xEDB88320) & 0x00000800 != 0 <==> n & 0x00001000 != 0;
      assert (n >> 1) & 0x00000800 != 0 <==> n & 0x00001000 != 0;
    case i == 12 =>
      assert ((n >> 1) ^ 0xEDB88320) & 0x00001000 != 0 <==> n & 0x00002000 != 0;
      assert (n >> 1) & 0x00001000 != 0 <==> n & 0x00002000 != 0;
    case i == 13 =>
      assert ((n >> 1) ^ 0xEDB88320) & 0x00002000 != 0 <==> n & 0x00004000 != 0;
      assert (n >> 1) & 0x00002000 != 0 <==> n & 0x00004000 != 0;
    case i == 14 =>
      assert ((n >> 1) ^ 0xEDB88320) & 0x00004000 != 0 <==> n & 0x00008000 != 0;
      assert (n >> 1) & 0x00004000 != 0 <==> n & 0x00008000 != 0;
    case i == 15 =>
      assert ((n >> 1) ^ 0xEDB88320) & 0x00008000 != 0 <==> n & 0x00010000 == 0;
      assert (n >> 1) & 0x00008000 != 0 <==> n & 0x00010000 != 0;
  }

  lemma ShiftedHighBit(n: bv32, i: nat)
    requires 16 <= i < 32
    ensures NumeralBit(ShiftNumeral(n), i)
         == ((i < 31 && NumeralBit(n, i + 1)) != (NumeralBit(n, 0) && NumeralBit(0xEDB88320, i)))
  {
    if
    case i == 16 =>
      assert ((n >> 1) ^ 0xEDB88320) & 0x00010000 != 0 <==> n & 0x00020000 != 0;
      assert (n >> 1) & 0x00010000 != 0 <==> n & 0x00020000 != 0;
    case i == 17 =>
      assert ((n >> 1) ^ 0xEDB88320) & 0x00020000 != 0 <==> n & 0x00040000 != 0;
      assert (n >> 1) & 0x00020000 != 0 <==> n & 0x00040000 != 0;
    case i == 18 =>
      assert ((n >> 1) ^ 0xEDB88320) & 0x00040000 != 0 <==> n & 0x00080000 != 0;
      assert (n >> 1) & 0x00040000 != 0 <==> n & 0x00080000 != 0;
    case i == 19 =>
      assert ((n >> 1) ^ 0xEDB88320) & 0x00080000 != 0 <==> n & 0x00100000 == 0;
      assert (n >> 1) & 0x00080000 != 0 <==> n & 0x00100000 != 0;
    case i == 20 =>
      assert ((n >> 1) ^ 0xEDB88320) & 0x00100000 != 0 <==> n & 0x00200000 == 0;
      assert (n >> 1) & 0x00100000 != 0 <==> n & 0x00200000 != 0;
    case i == 21 =>
      assert ((n >> 1) ^ 0xEDB88320) & 0x00200000 != 0 <==> n & 0x00400000 == 0;
      assert (n >> 1) & 0x00200000 != 0 <==> n & 0x00400000 != 0;
    case i == 22 =>
      assert ((n >> 1) ^ 0xEDB88320) & 0x00400000 != 0 <==> n & 0x00800000 != 0;
      assert (n >> 1) & 0x00400000 != 0 <==> n & 0x00800000 != 0;
    case i == 23 =>
      assert ((n >> 1) ^ 0xEDB88320) & 0x00800000 != 0 <==> n & 0x01000000 == 0;
      assert (n >> 1) & 0x00800000 != 0 <==> n & 0x01000000 != 0;
    case i == 24 =>
      assert ((n >> 1) ^ 0xEDB88320) & 0x01000000 != 0 <==> n & 0x02000000 == 0;
      assert (n >> 1) & 0x01000000 != 0 <==> n & 0x02000000 != 0;
    case i == 25 =>
      assert ((n >> 1) ^ 0xEDB88320) & 0x02000000 != 0 <==> n & 0x04000000 != 0;
      assert (n >> 1) & 0x02000000 != 0 <==> n & 0x04000000 != 0;
    case i == 26 =>
      assert ((n >> 1) ^ 0xEDB88320) & 0x04000000 != 0 <==> n & 0x08000000 == 0;
      assert (n >> 1) & 0x04000000 != 0 <==> n & 0x08000000 != 0;
    case i == 27 =>
      assert ((n >> 1) ^ 0xEDB88320) & 0x08000000 != 0 <==> n & 0x10000000 == 0;
      assert (n >> 1) & 0x08000000 != 0 <==> n & 0x10000000 != 0;
    case i == 28 =>
      assert ((n >> 1) ^ 0xEDB88320) & 0x10000000 != 0 <==> n & 0x20000000 != 0;
      assert (n >> 1) & 0x10000000 != 0 <==> n & 0x20000000 != 0;
    case i == 29 =>
      assert ((n >> 1) ^ 0xEDB88320) & 0x20000000 != 0 <==> n & 0x40000000 == 0;
      assert (n >> 1) & 0x20000000 != 0 <==> n & 0x40000000 != 0;
    case i == 30 =>
      assert ((n >> 1) ^ 0xEDB88320) & 0x40000000 != 0 <==> n & 0x80000000 == 0;
      assert (n >> 1) & 0x40000000 != 0 <==> n & 0x80000000 != 0;
    case i == 31 =>
      assert ((n >> 1) ^ 0xEDB88320) & 0x80000000 != 0; assert !((n >> 1) & 0x80000000 != 0);
  }

  lemma ShiftedBit(n: bv32, i: nat)
    requires i < 32
    ensures NumeralBit(ShiftNumeral(n), i)
         == ((i < 31 && NumeralBit(n, i + 1)) != (NumeralBit(n, 0) && NumeralBit(0xEDB88320, i)))
  {
    if i < 16 {
      ShiftedLowBit(n, i);
    } else {
      ShiftedHighBit(n, i);
    }
  }

  lemma WordOfShift(n: bv32)
    ensures WordOf(ShiftNumeral(n)) == Shift(POLY, WordOf(n))
  {
    forall i | 0 <= i < 32
      ensures WordOf(ShiftNumeral(n))[i] == Shift(POLY, WordOf(n))[i]
    {
      ShiftedBit(n, i);
    }
    SameBits(WordOf(ShiftNumeral(n)), Shift(POLY, WordOf(n)));
  }

  lemma SameBits(a: seq<bool>, b: seq<bool>)
    requires |a| == |b| && forall i :: 0 <= i < |a| ==> a[i] == b[i]
    ensures a == b
  {
  }

  lemma WordOfEntry(i: byte)
    ensures WordOf(Entry(i)) == ShiftN(POLY, OrderBits(LsbFirst, i) + Zeros(24), 8)
  {
    var n0 := i as bv32;
    var n1 := ShiftNumeral(n0);
    var n2 := ShiftNumeral(n1);
    var n3 := ShiftNumeral(n2);
    var n4 := ShiftNumeral(n3);
    var n5 := ShiftNumeral(n4);
    var n6 := ShiftNumeral(n5);
    var n7 := ShiftNumeral(n6);
    WordOfIndex(i);
    WordOfShift(n0);
    WordOfShift(n1);
    WordOfShift(n2);
    WordOfShift(n3);
    WordOfShift(n4);
    WordOfShift(n5);
    WordOfShift(n6);
    WordOfShift(n7);
    EightShifts(WordOf(n0));
  }

  lemma EightShifts(r: Word)
    ensures ShiftN(POLY, r, 8)
         == Shift(POLY, Shift(POLY, Shift(POLY, Shift(POLY, Shift(POLY, Shift(POLY, Shift(POLY, Shift(POLY, r))))))))
  {
    FourShifts(r);
    FourShifts(ShiftN(POLY, r, 4));
    ShiftNPlus(POLY, r, 4, 4);
  }

  lemma FourShifts(r: Word)
    ensures ShiftN(POLY, r, 4) == Shift(POLY, Shift(POLY, Shift(POLY, Shift(POLY, r))))
  {
  }

  lemma WordOfIndex(i: byte)
    ensures WordOf(i as bv32) == OrderBits(LsbFirst, i) + Zeros(24)
  {
    forall k | 0 <= k < 32
      ensures WordOf(i as bv32)[k] == (OrderBits(LsbFirst, i) + Zeros(24))[k]
    {
      IndexBit(i, k);
    }
  }

  lemma IndexBit(i: byte, k: nat)
    requires k < 32
    ensures NumeralBit(i as bv32, k) == (k < 8 && BitOf(i, 7 - k))
  {
  }

  lemma Row0()
    ensures RowAt(0x0).Is(Entry, 0x00)
  {
  }

  lemma Row1()
    ensures RowAt(0x1).Is(Entry, 0x10)
  {
  }

  lemma Row2()
    ensures RowAt(0x2).Is(Entry, 0x20)
  {
  }

  lemma Row3()
    ensures RowAt(0x3).Is(Entry, 0x30)
  {
  }

  lemma Row4()
    ensures RowAt(0x4).Is(Entry, 0x40)
  {
  }

  lemma Row5()
    ensures RowAt(0x5).Is(Entry, 0x50)
  {
  }

  lemma Row6()
    ensures RowAt(0x6).Is(Entry, 0x60)
  {
  }

  lemma Row7()
    ensures RowAt(0x7).Is(Entry, 0x70)
  {
  }

  lemma Row8()
    ensures RowAt(0x8).Is(Entry, 0x80)
  {
  }

  lemma Row9()
    ensures RowAt(0x9).Is(Entry, 0x90)
  {
  }

  lemma RowA()
    ensures RowAt(0xA).Is(Entry, 0xA0)
  {
  }

  lemma RowB()
    ensures RowAt(0xB).Is(Entry, 0xB0)
  {
  }

  lemma RowC()
    ensures RowAt(0xC).Is(Entry, 0xC0)
  {
  }

  lemma RowD()
    ensures RowAt(0xD).Is(Entry, 0xD0)
  {
  }

  lemma RowE()
    ensures RowAt(0xE).Is(Entry, 0xE0)
  {
  }

  lemma RowF()
    ensures RowAt(0xF).Is(Entry, 0xF0)
  {
  }

  lemma RowsAreEntries(i: byte)
    ensures RowAt(i >> 4).Is(Entry, i & 0xF0)
  {
    if i >> 4 == 0x0 { Row0(); }
    else if i >> 4 == 0x1 { Row1(); }
    else if i >> 4 == 0x2 { Row2(); }
    else if i >> 4 == 0x3 { Row3(); }
    else if i >> 4 == 0x4 { Row4(); }
    else if i >> 4 == 0x5 { Row5(); }
    else if i >> 4 == 0x6 { Row6(); }
    else if i >> 4 == 0x7 { Row7(); }
    else if i >> 4 == 0x8 { Row8(); }
    else if i >> 4 == 0x9 { Row9(); }
    else if i >> 4 == 0xA { RowA(); }
    else if i >> 4 == 0xB { RowB(); }
    else if i >> 4 == 0xC { RowC(); }
    else if i >> 4 == 0xD { RowD(); }
    else if i >> 4 == 0xE { RowE(); }
    else { RowF(); }
  }

  lemma TableIsEntry(i: byte)
    ensures Table(i) == WordOf(Entry(i))
  {
    RowsAreEntries(i);
    RowAt(i >> 4).AtIs(Entry, i);
  }

  /** Every table entry is eight register steps of its index. */
  lemma TableIsEightShifts(i: byte)
    ensures Table(i) == ShiftN(POLY, OrderBits(LsbFirst, i) + Zeros(24), 8)
  {
    TableIsEntry(i);
    WordOfEntry(i);
  }

  lemma TableForPoly()
    ensures TableFor(LsbFirst, Table, POLY) && Generator(POLY)
  {
    assert POLY[31];
    forall i ensures Table(i) == ShiftN(POLY, OrderBits(LsbFirst, i) + Zeros(|POLY| - 8), 8) {
      TableIsEightShifts(i);
    }
  }

  // ----- what the program computes -----

  /** The loop is the bit-serial register for the generator of RFC 1952, for every start value and message. */
  lemma TableDrivenIsBitSerial(s: Word, m: seq<byte>)
    ensures Register(s, m) == Run(POLY, s, Message(LsbFirst, m))
  {
    TableForPoly();
    FoldIsRun(LsbFirst, Table, POLY, s, m);
    RunLength(POLY, s, Message(LsbFirst, m));
  }

  /** Different messages of equal length that agree outside some 32 consecutive bits never share a checksum. */
  lemma BurstDetected(s: Word, a: seq<byte>, b: seq<byte>, p: nat)
    requires |a| == |b| && a != b
    requires AgreeOutside(Message(LsbFirst, a), Message(LsbFirst, b), p, p + 32)
    ensures Crc(s, a) != Crc(s, b)
  {
    TableForPoly();
    TableCrc.BurstDetected(LsbFirst, Table, POLY, s, a, b, p);
    ComplementTwice(Register(s, a));
    ComplementTwice(Register(s, b));
  }

  lemma ComplementTwice(w: Word)
    ensures Complement(Complement(w)) == w
  {
  }

  /** A caller that undoes the final complement can checksum in pieces. */
  lemma ChainsThroughComplement(s: Word, a: seq<byte>, b: seq<byte>)
    ensures Crc(Complement(Crc(s, a)), b) == Crc(s, a + b)
  {
    ComplementTwice(Register(s, a));
    FoldConcat(LsbFirst, Table, s, a, b);
  }

  /** A caller that feeds one result into the next call, as crc16 allows, is wrong on every input. */
  lemma NeverChainsDirectly(s: Word, a: seq<byte>, b: seq<byte>)
    ensures Crc(Crc(s, a), b) != Crc(s, a + b)
  {
    var r := Register(s, a);
    ChainsThroughComplement(s, a, b);
    ComplementTwice(r);
    assert Complement(r)[0] != r[0];
    if Crc(Complement(r), b) == Crc(r, b) {
      ComplementTwice(Register(Complement(r), b));
      ComplementTwice(Register(r, b));
      TableForPoly();
      FoldIsRun(LsbFirst, Table, POLY, r, b);
      FoldIsRun(LsbFirst, Table, POLY, Complement(r), b);
      RunInjective(POLY, r, Complement(r), Message(LsbFirst, b));
      assert false;
    }
  }
}

/** Bytes as the C code sees them, and the bit strings they stand for. */
module Bytes {

  type byte = bv8

  /** Bit i of a byte, counted from the most significant. */
  predicate BitOf(b: byte, i: nat)
    requires i < 8
  {
    match i
    case 0 => b & 128 != 0 case 1 => b & 64 != 0 case 2 => b & 32 != 0 case 3 => b & 16 != 0
    case 4 => b & 8 != 0 case 5 => b & 4 != 0 case 6 => b & 2 != 0 case _ => b & 1 != 0
  }

  function ByteBits(b: byte): (bits: seq<bool>)
    ensures |bits| == 8 && forall i :: 0 <= i < 8 ==> bits[i] == BitOf(b, i)
  {
    seq(8, i requires 0 <= i < 8 => BitOf(b, i))
  }

  function ByteOf(x7: bool, x6: bool, x5: bool, x4: bool, x3: bool, x2: bool, x1: bool, x0: bool): byte {
    (if x7 then 128 else 0) | (if x6 then 64 else 0) | (if x5 then 32 else 0) | (if x4 then 16 else 0)
    | (if x3 then 8 else 0) | (if x2 then 4 else 0) | (if x1 then 2 else 0) | (if x0 then 1 else 0)
  }

  function ByteFrom(x: seq<bool>): byte
    requires |x| == 8
  {
    ByteOf(x[0], x[1], x[2], x[3], x[4], x[5], x[6], x[7])
  }

  lemma ByteOfBits(x7: bool, x6: bool, x5: bool, x4: bool, x3: bool, x2: bool, x1: bool, x0: bool)
    ensures var b := ByteOf(x7, x6, x5, x4, x3, x2, x1, x0);
            && (b & 128 != 0 <==> x7) && (b & 64 != 0 <==> x6) && (b & 32 != 0 <==> x5) && (b & 16 != 0 <==> x4)
            && (b & 8 != 0 <==> x3) && (b & 4 != 0 <==> x2) && (b & 2 != 0 <==> x1) && (b & 1 != 0 <==> x0)
  {
  }

  lemma ByteFromBits(x: seq<bool>)
    requires |x| == 8
    ensures ByteBits(ByteFrom(x)) == x
  {
    ByteOfBits(x[0], x[1], x[2], x[3], x[4], x[5], x[6], x[7]);
  }

  lemma ByteBitsInjective(a: byte, b: byte)
    requires ByteBits(a) == ByteBits(b)
    ensures a == b
  {
    var x, y := ByteBits(a), ByteBits(b);
    assert forall i :: 0 <= i < 8 ==> x[i] == BitOf(a, i) && y[i] == BitOf(b, i);
    SameBits(a, b, BitOf(a, 0), BitOf(a, 1), BitOf(a, 2), BitOf(a, 3), BitOf(a, 4), BitOf(a, 5), BitOf(a, 6), BitOf(a, 7));
  }

  lemma SameBits(a: byte, b: byte, x0: bool, x1: bool, x2: bool, x3: bool, x4: bool, x5: bool, x6: bool, x7: bool)
    requires x0 == (a & 128 != 0) == (b & 128 != 0) && x1 == (a & 64 != 0) == (b & 64 != 0)
    requires x2 == (a & 32 != 0) == (b & 32 != 0) && x3 == (a & 16 != 0) == (b & 16 != 0)
    requires x4 == (a & 8 != 0) == (b & 8 != 0) && x5 == (a & 4 != 0) == (b & 4 != 0)
    requires x6 == (a & 2 != 0) == (b & 2 != 0) && x7 == (a & 1 != 0) == (b & 1 != 0)
    ensures a == b
  {
  }

  /** Bitwise exclusive or onto a, aligned at index 0; b counts as 0 where it is too short. */
  function Xor(a: seq<bool>, b: seq<bool>): (d: seq<bool>)
    ensures |d| == |a|
    ensures forall i :: 0 <= i < |d| ==> d[i] == (a[i] != (i < |b| && b[i]))
  {
    seq(|a|, i requires 0 <= i < |a| => a[i] != (i < |b| && b[i]))
  }

  function Zeros(n: nat): (z: seq<bool>)
    ensures |z| == n && forall i :: 0 <= i < n ==> !z[i]
  {
    seq(n, _ => false)
  }

  lemma NextByte(b: byte)
    ensures (b + 1) as nat == if b == 255 then 0 else b as nat + 1
  {
  }

  /** The byte with value d, found by counting, which needs no conversion from a number. */
  ghost function Counted(d: nat): byte {
    if d == 0 then 0 else Counted(d - 1) + 1
  }

  lemma {:induction false} CountedIs(d: nat)
    requires d < 256
    ensures Counted(d) as nat == d
  {
    if d == 0 {
    } else {
      CountedIs(d - 1);
      NextByte(Counted(d - 1));
    }
  }

  lemma ConvertedIs(d: nat, b: byte)
    requires d < 256 && b as nat == d
    ensures d as byte == b
  {
  }

  lemma NatByte(d: nat)
    requires d < 256
    ensures (d as byte) as nat == d
  {
    CountedIs(d);
    ConvertedIs(d, Counted(d));
  }

  /** A little-endian uint16_t field. */
  function Le16(lo: byte, hi: byte): (n: nat)
    ensures n < 0x1_0000
  {
    lo as nat + 256 * (hi as nat)
  }
}

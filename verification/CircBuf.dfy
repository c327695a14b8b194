/** The masked index arithmetic of src/l0001-0/include/circ_buf.h, in 32-bit machine arithmetic. */
module CircBuf {
  import opened Arithmetic

  // ----- bitwise and on naturals -----

  function And(x: nat, y: nat): (r: nat)
    decreases x
  {
    if x == 0 || y == 0 then 0 else (if x % 2 == 1 && y % 2 == 1 then 1 else 0) + 2 * And(x / 2, y / 2)
  }

  function Pow2(k: nat): (p: nat)
    ensures p > 0
  {
    if k == 0 then 1 else 2 * Pow2(k - 1)
  }

  lemma {:induction false} AndMask(x: nat, k: nat)
    ensures And(x, Pow2(k) - 1) == x % Pow2(k)
    decreases k
  {
    if k == 0 {
    } else {
      AndMask(x / 2, k - 1);
      var m := Pow2(k - 1);
      assert (2 * m - 1) / 2 == m - 1;
      DoubleMod(x, m);
    }
  }

  lemma DoubleMod(x: nat, m: nat)
    requires m > 0
    ensures x % (2 * m) == x % 2 + 2 * (x / 2 % m)
  {
    var q, r := x / 2 / m, x / 2 % m;
    assert x / 2 == q * m + r;
    assert x == 2 * (q * m + r) + x % 2;
    ModIs(x, 2 * m, q, 2 * r + x % 2);
  }

  lemma ModMod(x: int, m: nat, c: nat, w: nat)
    requires m > 0 && c > 0 && w == c * m
    ensures x % w % m == x % m
  {
    var a, y := x / w, x % w;
    var q, r := y / m, y % m;
    Regroup(a, c, m, q, r);
    assert x == a * w + y;
    ModIs(x, m, a * c + q, r);
  }

  lemma Regroup(a: int, c: int, m: int, q: int, r: int)
    ensures a * (c * m) + (q * m + r) == (a * c + q) * m + r
  {
  }

  // ----- the macros -----

  /** Conversion to uint32_t. */
  function U32(x: int): (r: nat)
    ensures r < WORD
  {
    x % WORD
  }

  function Cnt(head: int, tail: int, size: nat): nat
    requires size > 0
  {
    And(U32(head - tail), size - 1)
  }

  function Space(head: int, tail: int, size: nat): nat
    requires size > 0
  {
    Cnt(tail, head + 1, size)
  }

  function CntToEnd(head: int, tail: int, size: nat): int
    requires size > 0
  {
    var end := size - tail;
    var n := And(U32(head + end), size - 1);
    if n < end then n else end
  }

  function SpaceToEnd(head: int, tail: int, size: nat): int
    requires size > 0
  {
    var end := size - 1 - head;
    var n := And(U32(end + tail), size - 1);
    if n <= end then n else end + 1
  }

  // ----- power-of-two sizes: modular arithmetic -----

  predicate PowerOfTwo(size: nat) {
    exists k: nat :: k <= 31 && size == Pow2(k)
  }

  lemma {:induction false} Pow2Split(k: nat, j: nat)
    ensures Pow2(k + j) == Pow2(k) * Pow2(j)
    decreases j
  {
    if j == 0 {
    } else {
      Pow2Split(k, j - 1);
      assert Pow2(k + j) == 2 * Pow2(k + j - 1);
    }
  }

  lemma WordIsPow2()
    ensures Pow2(32) == WORD
  {
    assert Pow2(8) == 256;
    Pow2Split(8, 8);
    Pow2Split(16, 16);
  }

  /** Masking a difference taken in uint32_t arithmetic reduces the true difference. */
  lemma MaskedDifference(x: int, size: nat)
    requires PowerOfTwo(size)
    ensures And(U32(x), size - 1) == x % size
  {
    var k: nat :| k <= 31 && size == Pow2(k);
    AndMask(U32(x), k);
    WordIsPow2();
    Pow2Split(32 - k, k);
    ModMod(x, size, Pow2(32 - k), WORD);
  }

  lemma CntIsModular(head: nat, tail: nat, size: nat)
    requires PowerOfTwo(size)
    ensures Cnt(head, tail, size) == (head - tail) % size
  {
    MaskedDifference(head - tail, size);
  }

  lemma SpaceIsModular(head: nat, tail: nat, size: nat)
    requires PowerOfTwo(size)
    ensures Space(head, tail, size) == (tail - head - 1) % size
  {
    MaskedDifference(tail - (head + 1), size);
  }

  /** Counting modulo the size, one slot always stays free. */
  lemma CntPlusSpace(head: nat, tail: nat, size: nat)
    requires PowerOfTwo(size) && head < size && tail < size
    ensures Cnt(head, tail, size) + Space(head, tail, size) == size - 1
  {
    CntIsModular(head, tail, size);
    SpaceIsModular(head, tail, size);
    Complementary(head - tail, size, Cnt(head, tail, size), Space(head, tail, size));
  }

  lemma Complementary(x: int, size: nat, c: int, s: int)
    requires -(size as int) < x < size && c == x % size && s == (-x - 1) % size
    ensures c + s == size - 1
  {
    ReducedOnce(x, size);
    ReducedOnce(-x - 1, size);
  }

  lemma CntToEndIsContiguous(head: nat, tail: nat, size: nat)
    requires PowerOfTwo(size) && head < size && tail < size
    ensures CntToEnd(head, tail, size) == Min(Cnt(head, tail, size), size - tail)
  {
    MaskedDifference(head - tail, size);
    MaskedDifference(head + (size - tail), size);
    ReducedOnce(head - tail, size);
  }

  lemma SpaceToEndIsContiguous(head: nat, tail: nat, size: nat)
    requires PowerOfTwo(size) && head < size && tail < size
    ensures SpaceToEnd(head, tail, size) == Min(Space(head, tail, size), size - head)
  {
    SpaceIsModular(head, tail, size);
    MaskedDifference(size - 1 - head + tail, size);
    ReducedOnce(tail - head - 1, size);
  }

  lemma ReducedOnce(x: int, size: nat)
    requires -(size as int) <= x < size
    ensures x % size == (x + size) % size == if x < 0 then x + size else x
  {
    if x < 0 {
      ModIs(x, size, -1, x + size);
      ModIs(x + size, size, 0, x + size);
    } else {
      ModIs(x, size, 0, x);
      ModIs(x + size, size, 1, x);
    }
  }

  function Min(x: int, y: int): int {
    if x < y then x else y
  }

  // ----- the receive buffer's own use: head may stand one past the last byte -----

  /** Cursor positions the receive buffer reaches: the writer never passes the consumer. */
  predicate InRange(head: nat, tail: nat, size: nat) {
    head <= size && tail <= size && (tail <= head ==> head < size || tail > 0)
  }

  /** The bytes free at head before the consumer, or the end of the buffer, is reached. */
  function Gap(head: nat, tail: nat, size: nat): int {
    if head < tail then tail - head - 1 else if tail == 0 then size - 1 - head else size - head
  }

  /** All free bytes, one slot left out. */
  function Free(head: nat, tail: nat, size: nat): int {
    if head < tail then tail - head - 1 else size + tail - head - 1
  }

  lemma SpaceIsFree(head: nat, tail: nat, size: nat)
    requires PowerOfTwo(size) && InRange(head, tail, size)
    ensures Space(head, tail, size) == Free(head, tail, size)
  {
    MaskedDifference(tail - (head + 1), size);
    ReducedOnce(tail - head - 1, size);
  }

  lemma SpaceToEndIsGap(head: nat, tail: nat, size: nat)
    requires PowerOfTwo(size) && InRange(head, tail, size)
    ensures SpaceToEnd(head, tail, size) == Gap(head, tail, size)
  {
    MaskedDifference(size - 1 - head + tail, size);
    ReducedOnce(tail - head - 1, size);
  }

  // ----- the shipped size, 0x300000, is not a power of two -----

  const SHIPPED: nat := 0x30_0000

  lemma AndUnfold(x: nat, y: nat)
    ensures And(x, y) == (if x % 2 == 1 && y % 2 == 1 then 1 else 0) + 2 * And(x / 2, y / 2)
  {
  }

  // Low bits under a mask of ones pass through.
  lemma AndLow2(a: nat, b: nat, m: nat)
    requires b < 2
    ensures And(2 * a + b, 2 * m + 1) == 2 * And(a, m) + b
  {
    AndUnfold(2 * a + b, 2 * m + 1);
  }

  lemma AndLow4(a: nat, b: nat, m: nat)
    requires b < 4
    ensures And(4 * a + b, 4 * m + 3) == 4 * And(a, m) + b
  {
    AndLow2(2 * a + b / 2, b % 2, 2 * m + 1);
    AndLow2(a, b / 2, m);
  }

  lemma AndLow16(a: nat, b: nat, m: nat)
    requires b < 16
    ensures And(16 * a + b, 16 * m + 15) == 16 * And(a, m) + b
  {
    AndLow4(4 * a + b / 4, b % 4, 4 * m + 3);
    AndLow4(a, b / 4, m);
  }

  lemma AndLow256(a: nat, b: nat, m: nat)
    requires b < 256
    ensures And(256 * a + b, 256 * m + 255) == 256 * And(a, m) + b
  {
    AndLow16(16 * a + b / 16, b % 16, 16 * m + 15);
    AndLow16(a, b / 16, m);
  }

  lemma AndLow64K(a: nat, b: nat, m: nat)
    requires b < 0x1_0000
    ensures And(0x1_0000 * a + b, 0x1_0000 * m + 0xFFFF) == 0x1_0000 * And(a, m) + b
  {
    AndLow256(256 * a + b / 256, b % 256, 256 * m + 255);
    AndLow256(a, b / 256, m);
  }

  lemma AndLow1M(a: nat, b: nat, m: nat)
    requires b < 0x10_0000
    ensures And(0x10_0000 * a + b, 0x10_0000 * m + 0xF_FFFF) == 0x10_0000 * And(a, m) + b
  {
    AndLow64K(16 * a + b / 0x1_0000, b % 0x1_0000, 16 * m + 15);
    AndLow16(a, b / 0x1_0000, m);
  }

  function Two(a: nat): nat {
    if a / 2 % 2 == 1 then 2 else 0
  }

  lemma AndTwo(a: nat)
    ensures And(a, 2) == Two(a)
  {
    AndUnfold(a, 2);
    AndUnfold(a / 2, 1);
    assert And(a / 2 / 2, 0) == 0;
  }

  /** The mask 0x2FFFFF of the shipped size has a hole at bit 20; q is the megabyte in which the value lies. */
  lemma AndShipped(x: nat, q: nat)
    requires q * 0x10_0000 <= x < (q + 1) * 0x10_0000
    ensures And(x, SHIPPED - 1) == x - q * 0x10_0000 + Two(q) * 0x10_0000
  {
    AndLow1M(q, x - q * 0x10_0000, 2);
    AndTwo(q);
  }

  lemma ShippedMask(y: nat)
    requires y < 0x60_0000
    ensures And(y, SHIPPED - 1) ==
      y - (if y < 0x10_0000 then 0 else if y < 0x20_0000 then 0x10_0000 else if y < 0x30_0000 then 0
           else if y < 0x40_0000 then 0x10_0000 else if y < 0x50_0000 then 0x40_0000 else 0x50_0000)
  {
    AndShipped(y, if y < 0x10_0000 then 0 else if y < 0x20_0000 then 1 else if y < 0x30_0000 then 2
                  else if y < 0x40_0000 then 3 else if y < 0x50_0000 then 4 else 5);
  }

  /** With the shipped size the byte count handed to the reader fits the gap except just below the consumer. */
  lemma ShippedSpaceToEnd(head: nat, tail: nat)
    requires InRange(head, tail, SHIPPED)
    ensures 0 <= SpaceToEnd(head, tail, SHIPPED) <= SHIPPED - head
    ensures SpaceToEnd(head, tail, SHIPPED) <= Gap(head, tail, SHIPPED) <==> !(head < tail <= head + 0x10_0000)
  {
    ShippedMask(SHIPPED - 1 - head + tail);
  }

  /** Where the shipped mask misstates the free space, it is by exactly 0x100000 bytes. */
  lemma ShippedSpace(head: nat, tail: nat)
    requires InRange(head, tail, SHIPPED)
    ensures Space(head, tail, SHIPPED) - Free(head, tail, SHIPPED)
         == if Free(head, tail, SHIPPED) / 0x10_0000 != 1 then 0
            else if head < tail then -0x10_0000 else 0x10_0000
  {
    var f := Free(head, tail, SHIPPED);
    var q := if f < 0x10_0000 then 0 else if f < 0x20_0000 then 1 else 2;
    if head < tail {
      AndShipped(f, q);
    } else {
      assert U32(tail - (head + 1)) == WORD - SHIPPED + f;
      AndShipped(WORD - SHIPPED + f, 4093 + q);
    }
  }
}

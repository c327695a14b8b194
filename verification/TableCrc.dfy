/**
 Table-driven CRCs: one table lookup per message byte.  crc16.c takes the bits of a byte most significant
 first and shifts its register left; crc32.c takes them least significant first and shifts right.
 */
module TableCrc {
  import opened Bytes
  import opened ShiftRegister

  datatype Order = MsbFirst | LsbFirst

  function Reverse8(x: seq<bool>): (y: seq<bool>)
    requires |x| == 8
    ensures |y| == 8 && forall i :: 0 <= i < 8 ==> y[i] == x[7 - i]
  {
    seq(8, i requires 0 <= i < 8 => x[7 - i])
  }

  function OrderBits(o: Order, b: byte): (bits: seq<bool>)
    ensures |bits| == 8
  {
    if o.MsbFirst? then ByteBits(b) else Reverse8(ByteBits(b))
  }

  function OrderByte(o: Order, x: seq<bool>): byte
    requires |x| == 8
  {
    if o.MsbFirst? then ByteFrom(x) else ByteFrom(Reverse8(x))
  }

  function Message(o: Order, m: seq<byte>): (bits: seq<bool>)
    ensures |bits| == 8 * |m|
  {
    if m == [] then [] else OrderBits(o, m[0]) + Message(o, m[1..])
  }

  lemma {:induction false} MessageConcat(o: Order, a: seq<byte>, b: seq<byte>)
    ensures Message(o, a + b) == Message(o, a) + Message(o, b)
    decreases |a|
  {
    if a == [] {
      assert a + b == b;
    } else {
      assert (a + b)[1..] == a[1..] + b;
      MessageConcat(o, a[1..], b);
    }
  }

  lemma {:induction false} MessageOfZeros(o: Order, m: seq<byte>)
    requires forall i :: 0 <= i < |m| ==> m[i] == 0
    ensures Message(o, m) == Zeros(8 * |m|)
    decreases |m|
  {
    if m == [] {
    } else {
      assert forall i :: 0 <= i < 8 ==> !BitOf(m[0], i);
      MessageOfZeros(o, m[1..]);
    }
  }

  type Table = byte -> seq<bool>

  /** The eight bits about to leave a register. */
  function Leaving(s: seq<bool>): (x: seq<bool>)
    ensures |x| == 8
    ensures forall i :: 0 <= i < 8 ==> x[i] == (i < |s| && s[i])
  {
    seq(8, i => 0 <= i < |s| && s[i])
  }

  /** The register moved on by eight bits. */
  function Advance(s: seq<bool>): (q: seq<bool>)
    ensures |q| == |s|
    ensures forall i :: 0 <= i < |s| ==> q[i] == (i + 8 < |s| && s[i + 8])
  {
    seq(|s|, i requires 0 <= i => i + 8 < |s| && s[i + 8])
  }

  /** table[leaving bits ^ b] ^ (register moved on by eight). */
  function Update(o: Order, table: Table, s: seq<bool>, b: byte): seq<bool> {
    Xor(table(OrderByte(o, Xor(Leaving(s), OrderBits(o, b)))), Advance(s))
  }

  function Fold(o: Order, table: Table, s: seq<bool>, m: seq<byte>): seq<bool>
    decreases |m|
  {
    if m == [] then s else Fold(o, table, Update(o, table, s, m[0]), m[1..])
  }

  lemma {:induction false} FoldLength(o: Order, table: Table, s: seq<bool>, m: seq<byte>)
    requires forall i :: |table(i)| == |s|
    ensures |Fold(o, table, s, m)| == |s|
    decreases |m|
  {
    if m == [] {
    } else {
      FoldLength(o, table, Update(o, table, s, m[0]), m[1..]);
    }
  }

  lemma {:induction false} FoldConcat(o: Order, table: Table, s: seq<bool>, a: seq<byte>, b: seq<byte>)
    ensures Fold(o, table, s, a + b) == Fold(o, table, Fold(o, table, s, a), b)
    decreases |a|
  {
    if a == [] {
      assert [] + b == b;
    } else {
      assert (a + b)[1..] == a[1..] + b;
      FoldConcat(o, table, Update(o, table, s, a[0]), a[1..], b);
    }
  }

  lemma FoldNext(o: Order, table: Table, s: seq<bool>, m: seq<byte>, off: nat, i: nat)
    requires off <= i < |m|
    ensures Fold(o, table, s, m[off..i + 1]) == Update(o, table, Fold(o, table, s, m[off..i]), m[i])
  {
    assert m[off..i + 1] == m[off..i] + [m[i]];
    FoldConcat(o, table, s, m[off..i], [m[i]]);
  }

  /** The C loop over size bytes starting at buf + off. */
  method Compute(o: Order, table: Table, sum: seq<bool>, buf: array<byte>, off: nat, size: nat)
    returns (crc: seq<bool>)
    requires off + size <= buf.Length
    ensures crc == Fold(o, table, sum, buf[off..off + size])
  {
    crc := sum;
    var i, left := off, size;
    while left != 0
      invariant i + left == off + size
      invariant off <= i <= off + size
      invariant crc == Fold(o, table, sum, buf[..][off..i])
    {
      FoldNext(o, table, sum, buf[..], off, i);
      crc := Update(o, table, crc, buf[i]);
      i, left := i + 1, left - 1;
    }
    assert buf[..][off..off + size] == buf[off..off + size];
  }

  // ----- the table makes the fold a bit-serial register -----

  /** Every table entry is eight register steps of its index. */
  ghost predicate TableFor(o: Order, table: Table, g: seq<bool>) {
    |g| >= 8 && forall i :: table(i) == ShiftN(g, OrderBits(o, i) + Zeros(|g| - 8), 8)
  }

  lemma OrderByteBits(o: Order, x: seq<bool>)
    requires |x| == 8
    ensures OrderBits(o, OrderByte(o, x)) == x
  {
    ByteFromBits(x);
    ByteFromBits(Reverse8(x));
    assert Reverse8(Reverse8(x)) == x;
  }

  lemma LeavingAndAdvance(s: seq<bool>)
    requires |s| >= 8
    ensures Leaving(s) == s[..8] && Advance(s) == s[8..] + Zeros(8)
  {
  }

  lemma UpdateAt(o: Order, table: Table, g: seq<bool>, s: seq<bool>, b: byte, index: byte)
    requires TableFor(o, table, g) && |s| == |g|
    requires OrderBits(o, index) == Xor(Leaving(s), OrderBits(o, b))
    ensures Xor(table(index), Advance(s)) == Run(g, s, OrderBits(o, b))
  {
    LeavingAndAdvance(s);
    ByteStep(g, s, OrderBits(o, b), table(index));
  }

  lemma UpdateIsEightSteps(o: Order, table: Table, g: seq<bool>, s: seq<bool>, b: byte)
    requires TableFor(o, table, g) && |s| == |g|
    ensures Update(o, table, s, b) == Run(g, s, OrderBits(o, b))
  {
    var x := Xor(Leaving(s), OrderBits(o, b));
    OrderByteBits(o, x);
    UpdateAt(o, table, g, s, b, OrderByte(o, x));
  }

  lemma {:induction false} FoldIsRun(o: Order, table: Table, g: seq<bool>, s: seq<bool>, m: seq<byte>)
    requires TableFor(o, table, g) && |s| == |g|
    ensures Fold(o, table, s, m) == Run(g, s, Message(o, m))
    decreases |m|
  {
    if m == [] {
    } else {
      UpdateIsEightSteps(o, table, g, s, m[0]);
      RunLength(g, s, OrderBits(o, m[0]));
      RunConcat(g, s, OrderBits(o, m[0]), Message(o, m[1..]));
      FoldIsRun(o, table, g, Update(o, table, s, m[0]), m[1..]);
    }
  }

  // ----- collisions -----

  lemma OrderBitsInjective(o: Order, a: byte, b: byte)
    requires OrderBits(o, a) == OrderBits(o, b)
    ensures a == b
  {
    assert Reverse8(Reverse8(ByteBits(a))) == ByteBits(a);
    assert Reverse8(Reverse8(ByteBits(b))) == ByteBits(b);
    ByteBitsInjective(a, b);
  }

  lemma {:induction false} MessageInjective(o: Order, a: seq<byte>, b: seq<byte>)
    requires |a| == |b| && Message(o, a) == Message(o, b)
    ensures a == b
  {
    if a == [] {
    } else {
      assert OrderBits(o, a[0]) == Message(o, a)[..8] == Message(o, b)[..8] == OrderBits(o, b[0]);
      assert Message(o, a[1..]) == Message(o, a)[8..] == Message(o, b)[8..] == Message(o, b[1..]);
      OrderBitsInjective(o, a[0], b[0]);
      MessageInjective(o, a[1..], b[1..]);
      assert a == [a[0]] + a[1..] && b == [b[0]] + b[1..];
    }
  }

  lemma CollisionIsZeroError(o: Order, table: Table, g: seq<bool>, s: seq<bool>, a: seq<byte>, b: seq<byte>)
    requires TableFor(o, table, g) && |s| == |g| && |a| == |b|
    ensures Fold(o, table, s, a) == Fold(o, table, s, b)
       <==> Clear(Run(g, Zeros(|g|), Xor(Message(o, a), Message(o, b))))
  {
    FoldIsRun(o, table, g, s, a);
    FoldIsRun(o, table, g, s, b);
    CollisionIsZeroDifference(g, s, Message(o, a), Message(o, b));
  }

  lemma DifferenceIsNotClear(o: Order, a: seq<byte>, b: seq<byte>)
    requires |a| == |b| && a != b
    ensures !Clear(Xor(Message(o, a), Message(o, b)))
  {
    XorClear(Message(o, a), Message(o, b));
    if Message(o, a) == Message(o, b) {
      MessageInjective(o, a, b);
    }
  }

  /** Different messages of equal length that agree outside a register's width of consecutive bits never collide. */
  lemma BurstDetected(o: Order, table: Table, g: seq<bool>, s: seq<bool>, a: seq<byte>, b: seq<byte>, p: nat)
    requires TableFor(o, table, g) && Generator(g) && |s| == |g|
    requires |a| == |b| && a != b
    requires AgreeOutside(Message(o, a), Message(o, b), p, p + |g|)
    ensures Fold(o, table, s, a) != Fold(o, table, s, b)
  {
    var d := Xor(Message(o, a), Message(o, b));
    DifferenceIsNotClear(o, a, b);
    var k :| 0 <= k < |d| && d[k];
    DifferenceWithin(Message(o, a), Message(o, b), p, p + |g|);
    BurstIsNotZero(g, d, p, k);
    CollisionIsZeroError(o, table, g, s, a, b);
  }

  /** With x + 1 dividing the generator, messages that differ in an odd number of bits never collide. */
  lemma OddErrorsDetected(o: Order, table: Table, g: seq<bool>, s: seq<bool>, a: seq<byte>, b: seq<byte>)
    requires TableFor(o, table, g) && Odd(g) && |s| == |g|
    requires |a| == |b| && Odd(Xor(Message(o, a), Message(o, b)))
    ensures Fold(o, table, s, a) != Fold(o, table, s, b)
  {
    var d := Xor(Message(o, a), Message(o, b));
    OddClear(Zeros(|g|));
    RunParity(g, Zeros(|g|), d);
    if Clear(Run(g, Zeros(|g|), d)) {
      OddClear(Run(g, Zeros(|g|), d));
    }
    CollisionIsZeroError(o, table, g, s, a, b);
  }
}

/**
 The four rounds of MD5Transform in src/l0001-0/md5.c: the 64 unrolled macro calls against the loop of section 3.4
 of RFC 1321.  Nothing here depends on what the macros compute, so the words are of any type.
 */
module Md5Rounds {

  datatype Regs<W> = Regs(a: W, b: W, c: W, d: W)

  type Shift = s: nat | s <= 32

  /** mix(round, a, b, c, d, x, s, ac) is the new a of FF, GG, HH or II, by round. */
  type Mix<!W> = (nat, W, W, W, W, W, Shift, bv32) -> W

  // ----- the loop of section 3.4 -----

  /** The message word of step i. */
  function Index(i: nat): (k: nat)
    ensures k < 16
  {
    if i < 16 then i % 16
    else if i < 32 then (5 * i + 1) % 16
    else if i < 48 then (3 * i + 5) % 16
    else 7 * i % 16
  }

  /** The shift of step i: four values a round. */
  function ShiftOf(i: nat): Shift {
    var j := i % 4;
    if i < 16 then (if j == 0 then 7 else if j == 1 then 12 else if j == 2 then 17 else 22)
    else if i < 32 then (if j == 0 then 5 else if j == 1 then 9 else if j == 2 then 14 else 20)
    else if i < 48 then (if j == 0 then 4 else if j == 1 then 11 else if j == 2 then 16 else 23)
    else (if j == 0 then 6 else if j == 1 then 10 else if j == 2 then 15 else 21)
  }

  const SINE0: seq<bv32> := [
    0xd76aa478, 0xe8c7b756, 0x242070db, 0xc1bdceee,
    0xf57c0faf, 0x4787c62a, 0xa8304613, 0xfd469501,
    0x698098d8, 0x8b44f7af, 0xffff5bb1, 0x895cd7be,
    0x6b901122, 0xfd987193, 0xa679438e, 0x49b40821]

  const SINE1: seq<bv32> := [
    0xf61e2562, 0xc040b340, 0x265e5a51, 0xe9b6c7aa,
    0xd62f105d, 0x02441453, 0xd8a1e681, 0xe7d3fbc8,
    0x21e1cde6, 0xc33707d6, 0xf4d50d87, 0x455a14ed,
    0xa9e3e905, 0xfcefa3f8, 0x676f02d9, 0x8d2a4c8a]

  const SINE2: seq<bv32> := [
    0xfffa3942, 0x8771f681, 0x6d9d6122, 0xfde5380c,
    0xa4beea44, 0x4bdecfa9, 0xf6bb4b60, 0xbebfbc70,
    0x289b7ec6, 0xeaa127fa, 0xd4ef3085, 0x04881d05,
    0xd9d4d039, 0xe6db99e5, 0x1fa27cf8, 0xc4ac5665]

  const SINE3: seq<bv32> := [
    0xf4292244, 0x432aff97, 0xab9423a7, 0xfc93a039,
    0x655b59c3, 0x8f0ccc92, 0xffeff47d, 0x85845dd1,
    0x6fa87e4f, 0xfe2ce6e0, 0xa3014314, 0x4e0811a1,
    0xf7537e82, 0xbd3af235, 0x2ad7d2bb, 0xeb86d391]

  /** The constant of step i, from the table T[1..64] of section 3.4. */
  function Sine(i: nat): bv32 {
    if i < 16 then SINE0[i] else if i < 32 then SINE1[i - 16]
    else if i < 48 then SINE2[i - 32] else if i < 64 then SINE3[i - 48] else 0
  }

  /** One step: a new value for the register in turn, and the registers change places. */
  function Step<W>(mix: Mix<W>, x: seq<W>, i: nat, r: Regs<W>): Regs<W>
    requires |x| >= 16
  {
    Regs(r.d, mix(i / 16, r.a, r.b, r.c, r.d, x[Index(i)], ShiftOf(i), Sine(i)), r.b, r.c)
  }

  /** The first n steps. */
  function Steps<W>(mix: Mix<W>, x: seq<W>, n: nat, r: Regs<W>): Regs<W>
    requires |x| >= 16
  {
    if n == 0 then r else Step(mix, x, n - 1, Steps(mix, x, n - 1, r))
  }

  // ----- what the macros compute, over any words -----

  type Aux<!W> = (nat, W, W, W) -> W

  type Sum<!W> = (W, W, W, W) -> W

  type Plus<!W> = (W, W) -> W

  type Rotation<!W> = (W, Shift) -> W

  const MAX_SHIFT: nat := 23

  /** FF, GG, HH and II: the sum in a, rotated, plus b. */
  function MacroMix<W>(f: Aux<W>, added: Sum<W>, plus: Plus<W>, rotate: Rotation<W>, lift: bv32 -> W): Mix<W> {
    (round: nat, a: W, b: W, c: W, d: W, x: W, s: Shift, ac: bv32) =>
      plus(rotate(added(a, f(round, b, c, d), x, lift(ac)), s), b)
  }

  /** n circular shifts by one bit. */
  function Circular<W>(one: W -> W, x: W, n: nat): W
    decreases n
  {
    if n == 0 then x else Circular(one, one(x), n - 1)
  }

  /** The step of section 3.4: a = b + ((a + f + x + ac) <<< s). */
  function RfcMix<W>(f: Aux<W>, sum: Sum<W>, plus: Plus<W>, one: W -> W, lift: bv32 -> W): Mix<W> {
    (round: nat, a: W, b: W, c: W, d: W, x: W, s: Shift, ac: bv32) =>
      plus(b, Circular(one, sum(a, f(round, b, c, d), x, lift(ac)), s))
  }

  ghost predicate SameSums<W(!new)>(added: Sum<W>, sum: Sum<W>, plus: Plus<W>) {
    && (forall a, m, x, k :: added(a, m, x, k) == sum(a, m, x, k))
    && (forall x, y :: plus(x, y) == plus(y, x))
  }

  /** On x, rotating by one bit more is one circular shift more; the number of bits lies in one of four ranges. */
  predicate OneMoreOn<W(==)>(rotate: Rotation<W>, one: W -> W, x: W, range: nat) {
    if range == 0 then
      rotate(one(x), 1) == rotate(x, 2) && rotate(one(x), 2) == rotate(x, 3)
      && rotate(one(x), 3) == rotate(x, 4) && rotate(one(x), 4) == rotate(x, 5)
      && rotate(one(x), 5) == rotate(x, 6)
    else if range == 1 then
      rotate(one(x), 6) == rotate(x, 7) && rotate(one(x), 7) == rotate(x, 8)
      && rotate(one(x), 8) == rotate(x, 9) && rotate(one(x), 9) == rotate(x, 10)
      && rotate(one(x), 10) == rotate(x, 11)
    else if range == 2 then
      rotate(one(x), 11) == rotate(x, 12) && rotate(one(x), 12) == rotate(x, 13)
      && rotate(one(x), 13) == rotate(x, 14) && rotate(one(x), 14) == rotate(x, 15)
      && rotate(one(x), 15) == rotate(x, 16) && rotate(one(x), 16) == rotate(x, 17)
    else
      rotate(one(x), 17) == rotate(x, 18) && rotate(one(x), 18) == rotate(x, 19)
      && rotate(one(x), 19) == rotate(x, 20) && rotate(one(x), 20) == rotate(x, 21)
      && rotate(one(x), 21) == rotate(x, 22) && rotate(one(x), 22) == rotate(x, 23)
  }

  /** Rotating by one bit is one circular shift, and each bit more is one more. */
  ghost predicate IsCircular<W(!new)>(rotate: Rotation<W>, one: W -> W) {
    && (forall x :: rotate(x, 1) == one(x))
    && (forall x :: OneMoreOn(rotate, one, x, 0))
    && (forall x :: OneMoreOn(rotate, one, x, 1))
    && (forall x :: OneMoreOn(rotate, one, x, 2))
    && (forall x :: OneMoreOn(rotate, one, x, 3))
  }

  lemma OneBitMore<W(!new)>(rotate: Rotation<W>, one: W -> W, x: W, n: nat)
    requires IsCircular(rotate, one) && 1 <= n < MAX_SHIFT
    ensures rotate(one(x), n) == rotate(x, n + 1)
  {
    if n < 6 {
      assert OneMoreOn(rotate, one, x, 0);
    } else if n < 11 {
      assert OneMoreOn(rotate, one, x, 1);
    } else if n < 17 {
      assert OneMoreOn(rotate, one, x, 2);
    } else {
      assert OneMoreOn(rotate, one, x, 3);
    }
  }

  lemma {:induction false} RotationAt<W(!new)>(rotate: Rotation<W>, one: W -> W, x: W, n: nat)
    requires IsCircular(rotate, one) && 1 <= n <= MAX_SHIFT
    ensures rotate(x, n) == Circular(one, x, n)
    decreases n
  {
    if n == 1 {
      assert Circular(one, x, 1) == Circular(one, one(x), 0);
    } else {
      RotationAt(rotate, one, one(x), n - 1);
      OneBitMore(rotate, one, x, n - 1);
    }
  }

  lemma SameMix<W(!new)>(f: Aux<W>, added: Sum<W>, sum: Sum<W>, plus: Plus<W>, rotate: Rotation<W>, one: W -> W,
                         lift: bv32 -> W, i: nat, a: W, b: W, c: W, d: W, x: W)
    requires SameSums(added, sum, plus) && IsCircular(rotate, one) && i < 64
    ensures MacroMix(f, added, plus, rotate, lift)(i / 16, a, b, c, d, x, ShiftOf(i), Sine(i))
         == RfcMix(f, sum, plus, one, lift)(i / 16, a, b, c, d, x, ShiftOf(i), Sine(i))
  {
    RotationAt(rotate, one, sum(a, f(i / 16, b, c, d), x, lift(Sine(i))), ShiftOf(i));
  }

  lemma {:induction false} SameSteps<W(!new)>(f: Aux<W>, added: Sum<W>, sum: Sum<W>, plus: Plus<W>,
                                              rotate: Rotation<W>, one: W -> W, lift: bv32 -> W,
                                              x: seq<W>, n: nat, r: Regs<W>)
    requires SameSums(added, sum, plus) && IsCircular(rotate, one) && |x| >= 16 && n <= 64
    ensures Steps(MacroMix(f, added, plus, rotate, lift), x, n, r) == Steps(RfcMix(f, sum, plus, one, lift), x, n, r)
    decreases n
  {
    if n == 0 {
    } else {
      SameSteps(f, added, sum, plus, rotate, one, lift, x, n - 1, r);
      var q := Steps(MacroMix(f, added, plus, rotate, lift), x, n - 1, r);
      SameMix(f, added, sum, plus, rotate, one, lift, n - 1, q.a, q.b, q.c, q.d, x[Index(n - 1)]);
    }
  }

  // ----- four macro calls at a time -----

  /** Steps n to n + 3 with the registers in fixed places, as the macros leave them. */
  ghost predicate Quad<W>(mix: Mix<W>, x: seq<W>, n: nat, r: Regs<W>, q: Regs<W>)
    requires |x| >= 16
  {
    && q.a == mix(n / 16, r.a, r.b, r.c, r.d, x[Index(n)], ShiftOf(n), Sine(n))
    && q.d == mix((n + 1) / 16, r.d, q.a, r.b, r.c, x[Index(n + 1)], ShiftOf(n + 1), Sine(n + 1))
    && q.c == mix((n + 2) / 16, r.c, q.d, q.a, r.b, x[Index(n + 2)], ShiftOf(n + 2), Sine(n + 2))
    && q.b == mix((n + 3) / 16, r.b, q.c, q.d, q.a, x[Index(n + 3)], ShiftOf(n + 3), Sine(n + 3))
  }

  /** steps(n) is what the first n steps come to, for proofs that need not unroll them. */
  ghost predicate IsSteps<W>(mix: Mix<W>, x: seq<W>, steps: nat -> Regs<W>)
    requires |x| >= 16
  {
    forall n: nat {:trigger Step(mix, x, n, steps(n))} :: steps(n + 1) == Step(mix, x, n, steps(n))
  }

  lemma FourSteps<W>(mix: Mix<W>, x: seq<W>, steps: nat -> Regs<W>, n: nat, r: Regs<W>, q: Regs<W>)
    requires |x| >= 16 && IsSteps(mix, x, steps) && steps(n) == r && Quad(mix, x, n, r, q)
    ensures steps(n + 4) == q
  {
    assert steps(n + 1) == Step(mix, x, n, steps(n));
    assert steps(n + 2) == Step(mix, x, n + 1, steps(n + 1));
    assert steps(n + 3) == Step(mix, x, n + 2, steps(n + 2));
    assert steps(n + 4) == Step(mix, x, n + 3, steps(n + 3));
  }

  /** Round 1: the sixteen calls of FF. */
  method Round1<W>(mix: Mix<W>, x: seq<W>, r: Regs<W>, ghost steps: nat -> Regs<W>) returns (q: Regs<W>)
    requires |x| >= 16 && IsSteps(mix, x, steps) && steps(0) == r
    ensures q == steps(16)
  {
    q := Calls1(mix, x, r, steps);
    q := Calls5(mix, x, q, steps);
    q := Calls9(mix, x, q, steps);
    q := Calls13(mix, x, q, steps);
  }

  method Calls1<W>(mix: Mix<W>, x: seq<W>, r: Regs<W>, ghost steps: nat -> Regs<W>) returns (q: Regs<W>)
    requires |x| >= 16 && IsSteps(mix, x, steps) && steps(0) == r
    ensures q == steps(4)
  {
    var a, b, c, d := r.a, r.b, r.c, r.d;
    a := mix(0, a, b, c, d, x[0], 7, 0xd76aa478);
    d := mix(0, d, a, b, c, x[1], 12, 0xe8c7b756);
    c := mix(0, c, d, a, b, x[2], 17, 0x242070db);
    b := mix(0, b, c, d, a, x[3], 22, 0xc1bdceee);
    q := Regs(a, b, c, d);
    FourSteps(mix, x, steps, 0, r, q);
  }

  method Calls5<W>(mix: Mix<W>, x: seq<W>, r: Regs<W>, ghost steps: nat -> Regs<W>) returns (q: Regs<W>)
    requires |x| >= 16 && IsSteps(mix, x, steps) && steps(4) == r
    ensures q == steps(8)
  {
    var a, b, c, d := r.a, r.b, r.c, r.d;
    a := mix(0, a, b, c, d, x[4], 7, 0xf57c0faf);
    d := mix(0, d, a, b, c, x[5], 12, 0x4787c62a);
    c := mix(0, c, d, a, b, x[6], 17, 0xa8304613);
    b := mix(0, b, c, d, a, x[7], 22, 0xfd469501);
    q := Regs(a, b, c, d);
    FourSteps(mix, x, steps, 4, r, q);
  }

  method Calls9<W>(mix: Mix<W>, x: seq<W>, r: Regs<W>, ghost steps: nat -> Regs<W>) returns (q: Regs<W>)
    requires |x| >= 16 && IsSteps(mix, x, steps) && steps(8) == r
    ensures q == steps(12)
  {
    var a, b, c, d := r.a, r.b, r.c, r.d;
    a := mix(0, a, b, c, d, x[8], 7, 0x698098d8);
    d := mix(0, d, a, b, c, x[9], 12, 0x8b44f7af);
    c := mix(0, c, d, a, b, x[10], 17, 0xffff5bb1);
    b := mix(0, b, c, d, a, x[11], 22, 0x895cd7be);
    q := Regs(a, b, c, d);
    FourSteps(mix, x, steps, 8, r, q);
  }

  method Calls13<W>(mix: Mix<W>, x: seq<W>, r: Regs<W>, ghost steps: nat -> Regs<W>) returns (q: Regs<W>)
    requires |x| >= 16 && IsSteps(mix, x, steps) && steps(12) == r
    ensures q == steps(16)
  {
    var a, b, c, d := r.a, r.b, r.c, r.d;
    a := mix(0, a, b, c, d, x[12], 7, 0x6b901122);
    d := mix(0, d, a, b, c, x[13], 12, 0xfd987193);
    c := mix(0, c, d, a, b, x[14], 17, 0xa679438e);
    b := mix(0, b, c, d, a, x[15], 22, 0x49b40821);
    q := Regs(a, b, c, d);
    FourSteps(mix, x, steps, 12, r, q);
  }

  /** Round 2: the sixteen calls of GG. */
  method Round2<W>(mix: Mix<W>, x: seq<W>, r: Regs<W>, ghost steps: nat -> Regs<W>) returns (q: Regs<W>)
    requires |x| >= 16 && IsSteps(mix, x, steps) && steps(16) == r
    ensures q == steps(32)
  {
    q := Calls17(mix, x, r, steps);
    q := Calls21(mix, x, q, steps);
    q := Calls25(mix, x, q, steps);
    q := Calls29(mix, x, q, steps);
  }

  method Calls17<W>(mix: Mix<W>, x: seq<W>, r: Regs<W>, ghost steps: nat -> Regs<W>) returns (q: Regs<W>)
    requires |x| >= 16 && IsSteps(mix, x, steps) && steps(16) == r
    ensures q == steps(20)
  {
    var a, b, c, d := r.a, r.b, r.c, r.d;
    a := mix(1, a, b, c, d, x[1], 5, 0xf61e2562);
    d := mix(1, d, a, b, c, x[6], 9, 0xc040b340);
    c := mix(1, c, d, a, b, x[11], 14, 0x265e5a51);
    b := mix(1, b, c, d, a, x[0], 20, 0xe9b6c7aa);
    q := Regs(a, b, c, d);
    FourSteps(mix, x, steps, 16, r, q);
  }

  method Calls21<W>(mix: Mix<W>, x: seq<W>, r: Regs<W>, ghost steps: nat -> Regs<W>) returns (q: Regs<W>)
    requires |x| >= 16 && IsSteps(mix, x, steps) && steps(20) == r
    ensures q == steps(24)
  {
    var a, b, c, d := r.a, r.b, r.c, r.d;
    a := mix(1, a, b, c, d, x[5], 5, 0xd62f105d);
    d := mix(1, d, a, b, c, x[10], 9, 0x02441453);
    c := mix(1, c, d, a, b, x[15], 14, 0xd8a1e681);
    b := mix(1, b, c, d, a, x[4], 20, 0xe7d3fbc8);
    q := Regs(a, b, c, d);
    FourSteps(mix, x, steps, 20, r, q);
  }

  method Calls25<W>(mix: Mix<W>, x: seq<W>, r: Regs<W>, ghost steps: nat -> Regs<W>) returns (q: Regs<W>)
    requires |x| >= 16 && IsSteps(mix, x, steps) && steps(24) == r
    ensures q == steps(28)
  {
    var a, b, c, d := r.a, r.b, r.c, r.d;
    a := mix(1, a, b, c, d, x[9], 5, 0x21e1cde6);
    d := mix(1, d, a, b, c, x[14], 9, 0xc33707d6);
    c := mix(1, c, d, a, b, x[3], 14, 0xf4d50d87);
    b := mix(1, b, c, d, a, x[8], 20, 0x455a14ed);
    q := Regs(a, b, c, d);
    FourSteps(mix, x, steps, 24, r, q);
  }

  method Calls29<W>(mix: Mix<W>, x: seq<W>, r: Regs<W>, ghost steps: nat -> Regs<W>) returns (q: Regs<W>)
    requires |x| >= 16 && IsSteps(mix, x, steps) && steps(28) == r
    ensures q == steps(32)
  {
    var a, b, c, d := r.a, r.b, r.c, r.d;
    a := mix(1, a, b, c, d, x[13], 5, 0xa9e3e905);
    d := mix(1, d, a, b, c, x[2], 9, 0xfcefa3f8);
    c := mix(1, c, d, a, b, x[7], 14, 0x676f02d9);
    b := mix(1, b, c, d, a, x[12], 20, 0x8d2a4c8a);
    q := Regs(a, b, c, d);
    FourSteps(mix, x, steps, 28, r, q);
  }

  /** Round 3: the sixteen calls of HH. */
  method Round3<W>(mix: Mix<W>, x: seq<W>, r: Regs<W>, ghost steps: nat -> Regs<W>) returns (q: Regs<W>)
    requires |x| >= 16 && IsSteps(mix, x, steps) && steps(32) == r
    ensures q == steps(48)
  {
    q := Calls33(mix, x, r, steps);
    q := Calls37(mix, x, q, steps);
    q := Calls41(mix, x, q, steps);
    q := Calls45(mix, x, q, steps);
  }

  method Calls33<W>(mix: Mix<W>, x: seq<W>, r: Regs<W>, ghost steps: nat -> Regs<W>) returns (q: Regs<W>)
    requires |x| >= 16 && IsSteps(mix, x, steps) && steps(32) == r
    ensures q == steps(36)
  {
    var a, b, c, d := r.a, r.b, r.c, r.d;
    a := mix(2, a, b, c, d, x[5], 4, 0xfffa3942);
    d := mix(2, d, a, b, c, x[8], 11, 0x8771f681);
    c := mix(2, c, d, a, b, x[11], 16, 0x6d9d6122);
    b := mix(2, b, c, d, a, x[14], 23, 0xfde5380c);
    q := Regs(a, b, c, d);
    FourSteps(mix, x, steps, 32, r, q);
  }

  method Calls37<W>(mix: Mix<W>, x: seq<W>, r: Regs<W>, ghost steps: nat -> Regs<W>) returns (q: Regs<W>)
    requires |x| >= 16 && IsSteps(mix, x, steps) && steps(36) == r
    ensures q == steps(40)
  {
    var a, b, c, d := r.a, r.b, r.c, r.d;
    a := mix(2, a, b, c, d, x[1], 4, 0xa4beea44);
    d := mix(2, d, a, b, c, x[4], 11, 0x4bdecfa9);
    c := mix(2, c, d, a, b, x[7], 16, 0xf6bb4b60);
    b := mix(2, b, c, d, a, x[10], 23, 0xbebfbc70);
    q := Regs(a, b, c, d);
    FourSteps(mix, x, steps, 36, r, q);
  }

  method Calls41<W>(mix: Mix<W>, x: seq<W>, r: Regs<W>, ghost steps: nat -> Regs<W>) returns (q: Regs<W>)
    requires |x| >= 16 && IsSteps(mix, x, steps) && steps(40) == r
    ensures q == steps(44)
  {
    var a, b, c, d := r.a, r.b, r.c, r.d;
    a := mix(2, a, b, c, d, x[13], 4, 0x289b7ec6);
    d := mix(2, d, a, b, c, x[0], 11, 0xeaa127fa);
    c := mix(2, c, d, a, b, x[3], 16, 0xd4ef3085);
    b := mix(2, b, c, d, a, x[6], 23, 0x04881d05);
    q := Regs(a, b, c, d);
    FourSteps(mix, x, steps, 40, r, q);
  }

  method Calls45<W>(mix: Mix<W>, x: seq<W>, r: Regs<W>, ghost steps: nat -> Regs<W>) returns (q: Regs<W>)
    requires |x| >= 16 && IsSteps(mix, x, steps) && steps(44) == r
    ensures q == steps(48)
  {
    var a, b, c, d := r.a, r.b, r.c, r.d;
    a := mix(2, a, b, c, d, x[9], 4, 0xd9d4d039);
    d := mix(2, d, a, b, c, x[12], 11, 0xe6db99e5);
    c := mix(2, c, d, a, b, x[15], 16, 0x1fa27cf8);
    b := mix(2, b, c, d, a, x[2], 23, 0xc4ac5665);
    q := Regs(a, b, c, d);
    FourSteps(mix, x, steps, 44, r, q);
  }

  /** Round 4: the sixteen calls of II. */
  method Round4<W>(mix: Mix<W>, x: seq<W>, r: Regs<W>, ghost steps: nat -> Regs<W>) returns (q: Regs<W>)
    requires |x| >= 16 && IsSteps(mix, x, steps) && steps(48) == r
    ensures q == steps(64)
  {
    q := Calls49(mix, x, r, steps);
    q := Calls53(mix, x, q, steps);
    q := Calls57(mix, x, q, steps);
    q := Calls61(mix, x, q, steps);
  }

  method Calls49<W>(mix: Mix<W>, x: seq<W>, r: Regs<W>, ghost steps: nat -> Regs<W>) returns (q: Regs<W>)
    requires |x| >= 16 && IsSteps(mix, x, steps) && steps(48) == r
    ensures q == steps(52)
  {
    var a, b, c, d := r.a, r.b, r.c, r.d;
    a := mix(3, a, b, c, d, x[0], 6, 0xf4292244);
    d := mix(3, d, a, b, c, x[7], 10, 0x432aff97);
    c := mix(3, c, d, a, b, x[14], 15, 0xab9423a7);
    b := mix(3, b, c, d, a, x[5], 21, 0xfc93a039);
    q := Regs(a, b, c, d);
    FourSteps(mix, x, steps, 48, r, q);
  }

  method Calls53<W>(mix: Mix<W>, x: seq<W>, r: Regs<W>, ghost steps: nat -> Regs<W>) returns (q: Regs<W>)
    requires |x| >= 16 && IsSteps(mix, x, steps) && steps(52) == r
    ensures q == steps(56)
  {
    var a, b, c, d := r.a, r.b, r.c, r.d;
    a := mix(3, a, b, c, d, x[12], 6, 0x655b59c3);
    d := mix(3, d, a, b, c, x[3], 10, 0x8f0ccc92);
    c := mix(3, c, d, a, b, x[10], 15, 0xffeff47d);
    b := mix(3, b, c, d, a, x[1], 21, 0x85845dd1);
    q := Regs(a, b, c, d);
    FourSteps(mix, x, steps, 52, r, q);
  }

  method Calls57<W>(mix: Mix<W>, x: seq<W>, r: Regs<W>, ghost steps: nat -> Regs<W>) returns (q: Regs<W>)
    requires |x| >= 16 && IsSteps(mix, x, steps) && steps(56) == r
    ensures q == steps(60)
  {
    var a, b, c, d := r.a, r.b, r.c, r.d;
    a := mix(3, a, b, c, d, x[8], 6, 0x6fa87e4f);
    d := mix(3, d, a, b, c, x[15], 10, 0xfe2ce6e0);
    c := mix(3, c, d, a, b, x[6], 15, 0xa3014314);
    b := mix(3, b, c, d, a, x[13], 21, 0x4e0811a1);
    q := Regs(a, b, c, d);
    FourSteps(mix, x, steps, 56, r, q);
  }

  method Calls61<W>(mix: Mix<W>, x: seq<W>, r: Regs<W>, ghost steps: nat -> Regs<W>) returns (q: Regs<W>)
    requires |x| >= 16 && IsSteps(mix, x, steps) && steps(60) == r
    ensures q == steps(64)
  {
    var a, b, c, d := r.a, r.b, r.c, r.d;
    a := mix(3, a, b, c, d, x[4], 6, 0xf7537e82);
    d := mix(3, d, a, b, c, x[11], 10, 0xbd3af235);
    c := mix(3, c, d, a, b, x[2], 15, 0x2ad7d2bb);
    b := mix(3, b, c, d, a, x[9], 21, 0xeb86d391);
    q := Regs(a, b, c, d);
    FourSteps(mix, x, steps, 60, r, q);
  }

  /** All sixty-four calls, round after round, are the loop. */
  method Unrolled<W>(mix: Mix<W>, x: seq<W>, r: Regs<W>) returns (q: Regs<W>)
    requires |x| >= 16
    ensures q == Steps(mix, x, 64, r)
  {
    ghost var steps := (n: nat) => Steps(mix, x, n, r);
    q := Round1(mix, x, r, steps);
    q := Round2(mix, x, q, steps);
    q := Round3(mix, x, q, steps);
    q := Round4(mix, x, q, steps);
  }
}

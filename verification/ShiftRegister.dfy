/**
 Bit-serial CRC registers of any width.  Index 0 of a register is the bit that leaves first; g holds the
 coefficients of the generator polynomial below its leading term, in the same order.
 */
module ShiftRegister {
  import opened Bytes

  /** A usable generator: its constant term is 1. */
  predicate Generator(g: seq<bool>) {
    |g| > 0 && g[|g| - 1]
  }

  /** Multiply by x: drop the leading bit, append 0, subtract the generator if the dropped bit was 1. */
  function Shift(g: seq<bool>, r: seq<bool>): (q: seq<bool>)
    ensures |q| == |r|
    ensures forall i :: 0 <= i < |r| ==> q[i] == ((i + 1 < |r| && r[i + 1]) != (r[0] && i < |g| && g[i]))
  {
    seq(|r|, i requires 0 <= i < |r| => (i + 1 < |r| && r[i + 1]) != (r[0] && i < |g| && g[i]))
  }

  /** Take in one message bit at the leaving end. */
  function Step(g: seq<bool>, r: seq<bool>, b: bool): (q: seq<bool>) {
    Shift(g, Xor(r, [b]))
  }

  function Run(g: seq<bool>, r: seq<bool>, bits: seq<bool>): (q: seq<bool>)
    decreases |bits|
  {
    if bits == [] then r else Run(g, Step(g, r, bits[0]), bits[1..])
  }

  function ShiftN(g: seq<bool>, r: seq<bool>, n: nat): (q: seq<bool>)
    decreases n
  {
    if n == 0 then r else ShiftN(g, Shift(g, r), n - 1)
  }

  /** Schoolbook division: bring the next bit down at the low end, subtract the divisor if a 1 left at the top. */
  function Divide(g: seq<bool>, r: seq<bool>, bits: seq<bool>): (q: seq<bool>)
    decreases |bits|
  {
    if bits == [] then r else Divide(g, Xor(Shift(g, r), Low(|g|, bits[0])), bits[1..])
  }

  function Low(n: nat, b: bool): (q: seq<bool>)
    ensures |q| == n
    ensures forall i :: 0 <= i < n ==> q[i] == (b && i == n - 1)
  {
    seq(n, i => b && i == n - 1)
  }

  // ----- lengths -----

  lemma {:induction false} RunLength(g: seq<bool>, r: seq<bool>, bits: seq<bool>)
    ensures |Run(g, r, bits)| == |r|
    decreases |bits|
  {
    if bits == [] {
    } else {
      RunLength(g, Step(g, r, bits[0]), bits[1..]);
    }
  }

  lemma {:induction false} ShiftNLength(g: seq<bool>, r: seq<bool>, n: nat)
    ensures |ShiftN(g, r, n)| == |r|
    decreases n
  {
    if n == 0 {
    } else {
      ShiftNLength(g, Shift(g, r), n - 1);
    }
  }

  // ----- linearity -----

  lemma ShiftXor(g: seq<bool>, r: seq<bool>, q: seq<bool>)
    requires |r| == |q|
    ensures Shift(g, Xor(r, q)) == Xor(Shift(g, r), Shift(g, q))
  {
  }

  lemma StepXor(g: seq<bool>, r: seq<bool>, q: seq<bool>, b: bool, c: bool)
    requires |r| == |q|
    ensures Step(g, Xor(r, q), b != c) == Xor(Step(g, r, b), Step(g, q, c))
  {
    assert Xor(Xor(r, q), [b != c]) == Xor(Xor(r, [b]), Xor(q, [c]));
    ShiftXor(g, Xor(r, [b]), Xor(q, [c]));
  }

  lemma {:induction false} RunXor(g: seq<bool>, r: seq<bool>, q: seq<bool>, a: seq<bool>, b: seq<bool>)
    requires |r| == |q| && |a| == |b|
    ensures Run(g, Xor(r, q), Xor(a, b)) == Xor(Run(g, r, a), Run(g, q, b))
    decreases |a|
  {
    if a == [] {
    } else {
      StepXor(g, r, q, a[0], b[0]);
      assert Xor(a, b)[1..] == Xor(a[1..], b[1..]);
      RunXor(g, Step(g, r, a[0]), Step(g, q, b[0]), a[1..], b[1..]);
    }
  }

  lemma {:induction false} RunConcat(g: seq<bool>, r: seq<bool>, a: seq<bool>, b: seq<bool>)
    ensures Run(g, r, a + b) == Run(g, Run(g, r, a), b)
    decreases |a|
  {
    if a == [] {
      assert [] + b == b;
    } else {
      assert (a + b)[1..] == a[1..] + b;
      RunConcat(g, Step(g, r, a[0]), a[1..], b);
    }
  }

  lemma {:induction false} ShiftNXor(g: seq<bool>, r: seq<bool>, q: seq<bool>, n: nat)
    requires |r| == |q|
    ensures ShiftN(g, Xor(r, q), n) == Xor(ShiftN(g, r, n), ShiftN(g, q, n))
    decreases n
  {
    if n == 0 {
    } else {
      ShiftXor(g, r, q);
      ShiftNXor(g, Shift(g, r), Shift(g, q), n - 1);
    }
  }

  lemma {:induction false} ShiftNPlus(g: seq<bool>, r: seq<bool>, m: nat, n: nat)
    ensures ShiftN(g, r, m + n) == ShiftN(g, ShiftN(g, r, m), n)
    decreases m
  {
    if m == 0 {
    } else {
      ShiftNPlus(g, Shift(g, r), m - 1, n);
    }
  }

  predicate Clear(r: seq<bool>) {
    forall i :: 0 <= i < |r| ==> !r[i]
  }

  lemma XorClear(r: seq<bool>, q: seq<bool>)
    requires |r| == |q|
    ensures Clear(Xor(r, q)) <==> r == q
  {
    if Clear(Xor(r, q)) {
      forall i | 0 <= i < |r| ensures r[i] == q[i] {
        assert !Xor(r, q)[i];
      }
    }
  }

  lemma ClearIsZeros(r: seq<bool>)
    ensures Clear(r) <==> r == Zeros(|r|)
  {
  }

  lemma ShiftClear(g: seq<bool>, r: seq<bool>)
    requires Generator(g) && |r| == |g|
    ensures Clear(Shift(g, r)) <==> Clear(r)
  {
    var q := Shift(g, r);
    if Clear(q) {
      assert q[|g| - 1] == r[0];
      forall i | 0 <= i < |r| ensures !r[i] {
        if i > 0 {
          assert q[i - 1] == r[i];
        }
      }
    }
  }

  lemma {:induction false} ShiftNClears(g: seq<bool>, r: seq<bool>, n: nat)
    requires Generator(g) && |r| == |g|
    ensures Clear(ShiftN(g, r, n)) <==> Clear(r)
    decreases n
  {
    if n == 0 {
    } else {
      ShiftClear(g, r);
      ShiftNClears(g, Shift(g, r), n - 1);
    }
  }

  lemma ShiftNZeros(g: seq<bool>, n: nat)
    requires Generator(g)
    ensures ShiftN(g, Zeros(|g|), n) == Zeros(|g|)
  {
    ShiftNClears(g, Zeros(|g|), n);
    ShiftNLength(g, Zeros(|g|), n);
    ClearIsZeros(ShiftN(g, Zeros(|g|), n));
  }

  lemma {:induction false} RunZeros(g: seq<bool>, r: seq<bool>, n: nat)
    ensures Run(g, r, Zeros(n)) == ShiftN(g, r, n)
    decreases n
  {
    if n == 0 {
    } else {
      assert Zeros(n)[1..] == Zeros(n - 1);
      assert Xor(r, [false]) == r;
      RunZeros(g, Shift(g, r), n - 1);
    }
  }

  /** Leading zeros leave without feedback. */
  lemma {:induction false} ShiftNClear(g: seq<bool>, r: seq<bool>, n: nat)
    requires n <= |r| && forall i :: 0 <= i < n ==> !r[i]
    ensures ShiftN(g, r, n) == r[n..] + Zeros(n)
    decreases n
  {
    if n == 0 {
      assert r[0..] + Zeros(0) == r;
    } else {
      var q := Shift(g, r);
      ShiftNClear(g, q, n - 1);
      assert q[n - 1..] + Zeros(n - 1) == r[n..] + Zeros(n);
    }
  }

  // ----- up to a register's width of message bits can be taken in at once -----

  lemma LoadStep(g: seq<bool>, r: seq<bool>, w: seq<bool>)
    requires 0 < |w| <= |r|
    ensures Shift(g, Xor(r, w)) == Xor(Step(g, r, w[0]), w[1..])
  {
  }

  lemma {:induction false} RunIsLoadAndShift(g: seq<bool>, r: seq<bool>, w: seq<bool>)
    requires |w| <= |r|
    ensures Run(g, r, w) == ShiftN(g, Xor(r, w), |w|)
    decreases |w|
  {
    if w == [] {
      assert Xor(r, w) == r;
    } else {
      LoadStep(g, r, w);
      RunIsLoadAndShift(g, Step(g, r, w[0]), w[1..]);
    }
  }

  /** The step of a table-driven CRC: a table entry for the eight leaving bits, XORed onto the rest. */
  lemma ByteStep(g: seq<bool>, s: seq<bool>, x: seq<bool>, entry: seq<bool>)
    requires |s| == |g| >= 8 && |x| == 8
    requires entry == ShiftN(g, Xor(s[..8], x) + Zeros(|g| - 8), 8)
    ensures Xor(entry, s[8..] + Zeros(8)) == Run(g, s, x)
  {
    var high := Xor(s[..8], x) + Zeros(|g| - 8);
    var low := Zeros(8) + s[8..];
    SplitLoad(s, x, high, low);
    ShiftNXor(g, high, low, 8);
    ShiftNClear(g, low, 8);
    assert low[8..] == s[8..];
    RunIsLoadAndShift(g, s, x);
  }

  lemma SplitLoad(s: seq<bool>, x: seq<bool>, high: seq<bool>, low: seq<bool>)
    requires |s| >= 8 && |x| == 8
    requires high == Xor(s[..8], x) + Zeros(|s| - 8) && low == Zeros(8) + s[8..]
    ensures Xor(s, x) == Xor(high, low)
  {
  }

  // ----- the register computes the remainder of polynomial division -----

  lemma {:induction false} ShiftedOne(g: seq<bool>, r: seq<bool>, n: nat)
    requires 0 < n <= |r| == |g|
    requires forall i :: 0 <= i < |r| ==> r[i] == (i == n - 1)
    ensures ShiftN(g, r, n) == g
    decreases n
  {
    var q := Shift(g, r);
    if n == 1 {
      assert q == g;
      assert ShiftN(g, r, 1) == ShiftN(g, q, 0);
    } else {
      ShiftedOne(g, q, n - 1);
    }
  }

  lemma DivideStep(g: seq<bool>, t: seq<bool>, b: bool)
    requires Generator(g) && |t| == |g|
    ensures ShiftN(g, Xor(Shift(g, t), Low(|g|, b)), |g|) == Step(g, ShiftN(g, t, |g|), b)
  {
    var n, low, r := |g|, Low(|g|, b), ShiftN(g, t, |g|);
    ShiftNXor(g, Shift(g, t), low, n);
    ShiftNPlus(g, t, 1, n);
    ShiftNPlus(g, t, n, 1);
    assert ShiftN(g, t, 1) == ShiftN(g, Shift(g, t), 0);
    assert ShiftN(g, r, 1) == ShiftN(g, Shift(g, r), 0);
    ShiftNLength(g, t, n);
    if b {
      ShiftedOne(g, low, n);
      assert Xor(Shift(g, r), g) == Shift(g, Xor(r, [true]));
    } else {
      ShiftNZeros(g, n);
      assert low == Zeros(n);
      assert Xor(Shift(g, r), Zeros(n)) == Shift(g, Xor(r, [false]));
    }
  }

  lemma {:induction false} RunIsDivide(g: seq<bool>, t: seq<bool>, m: seq<bool>)
    requires Generator(g) && |t| == |g|
    ensures Run(g, ShiftN(g, t, |g|), m) == Divide(g, t, m + Zeros(|g|))
    decreases |m|
  {
    if m == [] {
      assert [] + Zeros(|g|) == Zeros(|g|);
      DivideZeros(g, t, |g|);
    } else {
      DivideStep(g, t, m[0]);
      assert (m + Zeros(|g|))[1..] == m[1..] + Zeros(|g|);
      RunIsDivide(g, Xor(Shift(g, t), Low(|g|, m[0])), m[1..]);
    }
  }

  lemma {:induction false} DivideZeros(g: seq<bool>, t: seq<bool>, n: nat)
    ensures Divide(g, t, Zeros(n)) == ShiftN(g, t, n)
    decreases n
  {
    if n == 0 {
    } else {
      assert Zeros(n)[1..] == Zeros(n - 1);
      assert Xor(Shift(g, t), Low(|g|, false)) == Shift(g, t);
      DivideZeros(g, Shift(g, t), n - 1);
    }
  }

  /** From the zero register: the remainder of m(x) times x to the width. */
  lemma RunIsRemainder(g: seq<bool>, m: seq<bool>)
    requires Generator(g)
    ensures Run(g, Zeros(|g|), m) == Divide(g, Zeros(|g|), m + Zeros(|g|))
  {
    ShiftNZeros(g, |g|);
    RunIsDivide(g, Zeros(|g|), m);
  }

  // ----- error detection -----

  lemma DifferenceRun(g: seq<bool>, r: seq<bool>, a: seq<bool>, b: seq<bool>)
    requires |a| == |b|
    ensures Run(g, Zeros(|r|), Xor(a, b)) == Xor(Run(g, r, a), Run(g, r, b))
  {
    RunXor(g, r, r, a, b);
    assert Xor(r, r) == Zeros(|r|);
  }

  /** Two equally long messages collide exactly when their difference, run from zero, gives zero. */
  lemma CollisionIsZeroDifference(g: seq<bool>, r: seq<bool>, a: seq<bool>, b: seq<bool>)
    requires |a| == |b|
    ensures Run(g, r, a) == Run(g, r, b) <==> Clear(Run(g, Zeros(|r|), Xor(a, b)))
  {
    DifferenceRun(g, r, a, b);
    RunLength(g, r, a);
    RunLength(g, r, b);
    XorClear(Run(g, r, a), Run(g, r, b));
  }

  /** No message makes two different registers meet. */
  lemma RunInjective(g: seq<bool>, r: seq<bool>, q: seq<bool>, m: seq<bool>)
    requires Generator(g) && |r| == |q| == |g|
    ensures Run(g, r, m) == Run(g, q, m) ==> r == q
  {
    RunXor(g, r, q, m, m);
    assert Xor(m, m) == Zeros(|m|);
    RunZeros(g, Xor(r, q), |m|);
    ShiftNClears(g, Xor(r, q), |m|);
    RunLength(g, r, m);
    RunLength(g, q, m);
    XorClear(Run(g, r, m), Run(g, q, m));
    XorClear(r, q);
  }

  lemma LeadingZeros(g: seq<bool>, p: nat, w: seq<bool>)
    requires Generator(g)
    ensures Run(g, Zeros(|g|), Zeros(p) + w) == Run(g, Zeros(|g|), w)
  {
    RunConcat(g, Zeros(|g|), Zeros(p), w);
    RunZeros(g, Zeros(|g|), p);
    ShiftNZeros(g, p);
  }

  lemma TrailingZeros(g: seq<bool>, w: seq<bool>, n: nat)
    requires Generator(g)
    ensures Clear(Run(g, Zeros(|g|), w + Zeros(n))) <==> Clear(Run(g, Zeros(|g|), w))
  {
    RunConcat(g, Zeros(|g|), w, Zeros(n));
    RunLength(g, Zeros(|g|), w);
    RunZeros(g, Run(g, Zeros(|g|), w), n);
    ShiftNClears(g, Run(g, Zeros(|g|), w), n);
  }

  lemma WindowIsNotZero(g: seq<bool>, w: seq<bool>, k: nat)
    requires Generator(g) && k < |w| <= |g| && w[k]
    ensures !Clear(Run(g, Zeros(|g|), w))
  {
    RunIsLoadAndShift(g, Zeros(|g|), w);
    assert Xor(Zeros(|g|), w)[k];
    ShiftNClears(g, Xor(Zeros(|g|), w), |w|);
  }

  /** All 1 bits lie in [p, e). */
  predicate Within(d: seq<bool>, p: nat, e: nat) {
    forall i :: 0 <= i < |d| && d[i] ==> p <= i < e
  }

  predicate AgreeOutside(a: seq<bool>, b: seq<bool>, p: nat, e: nat)
    requires |a| == |b|
  {
    forall i :: 0 <= i < |a| && a[i] != b[i] ==> p <= i < e
  }

  lemma DifferenceWithin(a: seq<bool>, b: seq<bool>, p: nat, e: nat)
    requires |a| == |b| && AgreeOutside(a, b, p, e)
    ensures Within(Xor(a, b), p, e)
  {
  }

  lemma SplitBurst(d: seq<bool>, p: nat, e: nat, n: nat)
    requires p <= e <= |d| && Within(d, p, n) && (e == n || e == |d|)
    ensures d == Zeros(p) + (d[p..e] + Zeros(|d| - e))
  {
  }

  lemma BurstAt(g: seq<bool>, d: seq<bool>, p: nat, e: nat, k: nat)
    requires Generator(g) && p <= k < e <= |d| && e - p <= |g| && d[k]
    requires d == Zeros(p) + (d[p..e] + Zeros(|d| - e))
    ensures !Clear(Run(g, Zeros(|g|), d))
  {
    assert d[p..e][k - p] == d[k];
    PaddedWindow(g, p, d[p..e], |d| - e, k - p);
  }

  /** A nonzero error pattern confined to a register's width of consecutive bits never runs to zero. */
  lemma BurstIsNotZero(g: seq<bool>, d: seq<bool>, p: nat, k: nat)
    requires Generator(g) && k < |d| && d[k] && Within(d, p, p + |g|)
    ensures !Clear(Run(g, Zeros(|g|), d))
  {
    var n := p + |g|;
    assert p <= k < n;
    var e := if n <= |d| then n else |d|;
    SplitBurst(d, p, e, n);
    BurstAt(g, d, p, e, k);
  }

  lemma PaddedWindow(g: seq<bool>, p: nat, w: seq<bool>, n: nat, k: nat)
    requires Generator(g) && k < |w| <= |g| && w[k]
    ensures !Clear(Run(g, Zeros(|g|), Zeros(p) + (w + Zeros(n))))
  {
    LeadingZeros(g, p, w + Zeros(n));
    TrailingZeros(g, w, n);
    WindowIsNotZero(g, w, k);
  }

  // ----- parity -----

  /** Is the number of 1 bits odd? */
  predicate Odd(bits: seq<bool>) {
    if bits == [] then false else bits[0] != Odd(bits[1..])
  }

  lemma {:induction false} OddXor(a: seq<bool>, b: seq<bool>)
    requires |a| == |b|
    ensures Odd(Xor(a, b)) == (Odd(a) != Odd(b))
    decreases |a|
  {
    if a == [] {
    } else {
      assert Xor(a, b)[1..] == Xor(a[1..], b[1..]);
      OddXor(a[1..], b[1..]);
    }
  }

  lemma {:induction false} OddAppendZero(a: seq<bool>)
    ensures Odd(a + [false]) == Odd(a)
  {
    if a == [] {
    } else {
      assert (a + [false])[1..] == a[1..] + [false];
      OddAppendZero(a[1..]);
    }
  }

  lemma {:induction false} OddClear(r: seq<bool>)
    requires Clear(r)
    ensures !Odd(r)
  {
    if r == [] {
    } else {
      OddClear(r[1..]);
    }
  }

  lemma {:induction false} OddSingle(r: seq<bool>, k: nat)
    requires k < |r| && forall i :: 0 <= i < |r| ==> r[i] == (i == k)
    ensures Odd(r)
    decreases k
  {
    if k == 0 {
      OddClear(r[1..]);
    } else {
      OddSingle(r[1..], k - 1);
    }
  }

  lemma OddShift(g: seq<bool>, r: seq<bool>)
    requires |r| == |g| > 0 && Odd(g)
    ensures Odd(Shift(g, r)) == Odd(r)
  {
    var s := r[1..] + [false];
    OddAppendZero(r[1..]);
    if r[0] {
      assert Shift(g, r) == Xor(s, g);
      OddXor(s, g);
    } else {
      assert Shift(g, r) == s;
    }
  }

  /** A generator divisible by x + 1 keeps the parity of everything it has taken in. */
  lemma {:induction false} RunParity(g: seq<bool>, r: seq<bool>, bits: seq<bool>)
    requires |r| == |g| > 0 && Odd(g)
    ensures Odd(Run(g, r, bits)) == (Odd(r) != Odd(bits))
    decreases |bits|
  {
    if bits == [] {
    } else {
      var q := Xor(r, [bits[0]]);
      assert q[1..] == r[1..];
      OddShift(g, q);
      RunParity(g, Step(g, r, bits[0]), bits[1..]);
    }
  }
}

/**
 The arithmetic and bookkeeping of MD5Update and MD5Final in src/l0001-0/md5.c: folding a block function over a
 message that arrives in pieces, the two-word bit count, and when the block loop ends.  Blocks and chaining values
 are of any type.
 */
module Md5Stream {
  import opened Arithmetic

  const BLOCK: nat := 64

  // ----- folding over blocks -----

  type Compressor<!H, !B> = (H, seq<B>) -> H

  /** The block function over the whole blocks of a message, as section 3.4 of RFC 1321 processes them. */
  function Fold<H, B>(f: Compressor<H, B>, h: H, m: seq<B>): H
    decreases |m|
  {
    if |m| < BLOCK then h else Fold(f, f(h, m[..BLOCK]), m[BLOCK..])
  }

  /** What is left after the whole blocks. */
  function Rest<B>(m: seq<B>): (r: seq<B>)
    ensures |r| == |m| % BLOCK
  {
    m[|m| - |m| % BLOCK..]
  }

  lemma {:induction false} FoldConcat<H, B>(f: Compressor<H, B>, h: H, a: seq<B>, b: seq<B>)
    requires |a| % BLOCK == 0
    ensures Fold(f, h, a + b) == Fold(f, Fold(f, h, a), b)
    decreases |a|
  {
    if |a| < BLOCK {
      assert a + b == b;
    } else {
      assert (a + b)[..BLOCK] == a[..BLOCK] && (a + b)[BLOCK..] == a[BLOCK..] + b;
      FoldConcat(f, f(h, a[..BLOCK]), a[BLOCK..], b);
    }
  }

  /** One more block. */
  lemma FoldBlock<H, B>(f: Compressor<H, B>, h: H, a: seq<B>, b: seq<B>)
    requires |a| % BLOCK == 0 && |b| == BLOCK
    ensures Fold(f, h, a + b) == f(Fold(f, h, a), b)
  {
    FoldConcat(f, h, a, b);
    assert b[..BLOCK] == b && b[BLOCK..] == [];
  }

  lemma WholeBlocks(n: nat)
    ensures (n - n % BLOCK) % BLOCK == 0
  {
    ModIs(n - n % BLOCK, BLOCK, n / BLOCK, 0);
  }

  lemma FoldShort<H, B>(f: Compressor<H, B>, h: H, m: seq<B>)
    requires |m| < BLOCK
    ensures Fold(f, h, m) == h
  {
  }

  /** The bytes after the last whole block do not enter the fold. */
  lemma FoldIgnoresRest<H, B>(f: Compressor<H, B>, h: H, m: seq<B>)
    ensures var n := |m| - |m| % BLOCK; n % BLOCK == 0 && Fold(f, h, m) == Fold(f, h, m[..n])
  {
    var n := |m| - |m| % BLOCK;
    WholeBlocks(|m|);
    var a, b := m[..n], m[n..];
    assert m == a + b;
    FoldConcat(f, h, a, b);
    FoldShort(f, Fold(f, h, a), b);
  }

  // ----- the bit count -----

  /** The two words of the count for n bytes. */
  predicate Counts(lo: nat, hi: nat, n: nat) {
    lo < WORD && hi < WORD && lo + WORD * hi == 8 * n % (WORD * WORD)
  }

  /** The additions of MD5Update: a carry out of the low word, and the bits shifted out of inputlen << 3. */
  function AddLow(lo: nat, len: nat): nat {
    (lo + 8 * len % WORD) % WORD
  }

  function AddHigh(lo: nat, hi: nat, len: nat): nat {
    ((if AddLow(lo, len) < 8 * len % WORD then (hi + 1) % WORD else hi) + len / 0x2000_0000) % WORD
  }

  lemma ShiftedLength(len: nat)
    requires len < WORD
    ensures 8 * len == WORD * (len / 0x2000_0000) + 8 * len % WORD
  {
    var q, r := len / 0x2000_0000, len % 0x2000_0000;
    assert 8 * len == WORD * q + 8 * r;
    ModIs(8 * len, WORD, q, 8 * r);
  }

  lemma AddSplits(lo: nat, hi: nat, len: nat) returns (k: nat)
    requires lo < WORD && hi < WORD && len < WORD
    ensures AddLow(lo, len) + WORD * AddHigh(lo, hi, len) + WORD * WORD * k == lo + WORD * hi + 8 * len
    ensures AddLow(lo, len) < WORD && AddHigh(lo, hi, len) < WORD
  {
    ShiftedLength(len);
    var s, q := 8 * len % WORD, len / 0x2000_0000;
    var carry := if lo + s >= WORD then 1 else 0;
    ModIs(lo + s, WORD, carry, lo + s - WORD * carry);
    var top := hi + carry + q;
    k := if top >= WORD then 1 else 0;
    HighWord(hi, carry, q, k);
  }

  lemma HighWord(hi: nat, carry: nat, q: nat, k: nat)
    requires hi < WORD && carry <= 1 && q < 8
    requires k == if hi + carry + q >= WORD then 1 else 0
    ensures ((if carry == 1 then (hi + 1) % WORD else hi) + q) % WORD == hi + carry + q - WORD * k
  {
    if carry == 1 && hi == WORD - 1 {
      ModIs(hi + 1, WORD, 1, 0);
    } else if carry == 1 {
      ModIs(hi + 1, WORD, 0, hi + 1);
    }
    var h := if carry == 1 then (hi + 1) % WORD else hi;
    ModIs(h + q, WORD, if h + q >= WORD then 1 else 0, if h + q >= WORD then h + q - WORD else h + q);
  }

  /** The count stays 8 times the bytes seen, modulo 2^64, despite its split carry arithmetic. */
  lemma CountAdds(lo: nat, hi: nat, n: nat, len: nat)
    requires Counts(lo, hi, n) && len < WORD
    ensures Counts(AddLow(lo, len), AddHigh(lo, hi, len), n + len)
  {
    var k := AddSplits(lo, hi, len);
    var w := WORD * WORD;
    var v, q := AddLow(lo, len) + WORD * AddHigh(lo, hi, len), 8 * n / w;
    assert 8 * n == q * w + (lo + WORD * hi);
    assert 8 * (n + len) == (q + k) * w + v;
    ModIs(8 * (n + len), w, q + k, v);
  }

  /** The position in the buffer, taken from the low word. */
  lemma IndexFromCount(lo: nat, hi: nat, n: nat)
    requires Counts(lo, hi, n)
    ensures lo / 8 % BLOCK == n % BLOCK
  {
    var w := WORD * WORD;
    var q := 8 * n / w;
    assert 8 * n == q * w + lo + WORD * hi;
    var c := q * WORD + hi;
    assert 8 * n == WORD * c + lo;
    LowBits(lo, c, n);
  }

  lemma LowBits(lo: nat, c: nat, n: nat)
    requires 8 * n == WORD * c + lo
    ensures lo / 8 % BLOCK == n % BLOCK
  {
    var d := 0x80_0000 * c;
    assert WORD * c == 512 * d;
    var j := lo / 8;
    assert lo == 8 * j;
    assert n == 64 * d + j;
    ModIs(n, BLOCK, d + j / 64, j % 64);
  }

  // ----- when the block loop ends -----

  /** The value the loop compares with the length after the n-th block; unsigned arithmetic wraps. */
  function Probe(partlen: nat, n: nat): nat {
    (partlen + 64 * n + 64) % WORD
  }

  /** The loop over whole blocks ends if and only if the input is this much shorter than 2^32. */
  lemma LoopEndsIff(partlen: nat, len: nat)
    requires 1 <= partlen <= BLOCK && len < WORD
    ensures (exists n: nat :: Probe(partlen, n) > len) <==> len < WORD - 64 + partlen % 64
  {
    if len < WORD - 64 + partlen % 64 {
      LastProbe(partlen);
    }
    forall n: nat ensures Probe(partlen, n) <= WORD - 64 + partlen % 64 {
      ProbeBounded(partlen, n);
    }
  }

  lemma LastProbe(partlen: nat)
    requires 1 <= partlen <= BLOCK
    ensures exists n: nat :: Probe(partlen, n) == WORD - 64 + partlen % 64
  {
    var n: nat := if partlen == 64 then 0x3FF_FFFD else 0x3FF_FFFE;
    assert partlen + 64 * n + 64 == WORD - 64 + partlen % 64;
    ModIs(partlen + 64 * n + 64, WORD, 0, WORD - 64 + partlen % 64);
    assert Probe(partlen, n) == WORD - 64 + partlen % 64;
  }

  lemma ProbeBounded(partlen: nat, n: nat)
    requires 1 <= partlen <= BLOCK
    ensures Probe(partlen, n) <= WORD - 64 + partlen % 64
  {
    var x := partlen + 64 * n + 64;
    var q, v := x / WORD, x % WORD;
    assert x == q * WORD + v;
    var e := n + 1 - 0x400_0000 * q;
    assert v == 64 * e + partlen;
    Residue(v, e, partlen);
  }

  lemma Residue(v: nat, e: int, partlen: nat)
    requires 1 <= partlen <= BLOCK && v < WORD && v == 64 * e + partlen
    ensures v <= WORD - 64 + partlen % 64
  {
  }
}

/** The digest of src/l0001-0/md5.c: the block transform and the streaming context. */
module Md5 {
  import opened Arithmetic
  import opened Buffer
  import Bytes
  import TableCrc
  import opened Md5Rounds
  import opened Md5Stream
  import opened Md5Words

  // ----- the block function -----

  /** All that MD5 does to words and bytes; the streaming part depends on none of it. */
  datatype Ops<!W, !B> = Ops(
    init: Regs<W>,
    mix: Mix<W>,
    add: (W, W) -> W,
    wordOf: ToWord<W, B>,
    byteOf: ToByte<W, B>,
    countByte: ToByte<nat, B>,   // the bytes of a word of the bit count
    mark: B,                     // the first byte of PADDING
    zero: B)                     // its other bytes

  function Digit(n: nat, k: nat): nat {
    n / (if k == 0 then 1 else if k == 1 then 0x100 else if k == 2 then 0x1_0000 else 0x100_0000) % 256
  }

  function CountByte(n: nat, k: nat): Bytes.byte {
    Digit(n, k) as Bytes.byte
  }

  const MD5: Ops<Word, Bytes.byte> := Ops(
    Regs(0x67452301, 0xEFCDAB89, 0x98BADCFE, 0x10325476),
    MACROS, (x: Word, y: Word) => x + y, WordOf, ByteOf, CountByte, 0x80, 0)

  /** Addition is addition of words modulo 2^32 ... */
  lemma AddsWords(x: Word, y: Word)
    ensures MD5.add(x, y) == x + y
  {
  }

  /** ... words are put out as bytes low byte first ... */
  lemma PutsLowByteFirst(x: Word)
    ensures MD5.byteOf(x, 0) as Word == x & 0xFF
    ensures MD5.byteOf(x, 1) as Word == (x >> 8) & 0xFF
    ensures MD5.byteOf(x, 2) as Word == (x >> 16) & 0xFF
    ensures MD5.byteOf(x, 3) as Word == (x >> 24) & 0xFF
  {
  }

  /** ... and taken from bytes in the same order. */
  lemma TakesLowByteFirst(b0: Bytes.byte, b1: Bytes.byte, b2: Bytes.byte, b3: Bytes.byte)
    ensures var w := MD5.wordOf(b0, b1, b2, b3);
            w & 0xFF == b0 as Word && (w >> 8) & 0xFF == b1 as Word
            && (w >> 16) & 0xFF == b2 as Word && (w >> 24) & 0xFF == b3 as Word
  {
  }

  function Added<W, B>(ops: Ops<W, B>, h: Regs<W>, q: Regs<W>): Regs<W> {
    Regs(ops.add(h.a, q.a), ops.add(h.b, q.b), ops.add(h.c, q.c), ops.add(h.d, q.d))
  }

  /** Section 3.4 of RFC 1321: sixty-four steps on the sixteen words of the block, added to the chaining value. */
  function Compress<W, B>(ops: Ops<W, B>, h: Regs<W>, block: seq<B>): Regs<W> {
    if |block| == BLOCK then Added(ops, h, Steps(ops.mix, Decoded(ops.wordOf, block), 64, h)) else h
  }

  /** With the macros it is the block transform of RFC 1321, whose steps rotate circularly. */
  lemma CompressIsRfc(h: Regs<Word>, block: seq<Bytes.byte>)
    ensures Compress(MD5, h, block) == Compress(MD5.(mix := RFC_STEP), h, block)
  {
    if |block| == BLOCK {
      MacrosAreRfc(Decoded(WordOf, block), 64, h);
    }
  }

  function Chain<W>(state: seq<W>): Regs<W>
    requires |state| == 4
  {
    Regs(state[0], state[1], state[2], state[3])
  }

  method AddTo<W, B>(state: array<W>, q: Regs<W>, ops: Ops<W, B>)
    requires state.Length == 4
    modifies state
    ensures Chain(state[..]) == Added(ops, old(Chain(state[..])), q)
  {
    state[0] := ops.add(state[0], q.a);
    state[1] := ops.add(state[1], q.b);
    state[2] := ops.add(state[2], q.c);
    state[3] := ops.add(state[3], q.d);
  }

  /** MD5Transform, whatever the words are. */
  method Transform<W(0), B>(state: array<W>, block: array<B>, off: nat, ops: Ops<W, B>)
    requires state.Length == 4 && off + BLOCK <= block.Length
    requires state as object != block as object
    modifies state
    ensures Chain(state[..]) == Compress(ops, old(Chain(state[..])), block[off..off + BLOCK])
  {
    ghost var h := Chain(state[..]);
    var x := new W[64];
    Decode(x, block, off, 64, ops.wordOf);
    var q := Unrolled(ops.mix, x[..16], Regs(state[0], state[1], state[2], state[3]));
    AddTo(state, q, ops);
  }

  // ----- the digest as RFC 1321 defines it -----

  /** PADDING. */
  function PaddingBytes<W, B>(ops: Ops<W, B>): (p: seq<B>)
    ensures |p| == BLOCK && p[0] == ops.mark && forall i :: 0 < i < BLOCK ==> p[i] == ops.zero
  {
    [ops.mark] + seq(BLOCK - 1, _ => ops.zero)
  }

  function PadLength(n: nat): (k: nat)
    ensures 1 <= k <= BLOCK
  {
    if n % BLOCK < 56 then 56 - n % BLOCK else 120 - n % BLOCK
  }

  /** The bit length modulo 2^64 as two words, low word first. */
  function LengthWords(n: nat): seq<nat> {
    var bits := 8 * n % (WORD * WORD);
    [bits % WORD, bits / WORD]
  }

  /** Sections 3.1 and 3.2: a one bit, zeros, and the length. */
  function Padded<W, B>(ops: Ops<W, B>, m: seq<B>): seq<B> {
    m + PaddingBytes(ops)[..PadLength(|m|)] + Encoded(ops.countByte, LengthWords(|m|))
  }

  /** The padded message is whole blocks, and no shorter one would do. */
  lemma PaddedIsWholeBlocks<W, B>(ops: Ops<W, B>, m: seq<B>)
    ensures |Padded(ops, m)| % BLOCK == 0 && |m| + 9 <= |Padded(ops, m)| < |m| + 9 + BLOCK
  {
    var n := |m|;
    var q := n / BLOCK;
    ModIs(n + PadLength(n) + 8, BLOCK, if n % BLOCK < 56 then q + 1 else q + 2, 0);
  }

  function Bits(m: seq<Bytes.byte>): seq<bool> {
    TableCrc.Message(TableCrc.MsbFirst, m)
  }

  lemma MarkBit()
    ensures Bits([0x80]) == [true] + Bytes.Zeros(7)
  {
    assert [0x80 as Bytes.byte][1..] == [];
    var b := Bytes.ByteBits(0x80);
    assert b[0] && forall i :: 1 <= i < 8 ==> !b[i];
  }

  lemma MarkBits(k: nat)
    requires 1 <= k <= BLOCK
    ensures Bits(PaddingBytes(MD5)[..k]) == [true] + Bytes.Zeros(8 * k - 1)
  {
    var zeros := PaddingBytes(MD5)[1..k];
    assert PaddingBytes(MD5)[..k] == [0x80] + zeros;
    MarkBit();
    TableCrc.MessageConcat(TableCrc.MsbFirst, [0x80], zeros);
    TableCrc.MessageOfZeros(TableCrc.MsbFirst, zeros);
    assert Bytes.Zeros(7) + Bytes.Zeros(8 * k - 8) == Bytes.Zeros(8 * k - 1);
  }

  lemma CountBytes(n: nat)
    requires n < WORD
    ensures n == CountByte(n, 0) as nat + 0x100 * CountByte(n, 1) as nat + 0x1_0000 * CountByte(n, 2) as nat
                 + 0x100_0000 * CountByte(n, 3) as nat
  {
    CountDigits(n);
    Bytes.NatByte(Digit(n, 0));
    Bytes.NatByte(Digit(n, 1));
    Bytes.NatByte(Digit(n, 2));
    Bytes.NatByte(Digit(n, 3));
  }

  /** Eight bytes that are, low byte first, the length in bits of n bytes modulo 2^64. */
  predicate HoldsLength(t: seq<Bytes.byte>, n: nat) {
    |t| == 8 &&
    8 * n % 0x1_0000_0000_0000_0000
      == t[0] as nat + 0x100 * t[1] as nat + 0x1_0000 * t[2] as nat + 0x100_0000 * t[3] as nat
         + WORD * (t[4] as nat + 0x100 * t[5] as nat + 0x1_0000 * t[6] as nat + 0x100_0000 * t[7] as nat)
  }

  lemma LengthValue(n: nat)
    ensures HoldsLength(Encoded(CountByte, LengthWords(n)), n)
  {
    var w := LengthWords(n);
    CountBytes(w[0]);
    CountBytes(w[1]);
    EncodedAt(CountByte, w, 0);
    EncodedAt(CountByte, w, 1);
  }

  /** Sections 3.1 and 3.2, bit for bit: the message, a one, the least number of zeros that brings the length to 448
      modulo 512, and eight bytes that hold the length in bits modulo 2^64, low byte first. */
  lemma PaddedBits(m: seq<Bytes.byte>) returns (z: nat, t: seq<Bytes.byte>)
    ensures Bits(Padded(MD5, m)) == Bits(m) + [true] + Bytes.Zeros(z) + Bits(t)
    ensures z < 512 && (8 * |m| + 1 + z) % 512 == 448
    ensures HoldsLength(t, |m|)
  {
    z, t := 8 * PadLength(|m|) - 1, Encoded(CountByte, LengthWords(|m|));
    PaddedApart(m, z, t);
    LengthValue(|m|);
    PaddedLength(|m|);
  }

  lemma PaddedApart(m: seq<Bytes.byte>, z: nat, t: seq<Bytes.byte>)
    requires z == 8 * PadLength(|m|) - 1 && t == Encoded(CountByte, LengthWords(|m|))
    ensures Bits(Padded(MD5, m)) == Bits(m) + [true] + Bytes.Zeros(z) + Bits(t)
  {
    BitsApart(m, PadLength(|m|), t);
  }

  /** p is m padded in this way, with z zeros and the length bytes t. */
  predicate PaddedWith(p: seq<Bytes.byte>, m: seq<Bytes.byte>, z: nat, t: seq<Bytes.byte>) {
    && Bits(p) == Bits(m) + [true] + Bytes.Zeros(z) + Bits(t)
    && z < 512 && (8 * |m| + 1 + z) % 512 == 448
    && HoldsLength(t, |m|)
  }

  lemma PaddedIs(m: seq<Bytes.byte>) returns (z: nat, t: seq<Bytes.byte>)
    ensures PaddedWith(Padded(MD5, m), m, z, t)
  {
    z, t := PaddedBits(m);
  }

  lemma BitsApart(m: seq<Bytes.byte>, k: nat, t: seq<Bytes.byte>)
    requires 1 <= k <= BLOCK
    ensures Bits(m + PaddingBytes(MD5)[..k] + t) == Bits(m) + [true] + Bytes.Zeros(8 * k - 1) + Bits(t)
  {
    var p := PaddingBytes(MD5)[..k];
    TableCrc.MessageConcat(TableCrc.MsbFirst, m, p);
    TableCrc.MessageConcat(TableCrc.MsbFirst, m + p, t);
    MarkBits(k);
    assert Bits(m) + ([true] + Bytes.Zeros(8 * k - 1)) == Bits(m) + [true] + Bytes.Zeros(8 * k - 1);
  }

  lemma PaddedLength(n: nat)
    ensures (8 * n + 8 * PadLength(n)) % 512 == 448
  {
    var q := n / BLOCK;
    assert n == BLOCK * q + n % BLOCK;
    ModIs(8 * n + 8 * PadLength(n), 512, if n % BLOCK < 56 then q else q + 1, 448);
  }

  /** Sections 3.3 to 3.5. */
  function Digest<W, B>(ops: Ops<W, B>, m: seq<B>): seq<B> {
    Output(ops, Fold((h: Regs<W>, b: seq<B>) => Compress(ops, h, b), ops.init, Padded(ops, m)))
  }

  function Output<W, B>(ops: Ops<W, B>, h: Regs<W>): seq<B> {
    Encoded(ops.byteOf, [h.a, h.b, h.c, h.d])
  }

  /** The initial words, low byte first, are the bytes section 3.3 lists. */
  lemma InitBytes()
    ensures Encoded(ByteOf, [MD5.init.a]) == [0x01, 0x23, 0x45, 0x67]
    ensures Encoded(ByteOf, [MD5.init.b]) == [0x89, 0xAB, 0xCD, 0xEF]
    ensures Encoded(ByteOf, [MD5.init.c]) == [0xFE, 0xDC, 0xBA, 0x98]
    ensures Encoded(ByteOf, [MD5.init.d]) == [0x76, 0x54, 0x32, 0x10]
  {
    WordBytes(0x67452301, 0x01, 0x23, 0x45, 0x67);
    WordBytes(0xEFCDAB89, 0x89, 0xAB, 0xCD, 0xEF);
    WordBytes(0x98BADCFE, 0xFE, 0xDC, 0xBA, 0x98);
    WordBytes(0x10325476, 0x76, 0x54, 0x32, 0x10);
  }

  lemma WordBytes(w: Word, b0: Bytes.byte, b1: Bytes.byte, b2: Bytes.byte, b3: Bytes.byte)
    requires w == WordOf(b0, b1, b2, b3)
    ensures Encoded(ByteOf, [w]) == [b0, b1, b2, b3]
  {
    ByteRoundTrip(b0, b1, b2, b3);
    EncodedAt(ByteOf, [w], 0);
  }

  /** The bytes of a word of the count, low byte first, are its digits to the base 256. */
  lemma CountDigits(n: nat)
    requires n < WORD
    ensures n == Digit(n, 0) + 0x100 * Digit(n, 1) + 0x1_0000 * Digit(n, 2) + 0x100_0000 * Digit(n, 3)
  {
    var a := n / 0x100;
    var b := a / 0x100;
    var c := b / 0x100;
    ModIs(n, 0x1_0000, b, 0x100 * (a % 0x100) + n % 0x100);
    ModIs(n, 0x100_0000, c, 0x1_0000 * (b % 0x100) + 0x100 * (a % 0x100) + n % 0x100);
    assert c % 0x100 == c;
  }

  // ----- the streaming context -----

  ghost predicate IsCompress<W(!new), B(!new)>(f: Compressor<Regs<W>, B>, ops: Ops<W, B>) {
    forall h: Regs<W>, b: seq<B> {:trigger Compress(ops, h, b)} :: f(h, b) == Compress(ops, h, b)
  }

  lemma CountWords(lo: nat, hi: nat, n: nat)
    requires Counts(lo, hi, n)
    ensures LengthWords(n) == [lo, hi]
  {
    var bits := 8 * n % (WORD * WORD);
    ModIs(bits, WORD, hi, lo);
  }

  class Context<W(0,!new), B(0,!new)> {
    const ops: Ops<W, B>
    var lo: nat                  // count[0]
    var hi: nat                  // count[1]
    const state: array<W>
    const buffer: array<B>
    ghost const f: Compressor<Regs<W>, B>
    ghost var message: seq<B>    // everything given to MD5Update so far

    /** MD5Init */
    constructor (ops: Ops<W, B>)
      ensures Valid() && message == [] && this.ops == ops && fresh(state) && fresh(buffer)
    {
      this.ops := ops;
      lo, hi := 0, 0;
      var s := new W[4];
      state := s;
      buffer := new B[64];
      f := (h: Regs<W>, b: seq<B>) => Compress(ops, h, b);
      message := [];
      new;
      state[0] := ops.init.a;
      state[1] := ops.init.b;
      state[2] := ops.init.c;
      state[3] := ops.init.d;
    }

    ghost predicate Shape()
      reads this
    {
      && state.Length == 4 && buffer.Length == BLOCK && state as object != buffer as object
      && IsCompress(f, ops)
    }

    /** The chaining value is that of the whole blocks of m. */
    ghost predicate Folded(m: seq<B>)
      requires Shape()
      reads this, state
    {
      Chain(state[..]) == Fold(f, ops.init, m)
    }

    /** The context is determined by the message: chaining value, count and the live part of the buffer. */
    ghost predicate Valid()
      reads this, state, buffer
    {
      && Shape() && Folded(message) && Counts(lo, hi, |message|)
      && buffer[..|message| % BLOCK] == Rest(message)
    }

    /** The count after len more bytes. */
    method AddCount(len: nat)
      requires len < WORD && Counts(lo, hi, |message|)
      modifies this`lo, this`hi
      ensures Counts(lo, hi, |message| + len)
    {
      CountAdds(lo, hi, |message|, len);
      var shifted := 8 * len % WORD;
      lo := (lo + shifted) % WORD;
      if lo < shifted {
        hi := (hi + 1) % WORD;
      }
      hi := (hi + len / 0x2000_0000) % WORD;
    }

    /** One block on top of the whole blocks m. */
    method TakeBlock(block: array<B>, off: nat, ghost m: seq<B>)
      requires Shape() && Folded(m) && |m| % BLOCK == 0
      requires off + BLOCK <= block.Length && block as object != state as object
      modifies state
      ensures Folded(m + block[off..off + BLOCK])
    {
      ghost var h, b := Chain(state[..]), block[off..off + BLOCK];
      Transform(state, block, off, ops);
      assert f(h, b) == Compress(ops, h, b);
      FoldBlock(f, ops.init, m, b);
    }

    /** MD5Update.  The bound is exactly the one under which its block loop ends. */
    method Update(input: array<B>, inputlen: nat)
      requires Valid() && inputlen <= input.Length
      requires inputlen < WORD - 64 + (BLOCK - |message| % BLOCK) % 64
      requires input as object != state as object && input as object != buffer as object
      modifies this`lo, this`hi, this`message, state, buffer
      ensures Valid() && message == old(message) + input[..inputlen]
    {
      IndexFromCount(lo, hi, |message|);
      var index := lo / 8 % BLOCK;
      var partlen := BLOCK - index;
      AddCount(inputlen);
      var i := 0;
      if inputlen >= partlen {
        CompleteBlock(input, inputlen, index, partlen);
        NextMultiple(|message|, partlen);
        i := TakeBlocks(input, inputlen, partlen);
        index := 0;
      } else {
        assert input[..0] == [] && message + [] == message;
      }
      KeepRest(input, inputlen, index, i);
      message := message + input[..inputlen];
    }

    /** The buffered bytes and the first input bytes make a block. */
    method CompleteBlock(input: array<B>, inputlen: nat, index: nat, partlen: nat)
      requires Shape() && Folded(message) && index == |message| % BLOCK && buffer[..index] == Rest(message)
      requires index + partlen == BLOCK && partlen <= inputlen <= input.Length
      requires input as object != buffer as object && input as object != state as object
      modifies state, buffer
      ensures Folded(message + input[..partlen])
    {
      ghost var m, whole := message, message[..|message| - index];
      FoldIgnoresRest(f, ops.init, m);
      ghost var b := buffer[..];
      CopyIn(buffer, index, input[..inputlen], partlen);
      Joined(b, buffer[..], m, index, input[..inputlen], partlen);
      assert input[..inputlen][..partlen] == input[..partlen];
      TakeBlock(buffer, 0, whole);
    }

    /** The loop over whole blocks of the input. */
    method TakeBlocks(input: array<B>, inputlen: nat, partlen: nat) returns (i: nat)
      requires Shape() && inputlen <= input.Length && input as object != state as object
      requires 1 <= partlen <= BLOCK && partlen <= inputlen < WORD - 64 + partlen % 64
      requires (|message| + partlen) % BLOCK == 0 && Folded(message + input[..partlen])
      modifies state
      ensures i <= inputlen < i + BLOCK && (|message| + i) % BLOCK == 0 && Folded(message + input[..i])
    {
      i := partlen;
      ghost var n := 0;
      NoWrap(i, partlen, n, inputlen);
      while (i + 64) % WORD <= inputlen
        invariant i <= inputlen && i == partlen + 64 * n && i + 64 < WORD
        invariant (|message| + i) % BLOCK == 0 && Folded(message + input[..i])
        decreases inputlen - i
      {
        TakeBlock(input, i, message + input[..i]);
        assert message + input[..i] + input[i..i + BLOCK] == message + input[..i + BLOCK];
        i := (i + 64) % WORD;
        n := n + 1;
        NoWrap(i, partlen, n, inputlen);
      }
    }

    /** What is left of the input goes to the buffer. */
    method KeepRest(input: array<B>, inputlen: nat, index: nat, i: nat)
      requires Shape() && i <= inputlen <= input.Length && index + (inputlen - i) < BLOCK
      requires input as object != buffer as object
      requires if index == 0 then (|message| + i) % BLOCK == 0 && Folded(message + input[..i])
               else i == 0 && index == |message| % BLOCK && buffer[..index] == Rest(message) && Folded(message)
      modifies buffer
      ensures var m := message + input[..inputlen];
              Folded(m) && buffer[..|m| % BLOCK] == Rest(m)
    {
      ghost var b, x := buffer[..], input[..inputlen];
      assert x[..i] == input[..i] && x[i..] == input[i..inputlen];
      CopyIn(buffer, index, input[i..inputlen], inputlen - i);
      if index == 0 {
        RestOfInput(f, ops.init, message, x, i);
        assert x[i..] == x[i..][..inputlen - i];
        StartOf(b, buffer[..], x[i..], inputlen - i);
      } else {
        RestAndInput(f, ops.init, message, x);
        assert x == x[i..] == x[i..][..inputlen - i];
        Appended(b, buffer[..], index, x, inputlen);
      }
    }

    /** MD5Final */
    method Final(digest: array<B>)
      requires Valid() && digest.Length >= 16
      requires digest as object != state as object && digest as object != buffer as object
      modifies this`lo, this`hi, this`message, state, buffer, digest
      ensures Valid() && message == Padded(ops, old(message)) && |message| % BLOCK == 0
      ensures digest[..16] == Digest(ops, old(message)) && digest[16..] == old(digest[16..])
    {
      ghost var m := message;
      Pad();
      Encode(digest, state, 16, ops.byteOf);
      DigestIs(f, ops, m, state[..]);
    }

    method Pad()
      requires Valid()
      modifies this`lo, this`hi, this`message, state, buffer
      ensures Valid() && message == Padded(ops, old(message)) && |message| % BLOCK == 0
    {
      ghost var m := message;
      IndexFromCount(lo, hi, |m|);
      var index := lo / 8 % BLOCK;
      var padlen := if index < 56 then 56 - index else 120 - index;
      var bits := LengthBytes();
      var padding := new B[BLOCK](i => if i == 0 then ops.mark else ops.zero);
      assert padding[..] == PaddingBytes(ops) && padding[..padlen] == padding[..][..padlen];
      assert padlen == PadLength(|m|);
      Update(padding, padlen);
      Update(bits, 8);
      PaddedIsWholeBlocks(ops, m);
    }

    method LengthBytes() returns (bits: array<B>)
      requires Shape() && Counts(lo, hi, |message|)
      ensures fresh(bits) && bits.Length == 8 && bits[..8] == Encoded(ops.countByte, LengthWords(|message|))
    {
      bits := new B[8];
      var count := new nat[2];
      count[0], count[1] := lo, hi;
      CountWords(lo, hi, |message|);
      assert count[..2] == [lo, hi];
      Encode(bits, count, 8, ops.countByte);
    }
  }

  method FinishIs(c: Context<Word, Bytes.byte>, digest: array<Bytes.byte>)
    requires c.Valid() && c.ops == MD5 && digest.Length >= 16
    requires digest as object != c.state as object && digest as object != c.buffer as object
    modifies c`lo, c`hi, c`message, c.state, c.buffer, digest
    ensures c.Valid() && c.message == Padded(MD5, old(c.message))
    ensures digest[..16] == Digest(MD5, old(c.message)) && digest[16..] == old(digest[16..])
  {
    c.Final(digest);
  }

  /** MD5Final on words and bytes: the message the digest is taken of is padded as sections 3.1 and 3.2 say. */
  method Finish(c: Context<Word, Bytes.byte>, digest: array<Bytes.byte>)
    returns (ghost z: nat, ghost t: seq<Bytes.byte>)
    requires c.Valid() && c.ops == MD5 && digest.Length >= 16
    requires digest as object != c.state as object && digest as object != c.buffer as object
    modifies c`lo, c`hi, c`message, c.state, c.buffer, digest
    ensures c.Valid() && digest[..16] == Digest(MD5, old(c.message)) && digest[16..] == old(digest[16..])
    ensures PaddedWith(c.message, old(c.message), z, t)
  {
    z, t := PaddedIs(c.message);
    FinishIs(c, digest);
  }

  /** However a message was cut into pieces: two contexts that were given the same bytes agree in their count, their
      chaining value and the live part of their buffers. */
  lemma SplitIrrelevant<W(0,!new), B(0,!new)>(c: Context<W, B>, d: Context<W, B>)
    requires c.Valid() && d.Valid() && c.ops == d.ops && c.message == d.message
    ensures c.lo == d.lo && c.hi == d.hi && c.state[..] == d.state[..]
    ensures var live := |c.message| % BLOCK; c.buffer[..live] == d.buffer[..live]
  {
    CountWords(c.lo, c.hi, |c.message|);
    CountWords(d.lo, d.hi, |d.message|);
    assert [c.lo, c.hi] == [d.lo, d.hi];
    assert c.lo == [c.lo, c.hi][0] == [d.lo, d.hi][0] && c.hi == [c.lo, c.hi][1] == [d.lo, d.hi][1];
    forall h: Regs<W>, b: seq<B> ensures c.f(h, b) == d.f(h, b) {
      assert c.f(h, b) == Compress(c.ops, h, b) == d.f(h, b);
    }
    FoldSame(c.f, d.f, c.ops.init, c.message);
    assert Chain(c.state[..]) == Chain(d.state[..]);
  }

  lemma {:induction false} FoldSame<H(!new), B(!new)>(f: Compressor<H, B>, g: Compressor<H, B>, h: H, m: seq<B>)
    requires forall h: H, b: seq<B> :: f(h, b) == g(h, b)
    ensures Fold(f, h, m) == Fold(g, h, m)
    decreases |m|
  {
    if |m| < BLOCK {
    } else {
      FoldSame(f, g, f(h, m[..BLOCK]), m[BLOCK..]);
    }
  }

  lemma DigestIs<W(!new), B(!new)>(f: Compressor<Regs<W>, B>, ops: Ops<W, B>, m: seq<B>, state: seq<W>)
    requires IsCompress(f, ops) && |state| == 4 && Chain(state) == Fold(f, ops.init, Padded(ops, m))
    ensures Encoded(ops.byteOf, state[..4]) == Digest(ops, m)
  {
    var g := (h: Regs<W>, b: seq<B>) => Compress(ops, h, b);
    forall h: Regs<W>, b: seq<B> ensures f(h, b) == g(h, b) {
      assert f(h, b) == Compress(ops, h, b);
    }
    FoldSame(f, g, ops.init, Padded(ops, m));
    assert state[..4] == [state[0], state[1], state[2], state[3]];
  }

  /** Past the last whole block of the input. */
  lemma RestOfInput<H, B>(f: Compressor<H, B>, h: H, m: seq<B>, x: seq<B>, i: nat)
    requires i <= |x| < i + BLOCK && (|m| + i) % BLOCK == 0
    ensures |m + x| % BLOCK == |x| - i && Rest(m + x) == x[i..] && Fold(f, h, m + x) == Fold(f, h, m + x[..i])
  {
    var a := m + x[..i];
    assert m + x == a + x[i..];
    ModIs(|m + x|, BLOCK, |a| / BLOCK, |x| - i);
    FoldConcat(f, h, a, x[i..]);
    FoldShort(f, Fold(f, h, a), x[i..]);
  }

  /** Not enough input for a block. */
  lemma RestAndInput<H, B>(f: Compressor<H, B>, h: H, m: seq<B>, x: seq<B>)
    requires |m| % BLOCK + |x| < BLOCK
    ensures |m + x| % BLOCK == |m| % BLOCK + |x| && Rest(m + x) == Rest(m) + x && Fold(f, h, m + x) == Fold(f, h, m)
  {
    var n := |m| - |m| % BLOCK;
    ModIs(|m + x|, BLOCK, |m| / BLOCK, |m| % BLOCK + |x|);
    FoldIgnoresRest(f, h, m);
    FoldIgnoresRest(f, h, m + x);
    assert (m + x)[..n] == m[..n];
  }

  lemma StartOf<B>(b: seq<B>, c: seq<B>, x: seq<B>, n: nat)
    requires Filled(b, c, 0, x, n)
    ensures c[..n] == x[..n]
  {
    assert c[..n] == c[0..0 + n];
  }

  lemma Appended<B>(b: seq<B>, c: seq<B>, at: nat, x: seq<B>, n: nat)
    requires Filled(b, c, at, x, n)
    ensures c[..at + n] == b[..at] + x[..n]
  {
    assert c[..at + n] == c[..at] + c[at..at + n];
  }

  lemma NextMultiple(n: nat, k: nat)
    requires n % BLOCK + k == BLOCK
    ensures (n + k) % BLOCK == 0
  {
    ModIs(n + k, BLOCK, n / BLOCK + 1, 0);
  }

  lemma NoWrap(i: nat, partlen: nat, n: nat, inputlen: nat)
    requires 1 <= partlen <= BLOCK && inputlen < WORD - 64 + partlen % 64
    requires i <= inputlen && i == partlen + 64 * n
    ensures i + 64 < WORD
  {
  }

  /** The end of the message and the first input bytes side by side in the buffer. */
  lemma Joined<B>(b: seq<B>, c: seq<B>, m: seq<B>, index: nat, input: seq<B>, n: nat)
    requires index == |m| % BLOCK && index <= |b| && b[..index] == Rest(m)
    requires Filled(b, c, index, input, n) && index + n == BLOCK == |c|
    ensures m[..|m| - index] + c[0..0 + BLOCK] == m + input[..n]
  {
    assert c[0..0 + BLOCK] == c[..index] + c[index..index + n];
    assert m == m[..|m| - index] + Rest(m);
  }
}

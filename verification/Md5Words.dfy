/** The 32-bit words of src/l0001-0/md5.c: the macros, and words as little-endian bytes. */
module Md5Words {
  import opened Bytes
  import opened Md5Rounds

  type Word = bv32

  // ----- the macros -----

  function F(x: Word, y: Word, z: Word): Word { (x & y) | (!x & z) }

  function G(x: Word, y: Word, z: Word): Word { (x & z) | (y & !z) }

  function H(x: Word, y: Word, z: Word): Word { x ^ y ^ z }

  function I(x: Word, y: Word, z: Word): Word { y ^ (x | !z) }

  function RotateLeft(x: Word, n: Shift): Word { (x << n) | (x >> (32 - n)) }

  /** F, G, H and I, by round. */
  const AUX: Aux<Word> := (round: nat, x: Word, y: Word, z: Word) =>
    if round == 0 then F(x, y, z) else if round == 1 then G(x, y, z) else if round == 2 then H(x, y, z) else I(x, y, z)

  const PLUS: Plus<Word> := (x: Word, y: Word) => x + y

  /** a += m + x + k, as the macros add, and a + m + x + k, as section 3.4 of RFC 1321 does. */
  const ADDED: Sum<Word> := (a: Word, m: Word, x: Word, k: Word) => a + (m + x + k)
  const SUM: Sum<Word> := (a: Word, m: Word, x: Word, k: Word) => a + m + x + k

  const ROTATE: Rotation<Word> := (x: Word, s: Shift) => RotateLeft(x, s)

  /** The circular shift by one bit. */
  function OneLeft(x: Word): Word { (x << 1) | (x >> 31) }

  const ONE_LEFT: Word -> Word := (x: Word) => OneLeft(x)

  const SAME: bv32 -> Word := (w: bv32) => w

  /** FF, GG, HH and II, by round. */
  const MACROS: Mix<Word> := MacroMix(AUX, ADDED, PLUS, ROTATE, SAME)

  /** The step as section 3.4 of RFC 1321 writes it. */
  const RFC_STEP: Mix<Word> := RfcMix(AUX, SUM, PLUS, ONE_LEFT, SAME)

  // What F, G, H and I do in each bit position, as section 3.4 of RFC 1321 puts it.

  /** If X then Y else Z. */
  lemma FByBit(x: Word, y: Word, z: Word)
    ensures F(x, y, z) & x == y & x && F(x, y, z) & !x == z & !x
  {
  }

  /** If Z then X else Y. */
  lemma GByBit(x: Word, y: Word, z: Word)
    ensures G(x, y, z) & z == x & z && G(x, y, z) & !z == y & !z
  {
  }

  /** The parity: with H itself, an even number of ones. */
  lemma HByBit(x: Word, y: Word, z: Word)
    ensures x ^ y ^ z ^ H(x, y, z) == 0
  {
  }

  /** Not Y where X or not Z, else Y. */
  lemma IByBit(x: Word, y: Word, z: Word)
    ensures I(x, y, z) & (x | !z) == !y & (x | !z) && I(x, y, z) & !x & z == y & !x & z
  {
  }

  /** The circular shift moves each bit to the next higher position, and the highest to the lowest. */
  lemma OneLeftBits(x: Word, m: Word)
    requires m != 0 && m & (m - 1) == 0
    ensures OneLeft(x) & (if m == 0x8000_0000 then 1 else m << 1) != 0 <==> x & m != 0
  {
  }

  // ROTATE_LEFT by one more bit is one circular shift more, up to the largest shift of the four rounds.

  lemma OneMoreUpTo6(x: Word)
    ensures RotateLeft(OneLeft(x), 1) == RotateLeft(x, 2)
    ensures RotateLeft(OneLeft(x), 2) == RotateLeft(x, 3)
    ensures RotateLeft(OneLeft(x), 3) == RotateLeft(x, 4)
    ensures RotateLeft(OneLeft(x), 4) == RotateLeft(x, 5)
    ensures RotateLeft(OneLeft(x), 5) == RotateLeft(x, 6)
  {
  }

  lemma OneMoreUpTo11(x: Word)
    ensures RotateLeft(OneLeft(x), 6) == RotateLeft(x, 7)
    ensures RotateLeft(OneLeft(x), 7) == RotateLeft(x, 8)
    ensures RotateLeft(OneLeft(x), 8) == RotateLeft(x, 9)
    ensures RotateLeft(OneLeft(x), 9) == RotateLeft(x, 10)
    ensures RotateLeft(OneLeft(x), 10) == RotateLeft(x, 11)
  {
  }

  lemma OneMoreUpTo17(x: Word)
    ensures RotateLeft(OneLeft(x), 11) == RotateLeft(x, 12)
    ensures RotateLeft(OneLeft(x), 12) == RotateLeft(x, 13)
    ensures RotateLeft(OneLeft(x), 13) == RotateLeft(x, 14)
    ensures RotateLeft(OneLeft(x), 14) == RotateLeft(x, 15)
    ensures RotateLeft(OneLeft(x), 15) == RotateLeft(x, 16)
    ensures RotateLeft(OneLeft(x), 16) == RotateLeft(x, 17)
  {
  }

  lemma OneMoreUpTo23(x: Word)
    ensures RotateLeft(OneLeft(x), 17) == RotateLeft(x, 18)
    ensures RotateLeft(OneLeft(x), 18) == RotateLeft(x, 19)
    ensures RotateLeft(OneLeft(x), 19) == RotateLeft(x, 20)
    ensures RotateLeft(OneLeft(x), 20) == RotateLeft(x, 21)
    ensures RotateLeft(OneLeft(x), 21) == RotateLeft(x, 22)
    ensures RotateLeft(OneLeft(x), 22) == RotateLeft(x, 23)
  {
  }

  lemma OneMoreInRange0(x: Word)
    ensures OneMoreOn(ROTATE, ONE_LEFT, x, 0)
  {
    OneMoreUpTo6(x);
  }

  lemma OneMoreInRange1(x: Word)
    ensures OneMoreOn(ROTATE, ONE_LEFT, x, 1)
  {
    OneMoreUpTo11(x);
  }

  lemma OneMoreInRange2(x: Word)
    ensures OneMoreOn(ROTATE, ONE_LEFT, x, 2)
  {
    OneMoreUpTo17(x);
  }

  lemma OneMoreInRange3(x: Word)
    ensures OneMoreOn(ROTATE, ONE_LEFT, x, 3)
  {
    OneMoreUpTo23(x);
  }

  lemma OneBit(x: Word)
    ensures ROTATE(x, 1) == ONE_LEFT(x)
  {
    var y, z := RotateLeft(x, 1), OneLeft(x);
  }

  lemma RotationIsCircular()
    ensures IsCircular(ROTATE, ONE_LEFT)
  {
    forall x: Word ensures ROTATE(x, 1) == ONE_LEFT(x) {
      OneBit(x);
    }
    forall x: Word ensures OneMoreOn(ROTATE, ONE_LEFT, x, 0) {
      OneMoreInRange0(x);
    }
    forall x: Word ensures OneMoreOn(ROTATE, ONE_LEFT, x, 1) {
      OneMoreInRange1(x);
    }
    forall x: Word ensures OneMoreOn(ROTATE, ONE_LEFT, x, 2) {
      OneMoreInRange2(x);
    }
    forall x: Word ensures OneMoreOn(ROTATE, ONE_LEFT, x, 3) {
      OneMoreInRange3(x);
    }
  }

  lemma SumsAgree(a: Word, m: Word, x: Word, k: Word)
    ensures ADDED(a, m, x, k) == SUM(a, m, x, k)
  {
  }

  lemma Commutes(x: Word, y: Word)
    ensures PLUS(x, y) == PLUS(y, x)
  {
  }

  lemma AdditionsAgree()
    ensures SameSums(ADDED, SUM, PLUS)
  {
    forall a: Word, m: Word, x: Word, k: Word ensures ADDED(a, m, x, k) == SUM(a, m, x, k) {
      SumsAgree(a, m, x, k);
    }
    forall x: Word, y: Word ensures PLUS(x, y) == PLUS(y, x) {
      Commutes(x, y);
    }
  }

  /** In every step of the four rounds the macro is the step of RFC 1321: b plus the circular shift, bit by bit, of the
      sum of a, the round's function, the message word and the constant. */
  lemma MacroIsStep(i: nat, a: Word, b: Word, c: Word, d: Word, x: Word)
    requires i < 64
    ensures MACROS(i / 16, a, b, c, d, x, ShiftOf(i), Sine(i)) == RFC_STEP(i / 16, a, b, c, d, x, ShiftOf(i), Sine(i))
  {
    RotationIsCircular();
    AdditionsAgree();
    SameMix(AUX, ADDED, SUM, PLUS, ROTATE, ONE_LEFT, SAME, i, a, b, c, d, x);
  }

  /** So the macros, run through the four rounds, compute what the steps of RFC 1321 do. */
  lemma MacrosAreRfc(x: seq<Word>, n: nat, r: Regs<Word>)
    requires |x| >= 16 && n <= 64
    ensures Steps(MACROS, x, n, r) == Steps(RFC_STEP, x, n, r)
  {
    RotationIsCircular();
    AdditionsAgree();
    SameSteps(AUX, ADDED, SUM, PLUS, ROTATE, ONE_LEFT, SAME, x, n, r);
  }

  // ----- words and bytes -----

  function ByteOf(w: Word, k: nat): byte {
    if k == 0 then (w & 0xFF) as byte
    else if k == 1 then ((w >> 8) & 0xFF) as byte
    else if k == 2 then ((w >> 16) & 0xFF) as byte
    else ((w >> 24) & 0xFF) as byte
  }

  function WordOf(b0: byte, b1: byte, b2: byte, b3: byte): Word {
    (b0 as Word) | (b1 as Word << 8) | (b2 as Word << 16) | (b3 as Word << 24)
  }

  lemma WordRoundTrip(w: Word)
    ensures WordOf(ByteOf(w, 0), ByteOf(w, 1), ByteOf(w, 2), ByteOf(w, 3)) == w
  {
  }

  lemma ByteRoundTrip(b0: byte, b1: byte, b2: byte, b3: byte)
    ensures var w := WordOf(b0, b1, b2, b3);
            ByteOf(w, 0) == b0 && ByteOf(w, 1) == b1 && ByteOf(w, 2) == b2 && ByteOf(w, 3) == b3
  {
  }

  // ----- MD5Encode and MD5Decode -----

  type ToByte<!W, !B> = (W, nat) -> B

  type ToWord<!W, !B> = (B, B, B, B) -> W

  function Encoded<W, B>(byteOf: ToByte<W, B>, ws: seq<W>): (bs: seq<B>)
    ensures |bs| == 4 * |ws|
  {
    seq(4 * |ws|, j requires 0 <= j < 4 * |ws| => byteOf(ws[j / 4], j % 4))
  }

  function Decoded<W, B>(wordOf: ToWord<W, B>, bs: seq<B>): (ws: seq<W>)
    requires |bs| % 4 == 0
    ensures |ws| == |bs| / 4
  {
    seq(|bs| / 4, i requires 0 <= i < |bs| / 4 => wordOf(bs[4 * i], bs[4 * i + 1], bs[4 * i + 2], bs[4 * i + 3]))
  }

  /** The first n words of ws stand encoded at the start of bs. */
  ghost predicate EncodedSoFar<W, B>(byteOf: ToByte<W, B>, ws: seq<W>, bs: seq<B>, n: nat)
    requires n <= |ws| && 4 * n <= |bs|
  {
    forall p {:trigger ws[p]} :: 0 <= p < n ==>
      bs[4 * p] == byteOf(ws[p], 0) && bs[4 * p + 1] == byteOf(ws[p], 1) &&
      bs[4 * p + 2] == byteOf(ws[p], 2) && bs[4 * p + 3] == byteOf(ws[p], 3)
  }

  lemma AllEncoded<W, B>(byteOf: ToByte<W, B>, ws: seq<W>, bs: seq<B>, n: nat)
    requires n == 4 * |ws| <= |bs| && EncodedSoFar(byteOf, ws, bs, |ws|)
    ensures bs[..n] == Encoded(byteOf, ws)
  {
    forall k | 0 <= k < n ensures bs[k] == byteOf(ws[k / 4], k % 4) {
      var w := ws[k / 4];
      assert k == 4 * (k / 4) + k % 4;
    }
  }

  method Encode<W, B>(output: array<B>, input: array<W>, len: nat, byteOf: ToByte<W, B>)
    requires output as object != input as object
    requires len % 4 == 0 && len <= output.Length && len / 4 <= input.Length
    modifies output
    ensures output[..len] == Encoded(byteOf, input[..len / 4])
    ensures output[len..] == old(output[len..])
  {
    ghost var ws := input[..len / 4];
    var i, j := 0, 0;
    while j < len
      invariant j == 4 * i && j <= len && i <= len / 4
      invariant EncodedSoFar(byteOf, ws, output[..], i)
      invariant forall k :: len <= k < output.Length ==> output[k] == old(output[k])
    {
      ghost var before := output[..];
      PutWord(output, j, input[i], byteOf);
      OneMore(byteOf, ws, before, output[..], i);
      i := i + 1;
      j := j + 4;
    }
    AllEncoded(byteOf, ws, output[..], len);
  }

  method PutWord<W, B>(output: array<B>, j: nat, w: W, byteOf: ToByte<W, B>)
    requires j + 4 <= output.Length
    modifies output
    ensures output[j] == byteOf(w, 0) && output[j + 1] == byteOf(w, 1)
    ensures output[j + 2] == byteOf(w, 2) && output[j + 3] == byteOf(w, 3)
    ensures forall k :: 0 <= k < output.Length && !(j <= k < j + 4) ==> output[k] == old(output[k])
  {
    output[j] := byteOf(w, 0);
    output[j + 1] := byteOf(w, 1);
    output[j + 2] := byteOf(w, 2);
    output[j + 3] := byteOf(w, 3);
  }

  lemma OneMore<W, B>(byteOf: ToByte<W, B>, ws: seq<W>, bs: seq<B>, cs: seq<B>, n: nat)
    requires n < |ws| && 4 * n + 4 <= |bs| == |cs| && EncodedSoFar(byteOf, ws, bs, n)
    requires cs[4 * n] == byteOf(ws[n], 0) && cs[4 * n + 1] == byteOf(ws[n], 1)
    requires cs[4 * n + 2] == byteOf(ws[n], 2) && cs[4 * n + 3] == byteOf(ws[n], 3)
    requires forall k :: 0 <= k < |bs| && !(4 * n <= k < 4 * n + 4) ==> cs[k] == bs[k]
    ensures EncodedSoFar(byteOf, ws, cs, n + 1)
  {
  }

  method Decode<W, B>(output: array<W>, input: array<B>, off: nat, len: nat, wordOf: ToWord<W, B>)
    requires output as object != input as object
    requires len % 4 == 0 && off + len <= input.Length && len / 4 <= output.Length
    modifies output
    ensures output[..len / 4] == Decoded(wordOf, input[off..off + len])
    ensures output[len / 4..] == old(output[len / 4..])
  {
    ghost var bs := input[off..off + len];
    var i, j := 0, 0;
    while j < len
      invariant j == 4 * i && j <= len && i <= len / 4
      invariant forall k :: 0 <= k < i ==> output[k] == Decoded(wordOf, bs)[k]
      invariant forall k :: len / 4 <= k < output.Length ==> output[k] == old(output[k])
    {
      output[i] := wordOf(input[off + j], input[off + j + 1], input[off + j + 2], input[off + j + 3]);
      i := i + 1;
      j := j + 4;
    }
  }

  lemma EncodedAt<W, B>(byteOf: ToByte<W, B>, ws: seq<W>, i: nat)
    requires i < |ws|
    ensures var bs := Encoded(byteOf, ws);
            && bs[4 * i] == byteOf(ws[i], 0) && bs[4 * i + 1] == byteOf(ws[i], 1)
            && bs[4 * i + 2] == byteOf(ws[i], 2) && bs[4 * i + 3] == byteOf(ws[i], 3)
  {
  }

  /** Where taking bytes and putting them together are inverse for one word, MD5Decode undoes MD5Encode ... */
  lemma DecodeEncode<W(!new), B>(byteOf: ToByte<W, B>, wordOf: ToWord<W, B>, ws: seq<W>)
    requires forall w: W {:trigger byteOf(w, 0)} ::
      wordOf(byteOf(w, 0), byteOf(w, 1), byteOf(w, 2), byteOf(w, 3)) == w
    ensures Decoded(wordOf, Encoded(byteOf, ws)) == ws
  {
    forall i | 0 <= i < |ws| ensures Decoded(wordOf, Encoded(byteOf, ws))[i] == ws[i] {
      EncodedAt(byteOf, ws, i);
    }
  }

  /** ... and MD5Encode undoes MD5Decode. */
  lemma EncodeDecode<W, B(!new)>(byteOf: ToByte<W, B>, wordOf: ToWord<W, B>, bs: seq<B>)
    requires forall b0: B, b1: B, b2: B, b3: B {:trigger wordOf(b0, b1, b2, b3)} ::
      var w := wordOf(b0, b1, b2, b3);
      byteOf(w, 0) == b0 && byteOf(w, 1) == b1 && byteOf(w, 2) == b2 && byteOf(w, 3) == b3
    requires |bs| % 4 == 0
    ensures Encoded(byteOf, Decoded(wordOf, bs)) == bs
  {
    var ws := Decoded(wordOf, bs);
    forall k | 0 <= k < |bs| ensures byteOf(ws[k / 4], k % 4) == bs[k] {
      var i := k / 4;
      assert ws[i] == wordOf(bs[4 * i], bs[4 * i + 1], bs[4 * i + 2], bs[4 * i + 3]);
      assert k == 4 * i + k % 4;
    }
  }

  /** The words of MD5 survive both ways. */
  lemma WordsSurvive(ws: seq<Word>, bs: seq<byte>)
    requires |bs| % 4 == 0
    ensures Decoded(WordOf, Encoded(ByteOf, ws)) == ws
    ensures Encoded(ByteOf, Decoded(WordOf, bs)) == bs
  {
    forall w: Word ensures WordOf(ByteOf(w, 0), ByteOf(w, 1), ByteOf(w, 2), ByteOf(w, 3)) == w {
      WordRoundTrip(w);
    }
    forall b0: byte, b1: byte, b2: byte, b3: byte
      ensures var w := WordOf(b0, b1, b2, b3);
              ByteOf(w, 0) == b0 && ByteOf(w, 1) == b1 && ByteOf(w, 2) == b2 && ByteOf(w, 3) == b3
    {
      ByteRoundTrip(b0, b1, b2, b3);
    }
    DecodeEncode(ByteOf, WordOf, ws);
    EncodeDecode(ByteOf, WordOf, bs);
  }
}

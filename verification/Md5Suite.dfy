/**
 The twenty-six letters of the test suite in section A.5 of RFC 1321: the digest is the one printed there.  Every
 constant, every shift and every message index of the four rounds takes part in it.
 */
module Md5Suite {
  import Bytes
  import opened Md5Rounds
  import opened Md5Stream
  import opened Md5Words
  import opened Md5

  /** The letters from a to z. */
  const LETTERS: seq<Bytes.byte> := [
    0x61, 0x62, 0x63, 0x64, 0x65, 0x66, 0x67, 0x68, 0x69, 0x6A, 0x6B, 0x6C, 0x6D,
    0x6E, 0x6F, 0x70, 0x71, 0x72, 0x73, 0x74, 0x75, 0x76, 0x77, 0x78, 0x79, 0x7A]

  /** The one block they make, as words. */
  const WORDS: seq<Word> := [
    0x64636261, 0x68676665, 0x6c6b6a69, 0x706f6e6d,
    0x74737271, 0x78777675, 0x00807a79, 0x00000000,
    0x00000000, 0x00000000, 0x00000000, 0x00000000,
    0x00000000, 0x00000000, 0x000000d0, 0x00000000]

  // ----- a macro call on numerals -----

  function AuxOf(round: nat, x: Word, y: Word, z: Word): Word {
    if round == 0 then F(x, y, z) else if round == 1 then G(x, y, z) else if round == 2 then H(x, y, z) else I(x, y, z)
  }

  function Call(round: nat, a: Word, b: Word, c: Word, d: Word, x: Word, s: Shift, k: bv32): Word {
    PLUS(ROTATE(ADDED(a, AuxOf(round, b, c, d), x, k), s), b)
  }

  lemma MacroMixIs<W>(f: Aux<W>, added: Sum<W>, plus: Plus<W>, rotate: Rotation<W>, lift: bv32 -> W,
                      round: nat, a: W, b: W, c: W, d: W, x: W, s: Shift, k: bv32)
    ensures MacroMix(f, added, plus, rotate, lift)(round, a, b, c, d, x, s, k)
         == plus(rotate(added(a, f(round, b, c, d), x, lift(k)), s), b)
  {
  }

  lemma AuxIs(round: nat, x: Word, y: Word, z: Word)
    ensures AUX(round, x, y, z) == AuxOf(round, x, y, z)
  {
  }

  lemma SameIs(k: bv32)
    ensures SAME(k) == k
  {
  }

  lemma CallIs(round: nat, a: Word, b: Word, c: Word, d: Word, x: Word, s: Shift, k: bv32)
    ensures MACROS(round, a, b, c, d, x, s, k) == Call(round, a, b, c, d, x, s, k)
  {
    MacroMixIs(AUX, ADDED, PLUS, ROTATE, SAME, round, a, b, c, d, x, s, k);
    AuxIs(round, b, c, d);
    SameIs(k);
  }

  /** mix is the macros, for proofs that need not look inside them. */
  ghost predicate IsMacros(mix: Mix<Word>) {
    forall round: nat, a, b, c, d, x, s, k {:trigger Call(round, a, b, c, d, x, s, k)} ::
      mix(round, a, b, c, d, x, s, k) == Call(round, a, b, c, d, x, s, k)
  }

  lemma MacrosAre()
    ensures IsMacros(MACROS)
  {
    forall round: nat, a, b, c, d, x, s, k
      ensures MACROS(round, a, b, c, d, x, s, k) == Call(round, a, b, c, d, x, s, k)
    {
      CallIs(round, a, b, c, d, x, s, k);
    }
  }

  /** What step n takes: the message word, the shift and the constant. */
  predicate Takes(n: nat, i: nat, x: Word, s: Shift, k: bv32) {
    i < 16 && Index(n) == i && WORDS[i] == x && ShiftOf(n) == s && Sine(n) == k
  }

  lemma CallAt(mix: Mix<Word>, n: nat, round: nat, a: Word, b: Word, c: Word, d: Word, i: nat, x: Word, s: Shift,
               k: bv32)
    requires IsMacros(mix) && Takes(n, i, x, s, k) && round == n / 16
    ensures mix(n / 16, a, b, c, d, WORDS[Index(n)], ShiftOf(n), Sine(n)) == Call(round, a, b, c, d, x, s, k)
  {
    assert mix(round, a, b, c, d, x, s, k) == Call(round, a, b, c, d, x, s, k);
  }

  // ----- the registers after every fourth step -----

  const R0: Regs<Word> := Regs(0x67452301, 0xefcdab89, 0x98badcfe, 0x10325476)
  const R4: Regs<Word> := Regs(0xd6d117a6, 0x4503b812, 0x227d8cf1, 0xaab1aaaa)
  const R8: Regs<Word> := Regs(0xfe15f787, 0xda9bbb0d, 0xb71122fc, 0xa811b278)
  const R12: Regs<Word> := Regs(0xae752899, 0x56cfa5cb, 0x7d4bd80b, 0x2bbe757f)
  const R16: Regs<Word> := Regs(0x1754a316, 0x608d6b7e, 0x00df74d5, 0x85567d90)
  const R20: Regs<Word> := Regs(0x2d8071cc, 0x4c2145b3, 0xedfe7e4b, 0x5dcee119)
  const R24: Regs<Word> := Regs(0x570c43e0, 0xc9f162d4, 0xc28ab49d, 0x977efd2a)
  const R28: Regs<Word> := Regs(0x25bfae3b, 0xe6d3b398, 0xf8c8365f, 0x89980104)
  const R32: Regs<Word> := Regs(0xf54d8710, 0xaeb35766, 0x2e69afc7, 0x927b72e2)
  const R36: Regs<Word> := Regs(0xb4bf680e, 0x06a5e211, 0x2361ed0a, 0x4c8ffa80)
  const R40: Regs<Word> := Regs(0xb9c0c733, 0x8d41bf99, 0x23a9451b, 0xf1e6dc7a)
  const R44: Regs<Word> := Regs(0xa3e88ead, 0x90a35af5, 0x66f6468d, 0x02c0b11c)
  const R48: Regs<Word> := Regs(0xb5d41f9c, 0x71d10367, 0x703d54d8, 0xa04b4904)
  const R52: Regs<Word> := Regs(0xfc32dd6e, 0x33edb197, 0xb35602cb, 0x65456b34)
  const R56: Regs<Word> := Regs(0xc1e942f1, 0x83877d1b, 0x23a68048, 0xd9bb987c)
  const R60: Regs<Word> := Regs(0x0077c208, 0x5e6bc930, 0xa3e2247f, 0x847fc2e7)
  const R64: Regs<Word> := Regs(0x708ed9c2, 0x1116e6d8, 0xd38f1e7f, 0x2baf1354)

  lemma Takes1()
    ensures Takes(0, 0, 0x64636261, 7, 0xd76aa478)
    ensures Takes(1, 1, 0x68676665, 12, 0xe8c7b756)
    ensures Takes(2, 2, 0x6c6b6a69, 17, 0x242070db)
    ensures Takes(3, 3, 0x706f6e6d, 22, 0xc1bdceee)
  {
  }

  lemma Steps1(mix: Mix<Word>)
    requires IsMacros(mix)
    ensures Quad(mix, WORDS, 0, R0, R4)
  {
    Takes1();
    CallAt(mix, 0, 0, 0x67452301, 0xefcdab89, 0x98badcfe, 0x10325476, 0, 0x64636261, 7, 0xd76aa478);
    CallAt(mix, 1, 0, 0x10325476, 0xd6d117a6, 0xefcdab89, 0x98badcfe, 1, 0x68676665, 12, 0xe8c7b756);
    CallAt(mix, 2, 0, 0x98badcfe, 0xaab1aaaa, 0xd6d117a6, 0xefcdab89, 2, 0x6c6b6a69, 17, 0x242070db);
    CallAt(mix, 3, 0, 0xefcdab89, 0x227d8cf1, 0xaab1aaaa, 0xd6d117a6, 3, 0x706f6e6d, 22, 0xc1bdceee);
  }

  lemma Takes5()
    ensures Takes(4, 4, 0x74737271, 7, 0xf57c0faf)
    ensures Takes(5, 5, 0x78777675, 12, 0x4787c62a)
    ensures Takes(6, 6, 0x00807a79, 17, 0xa8304613)
    ensures Takes(7, 7, 0x00000000, 22, 0xfd469501)
  {
  }

  lemma Steps5(mix: Mix<Word>)
    requires IsMacros(mix)
    ensures Quad(mix, WORDS, 4, R4, R8)
  {
    Takes5();
    CallAt(mix, 4, 0, 0xd6d117a6, 0x4503b812, 0x227d8cf1, 0xaab1aaaa, 4, 0x74737271, 7, 0xf57c0faf);
    CallAt(mix, 5, 0, 0xaab1aaaa, 0xfe15f787, 0x4503b812, 0x227d8cf1, 5, 0x78777675, 12, 0x4787c62a);
    CallAt(mix, 6, 0, 0x227d8cf1, 0xa811b278, 0xfe15f787, 0x4503b812, 6, 0x00807a79, 17, 0xa8304613);
    CallAt(mix, 7, 0, 0x4503b812, 0xb71122fc, 0xa811b278, 0xfe15f787, 7, 0x00000000, 22, 0xfd469501);
  }

  lemma Takes9()
    ensures Takes(8, 8, 0x00000000, 7, 0x698098d8)
    ensures Takes(9, 9, 0x00000000, 12, 0x8b44f7af)
    ensures Takes(10, 10, 0x00000000, 17, 0xffff5bb1)
    ensures Takes(11, 11, 0x00000000, 22, 0x895cd7be)
  {
  }

  lemma Steps9(mix: Mix<Word>)
    requires IsMacros(mix)
    ensures Quad(mix, WORDS, 8, R8, R12)
  {
    Takes9();
    CallAt(mix, 8, 0, 0xfe15f787, 0xda9bbb0d, 0xb71122fc, 0xa811b278, 8, 0x00000000, 7, 0x698098d8);
    CallAt(mix, 9, 0, 0xa811b278, 0xae752899, 0xda9bbb0d, 0xb71122fc, 9, 0x00000000, 12, 0x8b44f7af);
    CallAt(mix, 10, 0, 0xb71122fc, 0x2bbe757f, 0xae752899, 0xda9bbb0d, 10, 0x00000000, 17, 0xffff5bb1);
    CallAt(mix, 11, 0, 0xda9bbb0d, 0x7d4bd80b, 0x2bbe757f, 0xae752899, 11, 0x00000000, 22, 0x895cd7be);
  }

  lemma Takes13()
    ensures Takes(12, 12, 0x00000000, 7, 0x6b901122)
    ensures Takes(13, 13, 0x00000000, 12, 0xfd987193)
    ensures Takes(14, 14, 0x000000d0, 17, 0xa679438e)
    ensures Takes(15, 15, 0x00000000, 22, 0x49b40821)
  {
  }

  lemma Steps13(mix: Mix<Word>)
    requires IsMacros(mix)
    ensures Quad(mix, WORDS, 12, R12, R16)
  {
    Takes13();
    CallAt(mix, 12, 0, 0xae752899, 0x56cfa5cb, 0x7d4bd80b, 0x2bbe757f, 12, 0x00000000, 7, 0x6b901122);
    CallAt(mix, 13, 0, 0x2bbe757f, 0x1754a316, 0x56cfa5cb, 0x7d4bd80b, 13, 0x00000000, 12, 0xfd987193);
    CallAt(mix, 14, 0, 0x7d4bd80b, 0x85567d90, 0x1754a316, 0x56cfa5cb, 14, 0x000000d0, 17, 0xa679438e);
    CallAt(mix, 15, 0, 0x56cfa5cb, 0x00df74d5, 0x85567d90, 0x1754a316, 15, 0x00000000, 22, 0x49b40821);
  }

  lemma Takes17()
    ensures Takes(16, 1, 0x68676665, 5, 0xf61e2562)
    ensures Takes(17, 6, 0x00807a79, 9, 0xc040b340)
    ensures Takes(18, 11, 0x00000000, 14, 0x265e5a51)
    ensures Takes(19, 0, 0x64636261, 20, 0xe9b6c7aa)
  {
  }

  lemma Steps17(mix: Mix<Word>)
    requires IsMacros(mix)
    ensures Quad(mix, WORDS, 16, R16, R20)
  {
    Takes17();
    CallAt(mix, 16, 1, 0x1754a316, 0x608d6b7e, 0x00df74d5, 0x85567d90, 1, 0x68676665, 5, 0xf61e2562);
    CallAt(mix, 17, 1, 0x85567d90, 0x2d8071cc, 0x608d6b7e, 0x00df74d5, 6, 0x00807a79, 9, 0xc040b340);
    CallAt(mix, 18, 1, 0x00df74d5, 0x5dcee119, 0x2d8071cc, 0x608d6b7e, 11, 0x00000000, 14, 0x265e5a51);
    CallAt(mix, 19, 1, 0x608d6b7e, 0xedfe7e4b, 0x5dcee119, 0x2d8071cc, 0, 0x64636261, 20, 0xe9b6c7aa);
  }

  lemma Takes21()
    ensures Takes(20, 5, 0x78777675, 5, 0xd62f105d)
    ensures Takes(21, 10, 0x00000000, 9, 0x02441453)
    ensures Takes(22, 15, 0x00000000, 14, 0xd8a1e681)
    ensures Takes(23, 4, 0x74737271, 20, 0xe7d3fbc8)
  {
  }

  lemma Steps21(mix: Mix<Word>)
    requires IsMacros(mix)
    ensures Quad(mix, WORDS, 20, R20, R24)
  {
    Takes21();
    CallAt(mix, 20, 1, 0x2d8071cc, 0x4c2145b3, 0xedfe7e4b, 0x5dcee119, 5, 0x78777675, 5, 0xd62f105d);
    CallAt(mix, 21, 1, 0x5dcee119, 0x570c43e0, 0x4c2145b3, 0xedfe7e4b, 10, 0x00000000, 9, 0x02441453);
    CallAt(mix, 22, 1, 0xedfe7e4b, 0x977efd2a, 0x570c43e0, 0x4c2145b3, 15, 0x00000000, 14, 0xd8a1e681);
    CallAt(mix, 23, 1, 0x4c2145b3, 0xc28ab49d, 0x977efd2a, 0x570c43e0, 4, 0x74737271, 20, 0xe7d3fbc8);
  }

  lemma Takes25()
    ensures Takes(24, 9, 0x00000000, 5, 0x21e1cde6)
    ensures Takes(25, 14, 0x000000d0, 9, 0xc33707d6)
    ensures Takes(26, 3, 0x706f6e6d, 14, 0xf4d50d87)
    ensures Takes(27, 8, 0x00000000, 20, 0x455a14ed)
  {
  }

  lemma Steps25(mix: Mix<Word>)
    requires IsMacros(mix)
    ensures Quad(mix, WORDS, 24, R24, R28)
  {
    Takes25();
    CallAt(mix, 24, 1, 0x570c43e0, 0xc9f162d4, 0xc28ab49d, 0x977efd2a, 9, 0x00000000, 5, 0x21e1cde6);
    CallAt(mix, 25, 1, 0x977efd2a, 0x25bfae3b, 0xc9f162d4, 0xc28ab49d, 14, 0x000000d0, 9, 0xc33707d6);
    CallAt(mix, 26, 1, 0xc28ab49d, 0x89980104, 0x25bfae3b, 0xc9f162d4, 3, 0x706f6e6d, 14, 0xf4d50d87);
    CallAt(mix, 27, 1, 0xc9f162d4, 0xf8c8365f, 0x89980104, 0x25bfae3b, 8, 0x00000000, 20, 0x455a14ed);
  }

  lemma Takes29()
    ensures Takes(28, 13, 0x00000000, 5, 0xa9e3e905)
    ensures Takes(29, 2, 0x6c6b6a69, 9, 0xfcefa3f8)
    ensures Takes(30, 7, 0x00000000, 14, 0x676f02d9)
    ensures Takes(31, 12, 0x00000000, 20, 0x8d2a4c8a)
  {
  }

  lemma Steps29(mix: Mix<Word>)
    requires IsMacros(mix)
    ensures Quad(mix, WORDS, 28, R28, R32)
  {
    Takes29();
    CallAt(mix, 28, 1, 0x25bfae3b, 0xe6d3b398, 0xf8c8365f, 0x89980104, 13, 0x00000000, 5, 0xa9e3e905);
    CallAt(mix, 29, 1, 0x89980104, 0xf54d8710, 0xe6d3b398, 0xf8c8365f, 2, 0x6c6b6a69, 9, 0xfcefa3f8);
    CallAt(mix, 30, 1, 0xf8c8365f, 0x927b72e2, 0xf54d8710, 0xe6d3b398, 7, 0x00000000, 14, 0x676f02d9);
    CallAt(mix, 31, 1, 0xe6d3b398, 0x2e69afc7, 0x927b72e2, 0xf54d8710, 12, 0x00000000, 20, 0x8d2a4c8a);
  }

  lemma Takes33()
    ensures Takes(32, 5, 0x78777675, 4, 0xfffa3942)
    ensures Takes(33, 8, 0x00000000, 11, 0x8771f681)
    ensures Takes(34, 11, 0x00000000, 16, 0x6d9d6122)
    ensures Takes(35, 14, 0x000000d0, 23, 0xfde5380c)
  {
  }

  lemma Steps33(mix: Mix<Word>)
    requires IsMacros(mix)
    ensures Quad(mix, WORDS, 32, R32, R36)
  {
    Takes33();
    CallAt(mix, 32, 2, 0xf54d8710, 0xaeb35766, 0x2e69afc7, 0x927b72e2, 5, 0x78777675, 4, 0xfffa3942);
    CallAt(mix, 33, 2, 0x927b72e2, 0xb4bf680e, 0xaeb35766, 0x2e69afc7, 8, 0x00000000, 11, 0x8771f681);
    CallAt(mix, 34, 2, 0x2e69afc7, 0x4c8ffa80, 0xb4bf680e, 0xaeb35766, 11, 0x00000000, 16, 0x6d9d6122);
    CallAt(mix, 35, 2, 0xaeb35766, 0x2361ed0a, 0x4c8ffa80, 0xb4bf680e, 14, 0x000000d0, 23, 0xfde5380c);
  }

  lemma Takes37()
    ensures Takes(36, 1, 0x68676665, 4, 0xa4beea44)
    ensures Takes(37, 4, 0x74737271, 11, 0x4bdecfa9)
    ensures Takes(38, 7, 0x00000000, 16, 0xf6bb4b60)
    ensures Takes(39, 10, 0x00000000, 23, 0xbebfbc70)
  {
  }

  lemma Steps37(mix: Mix<Word>)
    requires IsMacros(mix)
    ensures Quad(mix, WORDS, 36, R36, R40)
  {
    Takes37();
    CallAt(mix, 36, 2, 0xb4bf680e, 0x06a5e211, 0x2361ed0a, 0x4c8ffa80, 1, 0x68676665, 4, 0xa4beea44);
    CallAt(mix, 37, 2, 0x4c8ffa80, 0xb9c0c733, 0x06a5e211, 0x2361ed0a, 4, 0x74737271, 11, 0x4bdecfa9);
    CallAt(mix, 38, 2, 0x2361ed0a, 0xf1e6dc7a, 0xb9c0c733, 0x06a5e211, 7, 0x00000000, 16, 0xf6bb4b60);
    CallAt(mix, 39, 2, 0x06a5e211, 0x23a9451b, 0xf1e6dc7a, 0xb9c0c733, 10, 0x00000000, 23, 0xbebfbc70);
  }

  lemma Takes41()
    ensures Takes(40, 13, 0x00000000, 4, 0x289b7ec6)
    ensures Takes(41, 0, 0x64636261, 11, 0xeaa127fa)
    ensures Takes(42, 3, 0x706f6e6d, 16, 0xd4ef3085)
    ensures Takes(43, 6, 0x00807a79, 23, 0x04881d05)
  {
  }

  lemma Steps41(mix: Mix<Word>)
    requires IsMacros(mix)
    ensures Quad(mix, WORDS, 40, R40, R44)
  {
    Takes41();
    CallAt(mix, 40, 2, 0xb9c0c733, 0x8d41bf99, 0x23a9451b, 0xf1e6dc7a, 13, 0x00000000, 4, 0x289b7ec6);
    CallAt(mix, 41, 2, 0xf1e6dc7a, 0xa3e88ead, 0x8d41bf99, 0x23a9451b, 0, 0x64636261, 11, 0xeaa127fa);
    CallAt(mix, 42, 2, 0x23a9451b, 0x02c0b11c, 0xa3e88ead, 0x8d41bf99, 3, 0x706f6e6d, 16, 0xd4ef3085);
    CallAt(mix, 43, 2, 0x8d41bf99, 0x66f6468d, 0x02c0b11c, 0xa3e88ead, 6, 0x00807a79, 23, 0x04881d05);
  }

  lemma Takes45()
    ensures Takes(44, 9, 0x00000000, 4, 0xd9d4d039)
    ensures Takes(45, 12, 0x00000000, 11, 0xe6db99e5)
    ensures Takes(46, 15, 0x00000000, 16, 0x1fa27cf8)
    ensures Takes(47, 2, 0x6c6b6a69, 23, 0xc4ac5665)
  {
  }

  lemma Steps45(mix: Mix<Word>)
    requires IsMacros(mix)
    ensures Quad(mix, WORDS, 44, R44, R48)
  {
    Takes45();
    CallAt(mix, 44, 2, 0xa3e88ead, 0x90a35af5, 0x66f6468d, 0x02c0b11c, 9, 0x00000000, 4, 0xd9d4d039);
    CallAt(mix, 45, 2, 0x02c0b11c, 0xb5d41f9c, 0x90a35af5, 0x66f6468d, 12, 0x00000000, 11, 0xe6db99e5);
    CallAt(mix, 46, 2, 0x66f6468d, 0xa04b4904, 0xb5d41f9c, 0x90a35af5, 15, 0x00000000, 16, 0x1fa27cf8);
    CallAt(mix, 47, 2, 0x90a35af5, 0x703d54d8, 0xa04b4904, 0xb5d41f9c, 2, 0x6c6b6a69, 23, 0xc4ac5665);
  }

  lemma Takes49()
    ensures Takes(48, 0, 0x64636261, 6, 0xf4292244)
    ensures Takes(49, 7, 0x00000000, 10, 0x432aff97)
    ensures Takes(50, 14, 0x000000d0, 15, 0xab9423a7)
    ensures Takes(51, 5, 0x78777675, 21, 0xfc93a039)
  {
  }

  lemma Steps49(mix: Mix<Word>)
    requires IsMacros(mix)
    ensures Quad(mix, WORDS, 48, R48, R52)
  {
    Takes49();
    CallAt(mix, 48, 3, 0xb5d41f9c, 0x71d10367, 0x703d54d8, 0xa04b4904, 0, 0x64636261, 6, 0xf4292244);
    CallAt(mix, 49, 3, 0xa04b4904, 0xfc32dd6e, 0x71d10367, 0x703d54d8, 7, 0x00000000, 10, 0x432aff97);
    CallAt(mix, 50, 3, 0x703d54d8, 0x65456b34, 0xfc32dd6e, 0x71d10367, 14, 0x000000d0, 15, 0xab9423a7);
    CallAt(mix, 51, 3, 0x71d10367, 0xb35602cb, 0x65456b34, 0xfc32dd6e, 5, 0x78777675, 21, 0xfc93a039);
  }

  lemma Takes53()
    ensures Takes(52, 12, 0x00000000, 6, 0x655b59c3)
    ensures Takes(53, 3, 0x706f6e6d, 10, 0x8f0ccc92)
    ensures Takes(54, 10, 0x00000000, 15, 0xffeff47d)
    ensures Takes(55, 1, 0x68676665, 21, 0x85845dd1)
  {
  }

  lemma Steps53(mix: Mix<Word>)
    requires IsMacros(mix)
    ensures Quad(mix, WORDS, 52, R52, R56)
  {
    Takes53();
    CallAt(mix, 52, 3, 0xfc32dd6e, 0x33edb197, 0xb35602cb, 0x65456b34, 12, 0x00000000, 6, 0x655b59c3);
    CallAt(mix, 53, 3, 0x65456b34, 0xc1e942f1, 0x33edb197, 0xb35602cb, 3, 0x706f6e6d, 10, 0x8f0ccc92);
    CallAt(mix, 54, 3, 0xb35602cb, 0xd9bb987c, 0xc1e942f1, 0x33edb197, 10, 0x00000000, 15, 0xffeff47d);
    CallAt(mix, 55, 3, 0x33edb197, 0x23a68048, 0xd9bb987c, 0xc1e942f1, 1, 0x68676665, 21, 0x85845dd1);
  }

  lemma Takes57()
    ensures Takes(56, 8, 0x00000000, 6, 0x6fa87e4f)
    ensures Takes(57, 15, 0x00000000, 10, 0xfe2ce6e0)
    ensures Takes(58, 6, 0x00807a79, 15, 0xa3014314)
    ensures Takes(59, 13, 0x00000000, 21, 0x4e0811a1)
  {
  }

  lemma Steps57(mix: Mix<Word>)
    requires IsMacros(mix)
    ensures Quad(mix, WORDS, 56, R56, R60)
  {
    Takes57();
    CallAt(mix, 56, 3, 0xc1e942f1, 0x83877d1b, 0x23a68048, 0xd9bb987c, 8, 0x00000000, 6, 0x6fa87e4f);
    CallAt(mix, 57, 3, 0xd9bb987c, 0x0077c208, 0x83877d1b, 0x23a68048, 15, 0x00000000, 10, 0xfe2ce6e0);
    CallAt(mix, 58, 3, 0x23a68048, 0x847fc2e7, 0x0077c208, 0x83877d1b, 6, 0x00807a79, 15, 0xa3014314);
    CallAt(mix, 59, 3, 0x83877d1b, 0xa3e2247f, 0x847fc2e7, 0x0077c208, 13, 0x00000000, 21, 0x4e0811a1);
  }

  lemma Takes61()
    ensures Takes(60, 4, 0x74737271, 6, 0xf7537e82)
    ensures Takes(61, 11, 0x00000000, 10, 0xbd3af235)
    ensures Takes(62, 2, 0x6c6b6a69, 15, 0x2ad7d2bb)
    ensures Takes(63, 9, 0x00000000, 21, 0xeb86d391)
  {
  }

  lemma Steps61(mix: Mix<Word>)
    requires IsMacros(mix)
    ensures Quad(mix, WORDS, 60, R60, R64)
  {
    Takes61();
    CallAt(mix, 60, 3, 0x0077c208, 0x5e6bc930, 0xa3e2247f, 0x847fc2e7, 4, 0x74737271, 6, 0xf7537e82);
    CallAt(mix, 61, 3, 0x847fc2e7, 0x708ed9c2, 0x5e6bc930, 0xa3e2247f, 11, 0x00000000, 10, 0xbd3af235);
    CallAt(mix, 62, 3, 0xa3e2247f, 0x2baf1354, 0x708ed9c2, 0x5e6bc930, 2, 0x6c6b6a69, 15, 0x2ad7d2bb);
    CallAt(mix, 63, 3, 0x5e6bc930, 0xd38f1e7f, 0x2baf1354, 0x708ed9c2, 9, 0x00000000, 21, 0xeb86d391);
  }

  // ----- the digest -----

  lemma SixteenSteps<W>(mix: Mix<W>, x: seq<W>, steps: nat -> Regs<W>, n: nat, r: Regs<W>, s: Regs<W>, t: Regs<W>,
                        u: Regs<W>, q: Regs<W>)
    requires |x| >= 16 && IsSteps(mix, x, steps) && steps(n) == r
    requires Quad(mix, x, n, r, s) && Quad(mix, x, n + 4, s, t)
    requires Quad(mix, x, n + 8, t, u) && Quad(mix, x, n + 12, u, q)
    ensures steps(n + 16) == q
  {
    FourSteps(mix, x, steps, n, r, s);
    FourSteps(mix, x, steps, n + 4, s, t);
    FourSteps(mix, x, steps, n + 8, t, u);
    FourSteps(mix, x, steps, n + 12, u, q);
  }

  lemma Round1(mix: Mix<Word>, steps: nat -> Regs<Word>)
    requires IsMacros(mix) && IsSteps(mix, WORDS, steps) && steps(0) == R0
    ensures steps(16) == R16
  {
    Steps1(mix);
    Steps5(mix);
    Steps9(mix);
    Steps13(mix);
    SixteenSteps(mix, WORDS, steps, 0, R0, R4, R8, R12, R16);
  }

  lemma Round2(mix: Mix<Word>, steps: nat -> Regs<Word>)
    requires IsMacros(mix) && IsSteps(mix, WORDS, steps) && steps(16) == R16
    ensures steps(32) == R32
  {
    Steps17(mix);
    Steps21(mix);
    Steps25(mix);
    Steps29(mix);
    SixteenSteps(mix, WORDS, steps, 16, R16, R20, R24, R28, R32);
  }

  lemma Round3(mix: Mix<Word>, steps: nat -> Regs<Word>)
    requires IsMacros(mix) && IsSteps(mix, WORDS, steps) && steps(32) == R32
    ensures steps(48) == R48
  {
    Steps33(mix);
    Steps37(mix);
    Steps41(mix);
    Steps45(mix);
    SixteenSteps(mix, WORDS, steps, 32, R32, R36, R40, R44, R48);
  }

  lemma Round4(mix: Mix<Word>, steps: nat -> Regs<Word>)
    requires IsMacros(mix) && IsSteps(mix, WORDS, steps) && steps(48) == R48
    ensures steps(64) == R64
  {
    Steps49(mix);
    Steps53(mix);
    Steps57(mix);
    Steps61(mix);
    SixteenSteps(mix, WORDS, steps, 48, R48, R52, R56, R60, R64);
  }

  lemma AllRounds(mix: Mix<Word>)
    requires IsMacros(mix)
    ensures Steps(mix, WORDS, 64, R0) == R64
  {
    var steps := (n: nat) => Steps(mix, WORDS, n, R0);
    Round1(mix, steps);
    Round2(mix, steps);
    Round3(mix, steps);
    Round4(mix, steps);
  }

  // The block: the letters, the one bit, zeros, and the length of 208 bits.

  const BYTES0: seq<Bytes.byte> := [
    0x61, 0x62, 0x63, 0x64, 0x65, 0x66, 0x67, 0x68, 0x69, 0x6A, 0x6B, 0x6C, 0x6D, 0x6E, 0x6F, 0x70]

  const BYTES16: seq<Bytes.byte> := [
    0x71, 0x72, 0x73, 0x74, 0x75, 0x76, 0x77, 0x78, 0x79, 0x7A, 0x80, 0x00, 0x00, 0x00, 0x00, 0x00]

  const BYTES32: seq<Bytes.byte> := [
    0x00, 0x00, 0x00, 0x00, 0x00, 0x00, 0x00, 0x00, 0x00, 0x00, 0x00, 0x00, 0x00, 0x00, 0x00, 0x00]

  const BYTES48: seq<Bytes.byte> := [
    0x00, 0x00, 0x00, 0x00, 0x00, 0x00, 0x00, 0x00, 0xD0, 0x00, 0x00, 0x00, 0x00, 0x00, 0x00, 0x00]

  const PADDED: seq<Bytes.byte> := BYTES0 + BYTES16 + BYTES32 + BYTES48


  lemma LengthBytes()
    ensures Encoded(CountByte, LengthWords(26)) == [208, 0, 0, 0, 0, 0, 0, 0]
  {
    assert LengthWords(26) == [208, 0];
    assert Digit(208, 0) == 208 && Digit(208, 1) == Digit(208, 2) == Digit(208, 3) == 0;
    EncodedAt(CountByte, [208, 0], 0);
    EncodedAt(CountByte, [208, 0], 1);
  }

  lemma ShortPadded(m: seq<Bytes.byte>)
    requires |m| == 26
    ensures Padded(MD5, m) == m + ([0x80] + seq(29, _ => 0)) + [208, 0, 0, 0, 0, 0, 0, 0]
  {
    LengthBytes();
    assert PaddingBytes(MD5)[..30] == [0x80] + seq(29, _ => 0);
  }

  lemma LettersPadded()
    ensures LETTERS + ([0x80] + seq(29, _ => 0)) + [208, 0, 0, 0, 0, 0, 0, 0] == PADDED
  {
  }

  /** The words of the block, for any way of making them that agrees with MD5Decode on these bytes. */
  ghost predicate MakesWords(wordOf: ToWord<Word, Bytes.byte>) {
    && wordOf(0x61, 0x62, 0x63, 0x64) == 0x64636261
    && wordOf(0x65, 0x66, 0x67, 0x68) == 0x68676665
    && wordOf(0x69, 0x6a, 0x6b, 0x6c) == 0x6c6b6a69
    && wordOf(0x6d, 0x6e, 0x6f, 0x70) == 0x706f6e6d
    && wordOf(0x71, 0x72, 0x73, 0x74) == 0x74737271
    && wordOf(0x75, 0x76, 0x77, 0x78) == 0x78777675
    && wordOf(0x79, 0x7a, 0x80, 0x00) == 0x00807a79
    && wordOf(0x00, 0x00, 0x00, 0x00) == 0x00000000
    && wordOf(0xd0, 0x00, 0x00, 0x00) == 0x000000d0
  }

  lemma MakesThem()
    ensures MakesWords(WordOf)
  {
  }

  lemma Words0(wordOf: ToWord<Word, Bytes.byte>)
    requires MakesWords(wordOf)
    ensures Decoded(wordOf, BYTES0) == [0x64636261, 0x68676665, 0x6c6b6a69, 0x706f6e6d]
  {
  }

  lemma Words4(wordOf: ToWord<Word, Bytes.byte>)
    requires MakesWords(wordOf)
    ensures Decoded(wordOf, BYTES16) == [0x74737271, 0x78777675, 0x00807a79, 0x00000000]
  {
  }

  lemma Words8(wordOf: ToWord<Word, Bytes.byte>)
    requires MakesWords(wordOf)
    ensures Decoded(wordOf, BYTES32) == [0x00000000, 0x00000000, 0x00000000, 0x00000000]
  {
  }

  lemma Words12(wordOf: ToWord<Word, Bytes.byte>)
    requires MakesWords(wordOf)
    ensures Decoded(wordOf, BYTES48) == [0x00000000, 0x00000000, 0x000000d0, 0x00000000]
  {
  }

  lemma DecodedConcat<W, B>(wordOf: ToWord<W, B>, a: seq<B>, b: seq<B>)
    requires |a| % 4 == 0 && |b| % 4 == 0
    ensures Decoded(wordOf, a + b) == Decoded(wordOf, a) + Decoded(wordOf, b)
  {
  }

  lemma FourDecoded<W, B>(wordOf: ToWord<W, B>, a: seq<B>, b: seq<B>, c: seq<B>, d: seq<B>)
    requires |a| == |b| == |c| == |d| == 16
    ensures Decoded(wordOf, a + b + c + d)
         == Decoded(wordOf, a) + Decoded(wordOf, b) + Decoded(wordOf, c) + Decoded(wordOf, d)
  {
    DecodedConcat(wordOf, a, b);
    DecodedConcat(wordOf, a + b, c);
    DecodedConcat(wordOf, a + b + c, d);
  }

  lemma WordsInFours()
    ensures [0x64636261, 0x68676665, 0x6c6b6a69, 0x706f6e6d]
         + [0x74737271, 0x78777675, 0x00807a79, 0x00000000]
         + [0x00000000, 0x00000000, 0x00000000, 0x00000000]
         + [0x00000000, 0x00000000, 0x000000d0, 0x00000000] == WORDS
  {
  }

  lemma DecodesTo(wordOf: ToWord<Word, Bytes.byte>)
    requires MakesWords(wordOf)
    ensures Decoded(wordOf, PADDED) == WORDS
  {
    FourDecoded(wordOf, BYTES0, BYTES16, BYTES32, BYTES48);
    Words0(wordOf);
    Words4(wordOf);
    Words8(wordOf);
    Words12(wordOf);
    WordsInFours();
  }

  lemma LettersAdded()
    ensures MD5.init == R0
    ensures Added(MD5, R0, R64) == Regs(0xd7d3fcc3, 0x00e49261, 0x6c49fb7d, 0x3be167ca)
  {
  }

  lemma LettersCompressed()
    ensures Compress(MD5, R0, PADDED) == Added(MD5, R0, R64)
  {
    MakesThem();
    DecodesTo(WordOf);
    MacrosAre();
    AllRounds(MACROS);
  }

  lemma DigestBytes()
    ensures Encoded(ByteOf, [0xd7d3fcc3, 0x00e49261, 0x6c49fb7d, 0x3be167ca]) == [
      0xc3, 0xfc, 0xd3, 0xd7, 0x61, 0x92, 0xe4, 0x00,
      0x7d, 0xfb, 0x49, 0x6c, 0xca, 0x67, 0xe1, 0x3b]
  {
    ByteRoundTrip(0xc3, 0xfc, 0xd3, 0xd7);
    ByteRoundTrip(0x61, 0x92, 0xe4, 0x00);
    ByteRoundTrip(0x7d, 0xfb, 0x49, 0x6c);
    ByteRoundTrip(0xca, 0x67, 0xe1, 0x3b);
  }

  lemma OneBlock<W(!new), B(!new)>(ops: Ops<W, B>, m: seq<B>)
    requires |Padded(ops, m)| == BLOCK
    ensures Digest(ops, m) == Output(ops, Compress(ops, ops.init, Padded(ops, m)))
  {
    var f := (h: Regs<W>, b: seq<B>) => Compress(ops, h, b);
    var p := Padded(ops, m);
    assert p[..BLOCK] == p && p[BLOCK..] == [];
    var h := f(ops.init, p);
    var state := [h.a, h.b, h.c, h.d];
    assert state[..4] == state;
    DigestIs(f, ops, m, state);
  }

  /** MD5 ("abcdefghijklmnopqrstuvwxyz") = c3fcd3d76192e4007dfb496cca67e13b */
  lemma LettersDigest()
    ensures Digest(MD5, LETTERS) == [
      0xc3, 0xfc, 0xd3, 0xd7, 0x61, 0x92, 0xe4, 0x00,
      0x7d, 0xfb, 0x49, 0x6c, 0xca, 0x67, 0xe1, 0x3b]
  {
    ShortPadded(LETTERS);
    LettersPadded();
    LettersAdded();
    LettersCompressed();
    OneBlock(MD5, LETTERS);
    DigestBytes();
  }
}

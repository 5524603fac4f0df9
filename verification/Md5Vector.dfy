/** A test vector of RFC 1321, section A.5, worked out by proof: it fixes the tables, the rotations, the auxiliary
    functions, the byte order, the padding and the initial state, which specification and implementation share. */
module Md5Vector {
  import opened Bytes
  import opened Md5
  import opened Slices

  /** Two shifts and an or rotate a word, by any number of bits. */
  lemma {:induction false} RotlRotates(x: Word)
    ensures Rotl(x, 1) == x.RotateLeft(1) && Rotl(x, 2) == x.RotateLeft(2) && Rotl(x, 3) == x.RotateLeft(3)
    ensures Rotl(x, 4) == x.RotateLeft(4) && Rotl(x, 5) == x.RotateLeft(5) && Rotl(x, 6) == x.RotateLeft(6)
    ensures Rotl(x, 7) == x.RotateLeft(7) && Rotl(x, 8) == x.RotateLeft(8) && Rotl(x, 9) == x.RotateLeft(9)
    ensures Rotl(x, 10) == x.RotateLeft(10) && Rotl(x, 11) == x.RotateLeft(11) && Rotl(x, 12) == x.RotateLeft(12)
    ensures Rotl(x, 13) == x.RotateLeft(13) && Rotl(x, 14) == x.RotateLeft(14) && Rotl(x, 15) == x.RotateLeft(15)
    ensures Rotl(x, 16) == x.RotateLeft(16) && Rotl(x, 17) == x.RotateLeft(17) && Rotl(x, 18) == x.RotateLeft(18)
    ensures Rotl(x, 19) == x.RotateLeft(19) && Rotl(x, 20) == x.RotateLeft(20) && Rotl(x, 21) == x.RotateLeft(21)
    ensures Rotl(x, 22) == x.RotateLeft(22) && Rotl(x, 23) == x.RotateLeft(23) && Rotl(x, 24) == x.RotateLeft(24)
    ensures Rotl(x, 25) == x.RotateLeft(25) && Rotl(x, 26) == x.RotateLeft(26) && Rotl(x, 27) == x.RotateLeft(27)
    ensures Rotl(x, 28) == x.RotateLeft(28) && Rotl(x, 29) == x.RotateLeft(29) && Rotl(x, 30) == x.RotateLeft(30)
    ensures Rotl(x, 31) == x.RotateLeft(31)
  {
  }

  lemma {:induction false} Next(x: seq<Word>, st: State, n: nat)
    requires |x| == 16 && n < 64
    ensures var p := Operations(x, st, n);
      Operations(x, st, n + 1)
      == State(p.d, Mix(p.a, p.b, Aux(n, p.b, p.c, p.d), x[K(n)], T(n), Shift(n)), p.b, p.c)
  {
    hide Mix, Aux, K, T, Shift;
  }

  lemma {:induction false} NextFour(x: seq<Word>, st: State, n: nat)
    requires |x| == 16 && n + 4 <= 64
    ensures forall i :: n <= i < n + 4 ==>
      var p := Operations(x, st, i);
      Operations(x, st, i + 1) == State(p.d, Mix(p.a, p.b, Aux(i, p.b, p.c, p.d), x[K(i)], T(i), Shift(i)), p.b, p.c)
  {
    hide Mix, Aux, T, Shift, Operations;
    forall i | n <= i < n + 4
      ensures var p := Operations(x, st, i);
        Operations(x, st, i + 1) == State(p.d, Mix(p.a, p.b, Aux(i, p.b, p.c, p.d), x[K(i)], T(i), Shift(i)), p.b, p.c)
    {
      Next(x, st, i);
    }
  }

  // ----- The alphabet

  /** The 26 small letters. */
  function Alphabet(): (s: seq<Byte>)
    ensures |s| == 26 && forall i :: 0 <= i < 26 ==> s[i] == 97 + i
  {
    seq(26, i requires 0 <= i < 26 => 97 + i)
  }

  /** The words of the padded alphabet. */
  ghost predicate IsBlock(x: seq<Word>) {
    && |x| == 16
    && x[0] == 0x64636261 && x[1] == 0x68676665 && x[2] == 0x6c6b6a69 && x[3] == 0x706f6e6d
    && x[4] == 0x74737271 && x[5] == 0x78777675 && x[6] == 0x00807a79 && x[7] == 0x00000000
    && x[8] == 0x00000000 && x[9] == 0x00000000 && x[10] == 0x00000000 && x[11] == 0x00000000
    && x[12] == 0x00000000 && x[13] == 0x00000000 && x[14] == 0x000000d0 && x[15] == 0x00000000
  }

  lemma {:induction false} FirstRoundValues()
    ensures Mix(0x67452301, 0xefcdab89, F(0xefcdab89, 0x98badcfe, 0x10325476),
      0x64636261, 0xd76aa478, 7) == 0xd6d117a6
    ensures Mix(0x10325476, 0xd6d117a6, F(0xd6d117a6, 0xefcdab89, 0x98badcfe),
      0x68676665, 0xe8c7b756, 12) == 0xaab1aaaa
    ensures Mix(0x98badcfe, 0xaab1aaaa, F(0xaab1aaaa, 0xd6d117a6, 0xefcdab89),
      0x6c6b6a69, 0x242070db, 17) == 0x227d8cf1
    ensures Mix(0xefcdab89, 0x227d8cf1, F(0x227d8cf1, 0xaab1aaaa, 0xd6d117a6),
      0x706f6e6d, 0xc1bdceee, 22) == 0x4503b812
    ensures Mix(0xd6d117a6, 0x4503b812, F(0x4503b812, 0x227d8cf1, 0xaab1aaaa),
      0x74737271, 0xf57c0faf, 7) == 0xfe15f787
    ensures Mix(0xaab1aaaa, 0xfe15f787, F(0xfe15f787, 0x4503b812, 0x227d8cf1),
      0x78777675, 0x4787c62a, 12) == 0xa811b278
    ensures Mix(0x227d8cf1, 0xa811b278, F(0xa811b278, 0xfe15f787, 0x4503b812),
      0x00807a79, 0xa8304613, 17) == 0xb71122fc
    ensures Mix(0x4503b812, 0xb71122fc, F(0xb71122fc, 0xa811b278, 0xfe15f787),
      0x00000000, 0xfd469501, 22) == 0xda9bbb0d
    ensures Mix(0xfe15f787, 0xda9bbb0d, F(0xda9bbb0d, 0xb71122fc, 0xa811b278),
      0x00000000, 0x698098d8, 7) == 0xae752899
    ensures Mix(0xa811b278, 0xae752899, F(0xae752899, 0xda9bbb0d, 0xb71122fc),
      0x00000000, 0x8b44f7af, 12) == 0x2bbe757f
    ensures Mix(0xb71122fc, 0x2bbe757f, F(0x2bbe757f, 0xae752899, 0xda9bbb0d),
      0x00000000, 0xffff5bb1, 17) == 0x7d4bd80b
    ensures Mix(0xda9bbb0d, 0x7d4bd80b, F(0x7d4bd80b, 0x2bbe757f, 0xae752899),
      0x00000000, 0x895cd7be, 22) == 0x56cfa5cb
    ensures Mix(0xae752899, 0x56cfa5cb, F(0x56cfa5cb, 0x7d4bd80b, 0x2bbe757f),
      0x00000000, 0x6b901122, 7) == 0x1754a316
    ensures Mix(0x2bbe757f, 0x1754a316, F(0x1754a316, 0x56cfa5cb, 0x7d4bd80b),
      0x00000000, 0xfd987193, 12) == 0x85567d90
    ensures Mix(0x7d4bd80b, 0x85567d90, F(0x85567d90, 0x1754a316, 0x56cfa5cb),
      0x000000d0, 0xa679438e, 17) == 0x00df74d5
    ensures Mix(0x56cfa5cb, 0x00df74d5, F(0x00df74d5, 0x85567d90, 0x1754a316),
      0x00000000, 0x49b40821, 22) == 0x608d6b7e
  {
  }

  lemma {:induction false} FirstRoundOfAlphabet(x: seq<Word>, st: State)
    requires IsBlock(x) && Operations(x, st, 0) == State(0x67452301, 0xefcdab89, 0x98badcfe, 0x10325476)
    ensures Operations(x, st, 16) == State(0x1754a316, 0x608d6b7e, 0x00df74d5, 0x85567d90)
  {
    hide Mix, F, G, H, I, T, SineRow, K, Shift, Operation, Operations;
    FirstTable();
    FirstRoundValues();
    NextFour(x, st, 0);
    NextFour(x, st, 4);
    NextFour(x, st, 8);
    NextFour(x, st, 12);
  }

  lemma {:induction false} SecondRoundValues()
    ensures Mix(0x1754a316, 0x608d6b7e, G(0x608d6b7e, 0x00df74d5, 0x85567d90),
      0x68676665, 0xf61e2562, 5) == 0x2d8071cc
    ensures Mix(0x85567d90, 0x2d8071cc, G(0x2d8071cc, 0x608d6b7e, 0x00df74d5),
      0x00807a79, 0xc040b340, 9) == 0x5dcee119
    ensures Mix(0x00df74d5, 0x5dcee119, G(0x5dcee119, 0x2d8071cc, 0x608d6b7e),
      0x00000000, 0x265e5a51, 14) == 0xedfe7e4b
    ensures Mix(0x608d6b7e, 0xedfe7e4b, G(0xedfe7e4b, 0x5dcee119, 0x2d8071cc),
      0x64636261, 0xe9b6c7aa, 20) == 0x4c2145b3
    ensures Mix(0x2d8071cc, 0x4c2145b3, G(0x4c2145b3, 0xedfe7e4b, 0x5dcee119),
      0x78777675, 0xd62f105d, 5) == 0x570c43e0
    ensures Mix(0x5dcee119, 0x570c43e0, G(0x570c43e0, 0x4c2145b3, 0xedfe7e4b),
      0x00000000, 0x02441453, 9) == 0x977efd2a
    ensures Mix(0xedfe7e4b, 0x977efd2a, G(0x977efd2a, 0x570c43e0, 0x4c2145b3),
      0x00000000, 0xd8a1e681, 14) == 0xc28ab49d
    ensures Mix(0x4c2145b3, 0xc28ab49d, G(0xc28ab49d, 0x977efd2a, 0x570c43e0),
      0x74737271, 0xe7d3fbc8, 20) == 0xc9f162d4
    ensures Mix(0x570c43e0, 0xc9f162d4, G(0xc9f162d4, 0xc28ab49d, 0x977efd2a),
      0x00000000, 0x21e1cde6, 5) == 0x25bfae3b
    ensures Mix(0x977efd2a, 0x25bfae3b, G(0x25bfae3b, 0xc9f162d4, 0xc28ab49d),
      0x000000d0, 0xc33707d6, 9) == 0x89980104
    ensures Mix(0xc28ab49d, 0x89980104, G(0x89980104, 0x25bfae3b, 0xc9f162d4),
      0x706f6e6d, 0xf4d50d87, 14) == 0xf8c8365f
    ensures Mix(0xc9f162d4, 0xf8c8365f, G(0xf8c8365f, 0x89980104, 0x25bfae3b),
      0x00000000, 0x455a14ed, 20) == 0xe6d3b398
    ensures Mix(0x25bfae3b, 0xe6d3b398, G(0xe6d3b398, 0xf8c8365f, 0x89980104),
      0x00000000, 0xa9e3e905, 5) == 0xf54d8710
    ensures Mix(0x89980104, 0xf54d8710, G(0xf54d8710, 0xe6d3b398, 0xf8c8365f),
      0x6c6b6a69, 0xfcefa3f8, 9) == 0x927b72e2
    ensures Mix(0xf8c8365f, 0x927b72e2, G(0x927b72e2, 0xf54d8710, 0xe6d3b398),
      0x00000000, 0x676f02d9, 14) == 0x2e69afc7
    ensures Mix(0xe6d3b398, 0x2e69afc7, G(0x2e69afc7, 0x927b72e2, 0xf54d8710),
      0x00000000, 0x8d2a4c8a, 20) == 0xaeb35766
  {
  }

  lemma {:induction false} SecondRoundOfAlphabet(x: seq<Word>, st: State)
    requires IsBlock(x) && Operations(x, st, 16) == State(0x1754a316, 0x608d6b7e, 0x00df74d5, 0x85567d90)
    ensures Operations(x, st, 32) == State(0xf54d8710, 0xaeb35766, 0x2e69afc7, 0x927b72e2)
  {
    hide Mix, F, G, H, I, T, SineRow, K, Shift, Operation, Operations;
    SecondTable();
    SecondRoundValues();
    NextFour(x, st, 16);
    NextFour(x, st, 20);
    NextFour(x, st, 24);
    NextFour(x, st, 28);
  }

  lemma {:induction false} ThirdRoundValues()
    ensures Mix(0xf54d8710, 0xaeb35766, H(0xaeb35766, 0x2e69afc7, 0x927b72e2),
      0x78777675, 0xfffa3942, 4) == 0xb4bf680e
    ensures Mix(0x927b72e2, 0xb4bf680e, H(0xb4bf680e, 0xaeb35766, 0x2e69afc7),
      0x00000000, 0x8771f681, 11) == 0x4c8ffa80
    ensures Mix(0x2e69afc7, 0x4c8ffa80, H(0x4c8ffa80, 0xb4bf680e, 0xaeb35766),
      0x00000000, 0x6d9d6122, 16) == 0x2361ed0a
    ensures Mix(0xaeb35766, 0x2361ed0a, H(0x2361ed0a, 0x4c8ffa80, 0xb4bf680e),
      0x000000d0, 0xfde5380c, 23) == 0x06a5e211
    ensures Mix(0xb4bf680e, 0x06a5e211, H(0x06a5e211, 0x2361ed0a, 0x4c8ffa80),
      0x68676665, 0xa4beea44, 4) == 0xb9c0c733
    ensures Mix(0x4c8ffa80, 0xb9c0c733, H(0xb9c0c733, 0x06a5e211, 0x2361ed0a),
      0x74737271, 0x4bdecfa9, 11) == 0xf1e6dc7a
    ensures Mix(0x2361ed0a, 0xf1e6dc7a, H(0xf1e6dc7a, 0xb9c0c733, 0x06a5e211),
      0x00000000, 0xf6bb4b60, 16) == 0x23a9451b
    ensures Mix(0x06a5e211, 0x23a9451b, H(0x23a9451b, 0xf1e6dc7a, 0xb9c0c733),
      0x00000000, 0xbebfbc70, 23) == 0x8d41bf99
    ensures Mix(0xb9c0c733, 0x8d41bf99, H(0x8d41bf99, 0x23a9451b, 0xf1e6dc7a),
      0x00000000, 0x289b7ec6, 4) == 0xa3e88ead
    ensures Mix(0xf1e6dc7a, 0xa3e88ead, H(0xa3e88ead, 0x8d41bf99, 0x23a9451b),
      0x64636261, 0xeaa127fa, 11) == 0x02c0b11c
    ensures Mix(0x23a9451b, 0x02c0b11c, H(0x02c0b11c, 0xa3e88ead, 0x8d41bf99),
      0x706f6e6d, 0xd4ef3085, 16) == 0x66f6468d
    ensures Mix(0x8d41bf99, 0x66f6468d, H(0x66f6468d, 0x02c0b11c, 0xa3e88ead),
      0x00807a79, 0x04881d05, 23) == 0x90a35af5
    ensures Mix(0xa3e88ead, 0x90a35af5, H(0x90a35af5, 0x66f6468d, 0x02c0b11c),
      0x00000000, 0xd9d4d039, 4) == 0xb5d41f9c
    ensures Mix(0x02c0b11c, 0xb5d41f9c, H(0xb5d41f9c, 0x90a35af5, 0x66f6468d),
      0x00000000, 0xe6db99e5, 11) == 0xa04b4904
    ensures Mix(0x66f6468d, 0xa04b4904, H(0xa04b4904, 0xb5d41f9c, 0x90a35af5),
      0x00000000, 0x1fa27cf8, 16) == 0x703d54d8
    ensures Mix(0x90a35af5, 0x703d54d8, H(0x703d54d8, 0xa04b4904, 0xb5d41f9c),
      0x6c6b6a69, 0xc4ac5665, 23) == 0x71d10367
  {
  }

  lemma {:induction false} ThirdRoundOfAlphabet(x: seq<Word>, st: State)
    requires IsBlock(x) && Operations(x, st, 32) == State(0xf54d8710, 0xaeb35766, 0x2e69afc7, 0x927b72e2)
    ensures Operations(x, st, 48) == State(0xb5d41f9c, 0x71d10367, 0x703d54d8, 0xa04b4904)
  {
    hide Mix, F, G, H, I, T, SineRow, K, Shift, Operation, Operations;
    ThirdTable();
    ThirdRoundValues();
    NextFour(x, st, 32);
    NextFour(x, st, 36);
    NextFour(x, st, 40);
    NextFour(x, st, 44);
  }

  lemma {:induction false} FourthRoundValues()
    ensures Mix(0xb5d41f9c, 0x71d10367, I(0x71d10367, 0x703d54d8, 0xa04b4904),
      0x64636261, 0xf4292244, 6) == 0xfc32dd6e
    ensures Mix(0xa04b4904, 0xfc32dd6e, I(0xfc32dd6e, 0x71d10367, 0x703d54d8),
      0x00000000, 0x432aff97, 10) == 0x65456b34
    ensures Mix(0x703d54d8, 0x65456b34, I(0x65456b34, 0xfc32dd6e, 0x71d10367),
      0x000000d0, 0xab9423a7, 15) == 0xb35602cb
    ensures Mix(0x71d10367, 0xb35602cb, I(0xb35602cb, 0x65456b34, 0xfc32dd6e),
      0x78777675, 0xfc93a039, 21) == 0x33edb197
    ensures Mix(0xfc32dd6e, 0x33edb197, I(0x33edb197, 0xb35602cb, 0x65456b34),
      0x00000000, 0x655b59c3, 6) == 0xc1e942f1
    ensures Mix(0x65456b34, 0xc1e942f1, I(0xc1e942f1, 0x33edb197, 0xb35602cb),
      0x706f6e6d, 0x8f0ccc92, 10) == 0xd9bb987c
    ensures Mix(0xb35602cb, 0xd9bb987c, I(0xd9bb987c, 0xc1e942f1, 0x33edb197),
      0x00000000, 0xffeff47d, 15) == 0x23a68048
    ensures Mix(0x33edb197, 0x23a68048, I(0x23a68048, 0xd9bb987c, 0xc1e942f1),
      0x68676665, 0x85845dd1, 21) == 0x83877d1b
    ensures Mix(0xc1e942f1, 0x83877d1b, I(0x83877d1b, 0x23a68048, 0xd9bb987c),
      0x00000000, 0x6fa87e4f, 6) == 0x0077c208
    ensures Mix(0xd9bb987c, 0x0077c208, I(0x0077c208, 0x83877d1b, 0x23a68048),
      0x00000000, 0xfe2ce6e0, 10) == 0x847fc2e7
    ensures Mix(0x23a68048, 0x847fc2e7, I(0x847fc2e7, 0x0077c208, 0x83877d1b),
      0x00807a79, 0xa3014314, 15) == 0xa3e2247f
    ensures Mix(0x83877d1b, 0xa3e2247f, I(0xa3e2247f, 0x847fc2e7, 0x0077c208),
      0x00000000, 0x4e0811a1, 21) == 0x5e6bc930
    ensures Mix(0x0077c208, 0x5e6bc930, I(0x5e6bc930, 0xa3e2247f, 0x847fc2e7),
      0x74737271, 0xf7537e82, 6) == 0x708ed9c2
    ensures Mix(0x847fc2e7, 0x708ed9c2, I(0x708ed9c2, 0x5e6bc930, 0xa3e2247f),
      0x00000000, 0xbd3af235, 10) == 0x2baf1354
    ensures Mix(0xa3e2247f, 0x2baf1354, I(0x2baf1354, 0x708ed9c2, 0x5e6bc930),
      0x6c6b6a69, 0x2ad7d2bb, 15) == 0xd38f1e7f
    ensures Mix(0x5e6bc930, 0xd38f1e7f, I(0xd38f1e7f, 0x2baf1354, 0x708ed9c2),
      0x00000000, 0xeb86d391, 21) == 0x1116e6d8
  {
  }

  lemma {:induction false} FourthRoundOfAlphabet(x: seq<Word>, st: State)
    requires IsBlock(x) && Operations(x, st, 48) == State(0xb5d41f9c, 0x71d10367, 0x703d54d8, 0xa04b4904)
    ensures Operations(x, st, 64) == State(0x708ed9c2, 0x1116e6d8, 0xd38f1e7f, 0x2baf1354)
  {
    hide Mix, F, G, H, I, T, SineRow, K, Shift, Operation, Operations;
    FourthTable();
    FourthRoundValues();
    NextFour(x, st, 48);
    NextFour(x, st, 52);
    NextFour(x, st, 56);
    NextFour(x, st, 60);
  }

  lemma {:induction false} WordsAt(b: seq<Byte>, k: nat)
    requires |b| % 4 == 0 && 4 * k < |b|
    ensures Words(b)[k] == WordOf(b[4 * k..4 * k + 4])
    decreases k
  {
    hide WordOf;
    if k == 0 {
      assert b[4 * k..4 * k + 4] == b[..4];
    } else {
      var rest := b[4..];
      WordsAt(rest, k - 1);
      assert Words(b)[k] == Words(rest)[k - 1];
      SliceOfSlice(b, 4, |b|, 4 * (k - 1), 4 * (k - 1) + 4);
      assert rest == b[4..|b|];
    }
  }

  function Little(b0: Byte, b1: Byte, b2: Byte, b3: Byte): Word {
    (b0 as Word) | ((b1 as Word) << 8) | ((b2 as Word) << 16) | ((b3 as Word) << 24)
  }

  lemma {:induction false} WordOfFour(b0: Byte, b1: Byte, b2: Byte, b3: Byte)
    ensures WordOf([b0, b1, b2, b3]) == Little(b0, b1, b2, b3)
  {
    var b := [b0, b1, b2, b3];
    assert b[0] == b0 && b[1] == b1 && b[2] == b2 && b[3] == b3;
  }

  /** A word is its four bytes, lowest first. */
  lemma {:induction false} WordAt(b: seq<Byte>, k: nat, b0: Byte, b1: Byte, b2: Byte, b3: Byte)
    requires |b| % 4 == 0 && 4 * k + 4 <= |b|
    requires b[4 * k] == b0 && b[4 * k + 1] == b1 && b[4 * k + 2] == b2 && b[4 * k + 3] == b3
    ensures Words(b)[k] == Little(b0, b1, b2, b3)
  {
    hide WordOf, Words, Little;
    WordOfFour(b0, b1, b2, b3);
    WordsAt(b, k);
    assert b[4 * k..4 * k + 4] == [b0, b1, b2, b3];
  }

  lemma {:induction false} WordValues()
    ensures Little(97, 98, 99, 100) == 0x64636261
    ensures Little(101, 102, 103, 104) == 0x68676665
    ensures Little(105, 106, 107, 108) == 0x6c6b6a69
    ensures Little(109, 110, 111, 112) == 0x706f6e6d
    ensures Little(113, 114, 115, 116) == 0x74737271
    ensures Little(117, 118, 119, 120) == 0x78777675
    ensures Little(121, 122, 128, 0) == 0x00807a79
    ensures Little(0, 0, 0, 0) == 0x00000000
    ensures Little(208, 0, 0, 0) == 0x000000d0
  {
  }

  /** The padded alphabet: the letters, a one bit, zeros, and the length of 208 bits. */
  lemma {:induction false} PaddedAlphabet(msg: seq<Byte>)
    requires |msg| == 26
    ensures Pad(msg) == msg + [128] + Zeros(29) + [208, 0, 0, 0, 0, 0, 0, 0]
  {
    hide Zeros;
    LengthOfAlphabet();
    assert (119 - 26) % 64 == 29;
  }

  lemma {:induction false} LengthOfAlphabet()
    ensures LengthBytes(26) == [208, 0, 0, 0, 0, 0, 0, 0]
  {
    Le64Split(208);
    Le32Bytes(208);
    Le32Bytes(0);
  }

  /** The padded message byte by byte. */
  ghost predicate IsPadded(b: seq<Byte>) {
    && |b| == 64 && (forall i :: 0 <= i < 26 ==> b[i] == 97 + i) && b[26] == 128
    && (forall i :: 27 <= i < 64 && i != 56 ==> b[i] == 0) && b[56] == 208
  }

  lemma {:induction false} AlphabetBytes()
    ensures IsPadded(Pad(Alphabet()))
  {
    hide Zeros, Alphabet, Pad;
    PaddedAlphabet(Alphabet());
  }

  lemma {:induction false} AlphabetWords(b: seq<Byte>)
    requires IsPadded(b)
    ensures IsBlock(Words(b))
  {
    hide Words, Little;
    WordValues();
    WordAt(b, 0, 97, 98, 99, 100);
    WordAt(b, 1, 101, 102, 103, 104);
    WordAt(b, 2, 105, 106, 107, 108);
    WordAt(b, 3, 109, 110, 111, 112);
    WordAt(b, 4, 113, 114, 115, 116);
    WordAt(b, 5, 117, 118, 119, 120);
    WordAt(b, 6, 121, 122, 128, 0);
    WordAt(b, 7, 0, 0, 0, 0);
    WordAt(b, 8, 0, 0, 0, 0);
    WordAt(b, 9, 0, 0, 0, 0);
    WordAt(b, 10, 0, 0, 0, 0);
    WordAt(b, 11, 0, 0, 0, 0);
    WordAt(b, 12, 0, 0, 0, 0);
    WordAt(b, 13, 0, 0, 0, 0);
    WordAt(b, 14, 208, 0, 0, 0);
    WordAt(b, 15, 0, 0, 0, 0);
  }

  lemma {:induction false} OutputBytes()
    ensures Output(State(0xd7d3fcc3, 0x00e49261, 0x6c49fb7d, 0x3be167ca))
      == [0xc3, 0xfc, 0xd3, 0xd7, 0x61, 0x92, 0xe4, 0x00,
          0x7d, 0xfb, 0x49, 0x6c, 0xca, 0x67, 0xe1, 0x3b]
  {
  }

  lemma {:induction false} Sums()
    ensures Plus(State(0x67452301, 0xefcdab89, 0x98badcfe, 0x10325476),
        State(0x708ed9c2, 0x1116e6d8, 0xd38f1e7f, 0x2baf1354))
      == State(0xd7d3fcc3, 0x00e49261, 0x6c49fb7d, 0x3be167ca)
  {
  }

  /** The digest of the alphabet is the one published. */
  lemma {:induction false} AlphabetDigest()
    ensures Digest(Alphabet())
      == [0xc3, 0xfc, 0xd3, 0xd7, 0x61, 0x92, 0xe4, 0x00,
          0x7d, 0xfb, 0x49, 0x6c, 0xca, 0x67, 0xe1, 0x3b]
  {
    hide Operations, Words, Pad, Output, Plus, Alphabet, IsBlock;
    var b := Pad(Alphabet());
    AlphabetBytes();
    var x := Words(b);
    AlphabetWords(b);
    assert Operations(x, INIT, 0) == INIT by { NoOperationsYet(x); }
    FirstRoundOfAlphabet(x, INIT);
    SecondRoundOfAlphabet(x, INIT);
    ThirdRoundOfAlphabet(x, INIT);
    FourthRoundOfAlphabet(x, INIT);
    Sums();
    OutputBytes();
    assert b[..64] == b && b[64..] == [];
    OneBlock(b);
  }

  lemma {:induction false} NoOperationsYet(x: seq<Word>)
    requires |x| == 16
    ensures Operations(x, INIT, 0) == INIT
  {
  }

  lemma {:induction false} OneBlock(b: seq<Byte>)
    requires |b| == 64
    ensures Absorb(INIT, b) == Plus(INIT, Operations(Words(b), INIT, 64))
  {
    hide Operations, Words, Plus;
    assert b[..64] == b && b[64..] == [];
  }
}

/** The streaming MD5 of md5_utils.c against the message digest of RFC 1321. */
module Md5 {
  import opened Bytes
  import Arith

  type Word = bv32

  // ----- RFC 1321, section 3

  /** The four-word buffer. */
  datatype State = State(a: Word, b: Word, c: Word, d: Word)

  const INIT := State(0x67452301, 0xefcdab89, 0x98badcfe, 0x10325476)

  function F(x: Word, y: Word, z: Word): Word { (x & y) | (!x & z) }
  function G(x: Word, y: Word, z: Word): Word { (x & z) | (y & !z) }
  function H(x: Word, y: Word, z: Word): Word { x ^ y ^ z }
  function I(x: Word, y: Word, z: Word): Word { y ^ (x | !z) }

  function Rotl(x: Word, s: nat): Word
    requires 0 < s < 32
  {
    (x << s) | (x >> (32 - s))
  }

  /** b + ((a + f + x + t) <<< s), the operation all four rounds share. */
  function Mix(a: Word, b: Word, f: Word, x: Word, t: Word, s: nat): Word
    requires 0 < s < 32
  {
    b + Rotl(a + f + x + t, s)
  }

  /** The sine table, four operations to a row. */
  function SineRow(q: nat): (Word, Word, Word, Word)
    requires q < 16
  {
    if q < 4 then
      (match q
       case 0 => (0xd76aa478, 0xe8c7b756, 0x242070db, 0xc1bdceee)
       case 1 => (0xf57c0faf, 0x4787c62a, 0xa8304613, 0xfd469501)
       case 2 => (0x698098d8, 0x8b44f7af, 0xffff5bb1, 0x895cd7be)
       case _ => (0x6b901122, 0xfd987193, 0xa679438e, 0x49b40821))
    else if q < 8 then
      (match q
       case 4 => (0xf61e2562, 0xc040b340, 0x265e5a51, 0xe9b6c7aa)
       case 5 => (0xd62f105d, 0x02441453, 0xd8a1e681, 0xe7d3fbc8)
       case 6 => (0x21e1cde6, 0xc33707d6, 0xf4d50d87, 0x455a14ed)
       case _ => (0xa9e3e905, 0xfcefa3f8, 0x676f02d9, 0x8d2a4c8a))
    else if q < 12 then
      (match q
       case 8 => (0xfffa3942, 0x8771f681, 0x6d9d6122, 0xfde5380c)
       case 9 => (0xa4beea44, 0x4bdecfa9, 0xf6bb4b60, 0xbebfbc70)
       case 10 => (0x289b7ec6, 0xeaa127fa, 0xd4ef3085, 0x04881d05)
       case _ => (0xd9d4d039, 0xe6db99e5, 0x1fa27cf8, 0xc4ac5665))
    else
      (match q
       case 12 => (0xf4292244, 0x432aff97, 0xab9423a7, 0xfc93a039)
       case 13 => (0x655b59c3, 0x8f0ccc92, 0xffeff47d, 0x85845dd1)
       case 14 => (0x6fa87e4f, 0xfe2ce6e0, 0xa3014314, 0x4e0811a1)
       case _ => (0xf7537e82, 0xbd3af235, 0x2ad7d2bb, 0xeb86d391))
  }

  /** The constant of operation i. */
  function T(i: nat): Word
    requires i < 64
  {
    var row := SineRow(i / 4);
    if i % 4 == 0 then row.0 else if i % 4 == 1 then row.1 else if i % 4 == 2 then row.2 else row.3
  }

  /** The message word used by operation i. */
  function K(i: nat): nat
    requires i < 64
  {
    if i < 16 then i else if i < 32 then (1 + 5 * i) % 16 else if i < 48 then (5 + 3 * i) % 16 else 7 * i % 16
  }

  /** The rotation of operation i. */
  function Shift(i: nat): (s: nat)
    requires i < 64
    ensures 0 < s < 32
  {
    var j := i % 4;
    if i < 16 then (if j == 0 then 7 else if j == 1 then 12 else if j == 2 then 17 else 22)
    else if i < 32 then (if j == 0 then 5 else if j == 1 then 9 else if j == 2 then 14 else 20)
    else if i < 48 then (if j == 0 then 4 else if j == 1 then 11 else if j == 2 then 16 else 23)
    else (if j == 0 then 6 else if j == 1 then 10 else if j == 2 then 15 else 21)
  }

  /** The auxiliary function of operation i. */
  function Aux(i: nat, x: Word, y: Word, z: Word): Word {
    if i < 16 then F(x, y, z) else if i < 32 then G(x, y, z) else if i < 48 then H(x, y, z) else I(x, y, z)
  }

  /** Operation i, with the four words rotated so that the next operation changes the one named a again. */
  function Operation(x: seq<Word>, st: State, i: nat): State
    requires |x| == 16 && i < 64
  {
    State(st.d, Mix(st.a, st.b, Aux(i, st.b, st.c, st.d), x[K(i)], T(i), Shift(i)), st.b, st.c)
  }

  /** The first n operations. */
  function Operations(x: seq<Word>, st: State, n: nat): State
    requires |x| == 16 && n <= 64
  {
    if n == 0 then st else Operation(x, Operations(x, st, n - 1), n - 1)
  }

  function Plus(s: State, t: State): State {
    State(s.a + t.a, s.b + t.b, s.c + t.c, s.d + t.d)
  }

  /** One 16-word block. */
  function Compress(st: State, x: seq<Word>): State
    requires |x| == 16
  {
    Plus(st, Operations(x, st, 64))
  }

  function WordOf(b: seq<Byte>): Word
    requires |b| == 4
  {
    (b[0] as Word) | ((b[1] as Word) << 8) | ((b[2] as Word) << 16) | ((b[3] as Word) << 24)
  }

  /** A 64-byte block as 16 words, low-order byte first. */
  function Words(b: seq<Byte>): (r: seq<Word>)
    requires |b| % 4 == 0
    ensures |r| == |b| / 4
  {
    if b == [] then [] else [WordOf(b[..4])] + Words(b[4..])
  }

  /** Section 3.4 over all complete blocks. */
  function Absorb(st: State, s: seq<Byte>): State
    decreases |s|
  {
    if |s| < 64 then st else Absorb(Compress(st, Words(s[..64])), s[64..])
  }

  /** Sections 3.1 and 3.2: a one bit, zeros up to 56 modulo 64 bytes, and the bit length modulo 2^64. */
  function Pad(msg: seq<Byte>): seq<Byte> {
    msg + [0x80] + Zeros((119 - |msg| % 64) % 64) + LengthBytes(|msg|)
  }

  /** The bit length of n bytes as 64 bits, low-order word first. */
  function LengthBytes(n: nat): (r: seq<Byte>)
    ensures |r| == 8
  {
    Le(8 * n % TWO_64, 8)
  }

  function ByteOf(w: Word): Byte {
    (w & 0xff) as bv8 as int
  }

  function WordBytes(w: Word): (r: seq<Byte>)
    ensures |r| == 4
  {
    [ByteOf(w), ByteOf(w >> 8), ByteOf(w >> 16), ByteOf(w >> 24)]
  }

  /** Section 3.5. */
  function Output(st: State): (r: seq<Byte>)
    ensures |r| == 16
  {
    WordBytes(st.a) + WordBytes(st.b) + WordBytes(st.c) + WordBytes(st.d)
  }

  function Digest(msg: seq<Byte>): seq<Byte> {
    Output(Absorb(INIT, Pad(msg)))
  }

  // ----- The optimised round functions

  function F1(x: Word, y: Word, z: Word): Word { z ^ (x & (y ^ z)) }
  function F2(x: Word, y: Word, z: Word): Word { F1(z, x, y) }
  function F3(x: Word, y: Word, z: Word): Word { x ^ y ^ z }
  function F4(x: Word, y: Word, z: Word): Word { y ^ (x | !z) }

  lemma {:induction false} SelectByXor(x: Word, y: Word, z: Word)
    ensures z ^ (x & (y ^ z)) == (x & y) | (!x & z)
    ensures z ^ (x & (y ^ z)) == (y & x) | (z & !x)
  {
    hide *;
  }

  lemma {:induction false} F1IsF(x: Word, y: Word, z: Word)
    ensures F1(x, y, z) == F(x, y, z)
  {
    SelectByXor(x, y, z);
  }

  lemma {:induction false} F2IsG(x: Word, y: Word, z: Word)
    ensures F2(x, y, z) == G(x, y, z)
  {
    SelectByXor(z, x, y);
  }

  lemma {:induction false} F3IsHAndF4IsI(x: Word, y: Word, z: Word)
    ensures F3(x, y, z) == H(x, y, z) && F4(x, y, z) == I(x, y, z)
  {
  }

  function FastAux(i: nat, x: Word, y: Word, z: Word): Word {
    if i < 16 then F1(x, y, z) else if i < 32 then F2(x, y, z) else if i < 48 then F3(x, y, z) else F4(x, y, z)
  }

  /** The optimised round functions are those of the RFC. */
  lemma {:induction false} RoundFunctionsAgree(i: nat, x: Word, y: Word, z: Word)
    requires i < 64
    ensures FastAux(i, x, y, z) == Aux(i, x, y, z)
  {
    hide F1, F2, F3, F4, F, G, H, I;
    F1IsF(x, y, z);
    F2IsG(x, y, z);
    F3IsHAndF4IsI(x, y, z);
  }

  /** The central step: w += f + in, w = (w rotated by s) + x, where in is a message word plus a constant. */
  function Md5Step(f: Word, w: Word, x: Word, word: Word, t: Word, s: nat): Word
    requires 0 < s < 32
  {
    Rotl(w + (f + (word + t)), s) + x
  }

  lemma {:induction false} StepIsMix(f: Word, w: Word, b: Word, x: Word, t: Word, s: nat)
    requires 0 < s < 32
    ensures Md5Step(f, w, b, x, t, s) == Mix(w, b, f, x, t, s)
  {
    hide Rotl;
    assert w + (f + (x + t)) == w + f + x + t;
  }

  /** Operation i as the source writes it. */
  function FastOperation(x: seq<Word>, st: State, i: nat): State
    requires |x| == 16 && i < 64
  {
    State(st.d, Md5Step(FastAux(i, st.b, st.c, st.d), st.a, st.b, x[K(i)], T(i), Shift(i)), st.b, st.c)
  }

  function FastOperations(x: seq<Word>, st: State, n: nat): State
    requires |x| == 16 && n <= 64
    decreases n
  {
    if n == 0 then st else FastOperation(x, FastOperations(x, st, n - 1), n - 1)
  }

  lemma {:induction false} FastOperationsAgree(x: seq<Word>, st: State, n: nat)
    requires |x| == 16 && n <= 64
    ensures FastOperations(x, st, n) == Operations(x, st, n)
  {
    hide FastAux, Aux, Md5Step, Mix, T, Shift;
    if n > 0 {
      FastOperationsAgree(x, st, n - 1);
      var s := Operations(x, st, n - 1);
      RoundFunctionsAgree(n - 1, s.b, s.c, s.d);
      StepIsMix(Aux(n - 1, s.b, s.c, s.d), s.a, s.b, x[K(n - 1)], T(n - 1), Shift(n - 1));
    }
  }

  /** Unrolls one operation, given the table entries of its position. */
  lemma {:induction false} Line(x: seq<Word>, st: State, n: nat, k: nat, t: Word, s: nat)
    requires |x| == 16 && n < 64 && K(n) == k && T(n) == t && Shift(n) == s
    ensures k < 16 && 0 < s < 32
    ensures var p := FastOperations(x, st, n);
      FastOperations(x, st, n + 1) == State(p.d, Md5Step(FastAux(n, p.b, p.c, p.d), p.a, p.b, x[k], t, s), p.b, p.c)
  {
  }

  lemma {:induction false} FirstTable()
    ensures T(0) == 0xd76aa478 && T(1) == 0xe8c7b756 && T(2) == 0x242070db && T(3) == 0xc1bdceee
    ensures K(0) == 0 && Shift(0) == 7 && K(1) == 1 && Shift(1) == 12 && K(2) == 2 && Shift(2) == 17 && K(3) == 3
        && Shift(3) == 22
    ensures T(4) == 0xf57c0faf && T(5) == 0x4787c62a && T(6) == 0xa8304613 && T(7) == 0xfd469501
    ensures K(4) == 4 && Shift(4) == 7 && K(5) == 5 && Shift(5) == 12 && K(6) == 6 && Shift(6) == 17 && K(7) == 7
        && Shift(7) == 22
    ensures T(8) == 0x698098d8 && T(9) == 0x8b44f7af && T(10) == 0xffff5bb1 && T(11) == 0x895cd7be
    ensures K(8) == 8 && Shift(8) == 7 && K(9) == 9 && Shift(9) == 12 && K(10) == 10 && Shift(10) == 17
        && K(11) == 11 && Shift(11) == 22
    ensures T(12) == 0x6b901122 && T(13) == 0xfd987193 && T(14) == 0xa679438e && T(15) == 0x49b40821
    ensures K(12) == 12 && Shift(12) == 7 && K(13) == 13 && Shift(13) == 12 && K(14) == 14 && Shift(14) == 17
        && K(15) == 15 && Shift(15) == 22
  {
  }

  /** Lines 0 to 15 of the unrolled transform. */
  method FirstRound(st: State, x: seq<Word>, ghost start: State) returns (r: State)
    requires |x| == 16 && st == FastOperations(x, start, 0)
    ensures r == FastOperations(x, start, 16)
  {
    hide Md5Step, F1, F2, F3, F4, T, SineRow, K, Shift, FastOperation, FastOperations;
    FirstTable();
    var a, b, c, d := st.a, st.b, st.c, st.d;
    a := Md5Step(F1(b, c, d), a, b, x[0], 0xd76aa478, 7);
    assert State(d, a, b, c) == FastOperations(x, start, 1) by { Line(x, start, 0, 0, 0xd76aa478, 7); }
    d := Md5Step(F1(a, b, c), d, a, x[1], 0xe8c7b756, 12);
    assert State(c, d, a, b) == FastOperations(x, start, 2) by { Line(x, start, 1, 1, 0xe8c7b756, 12); }
    c := Md5Step(F1(d, a, b), c, d, x[2], 0x242070db, 17);
    assert State(b, c, d, a) == FastOperations(x, start, 3) by { Line(x, start, 2, 2, 0x242070db, 17); }
    b := Md5Step(F1(c, d, a), b, c, x[3], 0xc1bdceee, 22);
    assert State(a, b, c, d) == FastOperations(x, start, 4) by { Line(x, start, 3, 3, 0xc1bdceee, 22); }
    a := Md5Step(F1(b, c, d), a, b, x[4], 0xf57c0faf, 7);
    assert State(d, a, b, c) == FastOperations(x, start, 5) by { Line(x, start, 4, 4, 0xf57c0faf, 7); }
    d := Md5Step(F1(a, b, c), d, a, x[5], 0x4787c62a, 12);
    assert State(c, d, a, b) == FastOperations(x, start, 6) by { Line(x, start, 5, 5, 0x4787c62a, 12); }
    c := Md5Step(F1(d, a, b), c, d, x[6], 0xa8304613, 17);
    assert State(b, c, d, a) == FastOperations(x, start, 7) by { Line(x, start, 6, 6, 0xa8304613, 17); }
    b := Md5Step(F1(c, d, a), b, c, x[7], 0xfd469501, 22);
    assert State(a, b, c, d) == FastOperations(x, start, 8) by { Line(x, start, 7, 7, 0xfd469501, 22); }
    a := Md5Step(F1(b, c, d), a, b, x[8], 0x698098d8, 7);
    assert State(d, a, b, c) == FastOperations(x, start, 9) by { Line(x, start, 8, 8, 0x698098d8, 7); }
    d := Md5Step(F1(a, b, c), d, a, x[9], 0x8b44f7af, 12);
    assert State(c, d, a, b) == FastOperations(x, start, 10) by { Line(x, start, 9, 9, 0x8b44f7af, 12); }
    c := Md5Step(F1(d, a, b), c, d, x[10], 0xffff5bb1, 17);
    assert State(b, c, d, a) == FastOperations(x, start, 11) by { Line(x, start, 10, 10, 0xffff5bb1, 17); }
    b := Md5Step(F1(c, d, a), b, c, x[11], 0x895cd7be, 22);
    assert State(a, b, c, d) == FastOperations(x, start, 12) by { Line(x, start, 11, 11, 0x895cd7be, 22); }
    a := Md5Step(F1(b, c, d), a, b, x[12], 0x6b901122, 7);
    assert State(d, a, b, c) == FastOperations(x, start, 13) by { Line(x, start, 12, 12, 0x6b901122, 7); }
    d := Md5Step(F1(a, b, c), d, a, x[13], 0xfd987193, 12);
    assert State(c, d, a, b) == FastOperations(x, start, 14) by { Line(x, start, 13, 13, 0xfd987193, 12); }
    c := Md5Step(F1(d, a, b), c, d, x[14], 0xa679438e, 17);
    assert State(b, c, d, a) == FastOperations(x, start, 15) by { Line(x, start, 14, 14, 0xa679438e, 17); }
    b := Md5Step(F1(c, d, a), b, c, x[15], 0x49b40821, 22);
    assert State(a, b, c, d) == FastOperations(x, start, 16) by { Line(x, start, 15, 15, 0x49b40821, 22); }
    r := State(a, b, c, d);
  }

  lemma {:induction false} SecondTable()
    ensures T(16) == 0xf61e2562 && T(17) == 0xc040b340 && T(18) == 0x265e5a51 && T(19) == 0xe9b6c7aa
    ensures K(16) == 1 && Shift(16) == 5 && K(17) == 6 && Shift(17) == 9 && K(18) == 11 && Shift(18) == 14
        && K(19) == 0 && Shift(19) == 20
    ensures T(20) == 0xd62f105d && T(21) == 0x02441453 && T(22) == 0xd8a1e681 && T(23) == 0xe7d3fbc8
    ensures K(20) == 5 && Shift(20) == 5 && K(21) == 10 && Shift(21) == 9 && K(22) == 15 && Shift(22) == 14
        && K(23) == 4 && Shift(23) == 20
    ensures T(24) == 0x21e1cde6 && T(25) == 0xc33707d6 && T(26) == 0xf4d50d87 && T(27) == 0x455a14ed
    ensures K(24) == 9 && Shift(24) == 5 && K(25) == 14 && Shift(25) == 9 && K(26) == 3 && Shift(26) == 14
        && K(27) == 8 && Shift(27) == 20
    ensures T(28) == 0xa9e3e905 && T(29) == 0xfcefa3f8 && T(30) == 0x676f02d9 && T(31) == 0x8d2a4c8a
    ensures K(28) == 13 && Shift(28) == 5 && K(29) == 2 && Shift(29) == 9 && K(30) == 7 && Shift(30) == 14
        && K(31) == 12 && Shift(31) == 20
  {
  }

  /** Lines 16 to 31 of the unrolled transform. */
  method SecondRound(st: State, x: seq<Word>, ghost start: State) returns (r: State)
    requires |x| == 16 && st == FastOperations(x, start, 16)
    ensures r == FastOperations(x, start, 32)
  {
    hide Md5Step, F1, F2, F3, F4, T, SineRow, K, Shift, FastOperation, FastOperations;
    SecondTable();
    var a, b, c, d := st.a, st.b, st.c, st.d;
    a := Md5Step(F2(b, c, d), a, b, x[1], 0xf61e2562, 5);
    assert State(d, a, b, c) == FastOperations(x, start, 17) by { Line(x, start, 16, 1, 0xf61e2562, 5); }
    d := Md5Step(F2(a, b, c), d, a, x[6], 0xc040b340, 9);
    assert State(c, d, a, b) == FastOperations(x, start, 18) by { Line(x, start, 17, 6, 0xc040b340, 9); }
    c := Md5Step(F2(d, a, b), c, d, x[11], 0x265e5a51, 14);
    assert State(b, c, d, a) == FastOperations(x, start, 19) by { Line(x, start, 18, 11, 0x265e5a51, 14); }
    b := Md5Step(F2(c, d, a), b, c, x[0], 0xe9b6c7aa, 20);
    assert State(a, b, c, d) == FastOperations(x, start, 20) by { Line(x, start, 19, 0, 0xe9b6c7aa, 20); }
    a := Md5Step(F2(b, c, d), a, b, x[5], 0xd62f105d, 5);
    assert State(d, a, b, c) == FastOperations(x, start, 21) by { Line(x, start, 20, 5, 0xd62f105d, 5); }
    d := Md5Step(F2(a, b, c), d, a, x[10], 0x02441453, 9);
    assert State(c, d, a, b) == FastOperations(x, start, 22) by { Line(x, start, 21, 10, 0x02441453, 9); }
    c := Md5Step(F2(d, a, b), c, d, x[15], 0xd8a1e681, 14);
    assert State(b, c, d, a) == FastOperations(x, start, 23) by { Line(x, start, 22, 15, 0xd8a1e681, 14); }
    b := Md5Step(F2(c, d, a), b, c, x[4], 0xe7d3fbc8, 20);
    assert State(a, b, c, d) == FastOperations(x, start, 24) by { Line(x, start, 23, 4, 0xe7d3fbc8, 20); }
    a := Md5Step(F2(b, c, d), a, b, x[9], 0x21e1cde6, 5);
    assert State(d, a, b, c) == FastOperations(x, start, 25) by { Line(x, start, 24, 9, 0x21e1cde6, 5); }
    d := Md5Step(F2(a, b, c), d, a, x[14], 0xc33707d6, 9);
    assert State(c, d, a, b) == FastOperations(x, start, 26) by { Line(x, start, 25, 14, 0xc33707d6, 9); }
    c := Md5Step(F2(d, a, b), c, d, x[3], 0xf4d50d87, 14);
    assert State(b, c, d, a) == FastOperations(x, start, 27) by { Line(x, start, 26, 3, 0xf4d50d87, 14); }
    b := Md5Step(F2(c, d, a), b, c, x[8], 0x455a14ed, 20);
    assert State(a, b, c, d) == FastOperations(x, start, 28) by { Line(x, start, 27, 8, 0x455a14ed, 20); }
    a := Md5Step(F2(b, c, d), a, b, x[13], 0xa9e3e905, 5);
    assert State(d, a, b, c) == FastOperations(x, start, 29) by { Line(x, start, 28, 13, 0xa9e3e905, 5); }
    d := Md5Step(F2(a, b, c), d, a, x[2], 0xfcefa3f8, 9);
    assert State(c, d, a, b) == FastOperations(x, start, 30) by { Line(x, start, 29, 2, 0xfcefa3f8, 9); }
    c := Md5Step(F2(d, a, b), c, d, x[7], 0x676f02d9, 14);
    assert State(b, c, d, a) == FastOperations(x, start, 31) by { Line(x, start, 30, 7, 0x676f02d9, 14); }
    b := Md5Step(F2(c, d, a), b, c, x[12], 0x8d2a4c8a, 20);
    assert State(a, b, c, d) == FastOperations(x, start, 32) by { Line(x, start, 31, 12, 0x8d2a4c8a, 20); }
    r := State(a, b, c, d);
  }

  lemma {:induction false} ThirdTable()
    ensures T(32) == 0xfffa3942 && T(33) == 0x8771f681 && T(34) == 0x6d9d6122 && T(35) == 0xfde5380c
    ensures K(32) == 5 && Shift(32) == 4 && K(33) == 8 && Shift(33) == 11 && K(34) == 11 && Shift(34) == 16
        && K(35) == 14 && Shift(35) == 23
    ensures T(36) == 0xa4beea44 && T(37) == 0x4bdecfa9 && T(38) == 0xf6bb4b60 && T(39) == 0xbebfbc70
    ensures K(36) == 1 && Shift(36) == 4 && K(37) == 4 && Shift(37) == 11 && K(38) == 7 && Shift(38) == 16
        && K(39) == 10 && Shift(39) == 23
    ensures T(40) == 0x289b7ec6 && T(41) == 0xeaa127fa && T(42) == 0xd4ef3085 && T(43) == 0x04881d05
    ensures K(40) == 13 && Shift(40) == 4 && K(41) == 0 && Shift(41) == 11 && K(42) == 3 && Shift(42) == 16
        && K(43) == 6 && Shift(43) == 23
    ensures T(44) == 0xd9d4d039 && T(45) == 0xe6db99e5 && T(46) == 0x1fa27cf8 && T(47) == 0xc4ac5665
    ensures K(44) == 9 && Shift(44) == 4 && K(45) == 12 && Shift(45) == 11 && K(46) == 15 && Shift(46) == 16
        && K(47) == 2 && Shift(47) == 23
  {
  }

  /** Lines 32 to 47 of the unrolled transform. */
  method ThirdRound(st: State, x: seq<Word>, ghost start: State) returns (r: State)
    requires |x| == 16 && st == FastOperations(x, start, 32)
    ensures r == FastOperations(x, start, 48)
  {
    hide Md5Step, F1, F2, F3, F4, T, SineRow, K, Shift, FastOperation, FastOperations;
    ThirdTable();
    var a, b, c, d := st.a, st.b, st.c, st.d;
    a := Md5Step(F3(b, c, d), a, b, x[5], 0xfffa3942, 4);
    assert State(d, a, b, c) == FastOperations(x, start, 33) by { Line(x, start, 32, 5, 0xfffa3942, 4); }
    d := Md5Step(F3(a, b, c), d, a, x[8], 0x8771f681, 11);
    assert State(c, d, a, b) == FastOperations(x, start, 34) by { Line(x, start, 33, 8, 0x8771f681, 11); }
    c := Md5Step(F3(d, a, b), c, d, x[11], 0x6d9d6122, 16);
    assert State(b, c, d, a) == FastOperations(x, start, 35) by { Line(x, start, 34, 11, 0x6d9d6122, 16); }
    b := Md5Step(F3(c, d, a), b, c, x[14], 0xfde5380c, 23);
    assert State(a, b, c, d) == FastOperations(x, start, 36) by { Line(x, start, 35, 14, 0xfde5380c, 23); }
    a := Md5Step(F3(b, c, d), a, b, x[1], 0xa4beea44, 4);
    assert State(d, a, b, c) == FastOperations(x, start, 37) by { Line(x, start, 36, 1, 0xa4beea44, 4); }
    d := Md5Step(F3(a, b, c), d, a, x[4], 0x4bdecfa9, 11);
    assert State(c, d, a, b) == FastOperations(x, start, 38) by { Line(x, start, 37, 4, 0x4bdecfa9, 11); }
    c := Md5Step(F3(d, a, b), c, d, x[7], 0xf6bb4b60, 16);
    assert State(b, c, d, a) == FastOperations(x, start, 39) by { Line(x, start, 38, 7, 0xf6bb4b60, 16); }
    b := Md5Step(F3(c, d, a), b, c, x[10], 0xbebfbc70, 23);
    assert State(a, b, c, d) == FastOperations(x, start, 40) by { Line(x, start, 39, 10, 0xbebfbc70, 23); }
    a := Md5Step(F3(b, c, d), a, b, x[13], 0x289b7ec6, 4);
    assert State(d, a, b, c) == FastOperations(x, start, 41) by { Line(x, start, 40, 13, 0x289b7ec6, 4); }
    d := Md5Step(F3(a, b, c), d, a, x[0], 0xeaa127fa, 11);
    assert State(c, d, a, b) == FastOperations(x, start, 42) by { Line(x, start, 41, 0, 0xeaa127fa, 11); }
    c := Md5Step(F3(d, a, b), c, d, x[3], 0xd4ef3085, 16);
    assert State(b, c, d, a) == FastOperations(x, start, 43) by { Line(x, start, 42, 3, 0xd4ef3085, 16); }
    b := Md5Step(F3(c, d, a), b, c, x[6], 0x04881d05, 23);
    assert State(a, b, c, d) == FastOperations(x, start, 44) by { Line(x, start, 43, 6, 0x04881d05, 23); }
    a := Md5Step(F3(b, c, d), a, b, x[9], 0xd9d4d039, 4);
    assert State(d, a, b, c) == FastOperations(x, start, 45) by { Line(x, start, 44, 9, 0xd9d4d039, 4); }
    d := Md5Step(F3(a, b, c), d, a, x[12], 0xe6db99e5, 11);
    assert State(c, d, a, b) == FastOperations(x, start, 46) by { Line(x, start, 45, 12, 0xe6db99e5, 11); }
    c := Md5Step(F3(d, a, b), c, d, x[15], 0x1fa27cf8, 16);
    assert State(b, c, d, a) == FastOperations(x, start, 47) by { Line(x, start, 46, 15, 0x1fa27cf8, 16); }
    b := Md5Step(F3(c, d, a), b, c, x[2], 0xc4ac5665, 23);
    assert State(a, b, c, d) == FastOperations(x, start, 48) by { Line(x, start, 47, 2, 0xc4ac5665, 23); }
    r := State(a, b, c, d);
  }

  lemma {:induction false} FourthTable()
    ensures T(48) == 0xf4292244 && T(49) == 0x432aff97 && T(50) == 0xab9423a7 && T(51) == 0xfc93a039
    ensures K(48) == 0 && Shift(48) == 6 && K(49) == 7 && Shift(49) == 10 && K(50) == 14 && Shift(50) == 15
        && K(51) == 5 && Shift(51) == 21
    ensures T(52) == 0x655b59c3 && T(53) == 0x8f0ccc92 && T(54) == 0xffeff47d && T(55) == 0x85845dd1
    ensures K(52) == 12 && Shift(52) == 6 && K(53) == 3 && Shift(53) == 10 && K(54) == 10 && Shift(54) == 15
        && K(55) == 1 && Shift(55) == 21
    ensures T(56) == 0x6fa87e4f && T(57) == 0xfe2ce6e0 && T(58) == 0xa3014314 && T(59) == 0x4e0811a1
    ensures K(56) == 8 && Shift(56) == 6 && K(57) == 15 && Shift(57) == 10 && K(58) == 6 && Shift(58) == 15
        && K(59) == 13 && Shift(59) == 21
    ensures T(60) == 0xf7537e82 && T(61) == 0xbd3af235 && T(62) == 0x2ad7d2bb && T(63) == 0xeb86d391
    ensures K(60) == 4 && Shift(60) == 6 && K(61) == 11 && Shift(61) == 10 && K(62) == 2 && Shift(62) == 15
        && K(63) == 9 && Shift(63) == 21
  {
  }

  /** Lines 48 to 63 of the unrolled transform. */
  method FourthRound(st: State, x: seq<Word>, ghost start: State) returns (r: State)
    requires |x| == 16 && st == FastOperations(x, start, 48)
    ensures r == FastOperations(x, start, 64)
  {
    hide Md5Step, F1, F2, F3, F4, T, SineRow, K, Shift, FastOperation, FastOperations;
    FourthTable();
    var a, b, c, d := st.a, st.b, st.c, st.d;
    a := Md5Step(F4(b, c, d), a, b, x[0], 0xf4292244, 6);
    assert State(d, a, b, c) == FastOperations(x, start, 49) by { Line(x, start, 48, 0, 0xf4292244, 6); }
    d := Md5Step(F4(a, b, c), d, a, x[7], 0x432aff97, 10);
    assert State(c, d, a, b) == FastOperations(x, start, 50) by { Line(x, start, 49, 7, 0x432aff97, 10); }
    c := Md5Step(F4(d, a, b), c, d, x[14], 0xab9423a7, 15);
    assert State(b, c, d, a) == FastOperations(x, start, 51) by { Line(x, start, 50, 14, 0xab9423a7, 15); }
    b := Md5Step(F4(c, d, a), b, c, x[5], 0xfc93a039, 21);
    assert State(a, b, c, d) == FastOperations(x, start, 52) by { Line(x, start, 51, 5, 0xfc93a039, 21); }
    a := Md5Step(F4(b, c, d), a, b, x[12], 0x655b59c3, 6);
    assert State(d, a, b, c) == FastOperations(x, start, 53) by { Line(x, start, 52, 12, 0x655b59c3, 6); }
    d := Md5Step(F4(a, b, c), d, a, x[3], 0x8f0ccc92, 10);
    assert State(c, d, a, b) == FastOperations(x, start, 54) by { Line(x, start, 53, 3, 0x8f0ccc92, 10); }
    c := Md5Step(F4(d, a, b), c, d, x[10], 0xffeff47d, 15);
    assert State(b, c, d, a) == FastOperations(x, start, 55) by { Line(x, start, 54, 10, 0xffeff47d, 15); }
    b := Md5Step(F4(c, d, a), b, c, x[1], 0x85845dd1, 21);
    assert State(a, b, c, d) == FastOperations(x, start, 56) by { Line(x, start, 55, 1, 0x85845dd1, 21); }
    a := Md5Step(F4(b, c, d), a, b, x[8], 0x6fa87e4f, 6);
    assert State(d, a, b, c) == FastOperations(x, start, 57) by { Line(x, start, 56, 8, 0x6fa87e4f, 6); }
    d := Md5Step(F4(a, b, c), d, a, x[15], 0xfe2ce6e0, 10);
    assert State(c, d, a, b) == FastOperations(x, start, 58) by { Line(x, start, 57, 15, 0xfe2ce6e0, 10); }
    c := Md5Step(F4(d, a, b), c, d, x[6], 0xa3014314, 15);
    assert State(b, c, d, a) == FastOperations(x, start, 59) by { Line(x, start, 58, 6, 0xa3014314, 15); }
    b := Md5Step(F4(c, d, a), b, c, x[13], 0x4e0811a1, 21);
    assert State(a, b, c, d) == FastOperations(x, start, 60) by { Line(x, start, 59, 13, 0x4e0811a1, 21); }
    a := Md5Step(F4(b, c, d), a, b, x[4], 0xf7537e82, 6);
    assert State(d, a, b, c) == FastOperations(x, start, 61) by { Line(x, start, 60, 4, 0xf7537e82, 6); }
    d := Md5Step(F4(a, b, c), d, a, x[11], 0xbd3af235, 10);
    assert State(c, d, a, b) == FastOperations(x, start, 62) by { Line(x, start, 61, 11, 0xbd3af235, 10); }
    c := Md5Step(F4(d, a, b), c, d, x[2], 0x2ad7d2bb, 15);
    assert State(b, c, d, a) == FastOperations(x, start, 63) by { Line(x, start, 62, 2, 0x2ad7d2bb, 15); }
    b := Md5Step(F4(c, d, a), b, c, x[9], 0xeb86d391, 21);
    assert State(a, b, c, d) == FastOperations(x, start, 64) by { Line(x, start, 63, 9, 0xeb86d391, 21); }
    r := State(a, b, c, d);
  }

  /** The block transform: adds the four rounds' result to the buffer. */
  method Md5Transform(buf: array<Word>, x: seq<Word>)
    requires buf.Length == 4 && |x| == 16
    modifies buf
    ensures StateOf(buf[..]) == Compress(old(StateOf(buf[..])), x)
  {
    hide FastOperations, Operations, Compress, Plus;
    ghost var start := StateOf(buf[..]);
    NoOperations(x, start);
    var st := FirstRound(State(buf[0], buf[1], buf[2], buf[3]), x, start);
    st := SecondRound(st, x, start);
    st := ThirdRound(st, x, start);
    st := FourthRound(st, x, start);
    FastCompress(x, start);
    var sum := Plus(State(buf[0], buf[1], buf[2], buf[3]), st);
    buf[0] := sum.a;
    buf[1] := sum.b;
    buf[2] := sum.c;
    buf[3] := sum.d;
  }

  lemma {:induction false} FastCompress(x: seq<Word>, st: State)
    requires |x| == 16
    ensures Compress(st, x) == Plus(st, FastOperations(x, st, 64))
  {
    hide FastOperations, Operations;
    FastOperationsAgree(x, st, 64);
  }

  lemma {:induction false} NoOperations(x: seq<Word>, st: State)
    requires |x| == 16
    ensures FastOperations(x, st, 0) == st
  {
  }

  function StateOf(b: seq<Word>): State
    requires |b| == 4
  {
    State(b[0], b[1], b[2], b[3])
  }

  // ----- Streaming

  /** Whole blocks can be absorbed first. */
  lemma {:induction false} AbsorbAppend(st: State, a: seq<Byte>, b: seq<Byte>)
    requires |a| % 64 == 0
    ensures Absorb(st, a + b) == Absorb(Absorb(st, a), b)
    decreases |a|
  {
    hide Compress, Words;
    if a == [] {
      assert a + b == b;
    } else {
      assert (a + b)[..64] == a[..64] && (a + b)[64..] == a[64..] + b;
      AbsorbAppend(Compress(st, Words(a[..64])), a[64..], b);
    }
  }

  lemma {:induction false} AbsorbBlock(st: State, a: seq<Byte>, block: seq<Byte>)
    requires |a| % 64 == 0 && |block| == 64
    ensures Absorb(st, a + block) == Compress(Absorb(st, a), Words(block))
  {
    hide Compress, Words;
    AbsorbAppend(st, a, block);
    assert block[..64] == block && block[64..] == [];
  }

  lemma {:induction false} AbsorbNothing()
    ensures Absorb(INIT, []) == INIT
  {
  }

  method CopyInto(dst: array<Byte>, at: nat, src: seq<Byte>)
    requires at + |src| <= dst.Length
    modifies dst
    ensures dst[..] == old(dst[..at]) + src + old(dst[at + |src|..])
  {
    forall i | 0 <= i < |src| { dst[at + i] := src[i]; }
  }

  /** The two count words hold n modulo 2^64. */
  ghost predicate Counts(hi: nat, lo: nat, n: nat) {
    hi * 0x1_0000_0000 + lo == n % 0x1_0000_0000_0000_0000
  }

  lemma {:induction false} CountResidue(hi: nat, lo: nat, n: nat)
    requires Counts(hi, lo, n)
    ensures lo % 64 == n % 64
  {
  }

  /** Adding with a carry from the low to the high word adds modulo 2^64. */
  lemma {:induction false} CountAdds(hi: nat, lo: nat, n: nat, len: nat)
    requires Counts(hi, lo, n) && hi < TWO_32 && lo < TWO_32 && len < TWO_32
    ensures lo + len < TWO_32 ==> Counts(hi, lo + len, n + len)
    ensures lo + len >= TWO_32 ==> Counts((hi + 1) % TWO_32, lo + len - TWO_32, n + len)
  {
    var q := n / TWO_64;
    var c := hi * TWO_32 + lo + len;
    if c < TWO_64 {
      Arith.DivModUnique(n + len, TWO_64, q, c);
    } else {
      Arith.DivModUnique(n + len, TWO_64, q + 1, c - TWO_64);
    }
  }

  /** Bitwise or of two unsigned values. */
  function BitOr(x: nat, y: nat): nat
    decreases x + y
  {
    if x == 0 && y == 0 then 0 else (if x % 2 == 1 || y % 2 == 1 then 1 else 0) + 2 * BitOr(x / 2, y / 2)
  }

  lemma {:induction false} OrNothing(x: nat)
    ensures BitOr(x, 0) == x
  {
    if x > 0 {
      OrNothing(x / 2);
    }
  }

  /** Where the low bits of x are clear and y has no other bits, or is plus. */
  lemma {:induction false} OrIsPlus(x: nat, y: nat, m: nat)
    requires (m == 1 || m == 2 || m == 4 || m == 8) && x % m == 0 && y < m
    ensures BitOr(x, y) == x + y
    decreases m
  {
    if m == 1 {
      OrNothing(x);
    } else {
      OrIsPlus(x / 2, y / 2, m / 2);
    }
  }

  /** The two words appended by the final block, lo << 3 and hi << 3 | lo >> 29; shifts of unsigned words are
      products modulo 2^32 and quotients. */
  function LengthLo(lo: nat): nat {
    lo * 8 % TWO_32
  }

  function LengthHi(hi: nat, lo: nat): nat {
    BitOr(hi * 8 % TWO_32, lo / 0x2000_0000)
  }

  lemma {:induction false} LengthWords(hi: nat, lo: nat, n: nat)
    requires Counts(hi, lo, n) && hi < TWO_32 && lo < TWO_32
    ensures Le(LengthLo(lo), 4) + Le(LengthHi(hi, lo), 4) == LengthBytes(n)
  {
    hide BitOr;
    OrIsPlus(hi * 8 % TWO_32, lo / 0x2000_0000, 8);
    var v := LengthHi(hi, lo) * TWO_32 + LengthLo(lo);
    var top := hi / 0x2000_0000;
    assert 8 * hi == top * TWO_32 + hi * 8 % TWO_32;
    assert 8 * lo == lo / 0x2000_0000 * TWO_32 + lo * 8 % TWO_32;
    assert hi * 8 % TWO_32 <= TWO_32 - 8 && lo / 0x2000_0000 <= 7;
    var q := n / TWO_64;
    assert 8 * n == TWO_64 * (8 * q + top) + v;
    Arith.DivModUnique(8 * n, TWO_64, 8 * q + top, v);
    Arith.DivModUnique(v, TWO_32, LengthHi(hi, lo), LengthLo(lo));
    Le64Split(v);
  }

  lemma {:induction false} ZerosAppend(a: nat, b: nat)
    ensures Zeros(a) + Zeros(b) == Zeros(a + b)
  {
  }

  /** The padded message ends in one or two blocks, depending on the room left after the tail. */
  lemma {:induction false} PadBlocks(msg: seq<Byte>)
    ensures var r := |msg| % 64; var len := LengthBytes(|msg|);
      Pad(msg) == if r <= 55 then msg + [0x80] + Zeros(55 - r) + len
                  else msg + [0x80] + Zeros(63 - r) + (Zeros(56) + len)
  {
    hide LengthBytes;
    var r := |msg| % 64;
    if r > 55 {
      ZerosAppend(63 - r, 56);
      var len := LengthBytes(|msg|);
      assert msg + [0x80] + (Zeros(63 - r) + Zeros(56)) + len == msg + [0x80] + Zeros(63 - r) + (Zeros(56) + len);
    }
  }

  lemma {:induction false} Regrouped(
      a: seq<Byte>, b: seq<Byte>, c: seq<Byte>, d: seq<Byte>, e: seq<Byte>, f: seq<Byte>)
    ensures a + (b + c + d) + e + f == (a + b) + c + d + (e + f)
    ensures a + (b + c + d) + f == (a + b) + c + d + f
  {
  }

  /** The streaming context on a little-endian machine, where a word of in is its four bytes in memory. */
  class Md5Context {
    const buf: array<Word>
    var bytesLo: nat
    var bytesHi: nat
    const input: array<Byte>
    ghost var msg: seq<Byte>  // everything hashed so far

    ghost predicate Sized()
      reads this
    {
      buf.Length == 4 && input.Length == 64 && bytesLo < TWO_32 && bytesHi < TWO_32
    }

    /** The 64-bit byte count, the unprocessed tail and the chaining value all belong to msg. */
    ghost predicate Valid()
      reads this, buf, input
    {
      && Sized()
      && Counts(bytesHi, bytesLo, |msg|)
      && Holds(msg)
    }

    /** The buffer holds the tail of s and the chaining value covers the rest of it. */
    ghost predicate Holds(s: seq<Byte>)
      requires buf.Length == 4 && input.Length == 64
      reads buf, input
    {
      var r := |s| % 64;
      input[..r] == s[|s| - r..] && StateOf(buf[..]) == Absorb(INIT, s[..|s| - r])
    }

    constructor Md5Init()
      ensures Valid() && msg == [] && fresh(buf) && fresh(input)
    {
      buf := new Word[4];
      input := new Byte[64];
      bytesLo, bytesHi, msg := 0, 0, [];
      new;
      buf[0], buf[1], buf[2], buf[3] := INIT.a, INIT.b, INIT.c, INIT.d;
      StartsValid();
    }

    lemma {:induction false} StartsValid()
      requires Sized() && bytesLo == bytesHi == 0 && msg == []
      requires buf[0] == INIT.a && buf[1] == INIT.b && buf[2] == INIT.c && buf[3] == INIT.d
      ensures Valid()
    {
      hide Absorb;
      AbsorbNothing();
      assert StateOf(buf[..]) == INIT;
    }

    /** Compresses the full input buffer after prefix. */
    method TransformInput(ghost prefix: seq<Byte>)
      requires Sized() && |prefix| % 64 == 0 && StateOf(buf[..]) == Absorb(INIT, prefix)
      modifies buf
      ensures StateOf(buf[..]) == Absorb(INIT, prefix + input[..])
    {
      hide Absorb, Compress, Words;
      Md5Transform(buf, Words(input[..]));
      AbsorbBlock(INIT, prefix, input[..]);
    }

    method AddToCount(len: nat, ghost n: nat)
      requires Sized() && len < TWO_32 && Counts(bytesHi, bytesLo, n)
      modifies `bytesLo, `bytesHi
      ensures Sized() && Counts(bytesHi, bytesLo, n + len)
    {
      hide Counts;
      var t := bytesLo;
      CountAdds(bytesHi, t, n, len);
      bytesLo := (t + len) % TWO_32;
      if bytesLo < t {
        bytesHi := (bytesHi + 1) % TWO_32;
      }
    }

    /** The buffer has room for all of data. */
    method FillPart(ghost was: seq<Byte>, r: nat, data: seq<Byte>)
      requires Sized() && Holds(was) && r == |was| % 64 && r + |data| < 64
      modifies input
      ensures Holds(was + data)
    {
      hide Absorb;
      CopyInto(input, r, data);
      assert |was + data| % 64 == r + |data|;
      assert (was + data)[|was + data| - (r + |data|)..] == was[|was| - r..] + data;
      assert (was + data)[..|was + data| - (r + |data|)] == was[..|was| - r];
    }

    /** Data completes the block in the buffer exactly. */
    method FillBlock(ghost was: seq<Byte>, r: nat, data: seq<Byte>)
      requires Sized() && Holds(was) && r == |was| % 64 && r + |data| == 64
      modifies buf, input
      ensures Holds(was + data) && |was + data| % 64 == 0
    {
      hide Absorb;
      CopyInto(input, r, data);
      TransformInput(was[..|was| - r]);
      assert was[..|was| - r] + input[..] == was + data;
      assert |was + data| % 64 == 0 && (was + data)[..|was + data| - 0] == was + data;
    }

    /** Everything after the odd-sized first chunk: 64-byte blocks, then the remaining bytes. */
    method AbsorbRest(ghost was: seq<Byte>, data: seq<Byte>)
      requires Sized() && Holds(was) && |was| % 64 == 0
      modifies buf, input
      ensures Holds(was + data)
    {
      hide Absorb, Holds;
      var at := 0;
      ghost var done := was;
      assert was == was + data[..0];
      while |data| - at >= 64
        invariant 0 <= at <= |data| && done == was + data[..at] && |done| % 64 == 0
        invariant Holds(done)
      {
        FillBlock(done, 0, data[at..at + 64]);
        assert was + data[..at + 64] == done + data[at..at + 64];
        done := done + data[at..at + 64];
        at := at + 64;
      }
      FillPart(done, 0, data[at..]);
      assert done + data[at..] == was + data;
    }

    /** Hashing data appends it to the message, however the message is split into calls. */
    method Md5Update(data: seq<Byte>)
      requires Valid() && |data| < TWO_32
      modifies this, buf, input
      ensures Valid() && msg == old(msg) + data
    {
      hide Absorb, Holds, Counts;
      ghost var was := msg;
      var t := bytesLo;
      CountResidue(bytesHi, bytesLo, |was|);
      AddToCount(|data|, |was|);
      t := 64 - t % 64;
      msg := was + data;
      if t > |data| {
        FillPart(was, 64 - t, data);
      } else {
        FillBlock(was, 64 - t, data[..t]);
        AbsorbRest(was + data[..t], data[t..]);
        assert was + data[..t] + data[t..] == was + data;
      }
    }

    /** Fills up and compresses a block whose tail leaves no room for the length, and starts the next one. */
    method ExtraBlock(ghost prefix: seq<Byte>, ghost tail: seq<Byte>)
      requires Sized() && |prefix| % 64 == 0 && StateOf(buf[..]) == Absorb(INIT, prefix)
      requires |tail| == bytesLo % 64 + 1 && 56 < |tail| && input[..|tail|] == tail
      modifies buf, input
      ensures StateOf(buf[..]) == Absorb(INIT, prefix + (tail + Zeros(64 - |tail|))) && input[..56] == Zeros(56)
    {
      hide Absorb, Zeros;
      CopyInto(input, bytesLo % 64 + 1, Zeros(63 - bytesLo % 64));
      assert input[..] == tail + Zeros(64 - |tail|);
      TransformInput(prefix);
      CopyInto(input, 0, Zeros(56));
    }

    /** Writes the padding after the tail; when it does not fit, through an extra block. */
    method PadTail(ghost m: seq<Byte>) returns (ghost done: seq<Byte>)
      requires Sized() && Holds(m) && bytesLo % 64 == |m| % 64
      modifies buf, input
      ensures |done| % 64 == 0 && StateOf(buf[..]) == Absorb(INIT, done)
      ensures done + input[..56] + LengthBytes(|m|) == Pad(m)
    {
      hide Absorb, Pad, Zeros, LengthBytes;
      var count := bytesLo % 64;
      done := m[..|m| - count];
      ghost var tail := m[|m| - count..];
      assert done + tail == m;
      PadBlocks(m);
      input[count] := 0x80;
      if count > 55 {
        ExtraBlock(done, tail + [0x80]);
        Regrouped(done, tail, [0x80], Zeros(63 - count), Zeros(56), LengthBytes(|m|));
        done := done + (tail + [0x80] + Zeros(63 - count));
      } else {
        FillUp(tail + [0x80]);
        Regrouped(done, tail, [0x80], Zeros(55 - count), [], LengthBytes(|m|));
      }
    }

    /** Zeros from the tail to the place of the length. */
    method FillUp(ghost tail: seq<Byte>)
      requires Sized() && |tail| == bytesLo % 64 + 1 <= 56 && input[..|tail|] == tail
      modifies input
      ensures input[..56] == tail + Zeros(56 - |tail|)
    {
      CopyInto(input, bytesLo % 64 + 1, Zeros(55 - bytesLo % 64));
    }

    /** The digest of everything hashed; the context is cleared. */
    method Md5Final() returns (digest: seq<Byte>)
      requires Valid()
      modifies this, buf, input
      ensures digest == Digest(old(msg))
    {
      hide Absorb, Pad, Holds, Counts, Output, Le, LengthLo, LengthHi;
      CountResidue(bytesHi, bytesLo, |msg|);
      LengthWords(bytesHi, bytesLo, |msg|);
      ghost var done := PadTail(msg);
      ghost var head := input[..56];
      CopyInto(input, 56, Le(LengthLo(bytesLo), 4));
      CopyInto(input, 60, Le(LengthHi(bytesHi, bytesLo), 4));
      assert input[..] == head + (Le(LengthLo(bytesLo), 4) + Le(LengthHi(bytesHi, bytesLo), 4));
      TransformInput(done);
      assert done + input[..] == done + head + LengthBytes(|msg|);
      digest := Output(StateOf(buf[..]));
      Clear();
    }

    method Clear()
      requires Sized()
      modifies this, buf, input
      ensures bytesLo == bytesHi == 0 && (forall b :: b in buf[..] ==> b == 0)
          && (forall b :: b in input[..] ==> b == 0)
    {
      bytesLo, bytesHi := 0, 0;
      forall i | 0 <= i < buf.Length { buf[i] := 0; }
      forall i | 0 <= i < input.Length { input[i] := 0; }
    }
  }

  function Joined(pieces: seq<seq<Byte>>): seq<Byte> {
    if pieces == [] then [] else Joined(pieces[..|pieces| - 1]) + pieces[|pieces| - 1]
  }

  /** However a message is split into updates, the result is its digest. */
  method HashPieces(pieces: seq<seq<Byte>>) returns (digest: seq<Byte>)
    requires forall i :: 0 <= i < |pieces| ==> |pieces[i]| < TWO_32
    ensures digest == Digest(Joined(pieces))
  {
    hide Digest, Md5Context.Valid, Md5Context.Holds, Md5Context.Sized, Counts, Absorb;
    var md5 := new Md5Context.Md5Init();
    for i := 0 to |pieces|
      invariant fresh(md5) && fresh(md5.buf) && fresh(md5.input) && md5.Valid() && md5.msg == Joined(pieces[..i])
    {
      assert pieces[..i + 1][..i] == pieces[..i];
      md5.Md5Update(pieces[i]);
    }
    assert pieces[..|pieces|] == pieces;
    digest := md5.Md5Final();
  }
}

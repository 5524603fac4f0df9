/** Bytes and little-endian integers. */
module Bytes {
  import Arith

  type Byte = x: int | 0 <= x < 256

  const TWO_32: nat := 0x1_0000_0000
  const TWO_64: nat := 0x1_0000_0000_0000_0000

  /** The n low-order bytes of v, lowest first. */
  function Le(v: nat, n: nat): (r: seq<Byte>)
    ensures |r| == n
    decreases n
  {
    if n == 0 then [] else [v % 256] + Le(v / 256, n - 1)
  }

  function FromLe(s: seq<Byte>): nat {
    if s == [] then 0 else s[0] + 256 * FromLe(s[1..])
  }

  function Pow256(n: nat): (r: nat)
    ensures r > 0
  {
    if n == 0 then 1 else 256 * Pow256(n - 1)
  }

  /** The residue of v modulo b * p splits into its lowest digit to base b and the residue of the rest. */
  lemma {:induction false} LowestDigit(v: nat, b: nat, p: nat)
    requires b > 0 && p > 0
    ensures b * p > 0 && v % (b * p) == v % b + b * (v / b % p)
  {
    Arith.MulMonotone(1, p, b);
    Digits(v, b, p, v / b, v % b, v / b / p, v / b % p);
  }

  lemma {:induction false} Digits(v: nat, b: nat, p: nat, e: nat, f: nat, q: nat, r: nat)
    requires v == b * e + f && f < b && e == p * q + r && r < p && b * p > 0
    ensures v % (b * p) == f + b * r
  {
    var m, x := b * p, p * q;
    Arith.Regroup(b, p, q);
    Arith.Distribute(b, x, r);
    Arith.Distribute(b, r, 1);
    Arith.MulMonotone(r + 1, p, b);
    Arith.DivModUnique(v, m, q, b * r + f);
  }

  /** Reading back n bytes gives the value modulo 256^n. */
  lemma {:induction false} FromLeOfLe(v: nat, n: nat)
    ensures FromLe(Le(v, n)) == v % Pow256(n)
  {
    if n > 0 {
      FromLeOfLe(v / 256, n - 1);
      LowestDigit(v, 256, Pow256(n - 1));
      assert Le(v, n)[1..] == Le(v / 256, n - 1);
    }
  }

  lemma {:induction false} FromLe32(v: nat)
    ensures FromLe(Le(v, 4)) == v % TWO_32
  {
    FromLeOfLe(v, 4);
    assert Pow256(4) == TWO_32;
  }

  /** A 64-bit little-endian integer is its low word followed by its high word. */
  lemma {:induction false} Le64Split(v: nat)
    ensures Le(v, 8) == Le(v % TWO_32, 4) + Le(v / TWO_32, 4)
  {
    Le32Bytes(v);
    Le32Bytes(v % TWO_32);
    LowBytes(v);
    assert v / 0x100_0000 / 256 == v / TWO_32;
    var w := v / 0x1_0000 / 0x100;
    assert Le(v, 8) == [v % 256, v / 256 % 256, v / 0x1_0000 % 256, v / 0x100_0000 % 256] + Le(v / TWO_32, 4) by {
      assert Le(v, 8) == [v % 256] + Le(v / 256, 7);
      assert Le(v / 256, 7) == [v / 256 % 256] + Le(v / 256 / 256, 6);
      assert v / 256 / 256 == v / 0x1_0000;
      assert Le(v / 0x1_0000, 6) == [v / 0x1_0000 % 256] + Le(v / 0x1_0000 / 256, 5);
      assert v / 0x1_0000 / 256 == v / 0x100_0000;
      assert Le(v / 0x100_0000, 5) == [v / 0x100_0000 % 256] + Le(v / 0x100_0000 / 256, 4);
    }
  }

  lemma {:induction false} Le32Bytes(v: nat)
    ensures Le(v, 4) == [v % 256, v / 256 % 256, v / 0x1_0000 % 256, v / 0x100_0000 % 256]
  {
    assert Le(v, 4) == [v % 256] + Le(v / 256, 3);
    assert Le(v / 256, 3) == [v / 256 % 256] + Le(v / 256 / 256, 2);
    assert v / 256 / 256 == v / 0x1_0000;
    assert Le(v / 0x1_0000, 2) == [v / 0x1_0000 % 256] + Le(v / 0x1_0000 / 256, 1);
    assert v / 0x1_0000 / 256 == v / 0x100_0000;
    assert Le(v / 0x100_0000, 1) == [v / 0x100_0000 % 256] + Le(v / 0x100_0000 / 256, 0);
  }

  lemma {:induction false} LowBytes(v: nat)
    ensures var l := v % TWO_32;
      && l % 256 == v % 256 && l / 256 % 256 == v / 256 % 256
      && l / 0x1_0000 % 256 == v / 0x1_0000 % 256 && l / 0x100_0000 % 256 == v / 0x100_0000 % 256
  {
    Arith.ModOfMultiple(v, TWO_32, 256);
    LowByte(v, 256, 0x100_0000);
    LowByte(v, 0x1_0000, 0x1_0000);
    LowByte(v, 0x100_0000, 256);
  }

  lemma {:induction false} LowByte(v: nat, b: nat, p: nat)
    requires b > 0 && p > 0 && b * p == TWO_32 && p % 256 == 0
    ensures v % TWO_32 / b % 256 == v / b % 256
  {
    LowestDigit(v, b, p);
    Arith.DivModUnique(v % TWO_32, b, v / b % p, v % b);
    Arith.ModOfMultiple(v / b, p, 256);
  }

  function Zeros(n: nat): (r: seq<Byte>)
    ensures |r| == n && forall i :: 0 <= i < n ==> r[i] == 0
  {
    if n == 0 then [] else Zeros(n - 1) + [0]
  }
}

/** Structural similarity of two images, in exact arithmetic: the sums of an 8x8 window in 32-bit counters, the
    similarity of two windows computed from the sums, and the average over the windows on the 4x4 grid. */
module Ssim {
  import opened Bytes
  import opened Wrappers
  import Arith

  type Samples = seq<nat>

  // ----- Sums over a window

  function Total(a: Samples, n: nat): nat
    requires n <= |a|
  {
    if n == 0 then 0 else Total(a, n - 1) + a[n - 1]
  }

  function Dot(a: Samples, b: Samples, n: nat): nat
    requires n <= |a| && n <= |b|
  {
    if n == 0 then 0 else Dot(a, b, n - 1) + a[n - 1] * b[n - 1]
  }

  const DEPTH_MAX := 4095

  predicate InDepth(a: Samples) {
    forall i :: 0 <= i < |a| ==> a[i] <= DEPTH_MAX
  }

  /** No sum over a window of samples of at most 12 bits leaves 32 bits. */
  lemma {:induction false} SumsFit(a: Samples, b: Samples, n: nat)
    requires n <= |a| && n <= |b| && n <= 64 && InDepth(a) && InDepth(b)
    ensures Total(a, n) <= n * DEPTH_MAX && Dot(a, b, n) <= n * (DEPTH_MAX * DEPTH_MAX)
    ensures Total(a, n) < TWO_32 && Dot(a, b, n) < TWO_32
  {
    if n > 0 {
      SumsFit(a, b, n - 1);
      Arith.MulMonotone(a[n - 1], DEPTH_MAX, b[n - 1]);
    }
  }

  /** The 64 samples of the 8x8 window at a position, row by row. */
  function Window(img: Samples, at: nat, stride: nat): (w: Samples)
    requires at + 7 * stride + 8 <= |img|
    ensures |w| == 64
  {
    seq(64, k requires 0 <= k < 64 => WindowAt(img, at, stride, k / 8, k % 8))
  }

  function WindowAt(img: Samples, at: nat, stride: nat, i: nat, j: nat): nat
    requires i < 8 && j < 8 && at + 7 * stride + 8 <= |img|
  {
    Arith.MulMonotone(i, 7, stride);
    img[at + i * stride + j]
  }

  /** The five counters of a window pair. */
  datatype Parms = Parms(sumS: nat, sumR: nat, sumSqS: nat, sumSqR: nat, sumSxR: nat)

  /** The sums over the first n samples. */
  function ParmsUpTo(a: Samples, b: Samples, n: nat): Parms
    requires n <= |a| && n <= |b|
  {
    Parms(Total(a, n), Total(b, n), Dot(a, a, n), Dot(b, b, n), Dot(a, b, n))
  }

  function ParmsOf(a: Samples, b: Samples): Parms
    requires |a| == |b|
  {
    ParmsUpTo(a, b, |a|)
  }

  /** 32-bit addition. */
  function Add32(x: nat, y: nat): nat { (x + y) % TWO_32 }

  /** Counts one more pair of samples. */
  function Count(p: Parms, x: nat, y: nat): Parms {
    Parms(Add32(p.sumS, x), Add32(p.sumR, y), Add32(p.sumSqS, x * x), Add32(p.sumSqR, y * y), Add32(p.sumSxR, x * y))
  }

  lemma {:induction false} CountIsExact(a: Samples, b: Samples, k: nat)
    requires k < |a| && k < |b| && k < 64 && InDepth(a) && InDepth(b)
    ensures ParmsUpTo(a, b, k + 1) == Count(ParmsUpTo(a, b, k), a[k], b[k])
  {
    hide Add32, InDepth, Dot, Total;
    NoWrap(a, a, k);
    NoWrap(b, b, k);
    NoWrap(a, b, k);
  }

  lemma {:induction false} NoWrap(a: Samples, b: Samples, k: nat)
    requires k < |a| && k < |b| && k < 64 && InDepth(a) && InDepth(b)
    ensures Total(a, k + 1) == Add32(Total(a, k), a[k]) && Dot(a, b, k + 1) == Add32(Dot(a, b, k), a[k] * b[k])
  {
    hide Add32, InDepth;
    SumsFit(a, b, k + 1);
    Add32Exact(Total(a, k), a[k]);
    Add32Exact(Dot(a, b, k), a[k] * b[k]);
  }

  lemma {:induction false} Add32Exact(x: nat, y: nat)
    requires x + y < TWO_32
    ensures Add32(x, y) == x + y
  {
  }

  lemma {:induction false} WindowElement(img: Samples, at: nat, stride: nat, i: nat, j: nat, row: nat)
    requires at + 7 * stride + 8 <= |img| && i < 8 && j < 8 && row == at + i * stride
    ensures row + j < |img| && Window(img, at, stride)[8 * i + j] == img[row + j]
    ensures row + stride == at + (i + 1) * stride
  {
    Arith.MulMonotone(i, 7, stride);
    assert (8 * i + j) / 8 == i && (8 * i + j) % 8 == j;
    assert (i + 1) * stride == i * stride + stride;
  }

  /** The counters hold the exact sums: none of the 32-bit additions wraps. */
  method SsimParms8x8(s: Samples, sAt: nat, sp: nat, r: Samples, rAt: nat, rp: nat) returns (p: Parms)
    requires sAt + 7 * sp + 8 <= |s| && rAt + 7 * rp + 8 <= |r|
    requires InDepth(Window(s, sAt, sp)) && InDepth(Window(r, rAt, rp))
    ensures p == ParmsOf(Window(s, sAt, sp), Window(r, rAt, rp))
  {
    hide InDepth, Count, ParmsUpTo, Window;
    ghost var a, b := Window(s, sAt, sp), Window(r, rAt, rp);
    p := Parms(0, 0, 0, 0, 0);
    NothingCounted(a, b);
    var u, v := sAt, rAt;
    for i := 0 to 8
      invariant u == sAt + i * sp && v == rAt + i * rp && p == ParmsUpTo(a, b, 8 * i)
    {
      for j := 0 to 8
        invariant p == ParmsUpTo(a, b, 8 * i + j)
      {
        WindowElement(s, sAt, sp, i, j, u);
        WindowElement(r, rAt, rp, i, j, v);
        CountIsExact(a, b, 8 * i + j);
        p := Count(p, s[u + j], r[v + j]);
      }
      WindowElement(s, sAt, sp, i, 0, u);
      WindowElement(r, rAt, rp, i, 0, v);
      u, v := u + sp, v + rp;
    }
  }

  lemma {:induction false} NothingCounted(a: Samples, b: Samples)
    ensures ParmsUpTo(a, b, 0) == Parms(0, 0, 0, 0, 0)
  {
  }

  // ----- The similarity of two windows

  /** The stabilising constants of a bit depth for windows of count samples: a right shift by 12 of a 64-bit product. */
  function C1(bd: nat, count: nat): nat
    requires bd == 8 || bd == 10 || bd == 12
  {
    (if bd == 8 then 26634 else if bd == 10 then 428658 else 6868593) * count * count / 4096
  }

  function C2(bd: nat, count: nat): nat
    requires bd == 8 || bd == 10 || bd == 12
  {
    (if bd == 8 then 239708 else if bd == 10 then 3857925 else 61817334) * count * count / 4096
  }

  /** For 8x8 windows the constants are those of the published index, (0.01 L)^2 and (0.03 L)^2 with L the greatest
      sample, scaled by 64^2 and rounded to the nearest integer. */
  lemma {:induction false} ConstantsArePublished(bd: nat)
    requires bd == 8 || bd == 10 || bd == 12
    ensures var l := if bd == 8 then 255 else if bd == 10 then 1023 else 4095;
      && -5000 <= 10000 * C1(bd, 64) - 4096 * (l * l) <= 5000
      && -5000 <= 10000 * C2(bd, 64) - 4096 * (9 * (l * l)) <= 5000
  {
  }

  // The two factors of the numerator and the two of the denominator.
  function MeansN(p: Parms, c1: nat): int { 2 * p.sumS * p.sumR + c1 }
  function MeansD(p: Parms, c1: nat): int { p.sumS * p.sumS + p.sumR * p.sumR + c1 }
  function SpreadN(p: Parms, count: nat, c2: nat): int { 2 * count * p.sumSxR - 2 * p.sumS * p.sumR + c2 }
  function SpreadD(p: Parms, count: nat, c2: nat): int {
    count * p.sumSqS - p.sumS * p.sumS + count * p.sumSqR - p.sumR * p.sumR + c2
  }

  function Denominator(p: Parms, count: nat, bd: nat): int
    requires bd == 8 || bd == 10 || bd == 12
  {
    MeansD(p, C1(bd, count)) * SpreadD(p, count, C2(bd, count))
  }

  function Similarity(p: Parms, count: nat, bd: nat): real
    requires bd == 8 || bd == 10 || bd == 12
    requires Denominator(p, count, bd) != 0
  {
    (MeansN(p, C1(bd, count)) * SpreadN(p, count, C2(bd, count))) as real / Denominator(p, count, bd) as real
  }

  // ----- Deviations from the mean, scaled by the number of samples

  /** The sum of products of the deviations from s / n and t / n, times n squared. */
  function Dev(a: Samples, b: Samples, s: int, t: int, n: int, k: nat): int
    requires k <= |a| && k <= |b|
  {
    if k == 0 then 0 else Dev(a, b, s, t, n, k - 1) + (n * a[k - 1] - s) * (n * b[k - 1] - t)
  }

  /** The squared distance of the deviations of one window from e times those of the other. */
  function Apart(a: Samples, b: Samples, s: int, t: int, n: int, e: int, k: nat): (r: int)
    requires k <= |a| && k <= |b|
    ensures r >= 0
  {
    if k == 0 then 0
    else
      var d := (n * a[k - 1] - s) - e * (n * b[k - 1] - t);
      SquareSign(d);
      Apart(a, b, s, t, n, e, k - 1) + d * d
  }

  lemma {:induction false} SquareSign(d: int)
    ensures d * d >= 0 && (d * d == 0 <==> d == 0)
  {
    if d > 0 { Arith.MulMonotone(1, d, d); } else if d < 0 { Arith.MulMonotone(1, -d, -d); }
  }

  lemma {:induction false} ProductOfDeviations(n: int, x: int, y: int, s: int, t: int)
    ensures (n * x - s) * (n * y - t) == n * (n * (x * y) - x * t - y * s) + s * t
  {
    assert (n * x - s) * (n * y - t) == (n * x) * (n * y) - (n * x) * t - s * (n * y) + s * t;
    assert (n * x) * (n * y) == n * (n * (x * y));
    assert (n * x) * t == n * (x * t) && s * (n * y) == n * (y * s);
  }

  lemma {:induction false} DevExpands(a: Samples, b: Samples, s: int, t: int, n: int, k: nat)
    requires k <= |a| && k <= |b|
    ensures Dev(a, b, s, t, n, k) == Expansion(n, Dot(a, b, k), Total(a, k), Total(b, k), s, t, k)
  {
    hide Expansion;
    if k == 0 {
      NoExpansion(n, s, t);
    } else {
      DevExpands(a, b, s, t, n, k - 1);
      var x, y := a[k - 1], b[k - 1];
      ExpansionStep(n, Dot(a, b, k - 1), x, y, Total(a, k - 1), Total(b, k - 1), s, t, k);
    }
  }

  /** The sum of the products of k deviations, from the sums of products and of samples. */
  function Expansion(n: int, d: int, u: int, v: int, s: int, t: int, k: int): int {
    n * (n * d - u * t - v * s) + k * (s * t)
  }

  lemma {:induction false} NoExpansion(n: int, s: int, t: int)
    ensures Expansion(n, 0, 0, 0, s, t, 0) == 0
  {
  }

  lemma {:induction false} ExpansionStep(n: int, d: int, x: int, y: int, u: int, v: int, s: int, t: int, k: int)
    ensures Expansion(n, d + x * y, u + x, v + y, s, t, k)
        == Expansion(n, d, u, v, s, t, k - 1) + (n * x - s) * (n * y - t)
  {
    ProductOfDeviations(n, x, y, s, t);
    DevStep(n, d, x * y, u, x, v, y, s, t);
    Arith.OneMore(k - 1, s * t);
  }

  lemma {:induction false} DevStep(n: int, d: int, xy: int, u: int, x: int, v: int, y: int, s: int, t: int)
    ensures n * (n * (d + xy) - (u + x) * t - (v + y) * s) == n * (n * d - u * t - v * s) + n * (n * xy - x * t - y * s)
  {
    assert n * (d + xy) == n * d + n * xy && (u + x) * t == u * t + x * t && (v + y) * s == v * s + y * s;
  }

  /** Around their own means: n times the spread terms of the similarity are sums over deviations. */
  lemma {:induction false} DevFromSums(a: Samples, b: Samples, n: nat)
    requires n == |a| == |b|
    ensures Dev(a, b, Total(a, n), Total(b, n), n, n) == n * (n * Dot(a, b, n) - Total(a, n) * Total(b, n))
  {
    var s, t, d := Total(a, n), Total(b, n), Dot(a, b, n);
    hide Dev, Total, Dot, Expansion;
    DevExpands(a, b, s, t, n, n);
    ExpansionAtMeans(n, d, s, t);
  }

  lemma {:induction false} ExpansionAtMeans(n: int, d: int, s: int, t: int)
    ensures Expansion(n, d, s, t, s, t, n) == n * (n * d - s * t)
  {
    assert t * s == s * t;
    assert n * (n * d - s * t - s * t) + n * (s * t) == n * (n * d - s * t);
  }

  lemma {:induction false} ApartFromDevs(a: Samples, b: Samples, s: int, t: int, n: int, e: int, k: nat)
    requires k <= |a| && k <= |b| && (e == 1 || e == -1)
    ensures Apart(a, b, s, t, n, e, k) == Dev(a, a, s, s, n, k) + Dev(b, b, t, t, n, k) - 2 * e * Dev(a, b, s, t, n, k)
  {
    if k > 0 {
      ApartFromDevs(a, b, s, t, n, e, k - 1);
      SquareApart(n * a[k - 1] - s, n * b[k - 1] - t, e, Dev(a, b, s, t, n, k - 1));
    }
  }

  lemma {:induction false} SquareApart(u: int, v: int, e: int, d: int)
    requires e == 1 || e == -1
    ensures (u - e * v) * (u - e * v) == u * u + v * v - 2 * e * (u * v)
    ensures 2 * e * (d + u * v) == 2 * e * d + 2 * e * (u * v)
  {
    if e == 1 {
      assert (u - v) * (u - v) == u * u + v * v - 2 * (u * v);
    } else {
      assert (u + v) * (u + v) == u * u + v * v + 2 * (u * v);
    }
  }

  lemma {:induction false} ApartZero(a: Samples, b: Samples, s: int, t: int, n: int, k: nat)
    requires k <= |a| && k <= |b|
    ensures Apart(a, b, s, t, n, 1, k) == 0 <==> forall i :: 0 <= i < k ==> n * a[i] - s == n * b[i] - t
  {
    if k > 0 {
      ApartZero(a, b, s, t, n, k - 1);
      SquareSign((n * a[k - 1] - s) - 1 * (n * b[k - 1] - t));
    }
  }

  lemma {:induction false} TotalOfEqual(a: Samples, b: Samples, n: nat)
    requires n <= |a| && n <= |b| && forall i :: 0 <= i < n ==> a[i] == b[i]
    ensures Total(a, n) == Total(b, n)
  {
    if n > 0 { TotalOfEqual(a, b, n - 1); }
  }

  lemma {:induction false} DotCommutes(a: Samples, b: Samples, n: nat)
    requires n <= |a| && n <= |b|
    ensures Dot(a, b, n) == Dot(b, a, n)
  {
    if n > 0 {
      DotCommutes(a, b, n - 1);
      assert a[n - 1] * b[n - 1] == b[n - 1] * a[n - 1];
    }
  }

  /** Cauchy-Schwarz for the spread terms: the numerator's factor is at most the denominator's in size, which is
      positive, and reaches it exactly when the windows differ by a constant. */
  lemma {:induction false} SpreadBounds(a: Samples, b: Samples, n: nat, c2: nat)
    requires 0 < n == |a| == |b| && c2 > 0
    ensures var p := ParmsOf(a, b);
      && 0 < SpreadD(p, n, c2) && -SpreadD(p, n, c2) <= SpreadN(p, n, c2) <= SpreadD(p, n, c2)
      && (SpreadN(p, n, c2) == SpreadD(p, n, c2)
          <==> forall i :: 0 <= i < n ==> n * a[i] - p.sumS == n * b[i] - p.sumR)
  {
    hide Dev, Apart, Dot, Total, SpreadN, SpreadD;
    var p := ParmsOf(a, b);
    var x, z := SpreadsFromDeviations(a, b, n, c2);
    ApartZero(a, b, p.sumS, p.sumR, n, n);
    SignOfMultiple(n, x - 2 * z);
    SignOfMultiple(n, x + 2 * z);
  }

  /** The spread terms without the constant, x for the denominator and 2z for the numerator: n times their
      difference and their sum are the squared distances. */
  lemma {:induction false} SpreadsFromDeviations(a: Samples, b: Samples, n: nat, c2: nat) returns (x: int, z: int)
    requires 0 < n == |a| == |b|
    ensures var p := ParmsOf(a, b);
      && SpreadD(p, n, c2) == x + c2 && SpreadN(p, n, c2) == 2 * z + c2
      && n * (x - 2 * z) == Apart(a, b, p.sumS, p.sumR, n, 1, n)
      && n * (x + 2 * z) == Apart(a, b, p.sumS, p.sumR, n, -1, n)
  {
    hide Dev, Apart, Dot, Total;
    var s, t := Total(a, n), Total(b, n);
    var d, e, f := n * Dot(a, a, n) - s * s, n * Dot(b, b, n) - t * t, n * Dot(a, b, n) - s * t;
    DevFromSums(a, a, n);
    DevFromSums(b, b, n);
    DevFromSums(a, b, n);
    ApartFromDevs(a, b, s, t, n, 1, n);
    ApartFromDevs(a, b, s, t, n, -1, n);
    Distribute(n, d, e, f);
    Doubled(n, Dot(a, b, n), s, t);
    x, z := d + e, f;
  }

  lemma {:induction false} Distribute(n: int, d: int, e: int, f: int)
    ensures n * (d + e - 2 * f) == n * d + n * e - 2 * 1 * (n * f)
    ensures n * (d + e + 2 * f) == n * d + n * e - 2 * -1 * (n * f)
  {
  }

  lemma {:induction false} Doubled(n: int, d: int, s: int, t: int)
    ensures 2 * n * d - 2 * s * t == 2 * (n * d - s * t)
  {
  }

  lemma {:induction false} SignOfMultiple(n: int, v: int)
    requires n > 0 && n * v >= 0
    ensures v >= 0 && (v == 0 <==> n * v == 0)
  {
  }

  /** The mean terms: never above the denominator's factor, equal exactly for equal sums. */
  lemma {:induction false} MeansBounds(p: Parms, c1: nat)
    requires c1 > 0
    ensures 0 < MeansN(p, c1) <= MeansD(p, c1) && (MeansN(p, c1) == MeansD(p, c1) <==> p.sumS == p.sumR)
  {
    var s: int, t: int := p.sumS, p.sumR;
    SquareSign(s - t);
    assert (s - t) * (s - t) == s * s + t * t - 2 * s * t;
  }

  /** Factors bounded in size give a bounded product, equal only when both factors are. */
  lemma {:induction false} ProductBounds(a: int, b: int, c: int, d: int)
    requires 0 < a <= b && 0 < d && -d <= c <= d
    ensures 0 < b * d && -(b * d) <= a * c <= b * d && (a * c == b * d <==> a == b && c == d)
  {
    assert b * d >= a * d by { Arith.MulMonotone(a, b, d); }
    assert a * c <= a * d && -(a * d) <= a * c by {
      assert a * (d - c) >= 0 && a * (d + c) >= 0;
      assert a * (d - c) == a * d - a * c && a * (d + c) == a * d + a * c;
    }
    assert b * d > 0;
    if a * c == b * d {
      assert a * (d - c) == 0;
      assert c == d;
      assert (b - a) * d == 0;
    }
  }

  lemma {:induction false} RatioBounds(n: real, d: real)
    requires 0.0 < d && -d <= n <= d
    ensures -1.0 <= n / d <= 1.0 && (n / d == 1.0 <==> n == d)
  {
    var q := n / d;
    assert q * d == n;
    if n == d {
      assert (q - 1.0) * d == 0.0;
    }
  }

  lemma {:induction false} ConstantsPositive(bd: nat, count: nat)
    requires (bd == 8 || bd == 10 || bd == 12) && count == 64
    ensures C1(bd, count) > 0 && C2(bd, count) > 0
  {
  }

  /** The similarity of two windows of 64 samples is defined, lies between -1 and 1, is 1 exactly for equal
      windows, and does not depend on their order. */
  lemma {:induction false} SimilarityBounds(a: Samples, b: Samples, bd: nat)
    requires |a| == |b| == 64 && (bd == 8 || bd == 10 || bd == 12)
    ensures Denominator(ParmsOf(a, b), 64, bd) > 0 && Denominator(ParmsOf(b, a), 64, bd) > 0
    ensures -1.0 <= Similarity(ParmsOf(a, b), 64, bd) <= 1.0
    ensures Similarity(ParmsOf(a, b), 64, bd) == 1.0 <==> a == b
    ensures Similarity(ParmsOf(a, b), 64, bd) == Similarity(ParmsOf(b, a), 64, bd)
  {
    var c1, c2, p := C1(bd, 64), C2(bd, 64), ParmsOf(a, b);
    ConstantsPositive(bd, 64);
    hide C1, C2, MeansN, MeansD, SpreadN, SpreadD, ParmsOf;
    MeansBounds(p, c1);
    SpreadBounds(a, b, 64, c2);
    EqualWindows(a, b);
    ProductBounds(MeansN(p, c1), MeansD(p, c1), SpreadN(p, 64, c2), SpreadD(p, 64, c2));
    RatioBounds((MeansN(p, c1) * SpreadN(p, 64, c2)) as real, Denominator(p, 64, bd) as real);
    SwappedWindows(a, b, bd);
  }

  lemma {:induction false} EqualWindows(a: Samples, b: Samples)
    requires |a| == |b| == 64
    ensures var p := ParmsOf(a, b);
      a == b <==> p.sumS == p.sumR && forall i :: 0 <= i < 64 ==> 64 * a[i] - p.sumS == 64 * b[i] - p.sumR
  {
    hide Total, Dot;
    var p := ParmsOf(a, b);
    if p.sumS == p.sumR && forall i :: 0 <= i < 64 ==> 64 * a[i] - p.sumS == 64 * b[i] - p.sumR {
      forall i | 0 <= i < 64 ensures a[i] == b[i] {
        assert 64 * a[i] - p.sumS == 64 * b[i] - p.sumR;
      }
    }
  }

  lemma {:induction false} SwappedWindows(a: Samples, b: Samples, bd: nat)
    requires |a| == |b| == 64 && (bd == 8 || bd == 10 || bd == 12)
    ensures Denominator(ParmsOf(a, b), 64, bd) == Denominator(ParmsOf(b, a), 64, bd)
    ensures var (p, q) := (ParmsOf(a, b), ParmsOf(b, a));
      && MeansN(p, C1(bd, 64)) == MeansN(q, C1(bd, 64)) && SpreadN(p, 64, C2(bd, 64)) == SpreadN(q, 64, C2(bd, 64))
  {
    hide C1, C2;
    DotCommutes(a, b, 64);
    var p := ParmsOf(a, b);
    assert 2 * p.sumS * p.sumR == 2 * p.sumR * p.sumS;
  }

  // ----- The average over an image

  /** An image plane holds height rows of stride samples, the last one possibly cut to the width. */
  predicate Holds(img: Samples, stride: nat, w: nat, h: nat) {
    stride >= w && (h > 0 ==> (h - 1) * stride + w <= |img|)
  }

  /** Window positions along one dimension: every fourth sample as long as 8 samples remain. */
  function Steps(n: nat): nat { if n < 8 then 0 else (n - 8) / 4 + 1 }

  lemma {:induction false} PositionInside(img: Samples, stride: nat, w: nat, h: nat, i: nat, j: nat)
    requires Holds(img, stride, w, h) && i + 8 <= h && j + 8 <= w
    ensures i * stride + j + 7 * stride + 8 <= |img|
  {
    Arith.MulMonotone(i + 7, h - 1, stride);
    assert (i + 7) * stride == i * stride + 7 * stride;
  }

  datatype Pair = Pair(img1: Samples, stride1: nat, img2: Samples, stride2: nat, w: nat, h: nat, bd: nat) {
    ghost predicate Valid() {
      Holds(img1, stride1, w, h) && Holds(img2, stride2, w, h) && (bd == 8 || bd == 10 || bd == 12)
    }

    function Swapped(): Pair { Pair(img2, stride2, img1, stride1, w, h, bd) }
  }

  function Window1(p: Pair, i: nat, j: nat): Samples
    requires p.Valid() && i + 8 <= p.h && j + 8 <= p.w
  {
    PositionInside(p.img1, p.stride1, p.w, p.h, i, j);
    Window(p.img1, i * p.stride1 + j, p.stride1)
  }

  /** The similarity of the windows at row i and column j of both images. */
  function At(p: Pair, i: nat, j: nat): (r: real)
    requires p.Valid() && i + 8 <= p.h && j + 8 <= p.w
    ensures -1.0 <= r <= 1.0
    ensures r == 1.0 <==> Window1(p, i, j) == Window1(p.Swapped(), i, j)
  {
    var a, b := Window1(p, i, j), Window1(p.Swapped(), i, j);
    SimilarityBounds(a, b, p.bd);
    Similarity(ParmsOf(a, b), 64, p.bd)
  }

  /** The sum over the first n window positions of row i. */
  function RowSum(p: Pair, i: nat, n: nat): real
    requires p.Valid() && i + 8 <= p.h && n <= Steps(p.w)
  {
    if n == 0 then 0.0 else RowSum(p, i, n - 1) + At(p, i, 4 * (n - 1))
  }

  function GridSum(p: Pair, m: nat): real
    requires p.Valid() && m <= Steps(p.h)
  {
    if m == 0 then 0.0 else GridSum(p, m - 1) + RowSum(p, 4 * (m - 1), Steps(p.w))
  }

  /** The average; None where the division of zero by zero gives not-a-number. */
  function Average(p: Pair): Option<real>
    requires p.Valid()
  {
    var samples := Steps(p.h) * Steps(p.w);
    if samples == 0 then None else Some(GridSum(p, Steps(p.h)) / samples as real)
  }

  lemma {:induction false} WindowInDepth(img: Samples, at: nat, stride: nat)
    requires at + 7 * stride + 8 <= |img| && InDepth(img)
    ensures InDepth(Window(img, at, stride))
  {
    forall k | 0 <= k < 64 ensures Window(img, at, stride)[k] <= DEPTH_MAX {
      Arith.MulMonotone(k / 8, 7, stride);
    }
  }

  method Ssim8x8(s: Samples, sAt: nat, sp: nat, r: Samples, rAt: nat, rp: nat, bd: nat) returns (v: real)
    requires sAt + 7 * sp + 8 <= |s| && rAt + 7 * rp + 8 <= |r| && (bd == 8 || bd == 10 || bd == 12)
    requires InDepth(s) && InDepth(r)
    ensures Denominator(ParmsOf(Window(s, sAt, sp), Window(r, rAt, rp)), 64, bd) > 0
    ensures v == Similarity(ParmsOf(Window(s, sAt, sp), Window(r, rAt, rp)), 64, bd)
  {
    hide Similarity, Denominator, ParmsOf;
    WindowInDepth(s, sAt, sp);
    WindowInDepth(r, rAt, rp);
    hide Window, InDepth;
    var p := SsimParms8x8(s, sAt, sp, r, rAt, rp);
    SimilarityBounds(Window(s, sAt, sp), Window(r, rAt, rp), bd);
    v := Similarity(p, 64, bd);
  }

  lemma {:induction false} AtIs(p: Pair, i: nat, j: nat, at1: nat, at2: nat, v: real)
    requires p.Valid() && i + 8 <= p.h && j + 8 <= p.w && at1 == i * p.stride1 && at2 == i * p.stride2
    requires at1 + j + 7 * p.stride1 + 8 <= |p.img1| && at2 + j + 7 * p.stride2 + 8 <= |p.img2|
    requires var q := ParmsOf(Window(p.img1, at1 + j, p.stride1), Window(p.img2, at2 + j, p.stride2));
      Denominator(q, 64, p.bd) > 0 && v == Similarity(q, 64, p.bd)
    ensures v == At(p, i, j)
  {
    hide Similarity, Denominator, ParmsOf, Holds;
  }

  lemma {:induction false} StepTaken(n: nat, k: nat)
    ensures 4 * k + 8 <= n <==> k < Steps(n)
  {
  }

  /** The windows of one row of the grid, added to the total so far. */
  method SsimRow(p: Pair, i: nat, at1: nat, at2: nat, total: real, samples: nat) returns (sum: real, n: nat)
    requires p.Valid() && InDepth(p.img1) && InDepth(p.img2)
    requires i + 8 <= p.h && at1 == i * p.stride1 && at2 == i * p.stride2
    ensures sum == total + RowSum(p, i, Steps(p.w)) && n == samples + Steps(p.w)
  {
    hide Similarity, Denominator, InDepth, Holds, At, Steps, ParmsOf, Window;
    sum, n := total, samples;
    var j := 0;
    ghost var k := 0;
    StepTaken(p.w, k);
    while j + 8 <= p.w
      invariant j == 4 * k && k <= Steps(p.w) && (j + 8 <= p.w <==> k < Steps(p.w))
      invariant n == samples + k && sum == total + RowSum(p, i, k)
      decreases p.w - j
    {
      PositionInside(p.img1, p.stride1, p.w, p.h, i, j);
      PositionInside(p.img2, p.stride2, p.w, p.h, i, j);
      var v := Ssim8x8(p.img1, at1 + j, p.stride1, p.img2, at2 + j, p.stride2, p.bd);
      AtIs(p, i, j, at1, at2, v);
      sum, n := sum + v, n + 1;
      j, k := j + 4, k + 1;
      StepTaken(p.w, k);
    }
  }

  /** The 8x8 window moves over the grid of every fourth row and column. */
  method Ssim2(p: Pair) returns (r: Option<real>)
    requires p.Valid() && InDepth(p.img1) && InDepth(p.img2)
    ensures r == Average(p)
  {
    hide InDepth, Holds, RowSum, Steps;
    var samples, total := 0, 0.0;
    var at1, at2 := 0, 0;
    var i := 0;
    ghost var m := 0;
    StepTaken(p.h, m);
    while i + 8 <= p.h
      invariant i == 4 * m && m <= Steps(p.h) && (i + 8 <= p.h <==> m < Steps(p.h))
      invariant at1 == i * p.stride1 && at2 == i * p.stride2
      invariant samples == m * Steps(p.w) && total == GridSum(p, m)
      decreases p.h - i
    {
      total, samples := SsimRow(p, i, at1, at2, total, samples);
      assert (m + 1) * Steps(p.w) == m * Steps(p.w) + Steps(p.w);
      at1, at2 := at1 + p.stride1 * 4, at2 + p.stride2 * 4;
      i, m := i + 4, m + 1;
      StepTaken(p.h, m);
    }
    r := if samples == 0 then None else Some(total / samples as real);
  }

  lemma {:induction false} RowBounds(p: Pair, i: nat, n: nat)
    requires p.Valid() && i + 8 <= p.h && n <= Steps(p.w)
    ensures -(n as real) <= RowSum(p, i, n) <= n as real
    ensures RowSum(p, i, n) == n as real <==> forall b :: 0 <= b < n ==> At(p, i, 4 * b) == 1.0
  {
    hide At, Holds;
    if n > 0 {
      RowBounds(p, i, n - 1);
      var v := At(p, i, 4 * (n - 1));
      if RowSum(p, i, n) == n as real {
        assert v == 1.0;
      }
    }
  }

  lemma {:induction false} GridBounds(p: Pair, m: nat)
    requires p.Valid() && m <= Steps(p.h)
    ensures var n := m * Steps(p.w); -(n as real) <= GridSum(p, m) <= n as real
    ensures GridSum(p, m) == (m * Steps(p.w)) as real
      <==> forall a, b :: 0 <= a < m && 0 <= b < Steps(p.w) ==> At(p, 4 * a, 4 * b) == 1.0
  {
    hide At, Holds;
    if m > 0 {
      var n := Steps(p.w);
      GridBounds(p, m - 1);
      RowBounds(p, 4 * (m - 1), n);
      assert m * n == (m - 1) * n + n;
      var row := RowSum(p, 4 * (m - 1), n);
      if GridSum(p, m) == (m * n) as real {
        assert row == n as real;
        forall a, b | 0 <= a < m && 0 <= b < n ensures At(p, 4 * a, 4 * b) == 1.0 {
        }
      }
      if forall a, b :: 0 <= a < m && 0 <= b < n ==> At(p, 4 * a, 4 * b) == 1.0 {
        forall b | 0 <= b < n ensures At(p, 4 * (m - 1), 4 * b) == 1.0 {
          assert 0 <= m - 1 < m;
        }
      }
    }
  }

  /** The part of the image that some window covers: width and height rounded down to multiples of 4. */
  predicate Agree(p: Pair)
    requires p.Valid()
  {
    forall y, x :: 0 <= y < p.h - p.h % 4 && 0 <= x < p.w - p.w % 4 ==> SampleAt(p, y, x) == SampleAt(p.Swapped(), y, x)
  }

  function SampleAt(p: Pair, y: nat, x: nat): nat
    requires p.Valid() && y < p.h && x < p.w
  {
    Arith.MulMonotone(y, p.h - 1, p.stride1);
    p.img1[y * p.stride1 + x]
  }

  lemma {:induction false} WindowSample(p: Pair, i: nat, j: nat, k: nat)
    requires p.Valid() && i + 8 <= p.h && j + 8 <= p.w && k < 64
    ensures Window1(p, i, j)[k] == SampleAt(p, i + k / 8, j + k % 8)
  {
    assert (i + k / 8) * p.stride1 == i * p.stride1 + (k / 8) * p.stride1;
  }

  /** Every covered position lies in some window. */
  function Nearest(n: nat, x: nat): (b: nat)
    requires n >= 8 && x < n - n % 4
    ensures b < Steps(n) && 4 * b <= x < 4 * b + 8 && 4 * b + 8 <= n - n % 4
  {
    if x / 4 < Steps(n) then x / 4 else Steps(n) - 1
  }

  lemma {:induction false} WindowsAgree(p: Pair)
    requires p.Valid() && p.w >= 8 && p.h >= 8
    ensures Agree(p) <==> forall a, b :: 0 <= a < Steps(p.h) && 0 <= b < Steps(p.w) ==> At(p, 4 * a, 4 * b) == 1.0
  {
    hide Holds, Window1, SampleAt, Similarity, Denominator;
    if Agree(p) {
      forall a, b | 0 <= a < Steps(p.h) && 0 <= b < Steps(p.w) ensures At(p, 4 * a, 4 * b) == 1.0 {
        WindowsEqual(p, 4 * a, 4 * b);
      }
    }
    if forall a, b :: 0 <= a < Steps(p.h) && 0 <= b < Steps(p.w) ==> At(p, 4 * a, 4 * b) == 1.0 {
      hide At;
      forall y, x | 0 <= y < p.h - p.h % 4 && 0 <= x < p.w - p.w % 4
          ensures SampleAt(p, y, x) == SampleAt(p.Swapped(), y, x) {
        var a, b := Nearest(p.h, y), Nearest(p.w, x);
        assert At(p, 4 * a, 4 * b) == 1.0;
        SamplesEqual(p, 4 * a, 4 * b, y, x);
      }
    }
  }

  lemma {:induction false} SamplesEqual(p: Pair, i: nat, j: nat, y: nat, x: nat)
    requires p.Valid() && i + 8 <= p.h && j + 8 <= p.w && i <= y < i + 8 && j <= x < j + 8
    requires At(p, i, j) == 1.0
    ensures SampleAt(p, y, x) == SampleAt(p.Swapped(), y, x)
  {
    hide Holds, Window1, SampleAt, Similarity, Denominator;
    var k := 8 * (y - i) + (x - j);
    WindowSample(p, i, j, k);
    WindowSample(p.Swapped(), i, j, k);
  }

  lemma {:induction false} WindowsEqual(p: Pair, i: nat, j: nat)
    requires p.Valid() && Agree(p) && i % 4 == 0 && j % 4 == 0 && i + 8 <= p.h && j + 8 <= p.w
    ensures Window1(p, i, j) == Window1(p.Swapped(), i, j)
  {
    hide Holds, SampleAt;
    assert |Window1(p, i, j)| == 64 && |Window1(p.Swapped(), i, j)| == 64;
    forall k | 0 <= k < 64 ensures Window1(p, i, j)[k] == Window1(p.Swapped(), i, j)[k] {
      WindowSample(p, i, j, k);
      WindowSample(p.Swapped(), i, j, k);
      assert i + k / 8 < p.h - p.h % 4 && j + k % 8 < p.w - p.w % 4;
    }
  }

  lemma {:induction false} GridSwaps(p: Pair, i: nat, m: nat, n: nat)
    requires p.Valid() && p.Swapped().Valid() && m <= Steps(p.h) && n <= Steps(p.w)
    ensures GridSum(p, m) == GridSum(p.Swapped(), m)
    ensures i + 8 <= p.h ==> RowSum(p, i, n) == RowSum(p.Swapped(), i, n)
    decreases m + n
  {
    hide Holds, Similarity, Denominator;
    if m > 0 {
      RowSwaps(p, 4 * (m - 1), Steps(p.w));
      GridSwaps(p, i, m - 1, 0);
    }
    if i + 8 <= p.h { RowSwaps(p, i, n); }
  }

  lemma {:induction false} RowSwaps(p: Pair, i: nat, n: nat)
    requires p.Valid() && i + 8 <= p.h && n <= Steps(p.w)
    ensures RowSum(p, i, n) == RowSum(p.Swapped(), i, n)
  {
    hide Holds, Similarity, Denominator;
    if n > 0 {
      RowSwaps(p, i, n - 1);
      SimilarityBounds(Window1(p, i, 4 * (n - 1)), Window1(p.Swapped(), i, 4 * (n - 1)), p.bd);
    }
  }

  /** The average is defined exactly for images of at least 8 by 8; then it lies between -1 and 1, is 1 exactly
      when the images agree on the part the windows cover, and does not depend on their order. */
  lemma {:induction false} AverageBounds(p: Pair)
    requires p.Valid()
    ensures Average(p).Some? <==> p.w >= 8 && p.h >= 8
    ensures Average(p).Some? ==> -1.0 <= Average(p).value <= 1.0 && (Average(p).value == 1.0 <==> Agree(p))
    ensures p.Swapped().Valid() && Average(p) == Average(p.Swapped())
  {
    hide Holds, At, SampleAt;
    var m, n := Steps(p.h), Steps(p.w);
    if m > 0 && n > 0 {
      Arith.MulMonotone(1, m, n);
      GridBounds(p, m);
      RatioBounds(GridSum(p, m), (m * n) as real);
      WindowsAgree(p);
      GridSwaps(p, 0, m, 0);
    }
  }
}

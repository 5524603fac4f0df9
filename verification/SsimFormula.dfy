/** The structural similarity of two images as it is published: from the means, variances and the covariance of the
    samples of every window, and the plain mean over all windows. */
module SsimFormula {
  import opened Ssim
  import opened Wrappers
  import Arith

  // ----- Statistics of real numbers

  function Sum(x: seq<real>, n: nat): real
    requires n <= |x|
  {
    if n == 0 then 0.0 else Sum(x, n - 1) + x[n - 1]
  }

  function Mean(x: seq<real>): real
    requires |x| > 0
  {
    Sum(x, |x|) / |x| as real
  }

  function Reals(a: Samples): (r: seq<real>)
    ensures |r| == |a|
  {
    seq(|a|, i requires 0 <= i < |a| => a[i] as real)
  }

  /** The products of the deviations from the means. */
  function Deviations(x: seq<real>, y: seq<real>): (r: seq<real>)
    requires |x| == |y| > 0
    ensures |r| == |x|
  {
    seq(|x|, i requires 0 <= i < |x| => (x[i] - Mean(x)) * (y[i] - Mean(y)))
  }

  function Covariance(x: seq<real>, y: seq<real>): real
    requires |x| == |y| > 0
  {
    Mean(Deviations(x, y))
  }

  /** The four factors of the published index. */
  datatype Factors = Factors(meansN: real, spreadN: real, meansD: real, spreadD: real)

  function FactorsOf(x: seq<real>, y: seq<real>, k1: real, k2: real): Factors
    requires |x| == |y| > 0
  {
    Factors(2.0 * Mean(x) * Mean(y) + k1, 2.0 * Covariance(x, y) + k2,
      Mean(x) * Mean(x) + Mean(y) * Mean(y) + k1, Covariance(x, x) + Covariance(y, y) + k2)
  }

  // ----- One window

  lemma {:induction false} SumIsTotal(a: Samples, n: nat)
    requires n <= |a|
    ensures Sum(Reals(a), n) == Total(a, n) as real
  {
    if n > 0 {
      SumIsTotal(a, n - 1);
    }
  }

  lemma {:induction false} MeanIs(a: Samples)
    requires |a| == 64
    ensures 64.0 * Mean(Reals(a)) == Total(a, 64) as real
  {
    SumIsTotal(a, 64);
  }

  lemma {:induction false} ScaledDeviation(x: int, y: int, s: int, t: int, mx: real, my: real)
    requires 64.0 * mx == s as real && 64.0 * my == t as real
    ensures ((64 * x - s) * (64 * y - t)) as real == 4096.0 * ((x as real - mx) * (y as real - my))
  {
    var u, v := x as real - mx, y as real - my;
    assert (64 * x - s) as real == 64.0 * u && (64 * y - t) as real == 64.0 * v;
    assert (64.0 * u) * (64.0 * v) == 4096.0 * (u * v);
  }

  lemma {:induction false} SumOfDeviations(a: Samples, b: Samples, n: nat)
    requires |a| == |b| == 64 && n <= 64
    ensures Dev(a, b, Total(a, 64), Total(b, 64), 64, n) as real == 4096.0 * Sum(Deviations(Reals(a), Reals(b)), n)
  {
    hide Total, Mean;
    if n > 0 {
      SumOfDeviations(a, b, n - 1);
      MeanIs(a);
      MeanIs(b);
      ScaledDeviation(a[n - 1], b[n - 1], Total(a, 64), Total(b, 64), Mean(Reals(a)), Mean(Reals(b)));
    }
  }

  /** The covariance from the sums: n times the sum of products less the product of the sums, scaled by n squared. */
  lemma {:induction false} CovarianceIs(a: Samples, b: Samples)
    requires |a| == |b| == 64
    ensures 4096.0 * Covariance(Reals(a), Reals(b)) == (64 * Dot(a, b, 64) - Total(a, 64) * Total(b, 64)) as real
  {
    hide Total, Dot, Dev, Sum;
    SumOfDeviations(a, b, 64);
    DevFromSums(a, b, 64);
    assert |Deviations(Reals(a), Reals(b))| == 64;
  }

  /** All four factors are those of the source, scaled by 64 squared. */
  lemma {:induction false} FactorsScaled(a: Samples, b: Samples, c1: nat, c2: nat)
    requires |a| == |b| == 64
    ensures var (p, f) := (ParmsOf(a, b), FactorsOf(Reals(a), Reals(b), c1 as real / 4096.0, c2 as real / 4096.0));
      && MeansN(p, c1) as real == 4096.0 * f.meansN && SpreadN(p, 64, c2) as real == 4096.0 * f.spreadN
      && MeansD(p, c1) as real == 4096.0 * f.meansD && SpreadD(p, 64, c2) as real == 4096.0 * f.spreadD
  {
    hide Total, Dot, Mean, Covariance;
    MeanIs(a);
    MeanIs(b);
    CovarianceIs(a, b);
    CovarianceIs(a, a);
    CovarianceIs(b, b);
    var mx, my, s, t := Mean(Reals(a)), Mean(Reals(b)), Total(a, 64), Total(b, 64);
    ScaledProduct(mx, my, s, t);
    ScaledProduct(mx, mx, s, s);
    ScaledProduct(my, my, t, t);
    assert 2 * 64 * Dot(a, b, 64) - 2 * s * t == 2 * (64 * Dot(a, b, 64) - s * t);
    assert 2.0 * mx * my == 2.0 * (mx * my) && 2 * s * t == 2 * (s * t);
  }

  lemma {:induction false} ScaledProduct(mx: real, my: real, s: int, t: int)
    requires 64.0 * mx == s as real && 64.0 * my == t as real
    ensures (s * t) as real == 4096.0 * (mx * my)
  {
    assert (64.0 * mx) * (64.0 * my) == 4096.0 * (mx * my);
  }

  lemma {:induction false} RatioScaled(a: real, b: real, c: real, d: real)
    requires c * d != 0.0
    ensures (4096.0 * c) * (4096.0 * d) != 0.0
    ensures ((4096.0 * a) * (4096.0 * b)) / ((4096.0 * c) * (4096.0 * d)) == (a * b) / (c * d)
  {
    var m, n, k := a * b, c * d, 16777216.0;
    assert (4096.0 * a) * (4096.0 * b) == k * m && (4096.0 * c) * (4096.0 * d) == k * n;
    assert k * n != 0.0;
    assert (m / n) * (k * n) == k * m;
  }

  /** The index of two windows of 64 samples, with the stabilising constants of the bit depth. */
  function Index(a: Samples, b: Samples, bd: nat): real
    requires |a| == |b| == 64 && (bd == 8 || bd == 10 || bd == 12)
    requires IndexDefined(a, b, bd)
  {
    var f := FactorsOf(Reals(a), Reals(b), C1(bd, 64) as real / 4096.0, C2(bd, 64) as real / 4096.0);
    (f.meansN * f.spreadN) / (f.meansD * f.spreadD)
  }

  predicate IndexDefined(a: Samples, b: Samples, bd: nat)
    requires |a| == |b| == 64 && (bd == 8 || bd == 10 || bd == 12)
  {
    var f := FactorsOf(Reals(a), Reals(b), C1(bd, 64) as real / 4096.0, C2(bd, 64) as real / 4096.0);
    f.meansD * f.spreadD != 0.0
  }

  /** The similarity computed from the five counters is the published index. */
  lemma {:induction false} SimilarityIsIndex(a: Samples, b: Samples, bd: nat)
    requires |a| == |b| == 64 && (bd == 8 || bd == 10 || bd == 12)
    ensures Denominator(ParmsOf(a, b), 64, bd) != 0 && IndexDefined(a, b, bd)
    ensures Similarity(ParmsOf(a, b), 64, bd) == Index(a, b, bd)
  {
    hide ParmsOf, MeansN, MeansD, SpreadN, SpreadD, C1, C2, FactorsOf;
    SimilarityBounds(a, b, bd);
    var c1, c2, p := C1(bd, 64), C2(bd, 64), ParmsOf(a, b);
    FactorsScaled(a, b, c1, c2);
    var f := FactorsOf(Reals(a), Reals(b), c1 as real / 4096.0, c2 as real / 4096.0);
    var n, d := MeansN(p, c1) * SpreadN(p, 64, c2), MeansD(p, c1) * SpreadD(p, 64, c2);
    ProductAsReal(MeansN(p, c1), SpreadN(p, 64, c2));
    ProductAsReal(MeansD(p, c1), SpreadD(p, 64, c2));
    assert f.meansD * f.spreadD != 0.0 by {
      assert (4096.0 * f.meansD) * (4096.0 * f.spreadD) == 16777216.0 * (f.meansD * f.spreadD);
    }
    RatioScaled(f.meansN, f.spreadN, f.meansD, f.spreadD);
  }

  lemma {:induction false} ProductAsReal(x: int, y: int)
    ensures (x * y) as real == x as real * y as real
  {
  }

  // ----- The whole image

  /** The 64 samples of the first image from row i and column j on. */
  function Patch(p: Pair, i: nat, j: nat): (w: Samples)
    requires p.Valid() && i + 8 <= p.h && j + 8 <= p.w
    ensures |w| == 64
  {
    seq(64, k requires 0 <= k < 64 => SampleAt(p, i + k / 8, j + k % 8))
  }

  lemma {:induction false} PatchIsWindow(p: Pair, i: nat, j: nat)
    requires p.Valid() && i + 8 <= p.h && j + 8 <= p.w
    ensures Patch(p, i, j) == Window1(p, i, j)
  {
    hide SampleAt, Holds;
    assert |Window1(p, i, j)| == 64;
    forall k | 0 <= k < 64 ensures Patch(p, i, j)[k] == Window1(p, i, j)[k] {
      WindowSample(p, i, j, k);
    }
  }

  /** The index of the two windows at a position. */
  function Score(p: Pair, i: nat, j: nat): real
    requires p.Valid() && p.Swapped().Valid() && i + 8 <= p.h && j + 8 <= p.w
  {
    SimilarityIsIndex(Patch(p, i, j), Patch(p.Swapped(), i, j), p.bd);
    Index(Patch(p, i, j), Patch(p.Swapped(), i, j), p.bd)
  }

  lemma {:induction false} ScoreIsAt(p: Pair, i: nat, j: nat)
    requires p.Valid() && p.Swapped().Valid() && i + 8 <= p.h && j + 8 <= p.w
    ensures Score(p, i, j) == At(p, i, j)
  {
    hide Patch, Similarity, Index, Denominator, IndexDefined;
    PatchIsWindow(p, i, j);
    PatchIsWindow(p.Swapped(), i, j);
    SimilarityIsIndex(Patch(p, i, j), Patch(p.Swapped(), i, j), p.bd);
  }

  /** Position number k of the windows, row by row, on every fourth row and column that leaves room for one. */
  function Row(p: Pair, k: nat): nat
    requires p.w >= 8
  {
    4 * (k / ((p.w - 4) / 4))
  }

  function Column(p: Pair, k: nat): nat
    requires p.w >= 8
  {
    4 * (k % ((p.w - 4) / 4))
  }

  function Positions(p: Pair): nat
    requires p.w >= 8 && p.h >= 8
  {
    (p.h - 4) / 4 * ((p.w - 4) / 4)
  }

  lemma {:induction false} PositionFits(p: Pair, k: nat)
    requires p.w >= 8 && p.h >= 8 && k < Positions(p)
    ensures Row(p, k) + 8 <= p.h && Column(p, k) + 8 <= p.w
  {
    var m, n := (p.h - 4) / 4, (p.w - 4) / 4;
    assert k == n * (k / n) + k % n;
    if k / n >= m {
      Arith.MulMonotone(m, k / n, n);
    }
  }

  /** The scores of all windows. */
  function Scores(p: Pair): (r: seq<real>)
    requires p.Valid() && p.Swapped().Valid() && p.w >= 8 && p.h >= 8
    ensures |r| == Positions(p)
  {
    seq(Positions(p), k requires 0 <= k < Positions(p) =>
      PositionFits(p, k); Score(p, Row(p, k), Column(p, k)))
  }

  lemma {:induction false} ScoreAt(p: Pair, x: seq<real>, k: nat, m: nat, n: nat)
    requires p.Valid() && p.Swapped().Valid() && p.w >= 8 && p.h >= 8 && 4 * m + 8 <= p.h && 4 * n + 8 <= p.w
    requires x == Scores(p) && k < |x| && k == m * Steps(p.w) + n
    ensures x[k] == At(p, 4 * m, 4 * n)
  {
    hide Score, At, Holds;
    assert Steps(p.w) == (p.w - 4) / 4;
    Arith.DivModUnique(k, Steps(p.w), m, n);
    PositionFits(p, k);
    ScoreIsAt(p, 4 * m, 4 * n);
  }

  lemma {:induction false} RowOfScores(p: Pair, x: seq<real>, base: nat, m: nat, n: nat)
    requires p.Valid() && p.Swapped().Valid() && p.w >= 8 && p.h >= 8 && m < Steps(p.h) && n <= Steps(p.w)
    requires x == Scores(p) && base == m * Steps(p.w) && base + n <= |x|
    ensures Sum(x, base + n) == Sum(x, base) + RowSum(p, 4 * m, n)
    decreases n
  {
    hide Scores, At;
    if n > 0 {
      RowOfScores(p, x, base, m, n - 1);
      ScoreAt(p, x, base + n - 1, m, n - 1);
    }
  }

  lemma {:induction false} GridOfScores(p: Pair, x: seq<real>, m: nat, base: nat)
    requires p.Valid() && p.Swapped().Valid() && p.w >= 8 && p.h >= 8 && m <= Steps(p.h)
    requires x == Scores(p) && base == m * Steps(p.w) <= |x|
    ensures Sum(x, base) == GridSum(p, m)
    decreases m
  {
    hide Scores, RowSum;
    if m > 0 {
      Arith.OneMore(m - 1, Steps(p.w));
      var before := base - Steps(p.w);
      GridOfScores(p, x, m - 1, before);
      RowOfScores(p, x, before, m - 1, Steps(p.w));
    }
  }

  /** The result for two images of at least 8 by 8 is the plain mean of the published index over all windows. */
  lemma {:induction false} AverageIsMean(p: Pair)
    requires p.Valid() && p.w >= 8 && p.h >= 8
    ensures p.Swapped().Valid() && |Scores(p)| > 0 && Average(p) == Some(Mean(Scores(p)))
  {
    hide Scores, GridSum, Sum;
    var m, n := Steps(p.h), Steps(p.w);
    Arith.MulMonotone(1, m, n);
    assert m == (p.h - 4) / 4 && n == (p.w - 4) / 4;
    GridOfScores(p, Scores(p), m, m * n);
  }
}

/** What the chroma conversions do to every sample: sums over six neighbours, with the taps in numbers, rounded and
    clamped to a byte. */
module Y4mPixels {
  import opened Bytes
  import opened Y4mFilters
  import opened Y4mConvert
  import opened Y4mPlaneLaws
  import opened Y4mInput
  import Y4mReader
  import Arith

  // ----- Sums over a plane

  /** The byte nearest to a sum scaled by 128. */
  ghost predicate Nearest(r: Byte, sum: int) {
    (128 * r <= sum + 64 || r == 0) && (sum + 64 < 128 * (r + 1) || r == 255)
  }

  lemma {:induction false} OneNearest(r: Byte, t: Byte, sum: int)
    requires Nearest(r, sum) && Nearest(t, sum)
    ensures r == t
  {
  }

  function Clamp(i: int, n: nat): nat
    requires n > 0
  {
    if i < 0 then 0 else if i >= n then n - 1 else i
  }

  /** The sample in row y and column x, or the nearest one inside the plane. */
  function Sample(p: seq<Byte>, w: nat, h: nat, y: int, x: int): Byte
    requires |p| == h * w && w > 0 && h > 0
  {
    InsidePlane(w, h, Clamp(y, h), Clamp(x, w));
    p[Clamp(y, h) * w + Clamp(x, w)]
  }

  lemma {:induction false} InsidePlane(w: nat, h: nat, y: nat, x: nat)
    requires y < h && x < w
    ensures y * w + x < h * w
  {
    Arith.OneMore(y, w);
    Arith.MulMonotone(y + 1, h, w);
  }

  function ShiftRight(p: seq<Byte>, w: nat, h: nat, y: int, x: int): int
    requires |p| == h * w && w > 0 && h > 0
  {
    4 * Sample(p, w, h, y, x - 2) - 17 * Sample(p, w, h, y, x - 1) + 114 * Sample(p, w, h, y, x)
    + 35 * Sample(p, w, h, y, x + 1) - 9 * Sample(p, w, h, y, x + 2) + Sample(p, w, h, y, x + 3)
  }

  function ShiftDown(p: seq<Byte>, w: nat, h: nat, y: int, x: int): int
    requires |p| == h * w && w > 0 && h > 0
  {
    4 * Sample(p, w, h, y - 2, x) - 17 * Sample(p, w, h, y - 1, x) + 114 * Sample(p, w, h, y, x)
    + 35 * Sample(p, w, h, y + 1, x) - 9 * Sample(p, w, h, y + 2, x) + Sample(p, w, h, y + 3, x)
  }

  function ShiftUp(p: seq<Byte>, w: nat, h: nat, y: int, x: int): int
    requires |p| == h * w && w > 0 && h > 0
  {
    Sample(p, w, h, y - 3, x) - 9 * Sample(p, w, h, y - 2, x) + 35 * Sample(p, w, h, y - 1, x)
    + 114 * Sample(p, w, h, y, x) - 17 * Sample(p, w, h, y + 1, x) + 4 * Sample(p, w, h, y + 2, x)
  }

  function HalveRight(p: seq<Byte>, w: nat, h: nat, y: int, x: int): int
    requires |p| == h * w && w > 0 && h > 0
  {
    3 * Sample(p, w, h, y, 2 * x - 2) - 17 * Sample(p, w, h, y, 2 * x - 1) + 78 * Sample(p, w, h, y, 2 * x)
    + 78 * Sample(p, w, h, y, 2 * x + 1) - 17 * Sample(p, w, h, y, 2 * x + 2) + 3 * Sample(p, w, h, y, 2 * x + 3)
  }

  function HalveDown(p: seq<Byte>, w: nat, h: nat, y: int, x: int): int
    requires |p| == h * w && w > 0 && h > 0
  {
    3 * Sample(p, w, h, 2 * y - 2, x) - 17 * Sample(p, w, h, 2 * y - 1, x) + 78 * Sample(p, w, h, 2 * y, x)
    + 78 * Sample(p, w, h, 2 * y + 1, x) - 17 * Sample(p, w, h, 2 * y + 2, x) + 3 * Sample(p, w, h, 2 * y + 3, x)
  }

  datatype Pass = Right | Down | Up | HalfRight | HalfDown

  function SumOf(k: Pass, p: seq<Byte>, w: nat, h: nat, y: int, x: int): int
    requires |p| == h * w && w > 0 && h > 0
  {
    match k
    case Right => ShiftRight(p, w, h, y, x)
    case Down => ShiftDown(p, w, h, y, x)
    case Up => ShiftUp(p, w, h, y, x)
    case HalfRight => HalveRight(p, w, h, y, x)
    case HalfDown => HalveDown(p, w, h, y, x)
  }

  /** Plane r of width dw and height dh is plane p of width w and height h after one pass. */
  ghost predicate Passed(k: Pass, r: seq<Byte>, dw: nat, dh: nat, p: seq<Byte>, w: nat, h: nat) {
    && |p| == h * w && |r| == dh * dw && (dw > 0 && dh > 0 ==> w > 0 && h > 0)
    && forall y, x :: 0 <= y < dh && 0 <= x < dw ==> PassedAt(k, r, dw, dh, p, w, h, y, x)
  }

  ghost predicate PassedAt(k: Pass, r: seq<Byte>, dw: nat, dh: nat, p: seq<Byte>, w: nat, h: nat, y: nat, x: nat)
    requires |p| == h * w && |r| == dh * dw && w > 0 && h > 0 && y < dh && x < dw
  {
    InsidePlane(dw, dh, y, x);
    Nearest(r[y * dw + x], SumOf(k, p, w, h, y, x))
  }

  /** The result of a pass is determined. */
  lemma {:induction false} PassUnique(
      k: Pass, r: seq<Byte>, t: seq<Byte>, dw: nat, dh: nat, p: seq<Byte>, w: nat, h: nat)
    requires Passed(k, r, dw, dh, p, w, h) && Passed(k, t, dw, dh, p, w, h)
    ensures r == t
  {
    hide SumOf, Nearest;
    forall i | 0 <= i < |r| ensures r[i] == t[i] {
      InPlane(i, dw, dh);
      var y, x := i / dw, i % dw;
      assert i == y * dw + x;
      assert PassedAt(k, r, dw, dh, p, w, h, y, x) && PassedAt(k, t, dw, dh, p, w, h, y, x);
      OneNearest(r[i], t[i], SumOf(k, p, w, h, y, x));
    }
  }

  // ----- The line filters are such sums

  lemma {:induction false} RoundedIsNearest(sum: int)
    ensures Nearest(Rounded(sum), sum)
  {
  }

  lemma {:induction false} RowSample(p: seq<Byte>, w: nat, h: nat, y: nat, i: int)
    requires |p| == h * w && y < h && w > 0
    ensures (y + 1) * w <= |p| && RowOf(p, w, y) != [] && At(RowOf(p, w, y), i) == Sample(p, w, h, y, i)
  {
    Arith.OneMore(y, w);
    Arith.MulMonotone(y + 1, h, w);
    RowSize(p, w, y);
    var c := Clamp(i, w);
    InsidePlane(w, h, y, c);
    var row := RowOf(p, w, y);
    assert |row| == w && row[c] == p[y * w + c];
    assert At(row, i) == row[c];
    assert Sample(p, w, h, y, i) == p[y * w + c];
  }

  lemma {:induction false} ColumnSample(p: seq<Byte>, w: nat, h: nat, x: nat, i: int)
    requires |p| == h * w && h > 0 && x < w
    ensures At(ColOf(p, w, h, x), i) == Sample(p, w, h, i, x)
  {
    hide Line;
    ColumnInside(w, h, x, 0, |p|);
    PixelIndex(p, w, h, Clamp(i, h), x);
  }

  lemma {:induction false} RowSums(p: seq<Byte>, w: nat, h: nat, y: nat, x: nat)
    requires |p| == h * w && y < h && w > 0
    ensures (y + 1) * w <= |p| && RowOf(p, w, y) != []
    ensures Convolve(SHIFT, RowOf(p, w, y), x) == ShiftRight(p, w, h, y, x)
    ensures Convolve(HALVE, RowOf(p, w, y), 2 * x) == HalveRight(p, w, h, y, x)
  {
    hide RowOf, Sample, At;
    RowSample(p, w, h, y, 0);
    forall i: int ensures At(RowOf(p, w, y), i) == Sample(p, w, h, y, i) {
      RowSample(p, w, h, y, i);
    }
  }

  lemma {:induction false} ColumnSums(p: seq<Byte>, w: nat, h: nat, y: nat, x: nat)
    requires |p| == h * w && h > 0 && x < w
    ensures var c := ColOf(p, w, h, x);
      && c != []
      && Convolve(SHIFT, c, y) == ShiftDown(p, w, h, y, x) && Convolve(SLIDE_UP, c, y) == ShiftUp(p, w, h, y, x)
      && Convolve(HALVE, c, 2 * y) == HalveDown(p, w, h, y, x)
  {
    hide ColOf, Sample, At;
    forall i: int ensures At(ColOf(p, w, h, x), i) == Sample(p, w, h, i, x) {
      ColumnSample(p, w, h, x, i);
    }
  }

  // ----- Whole planes

  lemma {:induction false} RowsPass(k: Pass, p: seq<Byte>, w: nat, h: nat)
    requires |p| == h * w && (k == Right || k == HalfRight)
    ensures var (f, dw) := if k == Right then (Shift, w) else (Halve, Half(w));
      Passed(k, MapRows(f, p, w, h), dw, h, p, w, h)
  {
    hide MapRows, Convolve, Rounded, Nearest, RowOf, SumOf;
    var f, dw := if k == Right then Shift else Halve, if k == Right then w else Half(w);
    RowsKeepSize(f, p, w, h, dw);
    var r := MapRows(f, p, w, h);
    forall y, x | 0 <= y < h && 0 <= x < dw ensures PassedAt(k, r, dw, h, p, w, h, y, x) {
      MapRowsPixel(f, p, w, h, dw, h, y, x);
      RowPassed(k, p, w, h, y, x);
    }
  }

  lemma {:induction false} RowPassed(k: Pass, p: seq<Byte>, w: nat, h: nat, y: nat, x: nat)
    requires |p| == h * w && y < h && (k == Right || k == HalfRight)
    requires x < if k == Right then w else Half(w)
    ensures (y + 1) * w <= |p|
    ensures var line := RowOf(p, w, y);
      var s := if k == Right then Shift(line) else Halve(line);
      x < |s| && Nearest(s[x], SumOf(k, p, w, h, y, x))
  {
    hide Convolve, Rounded, Nearest, RowOf, ShiftRight, HalveRight;
    RowSums(p, w, h, y, x);
    RowSize(p, w, y);
    RoundedIsNearest(SumOf(k, p, w, h, y, x));
  }

  lemma {:induction false} ColumnPassed(k: Pass, p: seq<Byte>, w: nat, h: nat, y: nat, x: nat)
    requires |p| == h * w && x < w && (k == Down || k == Up || k == HalfDown)
    requires y < if k == HalfDown then Half(h) else h
    ensures var c := ColOf(p, w, h, x);
      var s := if k == Down then Shift(c) else if k == Up then SlideUp(c) else Halve(c);
      y < |s| && Nearest(s[y], SumOf(k, p, w, h, y, x))
  {
    hide Convolve, Rounded, Nearest, ColOf, ShiftDown, ShiftUp, HalveDown;
    ColumnSums(p, w, h, y, x);
    RoundedIsNearest(SumOf(k, p, w, h, y, x));
  }

  function FilterOf(k: Pass): LineFilter {
    if k == Up then SlideUp else if k == HalfDown || k == HalfRight then Halve else Shift
  }

  lemma {:induction false} ColumnsPass(k: Pass, p: seq<Byte>, w: nat, h: nat, dh: nat)
    requires |p| == h * w && (k == Down || k == Up || k == HalfDown) && dh == (if k == HalfDown then Half(h) else h)
    ensures Yields(FilterOf(k), p, w, h, dh) && Passed(k, MapCols(FilterOf(k), p, w, h, dh), w, dh, p, w, h)
  {
    hide MapCols, Shift, SlideUp, Halve, Nearest, ColOf, SumOf, Yields;
    var f := FilterOf(k);
    if k == HalfDown { YieldsHalf(p, w, h); } else { YieldsSame(f, p, w, h); }
    var r := MapCols(f, p, w, h, dh);
    MapColsColumns(f, p, w, h, dh);
    forall y, x | 0 <= y < dh && 0 <= x < w ensures PassedAt(k, r, w, dh, p, w, h, y, x) {
      PixelIndex(r, w, dh, y, x);
      assert ColOf(r, w, dh, x) == f(ColOf(p, w, h, x));
      ColumnPassed(k, p, w, h, y, x);
    }
  }

  // ----- The conversions

  /** A source chroma plane, the plane between the two passes and the 4:2:0 plane of a conversion. 420paldv: a quarter
      sample right, then up or down. 422jpeg: halved down. 422: a quarter sample right, then halved down. 444: halved
      right, then down. */
  ghost predicate IsConversion(c: Converter, up: bool, p: seq<Byte>, q: seq<Byte>, r: seq<Byte>, w: nat, h: nat) {
    var cw, ch := (w + 1) / 2, (h + 1) / 2;
    match c
    case Convert42xpaldv => Passed(Right, q, cw, ch, p, cw, ch) && Passed(if up then Up else Down, r, cw, ch, q, cw, ch)
    case Convert422jpeg => Passed(HalfDown, r, cw, ch, p, cw, h)
    case Convert422 => Passed(Right, q, cw, h, p, cw, h) && Passed(HalfDown, r, cw, ch, q, cw, h)
    case Convert444 => Passed(HalfRight, q, cw, h, p, w, h) && Passed(HalfDown, r, cw, ch, q, cw, h)
    case _ => false
  }

  /** Of the two planes, C_b goes up and C_r goes down in 420paldv. */
  lemma {:induction false} ConvertedSamples(c: Converter, which: nat, p: seq<Byte>, w: nat, h: nat)
      returns (q: seq<Byte>)
    requires c.Convert42xpaldv? || c.Convert422jpeg? || c.Convert422? || c.Convert444?
    requires |p| == SrcHeight(c, h) * SrcWidth(c, w)
    ensures IsConversion(c, which == 1, p, q, Converted(c, which, p, w, h), w, h)
  {
    hide MapRows, MapCols, Passed, Yields, Shift, SlideUp, Halve;
    var cw, ch := Half(w), Half(h);
    q := p;
    match c {
      case Convert42xpaldv =>
        RowsPass(Right, p, cw, ch);
        RowsKeepSize(Shift, p, cw, ch, cw);
        q := MapRows(Shift, p, cw, ch);
        ColumnsPass(if which == 1 then Up else Down, q, cw, ch, ch);
      case Convert422jpeg => ColumnsPass(HalfDown, p, cw, h, ch);
      case Convert422 =>
        RowsPass(Right, p, cw, h);
        RowsKeepSize(Shift, p, cw, h, cw);
        q := MapRows(Shift, p, cw, h);
        ColumnsPass(HalfDown, q, cw, h, ch);
      case Convert444 =>
        RowsPass(HalfRight, p, w, h);
        RowsKeepSize(Halve, p, w, h, cw);
        q := MapRows(Halve, p, w, h);
        ColumnsPass(HalfDown, q, cw, h, ch);
    }
  }

  /** The frame buffer after a conversion: first the plane made of the first source plane, C_b, then that of C_r. */
  lemma {:induction false} ChromaSamples(c: Converter, aux: seq<Byte>, w: nat, h: nat)
      returns (q1: seq<Byte>, q2: seq<Byte>)
    requires c.Convert42xpaldv? || c.Convert422jpeg? || c.Convert422? || c.Convert444?
    requires |aux| == 2 * SrcChroma(c, w, h)
    ensures var (r, n) := (ConvertedChroma(c, aux, w, h), (h + 1) / 2 * ((w + 1) / 2));
      && |r| == 2 * n
      && IsConversion(c, true, aux[..|aux| / 2], q1, r[..n], w, h)
      && IsConversion(c, false, aux[|aux| / 2..], q2, r[n..], w, h)
  {
    hide Converted, IsConversion;
    var s := SrcChroma(c, w, h);
    q1 := ConvertedSamples(c, 1, aux[..s], w, h);
    q2 := ConvertedSamples(c, 2, aux[s..], w, h);
    var r, n := ConvertedChroma(c, aux, w, h), Half(h) * Half(w);
    assert r[..n] == Converted(c, 1, aux[..s], w, h) && r[n..] == Converted(c, 2, aux[s..], w, h);
  }

  // ----- Frames fetched from a file

  predicate Converts(c: Converter) { c.Convert42xpaldv? || c.Convert422jpeg? || c.Convert422? || c.Convert444? }

  /** The frame buffer after a fetch: what was read comes first; the rest is grey for mono, and for a conversion the
      planes made of the two source planes read after that. */
  lemma {:induction false} FetchedSamples(c: Config, w: nat, h: nat, s: seq<Byte>)
      returns (t: seq<Byte>, q1: seq<Byte>, q2: seq<Byte>)
    requires Consistent(c, w, h) && Y4mReader.FetchSpec(c, w, h, s).Frame?
    ensures Y4mReader.SkipFrameHeader(s) == Y4mReader.Data(t) && c.dstReadSz + c.auxReadSz <= |t|
    ensures var r := Y4mReader.FetchSpec(c, w, h, s);
      && c.dstReadSz <= |r.picture| && r.picture[..c.dstReadSz] == t[..c.dstReadSz]
      && r.rest == t[c.dstReadSz + c.auxReadSz..]
    ensures var more := Y4mReader.FetchSpec(c, w, h, s).picture[c.dstReadSz..];
      && (c.convert == ConvertMono ==>
          |more| == 2 * ((h + 1) / 2 * ((w + 1) / 2)) && forall i :: 0 <= i < |more| ==> more[i] == 128)
      && (c.convert == ConvertNull ==> more == [])
      && (Converts(c.convert) ==>
          var aux, n := t[c.dstReadSz..c.dstReadSz + c.auxReadSz], (h + 1) / 2 * ((w + 1) / 2);
          && |more| == 2 * n
          && IsConversion(c.convert, true, aux[..|aux| / 2], q1, more[..n], w, h)
          && IsConversion(c.convert, false, aux[|aux| / 2..], q2, more[n..], w, h))
  {
    hide IsConversion, ConvertedChroma, DstBufSz;
    t := Y4mReader.SkipFrameHeader(s).rest;
    var data, aux := t[..c.dstReadSz], t[c.dstReadSz..c.dstReadSz + c.auxReadSz];
    q1, q2 := [], [];
    if Converts(c.convert) {
      q1, q2 := ChromaSamples(c.convert, aux, w, h);
    }
    assert Y4mReader.Finished(c, w, h, data, aux)[..c.dstReadSz] == data;
  }
}

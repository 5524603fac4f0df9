/** Laws of the plane transforms: the 420paldv conversion treats C_b as the vertical mirror image of C_r, and
    every conversion leaves flat planes flat. */
module Y4mPlaneLaws {
  import opened Bytes
  import opened Y4mFilters
  import opened Y4mConvert
  import Arith

  function Pixel(p: seq<Byte>, w: nat, h: nat, y: nat, x: nat): Byte
    requires |p| == h * w && x < w && y < h
  {
    ColOf(p, w, h, x)[y]
  }

  lemma {:induction false} PixelIndex(p: seq<Byte>, w: nat, h: nat, y: nat, x: nat)
    requires |p| == h * w && x < w && y < h
    ensures y * w + x < |p| && Pixel(p, w, h, y, x) == p[y * w + x]
  {
    ColumnInside(w, h, x, 0, |p|);
    assert Off(x, w, y) == y * w + x;
  }

  lemma {:induction false} SamePlane(p: seq<Byte>, q: seq<Byte>, w: nat, h: nat)
    requires |p| == |q| == h * w
    requires forall y, x :: 0 <= y < h && 0 <= x < w ==> Pixel(p, w, h, y, x) == Pixel(q, w, h, y, x)
    ensures p == q
  {
    hide Pixel;
    forall i | 0 <= i < |p| ensures p[i] == q[i] {
      InPlane(i, w, h);
      assert Pixel(p, w, h, i / w, i % w) == Pixel(q, w, h, i / w, i % w);
      PixelIndex(p, w, h, i / w, i % w);
      PixelIndex(q, w, h, i / w, i % w);
    }
  }

  /** Row y of a row-filtered plane is the filtered row y. */
  lemma {:induction false} MapRowsPixel(
      f: LineFilter, p: seq<Byte>, w: nat, h: nat, dw: nat, n: nat, y: nat, x: nat)
    requires n <= h && |p| == h * w && y < n && x < dw
    requires (f == Shift && dw == w) || (f == Halve && dw == Half(w))
    ensures n * w <= |p| && |MapRows(f, p, w, n)| == n * dw && y * dw + x < n * dw && (y + 1) * w <= |p|
    ensures |f(RowOf(p, w, y))| == dw && MapRows(f, p, w, n)[y * dw + x] == f(RowOf(p, w, y))[x]
    decreases n
  {
    hide Shift, SlideUp, Halve, RowOf;
    Arith.MulMonotone(n, h, w);
    Arith.MulMonotone(y + 1, n, w);
    Arith.MulMonotone(n - 1, n, w);
    Arith.MulMonotone(y + 1, n, dw);
    Arith.OneMore(y, dw);
    Arith.OneMore(y, w);
    RowsKeepSize(f, p, w, n, dw);
    RowsKeepSize(f, p, w, n - 1, dw);
    RowSize(p, w, y);
    ShiftLength(RowOf(p, w, y));
    if y < n - 1 {
      MapRowsPixel(f, p, w, h, dw, n - 1, y, x);
    }
  }

  /** The plane upside down. */
  function Flip(p: seq<Byte>, w: nat, h: nat): (r: seq<Byte>)
    requires |p| == h * w
    ensures |r| == |p|
  {
    seq(h * w, i requires 0 <= i < h * w => FlipAt(p, w, h, i))
  }

  function FlipAt(p: seq<Byte>, w: nat, h: nat, i: nat): Byte
    requires |p| == h * w && i < h * w
  {
    InPlane(i, w, h);
    Pixel(p, w, h, h - 1 - i / w, i % w)
  }

  lemma {:induction false} FlipPixel(p: seq<Byte>, w: nat, h: nat, y: nat, x: nat)
    requires |p| == h * w && x < w && y < h
    ensures Pixel(Flip(p, w, h), w, h, y, x) == Pixel(p, w, h, h - 1 - y, x)
  {
    hide Pixel;
    PixelIndex(Flip(p, w, h), w, h, y, x);
    Arith.DivModUnique(y * w + x, w, y, x);
  }

  lemma {:induction false} FlipColumn(p: seq<Byte>, w: nat, h: nat, x: nat)
    requires |p| == h * w && x < w
    ensures ColOf(Flip(p, w, h), w, h, x) == Reversed(ColOf(p, w, h, x))
  {
    forall y | 0 <= y < h ensures ColOf(Flip(p, w, h), w, h, x)[y] == Reversed(ColOf(p, w, h, x))[y] {
      FlipPixel(p, w, h, y, x);
    }
  }

  lemma {:induction false} FlipRow(p: seq<Byte>, w: nat, h: nat, y: nat)
    requires |p| == h * w && y < h
    ensures (y + 1) * w <= |p| && (h - y) * w <= |p| && RowOf(Flip(p, w, h), w, y) == RowOf(p, w, h - 1 - y)
  {
    Arith.MulMonotone(y + 1, h, w);
    Arith.MulMonotone(h - y, h, w);
    var m := h - 1 - y;
    assert (m + 1) * w == m * w + w && (y + 1) * w == y * w + w;
    forall x | 0 <= x < w ensures RowOf(Flip(p, w, h), w, y)[x] == RowOf(p, w, m)[x] {
      FlipPixel(p, w, h, y, x);
      PixelIndex(Flip(p, w, h), w, h, y, x);
      PixelIndex(p, w, h, m, x);
    }
  }

  lemma {:induction false} MapRowsFlipPixel(p: seq<Byte>, w: nat, h: nat, y: nat, x: nat)
    requires |p| == h * w && y < h && x < w
    ensures |MapRows(Shift, p, w, h)| == h * w == |MapRows(Shift, Flip(p, w, h), w, h)|
    ensures Pixel(MapRows(Shift, Flip(p, w, h), w, h), w, h, y, x)
        == Pixel(Flip(MapRows(Shift, p, w, h), w, h), w, h, y, x)
  {
    hide MapRows, Shift, Flip, Pixel, RowOf;
    RowsKeepSize(Shift, p, w, h, w);
    RowsKeepSize(Shift, Flip(p, w, h), w, h, w);
    var q, r := MapRows(Shift, Flip(p, w, h), w, h), MapRows(Shift, p, w, h);
    FlipPixel(r, w, h, y, x);
    PixelIndex(q, w, h, y, x);
    PixelIndex(r, w, h, h - 1 - y, x);
    MapRowsPixel(Shift, Flip(p, w, h), w, h, w, h, y, x);
    MapRowsPixel(Shift, p, w, h, w, h, h - 1 - y, x);
    FlipRow(p, w, h, y);
  }

  /** Filtering rows commutes with turning the plane upside down. */
  lemma {:induction false} MapRowsFlip(p: seq<Byte>, w: nat, h: nat)
    requires |p| == h * w
    ensures |MapRows(Shift, p, w, h)| == h * w
    ensures MapRows(Shift, Flip(p, w, h), w, h) == Flip(MapRows(Shift, p, w, h), w, h)
  {
    hide MapRows, Shift, Flip, Pixel;
    RowsKeepSize(Shift, p, w, h, w);
    RowsKeepSize(Shift, Flip(p, w, h), w, h, w);
    forall y, x | 0 <= y < h && 0 <= x < w
      ensures Pixel(MapRows(Shift, Flip(p, w, h), w, h), w, h, y, x)
          == Pixel(Flip(MapRows(Shift, p, w, h), w, h), w, h, y, x)
    {
      MapRowsFlipPixel(p, w, h, y, x);
    }
    SamePlane(MapRows(Shift, Flip(p, w, h), w, h), Flip(MapRows(Shift, p, w, h), w, h), w, h);
  }

  lemma {:induction false} MapColsFlipPixel(p: seq<Byte>, w: nat, h: nat, y: nat, x: nat)
    requires |p| == h * w && y < h && x < w
    requires Yields(SlideUp, p, w, h, h) && Yields(Shift, Flip(p, w, h), w, h, h)
    ensures Pixel(MapCols(SlideUp, p, w, h, h), w, h, y, x)
        == Pixel(Flip(MapCols(Shift, Flip(p, w, h), w, h, h), w, h), w, h, y, x)
  {
    hide MapCols, Flip, Filtered, ColOf, Yields;
    var f := Flip(p, w, h);
    var q, r := MapCols(SlideUp, p, w, h, h), MapCols(Shift, f, w, h, h);
    MapColsColumns(SlideUp, p, w, h, h);
    MapColsColumns(Shift, f, w, h, h);
    FlipPixel(r, w, h, y, x);
    FlipColumn(p, w, h, x);
    SlideUpMirrorsSlideDown(ColOf(p, w, h, x));
    assert ColOf(q, w, h, x) == SlideUp(ColOf(p, w, h, x));
    assert ColOf(r, w, h, x) == Shift(Reversed(ColOf(p, w, h, x)));
  }

  /** Sliding columns up is sliding them down in the plane turned upside down. */
  lemma {:induction false} MapColsFlip(p: seq<Byte>, w: nat, h: nat)
    requires |p| == h * w
    ensures Yields(SlideUp, p, w, h, h) && Yields(Shift, Flip(p, w, h), w, h, h)
    ensures MapCols(SlideUp, p, w, h, h) == Flip(MapCols(Shift, Flip(p, w, h), w, h, h), w, h)
  {
    hide MapCols, Flip, Yields, Pixel;
    YieldsSame(SlideUp, p, w, h);
    YieldsSame(Shift, Flip(p, w, h), w, h);
    forall y, x | 0 <= y < h && 0 <= x < w
      ensures Pixel(MapCols(SlideUp, p, w, h, h), w, h, y, x)
          == Pixel(Flip(MapCols(Shift, Flip(p, w, h), w, h, h), w, h), w, h, y, x)
    {
      MapColsFlipPixel(p, w, h, y, x);
    }
    SamePlane(MapCols(SlideUp, p, w, h, h), Flip(MapCols(Shift, Flip(p, w, h), w, h, h), w, h), w, h);
  }

  /** The 420paldv conversion of C_b is its conversion of C_r in the vertical mirror. */
  lemma {:induction false} PaldvPlanesMirror(p: seq<Byte>, w: nat, h: nat)
    requires |p| == Half(h) * Half(w)
    ensures Converted(Convert42xpaldv, 1, p, w, h)
         == Flip(Converted(Convert42xpaldv, 2, Flip(p, Half(w), Half(h)), w, h), Half(w), Half(h))
  {
    hide MapRows, MapCols, Flip;
    MapRowsFlip(p, Half(w), Half(h));
    MapColsFlip(MapRows(Shift, p, Half(w), Half(h)), Half(w), Half(h));
  }

  // ----- Flat planes

  lemma {:induction false} MapRowsFlat(f: LineFilter, p: seq<Byte>, w: nat, h: nat, c: Byte)
    requires h * w <= |p| && Constant(p, c) && (f == Shift || f == Halve)
    ensures Constant(MapRows(f, p, w, h), c)
  {
    if h > 0 {
      Arith.MulMonotone(h - 1, h, w);
      MapRowsFlat(f, p, w, h - 1, c);
      ConstantsStay(RowOf(p, w, h - 1), c);
    }
  }

  lemma {:induction false} LineFlat(f: LineFilter, s: seq<Byte>, c: Byte)
    requires Constant(s, c) && (f == Shift || f == SlideUp || f == Halve)
    ensures Constant(f(s), c)
  {
    ConstantsStay(s, c);
  }

  lemma {:induction false} ColumnFlat(p: seq<Byte>, w: nat, h: nat, x: nat, c: Byte)
    requires h * w == |p| && x < w && Constant(p, c)
    ensures Constant(ColOf(p, w, h, x), c)
  {
    ColumnInside(w, h, x, 0, |p|);
  }

  lemma {:induction false} MapColsAtFlat(f: LineFilter, p: seq<Byte>, w: nat, h: nat, dh: nat, i: nat, c: Byte)
    requires h * w == |p| && Yields(f, p, w, h, dh) && i < dh * w && Constant(p, c)
        && (f == Shift || f == SlideUp || f == Halve)
    ensures MapColsAt(f, p, w, h, dh, i) == c
  {
    hide ColOf, Shift, SlideUp, Halve;
    InPlane(i, w, dh);
    var x := i % w;
    ColumnFlat(p, w, h, x, c);
    LineFlat(f, ColOf(p, w, h, x), c);
  }

  lemma {:induction false} MapColsFlat(f: LineFilter, p: seq<Byte>, w: nat, h: nat, dh: nat, c: Byte)
    requires h * w == |p| && Yields(f, p, w, h, dh) && Constant(p, c) && (f == Shift || f == SlideUp || f == Halve)
    ensures Constant(MapCols(f, p, w, h, dh), c)
  {
    hide MapColsAt;
    forall i | 0 <= i < dh * w ensures MapColsAt(f, p, w, h, dh, i) == c {
      MapColsAtFlat(f, p, w, h, dh, i, c);
    }
  }

  /** Whatever the conversion and the picture size, a flat chroma plane stays flat with the same value. */
  lemma {:induction false} FlatPlanesStayFlat(k: Converter, which: nat, p: seq<Byte>, w: nat, h: nat, c: Byte)
    requires k.Convert42xpaldv? || k.Convert422jpeg? || k.Convert422? || k.Convert444?
    requires |p| == SrcHeight(k, h) * SrcWidth(k, w) && Constant(p, c)
    ensures Constant(Converted(k, which, p, w, h), c)
  {
    hide MapRows, MapCols;
    var cw, ch := Half(w), Half(h);
    match k {
      case Convert42xpaldv =>
        RowsKeepSize(Shift, p, cw, ch, cw);
        MapRowsFlat(Shift, p, cw, ch, c);
        var q := MapRows(Shift, p, cw, ch);
        YieldsSame(SlideUp, q, cw, ch);
        YieldsSame(Shift, q, cw, ch);
        MapColsFlat(SlideUp, q, cw, ch, ch, c);
        MapColsFlat(Shift, q, cw, ch, ch, c);
      case Convert422jpeg =>
        YieldsHalf(p, cw, h);
        MapColsFlat(Halve, p, cw, h, ch, c);
      case Convert422 =>
        RowsKeepSize(Shift, p, cw, h, cw);
        MapRowsFlat(Shift, p, cw, h, c);
        YieldsHalf(MapRows(Shift, p, cw, h), cw, h);
        MapColsFlat(Halve, MapRows(Shift, p, cw, h), cw, h, ch, c);
      case Convert444 =>
        RowsKeepSize(Halve, p, w, h, cw);
        MapRowsFlat(Halve, p, w, h, c);
        YieldsHalf(MapRows(Halve, p, w, h), cw, h);
        MapColsFlat(Halve, MapRows(Halve, p, w, h), cw, h, ch, c);
    }
  }
}

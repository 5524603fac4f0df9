/** The chroma converters of the Y4M reader on whole planes: horizontal filters run over every row, vertical
    filters over every column, through scratch planes that share the source's buffer. */
module Y4mConvert {
  import opened Bytes
  import opened Y4mFilters
  import opened Slices
  import Arith

  // ----- Planes as two-dimensional transforms

  type LineFilter = seq<Byte> -> seq<Byte>

  function Shift(s: seq<Byte>): seq<Byte> { Filtered(SHIFT, s) }
  function SlideUp(s: seq<Byte>): seq<Byte> { Filtered(SLIDE_UP, s) }
  function Halve(s: seq<Byte>): seq<Byte> { Halved(s) }

  function RowOf(p: seq<Byte>, w: nat, y: nat): seq<Byte>
    requires (y + 1) * w <= |p|
  {
    assert y * w <= (y + 1) * w;
    p[y * w..(y + 1) * w]
  }

  /** The filter applied to each of the first h rows of a plane of width w. */
  function MapRows(f: LineFilter, p: seq<Byte>, w: nat, h: nat): seq<Byte>
    requires h * w <= |p|
  {
    if h == 0 then []
    else
      assert (h - 1) * w <= h * w;
      MapRows(f, p, w, h - 1) + f(RowOf(p, w, h - 1))
  }

  /** Columns of a plane of width w and height h stay inside it. */
  lemma {:induction false} ColumnInside(w: nat, h: nat, x: nat, base: nat, len: nat)
    requires x < w && base + h * w <= len
    ensures Inside(len, base + x, w, h)
  {
    var b := base + x;
    forall y | 0 <= y < h ensures Off(b, w, y) < len {
      Arith.MulMonotone(y + 1, h, w);
    }
  }

  function ColOf(p: seq<Byte>, w: nat, h: nat, x: nat): (r: seq<Byte>)
    requires h * w == |p| && x < w
    ensures |r| == h
  {
    ColumnInside(w, h, x, 0, |p|);
    Line(p, x, w, h)
  }

  /** d is p with the filter applied to each column. */
  ghost predicate IsMapCols(f: LineFilter, p: seq<Byte>, w: nat, h: nat, d: seq<Byte>, dh: nat)
    requires h * w == |p| && dh * w == |d|
  {
    forall x :: 0 <= x < w ==> ColOf(d, w, dh, x) == f(ColOf(p, w, h, x))
  }

  /** All filtered columns have height dh. */
  ghost predicate Yields(f: LineFilter, p: seq<Byte>, w: nat, h: nat, dh: nat)
    requires h * w == |p|
  {
    forall x :: 0 <= x < w ==> |f(ColOf(p, w, h, x))| == dh
  }

  lemma {:induction false} InPlane(i: nat, w: nat, h: nat)
    requires i < h * w
    ensures w > 0 && i / w < h && i % w < w
  {
    assert w > 0;
    assert i == w * (i / w) + i % w;
    if i / w >= h {
      Arith.MulMonotone(h, i / w, w);
    }
  }

  function MapColsAt(f: LineFilter, p: seq<Byte>, w: nat, h: nat, dh: nat, i: nat): Byte
    requires h * w == |p| && Yields(f, p, w, h, dh) && i < dh * w
  {
    InPlane(i, w, dh);
    f(ColOf(p, w, h, i % w))[i / w]
  }

  /** The filter applied to each column; dh is the height of the filtered columns. */
  function MapCols(f: LineFilter, p: seq<Byte>, w: nat, h: nat, dh: nat): (r: seq<Byte>)
    requires h * w == |p| && Yields(f, p, w, h, dh)
    ensures |r| == dh * w && forall i :: 0 <= i < |r| ==> r[i] == MapColsAt(f, p, w, h, dh, i)
  {
    seq(dh * w, i requires 0 <= i < dh * w => MapColsAt(f, p, w, h, dh, i))
  }

  /** A plane whose columns are the filtered columns is the transformed plane. */
  lemma {:induction false} MapColsUnique(f: LineFilter, p: seq<Byte>, w: nat, h: nat, d: seq<Byte>, dh: nat)
    requires h * w == |p| && dh * w == |d| && IsMapCols(f, p, w, h, d, dh)
    ensures Yields(f, p, w, h, dh) && d == MapCols(f, p, w, h, dh)
  {
    hide ColOf;
    assert forall x :: 0 <= x < w ==> |ColOf(d, w, dh, x)| == dh;
    forall i | 0 <= i < |d| ensures d[i] == MapColsAt(f, p, w, h, dh, i) {
      InPlane(i, w, dh);
      PlaneElement(d, w, dh, i);
    }
  }

  lemma {:induction false} PlaneElement(d: seq<Byte>, w: nat, dh: nat, i: nat)
    requires dh * w == |d| && i < |d| && w > 0 && i % w < w && i / w < dh
    ensures ColOf(d, w, dh, i % w)[i / w] == d[i]
  {
    var x, y := i % w, i / w;
    assert i == w * y + x == Off(x, w, y);
    ColumnInside(w, dh, x, 0, |d|);
  }

  /** And the columns of the transformed plane are the filtered columns. */
  lemma {:induction false} MapColsColumns(f: LineFilter, p: seq<Byte>, w: nat, h: nat, dh: nat)
    requires h * w == |p| && Yields(f, p, w, h, dh)
    ensures IsMapCols(f, p, w, h, MapCols(f, p, w, h, dh), dh)
  {
    var r := MapCols(f, p, w, h, dh);
    forall x | 0 <= x < w ensures ColOf(r, w, dh, x) == f(ColOf(p, w, h, x)) {
      ColumnInside(w, dh, x, 0, |r|);
      forall y | 0 <= y < dh ensures ColOf(r, w, dh, x)[y] == f(ColOf(p, w, h, x))[y] {
        Arith.DivModUnique(Off(x, w, y), w, y, x);
      }
    }
  }

  // ----- Row filters

  /** On a line of stride 1. */
  lemma {:induction false} UnitLine(a: seq<Byte>, b: nat, n: nat)
    requires b + n <= |a|
    ensures Inside(|a|, b, 1, n) && Line(a, b, 1, n) == a[b..b + n] && Spread(b, 1, n)
    ensures forall i :: OnLine(i, b, 1, n) <==> b <= i < b + n
  {
    forall i | b <= i < b + n ensures OnLine(i, b, 1, n) {
      assert i == Off(b, 1, i - b);
    }
  }

  /** a with the elements from d on replaced by x. */
  function Splice(a: seq<Byte>, d: nat, x: seq<Byte>): (r: seq<Byte>)
    requires d + |x| <= |a|
    ensures |r| == |a|
  {
    a[..d] + x + a[d + |x|..]
  }

  lemma {:induction false} SpliceTwice(a: seq<Byte>, d: nat, x: seq<Byte>, y: seq<Byte>)
    requires d + |x| + |y| <= |a|
    ensures Splice(Splice(a, d, x), d + |x|, y) == Splice(a, d, x + y)
  {
  }

  lemma {:induction false} SpliceElsewhere(a: seq<Byte>, d: nat, x: seq<Byte>, s: nat, t: nat)
    requires d + |x| <= |a| && s <= t <= |a| && (t <= d || d + |x| <= s)
    ensures Splice(a, d, x)[s..t] == a[s..t]
  {
  }

  lemma {:induction false} MapRowsStep(f: LineFilter, p: seq<Byte>, w: nat, y: nat, at: nat)
    requires at == y * w && at + w <= |p|
    ensures (y + 1) * w == at + w
    ensures MapRows(f, p, w, y + 1) == MapRows(f, p, w, y) + f(p[at..at + w])
  {
    assert (y + 1) * w == at + w;
  }

  lemma {:induction false} RowBound(w: nat, h: nat, y: nat, at: nat)
    requires at == y * w && y < h
    ensures at + w <= h * w
  {
    Arith.MulMonotone(y + 1, h, w);
  }

  method ShiftRow(dst: array<Byte>, d: nat, src: array<Byte>, s: nat, w: nat)
    requires d + w <= dst.Length && s + w <= src.Length
    requires dst != src || s + w <= d || d + w <= s
    modifies dst
    ensures dst[..] == Splice(old(dst[..]), d, Shift(old(src[s..s + w])))
  {
    hide Filtered, OnLine, Inside, Spread;
    UnitLine(dst[..], d, w);
    UnitLine(src[..], s, w);
    ShiftLine(dst, d, src, s, 1, w);
    UnitLine(dst[..], d, w);
  }

  /** Filters every row of a w by h plane with the quarter-pixel shift; source and destination may be disjoint
      parts of one buffer. */
  method ShiftRows(dst: array<Byte>, d: nat, src: array<Byte>, s: nat, w: nat, h: nat, ghost sz: nat)
    requires sz == h * w && d + sz <= dst.Length && s + sz <= src.Length
    requires dst != src || s + sz <= d || d + sz <= s
    modifies dst
    ensures |MapRows(Shift, old(src[s..s + sz]), w, h)| == sz
    ensures dst[..] == Splice(old(dst[..]), d, MapRows(Shift, old(src[s..s + sz]), w, h))
  {
    hide Shift, MapRows, Splice;
    ghost var before, from := dst[..], src[..];
    ghost var p := from[s..s + sz];
    ghost var done := [];
    Nothing(Shift, before, d, p, w);
    var at := 0;
    for y := 0 to h
      invariant at == y * w == |done| && at <= sz
      invariant dst[..] == Splice(before, d, done) && (dst != src ==> src[..] == from)
      invariant done == MapRows(Shift, p, w, y)
    {
      RowBound(w, h, y, at);
      MapRowsStep(Shift, p, w, y, at);
      if dst == src {
        SpliceElsewhere(before, d, done, s + at, s + at + w);
      }
      assert src[s + at..s + at + w] == p[at..at + w] by { SliceOfSlice(from, s, s + sz, at, at + w); }
      ShiftRow(dst, d + at, src, s + at, w);
      ShiftLength(p[at..at + w]);
      SpliceTwice(before, d, done, Shift(p[at..at + w]));
      done := done + Shift(p[at..at + w]);
      at := at + w;
    }
  }

  lemma {:induction false} ShiftLength(s: seq<Byte>)
    ensures |Shift(s)| == |SlideUp(s)| == |s| && |Halve(s)| == (|s| + 1) / 2
  {
  }

  lemma {:induction false} Nothing(f: LineFilter, a: seq<Byte>, d: nat, p: seq<Byte>, w: nat)
    requires d <= |a|
    ensures MapRows(f, p, w, 0) == [] && Splice(a, d, []) == a
  {
  }

  method HalveRow(dst: array<Byte>, d: nat, src: array<Byte>, s: nat, w: nat)
    requires d + (w + 1) / 2 <= dst.Length && s + w <= src.Length
    requires dst != src || s + w <= d || d + (w + 1) / 2 <= s
    modifies dst
    ensures dst[..] == Splice(old(dst[..]), d, Halve(old(src[s..s + w])))
  {
    hide Halved, OnLine, Inside, Spread;
    var dw := (w + 1) / 2;
    UnitLine(dst[..], d, dw);
    UnitLine(src[..], s, w);
    HalveLine(dst, d, src, s, 1, w);
    UnitLine(dst[..], d, dw);
  }

  /** Decimates every row of a w by h plane; source and destination may be disjoint parts of one buffer. */
  method HalveRows(dst: array<Byte>, d: nat, src: array<Byte>, s: nat, w: nat, h: nat, ghost sz: nat, ghost dsz: nat)
    requires sz == h * w && dsz == h * ((w + 1) / 2) && d + dsz <= dst.Length && s + sz <= src.Length
    requires dst != src || s + sz <= d || d + dsz <= s
    modifies dst
    ensures |MapRows(Halve, old(src[s..s + sz]), w, h)| == dsz
    ensures dst[..] == Splice(old(dst[..]), d, MapRows(Halve, old(src[s..s + sz]), w, h))
  {
    hide Halve, MapRows, Splice;
    ghost var before, from := dst[..], src[..];
    ghost var p := from[s..s + sz];
    ghost var done := [];
    Nothing(Halve, before, d, p, w);
    var dw := (w + 1) / 2;
    var at, to := 0, 0;
    for y := 0 to h
      invariant at == y * w && at <= sz && to == y * dw == |done| && to <= dsz
      invariant dst[..] == Splice(before, d, done) && (dst != src ==> src[..] == from)
      invariant done == MapRows(Halve, p, w, y)
    {
      RowBound(w, h, y, at);
      RowBound(dw, h, y, to);
      assert (y + 1) * dw == to + dw;
      MapRowsStep(Halve, p, w, y, at);
      if dst == src {
        SpliceElsewhere(before, d, done, s + at, s + at + w);
      }
      assert src[s + at..s + at + w] == p[at..at + w] by { SliceOfSlice(from, s, s + sz, at, at + w); }
      HalveRow(dst, d + to, src, s + at, w);
      ShiftLength(p[at..at + w]);
      SpliceTwice(before, d, done, Halve(p[at..at + w]));
      done := done + Halve(p[at..at + w]);
      at, to := at + w, to + dw;
    }
  }

  // ----- Column filters

  /** Columns 0..x of the plane at d are filtered, the rest of the buffer outside the plane is as before. */
  ghost predicate ColsDone(
      now: seq<Byte>, before: seq<Byte>, d: nat, f: LineFilter, p: seq<Byte>, w: nat, h: nat, dh: nat, x: nat)
    requires |p| == h * w && x <= w && d + dh * w <= |now|
  {
    && |now| == |before|
    && OutsideSame(now, before, d, dh * w)
    && (forall c :: 0 <= c < x ==> ColumnDone(now, d, f, p, w, h, dh, c))
  }

  ghost predicate ColumnDone(now: seq<Byte>, d: nat, f: LineFilter, p: seq<Byte>, w: nat, h: nat, dh: nat, c: nat)
    requires |p| == h * w && c < w
  {
    Inside(|now|, d + c, w, dh) && Line(now, d + c, w, dh) == f(ColOf(p, w, h, c))
  }

  ghost predicate OutsideSame(now: seq<Byte>, before: seq<Byte>, d: nat, sz: nat)
    requires |now| == |before|
  {
    forall i :: 0 <= i < |now| && !(d <= i < d + sz) ==> now[i] == before[i]
  }

  /** The columns of a plane lie inside it and do not share elements. */
  lemma {:induction false} ColumnInPlane(d: nat, w: nat, dh: nat, x: nat, i: int)
    requires x < w && OnLine(i, d + x, w, dh)
    ensures d <= i < d + dh * w
  {
    var b := d + x;
    var z :| 0 <= z < dh && i == Off(b, w, z);
    Arith.MulMonotone(z + 1, dh, w);
  }

  lemma {:induction false} ColumnsApart(d: nat, w: nat, dh: nat, x: nat, c: nat, y: nat)
    requires x < w && c < w && c != x
    ensures !OnLine(Off(d + c, w, y), d + x, w, dh)
  {
    var b, i := d + x, Off(d + c, w, y);
    if OnLine(i, b, w, dh) {
      var z :| 0 <= z < dh && i == Off(b, w, z);
      Arith.DivModUnique(i - d, w, z, x);
      Arith.DivModUnique(i - d, w, y, c);
    }
  }

  lemma {:induction false} ColumnSpread(d: nat, w: nat, x: nat, dh: nat)
    requires x < w
    ensures Spread(d + x, w, dh)
  {
    var b := d + x;
    forall y, z | 0 <= y < z < dh ensures Off(b, w, y) != Off(b, w, z) {
      Arith.MulMonotone(y + 1, z, w);
    }
  }

  /** Writing one column leaves everything outside the plane alone. */
  lemma {:induction false} OutsideUntouched(prev: seq<Byte>, now: seq<Byte>, d: nat, w: nat, dh: nat, x: nat, i: nat)
    requires x < w && |now| == |prev| && OnlyLineChanged(now, prev, d + x, w, dh)
    requires i < |now| && !(d <= i < d + dh * w)
    ensures now[i] == prev[i]
  {
    hide Off;
    if OnLine(i, d + x, w, dh) {
      ColumnInPlane(d, w, dh, x, i);
    }
  }

  /** Writing one column leaves the others alone. */
  lemma {:induction false} OtherColumn(prev: seq<Byte>, now: seq<Byte>, d: nat, w: nat, dh: nat, x: nat, c: nat)
    requires x < w && c < w && c != x && |now| == |prev| && OnlyLineChanged(now, prev, d + x, w, dh)
    requires Inside(|prev|, d + c, w, dh)
    ensures Inside(|now|, d + c, w, dh) && Line(now, d + c, w, dh) == Line(prev, d + c, w, dh)
  {
    hide OnLine, Off;
    var b := d + c;
    forall y | 0 <= y < dh ensures now[Off(b, w, y)] == prev[Off(b, w, y)] {
      ColumnsApart(d, w, dh, x, c, y);
    }
  }

  lemma {:induction false} ColStep(
      prev: seq<Byte>, now: seq<Byte>, before: seq<Byte>, d: nat, f: LineFilter, p: seq<Byte>, w: nat, h: nat,
      dh: nat, x: nat)
    requires |p| == h * w && x < w && d + dh * w <= |now| == |prev| && ColsDone(prev, before, d, f, p, w, h, dh, x)
    requires OnlyLineChanged(now, prev, d + x, w, dh)
    requires Inside(|now|, d + x, w, dh) && Line(now, d + x, w, dh) == f(ColOf(p, w, h, x))
    ensures ColsDone(now, before, d, f, p, w, h, dh, x + 1)
  {
    hide OnLine, Off, OnlyLineChanged, Inside, Line, ColOf;
    assert OutsideSame(now, before, d, dh * w) by {
      forall i | 0 <= i < |now| && !(d <= i < d + dh * w) ensures now[i] == before[i] {
        OutsideUntouched(prev, now, d, w, dh, x, i);
      }
    }
    forall c | 0 <= c < x + 1 ensures ColumnDone(now, d, f, p, w, h, dh, c) {
      if c < x {
        assert ColumnDone(prev, d, f, p, w, h, dh, c);
        OtherColumn(prev, now, d, w, dh, x, c);
      }
    }
  }

  /** The columns of the plane cut out of a buffer are the columns in the buffer. */
  lemma {:induction false} CutColumn(now: seq<Byte>, d: nat, w: nat, dh: nat, sz: nat, x: nat)
    requires sz == dh * w && d + sz <= |now| && x < w && Inside(|now|, d + x, w, dh)
    ensures ColOf(now[d..d + sz], w, dh, x) == Line(now, d + x, w, dh)
  {
    var r := now[d..d + sz];
    ColumnInside(w, dh, x, 0, |r|);
    forall y | 0 <= y < dh ensures ColOf(r, w, dh, x)[y] == Line(now, d + x, w, dh)[y] {
      assert Off(d + x, w, y) == d + Off(x, w, y);
    }
  }

  lemma {:induction false} ColsFinish(
      now: seq<Byte>, before: seq<Byte>, d: nat, f: LineFilter, p: seq<Byte>, w: nat, h: nat, dh: nat)
    requires |p| == h * w && d + dh * w <= |now| && ColsDone(now, before, d, f, p, w, h, dh, w)
    ensures Yields(f, p, w, h, dh)
    ensures now == Splice(before, d, MapCols(f, p, w, h, dh))
  {
    hide ColOf, Line, Inside, MapCols;
    var sz := dh * w;
    var r := now[d..d + sz];
    forall x | 0 <= x < w ensures ColOf(r, w, dh, x) == f(ColOf(p, w, h, x)) {
      assert ColumnDone(now, d, f, p, w, h, dh, x);
      CutColumn(now, d, w, dh, sz, x);
    }
    MapColsUnique(f, p, w, h, r, dh);
    assert now == now[..d] + r + now[d + sz..];
  }

  /** Slides every column up a quarter sample. */
  method SlideUpCols(dst: array<Byte>, d: nat, src: array<Byte>, s: nat, w: nat, h: nat, ghost sz: nat)
    requires sz == h * w && dst != src && s + sz <= src.Length && d + sz <= dst.Length
    modifies dst
    ensures Yields(SlideUp, src[s..s + sz], w, h, h)
    ensures dst[..] == Splice(old(dst[..]), d, MapCols(SlideUp, src[s..s + sz], w, h, h))
  {
    hide Filtered, Halved, MapCols, Splice;
    ghost var before, p := dst[..], src[s..s + sz];
    for x := 0 to w
      invariant ColsDone(dst[..], before, d, SlideUp, p, w, h, h, x)
    {
      hide ColsDone, Inside, Spread, Line, OnlyLineChanged;
      ghost var prev := dst[..];
      ColumnFacts(dst[..], d, src[..], s, p, w, h, h, x);
      SlideUpLine(dst, d + x, src, s + x, w, h);
      ColStep(prev, dst[..], before, d, SlideUp, p, w, h, h, x);
    }
    ColsFinish(dst[..], before, d, SlideUp, p, w, h, h);
  }

  /** Slides every column down a quarter sample. */
  method SlideDownCols(dst: array<Byte>, d: nat, src: array<Byte>, s: nat, w: nat, h: nat, ghost sz: nat)
    requires sz == h * w && dst != src && s + sz <= src.Length && d + sz <= dst.Length
    modifies dst
    ensures Yields(Shift, src[s..s + sz], w, h, h)
    ensures dst[..] == Splice(old(dst[..]), d, MapCols(Shift, src[s..s + sz], w, h, h))
  {
    hide Filtered, Halved, MapCols, Splice;
    ghost var before, p := dst[..], src[s..s + sz];
    for x := 0 to w
      invariant ColsDone(dst[..], before, d, Shift, p, w, h, h, x)
    {
      hide ColsDone, Inside, Spread, Line, OnlyLineChanged;
      ghost var prev := dst[..];
      ColumnFacts(dst[..], d, src[..], s, p, w, h, h, x);
      ShiftLine(dst, d + x, src, s + x, w, h);
      ColStep(prev, dst[..], before, d, Shift, p, w, h, h, x);
    }
    ColsFinish(dst[..], before, d, Shift, p, w, h, h);
  }

  /** Reduces a plane from 4:2:2 to 4:2:0: decimates every column. */
  method HalveCols(dst: array<Byte>, d: nat, src: array<Byte>, s: nat, w: nat, h: nat, ghost sz: nat, ghost dsz: nat)
    requires sz == h * w && dst != src && s + sz <= src.Length && d + dsz <= dst.Length && dsz == (h + 1) / 2 * w
    modifies dst
    ensures Yields(Halve, src[s..s + sz], w, h, (h + 1) / 2)
    ensures dst[..] == Splice(old(dst[..]), d, MapCols(Halve, src[s..s + sz], w, h, (h + 1) / 2))
  {
    hide Filtered, Halved, MapCols, Splice;
    ghost var before, p := dst[..], src[s..s + sz];
    for x := 0 to w
      invariant ColsDone(dst[..], before, d, Halve, p, w, h, (h + 1) / 2, x)
    {
      hide ColsDone, Inside, Spread, Line, OnlyLineChanged;
      ghost var prev := dst[..];
      ColumnFacts(dst[..], d, src[..], s, p, w, h, (h + 1) / 2, x);
      HalveLine(dst, d + x, src, s + x, w, h);
      ColStep(prev, dst[..], before, d, Halve, p, w, h, (h + 1) / 2, x);
    }
    ColsFinish(dst[..], before, d, Halve, p, w, h, (h + 1) / 2);
  }

  lemma {:induction false} ColumnFacts(
      dst: seq<Byte>, d: nat, src: seq<Byte>, s: nat, p: seq<Byte>, w: nat, h: nat, dh: nat, x: nat)
    requires |p| == h * w && s + h * w <= |src| && p == src[s..s + h * w] && d + dh * w <= |dst| && x < w
    ensures Inside(|dst|, d + x, w, dh) && Inside(|src|, s + x, w, h) && Spread(d + x, w, dh)
    ensures Line(src, s + x, w, h) == ColOf(p, w, h, x)
  {
    ColumnInside(w, dh, x, d, |dst|);
    ColumnInside(w, h, x, s, |src|);
    ColumnInside(w, h, x, 0, |p|);
    ColumnSpread(d, w, x, dh);
    forall y | 0 <= y < h ensures Line(src, s + x, w, h)[y] == ColOf(p, w, h, x)[y] {
      assert Off(s + x, w, y) == s + Off(x, w, y);
    }
  }

  // ----- The converters

  datatype Converter = ConvertNull | Convert42xpaldv | Convert422jpeg | Convert422 | Convert444 | ConvertMono

  function Half(n: nat): nat { (n + 1) / 2 }

  /** Width and height of a source chroma plane of a w by h picture. */
  function SrcWidth(c: Converter, w: nat): nat {
    if c == Convert444 then w else Half(w)
  }

  function SrcHeight(c: Converter, h: nat): nat {
    if c == Convert42xpaldv then Half(h) else h
  }

  /** The 4:2:0 plane a source chroma plane becomes; which is 1 for C_b and 2 for C_r. */
  function Converted(c: Converter, which: nat, p: seq<Byte>, w: nat, h: nat): (r: seq<Byte>)
    requires c.Convert42xpaldv? || c.Convert422jpeg? || c.Convert422? || c.Convert444?
    requires |p| == SrcHeight(c, h) * SrcWidth(c, w)
    ensures |r| == Half(h) * Half(w)
  {
    var cw, ch := Half(w), Half(h);
    match c
    case Convert42xpaldv =>
      RowsKeepSize(Shift, p, cw, ch, cw);
      var q := MapRows(Shift, p, cw, ch);
      if which == 1 then YieldsSame(SlideUp, q, cw, ch); MapCols(SlideUp, q, cw, ch, ch)
      else YieldsSame(Shift, q, cw, ch); MapCols(Shift, q, cw, ch, ch)
    case Convert422jpeg =>
      YieldsHalf(p, cw, h);
      MapCols(Halve, p, cw, h, ch)
    case Convert422 =>
      RowsKeepSize(Shift, p, cw, h, cw);
      var q := MapRows(Shift, p, cw, h);
      YieldsHalf(q, cw, h);
      MapCols(Halve, q, cw, h, ch)
    case Convert444 =>
      RowsKeepSize(Halve, p, w, h, cw);
      var q := MapRows(Halve, p, w, h);
      YieldsHalf(q, cw, h);
      MapCols(Halve, q, cw, h, ch)
  }

  /** The last row adds as many samples as the filter makes of it. */
  lemma {:induction false} LastRowSize(f: LineFilter, p: seq<Byte>, w: nat, h: nat, dw: nat)
    requires h > 0 && h * w <= |p| && ((f == Shift && dw == w) || (f == Halve && dw == Half(w)))
    ensures (h - 1) * w <= |p| && |MapRows(f, p, w, h)| == |MapRows(f, p, w, h - 1)| + dw
  {
    hide Shift, SlideUp, Halve, RowOf;
    Arith.OneMore(h - 1, w);
    var row := RowOf(p, w, h - 1);
    assert |row| == w by { RowSize(p, w, h - 1); }
    ShiftLength(row);
  }

  lemma {:induction false} RowSize(p: seq<Byte>, w: nat, y: nat)
    requires (y + 1) * w <= |p|
    ensures |RowOf(p, w, y)| == w
  {
    Arith.OneMore(y, w);
  }

  lemma {:induction false} RowsKeepSize(f: LineFilter, p: seq<Byte>, w: nat, h: nat, dw: nat)
    requires h * w <= |p| && ((f == Shift && dw == w) || (f == Halve && dw == Half(w)))
    ensures |MapRows(f, p, w, h)| == h * dw
  {
    hide Shift, Halve;
    if h > 0 {
      LastRowSize(f, p, w, h, dw);
      RowsKeepSize(f, p, w, h - 1, dw);
      Arith.OneMore(h - 1, dw);
    }
  }

  lemma {:induction false} YieldsSame(f: LineFilter, p: seq<Byte>, w: nat, h: nat)
    requires h * w == |p| && (f == Shift || f == SlideUp)
    ensures Yields(f, p, w, h, h)
  {
    forall x | 0 <= x < w ensures |f(ColOf(p, w, h, x))| == h {
      ShiftLength(ColOf(p, w, h, x));
    }
  }

  lemma {:induction false} YieldsHalf(p: seq<Byte>, w: nat, h: nat)
    requires h * w == |p|
    ensures Yields(Halve, p, w, h, Half(h))
  {
    forall x | 0 <= x < w ensures |Halve(ColOf(p, w, h, x))| == Half(h) {
      ShiftLength(ColOf(p, w, h, x));
    }
  }

  /** One plane of a two-pass converter: the first pass goes to the scratch plane after both sources, the second
      from there to its place in the destination. */
  method PaldvPlane(
      pli: nat, dst: array<Byte>, at: nat, aux: array<Byte>, from: nat, scratch: nat, w: nat, h: nat, cSz: nat)
    requires (pli == 1 || pli == 2) && cSz == Half(h) * Half(w)
    requires dst != aux && at + cSz <= dst.Length && from + cSz <= scratch && scratch + cSz <= aux.Length
    modifies dst, aux
    ensures dst[..] == Splice(old(dst[..]), at, Converted(Convert42xpaldv, pli, old(aux[from..from + cSz]), w, h))
    ensures aux[..scratch] == old(aux[..scratch])
  {
    hide MapRows, MapCols;
    var cw, ch := (w + 1) / 2, (h + 1) / 2;
    ghost var p := aux[from..from + cSz];
    ShiftRows(aux, scratch, aux, from, cw, ch, cSz);
    ghost var q := MapRows(Shift, p, cw, ch);
    assert aux[scratch..scratch + cSz] == q;
    if pli == 1 {
      SlideUpCols(dst, at, aux, scratch, cw, ch, cSz);
    } else {
      SlideDownCols(dst, at, aux, scratch, cw, ch, cSz);
    }
  }

  method HalvedPlane(dst: array<Byte>, at: nat, aux: array<Byte>, from: nat, w: nat, h: nat, cSz: nat, dstCSz: nat)
    requires cSz == h * Half(w) && dstCSz == Half(h) * Half(w)
    requires dst != aux && at + dstCSz <= dst.Length && from + cSz <= aux.Length
    modifies dst
    ensures dst[..] == Splice(old(dst[..]), at, Converted(Convert422jpeg, 0, aux[from..from + cSz], w, h))
  {
    hide MapCols;
    HalveCols(dst, at, aux, from, (w + 1) / 2, h, cSz, dstCSz);
  }

  method ShiftedHalvedPlane(
      dst: array<Byte>, at: nat, aux: array<Byte>, from: nat, scratch: nat, w: nat, h: nat, cSz: nat, dstCSz: nat)
    requires cSz == h * Half(w) && dstCSz == Half(h) * Half(w)
    requires dst != aux && at + dstCSz <= dst.Length && from + cSz <= scratch && scratch + cSz <= aux.Length
    modifies dst, aux
    ensures dst[..] == Splice(old(dst[..]), at, Converted(Convert422, 0, old(aux[from..from + cSz]), w, h))
    ensures aux[..scratch] == old(aux[..scratch])
  {
    hide MapRows, MapCols;
    var cw := (w + 1) / 2;
    ghost var p := aux[from..from + cSz];
    ShiftRows(aux, scratch, aux, from, cw, h, cSz);
    assert aux[scratch..scratch + cSz] == MapRows(Shift, p, cw, h);
    HalveCols(dst, at, aux, scratch, cw, h, cSz, dstCSz);
  }

  method TwiceHalvedPlane(
      dst: array<Byte>, at: nat, aux: array<Byte>, from: nat, scratch: nat, w: nat, h: nat, cSz: nat, tmpSz: nat,
      dstCSz: nat)
    requires cSz == h * w && tmpSz == h * Half(w) && dstCSz == Half(h) * Half(w)
    requires dst != aux && at + dstCSz <= dst.Length && from + cSz <= scratch && scratch + tmpSz <= aux.Length
    modifies dst, aux
    ensures dst[..] == Splice(old(dst[..]), at, Converted(Convert444, 0, old(aux[from..from + cSz]), w, h))
    ensures aux[..scratch] == old(aux[..scratch])
  {
    hide MapRows, MapCols;
    ghost var p := aux[from..from + cSz];
    HalveRows(aux, scratch, aux, from, w, h, cSz, tmpSz);
    assert aux[scratch..scratch + tmpSz] == MapRows(Halve, p, w, h);
    HalveCols(dst, at, aux, scratch, (w + 1) / 2, h, tmpSz, dstCSz);
  }

  /** The size of one source chroma plane. */
  function SrcChroma(c: Converter, w: nat, h: nat): nat {
    SrcHeight(c, h) * SrcWidth(c, w)
  }

  /** The scratch space a converter needs after the two source planes. */
  function Scratch(c: Converter, w: nat, h: nat): nat {
    match c
    case Convert42xpaldv => Half(h) * Half(w)
    case Convert422 => h * Half(w)
    case Convert444 => h * Half(w)
    case _ => 0
  }

  /** Both chroma planes after conversion of the two source planes in aux. */
  function ConvertedChroma(c: Converter, aux: seq<Byte>, w: nat, h: nat): (r: seq<Byte>)
    requires c.Convert42xpaldv? || c.Convert422jpeg? || c.Convert422? || c.Convert444?
    requires |aux| == 2 * SrcChroma(c, w, h)
    ensures |r| == 2 * (Half(h) * Half(w))
  {
    var n := SrcChroma(c, w, h);
    Converted(c, 1, aux[..n], w, h) + Converted(c, 2, aux[n..], w, h)
  }

  /** Slides C_b up and C_r down. */
  method Run42xpaldv(dst: array<Byte>, aux: array<Byte>, w: nat, h: nat, luma: nat, cSz: nat)
    requires cSz == Half(h) * Half(w) && dst != aux && dst.Length == luma + 2 * cSz && aux.Length == 3 * cSz
    modifies dst, aux
    ensures dst[..] == old(dst[..luma])
        + (Converted(Convert42xpaldv, 1, old(aux[..cSz]), w, h)
        + Converted(Convert42xpaldv, 2, old(aux[cSz..2 * cSz]), w, h))
  {
    hide Converted, Splice, Half;
    ghost var before, p, q := dst[..], aux[..cSz], aux[cSz..2 * cSz];
    assert aux[0..cSz] == p;
    PaldvPlane(1, dst, luma, aux, 0, 2 * cSz, w, h, cSz);
    assert aux[cSz..2 * cSz] == aux[..2 * cSz][cSz..];
    PaldvPlane(2, dst, luma + cSz, aux, cSz, 2 * cSz, w, h, cSz);
    TwoSplices(before, luma, Converted(Convert42xpaldv, 1, p, w, h), Converted(Convert42xpaldv, 2, q, w, h));
  }

  method Run422jpeg(dst: array<Byte>, aux: array<Byte>, w: nat, h: nat, luma: nat, cSz: nat, dstCSz: nat)
    requires cSz == h * Half(w) && dstCSz == Half(h) * Half(w)
    requires dst != aux && dst.Length == luma + 2 * dstCSz && aux.Length == 2 * cSz
    modifies dst
    ensures dst[..] == old(dst[..luma])
        + (Converted(Convert422jpeg, 0, aux[..cSz], w, h) + Converted(Convert422jpeg, 0, aux[cSz..2 * cSz], w, h))
  {
    hide Converted, Splice, Half;
    ghost var before, p, q := dst[..], aux[..cSz], aux[cSz..2 * cSz];
    assert aux[0..cSz] == p;
    HalvedPlane(dst, luma, aux, 0, w, h, cSz, dstCSz);
    HalvedPlane(dst, luma + dstCSz, aux, cSz, w, h, cSz, dstCSz);
    TwoSplices(before, luma, Converted(Convert422jpeg, 0, p, w, h), Converted(Convert422jpeg, 0, q, w, h));
  }

  method Run422(dst: array<Byte>, aux: array<Byte>, w: nat, h: nat, luma: nat, cSz: nat, dstCSz: nat)
    requires cSz == h * Half(w) && dstCSz == Half(h) * Half(w)
    requires dst != aux && dst.Length == luma + 2 * dstCSz && aux.Length == 3 * cSz
    modifies dst, aux
    ensures dst[..] == old(dst[..luma])
        + (Converted(Convert422, 0, old(aux[..cSz]), w, h) + Converted(Convert422, 0, old(aux[cSz..2 * cSz]), w, h))
  {
    hide Converted, Splice, Half;
    ghost var before, p, q := dst[..], aux[..cSz], aux[cSz..2 * cSz];
    assert aux[0..cSz] == p;
    ShiftedHalvedPlane(dst, luma, aux, 0, 2 * cSz, w, h, cSz, dstCSz);
    assert aux[cSz..2 * cSz] == aux[..2 * cSz][cSz..];
    ShiftedHalvedPlane(dst, luma + dstCSz, aux, cSz, 2 * cSz, w, h, cSz, dstCSz);
    TwoSplices(before, luma, Converted(Convert422, 0, p, w, h), Converted(Convert422, 0, q, w, h));
  }

  method Run444(dst: array<Byte>, aux: array<Byte>, w: nat, h: nat, luma: nat, cSz: nat, tmpSz: nat, dstCSz: nat)
    requires cSz == h * w && tmpSz == h * Half(w) && dstCSz == Half(h) * Half(w)
    requires dst != aux && dst.Length == luma + 2 * dstCSz && aux.Length == 2 * cSz + tmpSz
    modifies dst, aux
    ensures dst[..] == old(dst[..luma])
        + (Converted(Convert444, 0, old(aux[..cSz]), w, h) + Converted(Convert444, 0, old(aux[cSz..2 * cSz]), w, h))
  {
    hide Converted, Splice, Half;
    ghost var before, p, q := dst[..], aux[..cSz], aux[cSz..2 * cSz];
    assert aux[0..cSz] == p;
    TwiceHalvedPlane(dst, luma, aux, 0, 2 * cSz, w, h, cSz, tmpSz, dstCSz);
    assert aux[cSz..2 * cSz] == aux[..2 * cSz][cSz..];
    TwiceHalvedPlane(dst, luma + dstCSz, aux, cSz, 2 * cSz, w, h, cSz, tmpSz, dstCSz);
    TwoSplices(before, luma, Converted(Convert444, 0, p, w, h), Converted(Convert444, 0, q, w, h));
  }

  /** Runs a converter: the luma plane stays, the chroma planes of the destination are all and only the
      transformed source planes. */
  method Convert(c: Converter, dst: array<Byte>, aux: array<Byte>, w: nat, h: nat, luma: nat)
    requires c.Convert42xpaldv? || c.Convert422jpeg? || c.Convert422? || c.Convert444?
    requires dst != aux && dst.Length == luma + 2 * (Half(h) * Half(w))
    requires aux.Length == 2 * SrcChroma(c, w, h) + Scratch(c, w, h)
    modifies dst, aux
    ensures dst[..] == old(dst[..luma]) + ConvertedChroma(c, old(aux[..2 * SrcChroma(c, w, h)]), w, h)
  {
    hide Converted, Half;
    var cSz := SrcChroma(c, w, h);
    var dstCSz := Half(h) * Half(w);
    ghost var src := aux[..2 * cSz];
    assert src[..cSz] == aux[..cSz] && src[cSz..] == aux[cSz..2 * cSz];
    match c {
      case Convert42xpaldv => Run42xpaldv(dst, aux, w, h, luma, cSz);
      case Convert422jpeg => Run422jpeg(dst, aux, w, h, luma, cSz, dstCSz);
      case Convert422 => Run422(dst, aux, w, h, luma, cSz, dstCSz);
      case Convert444 => Run444(dst, aux, w, h, luma, cSz, h * Half(w), dstCSz);
    }
    if c != Convert42xpaldv {
      AnyWhich(c, src[..cSz], src[cSz..], w, h);
    }
  }

  /** Only the 420paldv conversion treats the two planes differently. */
  lemma {:induction false} AnyWhich(c: Converter, p: seq<Byte>, q: seq<Byte>, w: nat, h: nat)
    requires c.Convert422jpeg? || c.Convert422? || c.Convert444?
    requires |p| == |q| == SrcChroma(c, w, h)
    ensures Converted(c, 0, p, w, h) == Converted(c, 1, p, w, h) && Converted(c, 0, q, w, h) == Converted(c, 2, q, w, h)
  {
  }

  lemma {:induction false} TwoSplices(a: seq<Byte>, d: nat, x: seq<Byte>, y: seq<Byte>)
    requires d + |x| + |y| == |a|
    ensures Splice(Splice(a, d, x), d + |x|, y) == a[..d] + (x + y)
  {
  }
}

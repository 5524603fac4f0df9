/** Comparing an encoder's and a decoder's image: a flat comparison row by row, and a search for the first
    differing sample block by block. */
module CompareImage {
  import opened Bytes
  import opened ImageOutput
  import Arith

  /** The size of a plane as these functions compute it. */
  function Width(img: Image, p: nat): nat {
    if p == 0 then img.dW else (img.dW + img.xChromaShift) / Pow2(img.xChromaShift)
  }

  function Height(img: Image, p: nat): nat {
    if p == 0 then img.dH else (img.dH + img.yChromaShift) / Pow2(img.yChromaShift)
  }

  function SampleBytes(img: Image): nat { if img.highBitDepth then 2 else 1 }

  /** The rows of an image are readable at the sizes of the first one, in samples as wide as the first one's, which
      is how both are read. Strides are not negative. */
  ghost predicate Covers(img: Image, first: Image) {
    |img.planes| == 3 && forall p :: 0 <= p < 3 ==> PlaneCovers(img, first, p)
  }

  ghost predicate PlaneCovers(img: Image, first: Image, p: nat)
    requires p < |img.planes|
  {
    var plane := img.planes[p];
    && plane.start >= 0 && plane.stride >= 0
    && (Height(first, p) > 0 ==>
        plane.start + (Height(first, p) - 1) * plane.stride + Width(first, p) * SampleBytes(first) <= |img.mem|)
  }

  /** Rows of 16-bit samples start at even distances. */
  ghost predicate Aligned(img: Image, first: Image) {
    |img.planes| == 3 && (first.highBitDepth ==> forall p :: 0 <= p < 3 ==> img.planes[p].stride % 2 == 0)
  }

  lemma {:induction false} RowInside(img: Image, first: Image, p: nat, y: nat)
    requires Covers(img, first) && p < 3 && y < Height(first, p)
    ensures p < |img.planes|
    ensures var plane := img.planes[p];
      plane.stride >= 0 && 0 <= plane.start + y * plane.stride
      && plane.start + y * plane.stride + Width(first, p) * SampleBytes(first) <= |img.mem|
  {
    assert PlaneCovers(img, first, p);
    Arith.MulMonotone(y, Height(first, p) - 1, img.planes[p].stride);
    Arith.MulMonotone(0, y, img.planes[p].stride);
  }

  /** The sample in row y and column x: one byte, or two bytes at a row of half as many 16-bit values. */
  function Sample(img: Image, first: Image, p: nat, y: nat, x: nat): int
    requires Covers(img, first) && Aligned(img, first) && p < 3 && y < Height(first, p) && x < Width(first, p)
  {
    RowInside(img, first, p, y);
    var plane := img.planes[p];
    if first.highBitDepth then
      HalfStride(y, plane.stride);
      var at := plane.start + 2 * (y * (plane.stride / 2) + x);
      Word(img.mem[at], img.mem[at + 1])
    else img.mem[plane.start + y * plane.stride + x]
  }

  /** A 16-bit value, low byte first. */
  function Word(lo: int, hi: int): int { lo + 256 * hi }

  /** Which bytes make up a sample: one at its column, or the low and the high one at twice the column. */
  lemma {:induction false} SampleFromBytes(img: Image, first: Image, p: nat, y: nat, x: nat)
    requires Covers(img, first) && Aligned(img, first) && p < 3 && y < Height(first, p) && x < Width(first, p)
    ensures var at := img.planes[p].start + y * img.planes[p].stride;
      if first.highBitDepth then
        0 <= at && at + 2 * x + 1 < |img.mem|
        && var (lo: int, hi: int) := (img.mem[at + 2 * x], img.mem[at + 2 * x + 1]);
          Sample(img, first, p, y, x) == lo + 256 * hi
      else 0 <= at && at + x < |img.mem| && Sample(img, first, p, y, x) == img.mem[at + x]
  {
    RowInside(img, first, p, y);
    if first.highBitDepth {
      HalfStride(y, img.planes[p].stride);
    }
  }

  /** The size of a chroma plane is that of luma divided by a power of two and rounded up, for the usual shifts by none
      and by one; then it is also the size with which images are hashed and written. */
  lemma {:induction false} ChromaSizes(img: Image, p: nat)
    requires 0 < p < 3 && img.xChromaShift <= 1 && img.yChromaShift <= 1
    ensures Width(img, 0) == img.dW && Height(img, 0) == img.dH
    ensures if img.xChromaShift == 0 then Width(img, p) == img.dW else img.dW <= 2 * Width(img, p) <= img.dW + 1
    ensures if img.yChromaShift == 0 then Height(img, p) == img.dH else img.dH <= 2 * Height(img, p) <= img.dH + 1
    ensures Width(img, p) == PlaneWidth(img, p) && Height(img, p) == PlaneHeight(img, p)
  {
    assert Pow2(0) == 1 && Pow2(1) == 2;
  }

  lemma {:induction false} HalfStride(y: nat, stride: int)
    requires stride % 2 == 0
    ensures 2 * (y * (stride / 2)) == y * stride
  {
    assert stride == 2 * (stride / 2);
  }

  /** Both images can be searched sample by sample. */
  ghost predicate Comparable(a: Image, b: Image) {
    Covers(a, a) && Covers(b, a) && Aligned(a, a) && Aligned(b, a)
  }

  ghost predicate SameSample(a: Image, b: Image, p: nat, y: nat, x: nat)
    requires Comparable(a, b) && p < 3
  {
    y < Height(a, p) && x < Width(a, p) && Sample(a, a, p, y, x) == Sample(b, a, p, y, x)
  }

  /** The samples in rows y0 to y1 and columns x0 to x1 agree. */
  ghost predicate SameIn(a: Image, b: Image, p: nat, y0: nat, y1: nat, x0: nat, x1: nat)
    requires Comparable(a, b) && p < 3
  {
    forall y, x :: y0 <= y < y1 && x0 <= x < x1 ==> SameSample(a, b, p, y, x)
  }

  ghost predicate SamePlane(a: Image, b: Image, p: nat)
    requires Comparable(a, b) && p < 3
  {
    SameIn(a, b, p, 0, Height(a, p), 0, Width(a, p))
  }

  // ----- The flat comparison

  function RowBytes(img: Image, first: Image, p: nat, y: nat): (r: seq<Byte>)
    requires Covers(img, first) && p < 3 && y < Height(first, p)
    ensures |r| == Width(first, p) * SampleBytes(first)
  {
    RowInside(img, first, p, y);
    var at := img.planes[p].start + y * img.planes[p].stride;
    img.mem[at..at + Width(first, p) * SampleBytes(first)]
  }

  /** The first n rows of a plane agree byte for byte. */
  ghost predicate SameRows(a: Image, b: Image, p: nat, n: nat)
    requires Covers(a, a) && Covers(b, a) && p < 3 && n <= Height(a, p)
  {
    forall y :: 0 <= y < n ==> RowBytes(a, a, p, y) == RowBytes(b, a, p, y)
  }

  lemma {:induction false} SampleInRow(img: Image, first: Image, p: nat, y: nat, x: nat)
    requires Covers(img, first) && Aligned(img, first) && p < 3 && y < Height(first, p) && x < Width(first, p)
    ensures var row := RowBytes(img, first, p, y);
      if first.highBitDepth then 2 * x + 1 < |row| && Sample(img, first, p, y, x) == Word(row[2 * x], row[2 * x + 1])
      else x < |row| && Sample(img, first, p, y, x) == row[x]
  {
    RowInside(img, first, p, y);
    if first.highBitDepth {
      HalfStride(y, img.planes[p].stride);
    }
  }

  /** The bytes of two rows agree exactly when the samples do. */
  lemma {:induction false} RowsAgree(a: Image, b: Image, p: nat, y: nat)
    requires Comparable(a, b) && p < 3 && y < Height(a, p)
    ensures RowBytes(a, a, p, y) == RowBytes(b, a, p, y) <==> SameIn(a, b, p, y, y + 1, 0, Width(a, p))
  {
    hide Covers, Aligned, Sample;
    var r, s := RowBytes(a, a, p, y), RowBytes(b, a, p, y);
    if r == s {
      forall x: nat | x < Width(a, p) ensures SameSample(a, b, p, y, x) {
        SampleInRow(a, a, p, y, x);
        SampleInRow(b, a, p, y, x);
      }
    }
    if SameIn(a, b, p, y, y + 1, 0, Width(a, p)) {
      RowBytesAgree(a, b, p, y);
    }
  }

  lemma {:induction false} RowBytesAgree(a: Image, b: Image, p: nat, y: nat)
    requires Comparable(a, b) && p < 3 && y < Height(a, p) && SameIn(a, b, p, y, y + 1, 0, Width(a, p))
    ensures RowBytes(a, a, p, y) == RowBytes(b, a, p, y)
  {
    hide Covers, Aligned, Sample;
    var r, s := RowBytes(a, a, p, y), RowBytes(b, a, p, y);
    forall i | 0 <= i < |r| ensures r[i] == s[i] {
      var x := if a.highBitDepth then i / 2 else i;
      assert SameSample(a, b, p, y, x);
      SampleInRow(a, a, p, y, x);
      SampleInRow(b, a, p, y, x);
      if a.highBitDepth {
        LeInjective(r[2 * x], r[2 * x + 1], s[2 * x], s[2 * x + 1]);
        assert i == 2 * x || i == 2 * x + 1;
      }
    }
  }

  lemma {:induction false} LeInjective(a: Byte, b: Byte, c: Byte, d: Byte)
    requires Word(a, b) == Word(c, d)
    ensures a == c && b == d
  {
  }

  /** Planes agree in their bytes exactly when they agree in their samples. */
  lemma {:induction false} SameRowsIsSamePlane(a: Image, b: Image, p: nat)
    requires Comparable(a, b) && p < 3
    ensures SameRows(a, b, p, Height(a, p)) <==> SamePlane(a, b, p)
  {
    hide Covers, Aligned, SameSample, RowBytes;
    forall y | 0 <= y < Height(a, p)
      ensures RowBytes(a, a, p, y) == RowBytes(b, a, p, y) <==> SameIn(a, b, p, y, y + 1, 0, Width(a, p))
    {
      RowsAgree(a, b, p, y);
    }
    if SameRows(a, b, p, Height(a, p)) {
      forall y, x | 0 <= y < Height(a, p) && 0 <= x < Width(a, p) ensures SameSample(a, b, p, y, x) {
        assert RowBytes(a, a, p, y) == RowBytes(b, a, p, y);
        assert SameIn(a, b, p, y, y + 1, 0, Width(a, p));
      }
    }
    if SamePlane(a, b, p) {
      forall y | 0 <= y < Height(a, p) ensures RowBytes(a, a, p, y) == RowBytes(b, a, p, y) {
        assert SameIn(a, b, p, y, y + 1, 0, Width(a, p));
      }
    }
  }

  lemma {:induction false} SameRowsStep(a: Image, b: Image, p: nat, y: nat)
    requires Covers(a, a) && Covers(b, a) && p < 3 && y < Height(a, p)
    ensures SameRows(a, b, p, y + 1) <==> SameRows(a, b, p, y) && RowBytes(a, a, p, y) == RowBytes(b, a, p, y)
  {
    hide Covers, RowBytes;
  }

  lemma {:induction false} NoRows(a: Image, b: Image, p: nat)
    requires Covers(a, a) && Covers(b, a) && p < 3
    ensures SameRows(a, b, p, 0)
  {
  }

  method ComparePlane(a: Image, b: Image, p: nat, rowBytes: nat) returns (matches: bool)
    requires Covers(a, a) && Covers(b, a) && p < 3 && rowBytes == Width(a, p) * SampleBytes(a)
    ensures matches <==> SameRows(a, b, p, Height(a, p))
    ensures Comparable(a, b) ==> (matches <==> SamePlane(a, b, p))
  {
    hide Covers, Aligned, SamePlane, SameRows, Width, Height;
    matches := true;
    assert SameRows(a, b, p, 0) by { NoRows(a, b, p); }
    for y := 0 to Height(a, p)
      invariant matches <==> SameRows(a, b, p, y)
    {
      RowInside(a, a, p, y);
      RowInside(b, a, p, y);
      var i, j := a.planes[p].start + y * a.planes[p].stride, b.planes[p].start + y * b.planes[p].stride;
      assert RowBytes(a, a, p, y) == a.mem[i..i + rowBytes] && RowBytes(b, a, p, y) == b.mem[j..j + rowBytes];
      SameRowsStep(a, b, p, y);
      matches := matches && a.mem[i..i + rowBytes] == b.mem[j..j + rowBytes];
    }
    if Comparable(a, b) {
      SameRowsIsSamePlane(a, b, p);
    }
  }

  /** A format number says whether samples are wide. */
  const FMT_HIGHBITDEPTH := 0x800

  predicate FormatOf(fmt: nat, img: Image) { (fmt / FMT_HIGHBITDEPTH % 2 == 1) == img.highBitDepth }

  /** Whether two images match: their formats, sizes and all bytes, read as the first image's samples. Images of
      which only one has wide samples never match. */
  method CompareImg(a: Image, fmtA: nat, b: Image, fmtB: nat) returns (matches: bool)
    requires Covers(a, a) && Covers(b, a) && FormatOf(fmtA, a) && FormatOf(fmtB, b)
    ensures matches <==>
      fmtA == fmtB && a.dW == b.dW && a.dH == b.dH && forall p :: 0 <= p < 3 ==> SameRows(a, b, p, Height(a, p))
    ensures a.highBitDepth != b.highBitDepth ==> !matches
    ensures Comparable(a, b) ==>
      (matches <==> fmtA == fmtB && a.dW == b.dW && a.dH == b.dH && forall p :: 0 <= p < 3 ==> SamePlane(a, b, p))
  {
    hide Covers, Aligned, SamePlane, SameRows;
    matches := fmtA == fmtB && a.dW == b.dW && a.dH == b.dH;
    var y := ComparePlane(a, b, 0, Width(a, 0) * SampleBytes(a));
    var u := ComparePlane(a, b, 1, Width(a, 1) * SampleBytes(a));
    var v := ComparePlane(a, b, 2, Width(a, 2) * SampleBytes(a));
    matches := matches && y && u && v;
  }

  // ----- The blocked search

  /** A location: row, column and the two samples; all -1 when there is none. */
  type Location = s: seq<int> | |s| == 4 witness [-1, -1, -1, -1]

  const NOWHERE: Location := [-1, -1, -1, -1]

  /** A location inside the plane at which the two images truly differ, with their samples there. */
  ghost predicate IsMismatch(a: Image, b: Image, p: nat, loc: Location)
    requires Comparable(a, b) && p < 3
  {
    && 0 <= loc[0] < Height(a, p) && 0 <= loc[1] < Width(a, p)
    && loc[2] == Sample(a, a, p, loc[0], loc[1]) && loc[3] == Sample(b, a, p, loc[0], loc[1]) && loc[2] != loc[3]
  }

  /** The location is the first one of a block, row by row. */
  ghost predicate FirstInBlock(a: Image, b: Image, p: nat, i: nat, j: nat, si: nat, sj: nat, loc: Location)
    requires Comparable(a, b) && p < 3
  {
    && i <= loc[0] < i + si && j <= loc[1] < j + sj
    && SameIn(a, b, p, i, loc[0], j, j + sj) && SameIn(a, b, p, loc[0], loc[0] + 1, j, loc[1])
  }

  /** Looks for a difference in one block. */
  method SearchBlock(a: Image, b: Image, p: nat, i: nat, j: nat, si: nat, sj: nat) returns (loc: Location)
    requires Comparable(a, b) && p < 3 && i + si <= Height(a, p) && j + sj <= Width(a, p)
    ensures if loc == NOWHERE then SameIn(a, b, p, i, i + si, j, j + sj) else IsMismatch(a, b, p, loc)
    ensures loc != NOWHERE ==> FirstInBlock(a, b, p, i, j, si, sj, loc)
  {
    hide Covers, Aligned, Sample;
    loc := NOWHERE;
    for k := 0 to si
      invariant SameIn(a, b, p, i, i + k, j, j + sj)
    {
      for l := 0 to sj
        invariant SameIn(a, b, p, i + k, i + k + 1, j, j + l)
      {
        var s, t := Sample(a, a, p, i + k, j + l), Sample(b, a, p, i + k, j + l);
        if s != t {
          return [i + k, j + l, s, t];
        }
      }
    }
  }

  function Min(a: int, b: int): int { if a < b then a else b }

  /** The location is the first one of the first block, row by row of blocks, in which the images differ; i and j are
      the place of the block. */
  ghost predicate FirstInPlane(
      a: Image, b: Image, p: nat, bsizeY: nat, bsizeX: nat, i: nat, j: nat, loc: Location)
    requires Comparable(a, b) && p < 3 && bsizeY > 0 && bsizeX > 0
  {
    && i % bsizeY == 0 && j % bsizeX == 0 && i <= loc[0] && j <= loc[1]
    && SameIn(a, b, p, 0, i, 0, Width(a, p)) && SameIn(a, b, p, i, Min(i + bsizeY, Height(a, p)), 0, j)
    && SameIn(a, b, p, i, loc[0], j, Min(j + bsizeX, Width(a, p)))
    && SameIn(a, b, p, loc[0], loc[0] + 1, j, loc[1])
  }

  /** Looks for a difference in one plane, block by block. In the chroma planes a block reaches at least to its
      end and at most to the end of the plane, so that blocks may overlap. */
  method SearchPlane(a: Image, b: Image, p: nat, bsizeY: nat, bsizeX: nat) returns (loc: Location)
    requires Comparable(a, b) && p < 3 && bsizeY > 0 && bsizeX > 0
    ensures if loc == NOWHERE then SamePlane(a, b, p) else IsMismatch(a, b, p, loc)
    ensures loc != NOWHERE ==> exists i: nat, j: nat :: FirstInPlane(a, b, p, bsizeY, bsizeX, i, j, loc)
  {
    hide Covers, Aligned, SameSample, IsMismatch, Width, Height, FirstInPlane, FirstInBlock;
    var w, h := Width(a, p), Height(a, p);
    loc := NOWHERE;
    var i := 0;
    while loc == NOWHERE && i < h
      invariant i % bsizeY == 0
      invariant if loc == NOWHERE then SameIn(a, b, p, 0, Min(i, h), 0, w) else IsMismatch(a, b, p, loc)
      invariant loc != NOWHERE ==> exists m: nat, n: nat :: FirstInPlane(a, b, p, bsizeY, bsizeX, m, n, loc)
      decreases h - i, loc == NOWHERE
    {
      var si: nat := if p == 0 then Min(i + bsizeY, h) - i else Min(i + bsizeY, h - i);
      var j := 0;
      while loc == NOWHERE && j < w
        invariant j % bsizeX == 0
        invariant if loc == NOWHERE then SameIn(a, b, p, i, i + si, 0, Min(j, w)) else IsMismatch(a, b, p, loc)
        invariant loc != NOWHERE ==> exists m: nat, n: nat :: FirstInPlane(a, b, p, bsizeY, bsizeX, m, n, loc)
        decreases w - j, loc == NOWHERE
      {
        var sj: nat := if p == 0 then Min(j + bsizeX, w) - j else Min(j + bsizeX, w - j);
        loc := SearchBlock(a, b, p, i, j, si, sj);
        if loc != NOWHERE {
          FirstFound(a, b, p, bsizeY, bsizeX, i, j, si, sj, loc);
        }
        NextMultiple(j, bsizeX);
        j := j + bsizeX;
      }
      NextMultiple(i, bsizeY);
      i := i + bsizeY;
    }
  }

  lemma {:induction false} FirstFound(
      a: Image, b: Image, p: nat, bsizeY: nat, bsizeX: nat, i: nat, j: nat, si: nat, sj: nat, loc: Location)
    requires Comparable(a, b) && p < 3 && bsizeY > 0 && bsizeX > 0 && i % bsizeY == 0 && j % bsizeX == 0
    requires i + si <= Height(a, p) && j + sj <= Width(a, p) && FirstInBlock(a, b, p, i, j, si, sj, loc)
    requires Min(i + bsizeY, Height(a, p)) <= i + si && Min(j + bsizeX, Width(a, p)) <= j + sj
    requires SameIn(a, b, p, 0, i, 0, Width(a, p)) && SameIn(a, b, p, i, i + si, 0, j)
    ensures FirstInPlane(a, b, p, bsizeY, bsizeX, i, j, loc)
  {
    hide SameSample, Covers, Aligned, Width, Height;
  }

  lemma {:induction false} NextMultiple(i: nat, n: nat)
    requires n > 0 && i % n == 0
    ensures (i + n) % n == 0
  {
    Arith.DivModUnique(i + n, n, i / n + 1, 0);
  }

  /** The first differing block of every plane. */
  method FindMismatch(a: Image, b: Image) returns (yloc: Location, uloc: Location, vloc: Location)
    requires Comparable(a, b) && a.xChromaShift <= 6 && a.yChromaShift <= 6
    ensures if yloc == NOWHERE then SamePlane(a, b, 0) else IsMismatch(a, b, 0, yloc)
    ensures if uloc == NOWHERE then SamePlane(a, b, 1) else IsMismatch(a, b, 1, uloc)
    ensures if vloc == NOWHERE then SamePlane(a, b, 2) else IsMismatch(a, b, 2, vloc)
    ensures yloc != NOWHERE ==> exists i: nat, j: nat :: FirstInPlane(a, b, 0, 64, 64, i, j, yloc)
    ensures 64 / Pow2(a.yChromaShift) > 0 && 64 / Pow2(a.xChromaShift) > 0
    ensures uloc != NOWHERE ==> exists i: nat, j: nat ::
        FirstInPlane(a, b, 1, 64 / Pow2(a.yChromaShift), 64 / Pow2(a.xChromaShift), i, j, uloc)
    ensures vloc != NOWHERE ==> exists i: nat, j: nat ::
        FirstInPlane(a, b, 2, 64 / Pow2(a.yChromaShift), 64 / Pow2(a.xChromaShift), i, j, vloc)
  {
    hide FirstInPlane;
    BlockSizes(a.yChromaShift);
    BlockSizes(a.xChromaShift);
    var bsizeY, bsizeX := 64 / Pow2(a.yChromaShift), 64 / Pow2(a.xChromaShift);
    yloc := SearchPlane(a, b, 0, 64, 64);
    uloc := SearchPlane(a, b, 1, bsizeY, bsizeX);
    vloc := SearchPlane(a, b, 2, bsizeY, bsizeX);
  }

  lemma {:induction false} BlockSizes(shift: nat)
    requires shift <= 6
    ensures 64 / Pow2(shift) > 0
  {
    PowersGrow(shift, 6);
    assert Pow2(6) == 64;
  }

  lemma {:induction false} PowersGrow(m: nat, n: nat)
    requires m <= n
    ensures Pow2(m) <= Pow2(n)
  {
    if m < n { PowersGrow(m, n - 1); }
  }

  lemma {:induction false} MismatchDiffers(a: Image, b: Image, p: nat, loc: Location)
    requires Comparable(a, b) && p < 3 && IsMismatch(a, b, p, loc)
    ensures loc != NOWHERE && !SamePlane(a, b, p)
  {
    hide Covers, Aligned, Sample;
    assert !SameSample(a, b, p, loc[0], loc[1]);
  }

  /** For images of the same format and size, the comparison reports a match exactly when the search reports no
      location in any plane. */
  method ComparisonsAgree(
      a: Image, fmtA: nat, b: Image, fmtB: nat) returns (matches: bool, yloc: Location, uloc: Location, vloc: Location)
    requires Comparable(a, b) && a.xChromaShift <= 6 && a.yChromaShift <= 6
    requires FormatOf(fmtA, a) && FormatOf(fmtB, b)
    ensures fmtA == fmtB && a.dW == b.dW && a.dH == b.dH ==> (matches <==> yloc == uloc == vloc == NOWHERE)
    ensures yloc == NOWHERE || IsMismatch(a, b, 0, yloc)
    ensures uloc == NOWHERE || IsMismatch(a, b, 1, uloc)
    ensures vloc == NOWHERE || IsMismatch(a, b, 2, vloc)
  {
    hide Covers, Aligned, SamePlane, IsMismatch;
    matches := CompareImg(a, fmtA, b, fmtB);
    yloc, uloc, vloc := FindMismatch(a, b);
    if yloc != NOWHERE { MismatchDiffers(a, b, 0, yloc); }
    if uloc != NOWHERE { MismatchDiffers(a, b, 1, uloc); }
    if vloc != NOWHERE { MismatchDiffers(a, b, 2, vloc); }
  }

  /** The test after encoding a frame: a mismatch of images of the same format and size is always reported with
      a location. */
  method TestDecode(
      a: Image, fmtA: nat, b: Image, fmtB: nat) returns (err: bool, yloc: Location, uloc: Location, vloc: Location)
    requires Comparable(a, b) && a.xChromaShift <= 6 && a.yChromaShift <= 6
    requires FormatOf(fmtA, a) && FormatOf(fmtB, b)
    ensures !err <==> fmtA == fmtB && a.dW == b.dW && a.dH == b.dH && forall p :: 0 <= p < 3 ==> SamePlane(a, b, p)
    ensures err && fmtA == fmtB && a.dW == b.dW && a.dH == b.dH ==>
      IsMismatch(a, b, 0, yloc) || IsMismatch(a, b, 1, uloc) || IsMismatch(a, b, 2, vloc)
  {
    hide Covers, Aligned, SamePlane, IsMismatch;
    yloc, uloc, vloc := NOWHERE, NOWHERE, NOWHERE;
    var same := CompareImg(a, fmtA, b, fmtB);
    err := !same;
    if err {
      yloc, uloc, vloc := FindMismatch(a, b);
    }
  }
}

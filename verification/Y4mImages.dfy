/** The image handed out for a fetched frame, and what the decoder's file writer makes of such an image. */
module Y4mImages {
  import opened Bytes
  import opened ImageOutput
  import opened Y4mConvert
  import opened Y4mInput
  import Y4mReader
  import Arith

  /** The image over a frame buffer: the planes where PlanesOf puts them. */
  function ImageOf(c: Config, w: nat, h: nat, buffer: seq<Byte>): Image
    requires c.dstDecH > 0 && c.dstDecV > 0
  {
    var p := Y4mReader.PlanesOf(c, w, h);
    Image(buffer, c.bitDepth > 8, w, h, c.dstDecH / 2, c.dstDecV / 2,
          [Plane(0, p.strideY), Plane(p.startU, p.strideC), Plane(p.startV, p.strideC)])
  }

  lemma {:induction false} PlaneSizes(c: Config, w: nat, h: nat, buffer: seq<Byte>, plane: nat)
    requires 1 <= c.dstDecH <= 2 && 1 <= c.dstDecV <= 2 && plane < 3
    ensures var img := ImageOf(c, w, h, buffer);
      && PlaneWidth(img, plane) == (if plane == 0 then w else Ceil(w, c.dstDecH))
      && PlaneHeight(img, plane) == (if plane == 0 then h else Ceil(h, c.dstDecV))
  {
    assert Pow2(0) == 1 && Pow2(1) == 2;
  }

  /** Rows without gaps: n rows are one stretch of memory, m bytes long. */
  lemma {:induction false} PlaneIsStretch(img: Image, p: nat, b: nat, n: nat, m: nat)
    requires |img.planes| == 3 && Readable(img) && p < 3 && n <= PlaneHeight(img, p)
        && (b == 1 || (b == 2 && img.highBitDepth))
    requires img.planes[p].start >= 0 && img.planes[p].stride == PlaneWidth(img, p) * b
    requires m == n * img.planes[p].stride && img.planes[p].start + m <= |img.mem|
    ensures PlaneBytes(img, p, b, n) == img.mem[img.planes[p].start..img.planes[p].start + m]
  {
    hide PlaneWidth, PlaneHeight, Readable;
    if n > 0 {
      var k := m - img.planes[p].stride;
      assert k == (n - 1) * img.planes[p].stride;
      Arith.MulMonotone(0, n - 1, img.planes[p].stride);
      PlaneIsStretch(img, p, b, n - 1, k);
    }
  }

  lemma {:induction false} RowsReadable(img: Image, p: nat)
    requires |img.planes| == 3 && p < 3 && img.planes[p].start >= 0
    requires img.planes[p].stride == PlaneWidth(img, p) * (if img.highBitDepth then 2 else 1)
    requires img.planes[p].start + PlaneHeight(img, p) * img.planes[p].stride <= |img.mem|
    ensures forall y :: 0 <= y < PlaneHeight(img, p) ==> RowReadable(img, p, y)
  {
    var h, stride := PlaneHeight(img, p), img.planes[p].stride;
    forall y | 0 <= y < h ensures RowReadable(img, p, y) {
      Arith.MulMonotone(y + 1, h, stride);
      Arith.MulMonotone(0, y, stride);
      assert (y + 1) * stride == y * stride + stride;
    }
  }

  /** Writing the image of a fetched frame writes the frame buffer, every byte once and in order. */
  lemma {:induction false} FetchedFrameWritesBack(c: Config, w: nat, h: nat, buffer: seq<Byte>)
    requires Consistent(c, w, h) && c.dstDecH > 0 && c.dstDecV > 0 && |buffer| == SampleBytes(c) * DstBufSz(c, w, h)
    ensures var img := ImageOf(c, w, h, buffer);
      Readable(img) && ImageBytes(img, [0, 1, 2], SampleBytes(c), 3) == buffer
  {
    hide Consistent, DstBufSz, PlaneBytes, ImageOf, Readable, ImageBytes, PlaneHeight, Area;
    Y4mReader.ConsistentDecimation(c, w, h);
    var img, p := ImageOf(c, w, h, buffer), Y4mReader.PlanesOf(c, w, h);
    assert forall q :: 0 <= q < 3 ==> Within(c, w, h, buffer, q) by {
      PlaneWithin(c, w, h, buffer, 0);
      PlaneWithin(c, w, h, buffer, 1);
      PlaneWithin(c, w, h, buffer, 2);
    }
    FetchedReadable(c, w, h, buffer);
    FetchedPlane(c, w, h, buffer, 0);
    FetchedPlane(c, w, h, buffer, 1);
    FetchedPlane(c, w, h, buffer, 2);
    assert img.highBitDepth == (c.bitDepth > 8) by { FetchedDepth(c, w, h, buffer); }
    ThreePlanes(img, SampleBytes(c));
    Y4mReader.PlanesTile(c, w, h);
    Stretches(buffer, p.startU, p.startV);
  }

  lemma {:induction false} FetchedDepth(c: Config, w: nat, h: nat, buffer: seq<Byte>)
    requires c.dstDecH > 0 && c.dstDecV > 0
    ensures ImageOf(c, w, h, buffer).highBitDepth == (c.bitDepth > 8)
  {
  }

  /** First byte and size of a plane in the frame buffer. */
  function StartOf(
      p: Y4mReader.Planes, plane: nat): nat { if plane == 0 then 0 else if plane == 1 then p.startU else p.startV }

  function SizeOf(p: Y4mReader.Planes, plane: nat): nat { if plane == 0 then p.sizeY else p.sizeC }

  /** A plane's rows follow each other without gaps inside the buffer. */
  ghost predicate Within(c: Config, w: nat, h: nat, buffer: seq<Byte>, q: nat)
    requires 1 <= c.dstDecH <= 2 && 1 <= c.dstDecV <= 2 && q < 3
  {
    var img, p := ImageOf(c, w, h, buffer), Y4mReader.PlanesOf(c, w, h);
    && img.planes[q].start == StartOf(p, q) && img.planes[q].stride == PlaneWidth(img, q) * SampleBytes(c)
    && PlaneHeight(img, q) * img.planes[q].stride == SizeOf(p, q) && StartOf(p, q) + SizeOf(p, q) <= |buffer|
  }

  lemma {:induction false} PlaneWithin(c: Config, w: nat, h: nat, buffer: seq<Byte>, q: nat)
    requires Consistent(c, w, h) && 1 <= c.dstDecH <= 2 && 1 <= c.dstDecV <= 2 && q < 3
    requires |buffer| == SampleBytes(c) * DstBufSz(c, w, h)
    ensures Within(c, w, h, buffer, q)
  {
    hide Consistent, DstBufSz, Area, Ceil, PlaneWidth, PlaneHeight;
    Y4mReader.PlanesTile(c, w, h);
    PlaneSizes(c, w, h, buffer, q);
    var p := Y4mReader.PlanesOf(c, w, h);
    AreaIsProduct(p.strideY, h);
    AreaIsProduct(p.strideC, Ceil(h, c.dstDecV));
  }

  lemma {:induction false} FetchedReadable(c: Config, w: nat, h: nat, buffer: seq<Byte>)
    requires 1 <= c.dstDecH <= 2 && 1 <= c.dstDecV <= 2 && forall q :: 0 <= q < 3 ==> Within(c, w, h, buffer, q)
    ensures Readable(ImageOf(c, w, h, buffer))
  {
    hide PlaneWidth, PlaneHeight, RowReadable;
    var img := ImageOf(c, w, h, buffer);
    forall q | 0 <= q < 3 ensures forall y :: 0 <= y < PlaneHeight(img, q) ==> RowReadable(img, q, y) {
      assert Within(c, w, h, buffer, q);
      RowsReadable(img, q);
    }
  }

  lemma {:induction false} FetchedPlane(c: Config, w: nat, h: nat, buffer: seq<Byte>, q: nat)
    requires 1 <= c.dstDecH <= 2 && 1 <= c.dstDecV <= 2 && q < 3 && Within(c, w, h, buffer, q)
    requires Readable(ImageOf(c, w, h, buffer))
    ensures var img, p := ImageOf(c, w, h, buffer), Y4mReader.PlanesOf(c, w, h);
      StartOf(p, q) + SizeOf(p, q) <= |buffer|
      && PlaneBytes(img, q, SampleBytes(c), PlaneHeight(img, q)) == buffer[StartOf(p, q)..StartOf(p, q) + SizeOf(p, q)]
  {
    hide PlaneWidth, PlaneHeight, Readable, PlaneBytes;
    var img := ImageOf(c, w, h, buffer);
    PlaneIsStretch(img, q, SampleBytes(c), PlaneHeight(img, q), SizeOf(Y4mReader.PlanesOf(c, w, h), q));
  }

  lemma {:induction false} AreaIsProduct(w: nat, h: nat)
    ensures Area(w, h) == h * w
  {
  }

  lemma {:induction false} Stretches(s: seq<Byte>, i: nat, j: nat)
    requires i <= j <= |s|
    ensures s[0..i] + s[i..j] + s[j..|s|] == s
  {
  }
}

/** The decoder's two ways of emitting an image: hashing it row by row, and writing it to a file. */
module ImageOutput {
  import opened Bytes
  import opened Files
  import opened Md5

  datatype Plane = Plane(start: int, stride: int)

  /** An image over a block of memory; strides may be negative (flipped images) or leave gaps. */
  datatype Image = Image(mem: seq<Byte>, highBitDepth: bool, dW: nat, dH: nat, xChromaShift: nat, yChromaShift: nat,
      planes: seq<Plane>)

  function Pow2(n: nat): (r: nat)
    ensures r > 0
  {
    if n == 0 then 1 else 2 * Pow2(n - 1)
  }

  function PlaneWidth(img: Image, plane: nat): nat {
    if plane > 0 && img.xChromaShift > 0 then (img.dW + 1) / Pow2(img.xChromaShift) else img.dW
  }

  function PlaneHeight(img: Image, plane: nat): nat {
    if plane > 0 && img.yChromaShift > 0 then (img.dH + 1) / Pow2(img.yChromaShift) else img.dH
  }

  /** Every row of every plane lies inside the memory block. */
  ghost predicate Readable(img: Image) {
    && |img.planes| == 3
    && forall p, y :: 0 <= p < 3 && 0 <= y < PlaneHeight(img, p) ==> RowReadable(img, p, y)
  }

  ghost predicate RowReadable(img: Image, p: nat, y: nat)
    requires p < |img.planes|
  {
    var at := img.planes[p].start + y * img.planes[p].stride;
    0 <= at && at + PlaneWidth(img, p) * (if img.highBitDepth then 2 else 1) <= |img.mem|
  }

  function Row(img: Image, p: nat, y: nat, bytes: nat): seq<Byte>
    requires Readable(img) && p < 3 && y < PlaneHeight(img, p)
    requires bytes == PlaneWidth(img, p) || bytes == PlaneWidth(img, p) * (if img.highBitDepth then 2 else 1)
  {
    assert RowReadable(img, p, y);
    var at := img.planes[p].start + y * img.planes[p].stride;
    img.mem[at..at + bytes]
  }

  /** The first n rows of a plane, sampleBytes bytes to a sample, without the gaps between rows. */
  function PlaneBytes(img: Image, p: nat, sampleBytes: nat, n: nat): seq<Byte>
    requires Readable(img) && p < 3 && n <= PlaneHeight(img, p)
    requires sampleBytes == 1 || (sampleBytes == 2 && img.highBitDepth)
  {
    if n == 0 then [] else PlaneBytes(img, p, sampleBytes, n - 1) + Row(img, p, n - 1, PlaneWidth(img, p) * sampleBytes)
  }

  /** The first n of the three planes, in the order given. */
  function ImageBytes(img: Image, order: seq<nat>, sampleBytes: nat, n: nat): seq<Byte>
    requires Readable(img) && |order| == 3 && n <= 3 && (forall i :: 0 <= i < 3 ==> order[i] < 3)
    requires sampleBytes == 1 || (sampleBytes == 2 && img.highBitDepth)
  {
    if n == 0 then []
    else
      ImageBytes(img, order, sampleBytes, n - 1)
      + PlaneBytes(img, order[n - 1], sampleBytes, PlaneHeight(img, order[n - 1]))
  }

  function Md5SampleBytes(img: Image): nat {
    if img.highBitDepth then 2 else 1
  }

  /** Without high bit depth support compiled in, the file writer always takes one byte per sample. */
  function FileSampleBytes(img: Image, configHighBitDepth: bool): nat {
    if configHighBitDepth && img.highBitDepth then 2 else 1
  }

  lemma {:induction false} PlaneExists(img: Image, p: nat)
    requires Readable(img) && p < 3
    ensures p < |img.planes|
  {
  }

  /** The address of a row; the next one is a stride away. */
  lemma {:induction false} RowAt(img: Image, p: nat, y: nat, at: int, sampleBytes: nat)
    requires Readable(img) && p < 3 && y < PlaneHeight(img, p)
        && (sampleBytes == 1 || (sampleBytes == 2 && img.highBitDepth))
    requires p < |img.planes| && at == img.planes[p].start + y * img.planes[p].stride
    ensures 0 <= at && at + PlaneWidth(img, p) * sampleBytes <= |img.mem|
    ensures Row(img, p, y, PlaneWidth(img, p) * sampleBytes) == img.mem[at..at + PlaneWidth(img, p) * sampleBytes]
    ensures at + img.planes[p].stride == img.planes[p].start + (y + 1) * img.planes[p].stride
  {
    hide PlaneWidth, PlaneHeight;
    assert RowReadable(img, p, y);
    assert (y + 1) * img.planes[p].stride == y * img.planes[p].stride + img.planes[p].stride;
  }

  method UpdatePlaneMd5(img: Image, plane: nat, md5: Md5Context)
    requires Readable(img) && plane < 3
    requires md5.Valid() && PlaneWidth(img, plane) * 2 < TWO_32
    modifies md5, md5.buf, md5.input
    ensures md5.Valid() && md5.msg == old(md5.msg)
        + PlaneBytes(img, plane, Md5SampleBytes(img), PlaneHeight(img, plane))
  {
    hide md5.Valid, Readable, PlaneWidth, PlaneHeight;
    PlaneExists(img, plane);
    var at := img.planes[plane].start;
    var stride := img.planes[plane].stride;
    var w := PlaneWidth(img, plane) * Md5SampleBytes(img);
    ghost var start := md5.msg;
    for y := 0 to PlaneHeight(img, plane)
      invariant at == img.planes[plane].start + y * stride
      invariant md5.Valid() && md5.msg == start + PlaneBytes(img, plane, Md5SampleBytes(img), y)
    {
      RowAt(img, plane, y, at, Md5SampleBytes(img));
      md5.Md5Update(img.mem[at..at + w]);
      at := at + stride;
    }
  }

  /** Hashes the planes row by row; the context ends up as if all their bytes had been one buffer. */
  method UpdateImageMd5(img: Image, order: seq<nat>, md5: Md5Context)
    requires Readable(img) && |order| == 3 && (forall i :: 0 <= i < 3 ==> order[i] < 3)
    requires md5.Valid() && (forall p :: 0 <= p < 3 ==> PlaneWidth(img, p) * 2 < TWO_32)
    modifies md5, md5.buf, md5.input
    ensures md5.Valid() && md5.msg == old(md5.msg) + ImageBytes(img, order, Md5SampleBytes(img), 3)
  {
    hide md5.Valid, PlaneBytes;
    ghost var before := md5.msg;
    for i := 0 to 3
      invariant md5.Valid() && md5.msg == before + ImageBytes(img, order, Md5SampleBytes(img), i)
    {
      UpdatePlaneMd5(img, order[i], md5);
    }
  }

  method WritePlane(img: Image, plane: nat, bytesPerSample: nat, file: OutFile)
    requires Readable(img) && plane < 3 && (bytesPerSample == 1 || (bytesPerSample == 2 && img.highBitDepth))
    requires file.pos == |file.bytes|
    modifies file
    ensures file.pos == |file.bytes|
    ensures file.bytes == old(file.bytes) + PlaneBytes(img, plane, bytesPerSample, PlaneHeight(img, plane))
  {
    hide Readable, PlaneWidth, PlaneHeight, Overwrite;
    PlaneExists(img, plane);
    var at := img.planes[plane].start;
    var stride := img.planes[plane].stride;
    var w := PlaneWidth(img, plane);
    ghost var start := file.bytes;
    for y := 0 to PlaneHeight(img, plane)
      invariant at == img.planes[plane].start + y * stride
      invariant file.bytes == start + PlaneBytes(img, plane, bytesPerSample, y) && file.pos == |file.bytes|
    {
      RowAt(img, plane, y, at, bytesPerSample);
      file.Write(img.mem[at..at + w * bytesPerSample]);
      at := at + stride;
    }
  }

  method WriteImageFile(img: Image, order: seq<nat>, configHighBitDepth: bool, file: OutFile)
    requires Readable(img) && |order| == 3 && (forall i :: 0 <= i < 3 ==> order[i] < 3)
    requires file.pos == |file.bytes|
    modifies file
    ensures file.pos == |file.bytes|
    ensures file.bytes == old(file.bytes) + ImageBytes(img, order, FileSampleBytes(img, configHighBitDepth), 3)
  {
    hide PlaneBytes;
    ghost var before := file.bytes;
    for i := 0 to 3
      invariant file.bytes == before + ImageBytes(img, order, FileSampleBytes(img, configHighBitDepth), i)
          && file.pos == |file.bytes|
    {
      WritePlane(img, order[i], FileSampleBytes(img, configHighBitDepth), file);
    }
  }

  lemma {:induction false} PlaneBytesLength(img: Image, p: nat, sampleBytes: nat, row: nat, n: nat)
    requires Readable(img) && p < 3 && n <= PlaneHeight(img, p)
    requires sampleBytes == 1 || (sampleBytes == 2 && img.highBitDepth)
    requires row == PlaneWidth(img, p) * sampleBytes
    ensures |PlaneBytes(img, p, sampleBytes, n)| == n * row
  {
    hide PlaneWidth, PlaneHeight;
    if n > 0 {
      PlaneBytesLength(img, p, sampleBytes, row, n - 1);
      assert RowReadable(img, p, n - 1);
      assert n * row == (n - 1) * row + row;
    }
  }

  ghost predicate HasSamples(img: Image) {
    exists p :: 0 <= p < 3 && PlaneWidth(img, p) > 0 && PlaneHeight(img, p) > 0
  }

  lemma {:induction false} TwiceTheBytes(img: Image, p: nat)
    requires Readable(img) && p < 3 && img.highBitDepth
    ensures |PlaneBytes(img, p, 2, PlaneHeight(img, p))| == 2 * |PlaneBytes(img, p, 1, PlaneHeight(img, p))|
    ensures |PlaneBytes(img, p, 1, PlaneHeight(img, p))| > 0 <==> PlaneWidth(img, p) > 0 && PlaneHeight(img, p) > 0
  {
    var h, w := PlaneHeight(img, p), PlaneWidth(img, p);
    hide PlaneWidth, PlaneHeight, PlaneBytes;
    PlaneBytesLength(img, p, 1, w, h);
    PlaneBytesLength(img, p, 2, w * 2, h);
    assert h * (w * 2) == 2 * (h * w);
  }

  lemma {:induction false} ThreePlanes(img: Image, sampleBytes: nat)
    requires Readable(img) && (sampleBytes == 1 || (sampleBytes == 2 && img.highBitDepth))
    ensures ImageBytes(img, [0, 1, 2], sampleBytes, 3) == PlaneBytes(img, 0, sampleBytes, PlaneHeight(img, 0))
      + PlaneBytes(img, 1, sampleBytes, PlaneHeight(img, 1)) + PlaneBytes(img, 2, sampleBytes, PlaneHeight(img, 2))
  {
    hide PlaneBytes, PlaneHeight;
    var first := PlaneBytes(img, 0, sampleBytes, PlaneHeight(img, 0));
    assert ImageBytes(img, [0, 1, 2], sampleBytes, 1) == [] + first == first;
    assert ImageBytes(img, [0, 1, 2], sampleBytes, 2) == first + PlaneBytes(img, 1, sampleBytes, PlaneHeight(img, 1));
  }

  /** Frame hash and frame file describe the same bytes exactly when the file writer knows about high bit
      depth, the image does not use it, or there is nothing to write. */
  lemma {:induction false} HashMatchesFile(img: Image, configHighBitDepth: bool)
    requires Readable(img)
    ensures ImageBytes(img, [0, 1, 2], Md5SampleBytes(img), 3)
        == ImageBytes(img, [0, 1, 2], FileSampleBytes(img, configHighBitDepth), 3)
      <==> configHighBitDepth || !img.highBitDepth || !HasSamples(img)
  {
    if !configHighBitDepth && img.highBitDepth {
      hide ImageBytes, PlaneBytes, PlaneWidth, PlaneHeight;
      TwiceTheBytes(img, 0);
      TwiceTheBytes(img, 1);
      TwiceTheBytes(img, 2);
      ThreePlanes(img, 1);
      ThreePlanes(img, 2);
      if !HasSamples(img) {
        assert ImageBytes(img, [0, 1, 2], 1, 3) == [] == ImageBytes(img, [0, 1, 2], 2, 3);
      } else {
        assert |ImageBytes(img, [0, 1, 2], 1, 3)| > 0;
      }
    }
  }

  /** An image of one 16-bit sample, which all planes share. */
  function OneSample(lo: Byte, hi: Byte): Image {
    Image([lo, hi], true, 1, 1, 1, 1, [Plane(0, 2), Plane(0, 2), Plane(0, 2)])
  }

  lemma {:induction false} OneSampleSizes(lo: Byte, hi: Byte)
    ensures var img := OneSample(lo, hi);
      Readable(img) && forall q :: 0 <= q < 3 ==> PlaneWidth(img, q) == PlaneHeight(img, q) == 1
  {
    var img := OneSample(lo, hi);
    assert Pow2(1) == 2;
    forall q, y | 0 <= q < 3 && 0 <= y < PlaneHeight(img, q) ensures RowReadable(img, q, y) {
      assert y == 0;
    }
  }

  lemma {:induction false} OneSampleBytes(lo: Byte, hi: Byte, q: nat)
    requires q < 3 && Readable(OneSample(lo, hi))
    requires PlaneWidth(OneSample(lo, hi), q) == PlaneHeight(OneSample(lo, hi), q) == 1
    ensures PlaneBytes(OneSample(lo, hi), q, 1, 1) == [lo] && PlaneBytes(OneSample(lo, hi), q, 2, 1) == [lo, hi]
  {
    var img := OneSample(lo, hi);
    hide PlaneWidth, PlaneHeight, Readable;
    assert img.planes[q] == Plane(0, 2);
    RowAt(img, q, 0, 0, 1);
    RowAt(img, q, 0, 0, 2);
    assert PlaneBytes(img, q, 1, 0) == PlaneBytes(img, q, 2, 0) == [];
    assert img.mem[0..1] == [lo] && img.mem[0..2] == [lo, hi];
  }

  /** Such an image is hashed in six bytes, but written in three by a build without high bit depth support. */
  lemma {:induction false} SixteenBitSampleIsCut(lo: Byte, hi: Byte)
    ensures var img := OneSample(lo, hi);
      && Readable(img)
      && ImageBytes(img, [0, 1, 2], Md5SampleBytes(img), 3) == [lo, hi, lo, hi, lo, hi]
      && ImageBytes(img, [0, 1, 2], FileSampleBytes(img, false), 3) == [lo, lo, lo]
  {
    OneSampleSizes(lo, hi);
    OneSampleBytes(lo, hi, 0);
    OneSampleBytes(lo, hi, 1);
    OneSampleBytes(lo, hi, 2);
    hide PlaneBytes, PlaneHeight, Readable, ImageBytes;
    ThreePlanes(OneSample(lo, hi), 1);
    ThreePlanes(OneSample(lo, hi), 2);
  }
}

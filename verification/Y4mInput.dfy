/** Opening a Y4M file and fetching its frames: y4minput.c above the tag parser and the converters. */
module Y4mInput {
  import opened Bytes
  import opened Wrappers
  import opened Y4mHeader
  import opened Y4mConvert
  import Arith

  // ----- What a chroma type means for buffers and conversion

  /** Everything y4m_input_open derives from the chroma type. */
  datatype Config = Config(
    fmt: ImageFormat, bps: nat, bitDepth: nat, dstDecH: nat, dstDecV: nat,
    dstReadSz: nat, auxSz: nat, auxReadSz: nat, convert: Converter)

  datatype Chroma =
    C420 | C420p10 | C420p12 | C420paldv | C422jpeg | C422 | C422p10 | C422p12 | C444 | C444p10 | C444p12 | Mono

  /** The supported chroma types; 411 has a converter but is rejected when opening. */
  function ChromaOf(t: seq<Byte>): Option<Chroma> {
    if t == Text("420") || t == Text("420jpeg") || t == Text("420mpeg2") then Some(C420)
    else if t == Text("420p10") then Some(C420p10)
    else if t == Text("420p12") then Some(C420p12)
    else if t == Text("420paldv") then Some(C420paldv)
    else if t == Text("422jpeg") then Some(C422jpeg)
    else if t == Text("422") then Some(C422)
    else if t == Text("422p10") then Some(C422p10)
    else if t == Text("422p12") then Some(C422p12)
    else if t == Text("444") then Some(C444)
    else if t == Text("444p10") then Some(C444p10)
    else if t == Text("444p12") then Some(C444p12)
    else if t == Text("mono") then Some(Mono)
    else None
  }

  function Area(w: nat, h: nat): nat { h * w }

  /** C's division, which truncates toward zero. */
  function CDiv(n: int, d: int): int
    requires d > 0
  {
    if n >= 0 then n / d else -(-n / d)
  }

  /** The conversion of an int to a 64-bit size. */
  function SizeT(x: int): nat { if x < 0 then x % TWO_64 else x }

  /** The configuration for a chroma type from the luma size and the sizes of a 4:2:0 and a 4:2:2 chroma plane, or
      None when the conversion to 4:2:0 is not supported. */
  function ConfigureSizes(chroma: Chroma, only420: bool, y: int, c420: int, c422: int): Option<Config> {
    match chroma
    case C420 => Some(Config(I420, 12, 8, 2, 2, SizeT(y + 2 * c420), 0, 0, ConvertNull))
    case C420p10 =>
      if only420 then None else Some(Config(I42016, 15, 10, 2, 2, SizeT(2 * (y + 2 * c420)), 0, 0, ConvertNull))
    case C420p12 =>
      if only420 then None else Some(Config(I42016, 18, 12, 2, 2, SizeT(2 * (y + 2 * c420)), 0, 0, ConvertNull))
    case C420paldv => Some(Config(I420, 12, 8, 2, 2, SizeT(y), SizeT(3 * c420), SizeT(2 * c420), Convert42xpaldv))
    case C422jpeg => Some(Config(I420, 12, 8, 2, 2, SizeT(y), SizeT(2 * c422), SizeT(2 * c422), Convert422jpeg))
    case C422 =>
      if only420 then Some(Config(I420, 12, 8, 2, 2, SizeT(y), SizeT(2 * c422 + c422), SizeT(2 * c422), Convert422))
      else Some(Config(I422, 16, 8, 2, 1, SizeT(y + 2 * c422), 0, 0, ConvertNull))
    case C422p10 =>
      if only420 then None else Some(Config(I42216, 20, 10, 2, 1, SizeT(2 * (y + 2 * c422)), 0, 0, ConvertNull))
    case C422p12 =>
      if only420 then None else Some(Config(I42216, 24, 12, 2, 1, SizeT(2 * (y + 2 * c422)), 0, 0, ConvertNull))
    case C444 =>
      if only420 then Some(Config(I420, 12, 8, 2, 2, SizeT(y), SizeT(2 * y + c422), SizeT(2 * y), Convert444))
      else Some(Config(I444, 24, 8, 1, 1, SizeT(3 * y), 0, 0, ConvertNull))
    case C444p10 => if only420 then None else Some(Config(I44416, 30, 10, 1, 1, SizeT(2 * 3 * y), 0, 0, ConvertNull))
    case C444p12 => if only420 then None else Some(Config(I44416, 36, 12, 1, 1, SizeT(2 * 3 * y), 0, 0, ConvertNull))
    case Mono => Some(Config(I420, 12, 8, 2, 2, SizeT(y), 0, 0, ConvertMono))
  }

  /** The configuration for a chroma type and size. A header line that did not parse may leave a size of zero or
      less. */
  function Configure(chroma: Chroma, only420: bool, w: int, h: int): Option<Config> {
    var cw, ch := CDiv(w + 1, 2), CDiv(h + 1, 2);
    ConfigureSizes(chroma, only420, h * w, ch * cw, h * cw)
  }

  lemma {:induction false} ConfigureAreas(chroma: Chroma, only420: bool, w: nat, h: nat)
    ensures Configure(chroma, only420, w, h)
      == ConfigureSizes(chroma, only420, Area(w, h), Area(Half(w), Half(h)), Area(Half(w), h))
  {
  }

  /** The size of the frame buffer asked for, in bytes. */
  function DstBytes(c: Config, w: int, h: int): nat
    requires c.dstDecH > 0 && c.dstDecV > 0
  {
    var cw, ch := CDiv(w + c.dstDecH - 1, c.dstDecH), CDiv(h + c.dstDecV - 1, c.dstDecV);
    SizeT(SampleBytes(c) * (h * w + 2 * (ch * cw)))
  }

  lemma {:induction false} DstBytesAreSamples(c: Config, w: nat, h: nat)
    requires c.dstDecH > 0 && c.dstDecV > 0
    ensures DstBytes(c, w, h) == SampleBytes(c) * DstBufSz(c, w, h)
  {
    assert CDiv(w + c.dstDecH - 1, c.dstDecH) == Ceil(w, c.dstDecH);
    assert CDiv(h + c.dstDecV - 1, c.dstDecV) == Ceil(h, c.dstDecV);
  }

  function Ceil(n: nat, d: nat): nat
    requires d > 0
  {
    (n + d - 1) / d
  }

  /** Samples of a frame buffer. */
  function DstBufSz(c: Config, w: nat, h: nat): nat
    requires c.dstDecH > 0 && c.dstDecV > 0
  {
    Area(w, h) + 2 * Area(Ceil(w, c.dstDecH), Ceil(h, c.dstDecV))
  }

  function SampleBytes(c: Config): nat { if c.bitDepth > 8 then 2 else 1 }

  /** What the converters need of the sizes. */
  ghost predicate Consistent(c: Config, w: nat, h: nat) {
    && 1 <= c.dstDecH <= 2 && 1 <= c.dstDecV <= 2
    && var total := SampleBytes(c) * DstBufSz(c, w, h);
      match c.convert
      case ConvertNull => c.dstReadSz == total && c.auxSz == c.auxReadSz == 0
      case ConvertMono => c.dstReadSz == Area(w, h) && total == Area(w, h) + 2 * Area(Half(w), Half(h))
          && c.auxSz == c.auxReadSz == 0
      case k =>
        && c.dstReadSz == Area(w, h) && total == Area(w, h) + 2 * Area(Half(w), Half(h))
        && c.auxReadSz == 2 * SrcChroma(k, w, h) && c.auxSz == 2 * SrcChroma(k, w, h) + Scratch(k, w, h)
  }

  lemma {:induction false} Areas(w: nat, h: nat, k: Converter)
    ensures Ceil(w, 1) == w && Ceil(h, 1) == h && Ceil(w, 2) == Half(w) && Ceil(h, 2) == Half(h)
    ensures SrcChroma(k, w, h) == Area(SrcWidth(k, w), SrcHeight(k, h))
    ensures Area(Half(w), Half(h)) <= Area(w, h) && Area(Half(w), h) <= Area(w, h)
  {
    Arith.MulMonotone(Half(w), w, h);
    Arith.MulMonotone(Half(h), h, Half(w));
  }

  /** For every supported chroma type the bytes read and the bytes converted fill the frame buffer exactly, and the
      auxiliary buffer holds the source planes and the scratch plane of its converter. */
  lemma {:induction false} SizesConsistent(chroma: Chroma, only420: bool, w: nat, h: nat)
    requires Configure(chroma, only420, w, h).Some?
    ensures Consistent(Configure(chroma, only420, w, h).value, w, h)
  {
    hide Area, Ceil, SrcChroma, Scratch, Half, Configure;
    ConfigureAreas(chroma, only420, w, h);
    Areas(w, h, ConvertNull);
    ConverterAreas(w, h);
  }

  lemma {:induction false} ConverterAreas(w: nat, h: nat)
    ensures SrcChroma(Convert42xpaldv, w, h) == Scratch(Convert42xpaldv, w, h) == Area(Half(w), Half(h))
    ensures SrcChroma(Convert422jpeg, w, h) == Area(Half(w), h) && Scratch(Convert422jpeg, w, h) == 0
    ensures SrcChroma(Convert422, w, h) == Scratch(Convert422, w, h) == Area(Half(w), h)
    ensures SrcChroma(Convert444, w, h) == Area(w, h) && Scratch(Convert444, w, h) == Area(Half(w), h)
  {
  }

  /** None of the size computations exceeds six times the picture, which parse_tags keeps within an int. */
  lemma {:induction false} SizesFitInt(chroma: Chroma, only420: bool, w: nat, h: nat)
    requires Configure(chroma, only420, w, h).Some? && Area(w, h) <= INT_MAX / 6
    ensures var c := Configure(chroma, only420, w, h).value;
      && c.dstDecH > 0 && c.dstDecV > 0
      && c.dstReadSz <= 6 * Area(w, h) && c.auxSz <= 6 * Area(w, h) && c.auxReadSz <= c.auxSz
          && 2 * DstBufSz(c, w, h) <= 6 * Area(w, h)
      && 6 * Area(w, h) <= INT_MAX
  {
    hide Area, Ceil, Configure;
    ConfigureAreas(chroma, only420, w, h);
    Areas(w, h, ConvertNull);
  }

  // ----- Where the int arithmetic of the sizes is defined

  predicate Fits(x: int) { -0x8000_0000 <= x <= 0x7fff_ffff }

  predicate Fits420(w: int, h: int) {
    var cw, ch := CDiv(w + 1, 2), CDiv(h + 1, 2);
    Fits(w + 1) && Fits(h + 1) && Fits(2 * cw) && Fits(2 * cw * ch)
  }

  predicate Fits422(w: int, h: int) {
    var cw := CDiv(w + 1, 2);
    Fits(w + 1) && Fits(2 * cw) && Fits(2 * cw * h)
  }

  predicate FitsDst(decH: nat, decV: nat, w: int, h: int)
    requires decH > 0 && decV > 0
  {
    var cw, ch := CDiv(w + decH - 1, decH), CDiv(h + decV - 1, decV);
    Fits(w + decH) && Fits(h + decV) && Fits(2 * cw) && Fits(2 * cw * ch) && Fits(w * h + 2 * cw * ch)
  }

  /** No int expression evaluated for the sizes of a chroma type overflows. */
  predicate SizesDefined(chroma: Chroma, only420: bool, w: int, h: int) {
    var cw, ch, y := CDiv(w + 1, 2), CDiv(h + 1, 2), w * h;
    && Fits(y)
    && (match chroma
        case C420 => Fits420(w, h) && Fits(y + 2 * cw * ch)
        case C420p10 | C420p12 => Fits420(w, h) && Fits(y + 2 * cw * ch) && Fits(2 * (y + 2 * cw * ch))
        case C420paldv => Fits420(w, h) && Fits(3 * cw) && Fits(3 * cw * ch)
        case C422jpeg => Fits422(w, h)
        case C422 => Fits422(w, h) && (if only420 then Fits(cw * h) else Fits(y + 2 * cw * h))
        case C422p10 | C422p12 => Fits422(w, h) && Fits(y + 2 * cw * h) && Fits(2 * (y + 2 * cw * h))
        case C444 =>
          if only420 then Fits(2 * w) && Fits(2 * w * h) && Fits(w + 1) && Fits(cw * h)
              else Fits(3 * w) && Fits(3 * w * h)
        case C444p10 | C444p12 => Fits(6 * w) && Fits(6 * w * h)
        case Mono => true)
    && var c := Configure(chroma, only420, w, h); c.Some? ==> FitsDst(c.value.dstDecH, c.value.dstDecV, w, h)
  }

  lemma {:induction false} HalvesAre(w: nat, h: nat)
    ensures CDiv(w + 1, 2) == (w + 1) / 2 && CDiv(h + 1, 2) == (h + 1) / 2
    ensures CDiv(w + 2 - 1, 2) == (w + 1) / 2 && CDiv(h + 2 - 1, 2) == (h + 1) / 2
    ensures CDiv(w + 1 - 1, 1) == w && CDiv(h + 1 - 1, 1) == h
  {
  }

  lemma {:induction false} Grouped(k: int, x: int, y: int)
    ensures k * x * y == k * (x * y)
  {
  }

  lemma {:induction false} ProductBounds(w: nat, h: nat, k: nat)
    requires w > 0 && h > 0 && w * h <= k
    ensures var cw, ch := (w + 1) / 2, (h + 1) / 2;
      w <= k && h <= k && 0 <= cw * h <= k && 0 <= cw * ch <= k
  {
    var cw, ch := (w + 1) / 2, (h + 1) / 2;
    Arith.MulMonotone(1, h, w);
    Arith.MulMonotone(1, w, h);
    Arith.MulMonotone(cw, w, h);
    Arith.MulMonotone(ch, h, cw);
    Arith.MulMonotone(0, cw, ch);
    Arith.MulMonotone(0, cw, h);
  }

  lemma {:induction false} SmallChroma(w: nat, h: nat)
    requires w > 0 && h > 0 && w * h <= INT_MAX / 6
    ensures Fits420(w, h) && Fits422(w, h)
    ensures FitsDst(2, 2, w, h) && FitsDst(2, 1, w, h) && FitsDst(1, 1, w, h)
  {
    hide CDiv;
    var cw, ch := (w + 1) / 2, (h + 1) / 2;
    HalvesAre(w, h);
    ProductBounds(w, h, INT_MAX / 6);
    Grouped(2, cw, ch);
    Grouped(2, cw, h);
    Grouped(2, w, h);
  }

  lemma {:induction false} MultipleFits(k: nat, x: nat, y: nat, m: nat)
    requires k <= 6 && x <= INT_MAX / 6 && x * y == m && m <= INT_MAX / 6
    ensures Fits(k * x) && k * x * y == k * m && Fits(k * m)
  {
    Grouped(k, x, y);
  }

  lemma {:induction false} SmallTotals(w: nat, h: nat)
    requires w > 0 && h > 0 && w * h <= INT_MAX / 6
    ensures var cw, ch, y := CDiv(w + 1, 2), CDiv(h + 1, 2), w * h;
      && Fits(y) && Fits(y + 2 * cw * ch) && Fits(2 * (y + 2 * cw * ch)) && Fits(3 * cw) && Fits(3 * cw * ch)
      && Fits(cw * h) && Fits(y + 2 * cw * h) && Fits(2 * (y + 2 * cw * h))
      && Fits(w + 1) && Fits(2 * w) && Fits(2 * w * h) && Fits(3 * w) && Fits(3 * w * h) && Fits(6 * w)
          && Fits(6 * w * h)
  {
    var cw, ch := (w + 1) / 2, (h + 1) / 2;
    HalvesAre(w, h);
    ProductBounds(w, h, INT_MAX / 6);
    hide CDiv;
    var y, c420, c422 := w * h, cw * ch, cw * h;
    MultipleFits(2, cw, ch, c420);
    MultipleFits(3, cw, ch, c420);
    MultipleFits(2, cw, h, c422);
    MultipleFits(2, w, h, y);
    MultipleFits(3, w, h, y);
    MultipleFits(6, w, h, y);
    SumsFit(y, c420);
    SumsFit(y, c422);
  }

  lemma {:induction false} SumsFit(y: nat, c: nat)
    requires y <= INT_MAX / 6 && c <= INT_MAX / 6
    ensures Fits(y) && Fits(c) && Fits(y + 2 * c) && Fits(2 * (y + 2 * c))
  {
  }

  /** The check of parse_tags keeps every size computation within an int. */
  lemma {:induction false} AcceptedSizesDefined(chroma: Chroma, only420: bool, w: nat, h: nat)
    requires w > 0 && h > 0 && w * h <= INT_MAX / 6
    ensures SizesDefined(chroma, only420, w, h)
  {
    hide Fits, Fits420, Fits422, FitsDst, CDiv, SizeT;
    SmallChroma(w, h);
    SmallTotals(w, h);
  }

  /** The format, its bits per pixel and the buffer layout of a configuration describe the same sampling; samples
      of more than 8 bits are never converted, and forcing 4:2:0 yields 8-bit 4:2:0 or nothing. */
  lemma {:induction false} SamplingConsistent(chroma: Chroma, only420: bool, w: nat, h: nat)
    requires Configure(chroma, only420, w, h).Some?
    ensures var c := Configure(chroma, only420, w, h).value;
      var area := c.dstDecH * c.dstDecV;
      && c.bps * area == c.bitDepth * (area + 2)
      && (c.fmt == I420 || c.fmt == I42016 <==> c.dstDecH == 2 && c.dstDecV == 2)
      && (c.fmt == I422 || c.fmt == I42216 <==> c.dstDecH == 2 && c.dstDecV == 1)
      && (c.fmt == I444 || c.fmt == I44416 <==> c.dstDecH == 1 && c.dstDecV == 1)
      && (c.fmt == I42016 || c.fmt == I42216 || c.fmt == I44416 <==> c.bitDepth > 8)
      && (c.bitDepth > 8 ==> c.convert == ConvertNull) && (only420 ==> c.fmt == I420)
  {
    hide Area;
  }

  // ----- The header as read back from a file the writer made

  lemma {:induction false} TextInjective(s: string, t: string)
    requires Printable(s) && Printable(t)
    ensures Text(s) == Text(t) <==> s == t
  {
    if Text(s) == Text(t) {
      forall i | 0 <= i < |s| ensures s[i] == t[i] {
        assert Text(s)[i] == Text(t)[i];
      }
    }
  }

  /** A chroma type is recognised by its name. */
  function ChromaNamed(t: string): Option<Chroma> {
    if t == "420" || t == "420jpeg" || t == "420mpeg2" then Some(C420)
    else if t == "420p10" then Some(C420p10)
    else if t == "420p12" then Some(C420p12)
    else if t == "420paldv" then Some(C420paldv)
    else if t == "422jpeg" then Some(C422jpeg)
    else if t == "422" then Some(C422)
    else if t == "422p10" then Some(C422p10)
    else if t == "422p12" then Some(C422p12)
    else if t == "444" then Some(C444)
    else if t == "444p10" then Some(C444p10)
    else if t == "444p12" then Some(C444p12)
    else if t == "mono" then Some(Mono)
    else None
  }

  lemma {:induction false} ChromaByName(t: string)
    requires Printable(t)
    ensures ChromaOf(Text(t)) == ChromaNamed(t)
  {
    hide Text;
    TextInjective(t, "420");
    TextInjective(t, "420jpeg");
    TextInjective(t, "420mpeg2");
    TextInjective(t, "420p10");
    TextInjective(t, "420p12");
    TextInjective(t, "420paldv");
    TextInjective(t, "422jpeg");
    TextInjective(t, "422");
    TextInjective(t, "422p10");
    TextInjective(t, "422p12");
    TextInjective(t, "444");
    TextInjective(t, "444p10");
    TextInjective(t, "444p12");
    TextInjective(t, "mono");
  }

  /** The formats the writer can express at a depth. */
  predicate Expressible(fmt: ImageFormat, depth: nat) {
    if depth == 8 then fmt == I420 || fmt == I422 || fmt == I444 else fmt == I42016 || fmt == I42216 || fmt == I44416
  }

  lemma {:induction false} NamesRejected(fmt: ImageFormat, depth: nat)
    requires depth == 9 || depth == 14 || depth == 16
    ensures ChromaNamed(ChromaType(fmt, depth)) == None
  {
    var t := ChromaType(fmt, depth);
    if depth == 9 {
      assert |t| == 5;
    } else {
      assert |t| == 6 && t[5] == DepthText(depth)[1];
    }
  }

  lemma {:induction false} NamesOf8(fmt: ImageFormat)
    ensures ChromaNamed(ChromaType(fmt, 8)) == Some(if fmt == I444 then C444 else if fmt == I422 then C422 else C420)
  {
    var t := ChromaType(fmt, 8);
    assert t == if fmt == I444 then "444" else if fmt == I422 then "422" else "420jpeg";
  }

  lemma {:induction false} NamesOf10(fmt: ImageFormat)
    ensures ChromaNamed(ChromaType(fmt, 10))
        == Some(if fmt == I44416 then C444p10 else if fmt == I42216 then C422p10 else C420p10)
  {
    var t := ChromaType(fmt, 10);
    assert t == if fmt == I44416 then "444p10" else if fmt == I42216 then "422p10" else "420p10";
  }

  lemma {:induction false} NamesOf12(fmt: ImageFormat)
    ensures ChromaNamed(ChromaType(fmt, 12))
        == Some(if fmt == I44416 then C444p12 else if fmt == I42216 then C422p12 else C420p12)
  {
    var t := ChromaType(fmt, 12);
    assert t == if fmt == I44416 then "444p12" else if fmt == I42216 then "422p12" else "420p12";
  }

  /** Opening what was written: the depths 9, 14 and 16 are always rejected; at the others the depth comes back,
      and the format comes back exactly when the writer had a name for it. */
  lemma {:induction false} FormatRoundTrip(fmt: ImageFormat, depth: nat, w: nat, h: nat)
    requires WritableDepth(depth)
    ensures var c := ChromaOf(Text(ChromaType(fmt, depth)));
      if depth == 9 || depth == 14 || depth == 16 then c == None
      else c.Some? && Configure(c.value, false, w, h).Some? && var k := Configure(c.value, false, w, h).value;
        k.bitDepth == depth && k.convert == ConvertNull && (k.fmt == fmt <==> Expressible(fmt, depth))
  {
    hide ChromaNamed, ChromaType, ChromaOf, Text;
    ChromaByName(ChromaType(fmt, depth));
    match depth {
      case 8 => NamesOf8(fmt);
      case 10 => NamesOf10(fmt);
      case 12 => NamesOf12(fmt);
      case _ => NamesRejected(fmt, depth);
    }
  }

  // ----- The converter of every chroma type

  /** 420paldv, 422jpeg and mono always have a converter, 422 and 444 when only 4:2:0 is wanted, each the one for its
      sampling. Samples of more than 8 bits are never converted, but rejected when only 4:2:0 is wanted. */
  lemma {:induction false} ConverterOf(chroma: Chroma, only420: bool, w: nat, h: nat)
    ensures var c := Configure(chroma, only420, w, h);
      match chroma
      case C420 => c.Some? && c.value.convert == ConvertNull
      case C420paldv => c.Some? && c.value.convert == Convert42xpaldv
      case C422jpeg => c.Some? && c.value.convert == Convert422jpeg
      case C422 => c.Some? && c.value.convert == if only420 then Convert422 else ConvertNull
      case C444 => c.Some? && c.value.convert == if only420 then Convert444 else ConvertNull
      case Mono => c.Some? && c.value.convert == ConvertMono
      case _ => if only420 then c == None else c.Some? && c.value.convert == ConvertNull
  {
    hide SizeT, CDiv;
  }
}

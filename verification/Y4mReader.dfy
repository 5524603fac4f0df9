/** Reading a Y4M file: the header from the front of the file, then frame after frame. */
module Y4mReader {
  import opened Bytes
  import opened Files
  import opened Wrappers
  import opened Y4mHeader
  import opened Y4mConvert
  import opened Y4mInput

  // ----- The header

  lemma {:induction false} TokenEndStep(s: seq<Byte>, i: nat)
    requires i <= |s|
    ensures TokenEnd(s, i) == if i == |s| || EndsTag(s[i]) then i else TokenEnd(s, i + 1)
  {
  }

  /** Copies one tag into a buffer of 256 characters; fails at the end of the file or of the buffer. */
  method CopyTag(file: InFile) returns (r: Option<(seq<Byte>, Byte)>)
    requires file.Valid()
    modifies file
    ensures file.Valid()
    ensures match NextTag(old(file.Rest()))
      case Some(t) => r == Some((t.tag, t.end)) && file.Rest() == t.rest
      case None => r == None && file.Rest() == AfterBadTag(old(file.Rest()))
  {
    ghost var s0 := file.Rest();
    var b, ok := file.Read(1);
    if !ok { return None; }
    ghost var s := s0;
    while b[0] == SPACE
      invariant file.Valid() && s != [] && b == s[..1] && file.Rest() == s[1..]
      invariant NextTag(s) == NextTag(s0) && AfterBadTag(s) == AfterBadTag(s0)
      decreases |s|
    {
      s := s[1..];
      b, ok := file.Read(1);
      if !ok { return None; }
    }
    if b[0] == NEWLINE {
      return Some(([], NEWLINE));
    }
    r := CopyRest(file, b, s);
  }

  /** Copies the rest of a tag up to a space or the end of the line, or until the buffer is exhausted. */
  method CopyRest(file: InFile, first: seq<Byte>, ghost s: seq<Byte>) returns (r: Option<(seq<Byte>, Byte)>)
    requires file.Valid() && s != [] && first == s[..1] && file.Rest() == s[1..] && !EndsTag(s[0])
    modifies file
    ensures file.Valid()
    ensures match NextTag(s)
      case Some(t) => r == Some((t.tag, t.end)) && file.Rest() == t.rest
      case None => r == None && file.Rest() == AfterBadTag(s)
  {
    var buf := first;
    while |buf| < TAG_BUFFER
      invariant file.Valid() && 1 <= |buf| <= TAG_BUFFER && |buf| <= |s|
      invariant buf == s[..|buf|] && file.Rest() == s[|buf|..]
      invariant TokenEnd(s, 1) == TokenEnd(s, |buf|)
      decreases TAG_BUFFER - |buf|
    {
      TokenEndStep(s, |buf|);
      var b, ok := file.Read(1);
      if !ok { return None; }
      if EndsTag(b[0]) {
        assert s[|buf|] == b[0] && TokenEnd(s, 1) == |buf|;
        return Some((buf, b[0]));
      }
      assert s[..|buf| + 1] == buf + b;
      buf := buf + b;
    }
    return None;
  }

  /** Collects the tags of the header line and checks the mandatory ones. */
  method ParseTagsFrom(file: InFile, fpsD: int) returns (ok: bool, h: Header)
    requires file.Valid()
    modifies file
    ensures file.Valid() && ParseTags(fpsD, old(file.Rest())) == Line(ok, h, file.Rest())
  {
    hide NextTag, ParseTagString, AfterBadTag;
    h := Defaults(fpsD);
    ghost var s0 := file.Rest();
    var end := SPACE;
    while end != NEWLINE
      invariant file.Valid() && EndsTag(end)
      invariant ParseLine(Defaults(fpsD), s0) == if end == NEWLINE then Line(true, h, file.Rest())
          else ParseLine(h, file.Rest())
      decreases if end == NEWLINE then 0 else 1, |file.Rest()|
    {
      ghost var s := file.Rest();
      var t := CopyTag(file);
      if t.None? { return false, h; }
      NextTagShrinks(s);
      var p := Y4mParseTags(h, CString(t.value.0));
      h := p.header;
      if !p.ok { return false, h; }
      end := t.value.1;
    }
    ok := Acceptable(h);
  }

  lemma {:induction false} NextTagShrinks(s: seq<Byte>)
    ensures NextTag(s).Some? ==> |NextTag(s).value.rest| < |s| && EndsTag(NextTag(s).value.end)
    decreases |s|
  {
    if s != [] && s[0] == SPACE {
      NextTagShrinks(s[1..]);
    }
  }

  ghost predicate SaneSize(h: Header) {
    (h.picW == -1 || h.picW > 0) && (h.picH == -1 || h.picH > 0)
  }

  lemma {:induction false} TagStringSane(h: Header, s: seq<Byte>)
    requires SaneSize(h)
    ensures ParseTagString(h, s).ok ==> SaneSize(ParseTagString(h, s).header)
    decreases |s|
  {
    hide ScanInt, ScanPair;
    if s != [] {
      if s[0] == SPACE {
        TagStringSane(h, s[1..]);
      } else {
        var q := TagEnd(s, 1);
        var t := ParseTag(h, s, q);
        if t.ok {
          TagStringSane(t.header, s[q..]);
        }
      }
    }
  }

  lemma {:induction false} LineSane(h: Header, s: seq<Byte>)
    requires SaneSize(h)
    ensures ParseLine(h, s).ok ==> SaneSize(ParseLine(h, s).header)
    decreases |s|
  {
    hide NextTag, ParseTagString;
    NextTagShrinks(s);
    var t := NextTag(s);
    if t.Some? {
      TagStringSane(h, CString(t.value.tag));
      var p := ParseTagString(h, CString(t.value.tag));
      if p.ok && t.value.end != NEWLINE {
        LineSane(p.header, t.value.rest);
      }
    }
  }

  const MAGIC := Text("YUV4MPEG2") + [SPACE]

  /** What opening a file yields: whether the header line parsed, its fields and the configuration, and the input
      from there on. */
  datatype Opened = Opened(parsed: bool, header: Header, config: Config, rest: seq<Byte>)

  /** The result of opening a file; None for a rejected one. A header line that does not parse is only reported:
      opening goes on with the fields as they are then. grants says which sizes the allocator provides. */
  function OpenSpec(fpsD: int, s: seq<Byte>, only420: bool, grants: nat -> bool): Option<Opened> {
    if !(MAGIC <= s) then None
    else
      var l := ParseTags(fpsD, s[|MAGIC|..]);
      if l.header.interlace != '?' as int && l.header.interlace != 'p' as int then None
      else
        match ChromaOf(l.header.chroma)
        case None => None
        case Some(k) =>
          match Configure(k, only420, l.header.picW, l.header.picH)
          case None => None
          case Some(c) =>
            ConfiguredDecimation(k, only420, l.header.picW, l.header.picH);
            if grants(DstBytes(c, l.header.picW, l.header.picH)) && (c.auxSz > 0 ==> grants(c.auxSz))
            then Some(Opened(l.ok, l.header, c, l.rest)) else None
  }

  /** The sizes computed while opening do not overflow an int; otherwise the behaviour of the source is undefined. */
  predicate OpenDefined(fpsD: int, s: seq<Byte>, only420: bool) {
    MAGIC <= s ==>
      var h := ParseTags(fpsD, s[|MAGIC|..]).header;
      var k := ChromaOf(h.chroma);
      var progressive := h.interlace == '?' as int || h.interlace == 'p' as int;
      progressive && k.Some? ==> SizesDefined(k.value, only420, h.picW, h.picH)
  }

  /** Whenever the header line parses, opening is defined. */
  lemma {:induction false} ParsedIsDefined(fpsD: int, s: seq<Byte>, only420: bool)
    requires MAGIC <= s && ParseTags(fpsD, s[|MAGIC|..]).ok
    ensures OpenDefined(fpsD, s, only420)
  {
    hide ParseTags, SizesDefined, Text, ChromaOf;
    ParsedSane(fpsD, s[|MAGIC|..]);
    var h := ParseTags(fpsD, s[|MAGIC|..]).header;
    var k := ChromaOf(h.chroma);
    if k.Some? {
      AcceptedSizesDefined(k.value, only420, h.picW, h.picH);
    }
  }

  lemma {:induction false} ConfiguredDecimation(k: Chroma, only420: bool, w: int, h: int)
    ensures var c := Configure(k, only420, w, h); c.Some? ==> 1 <= c.value.dstDecH <= 2 && 1 <= c.value.dstDecV <= 2
  {
    hide SizeT;
  }

  // ----- Frames

  datatype Skipped = NoFrame | BadFrame | Data(rest: seq<Byte>)

  /** Looks for the end of the frame header line in at most 79 characters. */
  function SkipLine(s: seq<Byte>, j: nat): (r: Skipped)
    requires j <= 79
    ensures !r.NoFrame?
    decreases 79 - j
  {
    if j == 79 then BadFrame
    else if s == [] then Data([])
    else if s[0] == NEWLINE then Data(s[1..])
    else SkipLine(s[1..], j + 1)
  }

  function SkipFrameHeader(s: seq<Byte>): Skipped {
    if |s| < 6 then NoFrame
    else if s[..5] != Text("FRAME") then BadFrame
    else if s[5] == NEWLINE then Data(s[6..])
    else SkipLine(s[6..], 0)
  }

  datatype Fetched = NoMore | Failed | Frame(picture: seq<Byte>, rest: seq<Byte>)

  /** The finished frame buffer for the bytes read directly and the bytes read for conversion. */
  function Finished(c: Config, w: nat, h: nat, data: seq<Byte>, aux: seq<Byte>): seq<Byte>
    requires Consistent(c, w, h) && |data| == c.dstReadSz && |aux| == c.auxReadSz
  {
    match c.convert
    case ConvertNull => data
    case ConvertMono => data + Grey(2 * Area(Half(w), Half(h)))
    case k => data + ConvertedChroma(k, aux, w, h)
  }

  function Grey(n: nat): (r: seq<Byte>)
    ensures |r| == n && forall i :: 0 <= i < n ==> r[i] == 128
  {
    seq(n, _ => 128)
  }

  function FetchSpec(c: Config, w: nat, h: nat, s: seq<Byte>): Fetched
    requires Consistent(c, w, h)
  {
    match SkipFrameHeader(s)
    case NoFrame => NoMore
    case BadFrame => Failed
    case Data(t) =>
      if |t| < c.dstReadSz + c.auxReadSz then Failed
      else Frame(Finished(c, w, h, t[..c.dstReadSz], t[c.dstReadSz..c.dstReadSz + c.auxReadSz]),
          t[c.dstReadSz + c.auxReadSz..])
  }

  class Y4mSource {
    var header: Header
    var config: Config
    var dstBuf: array<Byte>
    var auxBuf: array<Byte>

    /** The buffers fit the configuration of a picture of this size. */
    ghost predicate Valid()
      reads this
    {
      && header.picW >= 0 && header.picH >= 0
      && Consistent(config, header.picW, header.picH)
      && dstBuf.Length == SampleBytes(config) * DstBufSz(config, header.picW, header.picH)
      && auxBuf.Length == config.auxSz && dstBuf != auxBuf
    }

    constructor ()
    {
      header := Defaults(-1);
      config := Config(I420, 12, 8, 2, 2, 0, 0, 0, ConvertNull);
      dstBuf, auxBuf := new Byte[0], new Byte[0];
    }

    /** Opens a file whose first bytes may already have been read for type detection. Returns 0, or -1 when the
        file is rejected. A header line that does not parse does not reject it; fetching frames then makes sense
        only for a picture that is not of negative size. */
    method Open(file: InFile, skip: seq<Byte>, only420: bool, grants: nat -> bool) returns (res: int)
      requires file.Valid() && |skip| <= 8 && OpenDefined(header.fpsD, skip + file.Rest(), only420)
      modifies this, file
      ensures file.Valid()
      ensures match OpenSpec(old(header.fpsD), skip + old(file.Rest()), only420, grants)
        case None => res == -1
        case Some(o) => (
          && res == 0 && fresh(dstBuf) && fresh(auxBuf) && (o.header.picW >= 0 && o.header.picH >= 0 ==> Valid())
          && header == o.header && config == o.config && file.Rest() == o.rest)
    {
      hide ParseTags, Configure, ChromaOf, Consistent, Text, DstBytes, OpenDefined;
      ghost var s := skip + file.Rest();
      ghost var fpsD := header.fpsD;
      var tag, ok := file.Read(9 - |skip|);
      if !ok { return -1; }
      assert skip + tag == s[..9] && file.Rest() == s[9..];
      if skip + tag != Text("YUV4MPEG2") { MagicPrefix(s); return -1; }
      tag, ok := file.Read(1);
      if !ok || tag[0] != SPACE { MagicPrefix(s); return -1; }
      assert file.Rest() == s[10..];
      MagicPrefix(s);
      ok, header := ParseTagsFrom(file, header.fpsD);
      if header.interlace != '?' as int && header.interlace != 'p' as int { return -1; }
      var chroma := ChromaOf(header.chroma);
      if chroma.None? { return -1; }
      var c := Configure(chroma.value, only420, header.picW, header.picH);
      if c.None? { return -1; }
      config := c.value;
      ConfiguredDecimation(chroma.value, only420, header.picW, header.picH);
      ok := Allocate(grants);
      if !ok { return -1; }
      if header.picW >= 0 && header.picH >= 0 {
        SizesConsistent(chroma.value, only420, header.picW, header.picH);
        DstBytesAreSamples(config, header.picW, header.picH);
      }
      return 0;
    }

    /** Allocates both buffers; an empty auxiliary buffer needs no memory. */
    method Allocate(grants: nat -> bool) returns (ok: bool)
      requires config.dstDecH > 0 && config.dstDecV > 0
      modifies this
      ensures header == old(header) && config == old(config)
      ensures ok <==> grants(DstBytes(config, header.picW, header.picH)) && (config.auxSz > 0 ==> grants(config.auxSz))
      ensures ok ==> fresh(dstBuf) && fresh(auxBuf) && dstBuf != auxBuf
      ensures ok ==> dstBuf.Length == DstBytes(config, header.picW, header.picH) && auxBuf.Length == config.auxSz
    {
      hide DstBytes;
      var n := DstBytes(config, header.picW, header.picH);
      if !grants(n) { return false; }
      dstBuf := new Byte[n](_ => 0);
      if config.auxSz > 0 && !grants(config.auxSz) { return false; }
      auxBuf := new Byte[config.auxSz](_ => 0);
      return true;
    }

    /** Reads and discards the rest of a frame header line; returns whether its end was found within 79 characters. */
    method SkipParameters(file: InFile) returns (ok: bool)
      requires file.Valid()
      modifies file
      ensures file.Valid()
      ensures match SkipLine(old(file.Rest()), 0)
        case Data(t) => ok && file.Rest() == t
        case _ => !ok
    {
      ghost var s0 := file.Rest();
      var j := 0;
      while j < 79
        invariant 0 <= j <= 79 && file.Valid() && SkipLine(s0, 0) == SkipLine(file.Rest(), j)
      {
        ghost var s := file.Rest();
        var c, got := file.Read(1);
        if !got || c[0] == NEWLINE { break; }
        assert file.Rest() == s[1..];
        j := j + 1;
      }
      ok := j != 79;
    }

    /** Reads a frame header: 1 when there is one, 0 at the end of the input, -1 for an error. */
    method ReadFrameHeader(file: InFile) returns (res: int)
      requires file.Valid()
      modifies file
      ensures file.Valid()
      ensures match SkipFrameHeader(old(file.Rest()))
        case NoFrame => res == 0
        case BadFrame => res == -1
        case Data(t) => res == 1 && file.Rest() == t
    {
      hide SkipLine, Text;
      var frame, ok := file.Read(6);
      if !ok { return 0; }
      if frame[..5] != Text("FRAME") { return -1; }
      if frame[5] != NEWLINE {
        ok := SkipParameters(file);
        if !ok { return -1; }
      }
      res := 1;
    }

    /** Reads the samples of a frame: those taken as they are, and those still to be converted. */
    method ReadSamples(file: InFile) returns (data: seq<Byte>, aux: seq<Byte>, ok: bool)
      requires file.Valid()
      modifies file
      ensures file.Valid()
      ensures var (t, n, m) := (old(file.Rest()), config.dstReadSz, config.auxReadSz);
        && ok == (n + m <= |t|)
        && (ok ==> data == t[..n] && aux == t[n..n + m] && file.Rest() == t[n + m..])
    {
      ghost var t := file.Rest();
      data, ok := file.Read(config.dstReadSz);
      aux := [];
      if !ok { return; }
      aux, ok := file.Read(config.auxReadSz);
      if !ok { return; }
      assert t[config.dstReadSz..][..config.auxReadSz] == t[config.dstReadSz..config.dstReadSz + config.auxReadSz];
      assert t[config.dstReadSz..][config.auxReadSz..] == t[config.dstReadSz + config.auxReadSz..];
    }

    /** Fetches one frame into dstBuf: 1 for a frame, 0 at the end of the input, -1 for an error. */
    method FetchFrame(file: InFile) returns (res: int)
      requires Valid() && file.Valid()
      modifies file, dstBuf, auxBuf
      ensures file.Valid()
      ensures match FetchSpec(config, header.picW, header.picH, old(file.Rest()))
        case NoMore => res == 0
        case Failed => res == -1
        case Frame(picture, rest) => res == 1 && dstBuf[..] == picture && file.Rest() == rest
    {
      hide SkipFrameHeader, Consistent, Finished, DstBufSz;
      res := ReadFrameHeader(file);
      if res != 1 { return; }
      var data, aux, ok := ReadSamples(file);
      if !ok { return -1; }
      FillAndConvert(data, aux);
    }

    method FillAndConvert(data: seq<Byte>, aux: seq<Byte>)
      requires Valid() && |data| == config.dstReadSz && |aux| == config.auxReadSz
      modifies dstBuf, auxBuf
      ensures dstBuf[..] == Finished(config, header.picW, header.picH, data, aux)
    {
      hide ConvertedChroma;
      forall i | 0 <= i < |data| { dstBuf[i] := data[i]; }
      forall i | 0 <= i < |aux| { auxBuf[i] := aux[i]; }
      assert dstBuf[..|data|] == data && auxBuf[..|aux|] == aux;
      match config.convert {
        case ConvertNull =>
        case ConvertMono =>
          forall i | |data| <= i < dstBuf.Length { dstBuf[i] := 128; }
          assert dstBuf[..] == data + Grey(dstBuf.Length - |data|);
        case k =>
          Convert(k, dstBuf, auxBuf, header.picW, header.picH, |data|);
      }
    }
  }

  lemma {:induction false} ConsistentDecimation(c: Config, w: nat, h: nat)
    requires Consistent(c, w, h)
    ensures 1 <= c.dstDecH <= 2 && 1 <= c.dstDecV <= 2
  {
  }

  lemma {:induction false} MagicPrefix(s: seq<Byte>)
    ensures |MAGIC| == 10
    ensures MAGIC <= s <==> |s| >= 10 && s[..9] == Text("YUV4MPEG2") && s[9] == SPACE
  {
    if |s| >= 10 {
      assert s[..10] == s[..9] + [s[9]];
    }
    if MAGIC <= s {
      assert s[..9] == MAGIC[..9];
    }
  }

  lemma {:induction false} ParsedSane(fpsD: int, s: seq<Byte>)
    requires ParseTags(fpsD, s).ok
    ensures var h := ParseTags(fpsD, s).header; h.picW > 0 && h.picH > 0 && h.picW * h.picH <= INT_MAX / 6
  {
    LineSane(Defaults(fpsD), s);
  }

  // ----- The image handed out

  /** Where the planes of a fetched frame lie in the frame buffer, in bytes. */
  datatype Planes = Planes(strideY: nat, strideC: nat, sizeY: nat, sizeC: nat, startU: nat, startV: nat)

  function PlanesOf(c: Config, w: nat, h: nat): Planes
    requires c.dstDecH > 0 && c.dstDecV > 0
  {
    var picSz := Area(w, h) * SampleBytes(c);
    var cw := Ceil(w, c.dstDecH) * SampleBytes(c);
    var cSz := Area(cw, Ceil(h, c.dstDecV));
    Planes(w * SampleBytes(c), cw, picSz, cSz, picSz, picSz + cSz)
  }

  /** The three planes tile the frame buffer: luma from 0, C_b and C_r after it, nothing left over. */
  lemma {:induction false} PlanesTile(c: Config, w: nat, h: nat)
    requires Consistent(c, w, h)
    ensures var p := PlanesOf(c, w, h);
      && p.startU == p.sizeY && p.startV == p.startU + p.sizeC
      && p.startV + p.sizeC == SampleBytes(c) * DstBufSz(c, w, h)
      && p.sizeY == Area(p.strideY, h) && p.sizeC == Area(p.strideC, Ceil(h, c.dstDecV))
  {
    hide Consistent, Area;
    ConsistentDecimation(c, w, h);
    AreaOfWider(w, h, SampleBytes(c));
    AreaOfWider(Ceil(w, c.dstDecH), Ceil(h, c.dstDecV), SampleBytes(c));
  }

  lemma {:induction false} AreaOfWider(w: nat, h: nat, b: nat)
    requires 1 <= b <= 2
    ensures Area(w * b, h) == Area(w, h) * b
  {
    if b == 2 {
      assert h * (w * 2) == (h * w) * 2;
    }
  }

  // ----- Round trip of a whole file

  /** The frames as the decoder writes them. */
  function WrittenFrames(frames: seq<seq<Byte>>): seq<Byte> {
    if frames == [] then [] else FRAME_HEADER + frames[0] + WrittenFrames(frames[1..])
  }

  /** The pictures of all frames up to the end of the input; None when an error comes first. */
  function FetchAll(c: Config, w: nat, h: nat, s: seq<Byte>): Option<seq<seq<Byte>>>
    requires Consistent(c, w, h)
    decreases |s|
  {
    match FetchSpec(c, w, h, s)
    case NoMore => Some([])
    case Failed => None
    case Frame(picture, rest) =>
      FetchAdvances(c, w, h, s);
      match FetchAll(c, w, h, rest)
      case None => None
      case Some(more) => Some([picture] + more)
  }

  lemma {:induction false} SkipShrinks(s: seq<Byte>, j: nat)
    requires j <= 79
    ensures SkipLine(s, j).Data? ==> |SkipLine(s, j).rest| <= |s|
    decreases 79 - j
  {
    if j < 79 && s != [] && s[0] != NEWLINE {
      SkipShrinks(s[1..], j + 1);
    }
  }

  lemma {:induction false} FetchAdvances(c: Config, w: nat, h: nat, s: seq<Byte>)
    requires Consistent(c, w, h)
    ensures FetchSpec(c, w, h, s).Frame? ==> |FetchSpec(c, w, h, s).rest| < |s|
  {
    hide Finished;
    if |s| >= 6 {
      SkipShrinks(s[6..], 0);
    }
  }

  lemma {:induction false} FetchWritten(c: Config, w: nat, h: nat, f: seq<Byte>, rest: seq<Byte>)
    requires Consistent(c, w, h) && c.convert == ConvertNull && |f| == c.dstReadSz
    ensures FetchSpec(c, w, h, FRAME_HEADER + f + rest) == Frame(f, rest)
  {
    hide Consistent, Text;
    var s := FRAME_HEADER + f + rest;
    assert s[..5] == Text("FRAME") && s[5] == NEWLINE by { FrameHeaderText(s); }
    assert s[6..] == f + rest;
    assert (f + rest)[..|f|] == f && (f + rest)[|f|..] == rest;
    assert c.auxReadSz == 0 by { NullReadsNoAux(c, w, h); }
  }

  lemma {:induction false} NullReadsNoAux(c: Config, w: nat, h: nat)
    requires Consistent(c, w, h) && c.convert == ConvertNull
    ensures c.auxReadSz == 0
  {
  }

  lemma {:induction false} FrameHeaderText(s: seq<Byte>)
    requires FRAME_HEADER <= s
    ensures |FRAME_HEADER| == 6 <= |s| && s[..5] == Text("FRAME") && s[5] == NEWLINE
  {
    assert s[..5] == FRAME_HEADER[..5];
  }

  lemma {:induction false} FetchAllWritten(c: Config, w: nat, h: nat, frames: seq<seq<Byte>>)
    requires Consistent(c, w, h) && c.convert == ConvertNull
    requires forall i :: 0 <= i < |frames| ==> |frames[i]| == c.dstReadSz
    ensures FetchAll(c, w, h, WrittenFrames(frames)) == Some(frames)
  {
    hide FetchSpec, Consistent;
    if frames == [] {
      assert FetchSpec(c, w, h, []) == NoMore by { FetchNothing(c, w, h); }
    } else {
      FetchWritten(c, w, h, frames[0], WrittenFrames(frames[1..]));
      FetchAllWritten(c, w, h, frames[1..]);
      assert frames == [frames[0]] + frames[1..];
    }
  }

  lemma {:induction false} FetchNothing(c: Config, w: nat, h: nat)
    requires Consistent(c, w, h)
    ensures FetchSpec(c, w, h, []) == NoMore
  {
  }

  /** A written file: the header and then the frames. */
  function WrittenFile(
      w: nat, h: nat, num: nat, den: nat, fmt: ImageFormat, depth: nat, frames: seq<seq<Byte>>): seq<Byte>
    requires WritableDepth(depth)
  {
    FileHeader(w, h, num, den, fmt, depth) + WrittenFrames(frames)
  }

  /** The bytes of one frame in a format as the writer names it: luma and two chroma planes. */
  function FrameBytes(w: nat, h: nat, fmt: ImageFormat, depth: nat): nat {
    var chroma :=
      if fmt == (if depth == 8 then I444 else I44416) then Area(w, h)
      else if fmt == (if depth == 8 then I422 else I42216) then Area(Half(w), h)
      else Area(Half(w), Half(h));
    (if depth == 8 then 1 else 2) * (Area(w, h) + 2 * chroma)
  }

  predicate ReadableDepth(depth: nat) { depth == 8 || depth == 10 || depth == 12 }

  /** What the chroma type the writer names is configured to. */
  lemma {:induction false} WrittenConfiguration(w: nat, h: nat, fmt: ImageFormat, depth: nat)
    requires WritableDepth(depth)
    ensures var k := ChromaOf(Text(ChromaType(fmt, depth)));
      && (k.Some? <==> ReadableDepth(depth))
      && (k.Some? ==>
        && Configure(k.value, false, w, h).Some?
        && var c := Configure(k.value, false, w, h).value;
          && Consistent(c, w, h) && c.dstReadSz == DstBytes(c, w, h) == FrameBytes(w, h, fmt, depth)
          && c.auxSz == 0 && c.convert == ConvertNull
          && c.bitDepth == depth && (c.fmt == fmt <==> Expressible(fmt, depth)))
  {
    hide ChromaNamed, ChromaType, ChromaOf, Text, Consistent, DstBytes, Configure, FrameBytes;
    FormatRoundTrip(fmt, depth, w, h);
    ChromaByName(ChromaType(fmt, depth));
    var k := ChromaOf(Text(ChromaType(fmt, depth)));
    if k.Some? {
      var c := Configure(k.value, false, w, h).value;
      SizesConsistent(k.value, false, w, h);
      ConfiguredDecimation(k.value, false, w, h);
      DstBytesAreSamples(c, w, h);
      NullReadsAll(c, w, h);
      WrittenSize(fmt, depth, w, h);
    }
  }

  lemma {:induction false} NullReadsAll(c: Config, w: nat, h: nat)
    requires Consistent(c, w, h) && c.convert == ConvertNull
    ensures c.dstReadSz == SampleBytes(c) * DstBufSz(c, w, h) && c.auxSz == c.auxReadSz == 0
  {
  }

  lemma {:induction false} WrittenSize(fmt: ImageFormat, depth: nat, w: nat, h: nat)
    requires ReadableDepth(depth)
    ensures var k := ChromaNamed(ChromaType(fmt, depth));
      && k.Some? && Configure(k.value, false, w, h).Some?
      && Configure(k.value, false, w, h).value.dstReadSz == FrameBytes(w, h, fmt, depth)
  {
    hide ChromaNamed, ChromaType, Configure, Area;
    match depth {
      case 8 => NamesOf8(fmt);
      case 10 => NamesOf10(fmt);
      case 12 => NamesOf12(fmt);
    }
    ConfigureAreas(ChromaNamed(ChromaType(fmt, depth)).value, false, w, h);
  }

  /** The front of a written file, and the outcome of its header line. */
  lemma {:induction false} WrittenHeader(
      w: nat, h: nat, num: nat, den: nat, fmt: ImageFormat, depth: nat, frames: seq<seq<Byte>>, fpsD: int)
    requires WritableDepth(depth) && w <= INT_MAX && h <= INT_MAX && num <= INT_MAX && den <= INT_MAX
    ensures var file := WrittenFile(w, h, num, den, fmt, depth, frames);
      && MAGIC <= file
      && var l := ParseTags(fpsD, file[|MAGIC|..]);
        && (l.ok <==> w > 0 && h > 0 && w * h <= INT_MAX / 6)
        && l.header == HeaderBack(w, h, num, den, fmt, depth, fpsD)
        && (w > 0 && h > 0 ==> l.rest == WrittenFrames(frames))
  {
    hide ParseTags, Text, ChromaType, HeaderTags, WrittenFrames, HeaderBack;
    var rest := WrittenFrames(frames);
    var file := WrittenFile(w, h, num, den, fmt, depth, frames);
    assert file == MAGIC + (HeaderTags(w, h, num, den, fmt, depth) + rest);
    assert file[|MAGIC|..] == HeaderTags(w, h, num, den, fmt, depth) + rest;
    HeaderRoundTrip(w, h, num, den, fmt, depth, fpsD, rest);
  }

  /** A written file of a non-empty picture opens again if and only if its depth is 8, 10 or 12 and there is memory
      for a frame. Then the size, the frame rate and the depth are those written, the format is if the writer could
      express it, and fetching returns the frames byte for byte. This holds even for a picture that is too large
      for the header to be accepted. */
  lemma {:induction false} FileRoundTrip(
      w: nat, h: nat, num: nat, den: nat, fmt: ImageFormat, depth: nat, frames: seq<seq<Byte>>, fpsD: int,
      grants: nat -> bool)
    requires WritableDepth(depth) && 0 < w <= INT_MAX && 0 < h <= INT_MAX && num <= INT_MAX && den <= INT_MAX
    requires OpenDefined(fpsD, WrittenFile(w, h, num, den, fmt, depth, frames), false)
    ensures var o := OpenSpec(fpsD, WrittenFile(w, h, num, den, fmt, depth, frames), false, grants);
      && (o.Some? <==> ReadableDepth(depth) && grants(FrameBytes(w, h, fmt, depth)))
      && (o.Some? ==>
        && (o.value.parsed <==> w * h <= INT_MAX / 6)
        && o.value.header.picW == w && o.value.header.picH == h
        && o.value.header.fpsN == num && o.value.header.fpsD == den
        && o.value.config.bitDepth == depth && (o.value.config.fmt == fmt <==> Expressible(fmt, depth))
        && Consistent(o.value.config, w, h) && o.value.config.dstReadSz == FrameBytes(w, h, fmt, depth)
        && ((forall i :: 0 <= i < |frames| ==> |frames[i]| == FrameBytes(w, h, fmt, depth))
            ==> FetchAll(o.value.config, w, h, o.value.rest) == Some(frames)))
  {
    hide ParseTags, Text, ChromaOf, ChromaType, Configure, Consistent, FetchAll, WrittenFrames, WrittenFile, DstBytes;
    hide FrameBytes, OpenDefined;
    WrittenHeader(w, h, num, den, fmt, depth, frames, fpsD);
    WrittenConfiguration(w, h, fmt, depth);
    var k := ChromaOf(Text(ChromaType(fmt, depth)));
    if k.Some? {
      var c := Configure(k.value, false, w, h).value;
      if forall i :: 0 <= i < |frames| ==> |frames[i]| == c.dstReadSz {
        FetchAllWritten(c, w, h, frames);
      }
    }
  }

  /** For a picture within the limit of the header nothing overflows, so that the round trip applies. */
  lemma {:induction false} WrittenIsDefined(
      w: nat, h: nat, num: nat, den: nat, fmt: ImageFormat, depth: nat, frames: seq<seq<Byte>>, fpsD: int)
    requires WritableDepth(depth) && w > 0 && h > 0 && w * h <= INT_MAX / 6
    requires w <= INT_MAX && h <= INT_MAX && num <= INT_MAX && den <= INT_MAX
    ensures OpenDefined(fpsD, WrittenFile(w, h, num, den, fmt, depth, frames), false)
  {
    hide ParseTags, OpenDefined, WrittenFile;
    WrittenHeader(w, h, num, den, fmt, depth, frames, fpsD);
    ParsedIsDefined(fpsD, WrittenFile(w, h, num, den, fmt, depth, frames), false);
  }

  /** Beyond that limit a file can still open: 20000 by 20000 pixels at depth 8 take 600 million bytes, although
      the header line does not count as parsed. */
  lemma {:induction false} TooLargeStillOpens(frames: seq<seq<Byte>>, fpsD: int, grants: nat -> bool)
    requires grants(600_000_000)
    ensures var file := WrittenFile(20000, 20000, 30, 1, I420, 8, frames);
      && OpenDefined(fpsD, file, false)
      && var o := OpenSpec(fpsD, file, false, grants);
        o.Some? && !o.value.parsed && o.value.config.dstReadSz == 600_000_000
  {
    hide ParseTags, Text, ChromaOf, WrittenFrames, WrittenFile, OpenSpec;
    var file := WrittenFile(20000, 20000, 30, 1, I420, 8, frames);
    WrittenHeader(20000, 20000, 30, 1, I420, 8, frames, fpsD);
    NamesOf8(I420);
    ChromaByName(ChromaType(I420, 8));
    assert SizesDefined(C420, false, 20000, 20000);
    FileRoundTrip(20000, 20000, 30, 1, I420, 8, frames, fpsD, grants);
  }

  /** A file of an empty picture opens if and only if the allocator provides zero bytes, whatever its depth: its
      header line is abandoned at the first zero, before depth and interlacing are seen. */
  lemma {:induction false} EmptyPictureOpens(
      w: nat, h: nat, num: nat, den: nat, fmt: ImageFormat, depth: nat, frames: seq<seq<Byte>>, fpsD: int,
      grants: nat -> bool)
    requires WritableDepth(depth) && w <= INT_MAX && h <= INT_MAX && num <= INT_MAX && den <= INT_MAX
    requires (w == 0 || h == 0) && OpenDefined(fpsD, WrittenFile(w, h, num, den, fmt, depth, frames), false)
    ensures var o := OpenSpec(fpsD, WrittenFile(w, h, num, den, fmt, depth, frames), false, grants);
      && (o.Some? <==> grants(0))
      && (o.Some? ==>
        && !o.value.parsed && o.value.config == Config(I420, 12, 8, 2, 2, 0, 0, 0, ConvertNull)
        && o.value.header.picW == w && o.value.header.picH == if w == 0 then -1 else 0)
  {
    hide ParseTags, Text, ChromaOf, WrittenFrames, WrittenFile, OpenDefined;
    WrittenHeader(w, h, num, den, fmt, depth, frames, fpsD);
    assert ChromaOf(Text("420")) == Some(C420) by { DefaultChroma(); }
  }

  lemma {:induction false} DefaultChroma()
    ensures ChromaOf(Text("420")) == Some(C420)
  {
    hide Text;
  }

  // ----- Frame headers with parameters

  lemma {:induction false} LineSkipped(p: seq<Byte>, rest: seq<Byte>, j: nat)
    requires j <= 79 && forall i :: 0 <= i < |p| ==> p[i] != NEWLINE
    ensures SkipLine(p + [NEWLINE] + rest, j) == if |p| + j < 79 then Data(rest) else BadFrame
    decreases |p|
  {
    var s := p + [NEWLINE] + rest;
    if p == [] {
      assert s[0] == NEWLINE && s[1..] == rest;
    } else if j < 79 {
      assert s[0] == p[0] && s[1..] == p[1..] + [NEWLINE] + rest;
      LineSkipped(p[1..], rest, j + 1);
    }
  }

  /** A frame starts with the word FRAME, up to 79 more characters, which are ignored, and the end of the line. */
  lemma {:induction false} FrameHeaderSkipped(p: seq<Byte>, rest: seq<Byte>)
    requires forall i :: 0 <= i < |p| ==> p[i] != NEWLINE
    ensures SkipFrameHeader(Text("FRAME") + p + [NEWLINE] + rest) == if |p| <= 79 then Data(rest) else BadFrame
  {
    hide Text, SkipLine;
    var s := Text("FRAME") + p + [NEWLINE] + rest;
    assert |Text("FRAME")| == 5 by { FiveLetters(); }
    assert s[..5] == Text("FRAME");
    if p == [] {
      assert s[6..] == rest;
    } else {
      assert s[5] == p[0] && s[6..] == p[1..] + [NEWLINE] + rest;
      LineSkipped(p[1..], rest, 0);
    }
  }

  lemma {:induction false} FiveLetters()
    ensures |Text("FRAME")| == 5
  {
  }
}

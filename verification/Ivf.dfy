/** The IVF container: writing it packet by packet with frame sizes patched after the last fragment of a frame,
    and reading it back. */
module Ivf {
  import opened Bytes
  import opened Files
  import opened Wrappers

  // ----- The format

  datatype Frame = Frame(pts: int, data: seq<Byte>)

  datatype StreamInfo = StreamInfo(fourcc: nat, width: nat, height: nat, num: nat, den: nat)

  const SIGNATURE: seq<Byte> := [0x44, 0x4B, 0x49, 0x46]

  function FileHeader(info: StreamInfo, frames: nat): (r: seq<Byte>)
    ensures |r| == 32
  {
    SIGNATURE + Le(0, 2) + Le(32, 2) + Le(info.fourcc, 4) + Le(info.width, 2) + Le(info.height, 2)
    + Le(info.den, 4) + Le(info.num, 4) + Le(frames, 4) + Le(0, 4)
  }

  /** A time stamp as 64 bits in two's complement. */
  function Bits64(pts: int): nat { pts % TWO_64 }

  function FrameHeader(pts: int, size: nat): (r: seq<Byte>)
    ensures |r| == 12
  {
    Le(size, 4) + Le(Bits64(pts), 8)
  }

  function Record(f: Frame): seq<Byte> { FrameHeader(f.pts, |f.data|) + f.data }

  function Records(frames: seq<Frame>): seq<Byte> {
    if frames == [] then [] else Records(frames[..|frames| - 1]) + Record(frames[|frames| - 1])
  }

  function IvfFile(info: StreamInfo, frames: seq<Frame>): seq<Byte> {
    FileHeader(info, |frames|) + Records(frames)
  }

  // ----- The writers of headers

  /** Stores the n low-order bytes of a value at an offset. */
  method PutLe(mem: array<Byte>, at: nat, v: nat, n: nat)
    requires at + n <= mem.Length
    modifies mem
    ensures mem[..at + n] == old(mem[..at]) + Le(v, n)
  {
    var rest := v;
    for i := 0 to n
      invariant mem[..at] == old(mem[..at])
      invariant mem[at..at + i] + Le(rest, n - i) == Le(v, n)
    {
      ghost var done := mem[at..at + i];
      assert Le(rest, n - i) == [rest % 256] + Le(rest / 256, n - i - 1);
      mem[at + i] := rest % 256;
      assert mem[at..at + i + 1] == done + [rest % 256];
      rest := rest / 256;
    }
    assert mem[..at + n] == mem[..at] + mem[at..at + n];
  }

  method WriteFileHeader(file: OutFile, info: StreamInfo, frameCnt: nat)
    requires file.Valid()
    modifies file
    ensures file.Valid() && file.pos == old(file.pos) + 32
    ensures file.bytes == Overwrite(old(file.bytes), old(file.pos), FileHeader(info, frameCnt))
  {
    hide Le;
    var header := new Byte[32];
    header[0], header[1], header[2], header[3] := 0x44, 0x4B, 0x49, 0x46;
    assert header[..4] == SIGNATURE;
    PutLe(header, 4, 0, 2);
    PutLe(header, 6, 32, 2);
    PutLe(header, 8, info.fourcc, 4);
    PutLe(header, 12, info.width, 2);
    PutLe(header, 14, info.height, 2);
    PutLe(header, 16, info.den, 4);
    PutLe(header, 20, info.num, 4);
    PutLe(header, 24, frameCnt, 4);
    PutLe(header, 28, 0, 4);
    assert header[..] == header[..32] == FileHeader(info, frameCnt);
    file.Write(header[..]);
  }

  method WriteFrameHeader(file: OutFile, pts: int, size: nat)
    requires file.Valid()
    modifies file
    ensures file.Valid() && file.pos == old(file.pos) + 12
    ensures file.bytes == Overwrite(old(file.bytes), old(file.pos), FrameHeader(pts, size))
  {
    hide Le;
    var header := new Byte[12];
    PutLe(header, 0, size, 4);
    PutLe(header, 4, Bits64(pts) % TWO_32, 4);
    PutLe(header, 8, Bits64(pts) / TWO_32, 4);
    Le64Split(Bits64(pts));
    assert header[..] == header[..12] == FrameHeader(pts, size);
    file.Write(header[..]);
  }

  method WriteFrameSize(file: OutFile, size: nat)
    requires file.Valid()
    modifies file
    ensures file.Valid() && file.pos == old(file.pos) + 4
    ensures file.bytes == Overwrite(old(file.bytes), old(file.pos), Le(size, 4))
  {
    var header := new Byte[4];
    PutLe(header, 0, size, 4);
    assert header[..] == header[..4];
    file.Write(header[..]);
  }

  // ----- Packets

  /** A packet of the encoder: a whole frame, or one fragment of a frame. */
  datatype Packet = Packet(pts: int, data: seq<Byte>, partition: int, fragment: bool)

  /** The frames written so far, and the frame still lacking fragments. */
  datatype Written = Written(done: seq<Frame>, open: Option<Frame>)

  /** The first packet of a frame has no positive partition number, every later one has. */
  predicate Fits(w: Written, p: Packet) { w.open.Some? <==> p.partition > 0 }

  function Add(w: Written, p: Packet): Written
    requires Fits(w, p)
  {
    var f := if w.open.Some? then Frame(w.open.value.pts, w.open.value.data + p.data) else Frame(p.pts, p.data);
    if p.fragment then Written(w.done, Some(f)) else Written(w.done + [f], None)
  }

  const EMPTY := Written([], None)

  /** The bytes of a file that is still being written; first is the size of the open frame's first fragment. */
  function Content(info: StreamInfo, w: Written, first: nat): seq<Byte> {
    FileHeader(info, 0) + Records(w.done)
    + match w.open
      case None => []
      case Some(f) => FrameHeader(f.pts, first) + f.data
  }

  lemma {:induction false} NothingWritten(info: StreamInfo)
    ensures Overwrite([], 0, FileHeader(info, 0)) == Content(info, EMPTY, 0)
  {
    hide FileHeader;
  }

  lemma {:induction false} LastRecord(done: seq<Frame>, f: Frame)
    ensures Records(done + [f]) == Records(done) + Record(f)
  {
    assert (done + [f])[..|done|] == done;
  }

  /** The first packet of a frame goes to the end of the file after a header of its size. */
  lemma {:induction false} Started(info: StreamInfo, done: seq<Frame>, first: nat, p: Packet)
    requires p.partition <= 0
    ensures var b := Content(info, Written(done, None), first);
      var h := Overwrite(b, |b|, FrameHeader(p.pts, |p.data|));
      && |h| == |b| + 12 && |b| == |FileHeader(info, 0)| + |Records(done)|
      && Overwrite(h, |h|, p.data) == Content(info, Add(Written(done, None), p), |p.data|)
      && |Overwrite(h, |h|, p.data)| == |h| + |p.data|
  {
    hide FileHeader, FrameHeader;
    LastRecord(done, Frame(p.pts, p.data));
  }

  lemma {:induction false} Continued(info: StreamInfo, w: Written, first: nat, p: Packet)
    requires w.open.Some? && p.partition > 0 && p.fragment
    ensures var b := Content(info, w, first);
      Overwrite(b, |b|, p.data) == Content(info, Add(w, p), first) && |Overwrite(b, |b|, p.data)| == |b| + |p.data|
  {
    hide FileHeader, FrameHeader, Records;
  }

  /** With the last packet of a frame, the size in the frame's header becomes that of the whole frame. */
  lemma {:induction false} Completed(info: StreamInfo, w: Written, first: nat, p: Packet, size: nat)
    requires w.open.Some? && p.partition > 0 && !p.fragment && size == |w.open.value.data| + |p.data|
    ensures var b := Content(info, w, first);
      var at := |FileHeader(info, 0)| + |Records(w.done)|;
      && at + 4 <= |b|
      && var patched := Overwrite(b, at, Le(size, 4));
        && |patched| == |b|
        && Overwrite(patched, |b|, p.data) == Content(info, Add(w, p), first)
        && |Overwrite(patched, |b|, p.data)| == |b| + |p.data|
  {
    hide FileHeader, Records, Le;
    var f := w.open.value;
    LastRecord(w.done, Frame(f.pts, f.data + p.data));
    var before := FileHeader(info, 0) + Records(w.done);
    Patch(before, Le(first, 4), Le(size, 4), Le(Bits64(f.pts), 8) + f.data);
    assert Content(info, w, first) == before + Le(first, 4) + (Le(Bits64(f.pts), 8) + f.data);
  }

  lemma {:induction false} Patch(a: seq<Byte>, x: seq<Byte>, y: seq<Byte>, z: seq<Byte>)
    requires |x| == |y|
    ensures Overwrite(a + x + z, |a|, y) == a + y + z
  {
  }

  /** The bytes of a file after a packet: the file before, the header position and the size counted so far decide. */
  function PacketWritten(b: seq<Byte>, headerPos: nat, size: nat, p: Packet): seq<Byte>
    requires headerPos + 4 <= |b|
  {
    if p.partition <= 0 then b + FrameHeader(p.pts, |p.data|) + p.data
    else if p.fragment then b + p.data
    else Overwrite(b, headerPos, Le(size + |p.data|, 4)) + p.data
  }

  lemma {:induction false} PacketWrittenSize(b: seq<Byte>, headerPos: nat, size: nat, p: Packet)
    requires headerPos + 4 <= |b|
    ensures |Overwrite(b, headerPos, Le(size + |p.data|, 4))| == |b|
    ensures |PacketWritten(b, headerPos, size, p)| == |b| + |p.data| + if p.partition <= 0 then 12 else 0
  {
    hide FrameHeader, Le;
  }

  /** A packet that fits turns the content of the file into that with the packet added. */
  lemma {:induction false} PacketFits(info: StreamInfo, w: Written, first: nat, headerPos: nat, size: nat, p: Packet)
    requires Fits(w, p) && headerPos + 4 <= |Content(info, w, first)|
    requires w.open.Some? ==>
      size == |w.open.value.data| && headerPos == |FileHeader(info, 0)| + |Records(w.done)|
    ensures PacketWritten(Content(info, w, first), headerPos, size, p)
      == Content(info, Add(w, p), if p.partition <= 0 then |p.data| else first)
    ensures p.partition <= 0 ==> |Content(info, w, first)| == |FileHeader(info, 0)| + |Records(w.done)|
  {
    hide FileHeader, FrameHeader, Le, Content, Overwrite, Records;
    var b := Content(info, w, first);
    if p.partition <= 0 {
      Started(info, w.done, first, p);
      AtEnd(b, FrameHeader(p.pts, |p.data|));
      AtEnd(b + FrameHeader(p.pts, |p.data|), p.data);
    } else if p.fragment {
      Continued(info, w, first, p);
      AtEnd(b, p.data);
    } else {
      Completed(info, w, first, p, size + |p.data|);
      AtEnd(Overwrite(b, headerPos, Le(size + |p.data|, 4)), p.data);
    }
  }

  lemma {:induction false} AtEnd(b: seq<Byte>, d: seq<Byte>)
    ensures Overwrite(b, |b|, d) == b + d
  {
  }

  /** The header with the number of frames replaces the first one. */
  lemma {:induction false} NewHeader(info: StreamInfo, done: seq<Frame>)
    ensures Overwrite(Content(info, Written(done, None), 0), 0, FileHeader(info, |done|)) == IvfFile(info, done)
  {
    hide Records, FileHeader;
  }

  class IvfWriter {
    const info: StreamInfo
    const file: OutFile
    var fsize: nat
    var ivfHeaderPos: nat
    var framesOut: nat
    ghost var written: Written
    ghost var first: nat

    /** Enough to write: the file stands at its end and the header position is inside it. */
    ghost predicate Ready()
      reads this, file
    {
      file.pos == |file.bytes| && ivfHeaderPos + 4 <= |file.bytes|
    }

    ghost predicate Valid()
      reads this, file
    {
      && Ready()
      && file.bytes == Content(info, written, first)
      && framesOut == |written.done|
      && (written.open.Some? ==>
          fsize == |written.open.value.data| && ivfHeaderPos == |FileHeader(info, 0)| + |Records(written.done)|)
    }

    constructor (info: StreamInfo)
      ensures Valid() && fresh(file) && this.info == info && written == EMPTY
    {
      this.info := info;
      file := new OutFile();
      fsize, ivfHeaderPos, framesOut := 0, 0, 0;
      written, first := EMPTY, 0;
      new;
      hide FileHeader;
      WriteFileHeader(file, info, 0);
      NothingWritten(info);
    }

    /** Writes a packet: a header for the first of a frame, the size of the whole frame for the last fragment. In
        any order of packets the file changes as described; in an order that fits, it holds the frames. */
    method WritePacket(p: Packet)
      requires Ready()
      modifies this, file
      ensures Ready() && framesOut == old(framesOut) + if p.fragment then 0 else 1
      ensures if p.partition <= 0
        then ivfHeaderPos == |old(file.bytes)| && fsize == |p.data|
        else ivfHeaderPos == old(ivfHeaderPos) && fsize == old(fsize) + |p.data|
      ensures file.bytes == PacketWritten(old(file.bytes), old(ivfHeaderPos), old(fsize), p)
      ensures old(Valid()) && Fits(old(written), p) ==> Valid() && written == Add(old(written), p)
    {
      hide FileHeader, FrameHeader, Le, Content, Overwrite, Records;
      ghost var b, w, pos, size := file.bytes, written, ivfHeaderPos, fsize;
      PacketWrittenSize(b, pos, size, p);
      if !p.fragment {
        framesOut := framesOut + 1;
      }
      if p.partition <= 0 {
        ivfHeaderPos := file.pos;
        fsize := |p.data|;
        first := fsize;
        WriteFrameHeader(file, p.pts, fsize);
        AtEnd(b, FrameHeader(p.pts, fsize));
      } else {
        fsize := fsize + |p.data|;
        if !p.fragment {
          var currpos := file.pos;
          file.Seek(ivfHeaderPos);
          WriteFrameSize(file, fsize);
          file.Seek(currpos);
        }
      }
      AtEnd(file.bytes, p.data);
      file.Write(p.data);
      if old(Valid()) && Fits(w, p) {
        PacketFits(info, w, old(first), pos, size, p);
        written := Add(w, p);
      }
    }

    /** Closes the file in any state: its first bytes become a header with the number of frames. When no frame lacks
        fragments, the file then holds that header and all frames. */
    method Close()
      modifies file
      ensures file.bytes == Overwrite(old(file.bytes), 0, FileHeader(info, framesOut))
      ensures old(Valid()) && written.open.None? ==> file.bytes == IvfFile(info, written.done)
    {
      hide FileHeader, Records;
      file.Seek(0);
      WriteFileHeader(file, info, framesOut);
      if old(Valid()) && written.open.None? {
        NewHeader(info, written.done);
      }
    }
  }

  // ----- Whole runs of the writer

  /** Every frame starts with a packet without a positive partition number and ends with one that is no fragment. */
  predicate Sequence(open: bool, packets: seq<Packet>)
    decreases packets
  {
    if packets == [] then !open
    else (open <==> packets[0].partition > 0) && Sequence(packets[0].fragment, packets[1..])
  }

  function AddAll(w: Written, packets: seq<Packet>): Written
    requires Sequence(w.open.Some?, packets)
    decreases packets
  {
    if packets == [] then w else AddAll(Add(w, packets[0]), packets[1..])
  }

  /** The number of packets up to and including the first that is no fragment. */
  function FirstFrame(packets: seq<Packet>): (k: nat)
    ensures k <= |packets| && (packets != [] ==> k > 0)
  {
    if packets == [] then 0 else if !packets[0].fragment then 1 else 1 + FirstFrame(packets[1..])
  }

  function Joined(packets: seq<Packet>): seq<Byte> {
    if packets == [] then [] else packets[0].data + Joined(packets[1..])
  }

  /** The frames of a packet sequence: the fragments of each joined, under the time stamp of the first. */
  function Frames(packets: seq<Packet>): seq<Frame> {
    if packets == [] then []
    else
      var k := FirstFrame(packets);
      [Frame(packets[0].pts, Joined(packets[..k]))] + Frames(packets[k..])
  }

  lemma {:induction false} OpenFrameCompletes(done: seq<Frame>, f: Frame, packets: seq<Packet>)
    requires Sequence(true, packets)
    ensures var k := FirstFrame(packets);
      && Sequence(false, packets[k..])
      && AddAll(Written(done, Some(f)), packets)
         == AddAll(Written(done + [Frame(f.pts, f.data + Joined(packets[..k]))], None), packets[k..])
    decreases packets
  {
    if packets != [] {
      var p, k := packets[0], FirstFrame(packets);
      assert packets[..k][1..] == packets[1..][..k - 1] && packets[k..] == packets[1..][k - 1..];
      if p.fragment {
        OpenFrameCompletes(done, Frame(f.pts, f.data + p.data), packets[1..]);
        assert f.data + (p.data + Joined(packets[1..][..k - 1])) == f.data + p.data + Joined(packets[1..][..k - 1]);
      } else {
        assert Joined(packets[..1]) == p.data + Joined([]) == p.data;
      }
    }
  }

  lemma {:induction false} WrittenFrames(done: seq<Frame>, packets: seq<Packet>)
    requires Sequence(false, packets)
    ensures AddAll(Written(done, None), packets) == Written(done + Frames(packets), None)
    decreases packets
  {
    if packets == [] {
      assert done + [] == done;
    } else {
      var p, k := packets[0], FirstFrame(packets);
      assert packets[..k][1..] == packets[1..][..k - 1] && packets[k..] == packets[1..][k - 1..];
      var f := Frame(p.pts, Joined(packets[..k]));
      if p.fragment {
        OpenFrameCompletes(done, Frame(p.pts, p.data), packets[1..]);
      } else {
        assert Joined(packets[..1]) == p.data + Joined([]) == p.data;
      }
      assert Sequence(false, packets[k..]);
      WrittenFrames(done + [f], packets[k..]);
      assert done + [f] + Frames(packets[k..]) == done + ([f] + Frames(packets[k..]));
    }
  }

  /** Opens an output file, writes all packets and closes it: the file holds one record for every frame, and
      their number. */
  method WriteStream(info: StreamInfo, packets: seq<Packet>) returns (bytes: seq<Byte>)
    requires Sequence(false, packets)
    ensures bytes == IvfFile(info, Frames(packets))
  {
    hide FileHeader, Frames, Records;
    var writer := new IvfWriter(info);
    WrittenFrames([], packets);
    assert [] + Frames(packets) == Frames(packets);
    for i := 0 to |packets|
      invariant writer.Valid() && writer.info == info && fresh(writer) && fresh(writer.file)
      invariant Sequence(writer.written.open.Some?, packets[i..])
      invariant AddAll(writer.written, packets[i..]) == Written(Frames(packets), None)
    {
      assert packets[i..][0] == packets[i] && packets[i..][1..] == packets[i + 1..];
      writer.WritePacket(packets[i]);
    }
    assert packets[|packets|..] == [];
    writer.Close();
    bytes := writer.file.bytes;
  }

  // ----- The writer the examples use: whole frames, counted when they are written

  class VideoWriter {
    const info: StreamInfo
    const file: OutFile
    var frameCount: nat
    ghost var frames: seq<Frame>

    ghost predicate Valid()
      reads this, file
    {
      && file.bytes == Content(info, Written(frames, None), 0) && file.pos == |file.bytes| && frameCount == |frames|
    }

    constructor (info: StreamInfo)
      ensures Valid() && fresh(file) && this.info == info && frames == []
    {
      this.info := info;
      file := new OutFile();
      frameCount, frames := 0, [];
      new;
      hide FileHeader;
      WriteFileHeader(file, info, 0);
      NothingWritten(info);
    }

    method WriteFrame(data: seq<Byte>, pts: int)
      requires Valid()
      modifies this, file
      ensures Valid() && frames == old(frames) + [Frame(pts, data)]
    {
      hide FileHeader, FrameHeader, Le, Content, Overwrite, Records;
      Started(info, frames, 0, Packet(pts, data, 0, false));
      WriteFrameHeader(file, pts, |data|);
      file.Write(data);
      frameCount := frameCount + 1;
      frames := frames + [Frame(pts, data)];
      assert Content(info, Written(frames, None), |data|)
          == Content(info, Written(frames, None), 0) by { FirstUnused(info, frames, |data|); }
    }

    method Close()
      requires Valid()
      modifies this, file
      ensures file.bytes == IvfFile(info, old(frames))
    {
      hide FileHeader;
      file.Seek(0);
      WriteFileHeader(file, info, frameCount);
    }
  }

  lemma {:induction false} FirstUnused(info: StreamInfo, done: seq<Frame>, first: nat)
    ensures Content(info, Written(done, None), first) == Content(info, Written(done, None), 0)
  {
  }

  // ----- Reading

  const MAX_FRAME: nat := 256 * 1024 * 1024

  datatype ReadResult = NoFrame | Got(data: seq<Byte>, rest: seq<Byte>)

  /** One frame from the front of the input; an excessive size counts as zero. */
  function ReadSpec(s: seq<Byte>): ReadResult {
    if |s| < 12 then NoFrame
    else
      var stated := FromLe(s[..4]);
      var size := if stated > MAX_FRAME then 0 else stated;
      if |s| - 12 < size then NoFrame else Got(s[12..][..size], s[12..][size..])
  }

  /** Reads a frame into the buffer, which grows to twice the frame's size when it is too small. Returns 0 for a
      frame and 1 at the end of the file. */
  method ReadFrame(file: InFile, buffer: array<Byte>) returns (res: int, buf: array<Byte>, bytesRead: nat)
    requires file.Valid()
    modifies file, buffer
    ensures file.Valid() && (buf == buffer || (fresh(buf) && buf.Length > buffer.Length))
    ensures match ReadSpec(old(file.Rest()))
      case NoFrame => res == 1 && file.eof
      case Got(data, rest) => (
        && res == 0 && file.Rest() == rest && file.eof == old(file.eof)
        && bytesRead == |data| <= buf.Length && buf[..bytesRead] == data)
  {
    buf, bytesRead := buffer, 0;
    ghost var s := file.Rest();
    var header, ok := file.Read(12);
    var frameSize := 0;
    if ok {
      assert header[..4] == s[..4];
      frameSize := FromLe(header[..4]);
      if frameSize > MAX_FRAME {
        frameSize := 0;
      }
      if frameSize > buf.Length {
        buf := new Byte[2 * frameSize];
      }
    }
    if !file.eof {
      var data;
      data, ok := file.Read(frameSize);
      if !ok { return 1, buf, 0; }
      forall i | 0 <= i < frameSize { buf[i] := data[i]; }
      return 0, buf, frameSize;
    }
    res := 1;
  }

  /** All frames up to the end of the file. */
  function ReadAll(s: seq<Byte>): seq<seq<Byte>>
    decreases |s|
  {
    match ReadSpec(s)
    case NoFrame => []
    case Got(data, rest) => [data] + ReadAll(rest)
  }

  function Datas(frames: seq<Frame>): (r: seq<seq<Byte>>)
    ensures |r| == |frames| && forall i :: 0 <= i < |r| ==> r[i] == frames[i].data
  {
    seq(|frames|, i requires 0 <= i < |frames| => frames[i].data)
  }

  lemma {:induction false} FirstRecord(frames: seq<Frame>)
    requires frames != []
    ensures Records(frames) == Record(frames[0]) + Records(frames[1..])
  {
    hide Record;
    var n := |frames| - 1;
    if n > 0 {
      FirstRecord(frames[..n]);
      assert frames[..n][1..] == frames[1..][..n - 1];
      assert frames[1..][n - 1] == frames[n];
      assert Records(frames[1..]) == Records(frames[1..][..n - 1]) + Record(frames[n]);
      assert Record(frames[0]) + (Records(frames[1..][..n - 1]) + Record(frames[n]))
        == Record(frames[0]) + Records(frames[1..][..n - 1]) + Record(frames[n]);
    } else {
      assert frames[..0] == frames[1..] == [];
      assert Records([]) == [] && [] + Record(frames[0]) == Record(frames[0]) + [];
    }
  }

  /** Reading back one record yields its data exactly when its size is within the reader's limit. */
  lemma {:induction false} ReadRecord(f: Frame, rest: seq<Byte>)
    ensures |f.data| <= MAX_FRAME ==> ReadSpec(Record(f) + rest) == Got(f.data, rest)
    ensures |f.data| > MAX_FRAME ==> ReadSpec(Record(f) + rest).Got? ==> ReadSpec(Record(f) + rest).data != f.data
  {
    hide FromLe, Le;
    var s := Record(f) + rest;
    assert s[..4] == Le(|f.data|, 4) && s[12..] == f.data + rest;
    FromLe32(|f.data|);
    if |f.data| <= MAX_FRAME {
      assert (f.data + rest)[..|f.data|] == f.data && (f.data + rest)[|f.data|..] == rest;
    }
  }

  lemma {:induction false} ReadAllRecords(frames: seq<Frame>)
    ensures ReadAll(Records(frames)) == Datas(frames)
      <==> forall i :: 0 <= i < |frames| ==> |frames[i].data| <= MAX_FRAME
  {
    hide Record, ReadSpec, Records;
    if frames == [] {
      assert Records([]) == [] && ReadSpec([]) == NoFrame by { ReadNothing(); }
    } else {
      var f, rest := frames[0], frames[1..];
      FirstRecord(frames);
      ReadRecord(f, Records(rest));
      ReadAllRecords(rest);
      assert Datas(frames) == [f.data] + Datas(rest);
      var all := ReadAll(Records(frames));
      if |f.data| <= MAX_FRAME {
        assert all == [f.data] + ReadAll(Records(rest));
        assert all == Datas(frames) <==> ReadAll(Records(rest)) == Datas(rest) by {
          assert all[1..] == ReadAll(Records(rest)) && Datas(frames)[1..] == Datas(rest);
        }
        assert (forall i :: 0 <= i < |frames| ==> |frames[i].data| <= MAX_FRAME)
          <==> (forall i :: 0 <= i < |rest| ==> |rest[i].data| <= MAX_FRAME) by {
          assert forall i :: 0 <= i < |rest| ==> rest[i] == frames[i + 1];
          assert forall i :: 1 <= i < |frames| ==> frames[i] == rest[i - 1];
        }
      } else {
        assert all == [] || all[0] != Datas(frames)[0];
      }
    }
  }

  lemma {:induction false} ReadNothing()
    ensures Records([]) == [] && ReadSpec([]) == NoFrame
  {
  }

  // ----- The file header

  /** Recognises an IVF file and reads its code and picture size; other files are rewound. */
  method FileIsIvf(file: InFile) returns (isIvf: bool, fourcc: nat, width: nat, height: nat)
    requires file.Valid() && file.pos == 0 && !file.eof
    modifies file
    ensures file.Valid()
    ensures isIvf == (|file.bytes| >= 32 && file.bytes[..4] == SIGNATURE)
    ensures isIvf ==> file.pos == 32 && fourcc == FromLe(file.bytes[8..12])
    ensures isIvf ==> width == FromLe(file.bytes[12..14]) && height == FromLe(file.bytes[14..16])
    ensures !isIvf ==> file.pos == 0
  {
    isIvf, fourcc, width, height := false, 0, 0, 0;
    var header, ok := file.Read(32);
    if ok && header[..4] == SIGNATURE {
      isIvf := true;
      assert header == file.bytes[..32];
      assert header[8..12] == file.bytes[8..12] && header[12..14] == file.bytes[12..14]
          && header[14..16] == file.bytes[14..16];
      fourcc, width, height := FromLe(header[8..12]), FromLe(header[12..14]), FromLe(header[14..16]);
    }
    if !isIvf {
      file.Rewind();
    }
  }

  lemma {:induction false} HeaderFields(info: StreamInfo, n: nat)
    ensures var h := FileHeader(info, n);
      && h[..4] == SIGNATURE && h[8..12] == Le(info.fourcc, 4) && h[12..14] == Le(info.width, 2)
      && h[14..16] == Le(info.height, 2) && h[16..20] == Le(info.den, 4) && h[20..24] == Le(info.num, 4)
      && h[24..28] == Le(n, 4) && h[4..6] == Le(0, 2) && h[6..8] == Le(32, 2) && h[28..32] == Le(0, 4)
  {
    hide Le;
    var h := FileHeader(info, n);
    assert |SIGNATURE| == 4;
  }

  /** The size and the time stamp of a frame can be read off its header. */
  lemma {:induction false} FrameHeaderFields(pts: int, size: nat)
    requires -0x8000_0000_0000_0000 <= pts < 0x8000_0000_0000_0000 && size < TWO_32
    ensures var h := FrameHeader(pts, size);
      && FromLe(h[..4]) == size
      && var v := FromLe(h[4..12]); pts == if v < 0x8000_0000_0000_0000 then v else v - TWO_64
  {
    hide Le, FromLe;
    var h := FrameHeader(pts, size);
    assert h[..4] == Le(size, 4) && h[4..12] == Le(Bits64(pts), 8);
    FromLe32(size);
    FromLeOfLe(Bits64(pts), 8);
    assert Pow256(8) == TWO_64 by { Pow256Of8(); }
  }

  lemma {:induction false} Pow256Of8()
    ensures Pow256(8) == TWO_64
  {
    assert Pow256(4) == TWO_32;
    assert Pow256(6) == 256 * (256 * Pow256(4));
  }

  lemma {:induction false} FromLe16(v: nat)
    ensures FromLe(Le(v, 2)) == v % 65536
  {
    FromLeOfLe(v, 2);
    assert Pow256(2) == 65536;
  }

  /** The file of a packet sequence is recognised, its header gives back the stream's properties and the number
      of frames, and reading frame by frame to the end of the file gives back every frame exactly when all are
      within the reader's limit of 256 MiB. */
  lemma {:induction false} StreamRoundTrip(info: StreamInfo, packets: seq<Packet>)
    requires Sequence(false, packets) && info.fourcc < TWO_32 && info.width < 65536 && info.height < 65536
    requires info.num < TWO_32 && info.den < TWO_32 && |packets| < TWO_32
    ensures var (frames, file) := (Frames(packets), IvfFile(info, Frames(packets)));
      && |file| >= 32 && file[..4] == SIGNATURE && FromLe(file[8..12]) == info.fourcc
      && FromLe(file[12..14]) == info.width && FromLe(file[14..16]) == info.height
      && FromLe(file[16..20]) == info.den && FromLe(file[20..24]) == info.num && FromLe(file[24..28]) == |frames|
      && (ReadAll(file[32..]) == Datas(frames) <==> forall i :: 0 <= i < |frames| ==> |frames[i].data| <= MAX_FRAME)
  {
    hide FileHeader, Le, FromLe, Frames, Records, ReadAll, Datas;
    var frames := Frames(packets);
    var file, h := IvfFile(info, frames), FileHeader(info, |frames|);
    HeaderFields(info, |frames|);
    assert file[..32] == h && file[32..] == Records(frames);
    assert file[..4] == h[..4] && file[8..12] == h[8..12] && file[12..14] == h[12..14] && file[14..16] == h[14..16];
    assert file[16..20] == h[16..20] && file[20..24] == h[20..24] && file[24..28] == h[24..28];
    FromLe32(info.fourcc);
    FromLe32(info.den);
    FromLe32(info.num);
    FromLe16(info.width);
    FromLe16(info.height);
    FewerFrames(packets);
    FromLe32(|frames|);
    ReadAllRecords(frames);
  }

  lemma {:induction false} FewerFrames(packets: seq<Packet>)
    ensures |Frames(packets)| <= |packets|
    decreases packets
  {
    if packets != [] {
      FewerFrames(packets[FirstFrame(packets)..]);
    }
  }

  // ----- The layout of a file in bytes

  /** The 16- and the 32-bit value at a place, low byte first. */
  function U16(b: seq<Byte>, k: nat): int
    requires k + 2 <= |b|
  {
    var (b0: int, b1: int) := (b[k], b[k + 1]);
    b0 + 256 * b1
  }

  function U32(b: seq<Byte>, k: nat): int
    requires k + 4 <= |b|
  {
    U16(b, k) + 65536 * U16(b, k + 2)
  }

  lemma {:induction false} TwoDigits(v: nat)
    ensures v % 65536 == v % 256 + 256 * (v / 256 % 256)
  {
    LowestDigit(v, 256, 256);
  }

  lemma {:induction false} FourDigits(v: nat)
    ensures v % TWO_32 == v % 65536 + 65536 * (v / 65536 % 65536)
    ensures v / 65536 % 65536 == v / 65536 % 256 + 256 * (v / 0x100_0000 % 256)
  {
    LowestDigit(v, 65536, 65536);
    TwoDigits(v / 65536);
    assert v / 65536 / 256 == v / 0x100_0000;
  }

  lemma {:induction false} U16Of(b: seq<Byte>, k: nat, v: nat)
    requires k + 2 <= |b| && b[k..k + 2] == Le(v, 2)
    ensures U16(b, k) == v % 65536
  {
    TwoDigits(v);
    assert Le(v, 2) == [v % 256] + Le(v / 256, 1);
    var d := b[k..k + 2];
    assert b[k] == d[0] && b[k + 1] == d[1];
  }

  lemma {:induction false} U32Of(b: seq<Byte>, k: nat, v: nat)
    requires k + 4 <= |b| && b[k..k + 4] == Le(v, 4)
    ensures U32(b, k) == v % TWO_32
  {
    hide Le;
    TwoDigits(v);
    FourDigits(v);
    Le32Bytes(v);
    var d := b[k..k + 4];
    assert b[k] == d[0] && b[k + 1] == d[1] && b[k + 2] == d[2] && b[k + 3] == d[3];
  }

  /** Where the fields of the file header are: the signature DKIF, the version 0, the header's size 32, the code, the
      picture's size, the time base's denominator and numerator, the number of frames, and an unused word. */
  lemma {:induction false} HeaderLayout(info: StreamInfo, n: nat)
    ensures var h := FileHeader(info, n);
      && h[0] == 'D' as int && h[1] == 'K' as int && h[2] == 'I' as int && h[3] == 'F' as int
      && U16(h, 4) == 0 && U16(h, 6) == 32 && U32(h, 8) == info.fourcc % 0x1_0000_0000
      && U16(h, 12) == info.width % 0x1_0000 && U16(h, 14) == info.height % 0x1_0000
      && U32(h, 16) == info.den % 0x1_0000_0000 && U32(h, 20) == info.num % 0x1_0000_0000
      && U32(h, 24) == n % 0x1_0000_0000 && U32(h, 28) == 0
  {
    hide FileHeader, U16, U32, Le;
    HeaderFields(info, n);
    var h := FileHeader(info, n);
    assert h[0] == h[..4][0] && h[1] == h[..4][1] && h[2] == h[..4][2] && h[3] == h[..4][3];
    U16Of(h, 4, 0);
    U16Of(h, 6, 32);
    U32Of(h, 8, info.fourcc);
    U16Of(h, 12, info.width);
    U16Of(h, 14, info.height);
    U32Of(h, 16, info.den);
    U32Of(h, 20, info.num);
    U32Of(h, 24, n);
    U32Of(h, 28, 0);
  }

  /** A frame's header: its size, and its time stamp in two's complement, low word first. */
  lemma {:induction false} FrameHeaderLayout(pts: int, size: nat)
    requires -0x8000_0000_0000_0000 <= pts < 0x8000_0000_0000_0000
    ensures var h := FrameHeader(pts, size);
      && U32(h, 0) == size % 0x1_0000_0000
      && U32(h, 4) + 0x1_0000_0000 * U32(h, 8) == pts + if pts < 0 then 0x1_0000_0000_0000_0000 else 0
  {
    hide U32, Le;
    var h, v := FrameHeader(pts, size), Bits64(pts);
    Le64Split(v);
    assert h[0..4] == Le(size, 4) && h[4..8] == Le(v % TWO_32, 4) && h[8..12] == Le(v / TWO_32, 4);
    U32Of(h, 0, size);
    U32Of(h, 4, v % TWO_32);
    U32Of(h, 8, v / TWO_32);
  }

  /** Where the record of frame i starts: after the file header and the frames before it. */
  function PlaceOf(frames: seq<Frame>, i: nat): nat
    requires i <= |frames|
  {
    if i == 0 then 32 else PlaceOf(frames, i - 1) + 12 + |frames[i - 1].data|
  }

  lemma {:induction false} RecordsEnd(frames: seq<Frame>, i: nat)
    requires i <= |frames|
    ensures 32 + |Records(frames[..i])| == PlaceOf(frames, i)
  {
    if i > 0 {
      RecordsEnd(frames, i - 1);
      assert frames[..i][..i - 1] == frames[..i - 1];
    }
  }

  /** At its place a frame has its header, and then its data; the file ends with the last one. */
  lemma {:induction false} RecordLayout(info: StreamInfo, frames: seq<Frame>, i: nat)
    requires i < |frames|
    ensures var (file, at, f) := (IvfFile(info, frames), PlaceOf(frames, i), frames[i]);
      && at + 12 + |f.data| == PlaceOf(frames, i + 1) <= PlaceOf(frames, |frames|) == |file|
      && file[at..at + 12] == FrameHeader(f.pts, |f.data|) && file[at + 12..at + 12 + |f.data|] == f.data
  {
    hide FileHeader, FrameHeader;
    RecordsEnd(frames, |frames|);
    assert frames[..|frames|] == frames;
    RecordIn(frames, |frames|, i);
    var file, r := IvfFile(info, frames), Records(frames);
    var at, n := PlaceOf(frames, i), |frames[i].data|;
    assert file[at..at + 12 + n] == r[at - 32..at - 32 + 12 + n];
    assert file[at..at + 12] == file[at..at + 12 + n][..12];
    assert file[at + 12..at + 12 + n] == file[at..at + 12 + n][12..];
  }

  lemma {:induction false} RecordIn(frames: seq<Frame>, m: nat, i: nat)
    requires i < m <= |frames|
    ensures var (r, at, f) := (Records(frames[..m]), PlaceOf(frames, i) - 32, frames[i]);
      && 0 <= at && at + 12 + |f.data| <= |r| && PlaceOf(frames, i + 1) <= PlaceOf(frames, m)
      && r[at..at + 12 + |f.data|] == FrameHeader(f.pts, |f.data|) + f.data
    decreases m
  {
    hide FrameHeader;
    assert frames[..m][..m - 1] == frames[..m - 1];
    RecordsEnd(frames, m - 1);
    if i < m - 1 {
      RecordIn(frames, m - 1, i);
    }
  }
}

/** Reading the frames of the video track of a WebM file: an iterator over the clusters loaded, their block entries
    and the frames of each block. */
module Webm {
  import opened Bytes
  import Arith

  /** A block of one track: its frames share a time and the key flag. */
  datatype Block = Block(track: int, time: nat, key: bool, frames: seq<seq<Byte>>)

  type Cluster = seq<Block>

  /** The container library yields blocks of at least one frame. */
  ghost predicate WellFormed(cs: seq<Cluster>) {
    forall c, e :: 0 <= c < |cs| && 0 <= e < |cs[c]| ==> |cs[c][e].frames| > 0
  }

  /** What one read returns: a frame (0), the end of the stream (1) or a failure (-1). */
  datatype Result = Got(data: seq<Byte>, time: nat, key: bool) | Eos | Failed

  /** The position of the iterator: the cluster, the block entry or -1, the next frame of the block. */
  datatype Position = Position(cluster: nat, entry: int, index: nat, eos: bool)

  const START := Position(0, -1, 0, false)

  ghost predicate Reachable(cs: seq<Cluster>, track: int, s: Position) {
    if s.entry == -1 then s.cluster == 0
    else
      && s.cluster < |cs| && 0 <= s.entry < |cs[s.cluster]|
      && cs[s.cluster][s.entry].track == track && s.index <= |cs[s.cluster][s.entry].frames|
  }

  // ----- One read

  /** The next block of the track; stepped says whether a block of another track came before it. */
  datatype Found = At(cluster: nat, entry: nat) | End(stepped: bool) | Broken(stepped: bool)

  function Seek(cs: seq<Cluster>, track: int, c: nat, e: nat, stepped: bool): (r: Found)
    requires c < |cs| && e <= |cs[c]|
    ensures r.At? ==> c <= r.cluster < |cs| && r.entry < |cs[r.cluster]| && cs[r.cluster][r.entry].track == track
    decreases |cs| - c, |cs[c]| - e
  {
    if e < |cs[c]| then
      if cs[c][e].track == track then At(c, e) else Seek(cs, track, c, e + 1, true)
    else if c + 1 == |cs| then End(stepped)
    else if |cs[c + 1]| == 0 then Broken(stepped)
    else Seek(cs, track, c + 1, 0, stepped)
  }

  function SeekFrom(cs: seq<Cluster>, track: int, s: Position): Found
    requires s.entry == -1 || (s.cluster < |cs| && 0 <= s.entry < |cs[s.cluster]|)
  {
    if s.entry >= 0 then Seek(cs, track, s.cluster, s.entry + 1, false)
    else if |cs| == 0 || |cs[0]| == 0 then Broken(false)
    else Seek(cs, track, 0, 0, false)
  }

  ghost predicate InBlock(cs: seq<Cluster>, s: Position)
    requires s.entry == -1 || (s.cluster < |cs| && 0 <= s.entry < |cs[s.cluster]|)
  {
    s.entry >= 0 && s.index < |cs[s.cluster][s.entry].frames|
  }

  function FrameAt(cs: seq<Cluster>, c: nat, e: nat, i: nat): Result
    requires c < |cs| && e < |cs[c]| && i < |cs[c][e].frames|
  {
    Got(cs[c][e].frames[i], cs[c][e].time, cs[c][e].key)
  }

  ghost function Step(cs: seq<Cluster>, track: int, s: Position): (Position, Result)
    requires WellFormed(cs) && Reachable(cs, track, s)
  {
    if s.eos then (s, Eos)
    else if InBlock(cs, s) then (s.(index := s.index + 1), FrameAt(cs, s.cluster, s.entry, s.index))
    else
      match SeekFrom(cs, track, s)
      case At(c, e) => (Position(c, e, 1, false), FrameAt(cs, c, e, 0))
      case End(stepped) => (s.(eos := true, index := if stepped then 0 else s.index), Eos)
      case Broken(stepped) => (s.(index := if stepped then 0 else s.index), Failed)
  }

  class WebmInput {
    const clusters: seq<Cluster>
    const videoTrackIndex: int
    var cluster: nat
    var blockEntry: int
    var blockFrameIndex: nat
    var reachedEos: bool
    var timestampNs: nat
    var isKeyFrame: bool

    ghost function Where(): Position
      reads this
    {
      Position(cluster, blockEntry, blockFrameIndex, reachedEos)
    }

    ghost predicate Valid()
      reads this
    {
      WellFormed(clusters) && Reachable(clusters, videoTrackIndex, Where())
    }

    constructor (clusters: seq<Cluster>, track: int)
      requires WellFormed(clusters)
      ensures this.clusters == clusters && videoTrackIndex == track && Valid() && Where() == START && timestampNs == 0
    {
      this.clusters, videoTrackIndex := clusters, track;
      cluster, blockEntry, blockFrameIndex, reachedEos := 0, -1, 0, false;
      timestampNs, isKeyFrame := 0, false;
    }

    /** Finds the block to read from: 0 when there is one, 1 at the end of the stream, -1 on a failure. */
    method NextBlock() returns (res: int)
      requires Valid() && !reachedEos
      modifies this
      ensures timestampNs == old(timestampNs) && isKeyFrame == old(isKeyFrame)
      ensures WellFormed(clusters) && Reachable(clusters, videoTrackIndex, old(Where()))
      ensures var s := old(Where());
        if InBlock(clusters, s) then res == 0 && Where() == s
        else match SeekFrom(clusters, videoTrackIndex, s)
          case At(c, e) => res == 0 && Where() == Position(c, e, 0, false)
          case End(stepped) => res == 1 && Where() == s.(eos := true, index := if stepped then 0 else s.index)
          case Broken(stepped) => res == -1 && Where() == s.(index := if stepped then 0 else s.index)
    {
      ghost var s := Where();
      ghost var target := SeekFrom(clusters, videoTrackIndex, s);
      ghost var stepped := false;
      var c: nat, e, entryEos, searching := cluster, blockEntry, false, true;
      while searching
        invariant unchanged(this`cluster) && unchanged(this`blockEntry) && unchanged(this`reachedEos)
        invariant unchanged(this`timestampNs) && unchanged(this`isKeyFrame)
        invariant entryEos ==> c < |clusters| && e == -1 && searching
        invariant !entryEos && e != -1 ==> c < |clusters| && 0 <= e < |clusters[c]|
        invariant !entryEos && e == -1 ==> c == s.cluster && e == s.entry && !stepped && searching
        invariant searching ==> blockFrameIndex == if stepped then 0 else s.index
        invariant searching && (entryEos || stepped) ==> !InBlock(clusters, s)
        invariant searching && entryEos ==> target == Seek(clusters, videoTrackIndex, c, |clusters[c]|, stepped)
        invariant searching && !entryEos && e != -1 ==>
          if clusters[c][e].track == videoTrackIndex then c == s.cluster && e == s.entry && !stepped
          else stepped && target == Seek(clusters, videoTrackIndex, c, e + 1, stepped)
        invariant !searching ==> !entryEos && e != -1 && clusters[c][e].track == videoTrackIndex
        invariant !searching ==>
          if InBlock(clusters, s) then c == s.cluster && e == s.entry && blockFrameIndex == s.index
          else target == At(c, e) && blockFrameIndex == 0
        decreases searching, |clusters| - c, if entryEos then 0 else if c < |clusters| then |clusters[c]| + 1 - e else 0
      {
        var newBlock := false;
        if e == -1 && !entryEos {
          if c == |clusters| || |clusters[c]| == 0 { return -1; }
          e, newBlock := 0, true;
        } else if entryEos {
          c := c + 1;
          if c == |clusters| {
            reachedEos := true;
            return 1;
          }
          if |clusters[c]| == 0 { return -1; }
          e, entryEos, newBlock := 0, false, true;
        } else if blockFrameIndex == |clusters[c][e].frames| || clusters[c][e].track != videoTrackIndex {
          if e + 1 == |clusters[c]| {
            e, entryEos := -1, true;
            continue;
          }
          e, newBlock := e + 1, true;
        }
        if newBlock {
          blockFrameIndex := 0;
        }
        searching := clusters[c][e].track != videoTrackIndex;
        stepped := stepped || searching;
      }
      cluster, blockEntry := c, e;
      res := 0;
    }

    /** Reads the next frame into the buffer, or into a larger one when it does not fit; after an end or a failure
        only a position inside the block may have changed. */
    method ReadFrame(buffer: array<Byte>, bufferSize: nat) returns (res: int, data: array<Byte>, dataSize: nat)
      requires Valid() && bufferSize <= buffer.Length
      modifies this, buffer
      ensures Valid() && WellFormed(clusters) && Reachable(clusters, videoTrackIndex, old(Where()))
      ensures (data == buffer || fresh(data)) && dataSize <= data.Length
      ensures var (s, r) := Step(clusters, videoTrackIndex, old(Where()));
        && Where() == s
        && match r
           case Got(frame, time, key) => (
             && res == 0 && dataSize == |frame| && data[..dataSize] == frame
             && timestampNs == time && isKeyFrame == key)
           case Eos => res == 1 && timestampNs == old(timestampNs)
           case Failed => res == -1 && timestampNs == old(timestampNs)
    {
      data, dataSize := buffer, bufferSize;
      if reachedEos { return 1, data, dataSize; }
      res := NextBlock();
      if res == 1 { return 1, data, 0; }
      if res != 0 { return; }
      var block := clusters[cluster][blockEntry];
      var frame := block.frames[blockFrameIndex];
      blockFrameIndex := blockFrameIndex + 1;
      if |frame| > dataSize {
        data := new Byte[|frame|];
      }
      dataSize := |frame|;
      timestampNs, isKeyFrame := block.time, block.key;
      forall i | 0 <= i < |frame| { data[i] := frame[i]; }
    }

    /** Guesses the frame rate from the first second or the first 50 frames, then goes back to the start. */
    method GuessFramerate() returns (numerator: int, denominator: int)
      requires Valid()
      modifies this
      ensures Valid() && Where() == START && timestampNs == 0
      ensures WellFormed(clusters) && Reachable(clusters, videoTrackIndex, old(Where()))
      ensures var (t, i) := GuessFrom(clusters, videoTrackIndex, old(Where()), old(timestampNs), 0);
        numerator == (i - 1) * 1000000 && denominator == ToInt32(t / 1000)
    {
      hide Step, Reachable, WellFormed, ToInt32;
      var buffer, size: nat := new Byte[0], 0;
      var i := 0;
      ghost var guess := GuessFrom(clusters, videoTrackIndex, Where(), timestampNs, 0);
      while timestampNs < 1000000000 && i < 50
        invariant Valid() && 0 <= i <= 50 && size <= buffer.Length && fresh(buffer)
        invariant GuessFrom(clusters, videoTrackIndex, Where(), timestampNs, i) == guess
        decreases 50 - i
      {
        ghost var s := Where();
        var res;
        res, buffer, size := ReadFrame(buffer, size);
        if res != 0 {
          assert guess == (timestampNs, i);
          break;
        }
        i := i + 1;
      }
      assert guess == (timestampNs, i);
      NumeratorInRange(i);
      numerator := ToInt32((i - 1) * 1000000 % TWO_32);
      denominator := ToInt32(timestampNs / 1000);
      cluster, blockEntry, blockFrameIndex, timestampNs, reachedEos := 0, -1, 0, 0, false;
      assert Reachable(clusters, videoTrackIndex, START) by { StartReachable(clusters, videoTrackIndex); }
    }
  }

  /** The conversion of an unsigned value to a 32-bit int. */
  function ToInt32(x: nat): int {
    var w := x % TWO_32;
    if w < TWO_32 / 2 then w else w - TWO_32
  }

  lemma {:induction false} NumeratorInRange(i: int)
    requires 0 <= i <= 50
    ensures ToInt32((i - 1) * 1000000 % TWO_32) == (i - 1) * 1000000
  {
  }

  lemma {:induction false} StartReachable(cs: seq<Cluster>, track: int)
    ensures Reachable(cs, track, START)
  {
  }

  /** The time of the last frame read and the number of frames read while guessing. */
  ghost function GuessFrom(cs: seq<Cluster>, track: int, s: Position, t: nat, i: nat): (nat, nat)
    requires WellFormed(cs) && Reachable(cs, track, s)
    decreases 50 - i
  {
    if t >= 1000000000 || i >= 50 then (t, i)
    else
      StepReachable(cs, track, s);
      match Step(cs, track, s)
      case (s1, Got(_, time, _)) => GuessFrom(cs, track, s1, time, i + 1)
      case _ => (t, i)
  }

  lemma {:induction false} StepReachable(cs: seq<Cluster>, track: int, s: Position)
    requires WellFormed(cs) && Reachable(cs, track, s)
    ensures Reachable(cs, track, Step(cs, track, s).0)
  {
  }

  // ----- What the reads return over a whole run

  /** The frames of one block, if it belongs to the track. */
  function BlockFrames(b: Block, track: int): (r: seq<Result>)
    ensures forall i :: 0 <= i < |r| ==> r[i].Got?
  {
    if b.track == track then seq(|b.frames|, i requires 0 <= i < |b.frames| => Got(b.frames[i], b.time, b.key)) else []
  }

  function ClusterFrames(cl: Cluster, track: int, e: nat): (r: seq<Result>)
    requires e <= |cl|
    ensures forall i :: 0 <= i < |r| ==> r[i].Got?
    decreases |cl| - e
  {
    if e == |cl| then [] else BlockFrames(cl[e], track) + ClusterFrames(cl, track, e + 1)
  }

  /** All frames of the track from a cluster on: clusters, blocks and frames in order. */
  function FramesFrom(cs: seq<Cluster>, track: int, c: nat): (r: seq<Result>)
    requires c <= |cs|
    ensures forall i :: 0 <= i < |r| ==> r[i].Got?
    decreases |cs| - c
  {
    if c == |cs| then [] else ClusterFrames(cs[c], track, 0) + FramesFrom(cs, track, c + 1)
  }

  /** The frames still ahead of a position. */
  ghost function Ahead(cs: seq<Cluster>, track: int, s: Position): (r: seq<Result>)
    requires Reachable(cs, track, s)
    ensures forall i :: 0 <= i < |r| ==> r[i].Got?
  {
    if s.eos then []
    else if s.entry == -1 then FramesFrom(cs, track, 0)
    else
      var later := ClusterFrames(cs[s.cluster], track, s.entry + 1) + FramesFrom(cs, track, s.cluster + 1);
      BlockFrames(cs[s.cluster][s.entry], track)[s.index..] + later
  }

  ghost predicate NoEmptyCluster(cs: seq<Cluster>) {
    |cs| > 0 && forall c :: 0 <= c < |cs| ==> |cs[c]| > 0
  }

  lemma {:induction false} SeekFindsNext(cs: seq<Cluster>, track: int, c: nat, e: nat, stepped: bool)
    requires c < |cs| && e <= |cs[c]| && NoEmptyCluster(cs)
    ensures var ahead := ClusterFrames(cs[c], track, e) + FramesFrom(cs, track, c + 1);
      match Seek(cs, track, c, e, stepped)
      case At(c1, e1) => (
        ahead == BlockFrames(cs[c1][e1], track)
            + (ClusterFrames(cs[c1], track, e1 + 1) + FramesFrom(cs, track, c1 + 1)))
      case End(_) => ahead == []
      case Broken(_) => false
    decreases |cs| - c, |cs[c]| - e
  {
    hide BlockFrames;
    if e < |cs[c]| {
      if cs[c][e].track != track {
        SeekFindsNext(cs, track, c, e + 1, true);
        OtherTrack(cs[c][e], track);
      }
    } else if c + 1 < |cs| {
      SeekFindsNext(cs, track, c + 1, 0, stepped);
      assert [] + FramesFrom(cs, track, c + 1) == FramesFrom(cs, track, c + 1);
    }
  }

  lemma {:induction false} OtherTrack(b: Block, track: int)
    requires b.track != track
    ensures BlockFrames(b, track) == []
  {
  }

  /** One read returns the first frame ahead and moves past it, or the end when nothing is ahead. */
  lemma {:induction false} StepReturnsNext(cs: seq<Cluster>, track: int, s: Position)
    requires WellFormed(cs) && Reachable(cs, track, s) && NoEmptyCluster(cs)
    ensures var (s1, r) := Step(cs, track, s);
      && Reachable(cs, track, s1)
      && var ahead := Ahead(cs, track, s);
        if ahead == [] then r == Eos && s1.eos
        else r == ahead[0] && !s1.eos && Ahead(cs, track, s1) == ahead[1..]
  {
    hide Seek, ClusterFrames, FramesFrom, BlockFrames, SeekFrom;
    if s.eos {
    } else if InBlock(cs, s) {
      InsideBlock(cs, track, s);
    } else {
      hide Ahead;
      NextBlockAhead(cs, track, s);
      match SeekFrom(cs, track, s) {
        case At(c, e) => NewBlock(cs, track, s, c, e);
        case End(stepped) => EndStays(cs, track, Step(cs, track, s).0);
        case Broken(_) => assert false;
      }
    }
  }

  /** The frames ahead start with those of the block found. */
  ghost predicate BlockAhead(cs: seq<Cluster>, track: int, s: Position, c: nat, e: nat)
    requires Reachable(cs, track, s) && c < |cs| && e < |cs[c]|
  {
    Ahead(cs, track, s) == BlockFrames(cs[c][e], track)
        + (ClusterFrames(cs[c], track, e + 1) + FramesFrom(cs, track, c + 1))
  }

  /** Once all frames of a block are read, those behind the block are ahead. */
  lemma {:induction false} AheadOfDone(cs: seq<Cluster>, track: int, s: Position)
    requires Reachable(cs, track, s) && !s.eos && s.entry >= 0 && !InBlock(cs, s)
    ensures Ahead(cs, track, s)
      == ClusterFrames(cs[s.cluster], track, s.entry + 1) + FramesFrom(cs, track, s.cluster + 1)
  {
    hide ClusterFrames, FramesFrom, BlockFrames;
    BlockDone(cs[s.cluster][s.entry], track);
    NothingBefore(ClusterFrames(cs[s.cluster], track, s.entry + 1) + FramesFrom(cs, track, s.cluster + 1));
  }

  /** Before the first read all frames are ahead. */
  lemma {:induction false} AheadAtStart(cs: seq<Cluster>, track: int, s: Position)
    requires Reachable(cs, track, s) && !s.eos && s.entry == -1 && |cs| > 0
    ensures Ahead(cs, track, s) == ClusterFrames(cs[0], track, 0) + FramesFrom(cs, track, 1)
  {
  }

  lemma {:induction false} NextBlockAhead(cs: seq<Cluster>, track: int, s: Position)
    requires WellFormed(cs) && Reachable(cs, track, s) && NoEmptyCluster(cs) && !s.eos && !InBlock(cs, s)
    ensures match SeekFrom(cs, track, s)
      case At(c, e) => c < |cs| && e < |cs[c]| && cs[c][e].track == track && BlockAhead(cs, track, s, c, e)
      case End(_) => Ahead(cs, track, s) == []
      case Broken(_) => false
  {
    hide Ahead, Seek, ClusterFrames, FramesFrom, BlockFrames;
    if s.entry >= 0 {
      SeekFindsNext(cs, track, s.cluster, s.entry + 1, false);
      AheadOfDone(cs, track, s);
    } else {
      SeekFindsNext(cs, track, 0, 0, false);
      AheadAtStart(cs, track, s);
    }
  }

  lemma {:induction false} NewBlock(cs: seq<Cluster>, track: int, s: Position, c: nat, e: nat)
    requires WellFormed(cs) && Reachable(cs, track, s)
    requires c < |cs| && e < |cs[c]| && cs[c][e].track == track && BlockAhead(cs, track, s, c, e)
    ensures var s1 := Position(c, e, 1, false);
      var ahead := Ahead(cs, track, s);
      Reachable(cs, track, s1) && ahead != [] && FrameAt(cs, c, e, 0) == ahead[0] && Ahead(cs, track, s1) == ahead[1..]
  {
    hide ClusterFrames, FramesFrom, BlockFrames;
    FirstOfBlock(cs[c][e], track, ClusterFrames(cs[c], track, e + 1) + FramesFrom(cs, track, c + 1));
  }

  lemma {:induction false} InsideBlock(cs: seq<Cluster>, track: int, s: Position)
    requires WellFormed(cs) && Reachable(cs, track, s) && !s.eos && InBlock(cs, s)
    ensures var ahead := Ahead(cs, track, s);
      ahead != [] && FrameAt(cs, s.cluster, s.entry, s.index) == ahead[0]
          && Ahead(cs, track, s.(index := s.index + 1)) == ahead[1..]
  {
    hide ClusterFrames, FramesFrom;
  }

  lemma {:induction false} BlockDone(b: Block, track: int)
    requires b.track == track
    ensures |BlockFrames(b, track)| == |b.frames| && BlockFrames(b, track)[|b.frames|..] == []
  {
  }

  lemma {:induction false} NothingBefore(s: seq<Result>)
    ensures [] + s == s
  {
  }

  lemma {:induction false} FirstOfBlock(b: Block, track: int, rest: seq<Result>)
    requires b.track == track && |b.frames| > 0
    ensures var all := BlockFrames(b, track) + rest;
      |BlockFrames(b, track)| > 0 && all[0] == Got(b.frames[0], b.time, b.key)
          && BlockFrames(b, track)[1..] + rest == all[1..]
  {
  }

  /** The results of n reads in a row. */
  ghost function Reads(cs: seq<Cluster>, track: int, s: Position, n: nat): (r: seq<Result>)
    requires WellFormed(cs) && Reachable(cs, track, s)
    ensures |r| == n
    decreases n
  {
    if n == 0 then []
    else
      StepReachable(cs, track, s);
      [Step(cs, track, s).1] + Reads(cs, track, Step(cs, track, s).0, n - 1)
  }

  /** The frames once each and in order, and then the end of the stream for ever. */
  ghost predicate FramesThenEnd(results: seq<Result>, frames: seq<Result>) {
    forall i :: 0 <= i < |results| ==> results[i] == if i < |frames| then frames[i] else Eos
  }

  lemma {:induction false} ReadsFollowAhead(cs: seq<Cluster>, track: int, s: Position, n: nat)
    requires WellFormed(cs) && Reachable(cs, track, s) && NoEmptyCluster(cs)
    ensures FramesThenEnd(Reads(cs, track, s, n), Ahead(cs, track, s))
    decreases n
  {
    hide Step, Ahead;
    if n > 0 {
      StepReturnsNext(cs, track, s);
      var (s1, r) := Step(cs, track, s);
      ReadsFollowAhead(cs, track, s1, n - 1);
      var ahead, results := Ahead(cs, track, s), Reads(cs, track, s, n);
      if s1.eos {
        EndStays(cs, track, s1);
      }
      forall i | 0 <= i < n ensures results[i] == if i < |ahead| then ahead[i] else Eos {
        if i > 0 {
          assert results[i] == Reads(cs, track, s1, n - 1)[i - 1];
        }
      }
    }
  }

  lemma {:induction false} EndStays(cs: seq<Cluster>, track: int, s: Position)
    requires Reachable(cs, track, s) && s.eos
    ensures Ahead(cs, track, s) == []
  {
  }

  // ----- Lists with an empty cluster

  /** Cluster k is empty and the iterator has not got to it; or there is no cluster at all. */
  ghost predicate HoleAhead(cs: seq<Cluster>, s: Position, k: nat) {
    !s.eos && (cs == [] || (k < |cs| && |cs[k]| == 0 && (s.entry == -1 || s.cluster < k)))
  }

  lemma {:induction false} SeekStopsAtHole(cs: seq<Cluster>, track: int, c: nat, e: nat, stepped: bool, k: nat)
    requires c < k < |cs| && |cs[k]| == 0 && e <= |cs[c]|
    ensures var f := Seek(cs, track, c, e, stepped); !f.End? && (f.At? ==> f.cluster < k)
    decreases |cs| - c, |cs[c]| - e
  {
    if e < |cs[c]| {
      if cs[c][e].track != track {
        SeekStopsAtHole(cs, track, c, e + 1, true, k);
      }
    } else if |cs[c + 1]| > 0 {
      SeekStopsAtHole(cs, track, c + 1, 0, stepped, k);
    }
  }

  lemma {:induction false} HoleBlocks(cs: seq<Cluster>, track: int, s: Position, k: nat)
    requires WellFormed(cs) && Reachable(cs, track, s) && HoleAhead(cs, s, k)
    ensures var (s1, r) := Step(cs, track, s); r != Eos && HoleAhead(cs, s1, k)
  {
    hide Seek;
    if cs != [] {
      if s.entry >= 0 {
        SeekStopsAtHole(cs, track, s.cluster, s.entry + 1, false, k);
      } else if k > 0 {
        SeekStopsAtHole(cs, track, 0, 0, false, k);
      }
    }
  }

  lemma {:induction false} HoleNeverEnds(cs: seq<Cluster>, track: int, s: Position, k: nat, n: nat)
    requires WellFormed(cs) && Reachable(cs, track, s) && HoleAhead(cs, s, k)
    ensures forall i :: 0 <= i < n ==> Reads(cs, track, s, n)[i] != Eos
    decreases n
  {
    hide Step, HoleAhead;
    if n > 0 {
      HoleBlocks(cs, track, s, k);
      StepReachable(cs, track, s);
      var s1 := Step(cs, track, s).0;
      HoleNeverEnds(cs, track, s1, k, n - 1);
      forall i | 0 <= i < n ensures Reads(cs, track, s, n)[i] != Eos {
        if i > 0 {
          assert Reads(cs, track, s, n)[i] == Reads(cs, track, s1, n - 1)[i - 1];
        }
      }
    }
  }

  /** Over the list of clusters that was loaded, reading returns every frame of the track once and in order, and from
      then on the end of the stream, for any number of reads, exactly when there is a cluster and none is empty.
      Loading leaves out almost all clusters without a block; `Mkv` says which files give which lists. */
  lemma {:induction false} ReadsEveryFrame(cs: seq<Cluster>, track: int)
    requires WellFormed(cs)
    ensures NoEmptyCluster(cs)
      <==> forall n: nat :: FramesThenEnd(Reads(cs, track, START, n), FramesFrom(cs, track, 0))
  {
    hide FramesFrom, Reads;
    if NoEmptyCluster(cs) {
      forall n: nat ensures FramesThenEnd(Reads(cs, track, START, n), FramesFrom(cs, track, 0)) {
        ReadsFollowAhead(cs, track, START, n);
      }
    } else {
      var k := if cs == [] then 0 else var k :| 0 <= k < |cs| && |cs[k]| == 0; k;
      var n := |FramesFrom(cs, track, 0)|;
      HoleNeverEnds(cs, track, START, k, n + 1);
      assert Reads(cs, track, START, n + 1)[n] != Eos;
    }
  }

  /** With an empty cluster at the end of the list, reading on after the failure returns the last frame again. */
  lemma {:induction false} EmptyClusterRepeats(video: Block, audio: Block)
    requires |video.frames| == 1 && |audio.frames| == 1 && video.track != audio.track
    ensures var cs := [[video, audio], []];
      var frame := Got(video.frames[0], video.time, video.key);
      WellFormed(cs) && Reads(cs, video.track, START, 3) == [frame, Failed, frame]
  {
    var cs, track := [[video, audio], []], video.track;
    var s1, s2 := Position(0, 0, 1, false), Position(0, 0, 0, false);
    var frame := Got(video.frames[0], video.time, video.key);
    assert Step(cs, track, START) == (s1, frame);
    assert Seek(cs, track, 0, 1, false) == Seek(cs, track, 0, 2, true) == Broken(true);
    assert Step(cs, track, s1) == (s2, Failed);
    assert Step(cs, track, s2) == (s1, frame);
    assert Reads(cs, track, s1, 0) == [];
    assert Reads(cs, track, s2, 1) == [frame];
    assert Reads(cs, track, s1, 2) == [Failed, frame];
  }

  // ----- What the guess looks at

  const ONE_SECOND := 1000000000

  lemma {:induction false} GuessAlong(cs: seq<Cluster>, track: int, s: Position, t: nat, i: nat, frames: seq<Result>)
    requires WellFormed(cs) && Reachable(cs, track, s) && NoEmptyCluster(cs)
    requires i <= |frames| && i <= 50 && Ahead(cs, track, s) == frames[i..]
    requires forall j :: 0 <= j < |frames| ==> frames[j].Got?
    requires t == if i == 0 then 0 else frames[i - 1].time
    requires forall j :: 0 <= j < i - 1 ==> frames[j].time < ONE_SECOND
    ensures GuessIs(GuessFrom(cs, track, s, t, i), frames)
    decreases 50 - i
  {
    hide Step, Ahead;
    if t < ONE_SECOND && i < 50 {
      StepReturnsNext(cs, track, s);
      var (s1, r) := Step(cs, track, s);
      if i < |frames| {
        GuessAlong(cs, track, s1, frames[i].time, i + 1, frames);
      }
    }
  }

  /** The guess went through the frames up to the first one at or after one second, at most 50 and at most all. */
  ghost predicate GuessIs(guess: (nat, nat), frames: seq<Result>)
    requires forall j :: 0 <= j < |frames| ==> frames[j].Got?
  {
    var (t, i) := guess;
    && i <= 50 && i <= |frames| && t == (if i == 0 then 0 else frames[i - 1].time)
    && (forall j :: 0 <= j < i - 1 ==> frames[j].time < ONE_SECOND)
    && (i == 50 || i == |frames| || t >= ONE_SECOND)
  }

  lemma {:induction false} GuessLooksAtFirstSecond(cs: seq<Cluster>, track: int)
    requires WellFormed(cs) && NoEmptyCluster(cs)
    ensures GuessIs(GuessFrom(cs, track, START, 0, 0), FramesFrom(cs, track, 0))
  {
    hide FramesFrom, GuessFrom, GuessIs;
    GuessAlong(cs, track, START, 0, 0, FramesFrom(cs, track, 0));
  }

  /** The conversion to an int keeps the value modulo 2^32. */
  lemma {:induction false} ToInt32Wraps(x: nat)
    ensures -0x8000_0000 <= ToInt32(x) <= 0x7fff_ffff && (x - ToInt32(x)) % 0x1_0000_0000 == 0
  {
    var w := x % TWO_32;
    assert x - w == TWO_32 * (x / TWO_32);
    Arith.DivModUnique(x - w, TWO_32, x / TWO_32, 0);
    if w >= TWO_32 / 2 {
      Arith.DivModUnique(x - w + TWO_32, TWO_32, x / TWO_32 + 1, 0);
    }
  }
}

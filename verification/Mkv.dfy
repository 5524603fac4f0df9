/** Which clusters of a WebM file the container library loads, and what reading frames from the file returns. */
module Mkv {
  import opened Webm

  /** A cluster as it is stored, with or without a known size. */
  datatype Stored = Stored(blocks: Cluster, sized: bool)

  /** What follows the last whole block of the last cluster: an index, nothing, a block that the end of the file cuts
      short, or at most a part of the header of a block that is missing. */
  datatype Tail = Index | EndOfFile | CutBlock | CutHeader

  datatype File = File(clusters: seq<Stored>, tail: Tail)

  predicate IsLast(f: File, c: nat) { c + 1 == |f.clusters| }

  /** A cluster of known size is lost as a whole when the file ends before it does. */
  predicate Lost(f: File, c: nat)
    requires c < |f.clusters|
  {
    IsLast(f, c) && f.clusters[c].sized && (f.tail == CutBlock || f.tail == CutHeader)
  }

  /** Whether a cluster has a block: 1 if so, 0 if not, -1 when the end of the file comes first. The block may be one
      that is cut short, if the size of the cluster is unknown. */
  function HasBlockEntries(f: File, c: nat): int
    requires c < |f.clusters|
  {
    if Lost(f, c) then 0
    else if f.clusters[c].blocks != [] then 1
    else if f.clusters[c].sized || !IsLast(f, c) || f.tail == Index then 0
    else if f.tail == CutBlock then 1
    else -1
  }

  /** The clusters loaded from the first k of the file: those with a block. */
  function LoadedTo(f: File, k: nat): seq<Cluster>
    requires k <= |f.clusters|
  {
    if k == 0 then []
    else LoadedTo(f, k - 1) + if HasBlockEntries(f, k - 1) > 0 then [f.clusters[k - 1].blocks] else []
  }

  function Loaded(f: File): seq<Cluster> { LoadedTo(f, |f.clusters|) }

  /** Loading fails when the last cluster has no known size and the file ends where a header is needed. */
  predicate Refused(f: File) {
    && f.clusters != [] && !f.clusters[|f.clusters| - 1].sized
    && (f.tail == CutHeader || (f.tail == EndOfFile && f.clusters[|f.clusters| - 1].blocks == []))
  }

  lemma {:induction false} AllParsed(f: File, c: nat)
    requires c < |f.clusters| && HasBlockEntries(f, c) > 0
    ensures var blocks := f.clusters[c].blocks;
      LoadedTo(f, c) + [blocks[..|blocks|]] == LoadedTo(f, c + 1)
    ensures IsLast(f, c) && Refused(f) ==> f.tail == CutHeader
  {
    assert f.clusters[c].blocks[..|f.clusters[c].blocks|] == f.clusters[c].blocks;
  }

  class Segment {
    const file: File
    var next: nat
    var unknownSize: bool
    var parsed: nat
    var clusters: seq<Cluster>

    /** Everything before next is loaded; of a cluster of unknown size, the blocks parsed so far. */
    ghost predicate Valid()
      reads this
    {
      && next <= |file.clusters|
      && (forall c :: 0 <= c < next ==> HasBlockEntries(file, c) >= 0)
      && if unknownSize then
           && next > 0 && HasBlockEntries(file, next - 1) > 0 && !file.clusters[next - 1].sized
           && parsed <= |file.clusters[next - 1].blocks|
           && clusters == LoadedTo(file, next - 1) + [file.clusters[next - 1].blocks[..parsed]]
         else
           clusters == LoadedTo(file, next) && (next == |file.clusters| ==> !Refused(file))
    }

    /** Clusters still to look at and blocks still to parse. */
    ghost function Left(): (nat, nat)
      requires Valid()
      reads this
    {
      (|file.clusters| - next, if unknownSize then |file.clusters[next - 1].blocks| + 1 - parsed else 0)
    }

    ghost predicate Less(a: (nat, nat), b: (nat, nat)) { a.0 < b.0 || (a.0 == b.0 && a.1 < b.1) }

    constructor (file: File)
      ensures Valid() && this.file == file && clusters == []
    {
      this.file, next, unknownSize, parsed, clusters := file, 0, false, 0, [];
    }

    /** Parses one more block of the cluster of unknown size, or finds its end. */
    method DoLoadClusterUnknownSize() returns (status: int)
      requires Valid() && unknownSize
      modifies this
      ensures status == -1 || status == 2
      ensures status == -1 ==> Refused(file)
      ensures status == 2 ==> Valid() && Less(Left(), old(Left()))
    {
      hide HasBlockEntries, LoadedTo;
      var blocks, count := file.clusters[next - 1].blocks, |clusters| - 1;
      assert clusters[..count] == LoadedTo(file, next - 1) && clusters[count] == blocks[..parsed];
      if parsed < |blocks| {
        assert blocks[..parsed] + [blocks[parsed]] == blocks[..parsed + 1];
        clusters := clusters[..count] + [clusters[count] + [blocks[parsed]]];
        parsed := parsed + 1;
        return 2;
      }
      if IsLast(file, next - 1) && file.tail == CutHeader { return -1; }
      AllParsed(file, next - 1);
      unknownSize := false;
      return 2;
    }

    /** One step: 0 when a cluster was loaded, 1 when there are no more, 2 to try again, -1 on a failure. */
    method DoLoadCluster() returns (status: int)
      requires Valid()
      modifies this
      ensures -1 <= status <= 2 && (status == -1 ==> Refused(file))
      ensures status >= 0 ==> Valid()
      ensures status == 1 ==> next == |file.clusters| && !unknownSize
      ensures status == 0 || status == 2 ==> Less(Left(), old(Left()))
    {
      if unknownSize {
        status := DoLoadClusterUnknownSize();
        return;
      }
      if next == |file.clusters| { return 1; }
      var cluster, entries := file.clusters[next], HasBlockEntries(file, next);
      if entries < 0 { return -1; }
      next := next + 1;
      if entries == 0 {
        return if next == |file.clusters| && cluster.sized && file.tail != Index then 1 else 2;
      }
      clusters := clusters + [if cluster.sized then cluster.blocks else []];
      unknownSize, parsed := !cluster.sized, 0;
      return 0;
    }

    method LoadCluster() returns (status: int)
      requires Valid()
      modifies this
      ensures -1 <= status <= 1 && (status == -1 ==> Refused(file))
      ensures status >= 0 ==> Valid()
      ensures status == 1 ==> next == |file.clusters| && !unknownSize
      ensures status == 0 ==> Less(Left(), old(Left()))
    {
      ghost var before := Left();
      status := DoLoadCluster();
      while status > 1
        invariant -1 <= status <= 2 && (status == -1 ==> Refused(file))
        invariant status >= 0 ==> Valid()
        invariant status == 1 ==> next == |file.clusters| && !unknownSize
        invariant status == 0 || status == 2 ==> Less(Left(), before)
        decreases if status > 1 then Left().0 + 1 else 0, if status > 1 then Left().1 else 0
      {
        status := DoLoadCluster();
      }
    }

    /** Loads all clusters that have a block. */
    method Load() returns (status: int)
      requires Valid()
      modifies this
      ensures old(clusters) != [] ==> status == -1 && clusters == old(clusters)
      ensures old(clusters) == [] ==>
        if Refused(file) then status == -1 else status == 0 && clusters == Loaded(file)
    {
      if clusters != [] { return -1; }
      status := LoadCluster();
      while status == 0
        invariant -1 <= status <= 1 && (status == -1 ==> Refused(file))
        invariant status >= 0 ==> Valid()
        invariant status == 1 ==> next == |file.clusters| && !unknownSize
        decreases if status == 0 then Left().0 + 1 else 0, if status == 0 then Left().1 else 0
      {
        status := LoadCluster();
      }
      if status > 0 {
        status := 0;
      }
    }
  }

  // ----- What is read from a file

  /** The whole blocks of each cluster, except those of a lost one. */
  function Whole(f: File): seq<Cluster> {
    seq(|f.clusters|, c requires 0 <= c < |f.clusters| => if Lost(f, c) then [] else f.clusters[c].blocks)
  }

  ghost predicate SomeBlock(cs: seq<Cluster>) {
    exists c :: 0 <= c < |cs| && |cs[c]| > 0
  }

  /** The last cluster is of unknown size and cut short inside its first block. */
  predicate CutInFirstBlock(f: File) {
    && f.clusters != [] && !f.clusters[|f.clusters| - 1].sized
    && f.clusters[|f.clusters| - 1].blocks == [] && f.tail == CutBlock
  }

  // ----- A list whose last cluster is empty

  /** Before an empty last cluster the search does the same, except that it fails where it would find the end. */
  lemma {:induction false} SeekBeforeHole(cs: seq<Cluster>, track: int, c: nat, e: nat, stepped: bool)
    requires c < |cs| && e <= |cs[c]|
    ensures Seek(cs + [[]], track, c, e, stepped)
      == match Seek(cs, track, c, e, stepped)
         case End(st) => Broken(st)
         case found => found
    decreases |cs| - c, |cs[c]| - e
  {
    var hs := cs + [[]];
    assert hs[c] == cs[c];
    if e < |cs[c]| {
      if cs[c][e].track != track {
        SeekBeforeHole(cs, track, c, e + 1, true);
      }
    } else if c + 1 < |cs| {
      assert hs[c + 1] == cs[c + 1];
      if |cs[c + 1]| > 0 {
        SeekBeforeHole(cs, track, c + 1, 0, stepped);
      }
    }
  }

  lemma {:induction false} WithHole(cs: seq<Cluster>, track: int, s: Position)
    requires WellFormed(cs) && Reachable(cs, track, s) && NoEmptyCluster(cs)
    ensures WellFormed(cs + [[]]) && Reachable(cs + [[]], track, s) && InBlock(cs + [[]], s) == InBlock(cs, s)
    ensures SeekFrom(cs + [[]], track, s)
      == match SeekFrom(cs, track, s)
         case End(st) => Broken(st)
         case found => found
  {
    hide Seek;
    assert forall c :: 0 <= c < |cs| ==> (cs + [[]])[c] == cs[c];
    if s.entry >= 0 {
      SeekBeforeHole(cs, track, s.cluster, s.entry + 1, false);
    } else {
      SeekBeforeHole(cs, track, 0, 0, false);
    }
  }

  lemma {:induction false} StepBeforeHole(cs: seq<Cluster>, track: int, s: Position)
    requires WellFormed(cs) && Reachable(cs, track, s) && NoEmptyCluster(cs) && !s.eos
    ensures WellFormed(cs + [[]]) && Reachable(cs + [[]], track, s)
    ensures var (s1, r) := Step(cs, track, s);
      if r.Got? then Step(cs + [[]], track, s) == (s1, r) else r == Eos && Step(cs + [[]], track, s).1 == Failed
  {
    hide SeekFrom, NoEmptyCluster, Ahead;
    WithHole(cs, track, s);
    StepReturnsNext(cs, track, s);
    var found := SeekFrom(cs, track, s);
    if InBlock(cs, s) {
      assert (cs + [[]])[s.cluster] == cs[s.cluster];
    } else if found.At? {
      assert (cs + [[]])[found.cluster] == cs[found.cluster];
    }
  }

  /** All frames in order, and then a failure instead of the end. */
  ghost predicate FramesThenFailure(results: seq<Result>, frames: seq<Result>) {
    |results| > |frames| && results[..|frames|] == frames && results[|frames|] == Failed
  }

  lemma {:induction false} ReadsBeforeHole(cs: seq<Cluster>, track: int, s: Position, n: nat)
    requires WellFormed(cs) && Reachable(cs, track, s) && NoEmptyCluster(cs) && !s.eos
    requires n > |Ahead(cs, track, s)|
    ensures WellFormed(cs + [[]]) && Reachable(cs + [[]], track, s)
    ensures FramesThenFailure(Reads(cs + [[]], track, s, n), Ahead(cs, track, s))
    decreases n
  {
    hide Step, Ahead, WellFormed, Reachable, NoEmptyCluster;
    StepBeforeHole(cs, track, s);
    StepReturnsNext(cs, track, s);
    var (s1, r) := Step(cs, track, s);
    var ahead, results := Ahead(cs, track, s), Reads(cs + [[]], track, s, n);
    if ahead != [] {
      ReadsBeforeHole(cs, track, s1, n - 1);
      assert results == [r] + Reads(cs + [[]], track, s1, n - 1);
      assert results[..|ahead|] == [r] + Reads(cs + [[]], track, s1, n - 1)[..|ahead| - 1];
      assert ahead == [ahead[0]] + ahead[1..];
    }
  }

  // ----- Reading from a file

  lemma {:induction false} FramesJoin(a: seq<Cluster>, b: seq<Cluster>, track: int, c: nat)
    requires c <= |a|
    ensures FramesFrom(a + b, track, c) == FramesFrom(a, track, c) + FramesFrom(b, track, 0)
    decreases |a| - c
  {
    if c == |a| {
      FramesShift(a, b, track, 0);
    } else {
      assert (a + b)[c] == a[c];
      FramesJoin(a, b, track, c + 1);
      assert ClusterFrames(a[c], track, 0) + (FramesFrom(a, track, c + 1) + FramesFrom(b, track, 0))
          == ClusterFrames(a[c], track, 0) + FramesFrom(a, track, c + 1) + FramesFrom(b, track, 0);
    }
  }

  lemma {:induction false} FramesShift(a: seq<Cluster>, b: seq<Cluster>, track: int, c: nat)
    requires c <= |b|
    ensures FramesFrom(a + b, track, |a| + c) == FramesFrom(b, track, c)
    decreases |b| - c
  {
    if c < |b| {
      assert (a + b)[|a| + c] == b[c];
      FramesShift(a, b, track, c + 1);
    }
  }

  /** Leaving out clusters without a block leaves out no frame. */
  lemma {:induction false} LoadedFrames(f: File, track: int, k: nat)
    requires k <= |f.clusters|
    ensures FramesFrom(LoadedTo(f, k), track, 0) == FramesFrom(Whole(f)[..k], track, 0)
    decreases k
  {
    hide FramesFrom, HasBlockEntries, ClusterFrames;
    if k > 0 {
      LoadedFrames(f, track, k - 1);
      var cl := Whole(f)[k - 1];
      assert Whole(f)[..k] == Whole(f)[..k - 1] + [cl];
      FramesJoin(Whole(f)[..k - 1], [cl], track, 0);
      OneLoaded(f, k - 1);
      if HasBlockEntries(f, k - 1) > 0 {
        FramesJoin(LoadedTo(f, k - 1), [cl], track, 0);
      } else {
        EmptyHasNoFrames(track);
        assert [cl] == [[]];
        assert LoadedTo(f, k) == LoadedTo(f, k - 1);
        assert FramesFrom(Whole(f)[..k - 1], track, 0) + [] == FramesFrom(Whole(f)[..k - 1], track, 0);
      }
    }
  }

  lemma {:induction false} OneLoaded(f: File, c: nat)
    requires c < |f.clusters|
    ensures LoadedTo(f, c + 1) == LoadedTo(f, c) + if HasBlockEntries(f, c) > 0 then [Whole(f)[c]] else []
    ensures HasBlockEntries(f, c) <= 0 ==> Whole(f)[c] == []
    ensures HasBlockEntries(f, c) > 0 ==> Whole(f)[c] != [] || (IsLast(f, c) && CutInFirstBlock(f))
    ensures IsLast(f, c) && CutInFirstBlock(f) ==> HasBlockEntries(f, c) > 0 && Whole(f)[c] == []
  {
  }

  lemma {:induction false} EmptyHasNoFrames(track: int)
    ensures FramesFrom([[]], track, 0) == []
  {
    assert ClusterFrames([], track, 0) == [] && FramesFrom([[]], track, 1) == [];
  }

  lemma {:induction false} LoadedWellFormed(f: File, k: nat)
    requires k <= |f.clusters| && WellFormed(Whole(f))
    ensures WellFormed(LoadedTo(f, k))
    decreases k
  {
    hide HasBlockEntries, Whole, LoadedTo;
    if k == 0 {
      assert LoadedTo(f, 0) == [] by { NothingLoaded(f); }
    } else {
      LoadedWellFormed(f, k - 1);
      OneLoaded(f, k - 1);
      assert |Whole(f)| == |f.clusters| by { WholeSize(f); }
    }
  }

  /** Of the clusters loaded, only one that is cut short in its first block is empty. */
  lemma {:induction false} LoadedClusters(f: File, k: nat)
    requires k <= |f.clusters| && (k == |f.clusters| ==> !CutInFirstBlock(f))
    ensures if SomeBlock(Whole(f)[..k]) then NoEmptyCluster(LoadedTo(f, k)) else LoadedTo(f, k) == []
    decreases k
  {
    hide HasBlockEntries, CutInFirstBlock, Whole, LoadedTo;
    if k == 0 {
      assert LoadedTo(f, 0) == [] by { NothingLoaded(f); }
    } else {
      var w := Whole(f);
      LoadedClusters(f, k - 1);
      OneLoaded(f, k - 1);
      assert |w| == |f.clusters| by { WholeSize(f); }
      assert w[..k] == w[..k - 1] + [w[k - 1]];
      OneMoreBlock(w[..k - 1], w[k - 1]);
    }
  }

  lemma {:induction false} NothingLoaded(f: File)
    ensures LoadedTo(f, 0) == []
  {
  }

  lemma {:induction false} WholeSize(f: File)
    ensures |Whole(f)| == |f.clusters|
  {
  }

  lemma {:induction false} OneMoreBlock(cs: seq<Cluster>, cl: Cluster)
    ensures SomeBlock(cs + [cl]) <==> SomeBlock(cs) || |cl| > 0
  {
    if |cl| > 0 {
      assert |(cs + [cl])[|cs|]| > 0;
    }
    if SomeBlock(cs) {
      var c :| 0 <= c < |cs| && |cs[c]| > 0;
      assert |(cs + [cl])[c]| > 0;
    }
  }

  /** An accepted file that holds a block and is not cut short in the first block of a cluster of unknown size is
      read to its end: all frames of the track, once and in order, and then the end of the stream for ever. From
      any other accepted file reading fails after the last frame. */
  lemma {:induction false} FileIsRead(f: File, track: int)
    requires WellFormed(Whole(f)) && !Refused(f)
    ensures WellFormed(Loaded(f))
    ensures var frames := FramesFrom(Whole(f), track, 0);
      if SomeBlock(Whole(f)) && !CutInFirstBlock(f) then
        forall n: nat :: FramesThenEnd(Reads(Loaded(f), track, START, n), frames)
      else
        forall n: nat :: n > |frames| ==> FramesThenFailure(Reads(Loaded(f), track, START, n), frames)
  {
    hide FramesFrom, Reads, WellFormed, CutInFirstBlock, FramesThenEnd, FramesThenFailure, LoadedTo, SomeBlock;
    var count := |f.clusters|;
    assert Whole(f)[..count] == Whole(f);
    LoadedFrames(f, track, count);
    LoadedWellFormed(f, count);
    if !CutInFirstBlock(f) {
      LoadedClusters(f, count);
    }
    var cs, frames := Loaded(f), FramesFrom(Whole(f), track, 0);
    if CutInFirstBlock(f) {
      CutFileFails(f, track);
    } else if SomeBlock(Whole(f)) {
      forall n: nat ensures FramesThenEnd(Reads(cs, track, START, n), frames) {
        ReadsFollowAhead(cs, track, START, n);
      }
    } else {
      forall n: nat | n > |frames| ensures FramesThenFailure(Reads(cs, track, START, n), frames) {
        NothingToRead(cs, track, n);
      }
    }
  }

  lemma {:induction false} NothingToRead(cs: seq<Cluster>, track: int, n: nat)
    requires (cs == [] || cs == [[]]) && n > 0
    ensures WellFormed(cs) && FramesFrom(cs, track, 0) == []
    ensures FramesThenFailure(Reads(cs, track, START, n), [])
  {
    EmptyHasNoFrames(track);
  }

  lemma {:induction false} CutFileFails(f: File, track: int)
    requires WellFormed(Whole(f)) && CutInFirstBlock(f)
    ensures WellFormed(Loaded(f))
    ensures var frames := FramesFrom(Whole(f), track, 0);
      forall n: nat :: n > |frames| ==> FramesThenFailure(Reads(Loaded(f), track, START, n), frames)
  {
    hide FramesFrom, Reads, WellFormed, HasBlockEntries, FramesThenFailure, LoadedTo;
    var last := |f.clusters| - 1;
    assert Whole(f)[..last + 1] == Whole(f);
    var cs, frames := LoadedTo(f, last), FramesFrom(Whole(f), track, 0);
    LoadedFrames(f, track, last + 1);
    LoadedClusters(f, last);
    LoadedWellFormed(f, last);
    LoadedWellFormed(f, last + 1);
    OneLoaded(f, last);
    assert Loaded(f) == cs + [[]];
    forall n: nat | n > |frames| ensures FramesThenFailure(Reads(Loaded(f), track, START, n), frames) {
      if cs == [] {
        assert cs + [[]] == [[]];
        NothingToRead([[]], track, n);
      } else {
        FramesJoin(cs, [[]], track, 0);
        EmptyHasNoFrames(track);
        assert frames == FramesFrom(cs, track, 0) + [] == Ahead(cs, track, START);
        ReadsBeforeHole(cs, track, START, n);
      }
    }
  }

  /** Such a file can give a frame twice: reading on after the failure starts over in the last block read. */
  lemma {:induction false} CutFileRepeats(video: Block, audio: Block, sized: bool)
    requires |video.frames| == 1 && |audio.frames| == 1 && video.track != audio.track
    ensures var f := File([Stored([video, audio], sized), Stored([], false)], CutBlock);
      var frame := Got(video.frames[0], video.time, video.key);
      && !Refused(f) && Loaded(f) == [[video, audio], []] && WellFormed(Loaded(f))
      && Reads(Loaded(f), video.track, START, 3) == [frame, Failed, frame]
  {
    hide Reads;
    var f := File([Stored([video, audio], sized), Stored([], false)], CutBlock);
    assert LoadedTo(f, 1) == [[video, audio]];
    EmptyClusterRepeats(video, audio);
  }

  // ----- Which files load

  /** A file loads when its last cluster has a known size, wherever the file ends; and a file whose last cluster has
      none loads when an index follows, when it ends inside a block, and when it ends after one. Only a last cluster of
      known size that is not complete loses its whole blocks. */
  lemma {:induction false} FilesThatLoad(clusters: seq<Stored>, last: Cluster, tail: Tail)
    ensures !Refused(File([], tail))
    ensures !Refused(File(clusters + [Stored(last, true)], tail))
    ensures !Refused(File(clusters + [Stored(last, false)], tail))
      <==> tail == Index || tail == CutBlock || (tail == EndOfFile && |last| > 0)
    ensures forall sized ::
      Whole(File(clusters + [Stored(last, sized)], tail))
      == Whole(File(clusters, Index)) + [if sized && (tail == CutBlock || tail == CutHeader) then [] else last]
    ensures forall c :: 0 <= c < |clusters| ==> Whole(File(clusters, Index))[c] == clusters[c].blocks
  {
    var f, g := File(clusters + [Stored(last, true)], tail), File(clusters + [Stored(last, false)], tail);
    assert f.clusters[|f.clusters| - 1].sized && !g.clusters[|g.clusters| - 1].sized;
  }
}

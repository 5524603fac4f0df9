/** Decoders that share one coded run but receive different parts of it.

    A coded frame names the reference slots it predicts from and the slots it refreshes.  The picture it
    decodes to depends on its payload and on the pictures in the slots it predicts from, and on nothing
    else; what that dependence is belongs to the codec and stays a parameter here.  A decoder that misses
    frames keeps its slots as they were.

    The module answers, for every codec at once, which pictures such a decoder still gets right. */
module LayeredDecoding {

  /** What a frame header says: key frames predict from nothing and refresh every slot. */
  datatype Shape = Shape(key: bool, refs: seq<nat>, upd: set<nat>)

  /** The payload-dependent part of a decoder. */
  datatype Codec<!B, !P> = Codec(blank: P, intra: B -> P, inter: (B, seq<P>) -> P)

  ghost predicate Fits(run: seq<Shape>, slots: nat) {
    forall i, r :: 0 <= i < |run| && r in run[i].refs ==> r < slots
  }

  predicate Refreshes(f: Shape, b: nat) {
    f.key || b in f.upd
  }

  /** The pictures a frame predicts from, in reference order. */
  function Gather<P>(refs: seq<nat>, bufs: seq<P>): (r: seq<P>)
    requires forall r :: r in refs ==> r < |bufs|
    ensures |r| == |refs| && forall j :: 0 <= j < |refs| ==> refs[j] in refs && r[j] == bufs[refs[j]]
  {
    if refs == [] then []
    else
      assert refs[0] in refs;
      assert forall r :: r in refs[1..] ==> r in refs;
      [bufs[refs[0]]] + Gather(refs[1..], bufs)
  }

  function Picture<B, P>(c: Codec<B, P>, f: Shape, payload: B, bufs: seq<P>): P
    requires forall r :: r in f.refs ==> r < |bufs|
  {
    if f.key then c.intra(payload) else c.inter(payload, Gather(f.refs, bufs))
  }

  function Refresh<P>(f: Shape, bufs: seq<P>, pic: P): (r: seq<P>)
    ensures |r| == |bufs|
  {
    seq(|bufs|, b requires 0 <= b < |bufs| => if Refreshes(f, b) then pic else bufs[b])
  }

  /** The slots after the first n frames of the run, of which exactly those marked in recv arrived. */
  function Slots<B, P>(c: Codec<B, P>, run: seq<Shape>, data: seq<B>, recv: seq<bool>, slots: nat, n: nat): (r: seq<P>)
    requires n <= |run| == |data| == |recv| && Fits(run, slots)
    ensures |r| == slots
  {
    if n == 0 then seq(slots, _ => c.blank)
    else
      var prev := Slots(c, run, data, recv, slots, n - 1);
      if recv[n - 1] then Refresh(run[n - 1], prev, Picture(c, run[n - 1], data[n - 1], prev)) else prev
  }

  /** The picture shown for frame n by the decoder that received the frames marked in recv. */
  function PictureAt<B, P>(c: Codec<B, P>, run: seq<Shape>, data: seq<B>, recv: seq<bool>, slots: nat, n: nat): P
    requires n < |run| == |data| == |recv| && Fits(run, slots)
  {
    Picture(c, run[n], data[n], Slots(c, run, data, recv, slots, n))
  }

  function Everything(n: nat): (r: seq<bool>)
    ensures |r| == n && forall i :: 0 <= i < n ==> r[i]
  {
    seq(n, _ => true)
  }

  // ----- The dependence analysis

  /** Slot b holds the right picture after n frames: its last writer arrived and was itself decodable. */
  ghost predicate Clean(run: seq<Shape>, recv: seq<bool>, n: nat, b: nat)
    requires n <= |run| == |recv|
    decreases n, 0
  {
    if n == 0 then true
    else if Refreshes(run[n - 1], b) then Decodable(run, recv, n - 1)
    else Clean(run, recv, n - 1, b)
  }

  /** Frame n arrived and every slot it predicts from is clean. */
  ghost predicate Decodable(run: seq<Shape>, recv: seq<bool>, n: nat)
    requires n < |run| == |recv|
    decreases n, 1
  {
    recv[n] && (run[n].key || forall r :: r in run[n].refs ==> Clean(run, recv, n, r))
  }

  /** Soundness, slots: clean slots agree with the complete decode, whatever the codec. */
  lemma {:induction false} CleanSlotsAgree<B, P>(
      c: Codec<B, P>, run: seq<Shape>, data: seq<B>, recv: seq<bool>, slots: nat, n: nat)
    requires n <= |run| == |data| == |recv| && Fits(run, slots)
    ensures forall b :: 0 <= b < slots && Clean(run, recv, n, b) ==>
      Slots(c, run, data, recv, slots, n)[b] == Slots(c, run, data, Everything(|run|), slots, n)[b]
  {
    if n > 0 {
      CleanSlotsAgree(c, run, data, recv, slots, n - 1);
      if Decodable(run, recv, n - 1) {
        DecodableAgrees(c, run, data, recv, slots, n - 1);
      }
    }
  }

  lemma {:induction false} DecodableAgrees<B, P>(
      c: Codec<B, P>, run: seq<Shape>, data: seq<B>, recv: seq<bool>, slots: nat, n: nat)
    requires n < |run| == |data| == |recv| && Fits(run, slots) && Decodable(run, recv, n)
    requires forall b :: 0 <= b < slots && Clean(run, recv, n, b) ==>
      Slots(c, run, data, recv, slots, n)[b] == Slots(c, run, data, Everything(|run|), slots, n)[b]
    ensures PictureAt(c, run, data, recv, slots, n) == PictureAt(c, run, data, Everything(|run|), slots, n)
  {
    var f := run[n];
    if !f.key {
      var s, t := Slots(c, run, data, recv, slots, n), Slots(c, run, data, Everything(|run|), slots, n);
      assert Gather(f.refs, s) == Gather(f.refs, t);
    }
  }

  /** Soundness: for every codec and all payloads, a decodable frame shows the complete decode's picture. */
  lemma {:induction false} DecodableIsFaithful<B, P>(
      c: Codec<B, P>, run: seq<Shape>, data: seq<B>, recv: seq<bool>, slots: nat, n: nat)
    requires n < |run| == |data| == |recv| && Fits(run, slots) && Decodable(run, recv, n)
    ensures PictureAt(c, run, data, recv, slots, n) == PictureAt(c, run, data, Everything(|run|), slots, n)
  {
    CleanSlotsAgree(c, run, data, recv, slots, n);
    DecodableAgrees(c, run, data, recv, slots, n);
  }

  // ----- Completeness: one codec that tells every difference apart

  /** Pictures that record how they were made. */
  datatype Trace = Blank | Intra(id: nat) | Inter(id: nat, refs: seq<Trace>)

  function Tracing(): Codec<nat, Trace> {
    Codec(Blank, (id: nat) => Intra(id), (id: nat, refs: seq<Trace>) => Inter(id, refs))
  }

  function Numbered(n: nat): (r: seq<nat>)
    ensures |r| == n && forall i :: 0 <= i < n ==> r[i] == i
  {
    seq(n, i requires i >= 0 => i)
  }

  ghost predicate MadeBefore(t: Trace, n: nat) {
    t.Blank? || t.id < n
  }

  /** Every slot holds the blank picture or the picture of an earlier frame. */
  lemma {:induction false} SlotsMadeBefore(run: seq<Shape>, recv: seq<bool>, slots: nat, n: nat)
    requires n <= |run| == |recv| && Fits(run, slots)
    ensures forall b :: 0 <= b < slots ==> MadeBefore(Slots(Tracing(), run, Numbered(|run|), recv, slots, n)[b], n)
  {
    if n > 0 {
      SlotsMadeBefore(run, recv, slots, n - 1);
    }
  }

  ghost predicate SlotsTell(run: seq<Shape>, recv: seq<bool>, slots: nat, n: nat)
    requires n <= |run| == |recv| && Fits(run, slots)
  {
    forall b :: 0 <= b < slots && !Clean(run, recv, n, b) ==>
      Slots(Tracing(), run, Numbered(|run|), recv, slots, n)[b]
          != Slots(Tracing(), run, Numbered(|run|), Everything(|run|), slots, n)[b]
  }

  lemma {:induction false} DirtyReferenceShows(run: seq<Shape>, recv: seq<bool>, slots: nat, n: nat)
    requires n < |run| == |recv| && Fits(run, slots) && SlotsTell(run, recv, slots, n)
    requires recv[n] && !Decodable(run, recv, n)
    ensures PictureAt(Tracing(), run, Numbered(|run|), recv, slots, n) !=
            PictureAt(Tracing(), run, Numbered(|run|), Everything(|run|), slots, n)
  {
    var r :| r in run[n].refs && !Clean(run, recv, n, r);
    var j :| 0 <= j < |run[n].refs| && run[n].refs[j] == r;
    assert PictureAt(Tracing(), run, Numbered(|run|), recv, slots, n).refs[j] !=
           PictureAt(Tracing(), run, Numbered(|run|), Everything(|run|), slots, n).refs[j];
  }

  lemma {:induction false} DirtySlotsDiffer(run: seq<Shape>, recv: seq<bool>, slots: nat, n: nat)
    requires n <= |run| == |recv| && Fits(run, slots)
    ensures SlotsTell(run, recv, slots, n)
  {
    if n > 0 {
      DirtySlotsDiffer(run, recv, slots, n - 1);
      SlotsMadeBefore(run, recv, slots, n - 1);
      if recv[n - 1] && !Decodable(run, recv, n - 1) {
        DirtyReferenceShows(run, recv, slots, n - 1);
      }
      assert PictureAt(Tracing(), run, Numbered(|run|), Everything(|run|), slots, n - 1).id == n - 1;
    }
  }

  /** Completeness: a frame that arrives but is not decodable shows a wrong picture under the tracing codec.
      With DecodableIsFaithful this makes Decodable the exact condition. */
  lemma {:induction false} UndecodableIsWrong(run: seq<Shape>, recv: seq<bool>, slots: nat, n: nat)
    requires n < |run| == |recv| && Fits(run, slots) && recv[n] && !Decodable(run, recv, n)
    ensures PictureAt(Tracing(), run, Numbered(|run|), recv, slots, n) !=
            PictureAt(Tracing(), run, Numbered(|run|), Everything(|run|), slots, n)
  {
    DirtySlotsDiffer(run, recv, slots, n);
    DirtyReferenceShows(run, recv, slots, n);
  }

  // ----- Layered runs

  /** A spatial and a temporal layer id; temporal-only streams use spatial layer 0. */
  datatype Layer = Layer(sl: nat, tl: nat)

  predicate Below(a: Layer, b: Layer) {
    a.sl <= b.sl && a.tl <= b.tl
  }

  /** Every slot b carries a bound on the layers of the frames refreshing it, and a frame
      predicts only from slots labelled no higher than its own layer.  Key frames may be anywhere. */
  ghost predicate Bounded(run: seq<Shape>, layers: seq<Layer>, bound: seq<Layer>)
    requires |run| == |layers|
  {
    && Fits(run, |bound|)
    && (forall i, r :: 0 <= i < |run| && !run[i].key && r in run[i].refs ==> Below(bound[r], layers[i]))
    && (forall i, b :: 0 <= i < |run| && !run[i].key && b in run[i].upd && b < |bound| ==> Below(layers[i], bound[b]))
  }

  /** Moreover, key frames are in the bottom layer. */
  ghost predicate Labelled(run: seq<Shape>, layers: seq<Layer>, bound: seq<Layer>)
    requires |run| == |layers|
  {
    Bounded(run, layers, bound) && forall i :: 0 <= i < |run| && run[i].key ==> layers[i] == Layer(0, 0)
  }

  /** The decoder received at least every frame in or below layer k; frames above k arrived or not. */
  ghost predicate Keeps(recv: seq<bool>, layers: seq<Layer>, k: Layer)
    requires |recv| == |layers|
  {
    forall i :: 0 <= i < |layers| && Below(layers[i], k) ==> recv[i]
  }

  /** In a labelled run, whatever is lost above layer k, all frames in or below layer k remain decodable. */
  lemma {:induction false} LowerLayersStayClean(
      run: seq<Shape>, layers: seq<Layer>, bound: seq<Layer>, recv: seq<bool>, k: Layer, n: nat)
    requires n <= |run| == |layers| == |recv| && Labelled(run, layers, bound) && Keeps(recv, layers, k)
    ensures forall b :: 0 <= b < |bound| && Below(bound[b], k) ==> Clean(run, recv, n, b)
    ensures n < |run| && Below(layers[n], k) ==> Decodable(run, recv, n)
  {
    if n > 0 {
      LowerLayersStayClean(run, layers, bound, recv, k, n - 1);
    }
  }

  /** The last key frame before frame n arrived, if there was one. */
  predicate KeyArrived(run: seq<Shape>, recv: seq<bool>, n: nat)
    requires n <= |run| == |recv|
  {
    n == 0 || (if run[n - 1].key then recv[n - 1] else KeyArrived(run, recv, n - 1))
  }

  /** With key frames in any layer, the frames in or below layer k are decodable as long as the last key frame arrived,
      and so are key frames themselves. */
  lemma {:induction false} LayersStayCleanAfterKey(
      run: seq<Shape>, layers: seq<Layer>, bound: seq<Layer>, recv: seq<bool>, k: Layer, n: nat)
    requires n <= |run| == |layers| == |recv| && Bounded(run, layers, bound) && Keeps(recv, layers, k)
    ensures KeyArrived(run, recv, n) ==> forall b :: 0 <= b < |bound| && Below(bound[b], k) ==> Clean(run, recv, n, b)
    ensures n < |run| && Below(layers[n], k) && (run[n].key || KeyArrived(run, recv, n)) ==> Decodable(run, recv, n)
    decreases n
  {
    if n > 0 {
      LayersStayCleanAfterKey(run, layers, bound, recv, k, n - 1);
    }
  }

  /** Frames other than key frames predict from something. */
  ghost predicate AllPredict(run: seq<Shape>) {
    forall i :: 0 <= i < |run| && !run[i].key ==> run[i].refs != []
  }

  /** After a key frame that was lost no slot is right and no frame is decodable, until a key frame arrives. */
  lemma {:induction false} LostKeyRuins(run: seq<Shape>, recv: seq<bool>, n: nat)
    requires n <= |run| == |recv| && AllPredict(run) && !KeyArrived(run, recv, n)
    ensures forall b: nat :: !Clean(run, recv, n, b)
    ensures n < |run| && !run[n].key ==> !Decodable(run, recv, n)
    decreases n
  {
    if !run[n - 1].key {
      LostKeyRuins(run, recv, n - 1);
    }
    forall b: nat ensures !Clean(run, recv, n, b) {
      assert !Decodable(run, recv, n - 1);
    }
    if n < |run| && !run[n].key {
      assert run[n].refs[0] in run[n].refs;
    }
  }

  /** Layer dropping in a labelled run preserves every kept picture, for every codec. */
  lemma {:induction false} LayerDropIsFaithful<B, P>(
      c: Codec<B, P>, run: seq<Shape>, data: seq<B>, layers: seq<Layer>, bound: seq<Layer>, recv: seq<bool>,
      k: Layer, n: nat)
    requires n < |run| == |data| == |layers| == |recv| && Labelled(run, layers, bound) && Keeps(recv, layers, k)
    requires Below(layers[n], k)
    ensures PictureAt(c, run, data, recv, |bound|, n) == PictureAt(c, run, data, Everything(|run|), |bound|, n)
  {
    LowerLayersStayClean(run, layers, bound, recv, k, n);
    DecodableIsFaithful(c, run, data, recv, |bound|, n);
  }

  // ----- Decoding a stream that only contains the received frames

  /** What the receiver of the frames marked in recv shows (or would show) at every frame. */
  function View<B, P>(c: Codec<B, P>, run: seq<Shape>, data: seq<B>, recv: seq<bool>, slots: nat): (r: seq<P>)
    requires |run| == |data| == |recv| && Fits(run, slots)
    ensures |r| == |run|
  {
    seq(|run|, n requires 0 <= n < |run| => PictureAt(c, run, data, recv, slots, n))
  }

  /** All pictures of a stream, in order. */
  function DecodeStream<B, P>(c: Codec<B, P>, run: seq<Shape>, data: seq<B>, slots: nat): (r: seq<P>)
    requires |run| == |data| && Fits(run, slots)
    ensures |r| == |run|
  {
    View(c, run, data, Everything(|run|), slots)
  }

  /** The elements of s marked in recv, in order: what a file holds that was only given those. */
  function Kept<T>(s: seq<T>, recv: seq<bool>): (r: seq<T>)
    requires |s| == |recv|
  {
    if s == [] then []
    else Kept(s[..|s| - 1], recv[..|s| - 1]) + (if recv[|s| - 1] then [s[|s| - 1]] else [])
  }

  lemma {:induction false} KeptOnly<T>(s: seq<T>, recv: seq<bool>)
    requires |s| == |recv|
    ensures forall x :: x in Kept(s, recv) ==> x in s
  {
    if s != [] {
      KeptOnly(s[..|s| - 1], recv[..|s| - 1]);
    }
  }

  lemma {:induction false} KeptLength<S, T>(s: seq<S>, t: seq<T>, recv: seq<bool>)
    requires |s| == |t| == |recv|
    ensures |Kept(s, recv)| == |Kept(t, recv)|
  {
    if s != [] {
      KeptLength(s[..|s| - 1], t[..|t| - 1], recv[..|s| - 1]);
    }
  }

  /** Slots and pictures depend only on the part of the run already seen. */
  lemma {:induction false} SlotsPrefix<B, P>(
      c: Codec<B, P>, run: seq<Shape>, data: seq<B>, recv: seq<bool>, slots: nat, m: nat, n: nat)
    requires n <= m <= |run| == |data| == |recv| && Fits(run, slots)
    ensures Slots(c, run[..m], data[..m], recv[..m], slots, n) == Slots(c, run, data, recv, slots, n)
  {
    if n > 0 {
      SlotsPrefix(c, run, data, recv, slots, m, n - 1);
    }
  }

  lemma {:induction false} ViewPrefix<B, P>(
      c: Codec<B, P>, run: seq<Shape>, data: seq<B>, recv: seq<bool>, slots: nat, m: nat)
    requires m <= |run| == |data| == |recv| && Fits(run, slots)
    ensures View(c, run, data, recv, slots)[..m] == View(c, run[..m], data[..m], recv[..m], slots)
  {
    forall n | 0 <= n < m
      ensures PictureAt(c, run[..m], data[..m], recv[..m], slots, n) == PictureAt(c, run, data, recv, slots, n)
    {
      SlotsPrefix(c, run, data, recv, slots, m, n);
    }
  }

  /** Splits off the last frame of a run, both where every frame counts and where only received ones do. */
  lemma {:induction false} KeptSplit<B>(run: seq<Shape>, data: seq<B>, recv: seq<bool>, m: nat)
    requires |run| == |data| == |recv| == m + 1
    ensures |Kept(run[..m], recv[..m])| == |Kept(data[..m], recv[..m])|
    ensures |Kept(run, recv)| == |Kept(data, recv)| == |Kept(run[..m], recv[..m])| + (if recv[m] then 1 else 0)
    ensures var k := |Kept(run[..m], recv[..m])|;
      && Kept(run, recv)[..k] == Kept(run[..m], recv[..m]) && Kept(data, recv)[..k] == Kept(data[..m], recv[..m])
      && Everything(|Kept(run, recv)|)[..k] == Everything(k)
      && (recv[m] ==> Kept(run, recv)[k] == run[m] && Kept(data, recv)[k] == data[m])
  {
    KeptLength(run[..m], data[..m], recv[..m]);
  }

  lemma {:induction false} KeptFits<B>(run: seq<Shape>, data: seq<B>, recv: seq<bool>, slots: nat)
    requires |run| == |data| == |recv| && Fits(run, slots)
    ensures |Kept(run, recv)| == |Kept(data, recv)| && Fits(Kept(run, recv), slots)
  {
    KeptLength(run, data, recv);
    KeptOnly(run, recv);
    forall i, r | 0 <= i < |Kept(run, recv)| && r in Kept(run, recv)[i].refs ensures r < slots {
      assert Kept(run, recv)[i] in run;
    }
  }

  /** A stream holding exactly the received frames leaves its decoder in the same state as receiving them
      out of the complete run. */
  lemma {:induction false} KeptSlots<B, P>(c: Codec<B, P>, run: seq<Shape>, data: seq<B>, recv: seq<bool>, slots: nat)
    requires |run| == |data| == |recv| && Fits(run, slots)
    ensures |Kept(run, recv)| == |Kept(data, recv)| && Fits(Kept(run, recv), slots)
    ensures Slots(c, Kept(run, recv), Kept(data, recv), Everything(|Kept(run, recv)|), slots, |Kept(run, recv)|)
         == Slots(c, run, data, recv, slots, |run|)
  {
    KeptFits(run, data, recv, slots);
    if run != [] {
      var m := |run| - 1;
      var k := |Kept(run[..m], recv[..m])|;
      KeptSplit(run, data, recv, m);
      KeptSlots(c, run[..m], data[..m], recv[..m], slots);
      SlotsPrefix(c, run, data, recv, slots, m, m);
      SlotsPrefix(c, Kept(run, recv), Kept(data, recv), Everything(|Kept(run, recv)|), slots, k, k);
    }
  }

  /** The pictures decoded from the stream of received frames are the pictures the receiver of those frames shows. */
  lemma {:induction false} KeptPictures<B, P>(
      c: Codec<B, P>, run: seq<Shape>, data: seq<B>, recv: seq<bool>, slots: nat)
    requires |run| == |data| == |recv| && Fits(run, slots)
    ensures |Kept(run, recv)| == |Kept(data, recv)| && Fits(Kept(run, recv), slots)
    ensures DecodeStream(c, Kept(run, recv), Kept(data, recv), slots) == Kept(View(c, run, data, recv, slots), recv)
  {
    KeptFits(run, data, recv, slots);
    if run != [] {
      var m := |run| - 1;
      var k := |Kept(run[..m], recv[..m])|;
      KeptSplit(run, data, recv, m);
      KeptPictures(c, run[..m], data[..m], recv[..m], slots);
      ViewPrefix(c, run, data, recv, slots, m);
      ViewPrefix(c, Kept(run, recv), Kept(data, recv), Everything(|Kept(run, recv)|), slots, k);
      if recv[m] {
        LastPicture(c, run, data, recv, slots, m, k);
      }
      var all := DecodeStream(c, Kept(run, recv), Kept(data, recv), slots);
      assert all == all[..k] + all[k..];
    }
  }

  lemma {:induction false} LastPicture<B, P>(
      c: Codec<B, P>, run: seq<Shape>, data: seq<B>, recv: seq<bool>, slots: nat, m: nat, k: nat)
    requires |run| == |data| == |recv| == m + 1 && Fits(run, slots) && recv[m] && k == |Kept(run[..m], recv[..m])|
    requires |Kept(run, recv)| == |Kept(data, recv)| && Fits(Kept(run, recv), slots)
    ensures k < |Kept(run, recv)|
    ensures PictureAt(c, Kept(run, recv), Kept(data, recv), Everything(|Kept(run, recv)|), slots, k)
         == PictureAt(c, run, data, recv, slots, m)
  {
    KeptSplit(run, data, recv, m);
    KeptSlots(c, run[..m], data[..m], recv[..m], slots);
    SlotsPrefix(c, run, data, recv, slots, m, m);
    SlotsPrefix(c, Kept(run, recv), Kept(data, recv), Everything(|Kept(run, recv)|), slots, k, k);
  }

  lemma {:induction false} KeptAgree<T>(s: seq<T>, t: seq<T>, recv: seq<bool>)
    requires |s| == |t| == |recv|
    requires forall n :: 0 <= n < |s| && recv[n] ==> s[n] == t[n]
    ensures Kept(s, recv) == Kept(t, recv)
  {
    if s != [] {
      KeptAgree(s[..|s| - 1], t[..|t| - 1], recv[..|s| - 1]);
    }
  }

  /** Sub-stream theorem: when the received frames are all decodable, decoding the stream that holds only
      them gives exactly the complete decode's pictures of those frames. */
  lemma {:induction false} SubstreamIsFaithful<B, P>(
      c: Codec<B, P>, run: seq<Shape>, data: seq<B>, recv: seq<bool>, slots: nat)
    requires |run| == |data| == |recv| && Fits(run, slots)
    requires forall n :: 0 <= n < |run| && recv[n] ==> Decodable(run, recv, n)
    ensures |Kept(run, recv)| == |Kept(data, recv)| && Fits(Kept(run, recv), slots)
    ensures DecodeStream(c, Kept(run, recv), Kept(data, recv), slots) == Kept(DecodeStream(c, run, data, slots), recv)
  {
    KeptPictures(c, run, data, recv, slots);
    var full := DecodeStream(c, run, data, slots);
    forall n | 0 <= n < |run| && recv[n] ensures View(c, run, data, recv, slots)[n] == full[n] {
      DecodableIsFaithful(c, run, data, recv, slots, n);
    }
    KeptAgree(View(c, run, data, recv, slots), full, recv);
  }

  lemma {:induction false} KeptDiffer<T>(s: seq<T>, t: seq<T>, recv: seq<bool>, n: nat)
    requires |s| == |t| == |recv| && n < |s| && recv[n] && s[n] != t[n]
    ensures Kept(s, recv) != Kept(t, recv)
  {
    var m := |s| - 1;
    KeptLength(s[..m], t[..m], recv[..m]);
    if n < m {
      KeptDiffer(s[..m], t[..m], recv[..m], n);
      assert Kept(s, recv)[..|Kept(s[..m], recv[..m])|] != Kept(t, recv)[..|Kept(s[..m], recv[..m])|];
    } else {
      assert Kept(s, recv)[|Kept(s[..m], recv[..m])|] != Kept(t, recv)[|Kept(s[..m], recv[..m])|];
    }
  }

  /** The converse: one undecodable frame in a sub-stream makes its decode differ under the tracing codec. */
  lemma {:induction false} UndecodableSubstreamDiffers(run: seq<Shape>, recv: seq<bool>, slots: nat, n: nat)
    requires n < |run| == |recv| && Fits(run, slots) && recv[n] && !Decodable(run, recv, n)
    ensures var data := Numbered(|run|);
      && |Kept(run, recv)| == |Kept(data, recv)| && Fits(Kept(run, recv), slots)
      && DecodeStream(Tracing(), Kept(run, recv), Kept(data, recv), slots)
          != Kept(DecodeStream(Tracing(), run, data, slots), recv)
  {
    var data := Numbered(|run|);
    KeptPictures(Tracing(), run, data, recv, slots);
    UndecodableIsWrong(run, recv, slots, n);
    KeptDiffer(View(Tracing(), run, data, recv, slots), DecodeStream(Tracing(), run, data, slots), recv, n);
  }
}

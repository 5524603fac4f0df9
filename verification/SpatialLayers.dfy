/** The flexible-mode reference pattern "example 0" of the VP9 spatial SVC example encoder: up to five spatial
    and two temporal layers over the eight reference slots of VP9. */
module SpatialLayers {
  import opened LayeredDecoding

  const SS_MAX_LAYERS: nat := 5
  const REF_SLOTS: nat := 8

  /** Per spatial layer: three slot indices, whether each is referenced, and the mask of refreshed slots, kept
      as the set of its one bits. */
  class RefFrameConfig {
    const lstFbIdx: array<nat>
    const gldFbIdx: array<nat>
    const altFbIdx: array<nat>
    const updateBufferSlot: array<set<nat>>
    const referenceLast: array<bool>
    const referenceGolden: array<bool>
    const referenceAltRef: array<bool>

    ghost predicate Valid() {
      && lstFbIdx.Length == gldFbIdx.Length == altFbIdx.Length == updateBufferSlot.Length == SS_MAX_LAYERS
      && referenceLast.Length == referenceGolden.Length == referenceAltRef.Length == SS_MAX_LAYERS
      && lstFbIdx != gldFbIdx && lstFbIdx != altFbIdx && gldFbIdx != altFbIdx
      && referenceLast != referenceGolden && referenceLast != referenceAltRef && referenceGolden != referenceAltRef
    }

    ghost function Repr(): set<object> {
      {lstFbIdx as object, gldFbIdx as object, altFbIdx as object, updateBufferSlot as object,
          referenceLast as object, referenceGolden as object, referenceAltRef as object}
    }

    constructor ()
      ensures Valid() && fresh(Repr())
    {
      lstFbIdx := new nat[SS_MAX_LAYERS](_ => 0);
      gldFbIdx := new nat[SS_MAX_LAYERS](_ => 0);
      altFbIdx := new nat[SS_MAX_LAYERS](_ => 0);
      updateBufferSlot := new set<nat>[SS_MAX_LAYERS](_ => {});
      referenceLast := new bool[SS_MAX_LAYERS](_ => false);
      referenceGolden := new bool[SS_MAX_LAYERS](_ => false);
      referenceAltRef := new bool[SS_MAX_LAYERS](_ => false);
    }

    /** The slots spatial layer sl may predict from. */
    function References(sl: nat): seq<nat>
      requires Valid() && sl < SS_MAX_LAYERS
      reads Repr()
    {
      (if referenceLast[sl] then [lstFbIdx[sl]] else []) + (if referenceGolden[sl] then [gldFbIdx[sl]] else [])
      + (if referenceAltRef[sl] then [altFbIdx[sl]] else [])
    }

    method SetRefs(sl: nat, last: bool, golden: bool, altRef: bool)
      requires Valid() && sl < SS_MAX_LAYERS
      modifies referenceLast, referenceGolden, referenceAltRef
      ensures referenceLast[..] == old(referenceLast[..])[sl := last]
      ensures referenceGolden[..] == old(referenceGolden[..])[sl := golden]
      ensures referenceAltRef[..] == old(referenceAltRef[..])[sl := altRef]
    {
      referenceLast[sl], referenceGolden[sl], referenceAltRef[sl] := last, golden, altRef;
    }

    method SetBufferIdx(tl: nat, n: nat, isKeyFrame: bool, sl: nat)
      requires Valid() && tl <= 1 && sl < n <= SS_MAX_LAYERS
      modifies lstFbIdx, gldFbIdx, altFbIdx
      ensures lstFbIdx[..] == old(lstFbIdx[..])[sl := if tl == 0 && sl > 0 && isKeyFrame then sl - 1 else sl]
      ensures gldFbIdx[..] == old(gldFbIdx[..])[sl := if sl == 0 then 0 else if tl == 1 then n + sl - 1
          else if isKeyFrame then sl else sl - 1]
      ensures altFbIdx[..] == old(altFbIdx[..])[sl := if tl == 0 then 0 else n + sl]
    {
      if tl == 0 {
        lstFbIdx[sl] := sl;
        if sl != 0 {
          if isKeyFrame {
            lstFbIdx[sl] := sl - 1;
            gldFbIdx[sl] := sl;
          } else {
            gldFbIdx[sl] := sl - 1;
          }
        } else {
          gldFbIdx[sl] := 0;
        }
        altFbIdx[sl] := 0;
      } else {
        lstFbIdx[sl] := sl;
        gldFbIdx[sl] := if sl == 0 then 0 else n + sl - 1;
        altFbIdx[sl] := n + sl;
      }
    }

    /** Configures one spatial layer; the others stay as they are. */
    method ConfigureLayer(tl: nat, n: nat, isKeyFrame: bool, sl: nat)
      requires Valid() && tl <= 1 && sl < n <= SS_MAX_LAYERS && updateBufferSlot[sl] == {}
      modifies Repr()
      ensures References(sl) == UseOf(tl, n, isKeyFrame, sl).refs
          && updateBufferSlot[sl] == UseOf(tl, n, isKeyFrame, sl).upd
      ensures forall j :: 0 <= j < SS_MAX_LAYERS && j != sl ==>
        References(j) == old(References(j)) && updateBufferSlot[j] == old(updateBufferSlot[j])
    {
      SetBufferIdx(tl, n, isKeyFrame, sl);
      if tl == 0 {
        if sl == 0 {
          SetRefs(sl, true, false, false);
          updateBufferSlot[sl] := updateBufferSlot[sl] + {lstFbIdx[sl]};
        } else if isKeyFrame {
          SetRefs(sl, true, false, false);
          updateBufferSlot[sl] := updateBufferSlot[sl] + {gldFbIdx[sl]};
        } else {
          SetRefs(sl, true, true, true);
          updateBufferSlot[sl] := updateBufferSlot[sl] + {lstFbIdx[sl]};
        }
      } else {
        if sl == 0 {
          SetRefs(sl, true, false, false);
          updateBufferSlot[sl] := updateBufferSlot[sl] + {altFbIdx[sl]};
        } else if sl < n - 1 {
          SetRefs(sl, true, true, false);
          updateBufferSlot[sl] := updateBufferSlot[sl] + {altFbIdx[sl]};
        } else if sl == n - 1 {
          SetRefs(sl, true, true, false);
        }
      }
    }

    /** Configures every spatial layer of one superframe. */
    method SetFrameFlagsBypassModeEx0(tl: nat, numSpatialLayers: nat, isKeyFrame: bool)
      requires Valid() && tl <= 1 && numSpatialLayers <= SS_MAX_LAYERS
      modifies Repr()
      ensures forall sl :: 0 <= sl < numSpatialLayers ==>
        References(sl) == UseOf(tl, numSpatialLayers, isKeyFrame, sl).refs &&
        updateBufferSlot[sl] == UseOf(tl, numSpatialLayers, isKeyFrame, sl).upd
    {
      forall sl | 0 <= sl < numSpatialLayers { updateBufferSlot[sl] := {}; }
      for sl := 0 to numSpatialLayers
        invariant forall j :: 0 <= j < sl ==>
          References(j) == UseOf(tl, numSpatialLayers, isKeyFrame, j).refs &&
          updateBufferSlot[j] == UseOf(tl, numSpatialLayers, isKeyFrame, j).upd
        invariant forall j :: sl <= j < numSpatialLayers ==> updateBufferSlot[j] == {}
      {
        ConfigureLayer(tl, numSpatialLayers, isKeyFrame, sl);
      }
    }
  }

  // ----- The pattern in prediction terms

  datatype Use = Use(refs: seq<nat>, upd: set<nat>)

  /** Slot s holds spatial layer s of the last base superframe, slot n + s spatial layer s of the last
      enhancement superframe. Who predicts from what and refreshes what, for n spatial layers: */
  function UseOf(tl: nat, n: nat, isKey: bool, sl: nat): Use {
    if tl == 0 then
      if sl == 0 then Use([0], {0})
      else if isKey then Use([sl - 1], {sl})
      else Use([sl, sl - 1, 0], {sl})
    else
      if sl == 0 then Use([0], {n})
      else if sl < n - 1 then Use([sl, n + sl - 1], {n + sl})
      else Use([sl, n + sl - 1], {})
  }

  /** The largest layer ever stored in each slot. */
  function SlotBound(n: nat): (r: seq<Layer>)
    ensures |r| == REF_SLOTS
    ensures forall b :: 0 <= b < REF_SLOTS ==>
      r[b] == if b < n then Layer(b, 0) else if b < 2 * n then Layer(b - n, 1) else Layer(0, 0)
  {
    seq(REF_SLOTS, b requires 0 <= b => if b < n then Layer(b, 0) else if b < 2 * n then Layer(b - n, 1)
        else Layer(0, 0))
  }

  /** Which superframe a coded frame belongs to, and which of its spatial layers it is. */
  datatype Spot = Spot(superframe: nat, sl: nat)

  function LayerAt(s: Spot): Layer {
    Layer(s.sl, s.superframe % 2)
  }

  function LayersAt(spots: seq<Spot>): (r: seq<Layer>)
    ensures |r| == |spots| && forall i :: 0 <= i < |r| ==> r[i] == LayerAt(spots[i])
  {
    if spots == [] then [] else [LayerAt(spots[0])] + LayersAt(spots[1..])
  }

  /** A coded run that follows the pattern: the base layer of superframe 0 is the only key frame, and every
      other frame stays within what its configuration lets it reference and refresh. Superframes the encoder
      dropped are simply missing. */
  ghost predicate Follows(run: seq<Shape>, spots: seq<Spot>, n: nat) {
    && |run| == |spots|
    && forall i :: 0 <= i < |run| ==> FollowsAt(run[i], spots[i], n)
  }

  ghost predicate FollowsAt(f: Shape, s: Spot, n: nat) {
    && s.sl < n
    && f.key == (s == Spot(0, 0))
    && (forall r :: r in f.refs ==> r in UseOf(s.superframe % 2, n, s.superframe == 0, s.sl).refs)
    && f.upd <= UseOf(s.superframe % 2, n, s.superframe == 0, s.sl).upd
  }

  /** Every index the pattern uses is a slot of the decoder if and only if there are at most four spatial layers. */
  lemma {:induction false} SlotsFitExactly(n: nat)
    requires 1 <= n <= SS_MAX_LAYERS
    ensures n <= 4 <==>
      forall tl, isKey, sl :: 0 <= tl <= 1 && 0 <= sl < n ==>
        (forall r :: r in UseOf(tl, n, isKey, sl).refs ==> r < REF_SLOTS)
            && (forall b :: b in UseOf(tl, n, isKey, sl).upd ==> b < REF_SLOTS)
  {
    if n == 5 {
      assert 8 in UseOf(1, 5, false, 3).upd;
    }
  }

  lemma {:induction false} PatternIsLabelled(run: seq<Shape>, spots: seq<Spot>, n: nat)
    requires 1 <= n <= 4 && Follows(run, spots, n)
    ensures Labelled(run, LayersAt(spots), SlotBound(n))
  {
    forall i, r | 0 <= i < |run| && r in run[i].refs
      ensures r < REF_SLOTS
      ensures Below(SlotBound(n)[r], LayerAt(spots[i]))
    {
      assert FollowsAt(run[i], spots[i], n);
    }
    forall i, b | 0 <= i < |run| && b in run[i].upd && b < REF_SLOTS
      ensures Below(LayerAt(spots[i]), SlotBound(n)[b])
    {
      assert FollowsAt(run[i], spots[i], n);
    }
    forall i | 0 <= i < |run| && run[i].key ensures LayerAt(spots[i]) == Layer(0, 0) {
      assert FollowsAt(run[i], spots[i], n);
    }
  }

  /** Dropping all frames above spatial layer k.sl or temporal layer k.tl preserves every kept picture, even
      when some of the others still arrive. */
  lemma {:induction false} LayerDropPreservesPictures<B, P>(
      c: Codec<B, P>, run: seq<Shape>, data: seq<B>, spots: seq<Spot>, n: nat, recv: seq<bool>, k: Layer, i: nat)
    requires 1 <= n <= 4 && Follows(run, spots, n) && |data| == |run| == |recv|
    requires Keeps(recv, LayersAt(spots), k) && i < |run| && Below(LayerAt(spots[i]), k)
    ensures Fits(run, REF_SLOTS)
    ensures PictureAt(c, run, data, recv, REF_SLOTS, i) == PictureAt(c, run, data, Everything(|run|), REF_SLOTS, i)
  {
    PatternIsLabelled(run, spots, n);
    LayerDropIsFaithful(c, run, data, LayersAt(spots), SlotBound(n), recv, k, i);
  }

  // ----- Who wrote what a frame references, in the complete run

  /** Frame s of the complete run, in which every superframe has all n layers and refreshes all it may. */
  function CompleteShape(n: nat, s: Spot): Shape {
    var use := UseOf(s.superframe % 2, n, s.superframe == 0, s.sl);
    Shape(s == Spot(0, 0), use.refs, use.upd)
  }

  /** The frame coded before s. */
  function Previous(n: nat, s: Spot): Spot
    requires s.sl < n && s != Spot(0, 0)
  {
    if s.sl > 0 then Spot(s.superframe, s.sl - 1) else Spot(s.superframe - 1, n - 1)
  }

  /** The last frame before s that refreshed slot b; the key frame refreshes every slot. */
  function LastWriter(n: nat, s: Spot, b: nat): Spot
    requires s.sl < n && s != Spot(0, 0)
    decreases s.superframe, s.sl
  {
    var p := Previous(n, s);
    if Refreshes(CompleteShape(n, p), b) then p else LastWriter(n, p, b)
  }

  /** The last superframe up to number f with the parity of a base (0) or enhancement (1) superframe, or below 0. */
  function LastOf(parity: nat, f: int): int
    requires parity < 2
  {
    if f % 2 == parity then f else f - 1
  }

  /** The last superframe that has coded its spatial layer b before frame s. */
  function Coded(s: Spot, b: nat): int { if b < s.sl then s.superframe else s.superframe - 1 }

  /** Which frames refresh which slots. */
  lemma {:induction false} RefreshedBy(n: nat, p: Spot, b: nat)
    requires b < n && p.sl < n
    ensures Refreshes(CompleteShape(n, p), b) <==> p == Spot(0, 0) || (p.superframe % 2 == 0 && p.sl == b)
    ensures b + 1 < n ==>
      (Refreshes(CompleteShape(n, p), n + b) <==> p == Spot(0, 0) || (p.superframe % 2 == 1 && p.sl == b))
  {
  }

  /** Slot b was last written by spatial layer b of the last base superframe. */
  lemma {:induction false} BaseSlotWriter(n: nat, s: Spot, b: nat)
    requires b < n && s.sl < n && s != Spot(0, 0)
    ensures var e := LastOf(0, Coded(s, b));
      LastWriter(n, s, b) == if e >= 0 then Spot(e, b) else Spot(0, 0)
    decreases s.superframe, s.sl
  {
    var p := Previous(n, s);
    hide CompleteShape;
    RefreshedBy(n, p, b);
    if !Refreshes(CompleteShape(n, p), b) {
      BaseSlotWriter(n, p, b);
    }
  }

  /** Slot n + b was last written by spatial layer b of the last enhancement superframe. */
  lemma {:induction false} EnhancementSlotWriter(n: nat, s: Spot, b: nat)
    requires b + 1 < n && s.sl < n && s != Spot(0, 0)
    ensures var e := LastOf(1, Coded(s, b));
      LastWriter(n, s, n + b) == if e >= 0 then Spot(e, b) else Spot(0, 0)
    decreases s.superframe, s.sl
  {
    var p := Previous(n, s);
    hide CompleteShape;
    RefreshedBy(n, p, b);
    if !Refreshes(CompleteShape(n, p), n + b) {
      EnhancementSlotWriter(n, p, b);
    }
  }

  /** Every slot a frame after the first references has been written before: by its own layer in the last base
      superframe, or in its own superframe by the base layer or the layer just below. */
  lemma {:induction false} ReferencesWritten(n: nat, s: Spot, r: nat)
    requires s.sl < n && s != Spot(0, 0) && r in CompleteShape(n, s).refs
    ensures var w := LastWriter(n, s, r);
      && Below(LayerAt(w), LayerAt(s))
      && if w.superframe == s.superframe then w.sl < s.sl && (w.sl == 0 || w.sl == s.sl - 1)
         else w.superframe < s.superframe && w.superframe == LastOf(0, s.superframe - 1) && w.sl == s.sl
  {
    if r < n {
      BaseSlotWriter(n, s, r);
    } else {
      EnhancementSlotWriter(n, s, r - n);
    }
  }

  /** The frames that frame s of the complete run predicts from. */
  ghost function PredictsFrom(n: nat, s: Spot): set<Spot>
    requires s.sl < n && s != Spot(0, 0)
  {
    set r | r in CompleteShape(n, s).refs :: LastWriter(n, s, r)
  }

  /** They are exactly these. In an enhancement superframe: the same spatial layer of the base superframe before, and
      the layer below. In the first superframe: the layer below. In any other base superframe: the same layer of the
      base superframe before, the layer below and the lowest one. */
  lemma {:induction false} PredictsFromExactly(n: nat, s: Spot)
    requires s.sl < n && s != Spot(0, 0)
    ensures var f, l := s.superframe, s.sl;
      PredictsFrom(n, s) ==
        if f % 2 == 1 then if l == 0 then {Spot(f - 1, 0)} else {Spot(f - 1, l), Spot(f, l - 1)}
        else if f == 0 then {Spot(0, l - 1)}
        else if l == 0 then {Spot(f - 2, 0)} else {Spot(f - 2, l), Spot(f, l - 1), Spot(f, 0)}
  {
    hide LastWriter, LastOf, Coded;
    var f, l := s.superframe, s.sl;
    var refs := CompleteShape(n, s).refs;
    if f % 2 == 1 {
      WriterOfBase(n, s, l);
      if l > 0 {
        WriterOfEnhancement(n, s, l - 1);
        assert refs == [l, n + l - 1];
      } else {
        assert refs == [0];
      }
    } else if f == 0 {
      WriterOfBase(n, s, l - 1);
      assert refs == [l - 1];
    } else {
      WriterOfBase(n, s, l);
      if l > 0 {
        WriterOfBase(n, s, l - 1);
        WriterOfBase(n, s, 0);
        assert refs == [l, l - 1, 0];
      } else {
        assert refs == [0];
      }
    }
  }

  lemma {:induction false} WriterOfBase(n: nat, s: Spot, b: nat)
    requires b < n && s.sl < n && s != Spot(0, 0)
    requires s.superframe > 0 || b < s.sl
    ensures LastWriter(n, s, b)
      == Spot(if s.superframe % 2 == 1 then s.superframe - 1 else if b < s.sl then s.superframe
          else s.superframe - 2, b)
  {
    hide LastWriter;
    BaseSlotWriter(n, s, b);
  }

  lemma {:induction false} WriterOfEnhancement(n: nat, s: Spot, b: nat)
    requires b + 1 < n && b < s.sl < n && s.superframe % 2 == 1
    ensures LastWriter(n, s, n + b) == Spot(s.superframe, b)
  {
    hide LastWriter;
    EnhancementSlotWriter(n, s, b);
  }
}

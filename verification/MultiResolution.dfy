/** The temporal layers of the VP8 multi-resolution example encoder, where the user may insert one key frame
    in the middle of the run. */
module MultiResolution {
  import opened LayeredDecoding
  import opened TemporalLayers
  import opened SyncPoints
  import Arith

  const FLAG_PERIODS: seq<nat> := [1, 8, 8]

  /** The patterns for 1, 2 and 3 layers let the codec do what temporal modes 0, 8 and 10 say. */
  function ModeOf(numLayers: nat): int {
    if numLayers == 1 then 0 else if numLayers == 2 then 8 else 10
  }

  function FlagWordOf(numLayers: nat, i: nat): bv32
    requires 1 <= numLayers <= 3 && i < FLAG_PERIODS[numLayers - 1]
  {
    match numLayers
    case 1 => NO_UPD_GF | NO_UPD_ARF
    case 2 =>
      if i == 0 then NO_REF_GF | NO_UPD_ARF
      else if i == 1 then NO_REF_GF | NO_UPD_LAST | NO_UPD_ARF
      else if i % 2 == 0 then NO_REF_GF | NO_UPD_GF | NO_UPD_ARF
      else NO_UPD_ARF | NO_UPD_LAST | NO_UPD_ENTROPY
    case _ =>
      (match i
       case 0 => NO_UPD_ARF | NO_REF_GF
       case 1 => NO_REF_GF | NO_UPD_GF | NO_UPD_ARF | NO_UPD_LAST | NO_UPD_ENTROPY
       case 2 => NO_REF_GF | NO_UPD_ARF | NO_UPD_LAST
       case 4 => NO_UPD_GF | NO_UPD_ARF | NO_REF_GF
       case 6 => NO_UPD_ARF | NO_UPD_LAST
       case _ => NO_UPD_GF | NO_UPD_ARF | NO_UPD_LAST | NO_UPD_ENTROPY)
  }

  /** A flag word allows what the pattern says for position i, and forces no key frame. */
  ghost predicate Follows(f: bv32, numLayers: nat, i: nat)
    requires 1 <= numLayers <= 3 && i < FLAG_PERIODS[numLayers - 1]
  {
    i < FlagPeriod(ModeOf(numLayers)) && Use(Reads(f), Writes(f)) == UseAt(ModeOf(numLayers), i) && !ForcesKey(f)
  }

  /** Writes the flag words of the chosen pattern; the rest of the array keeps its contents. */
  method SetTemporalLayerPattern(numLayers: nat, layerFlags: array<bv32>)
    requires 1 <= numLayers <= 3 && layerFlags.Length == MAX_PERIODICITY
    modifies layerFlags
    ensures forall i :: 0 <= i < MAX_PERIODICITY ==>
      layerFlags[i] == (if i < FLAG_PERIODS[numLayers - 1] then FlagWordOf(numLayers, i) else old(layerFlags[i]))
    ensures forall i :: 0 <= i < FLAG_PERIODS[numLayers - 1] ==> Follows(layerFlags[i], numLayers, i)
  {
    forall i | 0 <= i < FLAG_PERIODS[numLayers - 1] {
      layerFlags[i] := FlagWordOf(numLayers, i);
    }
    forall i | 0 <= i < FLAG_PERIODS[numLayers - 1] ensures Follows(layerFlags[i], numLayers, i) {
      PatternsCoincide(numLayers, i);
    }
  }

  /** The flags of one frame: an inserted key frame replaces the pattern's flags altogether. */
  method SelectFlags(numLayers: nat, layerFlags: array<bv32>, frameCnt: nat, keyFrameInsert: int) returns (flags: bv32)
    requires 1 <= numLayers <= 3 && layerFlags.Length == MAX_PERIODICITY
    requires forall i :: 0 <= i < FLAG_PERIODS[numLayers - 1] ==> layerFlags[i] == FlagWordOf(numLayers, i)
    ensures ForcesKey(flags) <==> frameCnt == 0 || frameCnt == keyFrameInsert
    ensures !ForcesKey(flags) ==>
      Use(Reads(flags), Writes(flags)) == UseAt(ModeOf(numLayers), frameCnt % FlagPeriod(ModeOf(numLayers)))
  {
    var period := FLAG_PERIODS[numLayers - 1];
    flags := layerFlags[frameCnt % period];
    PatternsCoincide(numLayers, frameCnt % period);
    if frameCnt == 0 {
      flags := flags | FORCE_KF;
    }
    if frameCnt > 0 && frameCnt == keyFrameInsert {
      flags := FORCE_KF;
    }
  }

  lemma {:induction false} PatternsCoincide(numLayers: nat, i: nat)
    requires 1 <= numLayers <= 3 && i < FLAG_PERIODS[numLayers - 1]
    ensures FlagPeriod(ModeOf(numLayers)) == FLAG_PERIODS[numLayers - 1]
    ensures Use(Reads(FlagWordOf(numLayers, i)), Writes(FlagWordOf(numLayers, i))) == UseAt(ModeOf(numLayers), i)
    ensures !ForcesKey(FlagWordOf(numLayers, i))
  {
  }

  // ----- One inserted key frame

  /** One buffer before frame i: the previous frame wrote it, or it is what it was. */
  lemma {:induction false} HeldStep(mode: int, ins: nat, k: nat, s: nat, i: nat, b: nat)
    requires i > 0 && b < 3
    ensures Held(mode, ins, k, s, i).Has(b)
      == if i == 1 || i - 1 == ins || Allowed(mode, i - 1).upd.Has(b) then RightAt(mode, ins, k, s, i - 1)
         else Held(mode, ins, k, s, i - 1).Has(b)
  {
    hide LayerOf, Allowed, RightAt;
  }

  /** A key frame inserted in a frame of layer k or below leaves the stream of layers 0..k right throughout. */
  lemma {:induction false} KeyInKeptLayerIsHarmless(mode: int, ins: nat, k: nat, s: nat, i: nat)
    requires mode == 8 || mode == 10
    requires LayerOf(mode, ins) <= k
    ensures forall b :: 0 <= b < 3 && Bounds(mode)[b].tl <= k ==> Held(mode, ins, k, s, i).Has(b)
    ensures LayerOf(mode, i) <= k ==> RightAt(mode, ins, k, s, i)
    decreases i
  {
    assert LayerOf(mode, 0) == 0 && Held(mode, ins, k, s, 0) == ALL;
    hide LayerOf, Allowed, Held, Bounds, Covers;
    if i > 0 {
      KeyInKeptLayerIsHarmless(mode, ins, k, s, i - 1);
      Respected(mode, i - 1, k);
      forall b | 0 <= b < 3 && Bounds(mode)[b].tl <= k ensures Held(mode, ins, k, s, i).Has(b) {
        HeldStep(mode, ins, k, s, i, b);
      }
    }
    Respected(mode, i, k);
    if LayerOf(mode, i) <= k {
      HasIsCovers(Held(mode, ins, k, s, i), Allowed(mode, i).refs);
    }
  }

  lemma {:induction false} HasIsCovers(clean: Bufs, refs: Bufs)
    requires forall b :: 0 <= b < 3 && refs.Has(b) ==> clean.Has(b)
    ensures Covers(clean, refs)
  {
    assert refs.Has(LAST) ==> clean.Has(LAST);
    assert refs.Has(GF) ==> clean.Has(GF);
    assert refs.Has(ARF) ==> clean.Has(ARF);
  }

  lemma {:induction false} Respected(mode: int, i: nat, k: nat)
    requires mode == 8 || mode == 10
    ensures forall b :: 0 <= b < 3 && LayerOf(mode, i) <= k && Allowed(mode, i).refs.Has(b) ==> Bounds(mode)[b].tl <= k
    ensures forall b :: 0 <= b < 3 && LayerOf(mode, i) > k && Allowed(mode, i).upd.Has(b) ==> Bounds(mode)[b].tl > k
  {
    Arith.ModOfMultiple(i, FlagPeriod(mode), |LayerIds(mode)|);
    forall b | 0 <= b < 3
      ensures Allowed(mode, i).refs.Has(b) ==> Bounds(mode)[b].tl <= LayerOf(mode, i)
      ensures Allowed(mode, i).upd.Has(b) ==> LayerOf(mode, i) <= Bounds(mode)[b].tl
    {
      PatternRespectsBounds(mode, i % FlagPeriod(mode), b);
    }
  }

  /** A key frame inserted above layer k ruins every later frame for a decoder that had only layers 0..k then. */
  lemma {:induction false} KeyInDroppedLayerRuins(mode: int, ins: nat, k: nat, s: nat, i: nat)
    requires mode == 8 || mode == 10
    requires LayerOf(mode, ins) > k && ins < s && ins < i
    ensures !Held(mode, ins, k, s, i).last && !RightAt(mode, ins, k, s, i)
    decreases i
  {
    hide LayerOf, Allowed;
    PatternAt(mode, i);
    PatternAt(mode, i - 1);
    PatternAt(mode, ins);
    if i - 1 > ins {
      KeyInDroppedLayerRuins(mode, ins, k, s, i - 1);
    }
  }

  /** The exact condition for the stream of layers 0..k: its frames after an inserted key frame are right if and
      only if the key frame belongs to the stream. */
  lemma {:induction false} InsertedKeyDecides(mode: int, ins: nat, k: nat, n: nat, i: nat)
    requires mode == 8 || mode == 10
    requires 0 < ins < i < n && LayerOf(mode, i) <= k
    ensures RightAt(mode, ins, k, n, i) <==> LayerOf(mode, ins) <= k
  {
    if LayerOf(mode, ins) <= k {
      KeyInKeptLayerIsHarmless(mode, ins, k, n, i);
    } else {
      KeyInDroppedLayerRuins(mode, ins, k, n, i);
    }
  }

  /** In pictures: if the inserted key frame belongs to the stream of layers 0..k, every later frame of the stream
      shows the complete decode's picture, for every codec; if not, it shows another one under the tracing codec. */
  lemma {:induction false} InsertedKeyExact<B, P>(
      c: Codec<B, P>, mode: int, ins: nat, k: nat, data: seq<B>, i: nat)
    requires mode == 8 || mode == 10
    requires 0 < ins < i < |data| && LayerOf(mode, i) <= k
    ensures var n := |data|;
      var (run, recv, all) := (RunOf(mode, ins, n), SwitchUp(mode, k, n, n), Everything(n));
      if LayerOf(mode, ins) <= k then
        PictureAt(c, run, data, recv, 3, i) == PictureAt(c, run, data, all, 3, i)
      else
        PictureAt(Tracing(), run, Numbered(n), recv, 3, i) != PictureAt(Tracing(), run, Numbered(n), all, 3, i)
  {
    hide LayerOf, RunOf, SwitchUp, PictureAt, RightAt;
    InsertedKeyDecides(mode, ins, k, |data|, i);
    if LayerOf(mode, ins) <= k {
      RightIsFaithful(c, mode, ins, k, data, |data|, i);
    } else {
      NotRightIsWrong(mode, ins, k, |data|, |data|, i);
    }
  }

  /** A key frame that reaches the decoder only adds to what it holds. */
  lemma {:induction false} KeyKeepsHeld(mode: int, ins: nat, s: nat, i: nat)
    requires mode == 8 || mode == 10
    requires LayerOf(mode, ins) == 0 || s <= ins
    ensures Covers(Held(mode, ins, 0, s, i), Held(mode, 0, 0, s, i))
    ensures RightAt(mode, 0, 0, s, i) ==> RightAt(mode, ins, 0, s, i)
    decreases i
  {
    hide LayerOf, Allowed;
    if i > 0 {
      KeyKeepsHeld(mode, ins, s, i - 1);
    }
  }

  /** Sync points survive an inserted key frame if and only if the decoder receives it, in the base layer or after
      switching up: then every frame from the sync point on shows the complete decode's picture, for every codec.
      Otherwise none of them does under the tracing codec. */
  lemma {:induction false} SyncPointsSurviveKey<B, P>(
      c: Codec<B, P>, mode: int, ins: nat, data: seq<B>, s: nat, i: nat)
    requires mode == 8 || mode == 10
    requires IsSyncPoint(mode, s) && s <= i < |data|
    ensures var n := |data|;
      var (run, recv, all) := (RunOf(mode, ins, n), SwitchUp(mode, 0, n, s), Everything(n));
      if LayerOf(mode, ins) == 0 || s <= ins then
        PictureAt(c, run, data, recv, 3, i) == PictureAt(c, run, data, all, 3, i)
      else
        PictureAt(Tracing(), run, Numbered(n), recv, 3, i) != PictureAt(Tracing(), run, Numbered(n), all, 3, i)
  {
    hide LayerOf, RunOf, SwitchUp, PictureAt, RightAt, IsSyncPoint;
    if LayerOf(mode, ins) == 0 || s <= ins {
      SyncPointHolds(mode, s, i);
      KeyKeepsHeld(mode, ins, s, i);
      RightIsFaithful(c, mode, ins, 0, data, s, i);
    } else {
      KeyInDroppedLayerRuins(mode, ins, 0, s, i);
      NotRightIsWrong(mode, ins, 0, |data|, s, i);
    }
  }
}

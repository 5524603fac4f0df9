/** Switching up from the base layer in the middle of a temporally layered run.

    A decoder that saw only layer 0 before frame s and receives every frame from s on may or may not show
    the right pictures from s on.  For the modes advertised with sync points every 8 frames this module says
    at exactly which s it does; for the mode advertised as having none, that the damage never heals. */
module SyncPoints {
  import opened LayeredDecoding
  import opened TemporalLayers

  function RefList(b: Bufs): (r: seq<nat>)
    ensures forall x :: x in r <==> b.Has(x)
    ensures forall x :: x in r ==> x < 3
  {
    (if b.last then [LAST] else []) + (if b.gf then [GF] else []) + (if b.arf then [ARF] else [])
  }

  function BufSet(b: Bufs): (r: set<nat>)
    ensures forall x :: x in r <==> b.Has(x)
  {
    (if b.last then {LAST} else {}) + (if b.gf then {GF} else {}) + (if b.arf then {ARF} else {})
  }

  /** Frame i when the codec uses every reference and update the flags allow. Frame 0 is a key frame; so is frame
      ins, when it is not 0. */
  function FrameShape(mode: int, ins: nat, i: nat): (f: Shape)
    ensures forall r :: r in f.refs ==> r < 3
  {
    Shape(i == 0 || i == ins, RefList(Allowed(mode, i).refs), BufSet(Allowed(mode, i).upd))
  }

  /** The first n frames. */
  function RunOf(mode: int, ins: nat, n: nat): (r: seq<Shape>)
    requires mode != 7
    ensures |r| == n && Fits(r, 3) && forall i :: 0 <= i < n ==> r[i] == FrameShape(mode, ins, i)
  {
    seq(n, i requires 0 <= i < n => FrameShape(mode, ins, i))
  }

  /** Layers up to k only before frame s, everything from frame s on. */
  function SwitchUp(mode: int, k: nat, n: nat, s: nat): (r: seq<bool>)
    ensures |r| == n && forall i :: 0 <= i < n ==> r[i] == (s <= i || LayerOf(mode, i) <= k)
  {
    if n == 0 then [] else SwitchUp(mode, k, n - 1, s) + [s <= n - 1 || LayerOf(mode, n - 1) <= k]
  }

  predicate Covers(clean: Bufs, refs: Bufs) {
    (refs.last ==> clean.last) && (refs.gf ==> clean.gf) && (refs.arf ==> clean.arf)
  }

  function Updated(clean: Bufs, upd: Bufs, ok: bool): Bufs {
    Bufs(if upd.last then ok else clean.last, if upd.gf then ok else clean.gf, if upd.arf then ok else clean.arf)
  }

  /** The frame at position i decodes rightly for the decoder that switched up from layer k at s. */
  predicate RightAt(mode: int, ins: nat, k: nat, s: nat, i: nat)
    decreases i, 1
  {
    (s <= i || LayerOf(mode, i) <= k) && (i == 0 || i == ins || Covers(Held(mode, ins, k, s, i), Allowed(mode, i).refs))
  }

  /** The buffers that hold the right picture before frame i. */
  function Held(mode: int, ins: nat, k: nat, s: nat, i: nat): Bufs
    decreases i, 0
  {
    if i == 0 then ALL
    else
      var ok := RightAt(mode, ins, k, s, i - 1);
      if i == 1 || i - 1 == ins then Bufs(ok, ok, ok)
          else Updated(Held(mode, ins, k, s, i - 1), Allowed(mode, i - 1).upd, ok)
  }

  /** The three-flag summary is the general dependence analysis. */
  lemma {:induction false} HeldIsClean(mode: int, ins: nat, k: nat, n: nat, s: nat, i: nat)
    requires mode != 7 && i <= n
    ensures forall b :: 0 <= b < 3 ==> (Clean(RunOf(mode, ins, n), SwitchUp(mode, k, n, s), i, b)
        <==> Held(mode, ins, k, s, i).Has(b))
    decreases i
  {
    hide Allowed, LayerOf, RunOf, SwitchUp, RightAt;
    if i > 0 {
      HeldIsClean(mode, ins, k, n, s, i - 1);
      StepIsDecodable(mode, ins, k, n, s, i - 1);
    }
  }

  lemma {:induction false} StepIsDecodable(mode: int, ins: nat, k: nat, n: nat, s: nat, i: nat)
    requires mode != 7 && i < n
    requires forall b :: 0 <= b < 3 ==> (Clean(RunOf(mode, ins, n), SwitchUp(mode, k, n, s), i, b)
        <==> Held(mode, ins, k, s, i).Has(b))
    ensures Decodable(RunOf(mode, ins, n), SwitchUp(mode, k, n, s), i) <==> RightAt(mode, ins, k, s, i)
  {
    hide Allowed, LayerOf, RunOf, SwitchUp, Held, RefList, BufSet, Clean;
    var run, recv, use := RunOf(mode, ins, n), SwitchUp(mode, k, n, s), Allowed(mode, i);
    if i > 0 && i != ins {
      assert forall r :: r in run[i].refs <==> use.refs.Has(r);
      assert use.refs.last ==> LAST in run[i].refs;
      assert use.refs.gf ==> GF in run[i].refs;
      assert use.refs.arf ==> ARF in run[i].refs;
    }
  }

  lemma {:induction false} RightIsDecodable(mode: int, ins: nat, k: nat, n: nat, s: nat, i: nat)
    requires mode != 7 && i < n
    ensures Decodable(RunOf(mode, ins, n), SwitchUp(mode, k, n, s), i) <==> RightAt(mode, ins, k, s, i)
  {
    HeldIsClean(mode, ins, k, n, s, i);
    StepIsDecodable(mode, ins, k, n, s, i);
  }

  /** RightAt is exact: it implies the complete decode's picture for every codec ... */
  lemma {:induction false} RightIsFaithful<B, P>(
      c: Codec<B, P>, mode: int, ins: nat, k: nat, data: seq<B>, s: nat, i: nat)
    requires mode != 7 && i < |data| && RightAt(mode, ins, k, s, i)
    ensures PictureAt(c, RunOf(mode, ins, |data|), data, SwitchUp(mode, k, |data|, s), 3, i)
         == PictureAt(c, RunOf(mode, ins, |data|), data, Everything(|data|), 3, i)
  {
    RightIsDecodable(mode, ins, k, |data|, s, i);
    DecodableIsFaithful(c, RunOf(mode, ins, |data|), data, SwitchUp(mode, k, |data|, s), 3, i);
  }

  /** ... and a received frame for which it fails shows a wrong picture under the tracing codec. */
  lemma {:induction false} NotRightIsWrong(mode: int, ins: nat, k: nat, n: nat, s: nat, i: nat)
    requires mode != 7 && i < n && !RightAt(mode, ins, k, s, i) && (s <= i || LayerOf(mode, i) <= k)
    ensures PictureAt(Tracing(), RunOf(mode, ins, n), Numbered(n), SwitchUp(mode, k, n, s), 3, i)
         != PictureAt(Tracing(), RunOf(mode, ins, n), Numbered(n), Everything(n), 3, i)
  {
    RightIsDecodable(mode, ins, k, n, s, i);
    UndecodableIsWrong(RunOf(mode, ins, n), SwitchUp(mode, k, n, s), 3, i);
  }

  // ----- Modes 8, 9 and 10

  /** Where modes 8, 9 and 10 may be entered. */
  predicate IsSyncPoint(mode: int, s: nat) {
    if mode == 10 then s % 8 <= 2 else s % 8 <= 1
  }

  /** What a decoder that is still in the base layer holds before frame i. */
  function HeldInBase(mode: int, i: nat): Bufs {
    match mode
    case 8 => Bufs(true, i == 0 || i % 8 == 1, true)
    case 9 => Bufs(true, i <= 2, i <= 1)
    case 10 => Bufs(true, i == 0 || i % 8 == 1 || i % 8 == 2, true)
    case _ => Bufs(true, i <= 2, true)
  }

  /** The four patterns in terms of the frame count. */
  lemma {:induction false} PatternAt(mode: int, i: nat)
    requires mode == 8 || mode == 9 || mode == 10 || mode == 12
    ensures Allowed(mode, i) == UseAt(mode, i % 8)
    ensures var j := i % 8; LayerOf(mode, i) == 0 <==> j == 0 || j == 4 || (mode == 8 && (j == 2 || j == 6))
  {
  }

  lemma {:induction false} BaseLayerHolds(mode: int, s: nat, i: nat)
    requires mode == 8 || mode == 9 || mode == 10 || mode == 12
    requires i <= s
    ensures Held(mode, 0, 0, s, i) == HeldInBase(mode, i)
  {
    hide Allowed, LayerOf, HeldInBase;
    if i == 0 {
      assert HeldInBase(mode, 0) == ALL by { NothingLost(mode); }
    } else {
      BaseLayerHolds(mode, s, i - 1);
      BaseLayerStep(mode, i - 1);
    }
  }

  lemma {:induction false} NothingLost(mode: int)
    requires mode == 8 || mode == 9 || mode == 10 || mode == 12
    ensures HeldInBase(mode, 0) == ALL
  {
  }

  /** One frame of the base layer, or one missed. */
  lemma {:induction false} BaseLayerStep(mode: int, i: nat)
    requires mode == 8 || mode == 9 || mode == 10 || mode == 12
    ensures var ok := LayerOf(mode, i) == 0 && (i == 0 || Covers(HeldInBase(mode, i), Allowed(mode, i).refs));
      HeldInBase(mode, i + 1) == if i == 0 then Bufs(ok, ok, ok)
          else Updated(HeldInBase(mode, i), Allowed(mode, i).upd, ok)
  {
    hide Allowed, LayerOf;
    PatternAt(mode, i);
  }

  /** What it holds after switching up at a sync point s. */
  function HeldAfterSync(mode: int, s: nat, i: nat): Bufs {
    var start := s - s % 8;
    if start == 0 then ALL else
    match mode
    case 9 => Bufs(true, start + 3 <= i, start + 2 <= i)
    case _ => Bufs(true, start + 1 <= i, true)
  }

  lemma {:induction false} SyncPointHolds(mode: int, s: nat, i: nat)
    requires mode == 8 || mode == 9 || mode == 10
    requires IsSyncPoint(mode, s) && s <= i
    ensures Held(mode, 0, 0, s, i) == HeldAfterSync(mode, s, i) && RightAt(mode, 0, 0, s, i)
  {
    hide Allowed, LayerOf, HeldAfterSync, HeldInBase, Covers, IsSyncPoint;
    AfterSyncSuffices(mode, s, i);
    if i == s {
      BaseLayerHolds(mode, s, s);
      SwitchingUp(mode, s);
    } else {
      SyncPointHolds(mode, s, i - 1);
      AfterSyncStep(mode, s, i - 1);
    }
  }

  /** At a sync point a base-layer decoder holds what the next frames need. */
  lemma {:induction false} SwitchingUp(mode: int, s: nat)
    requires (mode == 8 || mode == 9 || mode == 10) && IsSyncPoint(mode, s)
    ensures HeldInBase(mode, s) == HeldAfterSync(mode, s, s)
  {
  }

  lemma {:induction false} AfterSyncSuffices(mode: int, s: nat, i: nat)
    requires (mode == 8 || mode == 9 || mode == 10) && IsSyncPoint(mode, s) && s <= i
    ensures i == 0 || Covers(HeldAfterSync(mode, s, i), Allowed(mode, i).refs)
  {
    hide Allowed, LayerOf;
    PatternAt(mode, i);
  }

  lemma {:induction false} AfterSyncStep(mode: int, s: nat, i: nat)
    requires (mode == 8 || mode == 9 || mode == 10) && IsSyncPoint(mode, s) && s <= i
    ensures HeldAfterSync(mode, s, i + 1) ==
      if i == 0 then Bufs(true, true, true) else Updated(HeldAfterSync(mode, s, i), Allowed(mode, i).upd, true)
  {
    hide Allowed, LayerOf;
    PatternAt(mode, i);
  }

  /** Elsewhere the first frame that needs the missing history comes at once. */
  lemma {:induction false} NotSyncPointBreaks(mode: int, s: nat) returns (i: nat)
    requires mode == 8 || mode == 9 || mode == 10
    requires !IsSyncPoint(mode, s)
    ensures s <= i <= s + 1 && !RightAt(mode, 0, 0, s, i)
  {
    hide Allowed, LayerOf;
    PatternAt(mode, s);
    PatternAt(mode, s + 1);
    BaseLayerHolds(mode, s, s);
    i := if RightAt(mode, 0, 0, s, s) then s + 1 else s;
  }

  /** At a sync point the decoder that had only the base layer shows, from there on, exactly what the
      complete decode shows, whatever the codec and the payloads. */
  lemma {:induction false} SyncPointReproduces<B, P>(c: Codec<B, P>, mode: int, data: seq<B>, s: nat, i: nat)
    requires mode == 8 || mode == 9 || mode == 10
    requires IsSyncPoint(mode, s) && s <= i < |data|
    ensures PictureAt(c, RunOf(mode, 0, |data|), data, SwitchUp(mode, 0, |data|, s), 3, i)
         == PictureAt(c, RunOf(mode, 0, |data|), data, Everything(|data|), 3, i)
  {
    SyncPointHolds(mode, s, i);
    RightIsFaithful(c, mode, 0, 0, data, s, i);
  }

  /** And nowhere else: entering at any other frame goes wrong within two frames under the tracing codec. */
  lemma {:induction false} OnlySyncPointsReproduce(mode: int, s: nat, n: nat) returns (i: nat)
    requires mode == 8 || mode == 9 || mode == 10
    requires !IsSyncPoint(mode, s) && s + 2 <= n
    ensures s <= i <= s + 1
    ensures PictureAt(Tracing(), RunOf(mode, 0, n), Numbered(n), SwitchUp(mode, 0, n, s), 3, i)
         != PictureAt(Tracing(), RunOf(mode, 0, n), Numbered(n), Everything(n), 3, i)
  {
    i := NotSyncPointBreaks(mode, s);
    NotRightIsWrong(mode, 0, 0, n, s, i);
  }

  // ----- Mode 12: no sync points

  lemma {:induction false} Mode12Holds(s: nat, i: nat)
    requires s <= i
    ensures Held(12, 0, 0, s, i) == Bufs(true, s <= 2, true)
    ensures RightAt(12, 0, 0, s, i) <==> s <= 2 || LayerOf(12, i) == 0
  {
    hide Allowed, LayerOf;
    PatternAt(12, i);
    if i == s {
      BaseLayerHolds(12, s, s);
    } else {
      PatternAt(12, i - 1);
      Mode12Holds(s, i - 1);
    }
  }

  /** Once layer 1 has been missed, every later frame above the base layer is wrong for ever. */
  lemma {:induction false} Mode12NeverHeals(s: nat, i: nat, n: nat)
    requires 3 <= s <= i < n && LayerOf(12, i) != 0
    ensures PictureAt(Tracing(), RunOf(12, 0, n), Numbered(n), SwitchUp(12, 0, n, s), 3, i)
         != PictureAt(Tracing(), RunOf(12, 0, n), Numbered(n), Everything(n), 3, i)
  {
    Mode12Holds(s, i);
    NotRightIsWrong(12, 0, 0, n, s, i);
  }
}

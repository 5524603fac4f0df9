/** The temporal layering patterns of the VP8/VP9 temporal SVC example encoder and its frame loop.

    The encoder steers the codec with per-frame flags that forbid references and updates of the three
    buffers LAST, GOLDEN and ALTREF, and appends every coded frame to the output file of its own temporal
    layer and of all higher ones. */
module TemporalLayers {
  import opened Wrappers
  import opened LayeredDecoding
  import Arith

  const FORCE_KF: bv32 := 0x1
  const NO_REF_LAST: bv32 := 0x1_0000
  const NO_REF_GF: bv32 := 0x2_0000
  const NO_UPD_LAST: bv32 := 0x4_0000
  const NO_UPD_ENTROPY: bv32 := 0x10_0000
  const NO_REF_ARF: bv32 := 0x20_0000
  const NO_UPD_GF: bv32 := 0x40_0000
  const NO_UPD_ARF: bv32 := 0x80_0000

  const MAX_PERIODICITY := 16
  const MAX_LAYERS := 5

  const LAST: nat := 0
  const GF: nat := 1
  const ARF: nat := 2

  /** A set of the three buffers. */
  datatype Bufs = Bufs(last: bool, gf: bool, arf: bool) {
    predicate Has(b: nat) {
      (b == LAST && last) || (b == GF && gf) || (b == ARF && arf)
    }
  }

  // ----- What the flags let the codec do

  function Reads(f: bv32): Bufs {
    Bufs(f & NO_REF_LAST == 0, f & NO_REF_GF == 0, f & NO_REF_ARF == 0)
  }

  function Writes(f: bv32): Bufs {
    Bufs(f & NO_UPD_LAST == 0, f & NO_UPD_GF == 0, f & NO_UPD_ARF == 0)
  }

  predicate ForcesKey(f: bv32) {
    f & FORCE_KF != 0
  }

  /** The codec may use fewer references and updates than the flags leave open, never more. */
  ghost predicate Obeys(s: Shape, refs: Bufs, upd: Bufs) {
    (forall r :: r in s.refs ==> refs.Has(r)) && (forall b :: b in s.upd ==> upd.Has(b))
  }

  // ----- The patterns as the source's comments describe them: who predicts from what and updates what

  datatype Use = Use(refs: Bufs, upd: Bufs)

  const L := Bufs(true, false, false)
  const G := Bufs(false, true, false)
  const A := Bufs(false, false, true)
  const LG := Bufs(true, true, false)
  const LA := Bufs(true, false, true)
  const GA := Bufs(false, true, true)
  const ALL := Bufs(true, true, true)
  const NEITHER := Bufs(false, false, false)

  function LayerIds(mode: int): (r: seq<nat>)
    ensures 0 < |r| <= MAX_PERIODICITY && forall i :: 0 <= i < |r| ==> r[i] < LayerCount(mode)
  {
    match mode
    case 0 => [0]
    case 1 => [0, 1]
    case 2 => [0, 1, 1]
    case 3 => [0, 2, 2, 1, 2, 2]
    case 7 => [0, 4, 3, 4, 2, 4, 3, 4, 1, 4, 3, 4, 2, 4, 3, 4]
    case 8 => [0, 1]
    case _ => [0, 2, 1, 2]
  }

  function LayerCount(mode: int): (n: nat)
    ensures 0 < n <= MAX_LAYERS
  {
    match mode
    case 0 => 1
    case 1 => 2
    case 2 => 2
    case 7 => 5
    case 8 => 2
    case _ => 3
  }

  function FlagPeriod(mode: int): (n: nat)
    ensures 0 < n <= MAX_PERIODICITY && n % |LayerIds(mode)| == 0
  {
    match mode
    case 0 => 1
    case 1 => 2
    case 2 => 3
    case 3 => 6
    case 4 => 4
    case 5 => 4
    case 6 => 4
    case 7 => 16
    case 11 => 4
    case _ => 8
  }

  function UseAt(mode: int, i: nat): Use
    requires i < FlagPeriod(mode)
  {
    match mode
    case 0 => Use(ALL, L)
    case 1 => if i == 0 then Use(L, L) else Use(LG, G)
    case 2 => if i == 0 then Use(L, L) else Use(L, G)
    case 3 => if i == 0 then Use(L, L) else if i == 3 then Use(LG, G) else Use(ALL, A)
    case 4 => if i == 0 then Use(L, L) else if i == 2 then Use(L, G) else Use(LG, NEITHER)
    case 5 => if i == 0 then Use(L, L) else if i == 2 then Use(LG, G) else Use(LG, NEITHER)
    case 6 => if i == 0 then Use(L, L) else if i == 2 then Use(LG, G) else Use(ALL, A)
    case 7 =>
      if i == 0 then Use(ALL, ALL) else if i % 2 == 1 then Use(ALL, NEITHER) else if i % 4 == 2 then Use(ALL, L)
      else if i == 8 then Use(A, ALL) else Use(GA, LG)
    case 8 =>
      if i == 0 then Use(LA, LG) else if i == 1 then Use(LA, G) else if i % 2 == 0 then Use(LA, L) else Use(ALL, G)
    case 9 =>
      (match i
       case 0 => Use(L, L)
       case 1 => Use(L, A)
       case 2 => Use(L, G)
       case 4 => Use(L, L)
       case 6 => Use(LG, G)
       case 7 => Use(ALL, NEITHER)
       case _ => Use(ALL, A))
    case 10 =>
      (match i
       case 0 => Use(LA, LG)
       case 1 => Use(LA, NEITHER)
       case 2 => Use(LA, G)
       case 4 => Use(LA, L)
       case 6 => Use(ALL, G)
       case _ => Use(ALL, NEITHER))
    case 11 => if i == 0 then Use(L, L) else if i == 1 then Use(L, A) else if i == 2 then Use(L, G) else Use(G, A)
    case _ => if i % 4 == 0 then Use(LA, L) else if i % 4 == 2 then Use(ALL, G) else Use(ALL, NEITHER)
  }

  function Decimators(mode: int): (r: seq<nat>)
    ensures |r| == LayerCount(mode)
  {
    match mode
    case 0 => [1]
    case 1 => [2, 1]
    case 2 => [3, 1]
    case 3 => [6, 3, 1]
    case 7 => [16, 8, 4, 2, 1]
    case 8 => [2, 1]
    case _ => [4, 2, 1]
  }

  /** Ids and decimators agree: layers 0..k together carry exactly every Decimators(mode)[k]-th frame. */
  lemma {:induction false} DecimatorsMatchIds(mode: int, k: nat, i: nat)
    requires k < LayerCount(mode) && i < |LayerIds(mode)|
    ensures Decimators(mode)[k] > 0 && |LayerIds(mode)| % Decimators(mode)[k] == 0
    ensures LayerIds(mode)[i] <= k <==> i % Decimators(mode)[k] == 0
  {
  }

  /** The part of the encoder configuration that the patterns fill in. */
  class LayerConfig {
    var periodicity: nat
    var numberLayers: nat
    const layerId: array<nat>
    const rateDecimator: array<nat>

    constructor ()
      ensures layerId.Length == MAX_PERIODICITY && rateDecimator.Length == MAX_LAYERS
      ensures fresh(layerId) && fresh(rateDecimator) && layerId != rateDecimator
      ensures periodicity == 1 && numberLayers == 1
    {
      layerId := new nat[MAX_PERIODICITY](_ => 0);
      rateDecimator := new nat[MAX_LAYERS](_ => 0);
      periodicity, numberLayers := 1, 1;
    }

    method SetLayers(ids: seq<nat>, decimators: seq<nat>)
      requires layerId != rateDecimator
      requires 0 < |ids| <= layerId.Length && 0 < |decimators| <= rateDecimator.Length
      modifies this, layerId, rateDecimator
      ensures periodicity == |ids| && layerId[..|ids|] == ids
      ensures numberLayers == |decimators| && rateDecimator[..|decimators|] == decimators
    {
      periodicity, numberLayers := |ids|, |decimators|;
      forall i | 0 <= i < |ids| { layerId[i] := ids[i]; }
      forall i | 0 <= i < |decimators| { rateDecimator[i] := decimators[i]; }
    }
  }

  /** The flag word of the i-th frame of a period. */
  function FlagWord(mode: int, i: nat): bv32
    requires i < FlagPeriod(mode)
  {
    match mode
    case 0 => FORCE_KF | NO_UPD_GF | NO_UPD_ARF
    case 1 =>
      if i == 0 then FORCE_KF | NO_UPD_GF | NO_UPD_ARF | NO_REF_GF | NO_REF_ARF
      else NO_UPD_ARF | NO_UPD_LAST | NO_REF_ARF
    case 2 =>
      if i == 0 then FORCE_KF | NO_REF_GF | NO_REF_ARF | NO_UPD_GF | NO_UPD_ARF
      else NO_REF_GF | NO_REF_ARF | NO_UPD_ARF | NO_UPD_LAST
    case 3 =>
      if i == 0 then FORCE_KF | NO_REF_GF | NO_REF_ARF | NO_UPD_GF | NO_UPD_ARF
      else if i == 3 then NO_REF_ARF | NO_UPD_ARF | NO_UPD_LAST
      else NO_UPD_GF | NO_UPD_LAST
    case 4 =>
      if i == 0 then FORCE_KF | NO_REF_GF | NO_REF_ARF | NO_UPD_GF | NO_UPD_ARF
      else if i == 2 then NO_REF_GF | NO_REF_ARF | NO_UPD_ARF | NO_UPD_LAST
      else NO_REF_ARF | NO_UPD_LAST | NO_UPD_GF | NO_UPD_ARF
    case 5 =>
      if i == 0 then FORCE_KF | NO_REF_GF | NO_REF_ARF | NO_UPD_GF | NO_UPD_ARF
      else if i == 2 then NO_REF_ARF | NO_UPD_LAST | NO_UPD_ARF
      else NO_REF_ARF | NO_UPD_LAST | NO_UPD_GF | NO_UPD_ARF
    case 6 =>
      if i == 0 then FORCE_KF | NO_REF_GF | NO_REF_ARF | NO_UPD_GF | NO_UPD_ARF
      else if i == 2 then NO_REF_ARF | NO_UPD_LAST | NO_UPD_ARF
      else NO_UPD_LAST | NO_UPD_GF
    case 7 =>
      if i == 0 then FORCE_KF
      else if i % 2 == 1 then NO_UPD_LAST | NO_UPD_GF | NO_UPD_ARF
      else if i % 4 == 2 then NO_UPD_ARF | NO_UPD_GF
      else if i == 8 then NO_REF_LAST | NO_REF_GF
      else NO_REF_LAST | NO_UPD_ARF
    case 8 =>
      if i == 0 then FORCE_KF | NO_REF_GF | NO_UPD_ARF
      else if i == 1 then NO_REF_GF | NO_UPD_LAST | NO_UPD_ARF
      else if i % 2 == 0 then NO_REF_GF | NO_UPD_GF | NO_UPD_ARF
      else NO_UPD_ARF | NO_UPD_LAST | NO_UPD_ENTROPY
    case 9 =>
      (match i
       case 0 => FORCE_KF | NO_REF_GF | NO_REF_ARF | NO_UPD_GF | NO_UPD_ARF
       case 1 => NO_REF_GF | NO_REF_ARF | NO_UPD_LAST | NO_UPD_GF
       case 2 => NO_REF_GF | NO_REF_ARF | NO_UPD_LAST | NO_UPD_ARF
       case 4 => NO_REF_GF | NO_REF_ARF | NO_UPD_GF | NO_UPD_ARF
       case 6 => NO_REF_ARF | NO_UPD_LAST | NO_UPD_ARF
       case 7 => NO_UPD_LAST | NO_UPD_GF | NO_UPD_ARF | NO_UPD_ENTROPY
       case _ => NO_UPD_LAST | NO_UPD_GF)
    case 10 =>
      (match i
       case 0 => FORCE_KF | NO_UPD_ARF | NO_REF_GF
       case 1 => NO_REF_GF | NO_UPD_GF | NO_UPD_ARF | NO_UPD_LAST | NO_UPD_ENTROPY
       case 2 => NO_REF_GF | NO_UPD_ARF | NO_UPD_LAST
       case 4 => NO_UPD_GF | NO_UPD_ARF | NO_REF_GF
       case 6 => NO_UPD_ARF | NO_UPD_LAST
       case _ => NO_UPD_GF | NO_UPD_ARF | NO_UPD_LAST | NO_UPD_ENTROPY)
    case 11 =>
      if i == 0 then NO_REF_GF | NO_REF_ARF | NO_UPD_GF | NO_UPD_ARF
      else if i == 1 then NO_REF_GF | NO_REF_ARF | NO_UPD_LAST | NO_UPD_GF
      else if i == 2 then NO_REF_GF | NO_REF_ARF | NO_UPD_ARF | NO_UPD_LAST
      else NO_REF_LAST | NO_REF_ARF | NO_UPD_LAST | NO_UPD_GF
    case _ =>
      if i % 4 == 0 then NO_UPD_GF | NO_UPD_ARF | NO_REF_GF
      else if i % 4 == 2 then NO_UPD_ARF | NO_UPD_LAST
      else NO_UPD_GF | NO_UPD_ARF | NO_UPD_LAST | NO_UPD_ENTROPY
  }

  /** A flag word lets the codec do what the pattern says for position i, and forces a key frame where it should. */
  ghost predicate Describes(f: bv32, mode: int, i: nat)
    requires i < FlagPeriod(mode)
  {
    Use(Reads(f), Writes(f)) == UseAt(mode, i) && (ForcesKey(f) <==> i == 0 && 0 <= mode <= 10)
  }

  /** The flag words let the codec do exactly what the pattern's description says. */
  lemma {:induction false} FlagWordsDescribe(mode: int, i: nat)
    requires i < FlagPeriod(mode)
    ensures Describes(FlagWord(mode, i), mode, i)
  {
  }

  lemma {:induction false} OnlyFirstForces(mode: int, i: nat)
    requires 0 < i < FlagPeriod(mode)
    ensures !ForcesKey(FlagWord(mode, i))
  {
    FlagWordsDescribe(mode, i);
  }

  function WithoutKey(f: bv32): bv32 { f & !FORCE_KF }

  /** Clearing the key frame flag changes nothing else that a flag word says. */
  lemma {:induction false} KeyFlagCleared(f: bv32)
    ensures var g := WithoutKey(f); Reads(g) == Reads(f) && Writes(g) == Writes(f) && !ForcesKey(g)
  {
    MaskKept(f, NO_REF_LAST);
    MaskKept(f, NO_REF_GF);
    MaskKept(f, NO_REF_ARF);
    MaskKept(f, NO_UPD_LAST);
    MaskKept(f, NO_UPD_GF);
    MaskKept(f, NO_UPD_ARF);
    KeyBitCleared(f);
  }

  lemma {:induction false} MaskKept(f: bv32, m: bv32)
    requires m & 1 == 0
    ensures (f & !1) & m == f & m
  {
    hide *;
  }

  lemma {:induction false} KeyBitCleared(f: bv32)
    ensures (f & !1) & 1 == 0
  {
    hide *;
  }

  function FlagWords(mode: int): (r: seq<bv32>)
    ensures |r| == FlagPeriod(mode) && forall i :: 0 <= i < |r| ==> r[i] == FlagWord(mode, i)
  {
    seq(FlagPeriod(mode), i requires 0 <= i < FlagPeriod(mode) => FlagWord(mode, i))
  }

  /** Fills both arrays for the chosen mode and returns the period of the flags. */
  method SetTemporalLayerPattern(mode: int, cfg: LayerConfig, layerFlags: array<bv32>) returns (flagPeriodicity: nat)
    requires layerFlags.Length == MAX_PERIODICITY
    requires cfg.layerId.Length == MAX_PERIODICITY && cfg.rateDecimator.Length == MAX_LAYERS
        && cfg.layerId != cfg.rateDecimator
    requires layerFlags as object != cfg.layerId && layerFlags as object != cfg.rateDecimator
    modifies cfg, cfg.layerId, cfg.rateDecimator, layerFlags
    ensures flagPeriodicity == FlagPeriod(mode) && layerFlags[..flagPeriodicity] == FlagWords(mode)
    ensures forall i :: 0 <= i < FlagPeriod(mode) ==> Describes(layerFlags[i], mode, i)
    ensures cfg.periodicity == |LayerIds(mode)| && cfg.layerId[..cfg.periodicity] == LayerIds(mode)
    ensures cfg.numberLayers == LayerCount(mode) && cfg.rateDecimator[..cfg.numberLayers] == Decimators(mode)
  {
    cfg.SetLayers(LayerIds(mode), Decimators(mode));
    var words := FlagWords(mode);
    flagPeriodicity := |words|;
    forall i | 0 <= i < |words| { layerFlags[i] := words[i]; }
    forall i | 0 <= i < FlagPeriod(mode) ensures Describes(layerFlags[i], mode, i) {
      FlagWordsDescribe(mode, i);
    }
  }

  // ----- Every pattern admits layer bounds

  /** What the codec may do for frame n; mode 0 passes no flags at all. */
  function Allowed(mode: int, n: nat): Use {
    if mode == 0 then Use(ALL, ALL) else UseAt(mode, n % FlagPeriod(mode))
  }

  /** The temporal layer of frame n. */
  function LayerOf(mode: int, n: nat): nat {
    LayerIds(mode)[n % |LayerIds(mode)|]
  }

  /** The highest layer that ever refreshes LAST, GOLDEN and ALTREF (the initial key frame apart). */
  function Bounds(mode: int): (r: seq<Layer>)
    ensures |r| == 3
  {
    match mode
    case 0 => [Layer(0, 0), Layer(0, 0), Layer(0, 0)]
    case 3 => [Layer(0, 0), Layer(0, 1), Layer(0, 2)]
    case 6 => [Layer(0, 0), Layer(0, 1), Layer(0, 2)]
    case 7 => [Layer(0, 3), Layer(0, 2), Layer(0, 1)]
    case 9 => [Layer(0, 0), Layer(0, 1), Layer(0, 2)]
    case 11 => [Layer(0, 0), Layer(0, 1), Layer(0, 2)]
    case _ => [Layer(0, 0), Layer(0, 1), Layer(0, 0)]
  }

  lemma {:induction false} PatternRespectsBounds(mode: int, i: nat, b: nat)
    requires mode != 0 && i < FlagPeriod(mode) && b < 3 && !(mode == 7 && i == 0)
    ensures UseAt(mode, i).refs.Has(b) ==> Bounds(mode)[b].tl <= LayerIds(mode)[i % |LayerIds(mode)|]
    ensures UseAt(mode, i).upd.Has(b) ==> LayerIds(mode)[i % |LayerIds(mode)|] <= Bounds(mode)[b].tl
  {
  }

  // ----- The frame loop

  datatype Coded<B> = Coded(shape: Shape, payload: B)

  function Shapes<B>(s: seq<Coded<B>>): (r: seq<Shape>)
    ensures |r| == |s| && forall i :: 0 <= i < |s| ==> r[i] == s[i].shape
  {
    seq(|s|, i requires 0 <= i < |s| => s[i].shape)
  }

  function Payloads<B>(s: seq<Coded<B>>): (r: seq<B>)
    ensures |r| == |s| && forall i :: 0 <= i < |s| ==> r[i] == s[i].payload
  {
    seq(|s|, i requires 0 <= i < |s| => s[i].payload)
  }

  /** Marks the frames of temporal layer k and below. */
  function UpTo(layers: seq<Layer>, k: nat): (r: seq<bool>)
    ensures |r| == |layers| && forall i :: 0 <= i < |r| ==> r[i] == Below(layers[i], Layer(0, k))
  {
    seq(|layers|, i requires 0 <= i < |layers| => Below(layers[i], Layer(0, k)))
  }

  lemma {:induction false} KeptShapes<B>(s: seq<Coded<B>>, recv: seq<bool>)
    requires |s| == |recv|
    ensures Shapes(Kept(s, recv)) == Kept(Shapes(s), recv) && Payloads(Kept(s, recv)) == Kept(Payloads(s), recv)
  {
    if s != [] {
      var m := |s| - 1;
      KeptShapes(s[..m], recv[..m]);
      assert Shapes(s)[..m] == Shapes(s[..m]) && Payloads(s)[..m] == Payloads(s[..m]);
    }
  }

  /** Before every frame marked that is no key frame, the last key frame is marked, too. */
  ghost predicate KeysInTime(run: seq<Shape>, recv: seq<bool>)
    requires |run| == |recv|
  {
    forall n :: 0 <= n < |run| && recv[n] && !run[n].key ==> KeyArrived(run, recv, n)
  }

  /** So it is when all key frames are in the base layer. */
  lemma {:induction false} BaseKeysInTime(run: seq<Shape>, layers: seq<Layer>, k: nat)
    requires |run| == |layers| && forall i :: 0 <= i < |run| && run[i].key ==> layers[i] == Layer(0, 0)
    ensures KeysInTime(run, UpTo(layers, k))
  {
    forall n | 0 <= n < |run| ensures KeyArrived(run, UpTo(layers, k), n) {
      BaseKeyArrived(run, layers, k, n);
    }
  }

  lemma {:induction false} BaseKeyArrived(run: seq<Shape>, layers: seq<Layer>, k: nat, n: nat)
    requires n <= |run| == |layers| && forall i :: 0 <= i < |run| && run[i].key ==> layers[i] == Layer(0, 0)
    ensures KeyArrived(run, UpTo(layers, k), n)
    decreases n
  {
    if n > 0 {
      BaseKeyArrived(run, layers, k, n - 1);
    }
  }

  /** In a run with respected bounds, the stream of layers 0..k decodes, frame by frame, to the pictures that
      the complete stream decodes to, if no frame of it follows a key frame that it lacks. */
  lemma {:induction false} LayerStreamIsFaithful<B, P>(
      c: Codec<B, P>, coded: seq<Coded<B>>, layers: seq<Layer>, bounds: seq<Layer>, k: nat)
    requires |coded| == |layers| && Bounded(Shapes(coded), layers, bounds)
    requires KeysInTime(Shapes(coded), UpTo(layers, k))
    ensures var mine := Kept(coded, UpTo(layers, k));
      && Fits(Shapes(mine), |bounds|)
      && DecodeStream(c, Shapes(mine), Payloads(mine), |bounds|)
      == Kept(DecodeStream(c, Shapes(coded), Payloads(coded), |bounds|), UpTo(layers, k))
  {
    var recv := UpTo(layers, k);
    KeptShapes(coded, recv);
    forall n | 0 <= n < |coded| && recv[n] ensures Decodable(Shapes(coded), recv, n) {
      LayersStayCleanAfterKey(Shapes(coded), layers, bounds, recv, Layer(0, k), n);
    }
    SubstreamIsFaithful(c, Shapes(coded), Payloads(coded), recv, |bounds|);
  }

  /** Otherwise it does not, under the tracing codec, when all other frames predict from something. */
  lemma {:induction false} LayerStreamWithoutKeyDiffers(run: seq<Shape>, layers: seq<Layer>, slots: nat, k: nat)
    requires |run| == |layers| && Fits(run, slots) && AllPredict(run) && !KeysInTime(run, UpTo(layers, k))
    ensures var recv, data := UpTo(layers, k), Numbered(|run|);
      && |Kept(run, recv)| == |Kept(data, recv)| && Fits(Kept(run, recv), slots)
      && DecodeStream(Tracing(), Kept(run, recv), Kept(data, recv), slots)
          != Kept(DecodeStream(Tracing(), run, data, slots), recv)
  {
    var recv := UpTo(layers, k);
    var n :| 0 <= n < |run| && recv[n] && !run[n].key && !KeyArrived(run, recv, n);
    LostKeyRuins(run, recv, n);
    UndecodableSubstreamDiffers(run, recv, slots, n);
  }

  /** What the codec may return for frame n: a frame within the pattern, or a key frame, which it has to be where
      mode 7 forces one. */
  ghost predicate Returned(s: Shape, mode: int, n: nat) {
    && Obeys(s, Allowed(mode, n).refs, Allowed(mode, n).upd)
    && (mode == 7 && n % 16 == 0 ==> s.key)
  }

  /** One more frame of the pattern keeps the run within the bounds. */
  lemma {:induction false} BoundedExtends<B>(
      coded: seq<Coded<B>>, layers: seq<Layer>, mode: int, pkt: Coded<B>, n: nat)
    requires |coded| == |layers| && Bounded(Shapes(coded), layers, Bounds(mode))
    requires Returned(pkt.shape, mode, n)
    ensures Bounded(Shapes(coded + [pkt]), layers + [Layer(0, LayerOf(mode, n))], Bounds(mode))
  {
    var run := Shapes(coded + [pkt]);
    var here := Layer(0, LayerOf(mode, n));
    assert run == Shapes(coded) + [pkt.shape];
    if !pkt.shape.key {
      forall b | 0 <= b < 3
        ensures Allowed(mode, n).refs.Has(b) ==> Below(Bounds(mode)[b], here)
        ensures Allowed(mode, n).upd.Has(b) ==> Below(here, Bounds(mode)[b])
      {
        if mode != 0 {
          PatternRespectsBounds(mode, n % FlagPeriod(mode), b);
          Arith.ModOfMultiple(n, FlagPeriod(mode), |LayerIds(mode)|);
        }
      }
    }
  }

  /** Appending a frame to the complete run appends it to the streams of its own layer and above. */
  lemma {:induction false} StreamExtends<B>(coded: seq<Coded<B>>, layers: seq<Layer>, pkt: Coded<B>, t: nat, k: nat)
    requires |coded| == |layers|
    ensures Kept(coded + [pkt], UpTo(layers + [Layer(0, t)], k))
        == Kept(coded, UpTo(layers, k)) + (if t <= k then [pkt] else [])
  {
    var m := |coded|;
    assert (coded + [pkt])[..m] == coded;
    assert UpTo(layers + [Layer(0, t)], k)[..m] == UpTo(layers, k);
  }

  function Copies<T>(x: T, n: nat): (r: seq<T>)
    ensures |r| == n
  {
    if n == 0 then [] else Copies(x, n - 1) + [x]
  }

  /** One run of the example encoder. The codec itself is the caller: it hands in the coded frames. */
  class TemporalSvcEncoder<B(0)> {
    const mode: int
    const cfg: LayerConfig
    const layerFlags: array<bv32>
    var flagPeriodicity: nat
    var frameCnt: nat
    const outfile: array<seq<Coded<B>>>
    ghost var started: bool  // the key frame flag has been reset
    ghost var coded: seq<Coded<B>>
    ghost var layers: seq<Layer>

    ghost predicate Separate()
    {
      && layerFlags.Length == MAX_PERIODICITY && outfile.Length == MAX_LAYERS
      && cfg.layerId.Length == MAX_PERIODICITY && cfg.rateDecimator.Length == MAX_LAYERS
      && cfg.layerId != cfg.rateDecimator
      && layerFlags as object != cfg.layerId && layerFlags as object != cfg.rateDecimator
      && outfile as object != cfg.layerId && outfile as object != cfg.rateDecimator && outfile as object != layerFlags
    }

    /** The flag word in force at position i: FORCE_KF only survives the first frame in mode 7. */
    ghost predicate FlagInForce(i: nat)
      requires i < FlagPeriod(mode)
      reads `started, layerFlags
    {
      && i < layerFlags.Length
      && Use(Reads(layerFlags[i]), Writes(layerFlags[i])) == UseAt(mode, i)
      && (ForcesKey(layerFlags[i]) <==> ForcesKey(FlagWord(mode, i)) && (!started || mode == 7))
    }

    ghost predicate Configured()
      reads `started, `flagPeriodicity, cfg, cfg.layerId, layerFlags
    {
      && Separate()
      && cfg.periodicity == |LayerIds(mode)| && cfg.layerId[..cfg.periodicity] == LayerIds(mode)
      && cfg.numberLayers == LayerCount(mode)
      && flagPeriodicity == FlagPeriod(mode) && (forall i :: 0 <= i < FlagPeriod(mode) ==> FlagInForce(i))
    }

    /** The run so far stays within the bounds, and every output file holds exactly the frames of its layer and
        below, in order. */
    ghost predicate Consistent()
      reads `coded, `layers, cfg, outfile
    {
      && Separate() && cfg.numberLayers == LayerCount(mode)
      && |coded| == |layers| && Bounded(Shapes(coded), layers, Bounds(mode))
      && (forall k :: 0 <= k < cfg.numberLayers ==> outfile[k] == Kept(coded, UpTo(layers, k)))
    }

    ghost predicate Valid()
      reads this, cfg, cfg.layerId, layerFlags, outfile
    {
      Configured() && started == (frameCnt > 0) && Consistent()
    }

    constructor (layeringMode: int)
      ensures mode == layeringMode && Valid() && frameCnt == 0 && coded == []
      ensures fresh(cfg) && fresh(cfg.layerId) && fresh(layerFlags) && fresh(outfile)
    {
      mode := layeringMode;
      var config := new LayerConfig();
      cfg := config;
      layerFlags := new bv32[MAX_PERIODICITY](_ => 0);
      outfile := new seq<Coded<B>>[MAX_LAYERS](_ => []);
      frameCnt, started, coded, layers := 0, false, [], [];
      new;
      flagPeriodicity := SetTemporalLayerPattern(mode, cfg, layerFlags);
      forall i | 0 <= i < FlagPeriod(mode) ensures FlagInForce(i) {
        FlagWordsDescribe(mode, i);
        assert layerFlags[i] == layerFlags[..flagPeriodicity][i];
      }
    }

    /** The flags passed to the codec for the next frame. */
    function Flags(): bv32
      requires Valid()
      reads this, cfg, cfg.layerId, layerFlags, outfile
    {
      if mode == 0 then 0 else layerFlags[frameCnt % flagPeriodicity]
    }

    /** What the codec may return from one call: any number of frames within the flags; none for a dropped frame or
        at the flush, but for the first call a key frame comes first. All are key frames when the flags force one,
        and the codec may choose one itself at any time. */
    ghost predicate FromCodec(pkts: seq<Coded<B>>)
      requires Valid()
      reads this, cfg, cfg.layerId, layerFlags, outfile
    {
      && (frameCnt == 0 ==> pkts != [] && pkts[0].shape.key)
      && forall i :: 0 <= i < |pkts| ==>
        && Obeys(pkts[i].shape, Reads(Flags()), Writes(Flags()))
        && (ForcesKey(Flags()) ==> pkts[i].shape.key)
    }

    lemma {:induction false} FlagsGoverning()
      requires Valid()
      ensures Use(Reads(Flags()), Writes(Flags())) == Allowed(mode, frameCnt)
      ensures mode == 7 && frameCnt % 16 == 0 ==> ForcesKey(Flags())
    {
      assert FlagInForce(frameCnt % flagPeriodicity);
      FlagWordsDescribe(mode, frameCnt % flagPeriodicity);
    }

    /** Clears FORCE_KF of the first flag word, except in mode 7; all other bits and words stay. */
    method ResetKeyFlag()
      requires Configured()
      modifies this`started, layerFlags
      ensures Configured() && started
      ensures layerFlags[..] ==
        if mode == 7 then old(layerFlags[..]) else old(layerFlags[..])[0 := WithoutKey(old(layerFlags[0]))]
    {
      hide UseAt, FlagWord, LayerIds, LayerCount, Reads, Writes, ForcesKey, FlagPeriod, WithoutKey;
      KeyFlagCleared(layerFlags[0]);
      if mode != 7 {
        layerFlags[0] := WithoutKey(layerFlags[0]);
      }
      started := true;
      forall i | 0 <= i < FlagPeriod(mode) ensures FlagInForce(i) {
        assert old(FlagInForce(i));
        if i > 0 {
          OnlyFirstForces(mode, i);
        }
      }
    }

    /** Appends the packet to the output files of layer layerId and above. */
    method WriteToLayers(layerId: nat, pkt: Coded<B>)
      requires Separate() && layerId < cfg.numberLayers <= MAX_LAYERS
      modifies outfile
      ensures forall k :: 0 <= k < MAX_LAYERS ==>
        outfile[k] == (if layerId <= k < cfg.numberLayers then old(outfile[k]) + [pkt] else old(outfile[k]))
    {
      var i := layerId;
      while i < cfg.numberLayers
        invariant layerId <= i <= cfg.numberLayers
        invariant forall k :: 0 <= k < MAX_LAYERS ==>
          outfile[k] == (if layerId <= k < i then old(outfile[k]) + [pkt] else old(outfile[k]))
      {
        outfile[i] := outfile[i] + [pkt];
        i := i + 1;
      }
    }

    /** Appends one packet of frame n to the run and to its files. */
    method TakePacket(pkt: Coded<B>, layerId: nat, ghost n: nat)
      requires Consistent() && Returned(pkt.shape, mode, n) && layerId == LayerOf(mode, n) < cfg.numberLayers
      modifies this`coded, this`layers, outfile
      ensures Consistent() && coded == old(coded) + [pkt] && layers == old(layers) + [Layer(0, layerId)]
    {
      hide Kept, UpTo, Bounded, Shapes, Bounds, LayerOf, Returned;
      WriteToLayers(layerId, pkt);
      BoundedExtends(coded, layers, mode, pkt, n);
      forall k | 0 <= k < cfg.numberLayers
        ensures outfile[k] == Kept(coded + [pkt], UpTo(layers + [Layer(0, layerId)], k))
      {
        StreamExtends(coded, layers, pkt, layerId, k);
      }
      coded, layers := coded + [pkt], layers + [Layer(0, layerId)];
    }

    /** One turn of the frame loop: every packet goes to the files of its layer and above. */
    method EncodeFrame(pkts: seq<Coded<B>>)
      requires Valid() && FromCodec(pkts)
      modifies this, layerFlags, outfile
      ensures Valid() && frameCnt == old(frameCnt) + 1
      ensures coded == old(coded) + pkts
      ensures layers == old(layers) + Copies(Layer(0, LayerOf(mode, old(frameCnt))), |pkts|)
    {
      hide Kept, UpTo, Bounded, Shapes, Bounds, UseAt, FlagWord, Obeys, FlagPeriod, LayerCount, FlagInForce;
      hide Consistent;
      var layerId := cfg.layerId[frameCnt % cfg.periodicity];
      assert layerId == cfg.layerId[..cfg.periodicity][frameCnt % cfg.periodicity] == LayerOf(mode, frameCnt);
      ghost var n := frameCnt;
      FlagsGoverning();
      assert forall i :: 0 <= i < |pkts| ==> Returned(pkts[i].shape, mode, n);
      ResetKeyFlag();
      for i := 0 to |pkts|
        invariant Configured() && Consistent() && frameCnt == n && started
        invariant coded == old(coded) + pkts[..i] && layers == old(layers) + Copies(Layer(0, layerId), i)
      {
        TakePacket(pkts[i], layerId, n);
        assert pkts[..i + 1] == pkts[..i] + [pkts[i]];
      }
      assert pkts[..|pkts|] == pkts;
      frameCnt := frameCnt + 1;
    }

    /** At any moment of the run, decoding the output file of layer k shows for each of its frames exactly the
        picture that decoding the complete run shows, if none of its frames follows a key frame that the codec put
        above layer k. */
    lemma {:induction false} OutputFilesAreFaithful<P>(c: Codec<B, P>, k: nat)
      requires Valid() && k < cfg.numberLayers && KeysInTime(Shapes(coded), UpTo(layers, k))
      ensures Fits(Shapes(coded), 3) && Fits(Shapes(outfile[k]), 3)
      ensures DecodeStream(c, Shapes(outfile[k]), Payloads(outfile[k]), 3)
           == Kept(DecodeStream(c, Shapes(coded), Payloads(coded), 3), UpTo(layers, k))
    {
      LayerStreamIsFaithful(c, coded, layers, Bounds(mode), k);
    }

    /** Otherwise the tracing codec, with the run's frames numbered, shows another picture for one of its frames. */
    lemma {:induction false} OutputFileWithoutKeyDiffers(k: nat)
      requires Valid() && k < cfg.numberLayers && !KeysInTime(Shapes(coded), UpTo(layers, k))
      requires AllPredict(Shapes(coded))
      ensures var data, recv := Numbered(|coded|), UpTo(layers, k);
        && Fits(Shapes(coded), 3) && Fits(Shapes(outfile[k]), 3) && |outfile[k]| == |Kept(data, recv)|
        && DecodeStream(Tracing(), Shapes(outfile[k]), Kept(data, recv), 3)
            != Kept(DecodeStream(Tracing(), Shapes(coded), data, 3), recv)
    {
      LayerStreamWithoutKeyDiffers(Shapes(coded), layers, 3, k);
      KeptShapes(coded, UpTo(layers, k));
    }
  }
}

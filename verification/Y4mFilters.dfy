/** The 6-tap chroma filters of the Y4M reader on one line of samples: each of the source's three-segment loops
    equals one convolution whose index is clamped to the line. */
module Y4mFilters {
  import opened Bytes

  // ----- The filters

  /** Six taps, the first applied first samples away from the output position. */
  datatype Kernel = Kernel(t0: int, t1: int, t2: int, t3: int, t4: int, t5: int, first: int)

  const SHIFT := Kernel(4, -17, 114, 35, -9, 1, -2)
  const SLIDE_UP := Kernel(1, -9, 35, 114, -17, 4, -3)
  const HALVE := Kernel(3, -17, 78, 78, -17, 3, -2)

  function Min(a: int, b: int): int { if a > b then b else a }
  function Max(a: int, b: int): int { if a < b then b else a }

  /** Rounds a sum scaled by 128 and clamps it to a byte. */
  function Rounded(sum: int): Byte {
    Max(0, Min((sum + 64) / 128, 255))
  }

  /** The sample nearest to position i. */
  function At(s: seq<Byte>, i: int): Byte
    requires s != []
  {
    s[Max(0, Min(i, |s| - 1))]
  }

  function Dot(k: Kernel, a: int, b: int, c: int, d: int, e: int, f: int): int {
    k.t0 * a + k.t1 * b + k.t2 * c + k.t3 * d + k.t4 * e + k.t5 * f
  }

  function Convolve(k: Kernel, s: seq<Byte>, i: int): int
    requires s != []
  {
    var j := i + k.first;
    Dot(k, At(s, j), At(s, j + 1), At(s, j + 2), At(s, j + 3), At(s, j + 4), At(s, j + 5))
  }

  /** Filters a line at every position. */
  function Filtered(k: Kernel, s: seq<Byte>): (r: seq<Byte>)
    ensures |r| == |s|
  {
    seq(|s|, i requires 0 <= i < |s| => Rounded(Convolve(k, s, i)))
  }

  /** Filters a line at every second position. */
  function Halved(s: seq<Byte>): (r: seq<Byte>)
    ensures |r| == (|s| + 1) / 2
  {
    seq((|s| + 1) / 2, j requires 0 <= j < (|s| + 1) / 2 => Rounded(Convolve(HALVE, s, 2 * j)))
  }

  // ----- Their properties

  function Reversed(s: seq<Byte>): (r: seq<Byte>)
    ensures |r| == |s| && forall i :: 0 <= i < |s| ==> r[i] == s[|s| - 1 - i]
  {
    seq(|s|, i requires 0 <= i < |s| => s[|s| - 1 - i])
  }

  lemma {:induction false} AtReversed(s: seq<Byte>, i: int)
    requires s != []
    ensures At(Reversed(s), i) == At(s, |s| - 1 - i)
  {
  }

  lemma {:induction false} ConvolveMirrored(s: seq<Byte>, i: int)
    requires s != []
    ensures Convolve(SLIDE_UP, s, i) == Convolve(SHIFT, Reversed(s), |s| - 1 - i)
  {
    hide At, Reversed;
    var m := |s| - 1 - i;
    AtReversed(s, m - 2);
    AtReversed(s, m - 1);
    AtReversed(s, m);
    AtReversed(s, m + 1);
    AtReversed(s, m + 2);
    AtReversed(s, m + 3);
  }

  /** Sliding up is sliding down in the mirror: the filter for C_b is the filter for C_r run from the other end. */
  lemma {:induction false} SlideUpMirrorsSlideDown(s: seq<Byte>)
    ensures Filtered(SLIDE_UP, s) == Reversed(Filtered(SHIFT, Reversed(s)))
  {
    hide Convolve;
    forall i | 0 <= i < |s| ensures Filtered(SLIDE_UP, s)[i] == Reversed(Filtered(SHIFT, Reversed(s)))[i] {
      ConvolveMirrored(s, i);
    }
  }

  ghost predicate Constant(s: seq<Byte>, c: Byte) {
    forall i :: 0 <= i < |s| ==> s[i] == c
  }

  lemma {:induction false} ConvolveConstant(k: Kernel, s: seq<Byte>, c: Byte, i: int)
    requires s != [] && Constant(s, c) && (k == SHIFT || k == SLIDE_UP || k == HALVE)
    ensures Rounded(Convolve(k, s, i)) == c
  {
    var j := i + k.first;
    assert forall m :: At(s, m) == c;
    assert Convolve(k, s, i) == Dot(k, c, c, c, c, c, c) == 128 * c;
  }

  /** The taps of every filter add up to 128, so flat lines stay as they are. */
  lemma {:induction false} ConstantsStay(s: seq<Byte>, c: Byte)
    requires Constant(s, c)
    ensures Filtered(SHIFT, s) == s && Filtered(SLIDE_UP, s) == s
    ensures Constant(Halved(s), c)
  {
    hide Convolve, Rounded;
    forall i | 0 <= i < |s|
      ensures Rounded(Convolve(SHIFT, s, i)) == c && Rounded(Convolve(SLIDE_UP, s, i)) == c
          && Rounded(Convolve(HALVE, s, 2 * i)) == c
    {
      ConvolveConstant(SHIFT, s, c, i);
      ConvolveConstant(SLIDE_UP, s, c, i);
      ConvolveConstant(HALVE, s, c, 2 * i);
    }
  }

  // ----- Lines in memory

  /** Element y of a line that starts at b and has stride k. */
  function Off(b: nat, k: nat, y: nat): nat {
    b + y * k
  }

  ghost predicate OnLine(i: int, b: nat, k: nat, n: nat) {
    exists y :: 0 <= y < n && i == Off(b, k, y)
  }

  ghost predicate Inside(len: nat, b: nat, k: nat, n: nat) {
    forall y :: 0 <= y < n ==> Off(b, k, y) < len
  }

  /** Distinct elements have distinct addresses. */
  ghost predicate Spread(b: nat, k: nat, n: nat) {
    forall y, z :: 0 <= y < z < n ==> Off(b, k, y) != Off(b, k, z)
  }

  function Line(a: seq<Byte>, b: nat, k: nat, n: nat): (r: seq<Byte>)
    requires Inside(|a|, b, k, n)
    ensures |r| == n && forall y :: 0 <= y < n ==> r[y] == a[Off(b, k, y)]
  {
    seq(n, y requires 0 <= y < n => a[Off(b, k, y)])
  }

  /** Only the n elements of the line at d have changed. */
  ghost predicate OnlyLineChanged(now: seq<Byte>, before: seq<Byte>, d: nat, k: nat, n: nat) {
    |now| == |before| && forall i :: 0 <= i < |now| && !OnLine(i, d, k, n) ==> now[i] == before[i]
  }

  /** A line may be filtered into the same buffer when the two lines do not meet. */
  ghost predicate Apart(s: nat, n: nat, d: nat, m: nat, k: nat) {
    forall y :: 0 <= y < n ==> !OnLine(Off(s, k, y), d, k, m)
  }

  /** The source line is intact, the first x elements of the destination line are the goal's, and nothing off
      the destination line has changed. */
  ghost predicate Progress(
      dst: array<Byte>, before: seq<Byte>, d: nat, src: array<Byte>, s: nat, k: nat, line: seq<Byte>,
      goal: seq<Byte>, x: nat)
    reads dst, src
  {
    && Inside(dst.Length, d, k, |goal|) && Inside(src.Length, s, k, |line|) && x <= |goal|
    && OnlyLineChanged(dst[..], before, d, k, |goal|)
    && (forall y :: 0 <= y < |line| ==> src[Off(s, k, y)] == line[y])
    && (forall y :: 0 <= y < x ==> dst[Off(d, k, y)] == goal[y])
  }

  lemma {:induction false} Begin(
      dst: array<Byte>, before: seq<Byte>, d: nat, src: array<Byte>, s: nat, k: nat, line: seq<Byte>,
      goal: seq<Byte>)
    requires before == dst[..] && Inside(dst.Length, d, k, |goal|) && Inside(src.Length, s, k, |line|)
        && line == Line(src[..], s, k, |line|)
    ensures Progress(dst, before, d, src, s, k, line, goal, 0)
  {
    hide Off, OnLine;
  }

  lemma {:induction false} Intact(
      dst: array<Byte>, before: seq<Byte>, d: nat, src: array<Byte>, s: nat, k: nat, line: seq<Byte>,
      goal: seq<Byte>, x: nat)
    requires Progress(dst, before, d, src, s, k, line, goal, x)
    ensures Inside(src.Length, s, k, |line|) && forall y :: 0 <= y < |line| ==> src[Off(s, k, y)] == line[y]
  {
  }

  lemma {:induction false} Done(
      dst: array<Byte>, before: seq<Byte>, d: nat, src: array<Byte>, s: nat, k: nat, line: seq<Byte>,
      goal: seq<Byte>)
    requires Progress(dst, before, d, src, s, k, line, goal, |goal|)
    ensures Inside(dst.Length, d, k, |goal|) && Line(dst[..], d, k, |goal|) == goal
        && OnlyLineChanged(dst[..], before, d, k, |goal|)
  {
    hide Off, OnLine;
  }

  method Put(
      dst: array<Byte>, ghost before: seq<Byte>, d: nat, src: array<Byte>, ghost s: nat, k: nat,
      ghost line: seq<Byte>, ghost goal: seq<Byte>, x: nat, v: Byte)
    requires Progress(dst, before, d, src, s, k, line, goal, x) && x < |goal| && v == goal[x]
    requires Spread(d, k, |goal|) && (dst == src ==> Apart(s, |line|, d, |goal|, k))
    modifies dst
    ensures Progress(dst, before, d, src, s, k, line, goal, x + 1)
  {
    hide Off;
    assert OnLine(Off(d, k, x), d, k, |goal|);
    dst[Off(d, k, x)] := v;
  }

  lemma {:induction false} ShiftHead(line: seq<Byte>, x: nat)
    requires x < Min(|line|, 2)
    ensures Filtered(SHIFT, line)[x] == Rounded(Dot(SHIFT, line[0], line[Max(x - 1, 0)], line[x],
        line[Min(x + 1, |line| - 1)], line[Min(x + 2, |line| - 1)], line[Min(x + 3, |line| - 1)]))
  {
    hide Dot, Rounded;
  }

  lemma {:induction false} ShiftBody(line: seq<Byte>, x: nat)
    requires 2 <= x < |line| - 3
    ensures Filtered(SHIFT, line)[x] == Rounded(Dot(SHIFT, line[x - 2], line[x - 1], line[x], line[x + 1],
        line[x + 2], line[x + 3]))
  {
    hide Dot, Rounded;
  }

  lemma {:induction false} ShiftTail(line: seq<Byte>, x: nat)
    requires 2 <= x < |line| && |line| - 3 <= x
    ensures Filtered(SHIFT, line)[x] == Rounded(Dot(SHIFT, line[x - 2], line[x - 1], line[x],
        line[Min(x + 1, |line| - 1)], line[Min(x + 2, |line| - 1)], line[|line| - 1]))
  {
    hide Dot, Rounded;
  }

  /** The quarter-pixel shift, right along rows and down along columns. */
  method ShiftLine(dst: array<Byte>, d: nat, src: array<Byte>, s: nat, k: nat, n: nat)
    requires Inside(dst.Length, d, k, n) && Inside(src.Length, s, k, n) && Spread(d, k, n)
    requires dst == src ==> Apart(s, n, d, n, k)
    modifies dst
    ensures Line(dst[..], d, k, n) == Filtered(SHIFT, old(Line(src[..], s, k, n)))
    ensures OnlyLineChanged(dst[..], old(dst[..]), d, k, n)
  {
    hide Off, Dot, Rounded, OnLine, Progress, Convolve, At, Filtered, Apart, Spread, OnlyLineChanged, Line;
    ghost var before, line := dst[..], Line(src[..], s, k, n);
    ghost var goal := Filtered(SHIFT, line);
    Begin(dst, before, d, src, s, k, line, goal);
    var x := 0;
    while x < Min(n, 2)
      invariant 0 <= x <= n
      invariant Progress(dst, before, d, src, s, k, line, goal, x)
    {
      Intact(dst, before, d, src, s, k, line, goal, x);
      ShiftHead(line, x);
      Put(dst, before, d, src, s, k, line, goal, x,
          Rounded(Dot(SHIFT, src[Off(s, k, 0)], src[Off(s, k, Max(x - 1, 0))], src[Off(s, k, x)],
          src[Off(s, k, Min(x + 1, n - 1))], src[Off(s, k, Min(x + 2, n - 1))], src[Off(s, k, Min(x + 3, n - 1))])));
      x := x + 1;
    }
    while x < n - 3
      invariant Min(n, 2) <= x <= n
      invariant Progress(dst, before, d, src, s, k, line, goal, x)
    {
      Intact(dst, before, d, src, s, k, line, goal, x);
      ShiftBody(line, x);
      Put(dst, before, d, src, s, k, line, goal, x,
          Rounded(Dot(SHIFT, src[Off(s, k, x - 2)], src[Off(s, k, x - 1)], src[Off(s, k, x)], src[Off(s, k, x + 1)],
          src[Off(s, k, x + 2)], src[Off(s, k, x + 3)])));
      x := x + 1;
    }
    while x < n
      invariant Min(n, 2) <= x <= n && n - 3 <= x
      invariant Progress(dst, before, d, src, s, k, line, goal, x)
    {
      Intact(dst, before, d, src, s, k, line, goal, x);
      ShiftTail(line, x);
      Put(dst, before, d, src, s, k, line, goal, x,
          Rounded(Dot(SHIFT, src[Off(s, k, x - 2)], src[Off(s, k, x - 1)], src[Off(s, k, x)],
          src[Off(s, k, Min(x + 1, n - 1))], src[Off(s, k, Min(x + 2, n - 1))], src[Off(s, k, n - 1)])));
      x := x + 1;
    }
    Done(dst, before, d, src, s, k, line, goal);
  }

  lemma {:induction false} SlideUpHead(line: seq<Byte>, x: nat)
    requires x < Min(|line|, 3)
    ensures Filtered(SLIDE_UP, line)[x]
        == Rounded(Dot(SLIDE_UP, line[0], line[Max(x - 2, 0)], line[Max(x - 1, 0)], line[x],
        line[Min(x + 1, |line| - 1)], line[Min(x + 2, |line| - 1)]))
  {
    hide Dot, Rounded;
  }

  lemma {:induction false} SlideUpBody(line: seq<Byte>, x: nat)
    requires 3 <= x < |line| - 2
    ensures Filtered(SLIDE_UP, line)[x]
        == Rounded(Dot(SLIDE_UP, line[x - 3], line[x - 2], line[x - 1], line[x], line[x + 1], line[x + 2]))
  {
    hide Dot, Rounded;
  }

  lemma {:induction false} SlideUpTail(line: seq<Byte>, x: nat)
    requires 3 <= x < |line| && |line| - 2 <= x
    ensures Filtered(SLIDE_UP, line)[x]
        == Rounded(Dot(SLIDE_UP, line[x - 3], line[x - 2], line[x - 1], line[x], line[Min(x + 1, |line| - 1)],
        line[|line| - 1]))
  {
    hide Dot, Rounded;
  }

  /** The quarter-pixel shift the other way, up along columns. */
  method SlideUpLine(dst: array<Byte>, d: nat, src: array<Byte>, s: nat, k: nat, n: nat)
    requires Inside(dst.Length, d, k, n) && Inside(src.Length, s, k, n) && Spread(d, k, n)
    requires dst == src ==> Apart(s, n, d, n, k)
    modifies dst
    ensures Line(dst[..], d, k, n) == Filtered(SLIDE_UP, old(Line(src[..], s, k, n)))
    ensures OnlyLineChanged(dst[..], old(dst[..]), d, k, n)
  {
    hide Off, Dot, Rounded, OnLine, Progress, Convolve, At, Filtered, Apart, Spread, OnlyLineChanged, Line;
    ghost var before, line := dst[..], Line(src[..], s, k, n);
    ghost var goal := Filtered(SLIDE_UP, line);
    Begin(dst, before, d, src, s, k, line, goal);
    var x := 0;
    while x < Min(n, 3)
      invariant 0 <= x <= n
      invariant Progress(dst, before, d, src, s, k, line, goal, x)
    {
      Intact(dst, before, d, src, s, k, line, goal, x);
      SlideUpHead(line, x);
      Put(dst, before, d, src, s, k, line, goal, x,
          Rounded(Dot(SLIDE_UP, src[Off(s, k, 0)], src[Off(s, k, Max(x - 2, 0))], src[Off(s, k, Max(x - 1, 0))],
          src[Off(s, k, x)], src[Off(s, k, Min(x + 1, n - 1))], src[Off(s, k, Min(x + 2, n - 1))])));
      x := x + 1;
    }
    while x < n - 2
      invariant Min(n, 3) <= x <= n
      invariant Progress(dst, before, d, src, s, k, line, goal, x)
    {
      Intact(dst, before, d, src, s, k, line, goal, x);
      SlideUpBody(line, x);
      Put(dst, before, d, src, s, k, line, goal, x,
          Rounded(Dot(SLIDE_UP, src[Off(s, k, x - 3)], src[Off(s, k, x - 2)], src[Off(s, k, x - 1)],
          src[Off(s, k, x)], src[Off(s, k, x + 1)], src[Off(s, k, x + 2)])));
      x := x + 1;
    }
    while x < n
      invariant Min(n, 3) <= x <= n && n - 2 <= x
      invariant Progress(dst, before, d, src, s, k, line, goal, x)
    {
      Intact(dst, before, d, src, s, k, line, goal, x);
      SlideUpTail(line, x);
      Put(dst, before, d, src, s, k, line, goal, x,
          Rounded(Dot(SLIDE_UP, src[Off(s, k, x - 3)], src[Off(s, k, x - 2)], src[Off(s, k, x - 1)],
          src[Off(s, k, x)], src[Off(s, k, Min(x + 1, n - 1))], src[Off(s, k, n - 1)])));
      x := x + 1;
    }
    Done(dst, before, d, src, s, k, line, goal);
  }

  /** The decimation sums as the source groups them: outer, middle and inner pairs, and the first one merged. */
  function Paired(a: int, b: int, c: int, d: int, e: int, f: int): int {
    3 * (a + f) - 17 * (b + e) + 78 * (c + d)
  }

  function PairedFirst(a: int, b: int, c: int, d: int): int {
    64 * a + 78 * b - 17 * c + 3 * d
  }

  lemma {:induction false} HalveHead(line: seq<Byte>, x: nat, j: nat)
    requires x < Min(|line|, 2) && x == 2 * j
    ensures Halved(line)[j] == Rounded(PairedFirst(line[0], line[Min(1, |line| - 1)], line[Min(2, |line| - 1)],
        line[Min(3, |line| - 1)]))
  {
    hide Rounded;
  }

  lemma {:induction false} HalveBody(line: seq<Byte>, x: nat, j: nat)
    requires 2 <= x < |line| - 3 && x == 2 * j
    ensures Halved(line)[j] == Rounded(Paired(line[x - 2], line[x - 1], line[x], line[x + 1], line[x + 2], line[x + 3]))
  {
    hide Rounded;
  }

  lemma {:induction false} HalveTail(line: seq<Byte>, x: nat, j: nat)
    requires 2 <= x < |line| && |line| - 3 <= x && x == 2 * j
    ensures Halved(line)[j] == Rounded(Paired(line[x - 2], line[x - 1], line[x], line[Min(x + 1, |line| - 1)],
        line[Min(x + 2, |line| - 1)], line[|line| - 1]))
  {
    hide Rounded;
  }

  /** Decimation by two, along rows or columns. */
  method HalveLine(dst: array<Byte>, d: nat, src: array<Byte>, s: nat, k: nat, n: nat)
    requires Inside(dst.Length, d, k, (n + 1) / 2) && Inside(src.Length, s, k, n) && Spread(d, k, (n + 1) / 2)
    requires dst == src ==> Apart(s, n, d, (n + 1) / 2, k)
    modifies dst
    ensures Line(dst[..], d, k, (n + 1) / 2) == Halved(old(Line(src[..], s, k, n)))
    ensures OnlyLineChanged(dst[..], old(dst[..]), d, k, (n + 1) / 2)
  {
    hide Off, Paired, PairedFirst, Rounded, OnLine, Progress, Convolve, At, Halved, Apart, Spread, OnlyLineChanged,
        Line;
    ghost var before, line := dst[..], Line(src[..], s, k, n);
    ghost var goal := Halved(line);
    Begin(dst, before, d, src, s, k, line, goal);
    var x, j := 0, 0;  // j is x >> 1
    while x < Min(n, 2)
      invariant 0 <= x <= n + 1 && x == 2 * j
      invariant Progress(dst, before, d, src, s, k, line, goal, j)
    {
      Intact(dst, before, d, src, s, k, line, goal, j);
      HalveHead(line, x, j);
      Put(dst, before, d, src, s, k, line, goal, j,
          Rounded(PairedFirst(src[Off(s, k, 0)], src[Off(s, k, Min(1, n - 1))], src[Off(s, k, Min(2, n - 1))],
          src[Off(s, k, Min(3, n - 1))])));
      x, j := x + 2, j + 1;
    }
    while x < n - 3
      invariant Min(n, 2) <= x <= n + 1 && x == 2 * j
      invariant Progress(dst, before, d, src, s, k, line, goal, j)
    {
      Intact(dst, before, d, src, s, k, line, goal, j);
      HalveBody(line, x, j);
      Put(dst, before, d, src, s, k, line, goal, j,
          Rounded(Paired(src[Off(s, k, x - 2)], src[Off(s, k, x - 1)], src[Off(s, k, x)], src[Off(s, k, x + 1)],
          src[Off(s, k, x + 2)], src[Off(s, k, x + 3)])));
      x, j := x + 2, j + 1;
    }
    while x < n
      invariant Min(n, 2) <= x <= n + 1 && n - 3 <= x && x == 2 * j
      invariant Progress(dst, before, d, src, s, k, line, goal, j)
    {
      Intact(dst, before, d, src, s, k, line, goal, j);
      HalveTail(line, x, j);
      Put(dst, before, d, src, s, k, line, goal, j,
          Rounded(Paired(src[Off(s, k, x - 2)], src[Off(s, k, x - 1)], src[Off(s, k, x)],
          src[Off(s, k, Min(x + 1, n - 1))], src[Off(s, k, Min(x + 2, n - 1))], src[Off(s, k, n - 1)])));
      x, j := x + 2, j + 1;
    }
    Done(dst, before, d, src, s, k, line, goal);
  }
}

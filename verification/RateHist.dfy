/** The rate histogram: a ring of recent packets, the average rate over a sliding window, bins of rates, and the
    merging of bins for display. */
module RateHist {
  import opened Wrappers
  import Arith

  const RATE_BINS := 100
  const HIST_BAR_MAX := 40
  const INT_MAX: nat := 0x7FFF_FFFF

  datatype Bucket = Bucket(low: nat, high: nat, count: nat)

  datatype Packet = Packet(time: nat, size: nat)

  /** Window length and initial delay in milliseconds, and the target in kilobits per second. */
  datatype Config = Config(bufSz: nat, bufInitialSz: nat, target: nat)

  // ----- The window

  function Last<T>(s: seq<T>): T
    requires s != []
  {
    s[|s| - 1]
  }

  /** Where scanning back from the newest packet stops: at the window's age or after samples packets. */
  function WindowFrom(h: seq<Packet>, samples: nat, span: nat, i: nat): (k: nat)
    requires h != [] && i <= |h|
    ensures k <= i
  {
    if i > 0 && |h| - i < samples && Last(h).time - h[i - 1].time <= span then WindowFrom(h, samples, span, i - 1)
        else i
  }

  function Oldest(h: seq<Packet>, samples: nat): nat { if |h| > samples then |h| - samples else 0 }

  ghost predicate NonDecreasing(h: seq<Packet>) {
    forall i, j :: 0 <= i <= j < |h| ==> h[i].time <= h[j].time
  }

  /** For non-decreasing times the window holds exactly those of the last samples packets that are recent enough. */
  lemma {:induction false} WindowIsRecent(h: seq<Packet>, samples: nat, span: nat, i: nat)
    requires h != [] && Oldest(h, samples) <= i <= |h| && NonDecreasing(h)
    requires forall j :: i <= j < |h| ==> Last(h).time - h[j].time <= span
    ensures var k := WindowFrom(h, samples, span, i);
      && Oldest(h, samples) <= k
      && forall j :: Oldest(h, samples) <= j < |h| ==> (k <= j <==> Last(h).time - h[j].time <= span)
  {
    if i > Oldest(h, samples) && Last(h).time - h[i - 1].time <= span {
      WindowIsRecent(h, samples, span, i - 1);
    }
  }

  /** The average counts from the newest packet that is too old, if the last samples packets include one, and
      from the oldest of them otherwise. */
  lemma {:induction false} SinceWhen(h: seq<Packet>, samples: nat, span: nat, j: nat)
    requires h != [] && samples > 0 && NonDecreasing(h) && Oldest(h, samples) <= j < |h|
    ensures var now := Last(h).time;
      (now - h[j].time > span && j + 1 < |h| && now - h[j + 1].time <= span) ==> Since(h, samples, span) == h[j].time
    ensures Last(h).time - h[Oldest(h, samples)].time <= span ==> Since(h, samples, span) == h[Oldest(h, samples)].time
  {
    WindowIsRecent(h, samples, span, |h|);
  }

  function SumSizes(h: seq<Packet>, k: nat): nat
    requires k <= |h|
    decreases |h| - k
  {
    if k == |h| then 0 else h[k].size + SumSizes(h, k + 1)
  }

  /** The time the average counts from: that of the first packet too old, if there is one in the ring. */
  function Since(h: seq<Packet>, samples: nat, span: nat): nat
    requires h != [] && samples > 0
  {
    var k := WindowFrom(h, samples, span, |h|);
    if k > 0 && |h| - k < samples then h[k - 1].time else if k < |h| then h[k].time else Last(h).time
  }

  /** The average rate after the newest packet, in bits per second; None when nothing is recorded. */
  function Rate(h: seq<Packet>, samples: nat, cfg: Config): Option<nat>
    requires h != [] && samples > 0 && NonDecreasing(h)
  {
    var now, since := Last(h).time, Since(h, samples, cfg.bufSz);
    if now < cfg.bufInitialSz || cfg.target == 0 || now <= since then None
    else Some(Average(SumSizes(h, WindowFrom(h, samples, cfg.bufSz, |h|)), now - since))
  }

  /** Bits per second, from bytes and milliseconds. */
  function Average(bytes: nat, ms: nat): nat
    requires ms > 0
  {
    bytes * 8 * 1000 / ms
  }

  // ----- What is recorded, from the packets alone

  /** The bytes of the packets from i on that are at most span older than the newest. */
  function RecentBytes(h: seq<Packet>, span: nat, i: nat): nat
    requires h != [] && i <= |h|
    decreases |h| - i
  {
    if i == |h| then 0
    else (if Last(h).time - h[i].time <= span then h[i].size else 0) + RecentBytes(h, span, i + 1)
  }

  ghost predicate LastTooOld(h: seq<Packet>, span: nat, j: nat)
    requires j < |h|
  {
    Last(h).time - h[j].time > span && forall k :: j < k < |h| ==> Last(h).time - h[k].time <= span
  }

  /** The packets are counted from the newest one that is more than span old, or from packet i when none of those
      from i on is. */
  ghost predicate CountsSince(h: seq<Packet>, span: nat, i: nat, since: nat)
    requires h != [] && i < |h|
  {
    if forall j :: i <= j < |h| ==> Last(h).time - h[j].time <= span then since == h[i].time
    else exists j :: i <= j < |h| - 1 && since == h[j].time && LastTooOld(h, span, j)
  }

  ghost predicate IsRate(r: Option<nat>, now: nat, since: nat, cfg: Config, bits: nat) {
    && (r.Some? <==> now >= cfg.bufInitialSz && cfg.target > 0 && now > since)
    && (r.Some? ==> r.value * (now - since) <= 1000 * bits < (r.value + 1) * (now - since))
  }

  /** With the newest packet a rate is recorded if and only if the initial delay is over, there is a target and time
      has passed since the packets are counted; it is the number of bits among the last samples packets that are
      recent enough, in a second. */
  ghost predicate Recorded(h: seq<Packet>, samples: nat, cfg: Config, since: nat, r: Option<nat>)
    requires h != [] && samples > 0
  {
    var now, first := Last(h).time, if |h| > samples then |h| - samples else 0;
    var bits := 8 * RecentBytes(h, cfg.bufSz, first);
    && CountsSince(h, cfg.bufSz, first, since)
    && (r.Some? <==> now >= cfg.bufInitialSz && cfg.target > 0 && now > since)
    && (r.Some? ==> r.value * (now - since) <= 1000 * bits < (r.value + 1) * (now - since))
  }

  lemma {:induction false} RecentIsWindow(h: seq<Packet>, span: nat, k: nat, i: nat)
    requires h != [] && i <= |h| && k <= |h|
    requires forall j :: i <= j < |h| ==> (k <= j <==> Last(h).time - h[j].time <= span)
    ensures RecentBytes(h, span, i) == SumSizes(h, if i < k then k else i)
    decreases |h| - i
  {
    if i < |h| {
      RecentIsWindow(h, span, k, i + 1);
    }
  }

  lemma {:induction false} SinceCounts(h: seq<Packet>, samples: nat, span: nat)
    requires h != [] && samples > 0 && NonDecreasing(h)
    ensures CountsSince(h, span, Oldest(h, samples), Since(h, samples, span))
  {
    WindowIsRecent(h, samples, span, |h|);
    var k, first := WindowFrom(h, samples, span, |h|), Oldest(h, samples);
    hide WindowFrom;
    assert Last(h).time - h[|h| - 1].time <= span;
    if k > first {
      assert LastTooOld(h, span, k - 1);
    }
  }

  lemma {:induction false} AverageIs(bytes: nat, ms: nat)
    requires ms > 0
    ensures var r := Average(bytes, ms); r * ms <= 8000 * bytes < (r + 1) * ms
  {
    var r := Average(bytes, ms);
    assert 8000 * bytes == ms * r + 8000 * bytes % ms;
    assert (r + 1) * ms == r * ms + ms;
  }

  lemma {:induction false} RateIsRecorded(h: seq<Packet>, samples: nat, cfg: Config)
    requires h != [] && samples > 0 && NonDecreasing(h)
    ensures Recorded(h, samples, cfg, Since(h, samples, cfg.bufSz), Rate(h, samples, cfg))
  {
    hide WindowFrom, SumSizes, RecentBytes, Average, Since, CountsSince;
    var k, first := WindowFrom(h, samples, cfg.bufSz, |h|), if |h| > samples then |h| - samples else 0;
    WindowIsRecent(h, samples, cfg.bufSz, |h|);
    RecentIsWindow(h, cfg.bufSz, k, first);
    SinceCounts(h, samples, cfg.bufSz);
    var since := Since(h, samples, cfg.bufSz);
    if Rate(h, samples, cfg).Some? {
      AverageIs(SumSizes(h, k), Last(h).time - since);
    }
  }

  lemma {:induction false} SinceBefore(h: seq<Packet>, samples: nat, span: nat)
    requires h != [] && samples > 0 && NonDecreasing(h)
    ensures Since(h, samples, span) <= Last(h).time
  {
  }

  // ----- Bins

  function Bin(rate: nat, target: nat): (b: nat)
    requires target > 0
    ensures b < RATE_BINS
  {
    var idx := rate * (RATE_BINS / 2) / (target * 1000);
    if idx < 0 then 0 else if idx > RATE_BINS - 1 then RATE_BINS - 1 else idx
  }

  /** Bins are a fiftieth of the target wide; the last one has no upper end. */
  lemma {:induction false} BinRange(rate: nat, target: nat, b: nat)
    requires target > 0 && b < RATE_BINS
    ensures Bin(rate, target) == b
      <==> b * (20 * target) <= rate && (b == RATE_BINS - 1 || rate < (b + 1) * (20 * target))
  {
    var d, q := target * 1000, rate * 50 / (target * 1000);
    assert rate * 50 == d * q + rate * 50 % d;
    assert d * q == 50 * (q * (20 * target)) by { assert d == 50 * (20 * target); }
    assert q * (20 * target) <= rate < (q + 1) * (20 * target) by {
      assert (q + 1) * (20 * target) == q * (20 * target) + 20 * target;
    }
    if b <= q {
      Arith.MulMonotone(b, q, 20 * target);
    } else {
      Arith.MulMonotone(q + 1, b, 20 * target);
    }
    if b < q {
      Arith.MulMonotone(b + 1, q, 20 * target);
    }
  }

  lemma {:induction false} BinMonotone(x: nat, y: nat, target: nat)
    requires target > 0 && x <= y
    ensures Bin(x, target) <= Bin(y, target)
  {
    var d, p, q := target * 1000, x * 50, y * 50;
    if p / d > q / d {
      Arith.MulMonotone(q / d + 1, p / d, d);
      assert d * (q / d) + d == d * (q / d + 1);
    }
  }

  /** The summary of the rates that fall into a bin: least, greatest and number. */
  function Summary(rates: seq<nat>, target: nat, b: nat): Bucket
    requires target > 0
  {
    if rates == [] then Bucket(INT_MAX, 0, 0)
    else
      var s := Summary(rates[..|rates| - 1], target, b);
      if Bin(Last(rates), target) == b then Record(s, Last(rates)) else s
  }

  function Record(s: Bucket, rate: nat): Bucket {
    Bucket(if s.low > rate then rate else s.low, if s.high < rate then rate else s.high, s.count + 1)
  }

  ghost predicate InRange(rates: seq<nat>) {
    forall i :: 0 <= i < |rates| ==> rates[i] < INT_MAX
  }

  /** Both ends of a bin's range are rates recorded in it, and an unused bin has the initial range. */
  lemma {:induction false} SummaryEnds(rates: seq<nat>, target: nat, b: nat)
    requires target > 0 && InRange(rates)
    ensures var s := Summary(rates, target, b);
      && (s.count == 0 <==> s.low == INT_MAX)
      && (s.count > 0 ==> s.low <= s.high < INT_MAX && Bin(s.low, target) == b && Bin(s.high, target) == b)
      && (s.count == 0 ==> s.high == 0)
  {
    if rates != [] {
      SummaryEnds(rates[..|rates| - 1], target, b);
    }
  }

  /** Every rate recorded in a bin lies in the bin's range. */
  lemma {:induction false} SummaryCovers(rates: seq<nat>, target: nat, i: nat)
    requires target > 0 && i < |rates|
    ensures var s := Summary(rates, target, Bin(rates[i], target)); s.low <= rates[i] <= s.high && s.count > 0
  {
    var n := |rates| - 1;
    if i < n {
      SummaryCovers(rates[..n], target, i);
    }
  }

  /** The rates recorded in a bin, by their place. */
  function InBin(rates: seq<nat>, target: nat, b: nat): set<nat>
    requires target > 0
  {
    set i | 0 <= i < |rates| && Bin(rates[i], target) == b
  }

  /** A bin counts the rates in its range, and its ends are among them. */
  lemma {:induction false} SummaryCounts(rates: seq<nat>, target: nat, b: nat)
    requires target > 0 && InRange(rates)
    ensures var (s, places) := (Summary(rates, target, b), InBin(rates, target, b));
      && s.count == |places|
      && (places != {} ==> exists i :: i in places && rates[i] == s.low)
      && (places != {} ==> exists i :: i in places && rates[i] == s.high)
  {
    hide Bin;
    if rates != [] {
      var n := |rates| - 1;
      var r := rates[..n];
      SummaryCounts(r, target, b);
      SummaryEnds(r, target, b);
      var before, places := InBin(r, target, b), InBin(rates, target, b);
      if Bin(rates[n], target) == b {
        assert places == before + {n};
        assert n in places;
        assert forall i :: i in before ==> i in places && rates[i] == r[i];
      } else {
        assert places == before;
      }
    }
  }

  /** Ranges of different bins in use are disjoint and in order. */
  lemma {:induction false} RangesDisjoint(rates: seq<nat>, target: nat, b: nat, c: nat)
    requires target > 0 && InRange(rates) && b < c
    requires Summary(rates, target, b).count > 0 && Summary(rates, target, c).count > 0
    ensures Summary(rates, target, b).high < Summary(rates, target, c).low
  {
    SummaryEnds(rates, target, b);
    SummaryEnds(rates, target, c);
    var high, low := Summary(rates, target, b).high, Summary(rates, target, c).low;
    if low <= high {
      BinMonotone(low, high, target);
    }
  }

  function TotalCount(s: seq<Bucket>): nat {
    if s == [] then 0 else TotalCount(s[..|s| - 1]) + Last(s).count
  }

  /** The summaries of bins 0 to n. */
  function Summaries(rates: seq<nat>, target: nat, n: nat): (r: seq<Bucket>)
    requires target > 0
    ensures |r| == n && forall b :: 0 <= b < n ==> r[b] == Summary(rates, target, b)
  {
    seq(n, b requires 0 <= b < n => Summary(rates, target, b))
  }

  /** The counts of all bins add up to the number of rates recorded. */
  lemma {:induction false} CountsAddUp(rates: seq<nat>, target: nat, n: nat)
    requires target > 0
    ensures rates == [] ==> TotalCount(Summaries(rates, target, n)) == 0
    ensures rates != [] ==>
      TotalCount(Summaries(rates, target, n))
      == TotalCount(Summaries(rates[..|rates| - 1], target, n)) + if Bin(Last(rates), target) < n then 1 else 0
  {
    if n > 0 {
      CountsAddUp(rates, target, n - 1);
      assert Summaries(rates, target, n)[..n - 1] == Summaries(rates, target, n - 1);
      if rates != [] {
        var before := rates[..|rates| - 1];
        assert Summaries(before, target, n)[..n - 1] == Summaries(before, target, n - 1);
      }
    }
  }

  lemma {:induction false} AllCounted(rates: seq<nat>, target: nat)
    requires target > 0
    ensures TotalCount(Summaries(rates, target, RATE_BINS)) == |rates|
  {
    CountsAddUp(rates, target, RATE_BINS);
    if rates != [] {
      AllCounted(rates[..|rates| - 1], target);
    }
  }

  lemma {:induction false} SlotsApart(k: nat, n: nat, samples: nat)
    requires k < n < k + samples
    ensures k % samples != n % samples
  {
    var q := n / samples - k / samples;
    if k % samples == n % samples {
      assert n - k == samples * q;
      if q >= 1 { Arith.MulMonotone(1, q, samples); } else { Arith.MulMonotone(q, 0, samples); }
    }
  }

  lemma {:induction false} SumFrom(h: seq<Packet>, i: nat)
    requires 0 < i <= |h|
    ensures SumSizes(h, i - 1) == SumSizes(h, i) + h[i - 1].size
  {
  }

  class RateHistogram {
    const cfg: Config
    const samples: nat
    const pts: array<nat>
    const sz: array<nat>
    const bucket: array<Bucket>
    var frames: nat
    var total: nat
    ghost var history: seq<Packet>
    ghost var rates: seq<nat>

    /** The target the bins are counted by; without one nothing is ever recorded. */
    ghost function Target(): nat { if cfg.target == 0 then 1 else cfg.target }

    ghost predicate Ring()
      reads this, pts, sz
    {
      && samples > 0 && pts.Length == sz.Length == samples && pts != sz && frames == |history|
      && forall k :: Oldest(history, samples) <= k < frames ==> history[k] == Packet(pts[k % samples], sz[k % samples])
    }

    ghost predicate Valid()
      reads this, pts, sz, bucket
    {
      && Ring() && NonDecreasing(history) && InRange(rates) && total == |rates| && bucket.Length == RATE_BINS
      && (cfg.target == 0 ==> rates == []) && bucket[..] == Summaries(rates, Target(), RATE_BINS)
    }

    constructor (cfg: Config, samples: nat)
      ensures Valid() && this.cfg == cfg && this.samples == (if samples == 0 then 1 else samples)
      ensures history == [] && rates == [] && fresh(pts) && fresh(sz) && fresh(bucket)
    {
      this.cfg, this.samples := cfg, if samples == 0 then 1 else samples;
      pts := new nat[if samples == 0 then 1 else samples](_ => 0);
      sz := new nat[if samples == 0 then 1 else samples](_ => 0);
      bucket := new Bucket[RATE_BINS](_ => Bucket(INT_MAX, 0, 0));
      frames, total, history, rates := 0, 0, [], [];
    }

    method Store(now: nat, size: nat)
      requires Valid()
      modifies this`frames, this`history, pts, sz
      ensures Ring() && history == old(history) + [Packet(now, size)]
    {
      var idx := frames % samples;
      forall k | Oldest(history, samples) <= k < frames && k + samples > frames ensures k % samples != idx {
        SlotsApart(k, frames, samples);
      }
      frames := frames + 1;
      pts[idx], sz[idx] := now, size;
      history := history + [Packet(now, size)];
    }

    /** Sums the sizes over the window, newest first. */
    method SumWindow() returns (sum: nat, since: nat)
      requires Ring() && history != []
      ensures sum == SumSizes(history, WindowFrom(history, samples, cfg.bufSz, |history|))
      ensures since == Since(history, samples, cfg.bufSz)
    {
      var now := pts[(frames - 1) % samples];
      assert history[frames - 1].time == now;
      ghost var h := history;
      sum, since := 0, now;
      var i := frames;
      while i > 0 && frames - i < samples
        invariant 0 <= i <= frames && frames - i <= samples && h == history
        invariant sum == SumSizes(h, i) && since == if i < frames then h[i].time else now
        invariant WindowFrom(h, samples, cfg.bufSz, |h|) == WindowFrom(h, samples, cfg.bufSz, i)
        decreases i
      {
        assert h[i - 1] == Packet(pts[(i - 1) % samples], sz[(i - 1) % samples]);
        since := pts[(i - 1) % samples];
        if now - since > cfg.bufSz { break; }
        SumFrom(h, i);
        sum := sum + sz[(i - 1) % samples];
        i := i - 1;
      }
    }

    method RecordRate(idx: nat, avg: nat)
      requires cfg.target > 0 && idx == Bin(avg, cfg.target) && avg < INT_MAX
      requires bucket.Length == RATE_BINS && bucket[..] == Summaries(rates, cfg.target, RATE_BINS)
      modifies this`total, this`rates, bucket
      ensures rates == old(rates) + [avg] && total == old(total) + 1
      ensures bucket[..] == Summaries(rates, cfg.target, RATE_BINS)
    {
      ghost var before := bucket[..];
      if bucket[idx].low > avg {
        bucket[idx] := bucket[idx].(low := avg);
      }
      if bucket[idx].high < avg {
        bucket[idx] := bucket[idx].(high := avg);
      }
      bucket[idx] := bucket[idx].(count := bucket[idx].count + 1);
      total := total + 1;
      ghost var r := rates + [avg];
      assert r[..|rates|] == rates;
      assert bucket[..] == before[idx := Record(before[idx], avg)];
      rates := r;
    }

    /** The facts about a history that recording its newest packet needs. */
    lemma {:induction false} AboutToRecord(h: seq<Packet>)
      requires h != [] && samples > 0 && NonDecreasing(h)
      ensures Recorded(h, samples, cfg, Since(h, samples, cfg.bufSz), Rate(h, samples, cfg))
      ensures Since(h, samples, cfg.bufSz) <= Last(h).time
      ensures var (now, since) := (Last(h).time, Since(h, samples, cfg.bufSz));
        Rate(h, samples, cfg) == if now < cfg.bufInitialSz || cfg.target == 0 || now <= since then None
            else Some(Average(SumSizes(h, WindowFrom(h, samples, cfg.bufSz, |h|)), now - since))
    {
      hide Recorded, Since, SumSizes, WindowFrom, Average;
      RateIsRecorded(h, samples, cfg);
      SinceBefore(h, samples, cfg.bufSz);
    }

    lemma {:induction false} StillInOrder(h: seq<Packet>, p: Packet)
      requires NonDecreasing(h) && (h == [] || Last(h).time <= p.time)
      ensures NonDecreasing(h + [p])
    {
    }

    /** Records a packet. Rates have to stay within an int. */
    method Update(now: nat, size: nat)
      requires Valid() && (history == [] || Last(history).time <= now)
      requires var r := Rate(history + [Packet(now, size)], samples, cfg); r.Some? ==> r.value < INT_MAX
      modifies this, pts, sz, bucket
      ensures Valid() && history == old(history) + [Packet(now, size)]
      ensures var r := Rate(history, samples, cfg);
        rates == old(rates) + if r.Some? then [r.value] else []
      ensures rates == old(rates) || rates == old(rates) + [Last(rates)]
      ensures Recorded(history, samples, cfg, Since(history, samples, cfg.bufSz),
          if |rates| > |old(rates)| then Some(Last(rates)) else None)
    {
      StillInOrder(history, Packet(now, size));
      AboutToRecord(history + [Packet(now, size)]);
      hide Rate, NonDecreasing, InRange, Recorded, CountsSince, RecentBytes, WindowFrom, SumSizes, Summary;
      hide Summaries, Bin, Since, Average;
      Store(now, size);
      if now < cfg.bufInitialSz { return; }
      if cfg.target == 0 { return; }
      var sum, since := SumWindow();
      if now == since { return; }
      var avg := Average(sum, now - since);
      var idx := Bin(avg, cfg.target);
      RecordRate(idx, avg);
    }
  }

  // ----- Buckets for display

  /** Disjoint ranges in increasing order, none unused. */
  ghost predicate Increasing(s: seq<Bucket>) {
    && (forall i :: 0 <= i < |s| ==> s[i].low <= s[i].high && s[i].count > 0)
    && (forall i, j :: 0 <= i < j < |s| ==> s[i].high < s[j].low)
  }

  /** The first index of the least, and of the greatest count. */
  function Smallest(s: seq<Bucket>, n: nat): (k: nat)
    requires 0 < n <= |s|
    ensures k < n
  {
    if n == 1 then 0
    else
      var k := Smallest(s, n - 1);
      if s[n - 1].count < s[k].count then n - 1 else k
  }

  function Biggest(s: seq<Bucket>, n: nat): (k: nat)
    requires 0 < n <= |s|
    ensures k < n
  {
    if n == 1 then 0
    else
      var k := Biggest(s, n - 1);
      if s[n - 1].count > s[k].count then n - 1 else k
  }

  lemma {:induction false} ExtremaAre(s: seq<Bucket>, n: nat)
    requires 0 < n <= |s|
    ensures var k := Smallest(s, n);
      (forall i :: 0 <= i < n ==> s[k].count <= s[i].count) && (forall i :: 0 <= i < k ==> s[k].count < s[i].count)
    ensures var k := Biggest(s, n);
      (forall i :: 0 <= i < n ==> s[k].count >= s[i].count) && (forall i :: 0 <= i < k ==> s[k].count > s[i].count)
  {
    if n > 1 {
      ExtremaAre(s, n - 1);
    }
  }

  /** The left one of the two neighbours to merge: the smallest bucket and the smaller bucket beside it. */
  function MergePoint(s: seq<Bucket>): (m: nat)
    requires |s| >= 2
    ensures m + 1 < |s|
  {
    var k := Smallest(s, |s|);
    if k == 0 then 0
    else if k == |s| - 1 then k - 1
    else if s[k - 1].count < s[k + 1].count then k - 1
    else k
  }

  ghost predicate FirstLeast(s: seq<Bucket>, k: nat) {
    && k < |s|
    && (forall i :: 0 <= i < |s| ==> s[k].count <= s[i].count) && (forall i :: 0 <= i < k ==> s[k].count < s[i].count)
  }

  /** The first of the least buckets is merged with its lesser neighbour, or with the right one of two equals. */
  lemma {:induction false} MergesLeastWithLesser(s: seq<Bucket>)
    requires |s| >= 2
    ensures var m := MergePoint(s);
      if FirstLeast(s, m) then m > 0 ==> s[m + 1].count <= s[m - 1].count
      else FirstLeast(s, m + 1) && (m + 2 < |s| ==> s[m].count < s[m + 2].count)
  {
    ExtremaAre(s, |s|);
    var k, m := Smallest(s, |s|), MergePoint(s);
    hide Smallest;
    assert FirstLeast(s, k);
  }

  function Joint(a: Bucket, b: Bucket): Bucket { Bucket(a.low, b.high, a.count + b.count) }

  function MergeAt(s: seq<Bucket>, m: nat): (r: seq<Bucket>)
    requires m + 1 < |s|
    ensures |r| == |s| - 1
  {
    s[..m] + [Joint(s[m], s[m + 1])] + s[m + 2..]
  }

  /** Merging until at most max buckets are left. */
  function MergeAll(s: seq<Bucket>, max: nat): (r: seq<Bucket>)
    requires max >= 1
    decreases |s|
  {
    if |s| <= max then s else MergeAll(MergeAt(s, MergePoint(s)), max)
  }

  /** Merges buckets in place until at most maxBuckets are left; returns the greatest count. */
  method MergeHistBuckets(bucket: array<Bucket>, maxBuckets: nat, numBuckets: nat) returns (buckets: nat, biggest: nat)
    requires maxBuckets >= 1 && numBuckets <= bucket.Length && bucket.Length > 0 && Increasing(bucket[..numBuckets])
    modifies bucket
    ensures buckets <= numBuckets && bucket[..buckets] == MergeAll(old(bucket[..numBuckets]), maxBuckets)
    ensures bucket[numBuckets..] == old(bucket[numBuckets..])
    ensures numBuckets > 0 ==> buckets > 0 && biggest == bucket[Biggest(bucket[..buckets], buckets)].count
  {
    hide Increasing, MergeAt, Smallest, Biggest;
    buckets := numBuckets;
    var small, big := Extrema(bucket, buckets);
    while buckets > maxBuckets
      invariant buckets <= numBuckets && (numBuckets > 0 ==> buckets > 0) && Increasing(bucket[..buckets])
      invariant MergeAll(bucket[..buckets], maxBuckets) == MergeAll(old(bucket[..numBuckets]), maxBuckets)
      invariant bucket[numBuckets..] == old(bucket[numBuckets..])
      invariant buckets > 0 ==>
        small == Smallest(bucket[..buckets], buckets) && big == Biggest(bucket[..buckets], buckets)
      invariant buckets == 0 ==> small == big == 0
      decreases buckets
    {
      buckets, small, big := MergeSmallest(bucket, buckets, small, big);
    }
    biggest := bucket[big].count;
  }

  /** One round: merges the smallest bucket with a neighbour. */
  method MergeSmallest(
      bucket: array<Bucket>, n: nat, small0: nat, big0: nat) returns (buckets: nat, small: nat, big: nat)
    requires 2 <= n <= bucket.Length && Increasing(bucket[..n])
    requires small0 == Smallest(bucket[..n], n) && big0 == Biggest(bucket[..n], n)
    modifies bucket
    ensures buckets == n - 1 && bucket[..n - 1] == MergeAt(old(bucket[..n]), MergePoint(old(bucket[..n])))
    ensures Increasing(bucket[..n - 1]) && bucket[n..] == old(bucket[n..])
    ensures small == Smallest(bucket[..n - 1], n - 1) && big == Biggest(bucket[..n - 1], n - 1)
  {
    hide Increasing, Smallest, Biggest;
    ghost var s := bucket[..n];
    small, big, buckets := small0, big0, n;
    var last := buckets - 1;
    var merge;
    if small == 0 {
      merge := 1;
    } else if small == last {
      merge := last - 1;
    } else if bucket[small - 1].count < bucket[small + 1].count {
      merge := small - 1;
    } else {
      merge := small + 1;
    }
    assert merge - small == 1 || small - merge == 1;
    assert small < buckets && big < buckets && merge < buckets;
    if merge < small {
      bucket[merge] := Bucket(bucket[merge].low, bucket[small].high, bucket[merge].count + bucket[small].count);
    } else {
      bucket[small] := Bucket(bucket[small].low, bucket[merge].high, bucket[small].count + bucket[merge].count);
      merge := small;
    }
    assert merge == MergePoint(s) && bucket[merge] == Joint(s[merge], s[merge + 1]);
    MergeKeepsIncreasing(s, merge);
    assert bucket[merge].low != bucket[merge].high;
    buckets := buckets - 1;
    assert bucket[..merge + 1] + bucket[merge + 2..n] == MergeAt(s, merge);
    small, big := Remove(bucket, merge, buckets);
  }

  /** One pass for the smallest and the biggest bucket. */
  method Extrema(bucket: array<Bucket>, n: nat) returns (small: nat, big: nat)
    requires n <= bucket.Length
    ensures n > 0 ==> small == Smallest(bucket[..n], n) && big == Biggest(bucket[..n], n)
    ensures n == 0 ==> small == big == 0
  {
    small, big := 0, 0;
    for i := 0 to n
      invariant i > 0 ==> small == Smallest(bucket[..n], i) && big == Biggest(bucket[..n], i)
      invariant i == 0 ==> small == big == 0
    {
      if bucket[i].count < bucket[small].count { small := i; }
      if bucket[i].count > bucket[big].count { big := i; }
    }
  }

  lemma {:induction false} ExtremaStep(s: seq<Bucket>, i: nat, small: nat, big: nat)
    requires i < |s| && small <= i && big <= i
    requires if i == 0 then small == big == 0 else small == Smallest(s, i) && big == Biggest(s, i)
    ensures Smallest(s, i + 1) == if s[i].count < s[small].count then i else small
    ensures Biggest(s, i + 1) == if s[i].count > s[big].count then i else big
  {
  }

  /** Closes the gap after a merged bucket, and finds the new extrema in the same pass. */
  method Remove(bucket: array<Bucket>, merge: nat, n: nat) returns (small: nat, big: nat)
    requires merge < n < bucket.Length
    modifies bucket
    ensures bucket[..n] == old(bucket[..merge + 1]) + old(bucket[merge + 2..n + 1])
    ensures bucket[n..] == old(bucket[n..])
    ensures small == Smallest(bucket[..n], n) && big == Biggest(bucket[..n], n)
  {
    hide Smallest, Biggest;
    ghost var target := bucket[..merge + 1] + bucket[merge + 2..n + 1];
    small, big := 0, 0;
    for i := 0 to n
      invariant small <= i && big <= i && (i > 0 ==> small < i && big < i)
      invariant forall k :: 0 <= k < i ==> bucket[k] == target[k]
      invariant forall k :: i <= k < bucket.Length ==> bucket[k] == old(bucket[k])
      invariant i > 0 ==> small == Smallest(target, i) && big == Biggest(target, i)
    {
      if i > merge {
        bucket[i] := bucket[i + 1];
      }
      assert bucket[i] == target[i];
      ExtremaStep(target, i, small, big);
      if bucket[i].count < bucket[small].count { small := i; }
      if bucket[i].count > bucket[big].count { big := i; }
    }
    assert bucket[..n] == target;
  }

  lemma {:induction false} MergeKeepsIncreasing(s: seq<Bucket>, m: nat)
    requires Increasing(s) && m + 1 < |s|
    ensures Increasing(MergeAt(s, m)) && s[m].low != s[m + 1].high
  {
    var r := MergeAt(s, m);
    assert s[m].high < s[m + 1].low;
    forall i, j | 0 <= i < j < |r| ensures r[i].high < r[j].low {
      var a, b := if i < m then i else i + 1, if j <= m then j else j + 1;
      assert r[i].high == s[a].high && r[j].low == s[b].low && a < b;
    }
  }

  // ----- What merging does to the buckets

  lemma {:induction false} TotalAppend(s: seq<Bucket>, t: seq<Bucket>)
    ensures TotalCount(s + t) == TotalCount(s) + TotalCount(t)
  {
    if t == [] {
      assert s + t == s;
    } else {
      TotalAppend(s, t[..|t| - 1]);
      assert (s + t)[..|s + t| - 1] == s + t[..|t| - 1];
    }
  }

  /** r is s with groups of adjacent buckets made into one: cuts gives the first index of every group, and the
      end. A group's bucket runs from its first low to its last high and counts all of it. */
  ghost predicate Coarsens(s: seq<Bucket>, r: seq<Bucket>, cuts: seq<nat>) {
    && |cuts| == |r| + 1 && cuts[0] == 0 && cuts[|r|] == |s|
    && forall k :: 0 <= k < |r| ==> IsGroup(s, r, cuts, k)
  }

  ghost predicate IsGroup(s: seq<Bucket>, r: seq<Bucket>, cuts: seq<nat>, k: nat)
    requires k < |r| && |cuts| == |r| + 1
  {
    cuts[k] < cuts[k + 1] <= |s| && r[k] == Grouped(s, cuts[k], cuts[k + 1])
  }

  function Grouped(s: seq<Bucket>, a: nat, b: nat): Bucket
    requires a < b <= |s|
  {
    Bucket(s[a].low, s[b - 1].high, TotalCount(s[a..b]))
  }

  lemma {:induction false} GroupsJoin(s: seq<Bucket>, a: nat, b: nat, c: nat)
    requires a < b < c <= |s|
    ensures Joint(Grouped(s, a, b), Grouped(s, b, c)) == Grouped(s, a, c)
  {
    TotalAppend(s[a..b], s[b..c]);
    assert s[a..b] + s[b..c] == s[a..c];
  }

  lemma {:induction false} CoarsenStep(s: seq<Bucket>, r: seq<Bucket>, cuts: seq<nat>, m: nat)
    requires Coarsens(s, r, cuts) && m + 1 < |r|
    ensures Coarsens(s, MergeAt(r, m), cuts[..m + 1] + cuts[m + 2..])
  {
    hide Grouped, Joint;
    var q, c := MergeAt(r, m), cuts[..m + 1] + cuts[m + 2..];
    assert IsGroup(s, r, cuts, m) && IsGroup(s, r, cuts, m + 1);
    GroupsJoin(s, cuts[m], cuts[m + 1], cuts[m + 2]);
    forall k | 0 <= k < |q| ensures IsGroup(s, q, c, k) {
      if k > m {
        assert IsGroup(s, r, cuts, k + 1);
        assert c[k] == cuts[k + 1] && c[k + 1] == cuts[k + 2] && q[k] == r[k + 1];
      } else if k < m {
        assert IsGroup(s, r, cuts, k);
        assert c[k] == cuts[k] && c[k + 1] == cuts[k + 1] && q[k] == r[k];
      }
    }
  }

  lemma {:induction false} MergeAllCoarsens(
      s: seq<Bucket>, r: seq<Bucket>, cuts: seq<nat>, max: nat) returns (c: seq<nat>)
    requires max >= 1 && Coarsens(s, r, cuts) && Increasing(r)
    ensures var q := MergeAll(r, max);
      Coarsens(s, q, c) && Increasing(q) && |q| == (if |r| <= max then |r| else max)
    decreases |r|
  {
    hide Increasing, IsGroup, MergeAt;
    if |r| <= max {
      c := cuts;
    } else {
      var m := MergePoint(r);
      MergeKeepsIncreasing(r, m);
      CoarsenStep(s, r, cuts, m);
      c := MergeAllCoarsens(s, MergeAt(r, m), cuts[..m + 1] + cuts[m + 2..], max);
    }
  }

  lemma {:induction false} Finest(s: seq<Bucket>)
    ensures Coarsens(s, s, seq(|s| + 1, k => k))
  {
    var cuts: seq<nat> := seq(|s| + 1, k => k);
    forall k | 0 <= k < |s| ensures IsGroup(s, s, cuts, k) {
      TotalOne(s[k]);
      assert s[k..k + 1] == [s[k]];
    }
  }

  lemma {:induction false} MergeKeepsTotal(s: seq<Bucket>, m: nat)
    requires m + 1 < |s|
    ensures TotalCount(MergeAt(s, m)) == TotalCount(s)
  {
    hide TotalCount, Joint;
    var j := Joint(s[m], s[m + 1]);
    TotalAppend(s[..m] + [j], s[m + 2..]);
    TotalAppend(s[..m], [j]);
    TotalAppend(s[..m] + [s[m], s[m + 1]], s[m + 2..]);
    TotalAppend(s[..m], [s[m], s[m + 1]]);
    assert s[..m] + [s[m], s[m + 1]] + s[m + 2..] == s;
    TotalOfOneOrTwo(s[m], s[m + 1]);
  }

  lemma {:induction false} TotalOfOneOrTwo(a: Bucket, b: Bucket)
    ensures TotalCount([a, b]) == a.count + b.count == TotalCount([Joint(a, b)])
  {
    TotalOne(a);
    TotalOne(b);
    TotalOne(Joint(a, b));
    TotalAppend([a], [b]);
    assert [a] + [b] == [a, b];
  }

  lemma {:induction false} TotalOne(a: Bucket)
    ensures TotalCount([a]) == a.count
  {
    assert [a][..0] == [];
  }

  lemma {:induction false} MergeAllKeepsTotal(s: seq<Bucket>, max: nat)
    requires max >= 1
    ensures TotalCount(MergeAll(s, max)) == TotalCount(s)
    decreases |s|
  {
    hide MergeAt, TotalCount;
    if |s| > max {
      MergeKeepsTotal(s, MergePoint(s));
      MergeAllKeepsTotal(MergeAt(s, MergePoint(s)), max);
    }
  }

  /** Merging yields a coarsening of the buckets into groups of neighbours, as many as there were or the maximum,
      again disjoint and increasing, with the same total count. */
  lemma {:induction false} MergingCoarsens(s: seq<Bucket>, max: nat)
    requires max >= 1 && Increasing(s)
    ensures var r := MergeAll(s, max);
      && |r| == (if |s| <= max then |s| else max)
      && Increasing(r) && TotalCount(r) == TotalCount(s)
      && exists cuts :: Coarsens(s, r, cuts)
  {
    hide Increasing, Coarsens, TotalCount;
    Finest(s);
    var cuts := MergeAllCoarsens(s, s, seq(|s| + 1, k => k), max);
    MergeAllKeepsTotal(s, max);
  }

  // ----- Bars

  function BarLength(count: nat, scale: nat): nat
    requires scale > 0
  {
    var len := HIST_BAR_MAX * count / scale;
    if len < 1 then 1 else len
  }

  /** Bars are proportional to their counts, rounded down, but at least one character long. */
  lemma {:induction false} BarsProportional(count: nat, scale: nat)
    requires scale > 0
    ensures var len := BarLength(count, scale);
      && 40 * count < (len + 1) * scale && (len * scale <= 40 * count || (len == 1 && 40 * count < scale))
  {
    var q := HIST_BAR_MAX * count / scale;
    assert HIST_BAR_MAX * count == scale * q + HIST_BAR_MAX * count % scale;
    assert (q + 1) * scale == q * scale + scale;
  }

  /** Scaled by the greatest count, every bar has between 1 and 40 characters, and the longest has 40. */
  lemma {:induction false} BarsFit(s: seq<Bucket>)
    requires Increasing(s) && s != []
    ensures var k := Biggest(s, |s|);
      && s[k].count > 0 && BarLength(s[k].count, s[k].count) == HIST_BAR_MAX
      && forall i :: 0 <= i < |s| ==> 1 <= BarLength(s[i].count, s[k].count) <= HIST_BAR_MAX
  {
    ExtremaAre(s, |s|);
    var k := Biggest(s, |s|);
    var scale := s[k].count;
    Arith.DivModUnique(HIST_BAR_MAX * scale, scale, HIST_BAR_MAX, 0);
    forall i | 0 <= i < |s| ensures BarLength(s[i].count, scale) <= HIST_BAR_MAX {
      BarAtMost(s[i].count, scale);
    }
  }

  lemma {:induction false} BarAtMost(count: nat, scale: nat)
    requires scale > 0 && count <= scale
    ensures BarLength(count, scale) <= HIST_BAR_MAX
  {
    var q := HIST_BAR_MAX * count / scale;
    if q > HIST_BAR_MAX {
      Arith.MulMonotone(HIST_BAR_MAX + 1, q, scale);
    }
  }

  method Bars(bucket: array<Bucket>, buckets: nat, scale: nat) returns (bars: seq<nat>)
    requires buckets <= bucket.Length
    requires buckets > 0 ==>
      Increasing(bucket[..buckets]) && scale == bucket[Biggest(bucket[..buckets], buckets)].count
    ensures |bars| == buckets
    ensures forall i :: 0 <= i < buckets ==> 1 <= bars[i] <= HIST_BAR_MAX
    ensures buckets > 0 ==> scale > 0 && forall i :: 0 <= i < buckets ==> bars[i] == BarLength(bucket[i].count, scale)
  {
    hide Biggest, BarLength, Increasing;
    bars := [];
    if buckets == 0 { return; }
    BarsFit(bucket[..buckets]);
    for i := 0 to buckets
      invariant |bars| == i
      invariant forall k :: 0 <= k < i ==> bars[k] == BarLength(bucket[k].count, scale)
    {
      bars := bars + [BarLength(bucket[i].count, scale)];
    }
    forall i | 0 <= i < buckets ensures 1 <= bars[i] <= HIST_BAR_MAX {
      assert bucket[..buckets][i] == bucket[i];
    }
  }

  // ----- Showing the histogram

  /** The buckets in use. */
  function Used(s: seq<Bucket>): (r: seq<Bucket>)
    ensures |r| <= |s|
  {
    if s == [] then []
    else
      var u := Used(s[..|s| - 1]);
      if Last(s).low == INT_MAX then u else u + [Last(s)]
  }

  /** Moves the buckets in use to the front. */
  method Compact(bucket: array<Bucket>) returns (n: nat)
    modifies bucket
    ensures n <= bucket.Length && bucket[..n] == Used(old(bucket[..]))
  {
    ghost var s := bucket[..];
    n := 0;
    for i := 0 to bucket.Length
      invariant n <= i && bucket[..n] == Used(s[..i]) && bucket[i..] == s[i..]
    {
      assert s[..i + 1][..i] == s[..i] && bucket[i] == s[i..][0];
      if bucket[i].low == INT_MAX { continue; }
      bucket[n] := bucket[i];
      n := n + 1;
      assert bucket[..n] == bucket[..n - 1] + [s[i]];
    }
    assert s[..bucket.Length] == s;
  }

  ghost predicate IsBin(s: Bucket, rates: seq<nat>, target: nat, n: nat)
    requires target > 0
  {
    exists b :: 0 <= b < n && s == Summary(rates, target, b)
  }

  lemma {:induction false} UsedStep(rates: seq<nat>, target: nat, n: nat)
    requires target > 0 && n > 0
    ensures var (s, u, b) := (Summaries(rates, target, n), Used(Summaries(rates, target, n - 1)),
        Summary(rates, target, n - 1));
      && TotalCount(s) == TotalCount(Summaries(rates, target, n - 1)) + b.count
      && Used(s) == if b.low == INT_MAX then u else u + [b]
  {
    hide Summary;
    var s := Summaries(rates, target, n);
    assert s[..n - 1] == Summaries(rates, target, n - 1);
  }

  lemma {:induction false} UsedAreBins(rates: seq<nat>, target: nat, n: nat)
    requires target > 0
    ensures var u := Used(Summaries(rates, target, n)); forall i :: 0 <= i < |u| ==> IsBin(u[i], rates, target, n)
  {
    hide Summary, Used, Summaries;
    if n == 0 {
      assert |Summaries(rates, target, 0)| == 0;
    } else {
      UsedStep(rates, target, n);
      UsedAreBins(rates, target, n - 1);
      var s, u := Used(Summaries(rates, target, n)), Used(Summaries(rates, target, n - 1));
      forall i | 0 <= i < |s| ensures IsBin(s[i], rates, target, n) {
        if i < |u| {
          assert IsBin(u[i], rates, target, n - 1);
        }
      }
    }
  }

  /** The used bins of recorded rates are what merging needs, and lose no count. */
  lemma {:induction false} UsedBins(rates: seq<nat>, target: nat, n: nat)
    requires target > 0 && InRange(rates)
    ensures var u := Used(Summaries(rates, target, n));
      Increasing(u) && TotalCount(u) == TotalCount(Summaries(rates, target, n))
  {
    hide Summary, Increasing, Summaries, Used, IsBin, TotalCount, InRange;
    if n == 0 {
      assert Summaries(rates, target, 0) == [] && Used([]) == [] by { NoBins(rates, target); }
      NoneIncreasing();
    } else {
      UsedStep(rates, target, n);
      UsedBins(rates, target, n - 1);
      UsedAreBins(rates, target, n - 1);
      SummaryEnds(rates, target, n - 1);
      var u, b := Used(Summaries(rates, target, n - 1)), Summary(rates, target, n - 1);
      if b.low != INT_MAX {
        TotalAppend(u, [b]);
        TotalOne(b);
        forall i | 0 <= i < |u| ensures u[i].high < b.low {
          IncreasingCounts(u, i);
          EarlierBin(rates, target, u[i], n - 1);
        }
        IncreasingAppend(u, b);
      }
    }
  }

  lemma {:induction false} NoBins(rates: seq<nat>, target: nat)
    requires target > 0
    ensures Summaries(rates, target, 0) == [] && Used([]) == []
  {
  }

  lemma {:induction false} EarlierBin(rates: seq<nat>, target: nat, s: Bucket, n: nat)
    requires target > 0 && InRange(rates) && IsBin(s, rates, target, n) && s.count > 0
        && Summary(rates, target, n).count > 0
    ensures s.high < Summary(rates, target, n).low
  {
    hide Summary;
    var b :| 0 <= b < n && s == Summary(rates, target, b);
    RangesDisjoint(rates, target, b, n);
  }

  lemma {:induction false} NoneIncreasing()
    ensures Increasing([])
  {
  }

  lemma {:induction false} IncreasingCounts(s: seq<Bucket>, i: nat)
    requires Increasing(s) && i < |s|
    ensures s[i].count > 0
  {
  }

  lemma {:induction false} IncreasingAppend(s: seq<Bucket>, b: Bucket)
    requires Increasing(s) && b.low <= b.high && b.count > 0 && forall i :: 0 <= i < |s| ==> s[i].high < b.low
    ensures Increasing(s + [b])
  {
  }

  /** The buckets shown for a histogram and the lengths of their bars. */
  method ShowRateHistogram(hist: RateHistogram, maxBuckets: nat) returns (shown: seq<Bucket>, bars: seq<nat>)
    requires hist.Valid() && maxBuckets >= 1
    modifies hist.bucket
    ensures shown == MergeAll(Used(Summaries(hist.rates, hist.Target(), RATE_BINS)), maxBuckets)
    ensures |shown| <= maxBuckets && Increasing(shown) && TotalCount(shown) == hist.total
    ensures |bars| == |shown| && forall i :: 0 <= i < |bars| ==> 1 <= bars[i] <= HIST_BAR_MAX
    ensures forall i :: 0 <= i < |shown| ==>
      var scale := shown[Biggest(shown, |shown|)].count;
      scale > 0 && bars[i] == BarLength(shown[i].count, scale)
  {
    hide Biggest, Summaries, Used, MergeAll, TotalCount, Increasing, BarLength;
    UsedBins(hist.rates, hist.Target(), RATE_BINS);
    AllCounted(hist.rates, hist.Target());
    var n := Compact(hist.bucket);
    MergingCoarsens(hist.bucket[..n], maxBuckets);
    var buckets, scale := MergeHistBuckets(hist.bucket, maxBuckets, n);
    bars := Bars(hist.bucket, buckets, scale);
    shown := hist.bucket[..buckets];
  }
}

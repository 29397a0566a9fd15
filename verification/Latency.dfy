/** The latency histogram: its percentiles against the order statistics of the samples recorded. */
module Latency {
  import opened Bytes
  import opened MarketData

  const BIN_WIDTH_US: nat := 10
  const NUM_BINS: nat := 3000

  function Bin(x: u64): nat {
    Min(x / BIN_WIDTH_US, NUM_BINS - 1)
  }

  // ---------------------------------------------------------------------------
  // Order statistics
  // ---------------------------------------------------------------------------

  function CountBelow(samples: seq<u64>, x: nat): (c: nat)
    ensures c <= |samples|
  {
    if samples == [] then 0
    else
      var n := |samples| - 1;
      CountBelow(samples[..n], x) + if samples[n] < x then 1 else 0
  }

  lemma {:induction false} CountBelowMonotone(samples: seq<u64>, x: nat, y: nat)
    requires x <= y
    ensures CountBelow(samples, x) <= CountBelow(samples, y)
  {
    if samples != [] {
      CountBelowMonotone(samples[..|samples| - 1], x, y);
    }
  }

  lemma {:induction false} CountBelowAll(samples: seq<u64>, x: nat)
    requires forall i | 0 <= i < |samples| :: samples[i] < x
    ensures CountBelow(samples, x) == |samples|
  {
    if samples != [] {
      CountBelowAll(samples[..|samples| - 1], x);
    }
  }

  /** `x` is the `k`-th smallest sample, counting from one: fewer than `k` samples are below it and at
      least `k` are no larger. */
  predicate IsKth(samples: seq<u64>, k: nat, x: u64) {
    CountBelow(samples, x) < k <= CountBelow(samples, x + 1)
  }

  lemma KthUnique(samples: seq<u64>, k: nat, x: u64, y: u64)
    requires IsKth(samples, k, x) && IsKth(samples, k, y)
    ensures x == y
  {
    if x < y {
      CountBelowMonotone(samples, x + 1, y);
    } else if y < x {
      CountBelowMonotone(samples, y + 1, x);
    }
  }

  lemma {:induction false} CountBelowZero(samples: seq<u64>)
    ensures CountBelow(samples, 0) == 0
  {
    if samples != [] {
      CountBelowZero(samples[..|samples| - 1]);
    }
  }

  /** The largest value with fewer than `k` samples below it. */
  function KthUpTo(samples: seq<u64>, k: nat, x: u64): u64 {
    if x == 0 || CountBelow(samples, x) < k then x else KthUpTo(samples, k, x - 1)
  }

  function Kth(samples: seq<u64>, k: nat): u64 {
    KthUpTo(samples, k, U64_MAX)
  }

  lemma {:induction false} KthUpToIsKth(samples: seq<u64>, k: nat, x: u64)
    requires 1 <= k <= CountBelow(samples, x + 1)
    ensures IsKth(samples, k, KthUpTo(samples, k, x))
  {
    CountBelowZero(samples);
    if x > 0 && CountBelow(samples, x) >= k {
      KthUpToIsKth(samples, k, x - 1);
    }
  }

  /** Every rank has its sample. */
  lemma KthIsKth(samples: seq<u64>, k: nat)
    requires 1 <= k <= |samples|
    ensures IsKth(samples, k, Kth(samples, k)) && Kth(samples, k) in samples
  {
    CountBelowAll(samples, U64_MAX + 1);
    KthUpToIsKth(samples, k, U64_MAX);
    KthIsSample(samples, Kth(samples, k));
  }

  lemma {:induction false} KthIsSample(samples: seq<u64>, x: u64)
    requires CountBelow(samples, x) < CountBelow(samples, x + 1)
    ensures x in samples
  {
    var n := |samples| - 1;
    if samples[n] != x {
      KthIsSample(samples[..n], x);
    }
  }

  /** In any ascending order of the samples the `k`-th smallest stands at position `k`. */
  lemma KthInOrder(samples: seq<u64>, ordered: seq<u64>, k: nat)
    requires multiset(ordered) == multiset(samples) && 1 <= k <= |samples|
    requires forall i, j | 0 <= i < j < |ordered| :: ordered[i] <= ordered[j]
    ensures |ordered| == |samples| && Kth(samples, k) == ordered[k - 1]
  {
    var x: int := ordered[k - 1];
    assert |ordered| == |samples| by { assert |multiset(ordered)| == |ordered|; }
    CountByMultiset(samples, ordered, x);
    CountByMultiset(samples, ordered, x + 1);
    CountBelowSplit(ordered, k - 1, x);
    CountBelowSplit(ordered, k, x + 1);
    KthIsKth(samples, k);
    KthUnique(samples, k, x, Kth(samples, k));
  }

  /** Samples from position `p` on that are not below `x` are not counted; those before it may be. */
  lemma {:induction false} CountBelowSplit(s: seq<u64>, p: nat, x: nat)
    requires p <= |s|
    ensures (forall i | p <= i < |s| :: s[i] >= x) ==> CountBelow(s, x) <= p
    ensures (forall i | 0 <= i < p :: s[i] < x) ==> CountBelow(s, x) >= p
  {
    if p < |s| {
      var n := |s| - 1;
      CountBelowSplit(s[..n], p, x);
    } else if p > 0 {
      var n := |s| - 1;
      CountBelowSplit(s[..n], n, x);
    }
  }

  lemma {:induction false} CountByMultiset(a: seq<u64>, b: seq<u64>, x: nat)
    requires multiset(a) == multiset(b)
    ensures CountBelow(a, x) == CountBelow(b, x)
  {
    if a == [] {
      assert |multiset(b)| == |multiset(a)| == 0;
    } else {
      var n := |a| - 1;
      assert a[n] in multiset(b);
      var i :| 0 <= i < |b| && b[i] == a[n];
      var rest := b[..i] + b[i + 1..];
      assert a == a[..n] + [a[n]];
      assert b == b[..i] + [b[i]] + b[i + 1..];
      assert multiset(rest) == multiset(b) - multiset{b[i]};
      assert multiset(a[..n]) == multiset(a) - multiset{a[n]};
      CountByMultiset(a[..n], rest, x);
      CountBelowConcat(b[..i], b[i + 1..], x);
      CountBelowConcat(b[..i] + [b[i]], b[i + 1..], x);
      assert (b[..i] + [b[i]])[..i] == b[..i];
    }
  }

  lemma {:induction false} CountBelowConcat(a: seq<u64>, b: seq<u64>, x: nat)
    ensures CountBelow(a + b, x) == CountBelow(a, x) + CountBelow(b, x)
  {
    if b == [] {
      assert a + b == a;
    } else {
      var n := |b| - 1;
      CountBelowConcat(a, b[..n], x);
      assert (a + b)[..|a| + n] == a + b[..n];
    }
  }

  // ---------------------------------------------------------------------------
  // Bins
  // ---------------------------------------------------------------------------

  /** How many samples fall in the bins before bin `b`. */
  function Before(samples: seq<u64>, b: nat): (c: nat)
    ensures c <= |samples|
  {
    if b >= NUM_BINS then |samples| else CountBelow(samples, b * BIN_WIDTH_US)
  }

  function InBin(samples: seq<u64>, b: nat): nat
    requires b < NUM_BINS
  {
    CountBelowMonotone(samples, b * BIN_WIDTH_US, (b + 1) * BIN_WIDTH_US);
    Before(samples, b + 1) - Before(samples, b)
  }

  lemma InBinNext(samples: seq<u64>, x: u64, b: nat)
    requires b < NUM_BINS
    ensures InBin(samples + [x], b) == InBin(samples, b) + if b == Bin(x) then 1 else 0
  {
    assert (samples + [x])[..|samples|] == samples;
  }

  lemma InBinNone(b: nat)
    requires b < NUM_BINS
    ensures InBin([], b) == 0
  {
  }

  lemma BeforeMonotone(samples: seq<u64>, a: nat, b: nat)
    requires a <= b
    ensures Before(samples, a) <= Before(samples, b)
  {
    CountBelowMonotone(samples, a * BIN_WIDTH_US, b * BIN_WIDTH_US);
  }

  /** The bin at which the running count reaches `k` is the bin of the `k`-th smallest sample. */
  lemma BinOfKth(samples: seq<u64>, k: nat, b: nat)
    requires b < NUM_BINS && 1 <= k && Before(samples, b) < k <= Before(samples, b + 1)
    ensures b == Bin(Kth(samples, k))
  {
    KthIsKth(samples, k);
    var x := Kth(samples, k);
    var c := Bin(x);
    CountBelowMonotone(samples, c * BIN_WIDTH_US, x);
    if c < NUM_BINS - 1 {
      CountBelowMonotone(samples, x + 1, (c + 1) * BIN_WIDTH_US);
    }
    if b < c {
      BeforeMonotone(samples, b + 1, c);
    } else if c < b {
      BeforeMonotone(samples, c + 1, b);
    }
  }

  // ---------------------------------------------------------------------------
  // Percentiles
  // ---------------------------------------------------------------------------

  function Ceil(r: real): int {
    -((-r).Floor)
  }

  /** The rank that a percentile asks for. A negative product becomes zero when it is cast to `u64`. */
  function Target(count: nat, pct: real): nat {
    var t := Ceil(count as real * pct);
    if t < 0 then 0 else t
  }

  lemma TargetInRange(count: nat, pct: real)
    requires count > 0 && 0.0 < pct <= 1.0
    ensures 1 <= Target(count, pct) <= count
  {
    var product := count as real * pct;
    assert 0.0 < product <= count as real;
  }

  lemma TargetMonotone(count: nat, p: real, q: real)
    requires p <= q
    ensures Target(count, p) <= Target(count, q)
  {
    assert count as real * p <= count as real * q;
  }

  /** What the histogram reports for rank `k`. */
  function Reported(samples: seq<u64>, k: nat): nat {
    Bin(Kth(samples, k)) * BIN_WIDTH_US
  }

  /** The sample that a percentile `q` asks for: fewer than `q * n` of the `n` samples are below it and at least
      so many are no larger. */
  predicate AtPercentile(samples: seq<u64>, q: real, x: u64) {
    && x in samples
    && CountBelow(samples, x) as real < q * |samples| as real <= CountBelow(samples, x + 1) as real
  }

  /** The lower edge of the ten microseconds that `x` falls in; the last bin takes all from 29990 on. */
  predicate LowerEdge(r: nat, x: nat) {
    if x < 29990 then r % 10 == 0 && r <= x < r + 10 else r == 29990
  }

  lemma RankIsCeiling(count: nat, q: real)
    ensures var k := Ceil(count as real * q); k as real - 1.0 < count as real * q <= k as real
  {
  }

  lemma TargetAtPercentile(samples: seq<u64>, q: real, k: nat, x: u64)
    requires q > 0.0 && k == Target(|samples|, q) && IsKth(samples, k, x) && x in samples
    ensures AtPercentile(samples, q, x)
  {
    RankIsCeiling(|samples|, q);
    var product := |samples| as real * q;
    assert product == q * |samples| as real;
  }

  /** The sample behind a reported percentile, by its rank. */
  lemma PercentileSample(samples: seq<u64>, q: real) returns (x: u64)
    requires samples != [] && 0.0 < q <= 1.0
    ensures AtPercentile(samples, q, x) && LowerEdge(Reported(samples, Target(|samples|, q)), x)
  {
    var k := Target(|samples|, q);
    TargetInRange(|samples|, q);
    KthIsKth(samples, k);
    x := Kth(samples, k);
    TargetAtPercentile(samples, q, k, x);
  }

  /** Beyond the samples, and before them. */
  lemma TargetOutOfRange(count: nat, q: real)
    ensures q <= 0.0 || count == 0 ==> Target(count, q) == 0
    ensures q > 1.0 && count > 0 ==> Target(count, q) > count
  {
    RankIsCeiling(count, q);
    var product := count as real * q;
    if q <= 0.0 {
      assert product <= 0.0;
    } else if q > 1.0 && count > 0 {
      assert product > count as real;
    }
  }

  /** `r` is the lower edge of the sample that `q` asks for; for a `q` outside (0, 1], 0 or the largest sample. */
  ghost predicate ReportsPercentile(samples: seq<u64>, q: real, r: nat) {
    if samples == [] || q <= 0.0 then r == 0
    else if q > 1.0 then r in samples && forall x | x in samples :: x <= r
    else exists x: u64 :: AtPercentile(samples, q, x) && LowerEdge(r, x)
  }

  /** There is one such sample. */
  lemma PercentileUnique(samples: seq<u64>, q: real, x: u64, y: u64)
    requires AtPercentile(samples, q, x) && AtPercentile(samples, q, y)
    ensures x == y
  {
    if x < y {
      CountBelowMonotone(samples, x + 1, y);
    } else if y < x {
      CountBelowMonotone(samples, y + 1, x);
    }
  }

  lemma ReportedIsPercentile(samples: seq<u64>, q: real, max: u64)
    requires IsLargest(samples, max)
    ensures var k := Target(|samples|, q);
            ReportsPercentile(samples, q, if k == 0 then 0 else if k <= |samples| then Reported(samples, k) else max)
  {
    TargetOutOfRange(|samples|, q);
    if samples != [] && 0.0 < q <= 1.0 {
      TargetInRange(|samples|, q);
      var x := PercentileSample(samples, q);
    }
  }

  /** A reported percentile is less than one bin below the true one, unless that one is out of range. */
  lemma ReportedIsClose(samples: seq<u64>, pct: real)
    requires samples != [] && 0.0 < pct <= 1.0
    ensures var k := Target(|samples|, pct);
            && 1 <= k <= |samples| && Kth(samples, k) in samples
            && Reported(samples, k) <= Kth(samples, k)
            && (Kth(samples, k) < Reported(samples, k) + 10 <==> Kth(samples, k) < 30000)
  {
    TargetInRange(|samples|, pct);
    KthIsKth(samples, Target(|samples|, pct));
  }

  lemma KthMonotone(samples: seq<u64>, j: nat, k: nat)
    requires 1 <= j <= k <= |samples|
    ensures Kth(samples, j) <= Kth(samples, k)
  {
    KthIsKth(samples, j);
    KthIsKth(samples, k);
    if Kth(samples, k) < Kth(samples, j) {
      CountBelowMonotone(samples, Kth(samples, k) + 1, Kth(samples, j));
    }
  }

  lemma PercentilesInOrder(samples: seq<u64>, p: real, q: real)
    requires samples != [] && 0.0 < p <= q <= 1.0
    ensures Reported(samples, Target(|samples|, p)) <= Reported(samples, Target(|samples|, q))
  {
    TargetInRange(|samples|, p);
    TargetInRange(|samples|, q);
    TargetMonotone(|samples|, p, q);
    KthMonotone(samples, Target(|samples|, p), Target(|samples|, q));
  }

  // ---------------------------------------------------------------------------
  // The collector
  // ---------------------------------------------------------------------------

  function Sum(samples: seq<u64>): nat {
    if samples == [] then 0 else Sum(samples[..|samples| - 1]) + samples[|samples| - 1]
  }

  predicate IsSmallest(samples: seq<u64>, m: u64) {
    if samples == [] then m == U64_MAX else m in samples && forall x | x in samples :: m <= x
  }

  predicate IsLargest(samples: seq<u64>, m: u64) {
    if samples == [] then m == 0 else m in samples && forall x | x in samples :: x <= m
  }

  const U64_RANGE: nat := U64_MAX + 1

  function Average(samples: seq<u64>): real
    requires samples != []
  {
    Sum(samples) as real / |samples| as real
  }

  /** Unsigned addition as release builds do it. */
  function WrappingAdd(a: u64, b: u64): u64 {
    if a + b < U64_RANGE then a + b else a + b - U64_RANGE
  }

  lemma WrappedSumNext(samples: seq<u64>, x: u64)
    ensures Sum(samples + [x]) % U64_RANGE == WrappingAdd(Sum(samples) % U64_RANGE, x)
  {
    assert (samples + [x])[..|samples|] == samples;
    var s := Sum(samples);
    assert s == U64_RANGE * (s / U64_RANGE) + s % U64_RANGE;
    if s % U64_RANGE + x < U64_RANGE {
      RemainderUnique(s + x, s / U64_RANGE, s % U64_RANGE + x);
    } else {
      RemainderUnique(s + x, s / U64_RANGE + 1, s % U64_RANGE + x - U64_RANGE);
    }
  }

  lemma RemainderUnique(v: nat, q: nat, r: nat)
    requires v == U64_RANGE * q + r && r < U64_RANGE
    ensures v % U64_RANGE == r
  {
    QuotientUnique(v, U64_RANGE, q, r);
  }

  /** The average as the collector computes it: the sum wraps around. */
  function ReportedAverage(samples: seq<u64>): real
    requires samples != []
  {
    (Sum(samples) % U64_RANGE) as real / |samples| as real
  }

  /** It is the average exactly while the sum fits. */
  lemma AverageIsTrue(samples: seq<u64>)
    requires samples != []
    ensures ReportedAverage(samples) == Average(samples) <==> Sum(samples) < U64_RANGE
  {
    QuotientsEqual(Sum(samples) % U64_RANGE, Sum(samples), |samples|);
  }

  /** The two samples 2^64 - 1 and 1: an average of zero is reported. */
  lemma AverageWraps()
    ensures ReportedAverage([U64_MAX, 1]) == 0.0 && Average([U64_MAX, 1]) > 0.0
  {
    assert [U64_MAX, 1][..1] == [U64_MAX];
    assert Sum([U64_MAX, 1]) == Sum([U64_MAX]) + 1 == U64_RANGE;
  }

  lemma QuotientsEqual(a: nat, b: nat, n: nat)
    requires n > 0
    ensures a as real / n as real == b as real / n as real <==> a == b
  {
    var x, y, r := a as real, b as real, n as real;
    assert x == (x / r) * r && y == (y / r) * r;
  }

  datatype LatencyStats = LatencyStats(count: u64, minUs: u64, maxUs: u64, avgUs: real, p50Us: nat, p90Us: nat,
                                       p99Us: nat)

  class LatencyCollector {
    const bins: array<nat>
    var count: u64
    var sum: u64
    var min: u64
    var max: u64
    /** Everything recorded since the last reset. */
    ghost var samples: seq<u64>

    ghost predicate Valid()
      reads this, bins
    {
      && bins.Length == NUM_BINS && (forall b | 0 <= b < NUM_BINS :: bins[b] == InBin(samples, b))
      && count == |samples| && sum == Sum(samples) % U64_RANGE
      && IsSmallest(samples, min) && IsLargest(samples, max)
    }

    constructor ()
      ensures Valid() && fresh(bins) && samples == []
    {
      bins := new nat[NUM_BINS](_ => 0);
      count, sum, min, max := 0, 0, U64_MAX, 0;
      samples := [];
      new;
      forall b | 0 <= b < NUM_BINS ensures bins[b] == InBin(samples, b) { InBinNone(b); }
    }

    method Record(latencyUs: u64)
      requires Valid() && count < U64_MAX
      modifies this, bins
      ensures Valid() && samples == old(samples) + [latencyUs]
    {
      count := count + 1;
      WrappedSumNext(samples, latencyUs);
      sum := WrappingAdd(sum, latencyUs);
      min := Min(min, latencyUs);
      max := Max(max, latencyUs);
      var bin := Min(latencyUs / BIN_WIDTH_US, NUM_BINS - 1);
      bins[bin] := bins[bin] + 1;
      samples := samples + [latencyUs];
      forall b | 0 <= b < NUM_BINS ensures bins[b] == InBin(samples, b) {
        InBinNext(old(samples), latencyUs, b);
      }
    }

    method Reset()
      requires Valid()
      modifies this, bins
      ensures Valid() && samples == []
    {
      forall b | 0 <= b < bins.Length {
        bins[b] := 0;
      }
      count, sum, min, max := 0, 0, U64_MAX, 0;
      samples := [];
      forall b | 0 <= b < NUM_BINS ensures bins[b] == InBin(samples, b) { InBinNone(b); }
    }

    /** For a rank among the samples the result is the lower edge of that sample's bin; the largest
        sample is only given for a rank beyond them. */
    method Percentile(pct: real) returns (r: nat)
      requires Valid()
      ensures var k := Target(|samples|, pct);
              r == if k == 0 then 0 else if k <= |samples| then Reported(samples, k) else max
      ensures ReportsPercentile(samples, pct, r)
    {
      ReportedIsPercentile(samples, pct, max);
      var target := Target(count, pct);
      var cumulative := 0;
      CountBelowZero(samples);
      for i := 0 to NUM_BINS
        invariant cumulative == Before(samples, i) && (i > 0 ==> cumulative < target)
      {
        cumulative := cumulative + bins[i];
        if cumulative >= target {
          if target > 0 {
            BinOfKth(samples, target, i);
          }
          return i * BIN_WIDTH_US;
        }
      }
      r := max;
    }

    method Stats() returns (stats: Option<LatencyStats>)
      requires Valid()
      ensures stats.None? <==> samples == []
      ensures stats.Some? ==>
        var s := stats.value;
        && s.count == |samples| && s.avgUs == ReportedAverage(samples)
        && IsSmallest(samples, s.minUs) && IsLargest(samples, s.maxUs)
        && s.p50Us == Reported(samples, Target(|samples|, 0.50))
        && s.p90Us == Reported(samples, Target(|samples|, 0.90))
        && s.p99Us == Reported(samples, Target(|samples|, 0.99))
        && ReportsPercentile(samples, 0.50, s.p50Us) && ReportsPercentile(samples, 0.90, s.p90Us)
        && ReportsPercentile(samples, 0.99, s.p99Us)
        && s.p50Us <= s.p90Us <= s.p99Us <= s.maxUs
    {
      if count == 0 {
        return None;
      }
      var avg := sum as real / count as real;
      var p50 := Percentile(0.50);
      var p90 := Percentile(0.90);
      var p99 := Percentile(0.99);
      ReportedIsClose(samples, 0.50);
      ReportedIsClose(samples, 0.90);
      ReportedIsClose(samples, 0.99);
      PercentilesInOrder(samples, 0.50, 0.90);
      PercentilesInOrder(samples, 0.90, 0.99);
      stats := Some(LatencyStats(count, min, max, avg, p50, p90, p99));
    }
  }
}

/**
 Repeat-run statistics of one scenario: the stored samples with their median and median
 absolute deviation (MAD), and the noise floor derived from them.
 */
module Noise {
  import opened Prelude
  import opened Ordering

  /** Samples required before the statistics may widen a budget. */
  const MIN_NOISE_SAMPLES := 5

  /** The stored `n` is a `u32` cast of the sample count. */
  const U32_RANGE := 0x1_0000_0000

  datatype NoiseStats = NoiseStats(n: nat, median: real, mad: real, samples: seq<real>)

  predicate RealLeq(a: real, b: real) {
    a <= b
  }

  function MedianOfSorted(sorted: seq<real>): real {
    var n := |sorted|;
    if n == 0 then 0.0
    else if n % 2 == 1 then sorted[n / 2]
    else (sorted[n / 2 - 1] + sorted[n / 2]) / 2.0
  }

  function Median(samples: seq<real>): real {
    MedianOfSorted(Sort(samples, RealLeq))
  }

  function Deviations(samples: seq<real>, centre: real): (r: seq<real>)
    ensures |r| == |samples|
  {
    if samples == [] then [] else [Abs(samples[0] - centre)] + Deviations(samples[1..], centre)
  }

  function FromSamples(samples: seq<real>): NoiseStats {
    var sorted := Sort(samples, RealLeq);
    var median := MedianOfSorted(sorted);
    NoiseStats(|sorted| % U32_RANGE, median, Median(Deviations(sorted, median)), sorted)
  }

  predicate AllPositive(samples: seq<real>) {
    forall i :: 0 <= i < |samples| ==> samples[i] > 0.0
  }

  /** Statistics recomputed from their own samples when a file is loaded. */
  function Revalidated(stats: NoiseStats): NoiseStats {
    if |stats.samples| >= MIN_NOISE_SAMPLES && AllPositive(stats.samples)
    then FromSamples(stats.samples)
    else NoiseStats(|stats.samples| % U32_RANGE, 0.0, 0.0, stats.samples)
  }

  predicate IsUsable(stats: NoiseStats) {
    && stats.n >= MIN_NOISE_SAMPLES
    && stats.n == |stats.samples|
    && stats.median > 0.0
    && stats.mad >= 0.0
  }

  function FloorPct(stats: NoiseStats): real {
    if IsUsable(stats) then 3.0 * stats.mad / stats.median * 100.0 else 0.0
  }

  // ------------------------------------------------------------------
  // The statistics are a function of the multiset of samples
  // ------------------------------------------------------------------

  lemma {:induction false} FromSamplesForgetsOrder(a: seq<real>, b: seq<real>)
    requires multiset(a) == multiset(b)
    ensures FromSamples(a) == FromSamples(b)
  {
    SortForgetsExactlyOrder(a, b, RealLeq);
  }

  lemma {:induction false} FromSamplesKeepsSamples(samples: seq<real>)
    ensures multiset(FromSamples(samples).samples) == multiset(samples)
    ensures AllPositive(samples) ==> AllPositive(FromSamples(samples).samples)
  {
    var sorted := Sort(samples, RealLeq);
    SameElements(samples, sorted);
    forall i | AllPositive(samples) && 0 <= i < |sorted| ensures sorted[i] > 0.0 {
      assert sorted[i] in samples;
    }
  }

  /** Loading a file leaves derived statistics of at least five positive samples as they are. */
  lemma {:induction false} RevalidatedKeepsDerivedStats(samples: seq<real>)
    requires AllPositive(samples) && |samples| >= MIN_NOISE_SAMPLES
    ensures Revalidated(FromSamples(samples)) == FromSamples(samples)
  {
    FromSamplesKeepsSamples(samples);
    FromSamplesForgetsOrder(samples, FromSamples(samples).samples);
  }

  // ------------------------------------------------------------------
  // Order statistics by counting
  // ------------------------------------------------------------------

  ghost function CountBelow(s: seq<real>, b: real): (c: nat)
    ensures c <= |s|
  {
    if s == [] then 0 else (if s[0] < b then 1 else 0) + CountBelow(s[1..], b)
  }

  ghost function CountAbove(s: seq<real>, b: real): (c: nat)
    ensures c <= |s|
  {
    if s == [] then 0 else (if s[0] > b then 1 else 0) + CountAbove(s[1..], b)
  }

  lemma {:induction false} CountInsert(x: real, s: seq<real>, b: real)
    ensures CountBelow(Insert(x, s, RealLeq), b) == CountBelow([x] + s, b)
    ensures CountAbove(Insert(x, s, RealLeq), b) == CountAbove([x] + s, b)
  {
    assert ([x] + s)[1..] == s;
    if s != [] && !RealLeq(x, s[0]) {
      CountInsert(x, s[1..], b);
      var tail := Insert(x, s[1..], RealLeq);
      assert ([s[0]] + tail)[1..] == tail;
      assert ([x] + s[1..])[1..] == s[1..];
    }
  }

  lemma {:induction false} CountSort(s: seq<real>, b: real)
    ensures CountBelow(Sort(s, RealLeq), b) == CountBelow(s, b)
    ensures CountAbove(Sort(s, RealLeq), b) == CountAbove(s, b)
  {
    if s != [] {
      var tail := Sort(s[1..], RealLeq);
      CountSort(s[1..], b);
      CountInsert(s[0], tail, b);
      assert ([s[0]] + tail)[1..] == tail;
    }
  }

  lemma NoneBelow(s: seq<real>, b: real)
    requires forall i :: 0 <= i < |s| ==> s[i] >= b
    ensures CountBelow(s, b) == 0
  {
  }

  lemma AllAbove(s: seq<real>, b: real)
    requires forall i :: 0 <= i < |s| ==> s[i] > b
    ensures CountAbove(s, b) == |s|
  {
  }

  lemma {:induction false} SortedFromBelow(s: seq<real>, b: real, i: nat)
    requires Sorted(s, RealLeq) && i < |s|
    ensures s[i] >= b <==> i >= CountBelow(s, b)
  {
    if s[0] >= b {
      forall k | 0 < k < |s| ensures s[k] >= b { assert RealLeq(s[0], s[k]); }
      NoneBelow(s, b);
    } else if i > 0 {
      SortedFromBelow(s[1..], b, i - 1);
    }
  }

  lemma {:induction false} SortedFromAbove(s: seq<real>, b: real, i: nat)
    requires Sorted(s, RealLeq) && i < |s|
    ensures s[i] <= b <==> i < |s| - CountAbove(s, b)
  {
    if s[0] > b {
      forall k | 0 < k < |s| ensures s[k] > b { assert RealLeq(s[0], s[k]); }
      AllAbove(s, b);
    } else if i > 0 {
      SortedFromAbove(s[1..], b, i - 1);
    }
  }

  lemma RealOrder()
    ensures TotalOrder(RealLeq)
  {
  }

  lemma {:induction false} MedianAtLeast(t: seq<real>, b: real)
    requires Sorted(t, RealLeq) && 2 * CountBelow(t, b) < |t|
    ensures MedianOfSorted(t) >= b
  {
    var n := |t|;
    SortedFromBelow(t, b, n / 2);
    if n % 2 == 0 {
      SortedFromBelow(t, b, n / 2 - 1);
    }
  }

  lemma {:induction false} MedianAtMost(t: seq<real>, b: real)
    requires Sorted(t, RealLeq) && 2 * CountAbove(t, b) < |t|
    ensures MedianOfSorted(t) <= b
  {
    var n := |t|;
    SortedFromAbove(t, b, n / 2);
    if n % 2 == 0 {
      SortedFromAbove(t, b, n / 2 - 1);
    }
  }

  /** When fewer than half the samples lie on one side of a bound, neither does the median. */
  lemma {:induction false} MedianFollowsMajority(s: seq<real>, b: real)
    ensures 2 * CountBelow(s, b) < |s| ==> Median(s) >= b
    ensures 2 * CountAbove(s, b) < |s| ==> Median(s) <= b
  {
    var t := Sort(s, RealLeq);
    RealOrder();
    SortIsSorted(s, RealLeq);
    CountSort(s, b);
    if 2 * CountBelow(s, b) < |s| {
      MedianAtLeast(t, b);
    }
    if 2 * CountAbove(s, b) < |s| {
      MedianAtMost(t, b);
    }
  }

  lemma {:induction false} SortedMedianSplits(t: seq<real>)
    requires Sorted(t, RealLeq) && t != []
    ensures 2 * CountBelow(t, MedianOfSorted(t)) <= |t|
    ensures 2 * CountAbove(t, MedianOfSorted(t)) <= |t|
  {
    var n, m := |t|, MedianOfSorted(t);
    SortedFromBelow(t, m, n / 2);
    if n % 2 == 0 {
      assert RealLeq(t[n / 2 - 1], t[n / 2]);
      SortedFromAbove(t, m, n / 2 - 1);
    } else {
      SortedFromAbove(t, m, n / 2);
    }
  }

  /** The defining property of a median: at most half the samples lie strictly on either side. */
  lemma {:induction false} MedianSplitsSamples(s: seq<real>)
    ensures 2 * CountBelow(s, Median(s)) <= |s|
    ensures 2 * CountAbove(s, Median(s)) <= |s|
  {
    var t := Sort(s, RealLeq);
    RealOrder();
    SortIsSorted(s, RealLeq);
    CountSort(s, Median(s));
    if t != [] {
      SortedMedianSplits(t);
    }
  }

  // ------------------------------------------------------------------
  // Minority outliers
  // ------------------------------------------------------------------

  /** How many positions of `t` hold another value than `s`. */
  ghost function Differences(s: seq<real>, t: seq<real>): (d: nat)
    requires |s| == |t|
    ensures d <= |s|
  {
    if s == [] then 0 else (if s[0] != t[0] then 1 else 0) + Differences(s[1..], t[1..])
  }

  /** Every sample the replacement left alone lies in `[lo, hi]`. */
  ghost predicate UntouchedWithin(s: seq<real>, t: seq<real>, lo: real, hi: real)
    requires |s| == |t|
  {
    forall i :: 0 <= i < |s| && s[i] == t[i] ==> lo <= s[i] <= hi
  }

  lemma {:induction false} OutsideIsReplaced(s: seq<real>, t: seq<real>, lo: real, hi: real)
    requires |s| == |t| && UntouchedWithin(s, t, lo, hi)
    ensures CountBelow(t, lo) <= Differences(s, t)
    ensures CountAbove(t, hi) <= Differences(s, t)
    ensures lo <= hi ==> CountBelow(t, lo) + CountAbove(t, hi) <= Differences(s, t)
  {
    if s != [] {
      assert UntouchedWithin(s[1..], t[1..], lo, hi) by {
        forall i | 0 <= i < |s[1..]| && s[1..][i] == t[1..][i] ensures lo <= s[1..][i] <= hi {
          assert s[i + 1] == t[i + 1];
        }
      }
      OutsideIsReplaced(s[1..], t[1..], lo, hi);
    }
  }

  /** A sample deviates by more than `r` exactly when it lies outside `[m - r, m + r]`. */
  lemma {:induction false} CountDeviations(s: seq<real>, m: real, r: real)
    requires r >= 0.0
    ensures CountAbove(Deviations(s, m), r) == CountBelow(s, m - r) + CountAbove(s, m + r)
  {
    if s != [] {
      CountDeviations(s[1..], m, r);
      assert Deviations(s, m)[1..] == Deviations(s[1..], m);
    }
  }

  lemma DeviationsNonNegative(s: seq<real>, m: real)
    ensures forall i :: 0 <= i < |s| ==> Deviations(s, m)[i] >= 0.0
  {
  }

  lemma {:induction false} MadIsNonNegative(samples: seq<real>)
    ensures FromSamples(samples).mad >= 0.0
  {
    var stats := FromSamples(samples);
    var d := Deviations(stats.samples, stats.median);
    DeviationsNonNegative(stats.samples, stats.median);
    NoneBelow(d, 0.0);
    MedianFollowsMajority(d, 0.0);
  }

  lemma {:induction false} FewFarDeviations(t: seq<real>, m: real, r: real)
    requires r >= 0.0 && 2 * (CountBelow(t, m - r) + CountAbove(t, m + r)) < |t|
    ensures Median(Deviations(t, m)) <= r
  {
    CountDeviations(t, m, r);
    MedianFollowsMajority(Deviations(t, m), r);
  }

  lemma {:induction false} MadAtMost(samples: seq<real>, m: real, r: real)
    requires r >= 0.0 && m == Median(samples)
    requires 2 * (CountBelow(samples, m - r) + CountAbove(samples, m + r)) < |samples|
    ensures FromSamples(samples).mad <= r
  {
    CountSort(samples, m - r);
    CountSort(samples, m + r);
    FewFarDeviations(Sort(samples, RealLeq), m, r);
  }

  lemma {:induction false} MedianStaysAmongUntouched(s: seq<real>, t: seq<real>, lo: real, hi: real)
    requires |s| == |t| && 2 * Differences(s, t) < |s|
    requires UntouchedWithin(s, t, lo, hi)
    ensures lo <= Median(t) <= hi
  {
    OutsideIsReplaced(s, t, lo, hi);
    MedianFollowsMajority(t, lo);
    MedianFollowsMajority(t, hi);
  }

  /**
   Replacing fewer than half of the samples by anything at all leaves the median among the
   untouched samples and the MAD at most their range.
   */
  lemma {:induction false} MinorityOutliersAreHarmless(s: seq<real>, t: seq<real>, lo: real, hi: real)
    requires |s| == |t| && 2 * Differences(s, t) < |s|
    requires UntouchedWithin(s, t, lo, hi)
    ensures lo <= FromSamples(t).median <= hi
    ensures 0.0 <= FromSamples(t).mad <= hi - lo
  {
    var m, r := Median(t), hi - lo;
    MedianStaysAmongUntouched(s, t, lo, hi);
    OutsideIsReplaced(s, t, m - r, m + r);
    MadAtMost(t, m, r);
    MadIsNonNegative(t);
  }

  lemma QuotientBound(a: real, m: real, b: real, lo: real)
    requires 0.0 <= a <= b && 0.0 < lo <= m
    ensures 0.0 <= a / m <= b / lo
  {
    var q := b / lo;
    assert q * lo == b;
    assert q * m >= q * lo;
    assert a / m * m == a;
    assert (q - a / m) * m >= 0.0;
  }

  lemma FloorAsRatio(mad: real, median: real)
    requires median > 0.0
    ensures 3.0 * mad / median * 100.0 == 300.0 * (mad / median)
  {
    var q := mad / median;
    assert 3.0 * mad == 3.0 * q * median;
  }

  /** The noise floor such samples contribute is at most `300 * range / min` percent. */
  lemma {:induction false} MinorityOutliersBoundFloor(s: seq<real>, t: seq<real>, lo: real, hi: real)
    requires |s| == |t| && 2 * Differences(s, t) < |s|
    requires UntouchedWithin(s, t, lo, hi) && 0.0 < lo
    ensures 0.0 <= FloorPct(FromSamples(t)) <= 300.0 * ((hi - lo) / lo)
  {
    var stats := FromSamples(t);
    MinorityOutliersAreHarmless(s, t, lo, hi);
    QuotientBound(stats.mad, stats.median, hi - lo, lo);
    FloorAsRatio(stats.mad, stats.median);
  }
}

/**
 The stored statistics stated by counting samples, without sorting anything: which values the
 median and the MAD are, and how wide the noise floor has to be.
 */
module NoiseStatistics {
  import opened Prelude
  import opened Ordering
  import opened Noise

  // ------------------------------------------------------------------
  // Order statistics and medians
  // ------------------------------------------------------------------

  /** `x` is the k-th smallest of `s`, counting from 0. */
  ghost predicate IsKth(s: seq<real>, k: int, x: real) {
    x in s && CountBelow(s, x) <= k && CountAbove(s, x) <= |s| - 1 - k
  }

  /** The two values in the middle of an even number. */
  ghost predicate MiddlePair(s: seq<real>, lo: real, hi: real) {
    IsKth(s, |s| / 2 - 1, lo) && IsKth(s, |s| / 2, hi)
  }

  /** The middle value of an odd number of values, the midpoint of the two middle ones of an even number. */
  ghost predicate IsMedian(s: seq<real>, m: real) {
    var h := |s| / 2;
    if s == [] then m == 0.0
    else if |s| % 2 == 1 then IsKth(s, h, m)
    else exists lo, hi :: MiddlePair(s, lo, hi) && m == (lo + hi) / 2.0
  }

  lemma {:induction false} CountsOverlap(s: seq<real>, x: real, y: real)
    requires x < y
    ensures |s| <= CountAbove(s, x) + CountBelow(s, y)
  {
    if s != [] {
      CountsOverlap(s[1..], x, y);
    }
  }

  lemma KthIsUnique(s: seq<real>, k: int, x: real, y: real)
    requires IsKth(s, k, x) && IsKth(s, k, y)
    ensures x == y
  {
    if x < y {
      CountsOverlap(s, x, y);
    } else if y < x {
      CountsOverlap(s, y, x);
    }
  }

  lemma MedianIsUnique(s: seq<real>, m: real, m': real)
    requires IsMedian(s, m) && IsMedian(s, m')
    ensures m == m'
  {
    var h := |s| / 2;
    if s != [] && |s| % 2 == 1 {
      KthIsUnique(s, h, m, m');
    } else if s != [] {
      var lo, hi :| MiddlePair(s, lo, hi) && m == (lo + hi) / 2.0;
      var lo', hi' :| MiddlePair(s, lo', hi') && m' == (lo' + hi') / 2.0;
      KthIsUnique(s, h - 1, lo, lo');
      KthIsUnique(s, h, hi, hi');
    }
  }

  lemma {:induction false} SortedKth(s: seq<real>, k: nat)
    requires k < |s|
    ensures IsKth(s, k, Sort(s, RealLeq)[k])
  {
    var t := Sort(s, RealLeq);
    RealOrder();
    SortIsSorted(s, RealLeq);
    SortedFromBelow(t, t[k], k);
    SortedFromAbove(t, t[k], k);
    CountSort(s, t[k]);
    SameElements(s, t);
    assert t[k] in t;
  }

  /** `Median` computes the median. */
  lemma {:induction false} MedianIsExact(s: seq<real>)
    ensures IsMedian(s, Median(s))
  {
    hide Sort;
    if s != [] {
      SortedKth(s, |s| / 2);
      if |s| % 2 == 0 {
        SortedKth(s, |s| / 2 - 1);
        var t := Sort(s, RealLeq);
        assert MiddlePair(s, t[|s| / 2 - 1], t[|s| / 2]);
      }
    }
  }

  // ------------------------------------------------------------------
  // The derived statistics
  // ------------------------------------------------------------------

  /** How far each sample is from `m`. */
  ghost function Distances(s: seq<real>, m: real): seq<real> {
    seq(|s|, i requires 0 <= i < |s| => if s[i] < m then m - s[i] else s[i] - m)
  }

  function DistanceTo(m: real): real -> real {
    (x: real) => Abs(x - m)
  }

  lemma {:induction false} DeviationsAreDistances(s: seq<real>, m: real)
    ensures Deviations(s, m) == Distances(s, m)
    ensures Deviations(s, m) == Map(DistanceTo(m), s)
  {
    hide Map;
    if s != [] {
      DeviationsAreDistances(s[1..], m);
      assert Distances(s, m)[1..] == Distances(s[1..], m);
      assert forall i :: 0 <= i < |s| ==> Deviations(s, m)[i] == Distances(s, m)[i];
    }
  }

  /**
   Everything `from_samples` derives: the count, the samples in ascending order, their median,
   and the median of their distances from it.
   */
  lemma {:induction false} StatsAreExact(samples: seq<real>)
    ensures var stats := FromSamples(samples);
            && stats.n == |samples| % 0x1_0000_0000
            && multiset(stats.samples) == multiset(samples)
            && (forall i, j :: 0 <= i < j < |stats.samples| ==> stats.samples[i] <= stats.samples[j])
            && IsMedian(samples, stats.median)
            && IsMedian(Distances(samples, stats.median), stats.mad)
  {
    hide Sort, Map;
    var sorted, stats := Sort(samples, RealLeq), FromSamples(samples);
    RealOrder();
    SortIsSorted(samples, RealLeq);
    assert forall i, j :: 0 <= i < j < |sorted| ==> RealLeq(sorted[i], sorted[j]);
    MedianIsExact(samples);
    DeviationsAreDistances(samples, stats.median);
    DeviationsAreDistances(sorted, stats.median);
    MapPermutes(DistanceTo(stats.median), sorted, samples);
    SortForgetsExactlyOrder(Deviations(sorted, stats.median), Deviations(samples, stats.median), RealLeq);
    MedianIsExact(Deviations(samples, stats.median));
  }

  lemma MedianSplits(s: seq<real>, m: real)
    requires IsMedian(s, m) && s != []
    ensures 2 * CountBelow(s, m) <= |s| && 2 * CountAbove(s, m) <= |s|
    ensures |s| % 2 == 1 ==> m in s
  {
    MedianIsExact(s);
    MedianIsUnique(s, m, Median(s));
    MedianSplitsSamples(s);
  }

  /**
   The MAD from both sides: at most half of the samples are strictly farther from the median
   than the MAD, at most half are strictly nearer, and for an odd number of samples it is the
   distance of one of them.
   */
  lemma {:induction false} MadSplitsDistances(samples: seq<real>)
    requires samples != []
    ensures var stats := FromSamples(samples);
            var d := Distances(samples, stats.median);
            && 2 * CountAbove(d, stats.mad) <= |samples|
            && 2 * CountBelow(d, stats.mad) <= |samples|
            && (|samples| % 2 == 1 ==> stats.mad in d)
  {
    StatsAreExact(samples);
    hide FromSamples;
    MedianSplits(Distances(samples, FromSamples(samples).median), FromSamples(samples).mad);
  }

  /** When fewer than half of the samples are nearer to the median than `d`, the MAD is at least `d`. */
  lemma {:induction false} MadAtLeast(samples: seq<real>, d: real)
    requires 2 * CountBelow(Distances(samples, FromSamples(samples).median), d) < |samples|
    ensures FromSamples(samples).mad >= d
  {
    var stats := FromSamples(samples);
    var distances := Distances(samples, stats.median);
    StatsAreExact(samples);
    hide FromSamples;
    MedianIsExact(distances);
    MedianIsUnique(distances, stats.mad, Median(distances));
    MedianFollowsMajority(distances, d);
  }

  lemma {:induction false} EnoughSamplesAreUsable(samples: seq<real>)
    requires 5 <= |samples| < 0x1_0000_0000 && FromSamples(samples).median > 0.0
    ensures IsUsable(FromSamples(samples))
  {
    var stats := FromSamples(samples);
    StatsAreExact(samples);
    MadIsNonNegative(samples);
    hide FromSamples;
    assert |stats.samples| == |multiset(stats.samples)| == |multiset(samples)| == |samples|;
  }

  /** From five samples on the floor is three MADs, as a percentage of the median. */
  lemma FloorOfUsable(stats: NoiseStats)
    requires IsUsable(stats)
    ensures FloorPct(stats) == 300.0 * (stats.mad / stats.median)
    ensures FloorPct(stats) * stats.median == 300.0 * stats.mad
  {
    FloorAsRatio(stats.mad, stats.median);
    TimesQuotient(300.0, stats.mad, stats.median);
  }

  lemma TimesQuotient(c: real, a: real, m: real)
    requires m != 0.0
    ensures c * (a / m) * m == c * a
  {
    assert a / m * m == a;
    assert c * (a / m) * m == c * (a / m * m);
  }

  /** Fewer than five samples widen nothing. */
  lemma FewSamplesHaveNoFloor(samples: seq<real>)
    requires |samples| < 5
    ensures FloorPct(FromSamples(samples)) == 0.0
  {
    hide Sort;
  }

  lemma PositiveByElement(s: seq<real>)
    ensures AllPositive(s) <==> forall x :: x in s ==> x > 0.0
  {
    if forall x :: x in s ==> x > 0.0 {
      forall i | 0 <= i < |s| ensures s[i] > 0.0 {
        assert s[i] in s;
      }
    }
  }

  // ------------------------------------------------------------------
  // Loading
  // ------------------------------------------------------------------

  /**
   A loaded file's statistics depend on its samples alone, and are unusable unless there are at
   least five samples, all positive.
   */
  lemma LoadedStatsComeFromSamples(a: NoiseStats, b: NoiseStats)
    requires a.samples == b.samples
    ensures Revalidated(a) == Revalidated(b)
    ensures multiset(Revalidated(a).samples) == multiset(a.samples)
    ensures IsUsable(Revalidated(a)) ==> |a.samples| >= 5 && forall x :: x in a.samples ==> x > 0.0
    ensures |a.samples| >= 5 && (forall x :: x in a.samples ==> x > 0.0) ==>
              && IsMedian(a.samples, Revalidated(a).median)
              && IsMedian(Distances(a.samples, Revalidated(a).median), Revalidated(a).mad)
  {
    hide Sort, IsMedian, FromSamples;
    StatsAreExact(a.samples);
    PositiveByElement(a.samples);
  }
}

/**
 The measured repetitions of one query and the record built from the median one.
 */
module Exec {
  import opened Prelude
  import opened Ordering
  import opened Schema
  import opened Spans

  /** One execution's raw outcome; the wall is in nanoseconds. */
  datatype Outcome = Outcome(
    wall: nat,
    status: Status,
    rows: nat,
    hash: string,
    counters: Counters,
    error: Option<string>,
    heads: Option<seq<string>>)

  /** A first measured repetition slower than this is the only one. */
  const ADAPTIVE_STOP: nat := 60_000_000_000

  /** Milliseconds of a duration, saturating. */
  function Ms(wall: nat): nat {
    Min(wall / 1_000_000, U64_MAX)
  }

  /** Whole milliseconds of a wall in nanoseconds, as far as a `u64` reaches. */
  lemma MsIsWhole(wall: nat)
    ensures wall < 0x1_0000_0000_0000_0000 * 1_000_000 ==> Ms(wall) * 1_000_000 <= wall < (Ms(wall) + 1) * 1_000_000
    ensures wall >= 0x1_0000_0000_0000_0000 * 1_000_000 ==> Ms(wall) == 0xFFFF_FFFF_FFFF_FFFF
  {
  }

  /** The loop breaks after repetition `i` with outcome `o`. */
  predicate Stops(i: nat, o: Outcome) {
    (i == 0 && o.wall > ADAPTIVE_STOP) || o.status == DidNotFinish
  }

  /** The measured outcomes: every repetition up to the first that stops the loop, or all of them. */
  ghost predicate IsMeasurement(reps: nat, exec: nat -> Outcome, outcomes: seq<Outcome>) {
    && 1 <= |outcomes| <= Max(reps, 1)
    && (forall i :: 0 <= i < |outcomes| ==> outcomes[i] == exec(i + 1))
    && (forall i :: 0 <= i < |outcomes| - 1 ==> !Stops(i, outcomes[i]))
    && (|outcomes| == Max(reps, 1) || Stops(|outcomes| - 1, outcomes[|outcomes| - 1]))
  }

  /**
   The repetition loop of `run_query`. `exec(k)` is what the k-th execution yields; execution
   0 is the discarded priming one.
   */
  method MeasuredReps(reps: nat, exec: nat -> Outcome) returns (outcomes: seq<Outcome>)
    ensures IsMeasurement(reps, exec, outcomes)
    ensures 1 <= |outcomes| <= Max(reps, 1)
    ensures forall i :: 0 <= i < |outcomes| && outcomes[i].status == DidNotFinish ==> i == |outcomes| - 1
    ensures |outcomes| > 1 ==> outcomes[0].wall <= 60_000_000_000
    ensures |outcomes| < reps ==>
              || outcomes[|outcomes| - 1].status == DidNotFinish
              || (|outcomes| == 1 && outcomes[0].wall > 60_000_000_000)
  {
    var priming := exec(0);
    outcomes := [];
    var i := 0;
    while i < Max(reps, 1)
      invariant 0 <= i <= Max(reps, 1) && |outcomes| == i
      invariant forall k :: 0 <= k < i ==> outcomes[k] == exec(k + 1) && !Stops(k, outcomes[k])
    {
      var outcome := exec(i + 1);
      var firstOverBudget := i == 0 && outcome.wall > ADAPTIVE_STOP;
      var dnf := outcome.status == DidNotFinish;
      outcomes := outcomes + [outcome];
      if firstOverBudget || dnf {
        return;
      }
      i := i + 1;
    }
  }

  /** What each execution yields leaves the loop no choice. */
  lemma MeasurementIsUnique(reps: nat, exec: nat -> Outcome, a: seq<Outcome>, b: seq<Outcome>)
    requires IsMeasurement(reps, exec, a) && IsMeasurement(reps, exec, b)
    ensures a == b
  {
    var k := Min(|a|, |b|) - 1;
    assert a[k] == b[k];
    assert |a| == |b|;
  }

  function WallOf(outcomes: seq<Outcome>, i: nat): nat {
    if i < |outcomes| then outcomes[i].wall else 0
  }

  function ByWall(outcomes: seq<Outcome>): (nat, nat) -> bool {
    (i: nat, j: nat) => WallOf(outcomes, i) <= WallOf(outcomes, j)
  }

  function Indices(n: nat): (r: seq<nat>)
    ensures |r| == n
    ensures forall i :: 0 <= i < n ==> r[i] == i
  {
    if n == 0 then [] else Indices(n - 1) + [n - 1]
  }

  function MsOf(outcomes: seq<Outcome>): nat -> nat {
    (i: nat) => Ms(WallOf(outcomes, i))
  }

  // ------------------------------------------------------------------
  // Which repetition is the median one
  // ------------------------------------------------------------------

  /** Repetition `i` was faster than `j`, or as fast and earlier. */
  ghost predicate Before(outcomes: seq<Outcome>, i: nat, j: nat) {
    WallOf(outcomes, i) < WallOf(outcomes, j) || (WallOf(outcomes, i) == WallOf(outcomes, j) && i < j)
  }

  /** How many repetitions come before `j`. */
  ghost function Rank(outcomes: seq<Outcome>, j: nat): nat {
    |set i: nat | i < |outcomes| && Before(outcomes, i, j)|
  }

  ghost predicate InOrder(outcomes: seq<Outcome>, s: seq<nat>) {
    forall p, q :: 0 <= p < q < |s| ==> Before(outcomes, s[p], s[q])
  }

  ghost predicate Rising(s: seq<nat>) {
    forall p, q :: 0 <= p < q < |s| ==> s[p] < s[q]
  }

  lemma {:induction false} InsertInOrder(outcomes: seq<Outcome>, x: nat, s: seq<nat>)
    requires InOrder(outcomes, s) && forall y :: y in s ==> x < y
    ensures InOrder(outcomes, Insert(x, s, ByWall(outcomes)))
  {
    hide WallOf;
    if s != [] && ByWall(outcomes)(x, s[0]) {
      forall q | 0 <= q < |s| ensures Before(outcomes, x, s[q]) {
        assert s[q] in s;
      }
    } else if s != [] {
      var tail := Insert(x, s[1..], ByWall(outcomes));
      assert forall y :: y in s[1..] ==> y in s;
      InsertInOrder(outcomes, x, s[1..]);
      forall q | 0 <= q < |tail| ensures Before(outcomes, s[0], tail[q]) {
        assert tail[q] in multiset(tail);
        assert tail[q] == x || tail[q] in s[1..];
      }
    }
  }

  /** The sort by wall keeps repetitions of equal walls in the order they ran. */
  lemma {:induction false} SortInOrder(outcomes: seq<Outcome>, s: seq<nat>)
    requires Rising(s)
    ensures InOrder(outcomes, Sort(s, ByWall(outcomes)))
  {
    if s != [] {
      var tail := Sort(s[1..], ByWall(outcomes));
      SortInOrder(outcomes, s[1..]);
      SameElements(s[1..], tail);
      InsertInOrder(outcomes, s[0], tail);
    }
  }

  lemma {:induction false} FirstAreDistinct(outcomes: seq<Outcome>, s: seq<nat>, p: nat)
    requires InOrder(outcomes, s) && p <= |s|
    ensures |set q | 0 <= q < p :: s[q]| == p
  {
    var all := set q | 0 <= q < p :: s[q];
    if p == 0 {
      assert all == {};
    } else {
      FirstAreDistinct(outcomes, s, p - 1);
      var fewer := set q | 0 <= q < p - 1 :: s[q];
      assert all == fewer + {s[p - 1]};
      assert s[p - 1] !in fewer;
    }
  }

  /** What comes before place `p` of an ordered permutation is what stands before it. */
  lemma {:induction false} EarlierIsInFront(outcomes: seq<Outcome>, order: seq<nat>, p: nat, i: nat)
    requires InOrder(outcomes, order) && p < |order| && i in order
    ensures Before(outcomes, i, order[p]) <==> exists q :: 0 <= q < p && order[q] == i
  {
    hide WallOf;
    var q :| 0 <= q < |order| && order[q] == i;
    if p < q {
      assert Before(outcomes, order[p], order[q]);
      forall k | 0 <= k < p ensures order[k] != i {
        assert Before(outcomes, order[k], order[q]);
      }
    } else if p == q {
      forall k | 0 <= k < p ensures order[k] != i {
        assert Before(outcomes, order[k], order[p]);
      }
    }
  }

  /** The repetition at place `p` of the order is the one with rank `p`. */
  lemma {:induction false} PlaceIsRank(outcomes: seq<Outcome>, p: nat)
    requires p < |outcomes|
    ensures var chosen := Sort(Indices(|outcomes|), ByWall(outcomes))[p];
            chosen < |outcomes| && Rank(outcomes, chosen) == p
  {
    var n := |outcomes|;
    var order := Sort(Indices(n), ByWall(outcomes));
    SortInOrder(outcomes, Indices(n));
    SameElements(Indices(n), order);
    hide Sort, InOrder, Before;
    IndicesAre(n);
    assert forall i: nat :: i in order <==> i < n;
    assert order[p] in order;
    FirstAreDistinct(outcomes, order, p);
    var earlier := set i: nat | i < n && Before(outcomes, i, order[p]);
    var front := set q | 0 <= q < p :: order[q];
    forall i: nat ensures i in earlier <==> i in front {
      if i < n {
        EarlierIsInFront(outcomes, order, p, i);
      } else {
        assert i !in order;
      }
    }
    assert earlier == front;
  }

  lemma IndicesAre(n: nat)
    ensures forall i: nat :: i in Indices(n) <==> i < n
  {
    forall i: nat | i < n ensures i in Indices(n) {
      assert Indices(n)[i] == i;
    }
  }

  /** `build_record`: the record of the repetition with the median wall. */
  method BuildRecord(
      queryId: string, target: string, isVirtual: bool, cacheState: string, outcomes: seq<Outcome>, errorExpected: bool)
    returns (record: RunRecord)
    requires outcomes != []
    ensures record.rep < |outcomes| == |record.allWallsMs| == record.reps
    ensures forall i :: 0 <= i < |outcomes| ==> record.allWallsMs[i] == Ms(outcomes[i].wall)
    ensures record.wallMs == record.allWallsMs[record.rep]
    ensures record.wallMs == Sort(record.allWallsMs, NatLeq)[(|outcomes| - 1) / 2]
    ensures Rank(outcomes, record.rep) == (|outcomes| - 1) / 2
    ensures var chosen := outcomes[record.rep];
            && record.rows == chosen.rows && record.resultHash == chosen.hash
            && record.counters == chosen.counters && record.heads == chosen.heads && record.error == chosen.error
            && record.spansMissing == GroupMissing(chosen.counters, isVirtual)
            && record.status == if chosen.status == Failed && errorExpected then ExpectedFailure else chosen.status
    ensures record.queryId == queryId && record.target == target && record.cacheState == cacheState
  {
    hide Sort, Map, Ms, Indices, Rank;
    var n := |outcomes|;
    var allWallsMs := AllWallsMs(outcomes);
    var order := Sort(Indices(n), ByWall(outcomes));
    var medianPos := order[(n - 1) / 2];
    MedianRepIsLowerMedian(outcomes);
    PlaceIsRank(outcomes, (n - 1) / 2);
    var chosen := outcomes[medianPos];
    var status := if chosen.status == Failed && errorExpected then ExpectedFailure else chosen.status;
    record := RunRecord(queryId, target, cacheState, medianPos, n, Ms(chosen.wall), allWallsMs, status, chosen.rows,
                        chosen.hash, chosen.counters, GroupMissing(chosen.counters, isVirtual), chosen.error,
                        chosen.heads);
  }

  method AllWallsMs(outcomes: seq<Outcome>) returns (walls: seq<nat>)
    ensures |walls| == |outcomes| && forall i :: 0 <= i < |outcomes| ==> walls[i] == Ms(outcomes[i].wall)
    ensures walls == Map(MsOf(outcomes), Indices(|outcomes|))
  {
    hide Map, Ms, Indices;
    walls := [];
    for i := 0 to |outcomes|
      invariant |walls| == i && forall k :: 0 <= k < i ==> walls[k] == Ms(outcomes[k].wall)
    {
      walls := walls + [Ms(outcomes[i].wall)];
    }
  }

  predicate NatLeq(a: nat, b: nat) {
    a <= b
  }

  lemma MsIsMonotone(a: nat, b: nat)
    requires a <= b
    ensures Ms(a) <= Ms(b)
  {
  }

  lemma {:induction false} OrderIsSorted(outcomes: seq<Outcome>, order: seq<nat>)
    requires order == Sort(Indices(|outcomes|), ByWall(outcomes))
    ensures Sorted(order, ByWall(outcomes))
    ensures forall i :: 0 <= i < |order| ==> order[i] < |outcomes|
  {
    hide Sort;
    assert TotalPreorder(ByWall(outcomes));
    SortIsSorted(Indices(|outcomes|), ByWall(outcomes));
    SameElements(Indices(|outcomes|), order);
    forall i | 0 <= i < |order| ensures order[i] < |outcomes| {
      assert order[i] in Indices(|outcomes|);
    }
  }

  /**
   Truncating to milliseconds commutes with taking the lower median: the wall of the chosen
   repetition, in milliseconds, is the lower median of all walls in milliseconds.
   */
  lemma {:induction false} MedianRepIsLowerMedian(outcomes: seq<Outcome>)
    requires outcomes != []
    ensures var n := |outcomes|;
            var chosen := Sort(Indices(n), ByWall(outcomes))[(n - 1) / 2];
            && chosen < n
            && Ms(outcomes[chosen].wall) == Sort(Map(MsOf(outcomes), Indices(n)), NatLeq)[(n - 1) / 2]
  {
    hide Sort, Ms, Map, Sorted, Indices;
    var n := |outcomes|;
    var order := Sort(Indices(n), ByWall(outcomes));
    var walls, ordered := Map(MsOf(outcomes), Indices(n)), Map(MsOf(outcomes), order);
    OrderIsSorted(outcomes, order);
    OrderedWallsAreSorted(outcomes, order);
    MapPermutes(MsOf(outcomes), Indices(n), order);
    SortedPermutationIsSort(walls, ordered);
    assert ordered[(n - 1) / 2] == MsOf(outcomes)(order[(n - 1) / 2]);
  }

  lemma {:induction false} SortedPermutationIsSort(walls: seq<nat>, ordered: seq<nat>)
    requires multiset(walls) == multiset(ordered) && Sorted(ordered, NatLeq)
    ensures Sort(walls, NatLeq) == ordered
  {
    hide Sort;
    assert TotalOrder(NatLeq);
    SortIsSorted(walls, NatLeq);
    SortedIsUnique(Sort(walls, NatLeq), ordered, NatLeq);
  }

  lemma {:induction false} OrderedWallsAreSorted(outcomes: seq<Outcome>, order: seq<nat>)
    requires Sorted(order, ByWall(outcomes))
    ensures Sorted(Map(MsOf(outcomes), order), NatLeq)
  {
    hide Map, Ms;
    var ordered := Map(MsOf(outcomes), order);
    forall i, j | 0 <= i < j < |order| ensures NatLeq(ordered[i], ordered[j]) {
      assert ByWall(outcomes)(order[i], order[j]);
      MsIsMonotone(WallOf(outcomes, order[i]), WallOf(outcomes, order[j]));
    }
  }
}

/**
 The tracking allocator's three counters under any number of threads. Each atomic operation
 of `on_alloc` and `on_dealloc` is one step, and steps of different threads interleave
 freely. Relaxed loads of PEAK may return any value PEAK has held since the last reset, and
 a weak compare-exchange may fail for no reason.
 */
module TrackingAllocator {
  import opened Prelude

  /** `usize` arithmetic is modulo this. */
  const WORD: nat := 0x1_0000_0000_0000_0000

  /** A block obtained from the system allocator whose size has not been subtracted again. */
  datatype Block = Block(size: nat, counted: bool)

  /** Where a thread is inside the allocator. */
  datatype Pc =
    | Idle
    | AddTotal(block: nat)
    | AddCurrent(block: nat)
    | LoadPeak(block: nat, cur: nat)
    | Compare(block: nat, cur: nat, seen: nat)
    | SubCurrent(block: nat, next: Option<nat>)

  datatype State = State(
    current: nat,
    peak: nat,
    total: nat,
    peaks: seq<nat>,          // the values of PEAK since the last reset, oldest first
    threads: map<nat, Pc>,
    blocks: map<nat, Block>)

  const INIT := State(0, 0, 0, [0], map[], map[])

  datatype Step =
    | BeginAlloc(t: nat, b: nat, size: nat)
    | FetchAddTotal(t: nat)
    | FetchAddCurrent(t: nat)
    | ReadPeak(t: nat, v: nat)
    | Leave(t: nat)
    | CasSucceeds(t: nat)
    | CasFails(t: nat, v: nat)
    | BeginFree(t: nat, b: nat)
    | BeginRealloc(t: nat, b: nat, nb: nat, size: nat)
    | FetchSubCurrent(t: nat)
    | ResetPeak

  function PcOf(s: State, t: nat): Pc {
    if t in s.threads then s.threads[t] else Idle
  }

  predicate Holds(pc: Pc, b: nat) {
    match pc
    case Idle => false
    case SubCurrent(x, next) => x == b || next == Some(b)
    case _ => pc.block == b
  }

  predicate InOnAlloc(pc: Pc) {
    pc.AddTotal? || pc.AddCurrent? || pc.LoadPeak? || pc.Compare?
  }

  /** No thread is inside `on_alloc`. */
  predicate Quiescent(s: State) {
    forall t :: t in s.threads ==> !InOnAlloc(s.threads[t])
  }

  /** The allocation of `b` has returned and nobody is giving it back. */
  predicate Owned(s: State, b: nat) {
    b in s.blocks && forall t :: t in s.threads ==> !Holds(s.threads[t], b)
  }

  predicate Enabled(s: State, step: Step) {
    match step
    case BeginAlloc(t, b, size) => PcOf(s, t).Idle? && b !in s.blocks
    case FetchAddTotal(t) => PcOf(s, t).AddTotal? && PcOf(s, t).block in s.blocks
    case FetchAddCurrent(t) => PcOf(s, t).AddCurrent? && PcOf(s, t).block in s.blocks
    case ReadPeak(t, v) => PcOf(s, t).LoadPeak? && v in s.peaks
    case Leave(t) => PcOf(s, t).Compare? && PcOf(s, t).cur <= PcOf(s, t).seen
    case CasSucceeds(t) => PcOf(s, t).Compare? && PcOf(s, t).cur > PcOf(s, t).seen && s.peak == PcOf(s, t).seen
    case CasFails(t, v) => PcOf(s, t).Compare? && PcOf(s, t).cur > PcOf(s, t).seen && v in s.peaks
    case BeginFree(t, b) => PcOf(s, t).Idle? && Owned(s, b)
    case BeginRealloc(t, b, nb, size) => PcOf(s, t).Idle? && Owned(s, b) && nb !in s.blocks
    case FetchSubCurrent(t) => PcOf(s, t).SubCurrent? && PcOf(s, t).block in s.blocks
    case ResetPeak => Quiescent(s)
  }

  function Apply(s: State, step: Step): State
    requires Enabled(s, step)
  {
    match step
    case BeginAlloc(t, b, size) =>
      s.(threads := s.threads[t := AddTotal(b)], blocks := s.blocks[b := Block(size, false)])
    case FetchAddTotal(t) =>
      var b := PcOf(s, t).block;
      s.(total := (s.total + s.blocks[b].size) % WORD, threads := s.threads[t := AddCurrent(b)])
    case FetchAddCurrent(t) =>
      var b := PcOf(s, t).block;
      var cur := (s.current + s.blocks[b].size) % WORD;
      s.(current := cur, threads := s.threads[t := LoadPeak(b, cur)],
          blocks := s.blocks[b := s.blocks[b].(counted := true)])
    case ReadPeak(t, v) =>
      s.(threads := s.threads[t := Compare(PcOf(s, t).block, PcOf(s, t).cur, v)])
    case Leave(t) =>
      s.(threads := s.threads[t := Idle])
    case CasSucceeds(t) =>
      s.(peak := PcOf(s, t).cur, peaks := s.peaks + [PcOf(s, t).cur], threads := s.threads[t := Idle])
    case CasFails(t, v) =>
      s.(threads := s.threads[t := Compare(PcOf(s, t).block, PcOf(s, t).cur, v)])
    case BeginFree(t, b) =>
      s.(threads := s.threads[t := SubCurrent(b, None)])
    case BeginRealloc(t, b, nb, size) =>
      s.(threads := s.threads[t := SubCurrent(b, Some(nb))], blocks := s.blocks[nb := Block(size, false)])
    case FetchSubCurrent(t) =>
      var pc := PcOf(s, t);
      s.(current := (s.current - s.blocks[pc.block].size) % WORD,
         threads := s.threads[t := if pc.next.Some? then AddTotal(pc.next.value) else Idle],
         blocks := s.blocks - {pc.block})
    case ResetPeak =>
      s.(peak := s.current, peaks := [s.current], total := 0)
  }

  // ------------------------------------------------------------------
  // Runs, and what they are measured against
  // ------------------------------------------------------------------

  ghost predicate Run(states: seq<State>, steps: seq<Step>) {
    && |states| == |steps| + 1
    && states[0] == INIT
    && forall i :: 0 <= i < |steps| ==> Enabled(states[i], steps[i]) && states[i + 1] == Apply(states[i], steps[i])
  }

  /** The largest value CURRENT has held since the last reset. */
  ghost function MaxCurrent(states: seq<State>, steps: seq<Step>, k: nat): int
    requires k < |states| <= |steps| + 1
  {
    if k == 0 || steps[k - 1] == ResetPeak then states[k].current
    else Max(MaxCurrent(states, steps, k - 1), states[k].current)
  }

  /** The value CURRENT had at the last reset, which `reset_peak` returned. */
  ghost function Base(states: seq<State>, steps: seq<Step>, k: nat): int
    requires k < |states| <= |steps| + 1
  {
    if k == 0 || steps[k - 1] == ResetPeak then states[k].current else Base(states, steps, k - 1)
  }

  /** The sizes counted into TOTAL since the last reset, added up. */
  ghost function Allocated(states: seq<State>, steps: seq<Step>, k: nat): nat
    requires k < |states| <= |steps| + 1
  {
    if k == 0 || steps[k - 1] == ResetPeak then 0
    else
      Allocated(states, steps, k - 1) +
      (if steps[k - 1].FetchAddTotal? then TotalSize(states[k - 1], steps[k - 1].t) else 0)
  }

  ghost function TotalSize(s: State, t: nat): nat {
    var pc := PcOf(s, t);
    if pc.AddTotal? && pc.block in s.blocks then s.blocks[pc.block].size else 0
  }

  ghost function Weight(b: Block): nat {
    if b.counted then b.size else 0
  }

  ghost function CountedBytes(blocks: map<nat, Block>): nat
    decreases |blocks|
  {
    if blocks == map[] then 0
    else
      var b :| b in blocks;
      assert |blocks - {b}| < |blocks| by { Shrinks(blocks, b); }
      Weight(blocks[b]) + CountedBytes(blocks - {b})
  }

  lemma Shrinks(blocks: map<nat, Block>, b: nat)
    requires b in blocks
    ensures |blocks - {b}| == |blocks| - 1
  {
    assert (blocks - {b}).Keys == blocks.Keys - {b};
    assert |blocks.Keys - {b}| == |blocks.Keys| - 1;
    assert |blocks| == |blocks.Keys| && |blocks - {b}| == |(blocks - {b}).Keys|;
  }

  lemma {:induction false} CountedWithout(blocks: map<nat, Block>, b: nat)
    requires b in blocks
    ensures CountedBytes(blocks) == Weight(blocks[b]) + CountedBytes(blocks - {b})
    decreases |blocks|
  {
    var x :| x in blocks && CountedBytes(blocks) == Weight(blocks[x]) + CountedBytes(blocks - {x});
    if x != b {
      Shrinks(blocks, x);
      Shrinks(blocks, b);
      CountedWithout(blocks - {x}, b);
      CountedWithout(blocks - {b}, x);
      assert blocks - {x} - {b} == blocks - {b} - {x};
    }
  }

  lemma {:induction false} CountedUpdate(blocks: map<nat, Block>, b: nat, v: Block)
    ensures b !in blocks ==> CountedBytes(blocks[b := v]) == CountedBytes(blocks) + Weight(v)
    ensures b in blocks ==> CountedBytes(blocks[b := v]) + Weight(blocks[b]) == CountedBytes(blocks) + Weight(v)
  {
    CountedWithout(blocks[b := v], b);
    if b in blocks {
      CountedWithout(blocks, b);
      assert blocks[b := v] - {b} == blocks - {b};
    } else {
      assert blocks[b := v] - {b} == blocks;
    }
  }

  // ------------------------------------------------------------------
  // Who holds which block
  // ------------------------------------------------------------------

  ghost predicate PcFits(s: State, pc: Pc) {
    match pc
    case Idle => true
    case AddTotal(b) => b in s.blocks && !s.blocks[b].counted
    case AddCurrent(b) => b in s.blocks && !s.blocks[b].counted
    case LoadPeak(b, _) => b in s.blocks && s.blocks[b].counted
    case Compare(b, _, seen) => b in s.blocks && s.blocks[b].counted && seen in s.peaks
    case SubCurrent(b, next) =>
      && b in s.blocks && s.blocks[b].counted
      && (next.Some? ==> next.value in s.blocks && !s.blocks[next.value].counted)
  }

  ghost predicate Disciplined(s: State) {
    PcsFit(s) && HoldersUnique(s) && UncountedHeld(s)
  }

  ghost predicate Ascending(peaks: seq<nat>) {
    forall i, j :: 0 <= i < j < |peaks| ==> peaks[i] <= peaks[j]
  }

  /** PEAK holds the newest of its values, and they never went down. */
  ghost predicate PeakIsLatest(s: State) {
    s.peaks != [] && Ascending(s.peaks) && s.peaks[|s.peaks| - 1] == s.peak
  }

  ghost predicate PcsFit(s: State) {
    forall t :: t in s.threads ==> PcFits(s, s.threads[t])
  }

  ghost predicate HoldersUnique(s: State) {
    forall t, u, b :: t in s.threads && u in s.threads && Holds(s.threads[t], b) && Holds(s.threads[u], b) ==> t == u
  }

  ghost predicate UncountedHeld(s: State) {
    forall b :: b in s.blocks && !s.blocks[b].counted ==> exists t :: t in s.threads && Holds(s.threads[t], b)
  }

  /** The block a step counts, uncounts or creates, and the thread that takes it. */
  ghost predicate Mine(s: State, step: Step, u: nat) {
    step != ResetPeak && step.t == u
  }

  lemma {:induction false} OthersKeepFitting(s: State, step: Step, u: nat)
    requires Disciplined(s) && Enabled(s, step) && u in s.threads && !Mine(s, step, u)
    ensures PcFits(Apply(s, step), s.threads[u])
  {
    var pc := s.threads[u];
    assert PcFits(s, pc);
    match step {
      case FetchAddCurrent(t) =>
        var b := PcOf(s, t).block;
        assert Holds(s.threads[t], b) && !Holds(pc, b);
      case FetchSubCurrent(t) =>
        var b := PcOf(s, t).block;
        assert Holds(s.threads[t], b) && !Holds(pc, b);
      case _ =>
    }
  }

  lemma {:induction false} StepKeepsPcs(s: State, step: Step)
    requires Disciplined(s) && Enabled(s, step)
    ensures PcsFit(Apply(s, step))
  {
    var s' := Apply(s, step);
    forall u | u in s'.threads ensures PcFits(s', s'.threads[u]) {
      if Mine(s, step, u) {
        assert u in s.threads ==> PcFits(s, s.threads[u]);
      } else {
        OthersKeepFitting(s, step, u);
      }
    }
  }

  /** A thread only ever takes up blocks that are new or that nobody holds. */
  lemma {:induction false} TakenBlocks(s: State, step: Step, b: nat)
    requires Disciplined(s) && Enabled(s, step) && step != ResetPeak
    requires Holds(PcOf(Apply(s, step), step.t), b)
    ensures Holds(PcOf(s, step.t), b) || forall u :: u in s.threads ==> !Holds(s.threads[u], b)
  {
    if b !in s.blocks {
      forall u | u in s.threads ensures !Holds(s.threads[u], b) {
        assert PcFits(s, s.threads[u]);
      }
    }
  }

  lemma {:induction false} StepKeepsHoldersUnique(s: State, step: Step)
    requires Disciplined(s) && Enabled(s, step)
    ensures HoldersUnique(Apply(s, step))
  {
    var s' := Apply(s, step);
    forall t, u, b | t in s'.threads && u in s'.threads && Holds(s'.threads[t], b) && Holds(s'.threads[u], b)
      ensures t == u
    {
      if step != ResetPeak && t != u && (t == step.t || u == step.t) {
        TakenBlocks(s, step, b);
      }
    }
  }

  lemma {:induction false} StepKeepsUncountedHeld(s: State, step: Step)
    requires Disciplined(s) && Enabled(s, step)
    ensures UncountedHeld(Apply(s, step))
  {
    var s' := Apply(s, step);
    forall b | b in s'.blocks && !s'.blocks[b].counted ensures exists t :: t in s'.threads && Holds(s'.threads[t], b) {
      if b in s.blocks {
        var t :| t in s.threads && Holds(s.threads[t], b);
        assert PcFits(s, s.threads[t]);
        assert t in s'.threads && Holds(s'.threads[t], b);
      } else {
        assert step.t in s'.threads && Holds(s'.threads[step.t], b);
      }
    }
  }

  lemma StepKeepsDiscipline(s: State, step: Step)
    requires Disciplined(s) && Enabled(s, step)
    ensures Disciplined(Apply(s, step))
  {
    StepKeepsPcs(s, step);
    StepKeepsHoldersUnique(s, step);
    StepKeepsUncountedHeld(s, step);
  }

  lemma StepKeepsPeakLatest(s: State, step: Step)
    requires Disciplined(s) && PeakIsLatest(s) && Enabled(s, step)
    ensures PeakIsLatest(Apply(s, step))
    ensures step != ResetPeak ==> s.peak <= Apply(s, step).peak
  {
  }

  // ------------------------------------------------------------------
  // Live-byte accounting
  // ------------------------------------------------------------------

  lemma ModAdd(a: int, b: int, d: int)
    requires a == b % WORD
    ensures (a + d) % WORD == (b + d) % WORD
  {
    var q := b / WORD;
    assert b == q * WORD + a;
    assert (q * WORD + (a + d)) % WORD == (a + d) % WORD;
  }

  /** CURRENT is the counted bytes modulo the word size. */
  ghost predicate CurrentTracks(s: State) {
    s.current == CountedBytes(s.blocks) % WORD
  }

  lemma {:induction false} StepKeepsCurrent(s: State, step: Step)
    requires Disciplined(s) && CurrentTracks(s) && Enabled(s, step)
    ensures CurrentTracks(Apply(s, step))
  {
    match step {
      case BeginAlloc(t, b, size) => CountedUpdate(s.blocks, b, Block(size, false));
      case BeginRealloc(t, b, nb, size) => CountedUpdate(s.blocks, nb, Block(size, false));
      case FetchAddCurrent(t) =>
        var b := PcOf(s, t).block;
        assert PcFits(s, s.threads[t]);
        CountedUpdate(s.blocks, b, s.blocks[b].(counted := true));
        ModAdd(s.current, CountedBytes(s.blocks), s.blocks[b].size);
      case FetchSubCurrent(t) =>
        var b := PcOf(s, t).block;
        assert PcFits(s, s.threads[t]);
        CountedWithout(s.blocks, b);
        ModAdd(s.current, CountedBytes(s.blocks), 0 - s.blocks[b].size);
      case _ =>
    }
  }

  lemma {:induction false} RunInvariant(states: seq<State>, steps: seq<Step>, k: nat)
    requires Run(states, steps) && k < |states|
    ensures Disciplined(states[k]) && PeakIsLatest(states[k]) && CurrentTracks(states[k])
  {
    if k > 0 {
      var s, step := states[k - 1], steps[k - 1];
      RunInvariant(states, steps, k - 1);
      assert Enabled(s, step) && states[k] == Apply(s, step);
      hide Apply, Enabled;
      StepKeepsDiscipline(s, step);
      StepKeepsPeakLatest(s, step);
      StepKeepsCurrent(s, step);
    }
  }

  lemma {:induction false} TotalTracks(states: seq<State>, steps: seq<Step>, k: nat)
    requires Run(states, steps) && k < |states|
    ensures states[k].total == Allocated(states, steps, k) % WORD
  {
    if k > 0 {
      var s, step := states[k - 1], steps[k - 1];
      TotalTracks(states, steps, k - 1);
      assert Enabled(s, step) && states[k] == Apply(s, step);
      if step.FetchAddTotal? {
        ModAdd(s.total, Allocated(states, steps, k - 1), TotalSize(s, step.t));
      }
    }
  }

  /**
   In every run CURRENT is the number of counted bytes and TOTAL the bytes allocated since
   the last reset, both modulo the word size; while the counted bytes fit in a word, CURRENT
   is exact.
   */
  lemma {:induction false} CountersAreExact(states: seq<State>, steps: seq<Step>, k: nat)
    requires Run(states, steps) && k < |states|
    ensures states[k].current == CountedBytes(states[k].blocks) % WORD
    ensures states[k].total == Allocated(states, steps, k) % WORD
    ensures CountedBytes(states[k].blocks) < WORD ==> states[k].current == CountedBytes(states[k].blocks)
  {
    RunInvariant(states, steps, k);
    TotalTracks(states, steps, k);
  }

  /** Outside allocator calls every block in the table is counted, so CURRENT covers exactly the live blocks. */
  lemma {:induction false} QuiescentBlocksAreCounted(states: seq<State>, steps: seq<Step>, k: nat, b: nat)
    requires Run(states, steps) && k < |states|
    requires forall t :: t in states[k].threads ==> states[k].threads[t].Idle?
    requires b in states[k].blocks
    ensures states[k].blocks[b].counted
  {
    RunInvariant(states, steps, k);
  }

  /** `fetch_sub` never wraps while the counted bytes fit in a word. */
  lemma {:induction false} SubNeverWraps(states: seq<State>, steps: seq<Step>, k: nat)
    requires Run(states, steps) && k < |steps| && steps[k].FetchSubCurrent?
    requires CountedBytes(states[k].blocks) < WORD
    ensures var b := PcOf(states[k], steps[k].t).block;
            && b in states[k].blocks
            && states[k].blocks[b].size <= states[k].current
            && states[k + 1].current == states[k].current - states[k].blocks[b].size
  {
    var s, t := states[k], steps[k].t;
    RunInvariant(states, steps, k);
    assert Enabled(s, steps[k]) && states[k + 1] == Apply(s, steps[k]);
    assert PcFits(s, s.threads[t]);
    CountedWithout(s.blocks, PcOf(s, t).block);
  }

  // ------------------------------------------------------------------
  // The high-water mark
  // ------------------------------------------------------------------

  /** The counted bytes fit in a word throughout, so that no counter of live bytes wraps. */
  ghost predicate Fits(states: seq<State>) {
    forall i :: 0 <= i < |states| ==> CountedBytes(states[i].blocks) < WORD
  }

  /** A thread past its `fetch_add` still owes PEAK the value it read there. */
  ghost predicate Owes(pc: Pc, v: int) {
    (pc.LoadPeak? || pc.Compare?) && pc.cur == v
  }

  /** A thread that may still write `v` to PEAK: one that owes it and has not seen PEAK reach it. */
  ghost predicate Raises(pc: Pc, v: int) {
    Owes(pc, v) && (pc.Compare? ==> pc.cur > pc.seen)
  }

  /** PEAK, CURRENT and everything a thread may still write to PEAK are within `base` and `max`. */
  ghost predicate Bounded(s: State, base: int, max: int) {
    && s.peaks != [] && s.peaks[0] == base
    && base <= s.peak <= max && s.current <= max
    && (forall t, v :: t in s.threads && Raises(s.threads[t], v) ==> v <= max)
  }

  /** PEAK has caught up with `max`, or a thread still owes it. */
  ghost predicate Reached(s: State, max: int) {
    max <= s.peak || exists t :: t in s.threads && Owes(s.threads[t], max)
  }

  lemma AtMostLast(peaks: seq<nat>, v: nat)
    requires Ascending(peaks) && v in peaks
    ensures v <= peaks[|peaks| - 1]
  {
  }

  lemma {:induction false} StepKeepsBounded(s: State, step: Step, base: int, max: int)
    requires Enabled(s, step) && step != ResetPeak && Bounded(s, base, max)
    ensures Bounded(Apply(s, step), base, Max(max, Apply(s, step).current))
  {
    var s' := Apply(s, step);
    if step.ReadPeak? || step.CasFails? || step.CasSucceeds? {
      assert Raises(s.threads[step.t], s.threads[step.t].cur);
    }
    forall t, v | t in s'.threads && Raises(s'.threads[t], v) ensures v <= Max(max, s'.current) {
      assert t == step.t || Raises(s.threads[t], v);
    }
  }

  lemma {:induction false} StepKeepsReached(s: State, step: Step, max: int)
    requires Disciplined(s) && PeakIsLatest(s) && Enabled(s, step) && step != ResetPeak
    requires Reached(s, max) && s.current <= max
    requires step.FetchSubCurrent? ==> Apply(s, step).current <= s.current
    ensures Reached(Apply(s, step), Max(max, Apply(s, step).current))
  {
    var s' := Apply(s, step);
    if step.FetchAddCurrent? && s'.current > max {
      assert Owes(s'.threads[step.t], s'.current);
    } else if max > s.peak {
      var t :| t in s.threads && Owes(s.threads[t], max);
      assert PcFits(s, s.threads[t]);
      if s.threads[t].Compare? {
        AtMostLast(s.peaks, s.threads[t].seen);
      }
      assert (step.CasSucceeds? && step.t == t) || Owes(s'.threads[t], max);
    }
  }

  lemma {:induction false} RunKeepsBounded(states: seq<State>, steps: seq<Step>, k: nat)
    requires Run(states, steps) && k < |states|
    ensures Bounded(states[k], Base(states, steps, k), MaxCurrent(states, steps, k))
  {
    if k > 0 {
      var s, step := states[k - 1], steps[k - 1];
      RunInvariant(states, steps, k - 1);
      RunKeepsBounded(states, steps, k - 1);
      assert Enabled(s, step) && states[k] == Apply(s, step);
      if step != ResetPeak {
        hide Apply, Enabled, Disciplined, PeakIsLatest;
        StepKeepsBounded(s, step, Base(states, steps, k - 1), MaxCurrent(states, steps, k - 1));
      }
    }
  }

  lemma {:induction false} RunKeepsReached(states: seq<State>, steps: seq<Step>, k: nat)
    requires Run(states, steps) && Fits(states) && k < |states|
    ensures Reached(states[k], MaxCurrent(states, steps, k))
  {
    if k > 0 {
      var s, step := states[k - 1], steps[k - 1];
      RunInvariant(states, steps, k - 1);
      RunKeepsBounded(states, steps, k - 1);
      RunKeepsReached(states, steps, k - 1);
      assert Enabled(s, step) && states[k] == Apply(s, step);
      if step != ResetPeak {
        if step.FetchSubCurrent? {
          SubNeverWraps(states, steps, k - 1);
        }
        StepKeepsReached(s, step, MaxCurrent(states, steps, k - 1));
      }
    }
  }

  /**
   In every run PEAK lies between the live bytes at the last reset and the largest CURRENT
   since. Whenever no thread is inside `on_alloc` it is that maximum exactly, provided the
   counted bytes have always fit in a word.
   */
  lemma {:induction false} PeakIsHighWaterMark(states: seq<State>, steps: seq<Step>, k: nat)
    requires Run(states, steps) && k < |states|
    ensures Base(states, steps, k) <= states[k].peak <= MaxCurrent(states, steps, k)
    ensures Quiescent(states[k]) && Fits(states) ==> states[k].peak == MaxCurrent(states, steps, k)
  {
    RunKeepsBounded(states, steps, k);
    if Fits(states) {
      RunKeepsReached(states, steps, k);
    }
  }

  /** Between resets PEAK never goes down, whether or not anything wraps. */
  lemma {:induction false} PeakNeverDecreases(states: seq<State>, steps: seq<Step>, j: nat, k: nat)
    requires Run(states, steps) && j <= k < |states|
    requires forall i :: j <= i < k ==> steps[i] != ResetPeak
    ensures states[j].peak <= states[k].peak
  {
    if j < k {
      PeakNeverDecreases(states, steps, j, k - 1);
      RunInvariant(states, steps, k - 1);
      assert Enabled(states[k - 1], steps[k - 1]) && states[k] == Apply(states[k - 1], steps[k - 1]);
      StepKeepsPeakLatest(states[k - 1], steps[k - 1]);
    }
  }

  /** `reset_peak` carried out without waiting for quiescence. */
  ghost function ResetAnyway(s: State): State {
    s.(peak := s.current, peaks := [s.current], total := 0)
  }

  /** Steps from `from` on, without a further reset. */
  ghost predicate Continues(states: seq<State>, steps: seq<Step>, from: State) {
    && |states| == |steps| + 1 && states[0] == from
    && forall i :: 0 <= i < |steps| ==>
         steps[i] != ResetPeak && Enabled(states[i], steps[i]) && states[i + 1] == Apply(states[i], steps[i])
  }

  /** The largest CURRENT among the first `k + 1` states. */
  ghost function Highest(states: seq<State>, k: nat): int
    requires k < |states|
  {
    if k == 0 then states[0].current else Max(Highest(states, k - 1), states[k].current)
  }

  /** However the threads go on from `from`, PEAK never exceeds everything CURRENT has been since. */
  ghost predicate PeakStaysHonest(from: State) {
    forall states: seq<State>, steps: seq<Step> :: Continues(states, steps, from) ==>
      states[|steps|].peak <= Highest(states, |steps|)
  }

  lemma {:induction false} ContinuationBounded(states: seq<State>, steps: seq<Step>, from: State, k: nat)
    requires Continues(states, steps, from) && k < |states| && Bounded(from, from.current, from.current)
    ensures Bounded(states[k], from.current, Highest(states, k))
  {
    if k > 0 {
      ContinuationBounded(states, steps, from, k - 1);
      assert Enabled(states[k - 1], steps[k - 1]) && states[k] == Apply(states[k - 1], steps[k - 1]);
      hide Apply, Enabled, Bounded;
      StepKeepsBounded(states[k - 1], steps[k - 1], from.current, Highest(states, k - 1));
    }
  }

  /**
   Quiescence is more than a reset needs, and this is what it does need: PEAK stays honest after
   a reset, whatever the threads do, if and only if no thread may still write more than CURRENT
   to it.
   */
  lemma {:induction false} EarlyResetIsSafeIff(s: State)
    ensures PeakStaysHonest(ResetAnyway(s)) <==>
            forall t, v :: t in s.threads && Raises(s.threads[t], v) ==> v <= s.current
  {
    var from := ResetAnyway(s);
    if forall t, v :: t in s.threads && Raises(s.threads[t], v) ==> v <= s.current {
      assert Bounded(from, from.current, from.current);
      forall states: seq<State>, steps: seq<Step> | Continues(states, steps, from)
        ensures states[|steps|].peak <= Highest(states, |steps|)
      {
        ContinuationBounded(states, steps, from, |steps|);
      }
    } else {
      var t, v :| t in s.threads && Raises(s.threads[t], v) && v > s.current;
      RaiserOvershoots(s, t, v);
    }
  }

  /** A thread that may still write more than CURRENT raises PEAK past it in two steps. */
  lemma {:induction false} RaiserOvershoots(s: State, t: nat, v: int)
    requires t in s.threads && Raises(s.threads[t], v) && v > s.current
    ensures !PeakStaysHonest(ResetAnyway(s))
  {
    var s1, pc := ResetAnyway(s), s.threads[t];
    var look := if pc.LoadPeak? then ReadPeak(t, s1.peak) else CasFails(t, s1.peak);
    assert Enabled(s1, look);
    var s2 := Apply(s1, look);
    assert Enabled(s2, CasSucceeds(t));
    var s3 := Apply(s2, CasSucceeds(t));
    var states, steps := [s1, s2, s3], [look, CasSucceeds(t)];
    assert Continues(states, steps, s1);
    assert Highest(states, 0) == s.current;
    assert Highest(states, 1) == s.current;
    assert Highest(states, 2) == s.current;
    assert states[|steps|].peak == v;
  }

  /** State `s` ends some run. */
  ghost predicate Reachable(s: State) {
    exists states, steps :: Run(states, steps) && states[|steps|] == s
  }

  lemma ReachNext(s: State, step: Step, next: State)
    requires Reachable(s) && Enabled(s, step) && next == Apply(s, step)
    ensures Reachable(next)
  {
    var states, steps :| Run(states, steps) && states[|steps|] == s;
    hide Apply, Enabled;
    assert Run(states + [next], steps + [step]);
    assert (states + [next])[|steps + [step]|] == next;
  }

  lemma FirstBlockIsReachable()
    ensures Reachable(State(4, 4, 4, [0, 4], map[1 := Idle], map[1 := Block(4, true)]))
  {
    var none: seq<Step> := [];
    assert Run([INIT], none) && [INIT][|none|] == INIT;
    hide Reachable;
    var s1 := State(0, 0, 0, [0], map[1 := AddTotal(1)], map[1 := Block(4, false)]);
    ReachNext(INIT, BeginAlloc(1, 1, 4), s1);
    var s2 := s1.(total := 4, threads := map[1 := AddCurrent(1)]);
    ReachNext(s1, FetchAddTotal(1), s2);
    var s3 := s2.(current := 4, threads := map[1 := LoadPeak(1, 4)], blocks := map[1 := Block(4, true)]);
    ReachNext(s2, FetchAddCurrent(1), s3);
    var s4 := s3.(threads := map[1 := Compare(1, 4, 0)]);
    ReachNext(s3, ReadPeak(1, 0), s4);
    ReachNext(s4, CasSucceeds(1), s4.(peak := 4, peaks := [0, 4], threads := map[1 := Idle]));
  }

  /** Thread 0 has counted 8 bytes on top of 4 and is about to load PEAK; the 4 have been freed since. */
  const DEBTOR := State(8, 4, 12, [0, 4], map[0 := LoadPeak(0, 12), 1 := Idle], map[0 := Block(8, true)])

  lemma SecondBlockIsReachable()
    ensures Reachable(DEBTOR.(current := 12, blocks := map[0 := Block(8, true), 1 := Block(4, true)]))
  {
    FirstBlockIsReachable();
    hide Reachable;
    var old4, new8 := Block(4, true), Block(8, true);
    var s := State(4, 4, 4, [0, 4], map[1 := Idle], map[1 := old4]);
    var s1 := s.(threads := map[0 := AddTotal(0), 1 := Idle], blocks := map[0 := Block(8, false), 1 := old4]);
    ReachNext(s, BeginAlloc(0, 0, 8), s1);
    var s2 := s1.(total := 12, threads := map[0 := AddCurrent(0), 1 := Idle]);
    ReachNext(s1, FetchAddTotal(0), s2);
    var s3 := s2.(current := 12, threads := map[0 := LoadPeak(0, 12), 1 := Idle], blocks := map[0 := new8, 1 := old4]);
    ReachNext(s2, FetchAddCurrent(0), s3);
  }

  lemma DebtorIsReachable()
    ensures Reachable(DEBTOR)
  {
    SecondBlockIsReachable();
    hide Reachable;
    var s3 := DEBTOR.(current := 12, blocks := map[0 := Block(8, true), 1 := Block(4, true)]);
    var s4 := s3.(threads := map[0 := LoadPeak(0, 12), 1 := SubCurrent(1, None)]);
    ReachNext(s3, BeginFree(1, 1), s4);
    ReachNext(s4, FetchSubCurrent(1), DEBTOR);
  }

  /** A reset there lets PEAK overstate what has been live since. */
  lemma EarlyResetOverstatesPeak()
    ensures Reachable(DEBTOR) && !Quiescent(DEBTOR) && !PeakStaysHonest(ResetAnyway(DEBTOR))
  {
    DebtorIsReachable();
    hide Reachable;
    assert 0 in DEBTOR.threads && InOnAlloc(DEBTOR.threads[0]);
    RaiserOvershoots(DEBTOR, 0, 12);
  }

  // ------------------------------------------------------------------
  // One thread on its own
  // ------------------------------------------------------------------

  /** The three counters driven by a single thread. */
  class Counters {
    var current: nat
    var peak: nat
    var total: nat

    constructor ()
      ensures Reads(INIT)
    {
      current, peak, total := 0, 0, 0;
    }

    /** The counters as state `s` of the transition system has them. */
    ghost predicate Reads(s: State)
      reads this
    {
      current == s.current && peak == s.peak && total == s.total
    }

    /** `spurious` is how often the weak compare-exchange fails although nothing changed. */
    method OnAlloc(size: nat, spurious: nat)
      modifies this
      ensures total == (old(total) + size) % WORD
      ensures current == (old(current) + size) % WORD
      ensures peak == Max(old(peak), current)
    {
      total := (total + size) % WORD;
      var cur := (current + size) % WORD;
      current := cur;
      var seen, failures := peak, spurious;
      while cur > seen
        invariant seen == peak
        invariant peak == old(peak) || (peak == cur && cur > old(peak))
        invariant current == cur && total == (old(total) + size) % WORD
        decreases failures, cur - seen
      {
        if failures > 0 {
          failures := failures - 1;
        } else {
          peak := cur;
        }
        seen := peak;
      }
    }

    /** The subtraction step of any thread that is giving back a block of this size. */
    method OnDealloc(size: nat)
      modifies this`current
      ensures forall s: State, t ::
                old(Reads(s)) && Enabled(s, FetchSubCurrent(t)) && s.blocks[PcOf(s, t).block].size == size ==>
                  Reads(Apply(s, FetchSubCurrent(t)))
    {
      current := (current - size) % WORD;
    }

    /** The reset step; the returned base is what CURRENT reads from then until the next step. */
    method Reset() returns (base: nat)
      modifies this`peak, this`total
      ensures base == current
      ensures forall s: State :: old(Reads(s)) && Enabled(s, ResetPeak) ==> Reads(Apply(s, ResetPeak))
    {
      base := current;
      peak := base;
      total := 0;
    }
  }

  /** Thread `t` takes all the steps, and is inside the allocator before each of them. */
  ghost predicate Alone(states: seq<State>, steps: seq<Step>, t: nat) {
    && |states| == |steps| + 1
    && forall i :: 0 <= i < |steps| ==>
         && steps[i] != ResetPeak && steps[i].t == t && PcOf(states[i], t) != Idle
         && Enabled(states[i], steps[i]) && states[i + 1] == Apply(states[i], steps[i])
  }

  /** How far `on_alloc` for block `b` has come since state `s0`. */
  ghost predicate Progress(s0: State, s: State, t: nat, b: nat)
    requires b in s0.blocks
  {
    var size := s0.blocks[b].size;
    var counted := s.current == (s0.current + size) % WORD && s.total == (s0.total + size) % WORD;
    var samePeak := s.peak == s0.peak && s.peaks == s0.peaks;
    match PcOf(s, t)
    case AddTotal(x) =>
      x == b && s.current == s0.current && s.total == s0.total && samePeak && s.blocks == s0.blocks
    case AddCurrent(x) =>
      && x == b && s.current == s0.current && s.total == (s0.total + size) % WORD && samePeak
      && s.blocks == s0.blocks
    case LoadPeak(x, cur) => x == b && counted && samePeak && cur == s.current
    case Compare(x, cur, seen) => x == b && counted && samePeak && cur == s.current && seen in s.peaks
    case Idle => counted && s.peak == Max(s0.peak, s.current)
    case SubCurrent(_, _) => false
  }

  lemma {:induction false} AloneMakesProgress(states: seq<State>, steps: seq<Step>, t: nat, b: nat, k: nat)
    requires Alone(states, steps, t) && k < |states|
    requires PcOf(states[0], t) == AddTotal(b) && b in states[0].blocks && PeakIsLatest(states[0])
    ensures Progress(states[0], states[k], t, b)
  {
    if k > 0 {
      AloneMakesProgress(states, steps, t, b, k - 1);
      assert Enabled(states[k - 1], steps[k - 1]) && states[k] == Apply(states[k - 1], steps[k - 1]);
      var pc := PcOf(states[k - 1], t);
      if pc.Compare? {
        AtMostLast(states[k - 1].peaks, pc.seen);
      }
    }
  }

  /**
   The transition system agrees with `Counters.OnAlloc`: a call of `on_alloc` that no other
   thread interrupts ends with the size added to both sums and PEAK at the maximum, whatever
   stale values it loads and however often its exchange fails.
   */
  lemma {:induction false} UninterruptedCallIsSequential(states: seq<State>, steps: seq<Step>, t: nat, b: nat)
    requires Alone(states, steps, t)
    requires PcOf(states[0], t) == AddTotal(b) && b in states[0].blocks && PeakIsLatest(states[0])
    requires PcOf(states[|steps|], t) == Idle
    ensures var s, s' := states[0], states[|steps|];
            && s'.total == (s.total + s.blocks[b].size) % WORD
            && s'.current == (s.current + s.blocks[b].size) % WORD
            && s'.peak == Max(s.peak, s'.current)
  {
    AloneMakesProgress(states, steps, t, b, |steps|);
  }
}

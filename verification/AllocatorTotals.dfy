/**
 TOTAL held against the calls made: every byte a caller asked for, by allocating or by
 reallocating, is in TOTAL or still owed to it by a thread inside the allocator.
 */
module AllocatorTotals {
  import opened Prelude
  import opened TrackingAllocator

  // ------------------------------------------------------------------
  // What is asked for and what is owed
  // ------------------------------------------------------------------

  /** The bytes a call asks for when it begins. */
  function AskedBy(step: Step): nat {
    match step
    case BeginAlloc(_, _, size) => size
    case BeginRealloc(_, _, _, size) => size
    case _ => 0
  }

  /** The thread has not added block `b` to TOTAL yet. */
  ghost predicate OwesTotal(pc: Pc, b: nat) {
    pc == AddTotal(b) || (pc.SubCurrent? && pc.next == Some(b))
  }

  ghost predicate IsOwed(s: State, b: nat) {
    exists t :: t in s.threads && OwesTotal(s.threads[t], b)
  }

  ghost function OwedBlocks(s: State): map<nat, Block> {
    map b | b in s.blocks && IsOwed(s, b) :: Block(s.blocks[b].size, true)
  }

  /** The bytes asked for that TOTAL does not contain yet. */
  ghost function OwedBytes(s: State): nat {
    CountedBytes(OwedBlocks(s))
  }

  /** The bytes asked for since the last reset, with what was still owed at that moment. */
  ghost function Asked(states: seq<State>, steps: seq<Step>, k: nat): nat
    requires k < |states| <= |steps| + 1
  {
    if k == 0 then 0
    else if steps[k - 1] == ResetPeak then OwedBytes(states[k])
    else Asked(states, steps, k - 1) + AskedBy(steps[k - 1])
  }

  // ------------------------------------------------------------------
  // Each step moves bytes from owed to TOTAL
  // ------------------------------------------------------------------

  lemma OnlyHolderOwes(s: State, t: nat, u: nat, b: nat)
    requires Disciplined(s) && t in s.threads && u in s.threads && Holds(s.threads[t], b) && OwesTotal(s.threads[u], b)
    ensures t == u
  {
    assert Holds(s.threads[u], b);
  }

  lemma {:induction false} OthersStillOwe(s: State, step: Step, u: nat, b: nat)
    requires Enabled(s, step) && step != ResetPeak && u != step.t
    ensures (u in s.threads && OwesTotal(s.threads[u], b)) <==>
            (u in Apply(s, step).threads && OwesTotal(Apply(s, step).threads[u], b))
  {
  }

  /** The thread that takes the step owes what it owed, plus what it begins, less what it adds. */
  ghost predicate OwesAfter(s: State, step: Step, b: nat) {
    match step
    case BeginAlloc(_, nb, _) => b == nb
    case BeginRealloc(_, _, nb, _) => b == nb
    case FetchAddTotal(_) => false
    case ResetPeak => false
    case _ => OwesTotal(PcOf(s, step.t), b)
  }

  lemma MoverOwes(s: State, step: Step, b: nat)
    requires Enabled(s, step) && step != ResetPeak
    ensures step.t in Apply(s, step).threads
    ensures OwesTotal(Apply(s, step).threads[step.t], b) <==> OwesAfter(s, step, b)
  {
  }

  lemma {:induction false} OwedAfter(s: State, step: Step, b: nat)
    requires Disciplined(s) && Enabled(s, step) && step != ResetPeak
    ensures IsOwed(Apply(s, step), b) <==>
            OwesAfter(s, step, b) || exists u :: u in s.threads && u != step.t && OwesTotal(s.threads[u], b)
  {
    var s' := Apply(s, step);
    MoverOwes(s, step, b);
    forall u | u != step.t
      ensures (u in s.threads && OwesTotal(s.threads[u], b)) <==> (u in s'.threads && OwesTotal(s'.threads[u], b))
    {
      OthersStillOwe(s, step, u, b);
    }
    hide Apply, Enabled, OwesTotal, OwesAfter, Disciplined;
    if IsOwed(s', b) {
      var u :| u in s'.threads && OwesTotal(s'.threads[u], b);
    }
  }

  /** The block a beginning call asks for is owed from then on, and nothing else changes. */
  lemma {:induction false} BeginOwes(s: State, step: Step, nb: nat)
    requires Disciplined(s) && Enabled(s, step)
    requires (step.BeginAlloc? && step.b == nb) || (step.BeginRealloc? && step.nb == nb)
    ensures nb !in OwedBlocks(s)
    ensures OwedBlocks(Apply(s, step)) == OwedBlocks(s)[nb := Block(AskedBy(step), true)]
  {
    var s' := Apply(s, step);
    assert !OwesTotal(PcOf(s, step.t), nb) && forall b :: !OwesTotal(PcOf(s, step.t), b);
    forall b | b in s'.blocks ensures IsOwed(s', b) <==> b == nb || IsOwed(s, b) {
      OwedAfter(s, step, b);
    }
    hide IsOwed, Disciplined, Enabled;
    assert s'.blocks == s.blocks[nb := Block(AskedBy(step), false)];
  }

  /** A thread about to add its block to TOTAL owes that block alone, and is the only one to. */
  lemma AdderOwesIts(s: State, t: nat, b: nat)
    requires Disciplined(s) && Enabled(s, FetchAddTotal(t))
    ensures t in s.threads
    ensures OwesTotal(s.threads[t], b) <==> b == PcOf(s, t).block
    ensures b == PcOf(s, t).block ==> forall u :: u in s.threads && OwesTotal(s.threads[u], b) ==> u == t
  {
    if b == PcOf(s, t).block {
      forall u | u in s.threads && OwesTotal(s.threads[u], b) ensures u == t {
        OnlyHolderOwes(s, t, u, b);
      }
    }
  }

  lemma {:induction false} AddingSettlesOne(s: State, t: nat, b: nat)
    requires Disciplined(s) && Enabled(s, FetchAddTotal(t))
    ensures IsOwed(s, PcOf(s, t).block)
    ensures IsOwed(Apply(s, FetchAddTotal(t)), b) <==> b != PcOf(s, t).block && IsOwed(s, b)
  {
    AdderOwesIts(s, t, PcOf(s, t).block);
    AdderOwesIts(s, t, b);
    OwedAfter(s, FetchAddTotal(t), b);
    hide Disciplined, Enabled, Apply, OwesTotal;
  }

  /** Adding to TOTAL settles the block. */
  lemma {:induction false} AddingSettles(s: State, t: nat)
    requires Disciplined(s) && Enabled(s, FetchAddTotal(t))
    ensures var b := PcOf(s, t).block;
            && b in OwedBlocks(s) && OwedBlocks(s)[b] == Block(s.blocks[b].size, true)
            && OwedBlocks(Apply(s, FetchAddTotal(t))) == OwedBlocks(s) - {b}
  {
    var s', x := Apply(s, FetchAddTotal(t)), PcOf(s, t).block;
    assert s'.blocks == s.blocks && x in s.blocks;
    forall b ensures IsOwed(s', b) <==> b != x && IsOwed(s, b) {
      AddingSettlesOne(s, t, b);
    }
    AddingSettlesOne(s, t, x);
    hide IsOwed, Disciplined, Apply, Enabled;
    var before, after := OwedBlocks(s), OwedBlocks(s');
    assert after.Keys == before.Keys - {x};
  }

  /** Any other step leaves what is owed as it is. */
  lemma {:induction false} OthersOweNothingNew(s: State, step: Step)
    requires Disciplined(s) && Enabled(s, step)
    requires !step.BeginAlloc? && !step.BeginRealloc? && !step.FetchAddTotal?
    ensures OwedBlocks(Apply(s, step)) == OwedBlocks(s)
  {
    var s' := Apply(s, step);
    if step != ResetPeak {
      forall b ensures IsOwed(s', b) <==> IsOwed(s, b) {
        OwedAfter(s, step, b);
        assert OwesAfter(s, step, b) <==> step.t in s.threads && OwesTotal(s.threads[step.t], b);
      }
      forall b | b in s.blocks && IsOwed(s, b) ensures b in s'.blocks {
        OwedIsNotFreed(s, step, b);
      }
      hide IsOwed, Disciplined, OwesAfter;
      assert forall b :: b in s'.blocks ==> b in s.blocks && s'.blocks[b].size == s.blocks[b].size;
    }
  }

  /** The block a thread gives back is counted, so nobody owes it. */
  lemma {:induction false} OwedIsNotFreed(s: State, step: Step, b: nat)
    requires Disciplined(s) && Enabled(s, step) && step != ResetPeak
    requires !step.BeginAlloc? && !step.BeginRealloc?
    requires b in s.blocks && IsOwed(s, b)
    ensures b in Apply(s, step).blocks
  {
    if step.FetchSubCurrent? {
      var t, u :| t == step.t && u in s.threads && OwesTotal(s.threads[u], b);
      assert PcFits(s, s.threads[t]) && PcFits(s, s.threads[u]);
    }
  }

  // ------------------------------------------------------------------
  // Over whole runs
  // ------------------------------------------------------------------

  /** What the step adds to TOTAL, before any wrapping. */
  ghost function AddedBy(s: State, step: Step): nat {
    if step.FetchAddTotal? then TotalSize(s, step.t) else 0
  }

  lemma {:induction false} BeginBalances(s: State, step: Step)
    requires Disciplined(s) && Enabled(s, step) && (step.BeginAlloc? || step.BeginRealloc?)
    ensures OwedBytes(Apply(s, step)) == OwedBytes(s) + AskedBy(step)
  {
    var nb := if step.BeginAlloc? then step.b else step.nb;
    BeginOwes(s, step, nb);
    hide OwedBlocks, Apply, Enabled, Disciplined, CountedBytes;
    CountedUpdate(OwedBlocks(s), nb, Block(AskedBy(step), true));
  }

  lemma {:induction false} AddBalances(s: State, t: nat)
    requires Disciplined(s) && Enabled(s, FetchAddTotal(t))
    ensures OwedBytes(s) == AddedBy(s, FetchAddTotal(t)) + OwedBytes(Apply(s, FetchAddTotal(t)))
  {
    AddingSettles(s, t);
    hide OwedBlocks, Disciplined, CountedBytes, Apply;
    CountedWithout(OwedBlocks(s), PcOf(s, t).block);
  }

  /** Every step moves what it adds to TOTAL out of what is owed, and what it asks for into it. */
  lemma {:induction false} StepBalances(s: State, step: Step)
    requires Disciplined(s) && Enabled(s, step) && step != ResetPeak
    ensures AddedBy(s, step) + OwedBytes(Apply(s, step)) == OwedBytes(s) + AskedBy(step)
  {
    if step.BeginAlloc? || step.BeginRealloc? {
      BeginBalances(s, step);
    } else if step.FetchAddTotal? {
      AddBalances(s, step.t);
    } else {
      OthersOweNothingNew(s, step);
    }
    hide Apply, Enabled, Disciplined, OwedBlocks, CountedBytes;
  }

  /** The bytes added to TOTAL and the bytes still owed to it are together the bytes asked for. */
  lemma {:induction false} AddedAndOwedAreAsked(states: seq<State>, steps: seq<Step>, k: nat)
    requires Run(states, steps) && k < |states|
    ensures Allocated(states, steps, k) + OwedBytes(states[k]) == Asked(states, steps, k)
  {
    if k == 0 {
      NothingOwed(states[0]);
    } else if steps[k - 1] != ResetPeak {
      var s, step := states[k - 1], steps[k - 1];
      RunInvariant(states, steps, k - 1);
      assert Enabled(s, step) && states[k] == Apply(s, step);
      AddedAndOwedAreAsked(states, steps, k - 1);
      hide Apply, Enabled, Disciplined, OwedBytes, Run, PeakIsLatest, CurrentTracks;
      StepBalances(s, step);
    }
  }

  /**
   In every run TOTAL is the bytes asked for since the last reset, less those a thread inside
   the allocator still owes it, modulo the word size.
   */
  lemma {:induction false} TotalCoversCalls(states: seq<State>, steps: seq<Step>, k: nat)
    requires Run(states, steps) && k < |states|
    ensures OwedBytes(states[k]) <= Asked(states, steps, k)
    ensures states[k].total == (Asked(states, steps, k) - OwedBytes(states[k])) % WORD
  {
    AddedAndOwedAreAsked(states, steps, k);
    TotalTracks(states, steps, k);
    hide Run, Asked, Allocated, OwedBytes;
  }

  /** With every thread outside the allocator nothing is owed. */
  lemma NothingOwed(s: State)
    requires forall t :: t in s.threads ==> s.threads[t].Idle?
    ensures OwedBytes(s) == 0
  {
    assert OwedBlocks(s) == map[];
  }

  /** So between calls TOTAL is the bytes asked for. */
  lemma {:induction false} IdleTotalIsAsked(states: seq<State>, steps: seq<Step>, k: nat)
    requires Run(states, steps) && k < |states|
    requires forall t :: t in states[k].threads ==> states[k].threads[t].Idle?
    ensures states[k].total == Asked(states, steps, k) % WORD
  {
    TotalCoversCalls(states, steps, k);
    NothingOwed(states[k]);
    hide Run, Asked, OwedBytes;
  }

  // ------------------------------------------------------------------
  // CURRENT held against the calls
  // ------------------------------------------------------------------

  /** The blocks that have been asked for and not given back, with their sizes, by the calls alone. */
  ghost function Live(steps: seq<Step>, k: nat): map<nat, nat>
    requires k <= |steps|
  {
    if k == 0 then map[]
    else
      match steps[k - 1]
      case BeginAlloc(_, b, size) => Live(steps, k - 1)[b := size]
      case BeginFree(_, b) => Live(steps, k - 1) - {b}
      case BeginRealloc(_, b, nb, size) => (Live(steps, k - 1) - {b})[nb := size]
      case _ => Live(steps, k - 1)
  }

  ghost predicate Frees(pc: Pc, b: nat) {
    pc.SubCurrent? && pc.block == b
  }

  /** Some thread is giving the block back. */
  ghost predicate BeingFreed(s: State, b: nat) {
    exists t :: t in s.threads && Frees(s.threads[t], b)
  }

  /** The table holds the live blocks with their sizes, and those being given back. */
  ghost predicate TableMatches(s: State, live: map<nat, nat>) {
    && (forall b :: b in live <==> b in s.blocks && !BeingFreed(s, b))
    && (forall b :: b in live ==> s.blocks[b].size == live[b])
  }

  /** What the thread that takes the step is giving back afterwards. */
  ghost predicate FreesAfter(s: State, step: Step, b: nat) {
    match step
    case BeginFree(_, x) => b == x
    case BeginRealloc(_, x, _, _) => b == x
    case FetchSubCurrent(_) => false
    case ResetPeak => false
    case _ => Frees(PcOf(s, step.t), b)
  }

  lemma {:induction false} FreedAfter(s: State, step: Step, b: nat)
    requires Enabled(s, step) && step != ResetPeak
    ensures BeingFreed(Apply(s, step), b) <==>
            FreesAfter(s, step, b) || exists u :: u in s.threads && u != step.t && Frees(s.threads[u], b)
  {
    var s' := Apply(s, step);
    assert step.t in s'.threads && (Frees(s'.threads[step.t], b) <==> FreesAfter(s, step, b));
    assert forall u :: u != step.t ==> (u in s.threads <==> u in s'.threads);
    assert forall u :: u != step.t && u in s.threads ==> s'.threads[u] == s.threads[u];
    hide Apply, Enabled, FreesAfter, Frees;
    if u :| u in s'.threads && Frees(s'.threads[u], b) {
      if u != step.t {
        assert u in s.threads && Frees(s.threads[u], b);
      }
    }
    if u :| u in s.threads && u != step.t && Frees(s.threads[u], b) {
      assert u in s'.threads && Frees(s'.threads[u], b);
    }
  }

  lemma NobodyElseFrees(s: State, t: nat, b: nat)
    requires Disciplined(s) && t in s.threads && Frees(s.threads[t], b)
    ensures b in s.blocks && forall u :: u in s.threads && Frees(s.threads[u], b) ==> u == t
  {
    assert PcFits(s, s.threads[t]);
    forall u | u in s.threads && Frees(s.threads[u], b) ensures u == t {
      assert Holds(s.threads[u], b) && Holds(s.threads[t], b);
    }
  }

  lemma NewIsNotFreed(s: State, b: nat)
    requires Disciplined(s) && b !in s.blocks
    ensures !BeingFreed(s, b)
  {
    if t :| t in s.threads && Frees(s.threads[t], b) {
      NobodyElseFrees(s, t, b);
    }
  }

  /** Which blocks are in the table afterwards, and which of them are on their way out. */
  lemma {:induction false} TableAfter(s: State, step: Step, b: nat)
    requires Disciplined(s) && Enabled(s, step) && step != ResetPeak
    ensures var s' := Apply(s, step);
            (b in s'.blocks && !BeingFreed(s', b)) <==>
            match step
            case BeginAlloc(_, x, _) => b == x || (b in s.blocks && !BeingFreed(s, b))
            case BeginFree(_, x) => b != x && b in s.blocks && !BeingFreed(s, b)
            case BeginRealloc(_, x, y, _) => b == y || (b != x && b in s.blocks && !BeingFreed(s, b))
            case _ => b in s.blocks && !BeingFreed(s, b)
  {
    var s', mine := Apply(s, step), step.t in s.threads && Frees(s.threads[step.t], b);
    FreedAfter(s, step, b);
    assert BeingFreed(s, b) <==>
           mine || exists u :: u in s.threads && u != step.t && Frees(s.threads[u], b) by { hide Frees; }
    match step {
      case BeginAlloc(_, x, _) => NewIsNotFreed(s, x);
      case BeginRealloc(_, x, y, _) => NewIsNotFreed(s, y);
      case FetchSubCurrent(t) =>
        if mine {
          NobodyElseFrees(s, t, b);
        }
      case _ =>
    }
    hide Disciplined, BeingFreed;
  }

  lemma {:induction false} SizesAfter(s: State, step: Step, b: nat)
    requires Enabled(s, step) && b in Apply(s, step).blocks
    ensures Apply(s, step).blocks[b].size ==
            if step.BeginAlloc? && b == step.b then step.size
            else if step.BeginRealloc? && b == step.nb then step.size
            else if b in s.blocks then s.blocks[b].size else 0
  {
  }

  lemma {:induction false} StepKeepsTable(s: State, step: Step, live: map<nat, nat>, live': map<nat, nat>)
    requires Disciplined(s) && Enabled(s, step) && TableMatches(s, live)
    requires live' == match step
                      case BeginAlloc(_, b, size) => live[b := size]
                      case BeginFree(_, b) => live - {b}
                      case BeginRealloc(_, b, nb, size) => (live - {b})[nb := size]
                      case _ => live
    ensures TableMatches(Apply(s, step), live')
  {
    var s' := Apply(s, step);
    if step == ResetPeak {
      assert s'.threads == s.threads && s'.blocks == s.blocks;
      assert forall b :: BeingFreed(s', b) <==> BeingFreed(s, b);
    } else {
      forall b ensures b in live' <==> b in s'.blocks && !BeingFreed(s', b) {
        TableAfter(s, step, b);
        hide Disciplined, Enabled, Apply, BeingFreed;
      }
      hide Disciplined, BeingFreed;
      forall b | b in live' ensures s'.blocks[b].size == live'[b] {
        SizesAfter(s, step, b);
        hide Enabled, Apply;
      }
    }
  }

  lemma {:induction false} TableMatchesCalls(states: seq<State>, steps: seq<Step>, k: nat)
    requires Run(states, steps) && k < |states|
    ensures TableMatches(states[k], Live(steps, k))
  {
    if k > 0 {
      RunInvariant(states, steps, k - 1);
      TableMatchesCalls(states, steps, k - 1);
      assert Enabled(states[k - 1], steps[k - 1]) && states[k] == Apply(states[k - 1], steps[k - 1]);
      hide Apply, Enabled, Disciplined, TableMatches, PeakIsLatest, CurrentTracks;
      StepKeepsTable(states[k - 1], steps[k - 1], Live(steps, k - 1), Live(steps, k));
    }
  }

  /** The live blocks, all of them counted. */
  ghost function LiveBlocks(live: map<nat, nat>): map<nat, Block> {
    map b | b in live :: Block(live[b], true)
  }

  /**
   Between calls CURRENT is the sizes of the blocks asked for and not given back, added up,
   modulo the word size.
   */
  lemma {:induction false} IdleCurrentIsLive(states: seq<State>, steps: seq<Step>, k: nat)
    requires Run(states, steps) && k < |states|
    requires forall t :: t in states[k].threads ==> states[k].threads[t].Idle?
    ensures states[k].blocks == LiveBlocks(Live(steps, k))
    ensures states[k].current == CountedBytes(LiveBlocks(Live(steps, k))) % WORD
  {
    var s, live := states[k], Live(steps, k);
    TableMatchesCalls(states, steps, k);
    CountersAreExact(states, steps, k);
    forall b | b in s.blocks ensures s.blocks[b].counted {
      QuiescentBlocksAreCounted(states, steps, k, b);
    }
    assert forall b :: !BeingFreed(s, b);
    hide Run, Live, CountedBytes, BeingFreed;
    assert s.blocks.Keys == live.Keys;
    assert forall b :: b in s.blocks ==> s.blocks[b] == Block(live[b], true);
  }

  // ------------------------------------------------------------------
  // One reallocation on its own
  // ------------------------------------------------------------------

  /**
   A reallocation that no other thread interrupts subtracts the old size, adds the new one to
   CURRENT and TOTAL, and raises PEAK to the result at most: the two blocks never count at once.
   */
  lemma {:induction false} UninterruptedReallocIsSequential(
      states: seq<State>, steps: seq<Step>, t: nat, b: nat, nb: nat)
    requires Alone(states, steps, t) && PeakIsLatest(states[0])
    requires PcOf(states[0], t) == SubCurrent(b, Some(nb)) && PcOf(states[|steps|], t) == Idle
    requires b in states[0].blocks && nb in states[0].blocks && b != nb
    ensures var s, s' := states[0], states[|steps|];
            && s'.total == (s.total + s.blocks[nb].size) % WORD
            && s'.current == (s.current - s.blocks[b].size + s.blocks[nb].size) % WORD
            && s'.peak == Max(s.peak, s'.current)
  {
    var s, middle := states[0], states[1];
    assert Enabled(s, steps[0]) && middle == Apply(s, steps[0]);
    assert steps[0] == FetchSubCurrent(t);
    assert Alone(states[1..], steps[1..], t);
    assert states[1..][|steps[1..]|] == states[|steps|];
    UninterruptedCallIsSequential(states[1..], steps[1..], t, nb);
    ModAdd(middle.current, s.current - s.blocks[b].size, s.blocks[nb].size);
  }

  /** A free on its own takes the size off CURRENT and leaves TOTAL and PEAK. */
  lemma UninterruptedFreeIsSequential(s: State, t: nat, b: nat)
    requires PcOf(s, t) == SubCurrent(b, None) && b in s.blocks
    ensures Enabled(s, FetchSubCurrent(t))
    ensures var s' := Apply(s, FetchSubCurrent(t));
            && PcOf(s', t) == Idle && s'.total == s.total && s'.peak == s.peak
            && s'.current == (s.current - s.blocks[b].size) % WORD && b !in s'.blocks
  {
  }
}

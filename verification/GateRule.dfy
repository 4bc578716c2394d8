/**
 What the gate decides, spelled out on the fields of the two files and the options: none of the
 functions the comparison itself is made of is used, except the sum over a key set.
 */
module GateRule {
  import opened Prelude
  import opened Ordering
  import opened Noise
  import opened NoiseStatistics
  import opened Meta
  import opened Baseline
  import opened Gate
  import opened GateProperties

  // ------------------------------------------------------------------
  // The rule
  // ------------------------------------------------------------------

  ghost predicate OccursAt(part: string, s: string, i: int) {
    0 <= i <= |s| - |part| && s[i..i + |part|] == part
  }

  ghost predicate Occurs(part: string, s: string) {
    exists i :: OccursAt(part, s, i)
  }

  /** The scenario passes the `--only` filter. */
  ghost predicate Wanted(opts: CompareOptions, id: string) {
    opts.only == None || Occurs(opts.only.value, id)
  }

  /** 64 lower-case hexadecimal digits. */
  ghost predicate IsDigest(s: string) {
    |s| == 64 && forall c :: c in s ==> c in "0123456789abcdef"
  }

  /** Both digests well-formed and equal, both syntaxes equal, thread counts equal. */
  ghost predicate SameInput(b: CorpusInfo, c: CorpusInfo) {
    && IsDigest(b.sha256) && c.sha256 == b.sha256
    && b.inputSyntax == c.inputSyntax && b.outputSyntax == c.outputSyntax
    && b.threadCount == c.threadCount
  }

  /** What the baseline declares, the current run must declare too; a baseline that declares nothing asks nothing. */
  ghost predicate CorporaAgree(base: Option<CorpusInfo>, cur: Option<CorpusInfo>) {
    base == None || (cur.Some? && SameInput(base.value, cur.value))
  }

  /** The corpus of a scenario: its own, else the file's. */
  ghost function OwnOrFile(file: BaselineFile, id: string): Option<CorpusInfo>
    requires id in file.entries
  {
    if file.entries[id].corpus.Some? then file.entries[id].corpus else file.corpus
  }

  ghost predicate FiniteAndNonNegative(x: F64) {
    x.Finite? && x.val >= 0.0
  }

  ghost function ShareTotal(phases: Phases): real {
    Sum(phases.Keys, (name: string) =>
      if name in phases && phases[name].share.Finite? then phases[name].share.val else 0.0)
  }

  /** Every reading is finite and non-negative, and the shares add up to 100 within one point. */
  ghost predicate SoundShares(phases: Phases) {
    phases == map[] ||
    (&& (forall name :: name in phases ==>
           FiniteAndNonNegative(phases[name].share) && FiniteAndNonNegative(phases[name].ns))
     && 99.0 <= ShareTotal(phases) <= 101.0)
  }

  /** Statistics over at least five samples with a positive median. */
  ghost predicate Trusted(e: BaselineEntry) {
    && e.noise.Some?
    && e.noise.value.n >= 5 && e.noise.value.n == |e.noise.value.samples|
    && e.noise.value.median > 0.0 && e.noise.value.mad >= 0.0
  }

  /** The repeat-run median where there is one, else the mean. */
  ghost function TimeOf(e: BaselineEntry): real {
    if Trusted(e) then e.noise.value.median else e.mean
  }

  /** Three MADs, in percent of the median, where there are statistics; nothing otherwise. */
  ghost function SpreadPct(e: BaselineEntry): real {
    if Trusted(e) then 300.0 * (e.noise.value.mad / e.noise.value.median) else 0.0
  }

  /** The larger of the declared budget and the baseline's own spread. */
  ghost function Allowance(base: BaselineEntry, declared: real): real {
    if declared < SpreadPct(base) then SpreadPct(base) else declared
  }

  /** At most `pct` percent over the reference; a reference that is not positive allows anything. */
  ghost predicate AtMostOver(reference: real, observed: real, pct: real) {
    reference <= 0.0 || observed <= reference + reference * pct / 100.0
  }

  /** Times, peak memory and phase times are within budget; memory is held to the declared budget alone. */
  ghost predicate WithinBudgets(base: BaselineEntry, cur: BaselineEntry, declared: real)
    requires SoundShares(base.phases) && SoundShares(cur.phases)
  {
    && AtMostOver(TimeOf(base), TimeOf(cur), Allowance(base, declared))
    && (base.mem.Some? && cur.mem.Some? ==>
          AtMostOver(base.mem.value.peakBytes as real, cur.mem.value.peakBytes as real, declared))
    && (forall name :: name in base.phases && name in cur.phases ==>
          AtMostOver(base.phases[name].ns.val, cur.phases[name].ns.val, Allowance(base, declared)))
  }

  /** No phase's share grew by more than the drift, and no phase of only one side has a larger share than that. */
  ghost predicate WithinDrift(base: Phases, cur: Phases, driftPp: real)
    requires SoundShares(base) && SoundShares(cur)
  {
    && (forall name :: name in base && name in cur ==> cur[name].share.val <= base[name].share.val + driftPp)
    && (forall name :: name in base && name !in cur ==> base[name].share.val <= driftPp)
    && (forall name :: name in cur && name !in base ==> cur[name].share.val <= driftPp)
  }

  /** The scenario has a measurement to compare. */
  ghost predicate Measurable(baseline: BaselineFile, current: BaselineFile, opts: CompareOptions, id: string) {
    id in baseline.entries && Wanted(opts, id) && id in current.entries && current.entries[id].mean > 0.0
  }

  ghost predicate Comparable(baseline: BaselineFile, current: BaselineFile, id: string)
    requires id in baseline.entries && id in current.entries
  {
    && CorporaAgree(OwnOrFile(baseline, id), OwnOrFile(current, id))
    && SoundShares(baseline.entries[id].phases) && SoundShares(current.entries[id].phases)
  }

  /** Absolute figures count only between equal host classes, and not when the caller asked for advice only. */
  ghost predicate Enforcing(baseline: BaselineFile, current: BaselineFile, opts: CompareOptions) {
    !opts.forceAdvisory && baseline.host.hostClass == current.host.hostClass
  }

  /** What is asked of one scenario. */
  ghost predicate ScenarioHolds(
      baseline: BaselineFile, current: BaselineFile, budget: string -> real, opts: CompareOptions, id: string)
  {
    Measurable(baseline, current, opts, id) ==>
      && Comparable(baseline, current, id)
      && (Enforcing(baseline, current, opts) ==>
            WithinBudgets(baseline.entries[id], current.entries[id], budget(id)))
      && WithinDrift(baseline.entries[id].phases, current.entries[id].phases, opts.shareDriftPp)
  }

  ghost predicate Holds(baseline: BaselineFile, current: BaselineFile, budget: string -> real, opts: CompareOptions) {
    && baseline.schemaVersion <= 2
    && (baseline.host.hostClass == current.host.hostClass || opts.hostMismatch == Advise)
    && forall id :: ScenarioHolds(baseline, current, budget, opts, id)
  }

  // ------------------------------------------------------------------
  // Piece by piece
  // ------------------------------------------------------------------

  lemma {:induction false} ContainsIff(s: string, part: string)
    ensures Contains(s, part) <==> Occurs(part, s)
  {
    if part <= s {
      assert s[0..0 + |part|] == part;
      assert OccursAt(part, s, 0);
    } else if s != [] {
      ContainsIff(s[1..], part);
      if Occurs(part, s[1..]) {
        var i :| OccursAt(part, s[1..], i);
        ShiftedSlice(s, i, |part|);
        assert OccursAt(part, s, i + 1);
      }
      if Occurs(part, s) {
        var i :| OccursAt(part, s, i);
        assert i != 0;
        ShiftedSlice(s, i - 1, |part|);
        assert OccursAt(part, s[1..], i - 1);
      }
    }
  }

  lemma ShiftedSlice(s: string, i: nat, n: nat)
    requires i + n < |s|
    ensures s[1..][i..i + n] == s[i + 1..i + 1 + n]
  {
    var a, b := s[1..][i..i + n], s[i + 1..i + 1 + n];
    assert |a| == |b|;
    forall k | 0 <= k < n ensures a[k] == b[k] {
    }
  }

  lemma DigestIff(c: CorpusInfo)
    ensures ValidCorpus(c) <==> IsDigest(c.sha256)
  {
    forall x: char ensures IsLowerHex(x) <==> x in "0123456789abcdef" {
    }
    if IsDigest(c.sha256) {
      forall i | 0 <= i < |c.sha256| ensures IsLowerHex(c.sha256[i]) {
        assert c.sha256[i] in c.sha256;
      }
    }
  }

  lemma CorpusRefusedIff(base: Option<CorpusInfo>, cur: Option<CorpusInfo>)
    ensures CorpusRefused(base, cur) <==> !CorporaAgree(base, cur)
  {
    hide ValidCorpus, IsDigest;
    if base.Some? {
      DigestIff(base.value);
      if cur.Some? {
        DigestIff(cur.value);
      }
    }
  }

  lemma GateableIff(phases: Phases)
    ensures Gateable(phases) <==> SoundShares(phases)
  {
    hide Sum;
    SumCongruence(phases.Keys, SharesOf(phases), (name: string) =>
      if name in phases && phases[name].share.Finite? then phases[name].share.val else 0.0);
  }

  lemma EffectiveTime(e: BaselineEntry)
    ensures EffectiveNs(e) == TimeOf(e)
  {
  }

  lemma BudgetIs(e: BaselineEntry, declared: real)
    ensures TimeBudget(e, declared) == Allowance(e, declared)
  {
    if Trusted(e) {
      FloorOfUsable(e.noise.value);
    }
    hide FloorPct, IsUsable;
    assert NoiseFloorPct(e) == SpreadPct(e) by { FloorIs(e); }
  }

  lemma FloorIs(e: BaselineEntry)
    ensures NoiseFloorPct(e) == SpreadPct(e)
  {
    if Trusted(e) {
      assert IsUsable(e.noise.value);
      FloorOfUsable(e.noise.value);
      hide FloorPct;
    }
  }

  lemma CeilingIff(reference: real, observed: real, pct: real)
    ensures UnderCeiling(reference, observed, pct) <==> AtMostOver(reference, observed, pct)
  {
    assert reference * (1.0 + pct / 100.0) == reference + reference * pct / 100.0 by {
      CeilingSpelledOut(reference, pct);
    }
  }

  lemma CeilingSpelledOut(reference: real, pct: real)
    ensures reference * (1.0 + pct / 100.0) == reference + reference * pct / 100.0
  {
    var q := pct / 100.0;
    assert reference * (1.0 + q) == reference + reference * q;
    assert reference * q == reference * pct / 100.0;
  }

  lemma BudgetsIff(base: BaselineEntry, cur: BaselineEntry, declared: real)
    requires SoundShares(base.phases) && SoundShares(cur.phases)
    ensures AbsoluteBounds(base, cur, declared) <==> WithinBudgets(base, cur, declared)
  {
    EffectiveTime(base);
    EffectiveTime(cur);
    BudgetIs(base, declared);
    CeilingIff(TimeOf(base), TimeOf(cur), Allowance(base, declared));
    if base.mem.Some? && cur.mem.Some? {
      CeilingIff(base.mem.value.peakBytes as real, cur.mem.value.peakBytes as real, declared);
    }
    forall name | name in base.phases && name in cur.phases
      ensures NsIn(base.phases, name) == base.phases[name].ns.val && NsIn(cur.phases, name) == cur.phases[name].ns.val
      ensures UnderCeiling(NsIn(base.phases, name), NsIn(cur.phases, name), TimeBudget(base, declared)) <==>
              AtMostOver(base.phases[name].ns.val, cur.phases[name].ns.val, Allowance(base, declared))
    {
      CeilingIff(base.phases[name].ns.val, cur.phases[name].ns.val, Allowance(base, declared));
    }
    hide EffectiveNs, TimeOf, TimeBudget, Allowance, UnderCeiling, AtMostOver, NsIn, SoundShares;
  }

  lemma DriftIff(base: Phases, cur: Phases, driftPp: real)
    requires SoundShares(base) && SoundShares(cur)
    ensures ShareBounds(base, cur, driftPp) <==> WithinDrift(base, cur, driftPp)
  {
    hide ShareTotal;
    assert forall name :: name in base ==> ShareIn(base, name) == base[name].share.val;
    assert forall name :: name in cur ==> ShareIn(cur, name) == cur[name].share.val;
    hide ShareIn, SoundShares;
    if ShareBounds(base, cur, driftPp) {
      forall name | name in base || name in cur ensures ShareBound(base, cur, driftPp, name) {
        assert name in PhaseNames(base, cur);
      }
    }
  }

  lemma FateIff(baseline: BaselineFile, current: BaselineFile, opts: CompareOptions, id: string)
    ensures FateOf(baseline, current, opts, id) in {RefusedCorpus, RefusedShares, Compared} <==>
            Measurable(baseline, current, opts, id)
    ensures FateOf(baseline, current, opts, id) == Compared <==>
            Measurable(baseline, current, opts, id) && Comparable(baseline, current, id)
    ensures FateOf(baseline, current, opts, id) == RefusedCorpus <==>
            Measurable(baseline, current, opts, id) && !CorporaAgree(OwnOrFile(baseline, id), OwnOrFile(current, id))
    ensures FateOf(baseline, current, opts, id) == Missing <==>
            && id in baseline.entries && Wanted(opts, id)
            && (id in current.entries ==> current.entries[id].mean <= 0.0)
  {
    hide Contains, Occurs, CorpusRefused, CorporaAgree, Gateable, SoundShares;
    if opts.only.Some? {
      ContainsIff(id, opts.only.value);
    }
    if id in baseline.entries && id in current.entries {
      CorpusRefusedIff(OwnOrFile(baseline, id), OwnOrFile(current, id));
      GateableIff(baseline.entries[id].phases);
      GateableIff(current.entries[id].phases);
    }
  }

  // ------------------------------------------------------------------
  // The verdict and the lists
  // ------------------------------------------------------------------

  lemma {:induction false} ScenarioRuleIff(
      baseline: BaselineFile, current: BaselineFile, budget: string -> real, opts: CompareOptions, id: string)
    ensures ScenarioAcceptable(baseline, current, budget, opts, id) <==>
            ScenarioHolds(baseline, current, budget, opts, id)
  {
    FateIff(baseline, current, opts, id);
    hide FateOf, WithinBudgets, AbsoluteBounds, WithinDrift, ShareBounds, CorporaAgree, SoundShares, OwnOrFile, Wanted;
    if FateOf(baseline, current, opts, id) == Compared {
      var base, cur := baseline.entries[id], current.entries[id];
      BudgetsIff(base, cur, budget(id));
      DriftIff(base.phases, cur.phases, opts.shareDriftPp);
    }
  }

  /** The gate passes exactly when the spelled-out rule holds. */
  lemma {:induction false} AcceptableIffRule(
      baseline: BaselineFile, current: BaselineFile, budget: string -> real, opts: CompareOptions)
    ensures Acceptable(baseline, current, budget, opts) <==> Holds(baseline, current, budget, opts)
  {
    hide ScenarioHolds;
    forall id
      ensures ScenarioAcceptable(baseline, current, budget, opts, id) <==>
              ScenarioHolds(baseline, current, budget, opts, id)
      ensures id !in baseline.entries ==> ScenarioAcceptable(baseline, current, budget, opts, id)
    {
      ScenarioRuleIff(baseline, current, budget, opts, id);
      hide Selected, CorpusRefused, Gateable, AbsoluteBounds, ShareBounds;
    }
    hide ScenarioAcceptable;
  }

  /** `compare` and the verdict drawn from its report, held against the spelled-out rule. */
  method Verdict(baseline: BaselineFile, current: BaselineFile, budget: string -> real, opts: CompareOptions)
      returns (passed: bool)
    ensures passed <==> Holds(baseline, current, budget, opts)
  {
    var report := Compare(baseline, current, budget, opts);
    AcceptableIffRule(baseline, current, budget, opts);
    passed := report.Passed();
  }

  /** Which scenarios are listed as missing, and which are refused for what. */
  lemma {:induction false} ListsIff(baseline: BaselineFile, current: BaselineFile, opts: CompareOptions, id: string)
    ensures id in AllMissing(baseline, current, opts) <==>
            && id in baseline.entries && Wanted(opts, id)
            && (id in current.entries ==> current.entries[id].mean <= 0.0)
    ensures id in AllNew(baseline, current, opts) <==>
            id in current.entries && id !in baseline.entries && Wanted(opts, id)
    ensures FatalMismatch(Corpus, Some(id)) in AllFatal(baseline, current, opts) <==>
            Measurable(baseline, current, opts, id) && !CorporaAgree(OwnOrFile(baseline, id), OwnOrFile(current, id))
    ensures FatalMismatch(PhaseShares, Some(id)) in AllFatal(baseline, current, opts) <==>
            && Measurable(baseline, current, opts, id)
            && CorporaAgree(OwnOrFile(baseline, id), OwnOrFile(current, id)) && !Comparable(baseline, current, id)
  {
    MissingIff(baseline, current, opts, id);
    NewIff(baseline, current, opts, id);
    FateIff(baseline, current, opts, id);
    if opts.only.Some? {
      ContainsIff(id, opts.only.value);
    }
    FatalKindIff(baseline, current, opts, id);
    hide FateOf, AllMissing, AllNew, AllFatal, CorporaAgree, SoundShares, Occurs, Contains;
  }

  lemma FatalPushedIs(
      baseline: BaselineFile, current: BaselineFile, opts: CompareOptions, other: string, id: string)
    ensures FatalMismatch(Corpus, Some(id)) in FatalPushed(baseline, current, opts)(other) <==>
            other == id && FateOf(baseline, current, opts, id) == RefusedCorpus
    ensures FatalMismatch(PhaseShares, Some(id)) in FatalPushed(baseline, current, opts)(other) <==>
            other == id && FateOf(baseline, current, opts, id) == RefusedShares
  {
    hide FateOf;
  }

  lemma {:induction false} FatalKindIff(baseline: BaselineFile, current: BaselineFile, opts: CompareOptions, id: string)
    ensures FatalMismatch(Corpus, Some(id)) in AllFatal(baseline, current, opts) <==>
            FateOf(baseline, current, opts, id) == RefusedCorpus
    ensures FatalMismatch(PhaseShares, Some(id)) in AllFatal(baseline, current, opts) <==>
            FateOf(baseline, current, opts, id) == RefusedShares
  {
    var refused := FateOf(baseline, current, opts, id) in {RefusedCorpus, RefusedShares};
    assert refused ==> id in baseline.entries;
    hide FlatMap, FateOf, FatalPushed;
    var f, ids := FatalPushed(baseline, current, opts), Keys(baseline.entries.Keys);
    InFlatMap(f, ids, FatalMismatch(Corpus, Some(id)));
    InFlatMap(f, ids, FatalMismatch(PhaseShares, Some(id)));
    forall other ensures FatalMismatch(Corpus, Some(id)) in f(other) <==>
                         other == id && FateOf(baseline, current, opts, id) == RefusedCorpus {
      FatalPushedIs(baseline, current, opts, other, id);
    }
    forall other ensures FatalMismatch(PhaseShares, Some(id)) in f(other) <==>
                         other == id && FateOf(baseline, current, opts, id) == RefusedShares {
      FatalPushedIs(baseline, current, opts, other, id);
    }
  }

  // ------------------------------------------------------------------
  // What a row says
  // ------------------------------------------------------------------

  /** An absolute row: the change, the verdict, and whether it counts. */
  ghost predicate AbsoluteReads(c: Comparison, reference: real, observed: real, pct: real, enforcing: bool) {
    && c.baseline == reference && c.observed == observed && c.budgetPct == pct && c.presence == Both
    && (reference > 0.0 ==> observed == reference + reference * c.changePct / 100.0)
    && (reference <= 0.0 ==> c.changePct == 0.0)
    && (c.status == Exceeded <==> !AtMostOver(reference, observed, pct))
    && (c.status == Improved <==> reference > 0.0 && c.changePct < -1.0 && AtMostOver(reference, observed, pct))
    && (c.enforced <==> enforcing)
  }

  lemma AbsoluteRowReads(
      id: string, metric: Metric, phase: Option<string>, reference: real, observed: real, pct: real, advisory: bool)
    ensures AbsoluteReads(AbsoluteRow(id, metric, phase, reference, observed, pct, advisory), reference, observed, pct,
                          !advisory)
  {
    CeilingIff(reference, observed, pct);
    if reference > 0.0 {
      ChangeReads(reference, observed);
    }
  }

  lemma ChangeReads(reference: real, observed: real)
    requires reference > 0.0
    ensures observed == reference + reference * ((observed - reference) / reference * 100.0) / 100.0
  {
    var q := (observed - reference) / reference;
    assert q * reference == observed - reference;
    assert reference * (q * 100.0) / 100.0 == q * reference;
  }

  /** A share row: percentage points gained or lost, and always enforced. */
  ghost predicate ShareReads(c: Comparison, name: string, base: Phases, cur: Phases, driftPp: real)
    requires SoundShares(base) && SoundShares(cur)
  {
    var b := if name in base then base[name].share.val else 0.0;
    var o := if name in cur then cur[name].share.val else 0.0;
    && c.phase == Some(name) && c.baseline == b && c.observed == o && c.changePct == o - b && c.budgetPct == driftPp
    && (c.presence == AddedInCurrent <==> name !in base)
    && (c.presence == MissingFromCurrent <==> name in base && name !in cur)
    && (c.status == Exceeded <==> if name in base && name !in cur then b > driftPp else o - b > driftPp)
    && (c.status == Improved <==> name in base && name in cur && !(o - b > driftPp) && b - o > driftPp)
    && c.enforced
  }

  /** Every row of a compared scenario, metric by metric, says what the fields of the two entries say. */
  lemma {:induction false} RowsRead(
      id: string, base: BaselineEntry, cur: BaselineEntry, declared: real, driftPp: real, advisory: bool, c: Comparison)
    requires c in ScenarioRows(id, base, cur, declared, driftPp, advisory)
    requires SoundShares(base.phases) && SoundShares(cur.phases)
    ensures c.id == id
    ensures c.metric == Time ==>
              && TimeOf(base) > 0.0 && c.phase == None
              && AbsoluteReads(c, TimeOf(base), TimeOf(cur), Allowance(base, declared), !advisory)
    ensures c.metric == PeakMem ==>
              && base.mem.Some? && cur.mem.Some? && c.phase == None
              && AbsoluteReads(
                   c, base.mem.value.peakBytes as real, cur.mem.value.peakBytes as real, declared, !advisory)
    ensures c.metric == PhaseTime ==>
              && c.phase.Some? && c.phase.value in base.phases && c.phase.value in cur.phases
              && AbsoluteReads(c, base.phases[c.phase.value].ns.val, cur.phases[c.phase.value].ns.val,
                               Allowance(base, declared), !advisory)
    ensures c.metric == PhaseShare ==>
              c.phase.Some? && ShareReads(c, c.phase.value, base.phases, cur.phases, driftPp)
  {
    hide ScenarioRows, EffectiveNs, TimeOf, TimeBudget, Allowance, AbsoluteReads, ShareReads, SoundShares;
    RowShape(id, base, cur, declared, driftPp, advisory, c);
    RowOrigin(id, base, cur, declared, driftPp, advisory, c);
    if c in TimeRows(id, base, cur, TimeBudget(base, declared), advisory) {
      TimeRowReads(id, base, cur, declared, advisory, c);
    } else if c in MemRows(id, base, cur, declared, advisory) {
      MemRowReads(id, base, cur, declared, advisory, c);
    } else {
      var name :| name in PhaseNames(base.phases, cur.phases) &&
                  c in RowsOfPhase(
                    id, name, base.phases, cur.phases, TimeBudget(base, declared), driftPp, advisory);
      BudgetIs(base, declared);
      PhaseRowReads(id, name, base.phases, cur.phases, TimeBudget(base, declared), driftPp, advisory, c);
    }
  }

  lemma TimeRowReads(
      id: string, base: BaselineEntry, cur: BaselineEntry, declared: real, advisory: bool, c: Comparison)
    requires c in TimeRows(id, base, cur, TimeBudget(base, declared), advisory)
    ensures c.metric == Time && c.phase == None && TimeOf(base) > 0.0
    ensures AbsoluteReads(c, TimeOf(base), TimeOf(cur), Allowance(base, declared), !advisory)
  {
    EffectiveTime(base);
    EffectiveTime(cur);
    BudgetIs(base, declared);
    AbsoluteRowReads(id, Time, None, TimeOf(base), TimeOf(cur), Allowance(base, declared), advisory);
    hide EffectiveNs, TimeOf, TimeBudget, Allowance, AbsoluteReads, Classify;
  }

  lemma MemRowReads(
      id: string, base: BaselineEntry, cur: BaselineEntry, declared: real, advisory: bool, c: Comparison)
    requires c in MemRows(id, base, cur, declared, advisory)
    ensures c.metric == PeakMem && c.phase == None && base.mem.Some? && cur.mem.Some?
    ensures AbsoluteReads(
              c, base.mem.value.peakBytes as real, cur.mem.value.peakBytes as real, declared, !advisory)
  {
    AbsoluteRowReads(
      id, PeakMem, None, base.mem.value.peakBytes as real, cur.mem.value.peakBytes as real, declared, advisory);
    hide AbsoluteReads, Classify;
  }

  lemma {:induction false} PhaseRowReads(
      id: string, name: string, base: Phases, cur: Phases, pct: real, driftPp: real, advisory: bool, c: Comparison)
    requires SoundShares(base) && SoundShares(cur)
    requires c in RowsOfPhase(id, name, base, cur, pct, driftPp, advisory)
    ensures c.phase == Some(name)
    ensures c.metric == PhaseTime || c.metric == PhaseShare
    ensures c.metric == PhaseTime ==>
              && name in base && name in cur
              && AbsoluteReads(c, base[name].ns.val, cur[name].ns.val, pct, !advisory)
    ensures c.metric == PhaseShare ==> ShareReads(c, name, base, cur, driftPp)
  {
    hide ShareTotal;
    if name in base && name in cur {
      AbsoluteRowReads(id, PhaseTime, Some(name), base[name].ns.val, cur[name].ns.val, pct, advisory);
      hide AbsoluteReads, Classify;
      assert NsIn(base, name) == base[name].ns.val && NsIn(cur, name) == cur[name].ns.val;
    }
  }

  // ------------------------------------------------------------------
  // The spread is tolerated
  // ------------------------------------------------------------------

  /**
   The other side of outlier robustness: when at least half of the baseline samples lie at least
   `d` away from their median, a time up to three times `d` over the median breaks no time bound,
   whatever budget was declared.
   */
  lemma {:induction false} SpreadIsTolerated(
      base: BaselineEntry, samples: seq<real>, d: real, declared: real, observed: real)
    requires 5 <= |samples| < 0x1_0000_0000 && FromSamples(samples).median > 0.0
    requires base.noise == Some(FromSamples(samples))
    requires 2 * CountBelow(Distances(samples, FromSamples(samples).median), d) < |samples|
    requires observed <= FromSamples(samples).median + 3.0 * d
    ensures UnderCeiling(EffectiveNs(base), observed, TimeBudget(base, declared))
  {
    hide FromSamples, CountBelow, Distances, UnderCeiling, EffectiveNs, TimeBudget, IsUsable;
    MadAtLeast(samples, d);
    EnoughSamplesAreUsable(samples);
    UsableSpreadIsTolerated(base, FromSamples(samples), d, declared, observed);
  }

  lemma UsableSpreadIsTolerated(base: BaselineEntry, stats: NoiseStats, d: real, declared: real, observed: real)
    requires base.noise == Some(stats) && IsUsable(stats) && stats.mad >= d
    requires observed <= stats.median + 3.0 * d
    ensures UnderCeiling(EffectiveNs(base), observed, TimeBudget(base, declared))
  {
    FloorOfUsable(stats);
    hide FloorPct;
    WideEnough(stats.median, stats.mad, d, observed, FloorPct(stats), TimeBudget(base, declared));
  }

  lemma WideEnough(median: real, mad: real, d: real, observed: real, floor: real, pct: real)
    requires median > 0.0 && mad >= d && observed <= median + 3.0 * d
    requires floor * median == 300.0 * mad && pct >= floor
    ensures observed <= median * (1.0 + pct / 100.0)
  {
    CeilingSpelledOut(median, pct);
    assert pct * median >= floor * median by { MoreTimesMore(pct, floor, median); }
    assert median * pct / 100.0 >= 3.0 * mad;
  }

  lemma MoreTimesMore(a: real, b: real, m: real)
    requires a >= b && m > 0.0
    ensures a * m >= b * m
  {
    assert (a - b) * m >= 0.0;
  }
}

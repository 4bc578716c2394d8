/**
 The per-target perf references: which walls may be blessed, how a run is merged into the
 store, and how a record is held against its reference.
 */
module Perf {
  import opened Prelude
  import opened Ordering
  import opened Schema
  import opened Oracle

  datatype PerfEntry = PerfEntry(hotWallMs: Option<nat>, coldWallMs: Option<nat>, counters: Counters)

  datatype PerfBaseline = PerfBaseline(target: string, runId: string, commit: string, entries: map<string, PerfEntry>)

  /** `perf/<target>.json`, by target id. */
  type PerfStore = map<string, PerfBaseline>

  const NO_ENTRY := PerfEntry(None, None, NO_COUNTERS)

  /** The deadline of a query in milliseconds, 0 when the query is not in the corpus. */
  function DeadlineMs(corpus: Corpus, queryId: string): nat {
    if queryId in corpus then Min(corpus[queryId].timeoutS * 1000, U64_MAX) else 0
  }

  /** `is_unblessable_wall`: the wall is not the time of a completion inside its deadline. */
  predicate Unblessable(status: Status, wallMs: nat, timeoutMs: nat) {
    status != Completed || (timeoutMs > 0 && wallMs >= timeoutMs)
  }

  function WallToBless(corpus: Corpus, r: RunRecord): Option<nat> {
    if Unblessable(r.status, r.wallMs, DeadlineMs(corpus, r.queryId)) then None else Some(r.wallMs)
  }

  function MergedPerfEntry(corpus: Corpus, e: PerfEntry, r: RunRecord): PerfEntry {
    var walls := if IsCold(r) then e.(coldWallMs := WallToBless(corpus, r))
        else e.(hotWallMs := WallToBless(corpus, r));
    if !IsCold(r) || walls.counters == NO_COUNTERS then walls.(counters := r.counters) else walls
  }

  function EntryAt(entries: map<string, PerfEntry>, q: string): PerfEntry {
    if q in entries then entries[q] else NO_ENTRY
  }

  function ApplyRecords(corpus: Corpus, entries: map<string, PerfEntry>, records: seq<RunRecord>)
      : map<string, PerfEntry>
  {
    if records == [] then entries
    else
      var r := records[|records| - 1];
      var before := ApplyRecords(corpus, entries, records[..|records| - 1]);
      before[r.queryId := MergedPerfEntry(corpus, EntryAt(before, r.queryId), r)]
  }

  function OnlyTarget(t: string): RunRecord -> seq<RunRecord> {
    (r: RunRecord) => if r.target == t then [r] else []
  }

  function OfTarget(records: seq<RunRecord>, t: string): seq<RunRecord> {
    FlatMap(OnlyTarget(t), records)
  }

  function TargetsOf(records: seq<RunRecord>): set<string> {
    set r | r in records :: r.target
  }

  function PerfEntries(store: PerfStore, t: string): map<string, PerfEntry> {
    if t in store then store[t].entries else map[]
  }

  function UpdatedTarget(meta: RunMeta, corpus: Corpus, store: PerfStore, t: string,
      records: seq<RunRecord>): PerfBaseline {
    PerfBaseline(if t in store then store[t].target else t, meta.runId, meta.gitCommit,
                 ApplyRecords(corpus, PerfEntries(store, t), records))
  }

  /** The store with the targets in `done` merged and the others as they were. */
  function Merged(meta: RunMeta, corpus: Corpus, store: PerfStore, records: seq<RunRecord>,
      done: set<string>): PerfStore {
    map t | t in store.Keys + done ::
      if t in done then UpdatedTarget(meta, corpus, store, t, OfTarget(records, t)) else store[t]
  }

  function PerfAfter(meta: RunMeta, corpus: Corpus, store: PerfStore, records: seq<RunRecord>): PerfStore {
    Merged(meta, corpus, store, records, TargetsOf(records))
  }

  lemma MergedStart(meta: RunMeta, corpus: Corpus, store: PerfStore, records: seq<RunRecord>)
    ensures Merged(meta, corpus, store, records, {}) == store
  {
  }

  /** Updating a target reads nothing but that target's own reference. */
  lemma MergedStep(meta: RunMeta, corpus: Corpus, store: PerfStore, records: seq<RunRecord>, done: set<string>,
      t: string)
    requires t !in done
    ensures var partial := Merged(meta, corpus, store, records, done);
            partial[t := UpdatedTarget(meta, corpus, partial, t, OfTarget(records, t))]
            == Merged(meta, corpus, store, records, done + {t})
  {
    hide OfTarget, ApplyRecords;
    var partial := Merged(meta, corpus, store, records, done);
    assert UpdatedTarget(meta, corpus, partial, t, OfTarget(records, t))
        == UpdatedTarget(meta, corpus, store, t, OfTarget(records, t));
  }

  lemma NoGroups(records: seq<RunRecord>)
    ensures TargetsOf(records[..0]) == {}
  {
  }

  lemma {:induction false} GroupStep(records: seq<RunRecord>, i: nat)
    requires i < |records|
    ensures TargetsOf(records[..i + 1]) == TargetsOf(records[..i]) + {records[i].target}
    ensures forall t :: OfTarget(records[..i + 1], t)
                        == OfTarget(records[..i], t) + if records[i].target == t then [records[i]] else []
    ensures records[i].target !in TargetsOf(records[..i]) ==> OfTarget(records[..i], records[i].target) == []
  {
    hide FlatMap;
    SplitLast(records[..i + 1]);
    assert records[..i + 1][..i] == records[..i];
    forall t ensures OfTarget(records[..i + 1], t) == OfTarget(records[..i], t) + OnlyTarget(t)(records[i]) {
      FlatMapSnoc(OnlyTarget(t), records, i);
    }
    EmptyFlatMap(OnlyTarget(records[i].target), records[..i]);
  }

  class PerfDir {
    var perf: PerfStore

    constructor ()
      ensures perf == map[]
    {
      perf := map[];
    }

    /** `write_perf`: group the records by target, then merge each group in order. */
    method WritePerf(meta: RunMeta, records: seq<RunRecord>, corpus: Corpus) returns (written: seq<string>)
      modifies this
      ensures perf == PerfAfter(meta, corpus, old(perf), records)
      ensures written == Keys(TargetsOf(records))
    {
      hide OfTarget, UpdatedTarget, Merged, TargetsOf, Keys, LexLeq, Distinct, Least;
      var byTarget := GroupByTarget(records);
      written := [];
      var rest := byTarget.Keys;
      ghost var before, done := perf, {};
      MergedStart(meta, corpus, before, records);
      while rest != {}
        invariant done !! rest && done + rest == byTarget.Keys
        invariant perf == Merged(meta, corpus, before, records, done)
        invariant written + Keys(rest) == Keys(byTarget.Keys)
      {
        var t := Least(rest);
        assert t in byTarget;
        var updated := MergeTarget(t, meta, byTarget[t], corpus);
        MergedStep(meta, corpus, before, records, done, t);
        perf := perf[t := updated];
        KeysStep(rest);
        Associate(written, [t], Keys(rest - {t}));
        written, rest, done := written + [t], rest - {t}, done + {t};
      }
      KeysStep({});
    }

    method MergeTarget(t: string, meta: RunMeta, records: seq<RunRecord>, corpus: Corpus)
        returns (updated: PerfBaseline)
      ensures updated == UpdatedTarget(meta, corpus, perf, t, records)
    {
      var baseline := if t in perf then perf[t] else PerfBaseline(t, meta.runId, meta.gitCommit, map[]);
      var entries := MergeRecords(baseline.entries, records, corpus);
      updated := PerfBaseline(baseline.target, meta.runId, meta.gitCommit, entries);
    }

    static method GroupByTarget(records: seq<RunRecord>) returns (byTarget: map<string, seq<RunRecord>>)
      ensures byTarget.Keys == TargetsOf(records)
      ensures forall t :: t in byTarget ==> byTarget[t] == OfTarget(records, t)
    {
      hide OfTarget, TargetsOf;
      byTarget := map[];
      NoGroups(records);
      for i := 0 to |records|
        invariant byTarget.Keys == TargetsOf(records[..i])
        invariant forall t :: t in byTarget ==> byTarget[t] == OfTarget(records[..i], t)
      {
        var r := records[i];
        GroupStep(records, i);
        var group := if r.target in byTarget then byTarget[r.target] else [];
        byTarget := byTarget[r.target := group + [r]];
      }
      assert records[..|records|] == records;
    }

    static method MergeRecords(start: map<string, PerfEntry>, records: seq<RunRecord>, corpus: Corpus)
      returns (entries: map<string, PerfEntry>)
      ensures entries == ApplyRecords(corpus, start, records)
    {
      entries := start;
      for i := 0 to |records|
        invariant entries == ApplyRecords(corpus, start, records[..i])
      {
        var r := records[i];
        var noBless := Unblessable(r.status, r.wallMs, DeadlineMs(corpus, r.queryId));
        var entry := if r.queryId in entries then entries[r.queryId] else NO_ENTRY;
        if r.cacheState == "cold" {
          entry := entry.(coldWallMs := if noBless then None else Some(r.wallMs));
        } else {
          entry := entry.(hotWallMs := if noBless then None else Some(r.wallMs));
        }
        if r.cacheState != "cold" || entry.counters == NO_COUNTERS {
          entry := entry.(counters := r.counters);
        }
        entries := entries[r.queryId := entry];
        assert records[..i + 1][..i] == records[..i];
      }
      assert records[..|records|] == records;
    }
  }

  // ------------------------------------------------------------------
  // The store is a last-writer view of completions
  // ------------------------------------------------------------------

  /** The wall on record for a target, a query and a regime. */
  function WallOn(entries: map<string, PerfEntry>, q: string, cold: bool): Option<nat> {
    if q !in entries then None else if cold then entries[q].coldWallMs else entries[q].hotWallMs
  }

  function WallAt(store: PerfStore, t: string, q: string, cold: bool): Option<nat> {
    WallOn(PerfEntries(store, t), q, cold)
  }

  predicate IsFor(r: RunRecord, t: string, q: string, cold: bool) {
    r.target == t && r.queryId == q && IsCold(r) == cold
  }

  /** Not at or past the query's deadline, which is in seconds; a query without one is always in time. */
  ghost predicate InTime(corpus: Corpus, q: string, wallMs: nat) {
    q in corpus && corpus[q].timeoutS > 0 ==>
      wallMs < corpus[q].timeoutS * 1000 && wallMs < 0xFFFF_FFFF_FFFF_FFFF
  }

  /** What the latest record of that target, query and regime has to say; `before` if there is none. */
  ghost function LatestWall(
      corpus: Corpus, records: seq<RunRecord>, t: string, q: string, cold: bool, before: Option<nat>): Option<nat>
  {
    if records == [] then before
    else
      var r := records[|records| - 1];
      if IsFor(r, t, q, cold) then
        if r.status == Completed && InTime(corpus, q, r.wallMs) then Some(r.wallMs) else None
      else LatestWall(corpus, records[..|records| - 1], t, q, cold, before)
  }

  lemma {:induction false} ApplyingKeepsLatest(
      corpus: Corpus, entries: map<string, PerfEntry>, records: seq<RunRecord>, t: string, q: string, cold: bool)
    requires forall r :: r in records ==> r.target == t
    ensures WallOn(ApplyRecords(corpus, entries, records), q, cold)
            == LatestWall(corpus, records, t, q, cold, WallOn(entries, q, cold))
  {
    if records != [] {
      SplitLast(records);
      ApplyingKeepsLatest(corpus, entries, records[..|records| - 1], t, q, cold);
    }
  }

  lemma {:induction false} LatestOfTarget(corpus: Corpus, records: seq<RunRecord>, t: string, q: string, cold: bool,
      before: Option<nat>)
    ensures forall r :: r in OfTarget(records, t) ==> r.target == t
    ensures LatestWall(corpus, OfTarget(records, t), t, q, cold, before)
        == LatestWall(corpus, records, t, q, cold, before)
  {
    if records != [] {
      var n := |records| - 1;
      LatestOfTarget(corpus, records[..n], t, q, cold, before);
      var rest := OfTarget(records[..n], t);
      if records[n].target == t {
        assert OfTarget(records, t) == rest + [records[n]];
        assert (rest + [records[n]])[..|rest|] == rest;
      } else {
        assert OfTarget(records, t) == rest;
      }
    }
  }

  lemma {:induction false} NoRecordOfTarget(corpus: Corpus, records: seq<RunRecord>, t: string, q: string,
      cold: bool, before: Option<nat>)
    requires t !in TargetsOf(records)
    ensures LatestWall(corpus, records, t, q, cold, before) == before
  {
    if records != [] {
      var n := |records| - 1;
      SplitLast(records);
      assert records[n] in records;
      assert t !in TargetsOf(records[..n]);
      NoRecordOfTarget(corpus, records[..n], t, q, cold, before);
    }
  }

  lemma {:induction false} OneWriteIsLatest(
      meta: RunMeta, corpus: Corpus, store: PerfStore, records: seq<RunRecord>, t: string, q: string, cold: bool)
    ensures WallAt(PerfAfter(meta, corpus, store, records), t, q, cold)
            == LatestWall(corpus, records, t, q, cold, WallAt(store, t, q, cold))
  {
    hide ApplyRecords, OfTarget;
    if t in TargetsOf(records) {
      LatestOfTarget(corpus, records, t, q, cold, WallAt(store, t, q, cold));
      ApplyingKeepsLatest(corpus, PerfEntries(store, t), OfTarget(records, t), t, q, cold);
    } else {
      NoRecordOfTarget(corpus, records, t, q, cold, WallAt(store, t, q, cold));
    }
  }

  datatype PerfCall = PerfCall(meta: RunMeta, records: seq<RunRecord>)

  function PerfRun(corpus: Corpus, store: PerfStore, calls: seq<PerfCall>): PerfStore
    decreases calls
  {
    if calls == [] then store
    else PerfRun(corpus, PerfAfter(calls[0].meta, corpus, store, calls[0].records), calls[1..])
  }

  ghost function AllRecords(calls: seq<PerfCall>): seq<RunRecord> {
    if calls == [] then [] else calls[0].records + AllRecords(calls[1..])
  }

  lemma {:induction false} LatestSplits(
      corpus: Corpus, a: seq<RunRecord>, b: seq<RunRecord>, t: string, q: string, cold: bool, before: Option<nat>)
    ensures LatestWall(corpus, a + b, t, q, cold, before)
            == LatestWall(corpus, b, t, q, cold, LatestWall(corpus, a, t, q, cold, before))
  {
    if b == [] {
      assert a + b == a;
    } else {
      LatestSplits(corpus, a, b[..|b| - 1], t, q, cold, before);
      assert (a + b)[..|a + b| - 1] == a + b[..|b| - 1];
    }
  }

  /**
   After any sequence of blesses, the wall on record for a target, query and regime is the one
   of the latest such record if it completed within its known deadline, and none otherwise.
   */
  lemma {:induction false} PerfStoreIsLastWriterView(
      corpus: Corpus, store: PerfStore, calls: seq<PerfCall>, t: string, q: string, cold: bool)
    ensures WallAt(PerfRun(corpus, store, calls), t, q, cold)
            == LatestWall(corpus, AllRecords(calls), t, q, cold, WallAt(store, t, q, cold))
    decreases calls
  {
    if calls != [] {
      var c := calls[0];
      OneWriteIsLatest(c.meta, corpus, store, c.records, t, q, cold);
      LatestSplits(corpus, c.records, AllRecords(calls[1..]), t, q, cold, WallAt(store, t, q, cold));
      hide PerfAfter, WallAt;
      PerfStoreIsLastWriterView(corpus, PerfAfter(c.meta, corpus, store, c.records), calls[1..], t, q, cold);
    }
  }

  lemma {:induction false} OtherRegimeIsSilent(
      corpus: Corpus, records: seq<RunRecord>, t: string, q: string, cold: bool, before: Option<nat>)
    requires forall r :: r in records ==> IsCold(r) != cold
    ensures LatestWall(corpus, records, t, q, cold, before) == before
  {
    if records != [] {
      SplitLast(records);
      OtherRegimeIsSilent(corpus, records[..|records| - 1], t, q, cold, before);
    }
  }

  /** A hot run and a cold run may be blessed in either order. */
  lemma {:induction false} HotAndColdCommute(
      corpus: Corpus, store: PerfStore, hot: PerfCall, cold: PerfCall, t: string, q: string, regime: bool)
    requires forall r :: r in hot.records ==> !IsCold(r)
    requires forall r :: r in cold.records ==> IsCold(r)
    ensures WallAt(PerfRun(corpus, store, [hot, cold]), t, q, regime)
        == WallAt(PerfRun(corpus, store, [cold, hot]), t, q, regime)
  {
    TwoCalls(corpus, store, hot, cold, t, q, regime);
    TwoCalls(corpus, store, cold, hot, t, q, regime);
    var before := WallAt(store, t, q, regime);
    hide LatestWall;
    if regime {
      OtherRegimeIsSilent(corpus, hot.records, t, q, regime, before);
      OtherRegimeIsSilent(corpus, hot.records, t, q, regime, LatestWall(corpus, cold.records, t, q, regime, before));
    } else {
      OtherRegimeIsSilent(corpus, cold.records, t, q, regime, before);
      OtherRegimeIsSilent(corpus, cold.records, t, q, regime, LatestWall(corpus, hot.records, t, q, regime, before));
    }
  }

  lemma {:induction false} TwoCalls(corpus: Corpus, store: PerfStore, a: PerfCall, b: PerfCall, t: string, q: string,
      cold: bool)
    ensures WallAt(PerfRun(corpus, store, [a, b]), t, q, cold)
            == LatestWall(corpus, b.records, t, q, cold,
                LatestWall(corpus, a.records, t, q, cold, WallAt(store, t, q, cold)))
  {
    PerfStoreIsLastWriterView(corpus, store, [a, b], t, q, cold);
    assert [a, b][1..] == [b] && [b][1..] == [];
    assert AllRecords([b]) == b.records + AllRecords([]) == b.records;
    assert AllRecords([a, b]) == a.records + AllRecords([b]);
    LatestSplits(corpus, a.records, b.records, t, q, cold, WallAt(store, t, q, cold));
  }

  // ------------------------------------------------------------------
  // compare_one, the perf half
  // ------------------------------------------------------------------

  datatype EffectiveBudget = EffectiveBudget(pct: real, minDeltaMs: nat)

  datatype Budgets = Budgets(native: real, virtualHot: real, minDeltaMs: nat, overrides: map<string, real>)

  /** The budget that gates a record; a cold record is advisory. */
  function BudgetFor(b: Budgets, queryId: string, isVirtual: bool, cold: bool): Option<EffectiveBudget> {
    if cold then None
    else
      var pct := if queryId in b.overrides then b.overrides[queryId] else if isVirtual then b.virtualHot else b.native;
      Some(EffectiveBudget(pct, b.minDeltaMs))
  }

  function Ratio(baselineMs: nat, observedMs: nat): real {
    if baselineMs == 0 then 1.0 else observedMs as real / baselineMs as real
  }

  predicate OverBudget(baselineMs: nat, observedMs: nat, budget: EffectiveBudget) {
    && (Ratio(baselineMs, observedMs) - 1.0) * 100.0 > budget.pct
    && Max(observedMs - baselineMs, 0) >= budget.minDeltaMs
  }

  datatype PerfCheck = PerfCheck(baselineMs: nat, observedMs: nat, ratio: real, violated: bool)

  datatype CompareOutcome = CompareOutcome(hash: HashCheck, perf: Option<PerfCheck>)

  function CompareOne(
      r: RunRecord, expected: Option<ExpectedEntry>, perf: Option<PerfEntry>, budget: Option<EffectiveBudget>,
      gate: HashGate): CompareOutcome
  {
    var base := if perf.None? then None else if IsCold(r) then perf.value.coldWallMs else perf.value.hotWallMs;
    CompareOutcome(
      CheckHash(r, expected, gate),
      if base.None? then None
      else Some(PerfCheck(base.value, r.wallMs, Ratio(base.value, r.wallMs),
                          budget.Some? && OverBudget(base.value, r.wallMs, budget.value))))
  }

  /** The documented rule: over the baseline by more than the percentage and by at least the floor. */
  ghost predicate ExceedsBudget(baselineMs: nat, observedMs: nat, budget: EffectiveBudget) {
    && observedMs as real * 100.0 > baselineMs as real * (100.0 + budget.pct)
    && Max(observedMs - baselineMs, 0) >= budget.minDeltaMs
  }

  lemma PositiveBaselineFollowsRule(baselineMs: nat, observedMs: nat, budget: EffectiveBudget)
    requires baselineMs > 0
    ensures OverBudget(baselineMs, observedMs, budget) <==> ExceedsBudget(baselineMs, observedMs, budget)
  {
    var b, o := baselineMs as real, observedMs as real;
    var ratio := o / b;
    assert ratio * b == o;
    var x := (ratio - 1.0) * 100.0 - budget.pct;
    assert x * b == o * 100.0 - b * (100.0 + budget.pct) by {
      assert x * b == ratio * b * 100.0 - 100.0 * b - budget.pct * b;
    }
    SignOfProduct(x, b);
  }

  /**
   The code follows the documented rule exactly when the baseline is positive, or the wall is
   below the floor, or the budget is negative just when the wall is positive. So under a
   non-negative budget a baseline of zero milliseconds hides every positive wall that reaches
   the floor.
   */
  lemma OverBudgetIff(baselineMs: nat, observedMs: nat, budget: EffectiveBudget)
    ensures (OverBudget(baselineMs, observedMs, budget) <==> ExceedsBudget(baselineMs, observedMs, budget)) <==>
            baselineMs > 0 || observedMs < budget.minDeltaMs || (budget.pct < 0.0 <==> observedMs > 0)
  {
    if baselineMs > 0 {
      PositiveBaselineFollowsRule(baselineMs, observedMs, budget);
    } else {
      assert baselineMs as real * (100.0 + budget.pct) == 0.0;
    }
  }

  lemma SignOfProduct(x: real, b: real)
    requires b > 0.0
    ensures x * b > 0.0 <==> x > 0.0
  {
  }

  predicate NonNegativeBudgets(b: Budgets) {
    b.native >= 0.0 && b.virtualHot >= 0.0 && forall q :: q in b.overrides ==> b.overrides[q] >= 0.0
  }

  /** No two records share target, query and regime. */
  ghost predicate UniqueRecords(records: seq<RunRecord>) {
    forall i, j :: 0 <= i < j < |records|
        ==> !IsFor(records[j], records[i].target, records[i].queryId, IsCold(records[i]))
  }

  lemma {:induction false} UniqueIsLatest(corpus: Corpus, records: seq<RunRecord>, i: nat, before: Option<nat>)
    requires UniqueRecords(records) && i < |records|
    ensures LatestWall(corpus, records, records[i].target, records[i].queryId, IsCold(records[i]), before)
            == WallToBless(corpus, records[i])
  {
    if i < |records| - 1 {
      UniqueIsLatest(corpus, records[..|records| - 1], i, before);
    }
  }

  /** The comparison `vbench compare` makes of one record against both stores. */
  function GateRecord(
      oracles: OracleStore, perf: PerfStore, corpus: Corpus, budgets: Budgets, r: RunRecord,
      isVirtual: bool): CompareOutcome
  {
    CompareOne(r, Lookup(oracles, r.queryId), Lookup(PerfEntries(perf, r.target), r.queryId),
               BudgetFor(budgets, r.queryId, isVirtual, IsCold(r)), GateOf(corpus, r.queryId))
  }

  /** A record is never over the budget set by its own wall. */
  lemma OwnWallIsWithinBudget(wallMs: nat, budget: EffectiveBudget)
    requires budget.pct >= 0.0
    ensures !OverBudget(wallMs, wallMs, budget)
  {
  }

  /**
   Bless a run whose records are unique per target, query and regime, then gate the same run
   against both stores: no record violates its perf budget, and every usable native record
   passes parity if and only if the usable records of each query agree.
   */
  lemma {:induction false} BlessThenGateIsGreen(
      meta: RunMeta, corpus: Corpus, oracles: OracleStore, perf: PerfStore, force: bool, records: seq<RunRecord>,
      budgets: Budgets)
    requires !BlessRefused(meta, corpus, oracles, force, records)
    requires UniqueRecords(records) && NonNegativeBudgets(budgets)
    ensures var oracles' := Blessed(meta, corpus, oracles, force, records);
            var perf' := PerfAfter(meta, corpus, perf, records);
            && (forall r, v :: r in records ==>
                  var check := GateRecord(oracles', perf', corpus, budgets, r, v).perf;
                  check.Some? ==> !check.value.violated)
            && ((forall r, v :: r in records && Usable(meta, corpus, r) ==>
                   GateRecord(oracles', perf', corpus, budgets, r, v).hash == Pass)
                <==> SelfConsistent(meta, corpus, records))
  {
    BlessThenGateIsGreenIff(meta, corpus, oracles, force, records);
    var oracles', perf' := Blessed(meta, corpus, oracles, force, records), PerfAfter(meta, corpus, perf, records);
    hide Blessed, BlessRefused, PerfAfter, PerfEntries, CheckHash, Usable, SelfConsistent, OverBudget;
    forall r, v | r in records
      ensures var check := GateRecord(oracles', perf', corpus, budgets, r, v).perf;
              check.Some? ==> !check.value.violated
    {
      OwnPerfIsGreen(meta, corpus, oracles', perf, records, budgets, r, v);
    }
    forall r, v
      ensures GateRecord(oracles', perf', corpus, budgets, r, v).hash
              == CheckHash(r, Lookup(oracles', r.queryId), GateOf(corpus, r.queryId))
    {
    }
    assert (forall r, v :: r in records && Usable(meta, corpus, r) ==>
              GateRecord(oracles', perf', corpus, budgets, r, v).hash == Pass)
           <==> forall r :: r in records && Usable(meta, corpus, r) ==>
                  CheckHash(r, Lookup(oracles', r.queryId), GateOf(corpus, r.queryId)) == Pass by {
      forall r ensures GateRecord(oracles', perf', corpus, budgets, r, true).hash
                       == CheckHash(r, Lookup(oracles', r.queryId), GateOf(corpus, r.queryId)) {
      }
    }
  }

  lemma {:induction false} OwnPerfIsGreen(
      meta: RunMeta, corpus: Corpus, oracles: OracleStore, perf: PerfStore, records: seq<RunRecord>,
      budgets: Budgets, r: RunRecord, v: bool)
    requires UniqueRecords(records) && NonNegativeBudgets(budgets) && r in records
    ensures var check := GateRecord(oracles, PerfAfter(meta, corpus, perf, records), corpus, budgets, r, v).perf;
            check.Some? ==> !check.value.violated
  {
    hide PerfAfter, OverBudget, CheckHash, UniqueRecords;
    GatedAgainstOwnWall(meta, corpus, perf, records, r);
    if !IsCold(r) {
      OwnWallIsWithinBudget(r.wallMs, BudgetFor(budgets, r.queryId, v, false).value);
    }
  }

  lemma {:induction false} GatedAgainstOwnWall(meta: RunMeta, corpus: Corpus, perf: PerfStore,
      records: seq<RunRecord>, r: RunRecord)
    requires UniqueRecords(records) && r in records
    ensures WallAt(PerfAfter(meta, corpus, perf, records), r.target, r.queryId, IsCold(r)) in {None, Some(r.wallMs)}
  {
    hide PerfAfter, WallAt;
    var i :| 0 <= i < |records| && records[i] == r;
    OneWriteIsLatest(meta, corpus, perf, records, r.target, r.queryId, IsCold(r));
    UniqueIsLatest(corpus, records, i, WallAt(perf, r.target, r.queryId, IsCold(r)));
  }

  /**
   A query blessed from a completion in under a millisecond is not gated until the next bless:
   its wall is zero, and however slow a hot record of it is, no non-negative budget is violated.
   */
  lemma {:induction false} ZeroWallHidesSlowdown(
      meta: RunMeta, corpus: Corpus, oracles: OracleStore, perf: PerfStore, records: seq<RunRecord>, quick: RunRecord,
      slow: RunRecord, budgets: Budgets, v: bool)
    requires UniqueRecords(records) && quick in records && NonNegativeBudgets(budgets)
    requires quick.status == Completed && quick.wallMs == 0 && !IsCold(quick) && !IsCold(slow)
    requires slow.target == quick.target && slow.queryId == quick.queryId
    requires slow.wallMs > 0 && slow.wallMs >= budgets.minDeltaMs
    ensures var after := PerfAfter(meta, corpus, perf, records);
            var check := GateRecord(oracles, after, corpus, budgets, slow, v).perf;
            && check.Some? && check.value.baselineMs == 0 && !check.value.violated
            && ExceedsBudget(0, slow.wallMs, BudgetFor(budgets, slow.queryId, v, false).value)
  {
    ZeroWallIsBlessed(meta, corpus, perf, records, quick);
    ZeroBaselineHides(slow.wallMs, BudgetFor(budgets, slow.queryId, v, false).value);
    hide PerfAfter, CheckHash, UniqueRecords, OverBudget, ExceedsBudget, Ratio, NonNegativeBudgets;
  }

  lemma ZeroBaselineHides(observedMs: nat, budget: EffectiveBudget)
    requires budget.pct >= 0.0 && observedMs > 0 && observedMs >= budget.minDeltaMs
    ensures !OverBudget(0, observedMs, budget) && ExceedsBudget(0, observedMs, budget)
  {
    assert 0.0 * (100.0 + budget.pct) == 0.0;
  }

  lemma {:induction false} ZeroWallIsBlessed(
      meta: RunMeta, corpus: Corpus, perf: PerfStore, records: seq<RunRecord>, quick: RunRecord)
    requires UniqueRecords(records) && quick in records
    requires quick.status == Completed && quick.wallMs == 0 && !IsCold(quick)
    ensures WallAt(PerfAfter(meta, corpus, perf, records), quick.target, quick.queryId, false) == Some(0)
  {
    var i :| 0 <= i < |records| && records[i] == quick;
    hide PerfAfter, UniqueRecords, WallAt, LatestWall;
    OneWriteIsLatest(meta, corpus, perf, records, quick.target, quick.queryId, false);
    UniqueIsLatest(corpus, records, i, WallAt(perf, quick.target, quick.queryId, false));
  }
}

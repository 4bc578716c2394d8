/**
 What the gate guarantees: every scenario is accounted for once, work cannot hide by moving
 between phases, a foreign host cannot influence the verdict through its clock or its
 allocator, and a minority of outlier samples cannot mask a regression.
 */
module GateProperties {
  import opened Prelude
  import opened Ordering
  import opened Noise
  import opened Meta
  import opened Baseline
  import opened Gate

  // ------------------------------------------------------------------
  // Selecting rows
  // ------------------------------------------------------------------

  ghost function Only(rows: seq<Comparison>, keep: Comparison -> bool): seq<Comparison> {
    if rows == [] then []
    else Only(rows[..|rows| - 1], keep) + (if keep(rows[|rows| - 1]) then [rows[|rows| - 1]] else [])
  }

  lemma {:induction false} OnlySplits(a: seq<Comparison>, b: seq<Comparison>, keep: Comparison -> bool)
    ensures Only(a + b, keep) == Only(a, keep) + Only(b, keep)
  {
    if b == [] {
      assert a + b == a;
    } else {
      var n := |b| - 1;
      OnlySplits(a, b[..n], keep);
      assert (a + b)[..|a + b| - 1] == a + b[..n];
    }
  }

  lemma {:induction false} OnlyAllOrNone(rows: seq<Comparison>, keep: Comparison -> bool)
    ensures (forall i :: 0 <= i < |rows| ==> keep(rows[i])) ==> Only(rows, keep) == rows
    ensures (forall i :: 0 <= i < |rows| ==> !keep(rows[i])) ==> Only(rows, keep) == []
  {
    if rows != [] {
      OnlyAllOrNone(rows[..|rows| - 1], keep);
    }
  }

  lemma {:induction false} OnlyFlatMapEqual(
      f: string -> seq<Comparison>, g: string -> seq<Comparison>, ids: seq<string>, keep: Comparison -> bool)
    requires forall id :: id in ids ==> Only(f(id), keep) == Only(g(id), keep)
    ensures Only(FlatMap(f, ids), keep) == Only(FlatMap(g, ids), keep)
  {
    if ids != [] {
      var n := |ids| - 1;
      SplitLast(ids);
      OnlyFlatMapEqual(f, g, ids[..n], keep);
      OnlySplits(FlatMap(f, ids[..n]), f(ids[n]), keep);
      OnlySplits(FlatMap(g, ids[..n]), g(ids[n]), keep);
    }
  }

  ghost function OfScenario(id: string): Comparison -> bool {
    (c: Comparison) => c.id == id
  }

  ghost function OfShares(): Comparison -> bool {
    (c: Comparison) => c.metric == PhaseShare
  }

  ghost predicate OwnRows(f: string -> seq<Comparison>, id: string) {
    forall c :: c in f(id) ==> c.id == id
  }

  lemma {:induction false} OwnRowsSelected(f: string -> seq<Comparison>, id: string, other: string)
    requires OwnRows(f, other)
    ensures Only(f(other), OfScenario(id)) == if id == other then f(id) else []
  {
    OnlyAllOrNone(f(other), OfScenario(id));
  }

  /** When every element pushes rows of its own only, selecting one element's rows recovers them. */
  lemma {:induction false} OnlyOwnRows(f: string -> seq<Comparison>, ids: seq<string>, id: string)
    requires Distinct(ids) && forall x :: x in ids ==> OwnRows(f, x)
    ensures Only(FlatMap(f, ids), OfScenario(id)) == if id in ids then f(id) else []
  {
    if ids != [] {
      var n := |ids| - 1;
      SplitLast(ids);
      assert ids[n] !in ids[..n];
      OnlyOwnRows(f, ids[..n], id);
      OwnRowsSelected(f, id, ids[n]);
      OnlySplits(FlatMap(f, ids[..n]), f(ids[n]), OfScenario(id));
      hide Only, OwnRows;
    }
  }

  lemma {:induction false} PhaseRowOrigin(
      id: string, base: Phases, cur: Phases, budgetPct: real, driftPp: real, advisory: bool, c: Comparison)
    ensures c in FlatMap(PhaseRows(id, base, cur, budgetPct, driftPp, advisory), Keys(PhaseNames(base, cur))) <==>
            exists name :: name in PhaseNames(base, cur)
                && c in RowsOfPhase(id, name, base, cur, budgetPct, driftPp, advisory)
  {
    hide FlatMap, RowsOfPhase;
    InFlatMap(PhaseRows(id, base, cur, budgetPct, driftPp, advisory), Keys(PhaseNames(base, cur)), c);
  }

  /** Where a comparison row can come from. */
  lemma {:induction false} RowOrigin(
      id: string, base: BaselineEntry, cur: BaselineEntry, declared: real, driftPp: real, advisory: bool, c: Comparison)
    ensures c in ScenarioRows(id, base, cur, declared, driftPp, advisory) <==>
            || c in TimeRows(id, base, cur, TimeBudget(base, declared), advisory)
            || c in MemRows(id, base, cur, declared, advisory)
            || exists name :: name in PhaseNames(base.phases, cur.phases) &&
                 c in RowsOfPhase(id, name, base.phases, cur.phases, TimeBudget(base, declared), driftPp, advisory)
  {
    hide FlatMap, TimeRows, MemRows, TimeBudget;
    PhaseRowOrigin(id, base.phases, cur.phases, TimeBudget(base, declared), driftPp, advisory, c);
  }

  /** A row carries its scenario, and an absolute row is enforced exactly outside advisory runs. */
  lemma {:induction false} RowShape(
      id: string, base: BaselineEntry, cur: BaselineEntry, declared: real, driftPp: real, advisory: bool, c: Comparison)
    requires c in ScenarioRows(id, base, cur, declared, driftPp, advisory)
    ensures c.id == id
    ensures c.enforced <==> c.metric == PhaseShare || !advisory
  {
    hide ScenarioRows, EffectiveNs, Classify, TimeBudget;
    RowOrigin(id, base, cur, declared, driftPp, advisory, c);
  }

  lemma {:induction false} ScenarioRowsAreOwn(
      baseline: BaselineFile, current: BaselineFile, budget: string -> real, opts: CompareOptions, id: string)
    ensures OwnRows(RowsPushed(baseline, current, budget, opts), id)
  {
    hide ScenarioRows, FateOf;
    forall c | c in RowsPushed(baseline, current, budget, opts)(id) ensures c.id == id {
      RowShape(id, baseline.entries[id], current.entries[id], budget(id), opts.shareDriftPp,
          Advisory(baseline, current, opts), c);
    }
  }

  // ------------------------------------------------------------------
  // Accounting
  // ------------------------------------------------------------------

  ghost predicate ReportedFatal(fatal: seq<FatalMismatch>, id: string) {
    exists f :: f in fatal && f.id == Some(id)
  }

  lemma {:induction false} MissingIff(baseline: BaselineFile, current: BaselineFile, opts: CompareOptions, id: string)
    ensures id in AllMissing(baseline, current, opts) <==> FateOf(baseline, current, opts, id) == Missing
  {
    assert FateOf(baseline, current, opts, id) != NotSelected ==> id in baseline.entries;
    hide FlatMap, FateOf;
    InFlatMap(MissingPushed(baseline, current, opts), Keys(baseline.entries.Keys), id);
    if FateOf(baseline, current, opts, id) == Missing {
      assert id in MissingPushed(baseline, current, opts)(id);
    }
  }

  lemma {:induction false} NewIff(baseline: BaselineFile, current: BaselineFile, opts: CompareOptions, id: string)
    ensures id in AllNew(baseline, current, opts) <==>
            id in current.entries && id !in baseline.entries && Selected(opts, id)
  {
    hide FlatMap, Selected;
    InFlatMap(NewPushed(baseline, opts), Keys(current.entries.Keys), id);
    if id in current.entries && id !in baseline.entries && Selected(opts, id) {
      assert id in NewPushed(baseline, opts)(id);
    }
  }

  lemma {:induction false} FatalIff(baseline: BaselineFile, current: BaselineFile, opts: CompareOptions, id: string)
    ensures ReportedFatal(AllFatal(baseline, current, opts), id) <==>
            FateOf(baseline, current, opts, id) in {RefusedCorpus, RefusedShares}
  {
    if ReportedFatal(AllFatal(baseline, current, opts), id) {
      ReportedFatalIsRefused(baseline, current, opts, id);
    }
    if FateOf(baseline, current, opts, id) in {RefusedCorpus, RefusedShares} {
      RefusedIsReportedFatal(baseline, current, opts, id);
    }
  }

  lemma {:induction false} ReportedFatalIsRefused(baseline: BaselineFile, current: BaselineFile,
      opts: CompareOptions, id: string)
    requires ReportedFatal(AllFatal(baseline, current, opts), id)
    ensures FateOf(baseline, current, opts, id) in {RefusedCorpus, RefusedShares}
  {
    hide FlatMap, FateOf, Keys;
    var f :| f in AllFatal(baseline, current, opts) && f.id == Some(id);
    InFlatMap(FatalPushed(baseline, current, opts), Keys(baseline.entries.Keys), f);
  }

  lemma {:induction false} RefusedIsReportedFatal(baseline: BaselineFile, current: BaselineFile,
      opts: CompareOptions, id: string)
    requires FateOf(baseline, current, opts, id) in {RefusedCorpus, RefusedShares}
    ensures ReportedFatal(AllFatal(baseline, current, opts), id)
  {
    assert id in baseline.entries;
    hide FlatMap, FateOf;
    var f := FatalOf(baseline, current, opts, id)[0];
    assert f in FatalPushed(baseline, current, opts)(id);
    InFlatMap(FatalPushed(baseline, current, opts), Keys(baseline.entries.Keys), f);
  }

  /** There is something to put into a row: a positive time, memory on both sides, or a phase. */
  ghost predicate HasSomethingToCompare(base: BaselineEntry, cur: BaselineEntry) {
    EffectiveNs(base) > 0.0 || (base.mem.Some? && cur.mem.Some?) || base.phases != map[] || cur.phases != map[]
  }

  lemma {:induction false} LeavesRowIff(
      id: string, base: BaselineEntry, cur: BaselineEntry, declared: real, driftPp: real, advisory: bool)
    ensures ScenarioRows(id, base, cur, declared, driftPp, advisory) != [] <==> HasSomethingToCompare(base, cur)
  {
    hide FlatMap, Keys, TimeBudget, AbsoluteRow, EffectiveNs, PhaseRows;
    PhasesLeaveRowsIff(id, base.phases, cur.phases, TimeBudget(base, declared), driftPp, advisory);
  }

  lemma {:induction false} PhasesLeaveRowsIff(
      id: string, base: Phases, cur: Phases, budgetPct: real, driftPp: real, advisory: bool)
    ensures FlatMap(PhaseRows(id, base, cur, budgetPct, driftPp, advisory), Keys(PhaseNames(base, cur))) == []
            <==> base == map[] && cur == map[]
  {
    hide FlatMap, AbsoluteRow, ShareRow, ClassifyShare;
    var f, names := PhaseRows(id, base, cur, budgetPct, driftPp, advisory), PhaseNames(base, cur);
    EmptyFlatMap(f, Keys(names));
    forall name | name in names ensures f(name) != [] {}
    assert names == {} <==> base == map[] && cur == map[];
  }

  /**
   A selected baseline scenario is reported missing, refused, or compared, and exactly one of
   them; its rows in the report are exactly its own comparison rows, and none unless compared.
   It has a row exactly when it is compared and there is something to compare.
   */
  lemma {:induction false} EveryScenarioAccountedFor(
      baseline: BaselineFile, current: BaselineFile, budget: string -> real, opts: CompareOptions, id: string)
    requires id in baseline.entries && Selected(opts, id)
    ensures var missing := id in AllMissing(baseline, current, opts);
            var refused := ReportedFatal(AllFatal(baseline, current, opts), id);
            var compared := FateOf(baseline, current, opts, id) == Compared;
            var rows := Only(AllRows(baseline, current, budget, opts), OfScenario(id));
            && (missing || refused || compared)
            && !(missing && refused) && !(missing && compared) && !(refused && compared)
            && rows == (if compared
                        then ScenarioRows(id, baseline.entries[id], current.entries[id], budget(id),
                            opts.shareDriftPp, Advisory(baseline, current, opts))
                        else [])
            && (rows != [] <==> compared && HasSomethingToCompare(baseline.entries[id], current.entries[id]))
  {
    hide FlatMap, ScenarioRows, HasSomethingToCompare;
    MissingIff(baseline, current, opts, id);
    FatalIff(baseline, current, opts, id);
    var ids := Keys(baseline.entries.Keys);
    var rows := RowsPushed(baseline, current, budget, opts);
    forall x | x in ids ensures OwnRows(rows, x) {
      ScenarioRowsAreOwn(baseline, current, budget, opts, x);
    }
    OnlyOwnRows(rows, ids, id);
    if FateOf(baseline, current, opts, id) == Compared {
      LeavesRowIff(id, baseline.entries[id], current.entries[id], budget(id), opts.shareDriftPp,
                   Advisory(baseline, current, opts));
    }
  }

  /**
   So a scenario can be selected and yet appear nowhere in the report: exactly when it is
   compared and there is nothing to compare.
   */
  lemma {:induction false} SilentlyComparedIff(
      baseline: BaselineFile, current: BaselineFile, budget: string -> real, opts: CompareOptions, id: string)
    requires id in baseline.entries && Selected(opts, id)
    ensures && id !in AllMissing(baseline, current, opts)
            && !ReportedFatal(AllFatal(baseline, current, opts), id)
            && Only(AllRows(baseline, current, budget, opts), OfScenario(id)) == [] <==>
            && FateOf(baseline, current, opts, id) == Compared
            && !HasSomethingToCompare(baseline.entries[id], current.entries[id])
  {
    hide AllMissing, AllRows, AllFatal, ReportedFatal, Only, FateOf, HasSomethingToCompare;
    EveryScenarioAccountedFor(baseline, current, budget, opts, id);
  }

  // ------------------------------------------------------------------
  // Work cannot hide between phases
  // ------------------------------------------------------------------

  ghost function ShareDelta(base: Phases, cur: Phases, name: string): real {
    ShareIn(cur, name) - ShareIn(base, name)
  }

  /** The movements of all share rows added up. */
  ghost function ShareMovement(rows: seq<Comparison>): real {
    if rows == [] then 0.0
    else
      var last := rows[|rows| - 1];
      ShareMovement(rows[..|rows| - 1]) + (if last.metric == PhaseShare then last.changePct else 0.0)
  }

  lemma {:induction false} MovementSplits(a: seq<Comparison>, b: seq<Comparison>)
    ensures ShareMovement(a + b) == ShareMovement(a) + ShareMovement(b)
  {
    if b == [] {
      assert a + b == a;
    } else {
      MovementSplits(a, b[..|b| - 1]);
      assert (a + b)[..|a + b| - 1] == a + b[..|b| - 1];
    }
  }

  lemma PhaseMovement(id: string, name: string, base: Phases, cur: Phases, budgetPct: real, driftPp: real,
      advisory: bool)
    ensures ShareMovement(RowsOfPhase(id, name, base, cur, budgetPct, driftPp, advisory)) == ShareDelta(base, cur, name)
  {
    hide Classify;
    var rows := RowsOfPhase(id, name, base, cur, budgetPct, driftPp, advisory);
    if |rows| == 2 {
      assert rows[..1] == [rows[0]];
      assert ShareMovement([rows[0]]) == 0.0;
    }
  }

  lemma {:induction false} PhasesMovement(
      id: string, names: seq<string>, base: Phases, cur: Phases, budgetPct: real, driftPp: real, advisory: bool,
      delta: string -> real)
    requires Distinct(names)
    requires forall name :: delta(name) == ShareDelta(base, cur, name)
    ensures ShareMovement(FlatMap(PhaseRows(id, base, cur, budgetPct, driftPp, advisory), names))
            == Sum((set name | name in names), delta)
  {
    if names != [] {
      var n := |names| - 1;
      var f := PhaseRows(id, base, cur, budgetPct, driftPp, advisory);
      PhasesMovement(id, names[..n], base, cur, budgetPct, driftPp, advisory, delta);
      PhaseMovement(id, names[n], base, cur, budgetPct, driftPp, advisory);
      MovementSplits(FlatMap(f, names[..n]), f(names[n]));
      var all := set name | name in names;
      assert names == names[..n] + [names[n]];
      assert all - {names[n]} == set name | name in names[..n];
      SumRemove(all, names[n], delta);
    }
  }

  lemma {:induction false} UnionShareDeltas(base: Phases, cur: Phases, delta: string -> real)
    requires forall name :: delta(name) == ShareDelta(base, cur, name)
    ensures Sum(PhaseNames(base, cur), delta) == ShareSum(cur) - ShareSum(base)
  {
    var b, c := SharesOf(base), SharesOf(cur);
    SumDifference(PhaseNames(base, cur), c, b, delta);
    SumSuperset(base.Keys, PhaseNames(base, cur), b);
    SumSuperset(cur.Keys, PhaseNames(base, cur), c);
  }

  lemma {:induction false} TotalsDoNotMove(
      id: string, base: BaselineEntry, cur: BaselineEntry, budgetPct: real, declared: real, advisory: bool)
    ensures ShareMovement(TimeRows(id, base, cur, budgetPct, advisory) + MemRows(id, base, cur, declared, advisory))
        == 0.0
  {
    hide EffectiveNs, Classify;
    MovementSplits(TimeRows(id, base, cur, budgetPct, advisory), MemRows(id, base, cur, declared, advisory));
  }

  lemma ShareSumsClose(base: Phases, cur: Phases)
    requires Gateable(base) && Gateable(cur) && base != map[] && cur != map[]
    ensures -2.0 <= ShareSum(cur) - ShareSum(base) <= 2.0
    ensures AllMeasured(base) && AllMeasured(cur)
  {
    hide ShareSum, AllMeasured;
  }

  /** The share rows of a compared scenario cancel out to within two percentage points. */
  lemma {:induction false} ShareRowsCancel(
      id: string, base: BaselineEntry, cur: BaselineEntry, declared: real, driftPp: real, advisory: bool)
    requires Gateable(base.phases) && Gateable(cur.phases)
    requires base.phases != map[] && cur.phases != map[]
    ensures -2.0 <= ShareMovement(ScenarioRows(id, base, cur, declared, driftPp, advisory)) <= 2.0
  {
    hide FlatMap, TimeRows, MemRows, ShareMovement, TimeBudget, Gateable, Sum, ShareSum, ShareDelta, Keys;
    var budgetPct := TimeBudget(base, declared);
    var time, mem := TimeRows(id, base, cur, budgetPct, advisory), MemRows(id, base, cur, declared, advisory);
    var names := Keys(PhaseNames(base.phases, cur.phases));
    var phases := FlatMap(PhaseRows(id, base.phases, cur.phases, budgetPct, driftPp, advisory), names);
    var delta := name => ShareDelta(base.phases, cur.phases, name);
    MovementSplits(time + mem, phases);
    TotalsDoNotMove(id, base, cur, budgetPct, declared, advisory);
    PhasesMovement(id, names, base.phases, cur.phases, budgetPct, driftPp, advisory, delta);
    assert PhaseNames(base.phases, cur.phases) == set name | name in names;
    UnionShareDeltas(base.phases, cur.phases, delta);
    ShareSumsClose(base.phases, cur.phases);
  }

  /** What `n` phases may claim together when each stays within `d`. */
  ghost function Times(n: int, d: real): real {
    n as real * d
  }

  lemma {:induction false} SumAtMost(s: set<string>, f: string -> real, d: real)
    requires forall x :: x in s ==> f(x) <= d
    ensures Sum(s, f) <= Times(|s|, d)
    decreases |s|
  {
    if s != {} {
      var x := Least(s);
      SumAtMost(s - {x}, f, d);
      assert |s| as real * d == (|s| - 1) as real * d + d;
    }
  }

  lemma {:induction false} SomeAbove(s: set<string>, f: string -> real, d: real) returns (x: string)
    requires Sum(s, f) > Times(|s|, d)
    ensures x in s && f(x) > d
  {
    if forall y :: y in s ==> f(y) <= d {
      SumAtMost(s, f, d);
    }
    x :| x in s && f(x) > d;
  }

  /** A share that grew by more than the drift breaks its bound, on whichever sides the phase exists. */
  lemma GrowthBreaksShareBound(base: Phases, cur: Phases, driftPp: real, name: string)
    requires AllMeasured(base) && AllMeasured(cur) && name in PhaseNames(base, cur)
    requires ShareDelta(base, cur, name) > driftPp
    ensures !ShareBound(base, cur, driftPp, name)
  {
  }

  /** How far a share may fall before the gate must notice: `(k - 1) * drift + 2` points over `k` phases. */
  ghost function Slack(k: int, driftPp: real): real {
    Times(k - 1, driftPp) + 2.0
  }

  lemma {:induction false} SomeOtherGrew(names: set<string>, name: string, delta: string -> real, driftPp: real)
      returns (other: string)
    requires name in names && Sum(names, delta) >= -2.0 && delta(name) < -Slack(|names|, driftPp)
    ensures other in names && delta(other) > driftPp
  {
    hide Times;
    var rest := names - {name};
    SumRemove(names, name, delta);
    assert |rest| == |names| - 1;
    other := SomeAbove(rest, delta, driftPp);
  }

  lemma {:induction false} SomeShareGrew(base: Phases, cur: Phases, driftPp: real, name: string) returns (other: string)
    requires Gateable(base) && Gateable(cur) && base != map[] && cur != map[]
    requires name in PhaseNames(base, cur)
    requires ShareDelta(base, cur, name) < -Slack(|PhaseNames(base, cur)|, driftPp)
    ensures other in PhaseNames(base, cur) && !ShareBound(base, cur, driftPp, other)
  {
    hide Slack, ShareDelta, Sum, ShareBound, Gateable, AllMeasured;
    var delta := n => ShareDelta(base, cur, n);
    UnionShareDeltas(base, cur, delta);
    ShareSumsClose(base, cur);
    other := SomeOtherGrew(PhaseNames(base, cur), name, delta, driftPp);
    GrowthBreaksShareBound(base, cur, driftPp, other);
  }

  lemma {:induction false} BrokenShareHasRow(
      id: string, base: BaselineEntry, cur: BaselineEntry, declared: real, driftPp: real, advisory: bool, name: string)
    requires name in PhaseNames(base.phases, cur.phases) && !ShareBound(base.phases, cur.phases, driftPp, name)
    ensures exists c :: c in ScenarioRows(id, base, cur, declared, driftPp, advisory)
                        && IsBreach(c) && c.metric == PhaseShare && c.id == id
  {
    hide Classify, ScenarioRows, TimeBudget;
    var rows := RowsOfPhase(id, name, base.phases, cur.phases, TimeBudget(base, declared), driftPp, advisory);
    var row := rows[|rows| - 1];
    assert IsBreach(row) && row.metric == PhaseShare && row.id == id;
    RowOrigin(id, base, cur, declared, driftPp, advisory, row);
  }

  /**
   If one phase's share falls by more than `(k - 1) * drift + 2` points over the union of `k`
   phases, the work it lost shows up as an enforced breach of another phase's share, and the
   gate fails.
   */
  lemma {:induction false} WorkCannotHideBetweenPhases(
      baseline: BaselineFile, current: BaselineFile, budget: string -> real, opts: CompareOptions, id: string,
      name: string)
    requires FateOf(baseline, current, opts, id) == Compared
    requires var base, cur := baseline.entries[id].phases, current.entries[id].phases;
             && base != map[] && cur != map[] && name in PhaseNames(base, cur)
             && ShareDelta(base, cur, name) < -Slack(|PhaseNames(base, cur)|, opts.shareDriftPp)
    ensures exists c :: c in RowsOf(baseline, current, budget, opts, id)
                        && IsBreach(c) && c.metric == PhaseShare && c.id == id
    ensures !Acceptable(baseline, current, budget, opts)
  {
    var base, cur := baseline.entries[id], current.entries[id];
    assert Gateable(base.phases) && Gateable(cur.phases);
    hide FateOf, Gateable, ScenarioRows, ShareDelta, ShareBound, PhaseNames, Slack, Acceptable;
    var other := SomeShareGrew(base.phases, cur.phases, opts.shareDriftPp, name);
    BrokenShareHasRow(id, base, cur, budget(id), opts.shareDriftPp, Advisory(baseline, current, opts), other);
    BrokenShareFails(baseline, current, budget, opts, id, other);
  }

  lemma {:induction false} BrokenShareFails(
      baseline: BaselineFile, current: BaselineFile, budget: string -> real, opts: CompareOptions, id: string,
      name: string)
    requires FateOf(baseline, current, opts, id) == Compared
    requires var base, cur := baseline.entries[id].phases, current.entries[id].phases;
             name in PhaseNames(base, cur) && !ShareBound(base, cur, opts.shareDriftPp, name)
    ensures !Acceptable(baseline, current, budget, opts)
  {
    hide FateOf, ShareBound, AbsoluteBounds;
    assert !ScenarioAcceptable(baseline, current, budget, opts, id);
  }

  /** The share bounds when only one side has phases at all: each share is within the drift. */
  lemma OneSidedBounds(phases: Phases, driftPp: real)
    ensures ShareBounds(phases, map[], driftPp) <==> forall name :: name in phases ==> ShareIn(phases, name) <= driftPp
    ensures ShareBounds(map[], phases, driftPp) <==> forall name :: name in phases ==> ShareIn(phases, name) <= driftPp
  {
    hide ShareIn;
    if ShareBounds(phases, map[], driftPp) {
      forall name | name in phases ensures ShareIn(phases, name) <= driftPp {
        assert name in PhaseNames(phases, map[]) && ShareBound(phases, map[], driftPp, name);
      }
    }
    if ShareBounds(map[], phases, driftPp) {
      forall name | name in phases ensures ShareIn(phases, name) <= driftPp {
        assert name in PhaseNames(map[], phases) && ShareBound(map[], phases, driftPp, name);
      }
    }
  }

  lemma {:induction false} SomeShareAboveDrift(phases: Phases, driftPp: real) returns (name: string)
    requires Gateable(phases) && phases != map[] && Times(|phases.Keys|, driftPp) < 99.0
    ensures name in phases && ShareIn(phases, name) > driftPp
  {
    hide ShareIn, Sum, Times;
    name := SomeAbove(phases.Keys, SharesOf(phases), driftPp);
  }

  /** One of the phase blocks is empty, and the other is this one. */
  ghost predicate OnlyBlock(a: Phases, b: Phases, phases: Phases) {
    phases != map[] && ((a == phases && b == map[]) || (a == map[] && b == phases))
  }

  /**
   A phase block that disappears altogether, or that appears where there was none, fails the
   gate as long as it has fewer than `99 / drift` phases.
   */
  lemma {:induction false} LostPhaseBlockIsNoticed(
      baseline: BaselineFile, current: BaselineFile, budget: string -> real, opts: CompareOptions, id: string,
      phases: Phases)
    requires FateOf(baseline, current, opts, id) == Compared
    requires OnlyBlock(baseline.entries[id].phases, current.entries[id].phases, phases)
    requires Times(|phases.Keys|, opts.shareDriftPp) < 99.0
    ensures !Acceptable(baseline, current, budget, opts)
  {
    hide ShareIn, FateOf, AbsoluteBounds, ShareBounds, Gateable, Times;
    ComparedIsGateable(baseline, current, opts, id);
    var name := SomeShareAboveDrift(phases, opts.shareDriftPp);
    OneSidedBounds(phases, opts.shareDriftPp);
    assert !ScenarioAcceptable(baseline, current, budget, opts, id);
  }

  lemma ComparedIsGateable(baseline: BaselineFile, current: BaselineFile, opts: CompareOptions, id: string)
    requires FateOf(baseline, current, opts, id) == Compared
    ensures Gateable(baseline.entries[id].phases) && Gateable(current.entries[id].phases)
  {
  }

  lemma {:induction false} SumConstant(s: set<string>, f: string -> real, c: real)
    requires forall x :: x in s ==> f(x) == c
    ensures Sum(s, f) == Times(|s|, c)
    decreases |s|
  {
    if s != {} {
      var x := Least(s);
      SumConstant(s - {x}, f, c);
      assert |s| as real * c == (|s| - 1) as real * c + c;
    }
  }

  /**
   The threshold is exact: phases of these names can make up a gateable block that vanishes
   unnoticed if and only if there are at least `99 / drift` of them.
   */
  lemma {:induction false} BlockCanVanishIff(names: set<string>, driftPp: real)
    requires names != {}
    ensures (exists phases: Phases ::
               phases.Keys == names && Gateable(phases) && ShareBounds(phases, map[], driftPp))
            <==> Times(|names|, driftPp) >= 99.0
  {
    hide Sum, ShareBounds, Times;
    if Times(|names|, driftPp) >= 99.0 {
      var phases := EvenBlock(names, driftPp);
      OneSidedBounds(phases, driftPp);
    }
    forall phases: Phases | phases.Keys == names && Gateable(phases) && ShareBounds(phases, map[], driftPp)
      ensures Times(|names|, driftPp) >= 99.0
    {
      OneSidedBounds(phases, driftPp);
      SumAtMost(names, SharesOf(phases), driftPp);
    }
  }

  /** The block whose phases all have the same share, adding up to 99. */
  lemma {:induction false} EvenBlock(names: set<string>, driftPp: real) returns (phases: Phases)
    requires names != {} && Times(|names|, driftPp) >= 99.0
    ensures phases.Keys == names && Gateable(phases)
    ensures forall name :: name in phases ==> ShareIn(phases, name) <= driftPp
  {
    hide Sum;
    var n := |names| as real;
    var share := 99.0 / n;
    assert n * share == 99.0;
    AtMostWhenScaled(n, share, driftPp);
    assert share > 0.0;
    phases := map name | name in names :: PhaseTiming(Finite(1.0), Finite(share));
    SumConstant(names, SharesOf(phases), share);
  }

  lemma AtMostWhenScaled(n: real, a: real, b: real)
    requires n > 0.0 && n * a <= n * b
    ensures a <= b
  {
    assert n * (b - a) >= 0.0;
  }

  // ------------------------------------------------------------------
  // Cross-host non-interference
  // ------------------------------------------------------------------

  /** The two entries may differ in every time and every memory reading, but not in their shares. */
  ghost predicate SameButTimings(a: BaselineEntry, b: BaselineEntry) {
    && (a.mean > 0.0 <==> b.mean > 0.0)
    && a.corpus == b.corpus
    && a.phases.Keys == b.phases.Keys
    && forall name :: name in a.phases ==>
         && a.phases[name].share == b.phases[name].share
         && (Measured(a.phases[name].ns) <==> Measured(b.phases[name].ns))
  }

  ghost predicate SameFileButTimings(a: BaselineFile, b: BaselineFile) {
    && a.host == b.host && a.corpus == b.corpus
    && a.entries.Keys == b.entries.Keys
    && forall id :: id in a.entries ==> SameButTimings(a.entries[id], b.entries[id])
  }

  lemma {:induction false} GateableIgnoresTimings(a: Phases, b: Phases)
    requires a.Keys == b.Keys
    requires forall name :: name in a ==>
               a[name].share == b[name].share && (Measured(a[name].ns) <==> Measured(b[name].ns))
    ensures Gateable(a) <==> Gateable(b)
  {
    var f, g := SharesOf(a), SharesOf(b);
    SumDifference(a.Keys, f, name => 0.0, g);
    SumSuperset({}, a.Keys, name => 0.0);
    assert a == map[] <==> b == map[] by {
      assert a == map[] <==> a.Keys == {};
      assert b == map[] <==> b.Keys == {};
    }
    assert AllMeasured(a) <==> AllMeasured(b);
  }

  lemma {:induction false} FateIgnoresTimings(
      baseline: BaselineFile, current: BaselineFile, current': BaselineFile, opts: CompareOptions, id: string)
    requires SameFileButTimings(current, current')
    ensures FateOf(baseline, current, opts, id) == FateOf(baseline, current', opts, id)
  {
    hide Gateable;
    if id in current.entries {
      assert SameButTimings(current.entries[id], current'.entries[id]);
      GateableIgnoresTimings(current.entries[id].phases, current'.entries[id].phases);
    }
  }

  lemma {:induction false} PhaseShareRowsIgnoreTimings(
      id: string, name: string, base: Phases, cur: Phases, cur': Phases, budgetPct: real, driftPp: real, advisory: bool)
    requires cur.Keys == cur'.Keys && forall n :: n in cur ==> cur[n].share == cur'[n].share
    ensures Only(RowsOfPhase(id, name, base, cur, budgetPct, driftPp, advisory), OfShares())
            == Only(RowsOfPhase(id, name, base, cur', budgetPct, driftPp, advisory), OfShares())
  {
    hide Classify;
    var rows, rows' := RowsOfPhase(id, name, base, cur, budgetPct, driftPp, advisory),
                       RowsOfPhase(id, name, base, cur', budgetPct, driftPp, advisory);
    if |rows| == 2 {
      OnlySplits([rows[0]], [rows[1]], OfShares());
      OnlySplits([rows'[0]], [rows'[1]], OfShares());
      OnlyAllOrNone([rows[0]], OfShares());
      OnlyAllOrNone([rows'[0]], OfShares());
      assert rows == [rows[0]] + [rows[1]] && rows' == [rows'[0]] + [rows'[1]];
      assert rows[1] == rows'[1];
    } else {
      assert rows == rows';
    }
  }

  lemma {:induction false} ScenarioShareRowsIgnoreTimings(
      id: string, base: BaselineEntry, cur: BaselineEntry, cur': BaselineEntry, declared: real, driftPp: real,
      advisory: bool)
    requires SameButTimings(cur, cur')
    ensures Only(ScenarioRows(id, base, cur, declared, driftPp, advisory), OfShares())
            == Only(ScenarioRows(id, base, cur', declared, driftPp, advisory), OfShares())
  {
    OnlyPhaseRowsAreShares(id, base, cur, declared, driftPp, advisory);
    OnlyPhaseRowsAreShares(id, base, cur', declared, driftPp, advisory);
    var budgetPct := TimeBudget(base, declared);
    var names := Keys(PhaseNames(base.phases, cur.phases));
    assert PhaseNames(base.phases, cur.phases) == PhaseNames(base.phases, cur'.phases);
    hide FlatMap, ScenarioRows, RowsOfPhase;
    var f, f' := PhaseRows(id, base.phases, cur.phases, budgetPct, driftPp, advisory),
                 PhaseRows(id, base.phases, cur'.phases, budgetPct, driftPp, advisory);
    forall name | name in names ensures Only(f(name), OfShares()) == Only(f'(name), OfShares()) {
      PhaseShareRowsIgnoreTimings(id, name, base.phases, cur.phases, cur'.phases, budgetPct, driftPp, advisory);
    }
    OnlyFlatMapEqual(f, f', names, OfShares());
  }

  lemma {:induction false} OnlyPhaseRowsAreShares(
      id: string, base: BaselineEntry, cur: BaselineEntry, declared: real, driftPp: real, advisory: bool)
    ensures Only(ScenarioRows(id, base, cur, declared, driftPp, advisory), OfShares())
            == Only(FlatMap(PhaseRows(id, base.phases, cur.phases, TimeBudget(base, declared), driftPp, advisory),
                            Keys(PhaseNames(base.phases, cur.phases))), OfShares())
  {
    var budgetPct := TimeBudget(base, declared);
    hide FlatMap, Only, TimeBudget;
    var time, mem := TimeRows(id, base, cur, budgetPct, advisory), MemRows(id, base, cur, declared, advisory);
    var phases := FlatMap(PhaseRows(id, base.phases, cur.phases, budgetPct, driftPp, advisory),
                          Keys(PhaseNames(base.phases, cur.phases)));
    OnlySplits(time + mem, phases, OfShares());
    TotalsAreNotShares(id, base, cur, budgetPct, declared, advisory);
    hide TimeRows, MemRows;
  }

  lemma {:induction false} TotalsAreNotShares(
      id: string, base: BaselineEntry, cur: BaselineEntry, budgetPct: real, declared: real, advisory: bool)
    ensures Only(TimeRows(id, base, cur, budgetPct, advisory) + MemRows(id, base, cur, declared, advisory),
        OfShares()) == []
  {
    hide EffectiveNs, Classify, Only;
    OnlyAllOrNone(TimeRows(id, base, cur, budgetPct, advisory) + MemRows(id, base, cur, declared, advisory),
        OfShares());
  }

  lemma {:induction false} ScenarioVerdictIgnoresTimings(
      baseline: BaselineFile, current: BaselineFile, current': BaselineFile, budget: string -> real,
      opts: CompareOptions, id: string)
    requires SameFileButTimings(current, current')
    requires opts.forceAdvisory || baseline.host.hostClass != current.host.hostClass
    ensures ScenarioAcceptable(baseline, current, budget, opts, id)
        <==> ScenarioAcceptable(baseline, current', budget, opts, id)
    ensures Only(RowsOf(baseline, current, budget, opts, id), OfShares())
        == Only(RowsOf(baseline, current', budget, opts, id), OfShares())
  {
    FateIgnoresTimings(baseline, current, current', opts, id);
    hide FateOf, ScenarioRows, ShareBounds, AbsoluteBounds, Only;
    if FateOf(baseline, current, opts, id) == Compared {
      var base, cur, cur' := baseline.entries[id], current.entries[id], current'.entries[id];
      assert SameButTimings(cur, cur');
      ScenarioShareRowsIgnoreTimings(id, base, cur, cur', budget(id), opts.shareDriftPp, true);
      ShareBoundsIgnoreTimings(base.phases, cur.phases, cur'.phases, opts.shareDriftPp);
    }
  }

  lemma {:induction false} ShareBoundsIgnoreTimings(base: Phases, cur: Phases, cur': Phases, driftPp: real)
    requires cur.Keys == cur'.Keys && forall n :: n in cur ==> cur[n].share == cur'[n].share
    ensures ShareBounds(base, cur, driftPp) <==> ShareBounds(base, cur', driftPp)
  {
    forall name ensures ShareBound(base, cur, driftPp, name) <==> ShareBound(base, cur', driftPp, name) {
    }
  }

  /**
   When the run is advisory, as it is whenever the host classes differ, no time and no memory
   reading of the current capture reaches the verdict or a share row.
   */
  lemma {:induction false} AdvisoryRunsIgnoreTimings(
      baseline: BaselineFile, current: BaselineFile, current': BaselineFile, budget: string -> real,
      opts: CompareOptions)
    requires SameFileButTimings(current, current')
    requires opts.forceAdvisory || baseline.host.hostClass != current.host.hostClass
    ensures Acceptable(baseline, current, budget, opts) <==> Acceptable(baseline, current', budget, opts)
    ensures Only(AllRows(baseline, current, budget, opts), OfShares())
        == Only(AllRows(baseline, current', budget, opts), OfShares())
  {
    hide FlatMap, ScenarioAcceptable, RowsOf, Only, SameFileButTimings;
    var ids := Keys(baseline.entries.Keys);
    var f, f' := RowsPushed(baseline, current, budget, opts), RowsPushed(baseline, current', budget, opts);
    forall id | id in ids ensures Only(f(id), OfShares()) == Only(f'(id), OfShares()) {
      ScenarioVerdictIgnoresTimings(baseline, current, current', budget, opts, id);
    }
    OnlyFlatMapEqual(f, f', ids, OfShares());
    forall id ensures ScenarioAcceptable(baseline, current, budget, opts, id)
        <==> ScenarioAcceptable(baseline, current', budget, opts, id) {
      ScenarioVerdictIgnoresTimings(baseline, current, current', budget, opts, id);
    }
    assert current.host == current'.host by { FileHostKept(current, current'); }
  }

  lemma FileHostKept(a: BaselineFile, b: BaselineFile)
    requires SameFileButTimings(a, b)
    ensures a.host == b.host && a.entries.Keys == b.entries.Keys
  {
  }

  /** Nor do they reach the refusals or the lists of missing and new scenarios, advisory or not. */
  lemma {:induction false} ListsIgnoreTimings(
      baseline: BaselineFile, current: BaselineFile, current': BaselineFile, opts: CompareOptions)
    requires SameFileButTimings(current, current')
    ensures AllMissing(baseline, current, opts) == AllMissing(baseline, current', opts)
    ensures AllFatal(baseline, current, opts) == AllFatal(baseline, current', opts)
    ensures AllNew(baseline, current, opts) == AllNew(baseline, current', opts)
  {
    hide FlatMap, FateOf;
    var ids := Keys(baseline.entries.Keys);
    forall id ensures FateOf(baseline, current, opts, id) == FateOf(baseline, current', opts, id) {
      FateIgnoresTimings(baseline, current, current', opts, id);
    }
    FlatMapEqual(MissingPushed(baseline, current, opts), MissingPushed(baseline, current', opts), ids);
    FlatMapEqual(FatalPushed(baseline, current, opts), FatalPushed(baseline, current', opts), ids);
  }

  /** In an advisory run every breach is a share row. */
  lemma {:induction false} AdvisoryBreachesAreShares(
      baseline: BaselineFile, current: BaselineFile, budget: string -> real, opts: CompareOptions, c: Comparison)
    requires opts.forceAdvisory || baseline.host.hostClass != current.host.hostClass
    requires c in AllRows(baseline, current, budget, opts) && IsBreach(c)
    ensures c.metric == PhaseShare
  {
    hide FlatMap, FateOf, ScenarioRows;
    var ids := Keys(baseline.entries.Keys);
    var f := RowsPushed(baseline, current, budget, opts);
    InFlatMap(f, ids, c);
    var id :| id in ids && c in f(id);
    RowShape(id, baseline.entries[id], current.entries[id], budget(id), opts.shareDriftPp, true, c);
  }

  /** The phase block is what `with_phase_ns` would derive from its own nanoseconds. */
  ghost predicate SelfDerived(phases: Phases) {
    FiniteNs(phases) && phases == DeriveShares(phases)
  }

  /** `b` is `a` measured on a machine slower by the factor `c`, with any memory and noise readings. */
  ghost predicate SlowerBy(a: BaselineEntry, b: BaselineEntry, c: real) {
    && b.mean == c * a.mean && a.corpus == b.corpus
    && SelfDerived(a.phases) && SelfDerived(b.phases) && a.phases.Keys == b.phases.Keys
    && forall name :: name in a.phases ==> b.phases[name].ns.val == c * a.phases[name].ns.val
  }

  lemma {:induction false} SlowerMachineLooksTheSame(a: BaselineEntry, b: BaselineEntry, c: real)
    requires c > 0.0 && SlowerBy(a, b, c)
    ensures SameButTimings(a, b)
  {
    assert a.mean > 0.0 <==> c * a.mean > 0.0;
    SharesAreScaleFree(a.phases, b.phases, c);
    forall name | name in a.phases
      ensures a.phases[name].share == b.phases[name].share
          && (Measured(a.phases[name].ns) <==> Measured(b.phases[name].ns))
    {
      assert a.phases[name] == DeriveShares(a.phases)[name] && b.phases[name] == DeriveShares(b.phases)[name];
      assert a.phases[name].ns.val >= 0.0 <==> c * a.phases[name].ns.val >= 0.0;
    }
  }

  /** Running the same work on a machine of another class and any speed cannot change the verdict. */
  lemma {:induction false} CrossHostVerdictIsSpeedFree(
      baseline: BaselineFile, current: BaselineFile, current': BaselineFile, budget: string -> real,
      opts: CompareOptions, c: real)
    requires HostDiffers(baseline, current) && c > 0.0
    requires current.host == current'.host && current.corpus == current'.corpus
    requires current.entries.Keys == current'.entries.Keys
    requires forall id :: id in current.entries ==> SlowerBy(current.entries[id], current'.entries[id], c)
    ensures Acceptable(baseline, current, budget, opts) <==> Acceptable(baseline, current', budget, opts)
    ensures Only(AllRows(baseline, current, budget, opts), OfShares())
        == Only(AllRows(baseline, current', budget, opts), OfShares())
  {
    forall id | id in current.entries ensures SameButTimings(current.entries[id], current'.entries[id]) {
      SlowerMachineLooksTheSame(current.entries[id], current'.entries[id], c);
    }
    assert SameFileButTimings(current, current');
    AdvisoryRunsIgnoreTimings(baseline, current, current', budget, opts);
  }

  // ------------------------------------------------------------------
  // Outliers cannot mask a regression
  // ------------------------------------------------------------------

  ghost function Ceiling(baseline: real, budgetPct: real): real {
    baseline * (1.0 + budgetPct / 100.0)
  }

  lemma CeilingIsMonotone(a: real, b: real, p: real, q: real)
    requires 0.0 <= a <= b && 0.0 <= p <= q
    ensures Ceiling(a, p) <= Ceiling(b, q)
  {
    var x, y := 1.0 + p / 100.0, 1.0 + q / 100.0;
    assert 0.0 <= x <= y;
    assert a * x <= a * y;
    assert a * y <= b * y;
  }

  lemma {:induction false} StoredStatsSetBudget(
      base: BaselineEntry, declared: real, honest: seq<real>, stored: seq<real>, lo: real, hi: real)
    requires base.noise == Some(FromSamples(stored)) && MIN_NOISE_SAMPLES <= |stored| < U32_RANGE
    requires |honest| == |stored| && 2 * Differences(honest, stored) < |honest|
    requires UntouchedWithin(honest, stored, lo, hi) && 0.0 < lo
    ensures lo <= EffectiveNs(base) <= hi
    ensures 0.0 <= TimeBudget(base, declared) <= MaxReal(declared, 300.0 * ((hi - lo) / lo))
  {
    hide FromSamples, FloorPct, UntouchedWithin, Differences, IsUsable;
    UsableDespiteOutliers(honest, stored, lo, hi);
    MinorityOutliersBoundFloor(honest, stored, lo, hi);
  }

  lemma {:induction false} UsableDespiteOutliers(honest: seq<real>, stored: seq<real>, lo: real, hi: real)
    requires MIN_NOISE_SAMPLES <= |stored| < U32_RANGE
    requires |honest| == |stored| && 2 * Differences(honest, stored) < |honest|
    requires UntouchedWithin(honest, stored, lo, hi) && 0.0 < lo
    ensures IsUsable(FromSamples(stored)) && lo <= FromSamples(stored).median <= hi
  {
    MinorityOutliersAreHarmless(honest, stored, lo, hi);
  }

  lemma {:induction false} BrokenTimeCeilingFails(
      baseline: BaselineFile, current: BaselineFile, budget: string -> real, opts: CompareOptions, id: string)
    requires FateOf(baseline, current, opts, id) == Compared
    requires !opts.forceAdvisory && baseline.host.hostClass == current.host.hostClass
    requires var base := baseline.entries[id];
             EffectiveNs(base) > 0.0
                 && EffectiveNs(current.entries[id]) > Ceiling(EffectiveNs(base), TimeBudget(base, budget(id)))
    ensures !Acceptable(baseline, current, budget, opts)
  {
    hide EffectiveNs, TimeBudget, ShareBounds;
    assert !ScenarioAcceptable(baseline, current, budget, opts, id);
  }

  /**
   A baseline entry whose samples hold fewer than half outliers: whatever the outliers are, a
   current time beyond the ceiling set by the untouched samples alone fails the enforcing gate.
   */
  lemma {:induction false} OutliersCannotMaskRegression(
      baseline: BaselineFile, current: BaselineFile, budget: string -> real, opts: CompareOptions, id: string,
      honest: seq<real>, stored: seq<real>, lo: real, hi: real)
    requires FateOf(baseline, current, opts, id) == Compared
    requires !opts.forceAdvisory && baseline.host.hostClass == current.host.hostClass
    requires baseline.entries[id].noise == Some(FromSamples(stored))
    requires MIN_NOISE_SAMPLES <= |stored| < U32_RANGE
    requires |honest| == |stored| && 2 * Differences(honest, stored) < |honest|
    requires UntouchedWithin(honest, stored, lo, hi) && 0.0 < lo
    requires EffectiveNs(current.entries[id]) > Ceiling(hi, MaxReal(budget(id), 300.0 * ((hi - lo) / lo)))
    ensures !Acceptable(baseline, current, budget, opts)
  {
    var base := baseline.entries[id];
    var widest := 300.0 * ((hi - lo) / lo);
    StoredStatsSetBudget(base, budget(id), honest, stored, lo, hi);
    hide FromSamples, FloorPct, FateOf, UntouchedWithin, Differences, Acceptable, EffectiveNs, TimeBudget, Ceiling;
    CeilingIsMonotone(EffectiveNs(base), hi, TimeBudget(base, budget(id)), MaxReal(budget(id), widest));
    BrokenTimeCeilingFails(baseline, current, budget, opts, id);
  }
}

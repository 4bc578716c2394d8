/**
 `compare`: the gate that holds a current capture against a baseline, metric by metric, and
 the declarative rule that its loops implement.
 */
module Gate {
  import opened Prelude
  import opened Ordering
  import opened Meta
  import opened Baseline

  datatype Status = Improved | Within | Exceeded

  datatype Metric = Time | PeakMem | PhaseTime | PhaseShare

  datatype Presence = Both | AddedInCurrent | MissingFromCurrent

  datatype Comparison = Comparison(
    id: string,
    metric: Metric,
    phase: Option<string>,
    presence: Presence,
    baseline: real,
    observed: real,
    changePct: real,
    budgetPct: real,
    status: Status,
    enforced: bool)

  datatype MismatchKind = HostClass | Corpus | SchemaVersion | PhaseShares

  /** A comparison the gate refuses to make; `id` is absent for file-level refusals. */
  datatype FatalMismatch = FatalMismatch(kind: MismatchKind, id: Option<string>)

  datatype HostMismatchPolicy = Fatal | Advise

  datatype AdvisoryReason = AdvisoryRequested | HostClassesDiffer

  datatype CompareOptions = CompareOptions(
    only: Option<string>,
    hostMismatch: HostMismatchPolicy,
    shareDriftPp: real,
    forceAdvisory: bool)

  // ------------------------------------------------------------------
  // Rows
  // ------------------------------------------------------------------

  function Classify(baseline: real, observed: real, budgetPct: real): (real, Status) {
    if baseline <= 0.0 then (0.0, Within)
    else
      var change := (observed - baseline) / baseline * 100.0;
      (change,
       if observed > baseline * (1.0 + budgetPct / 100.0) then Exceeded
       else if change < -1.0 then Improved
       else Within)
  }

  function ClassifyShare(baseline: real, observed: real, driftPp: real): (real, Status) {
    var delta := observed - baseline;
    (delta, if delta > driftPp then Exceeded else if delta < -driftPp then Improved else Within)
  }

  function AbsoluteRow(
      id: string, metric: Metric, phase: Option<string>, baseline: real, observed: real, budgetPct: real,
      advisory: bool): Comparison
  {
    var (change, status) := Classify(baseline, observed, budgetPct);
    Comparison(id, metric, phase, Both, baseline, observed, change, budgetPct, status, !advisory)
  }

  function ShareRow(
      id: string, phase: string, presence: Presence, baseline: real, observed: real, delta: real, driftPp: real,
      status: Status): Comparison
  {
    Comparison(id, PhaseShare, Some(phase), presence, baseline, observed, delta, driftPp, status, true)
  }

  /** The declared budget, widened to the baseline's own noise floor. */
  function TimeBudget(base: BaselineEntry, declared: real): real {
    MaxReal(declared, NoiseFloorPct(base))
  }

  function TimeRows(id: string, base: BaselineEntry, cur: BaselineEntry, budgetPct: real,
      advisory: bool): seq<Comparison> {
    if EffectiveNs(base) > 0.0
    then [AbsoluteRow(id, Time, None, EffectiveNs(base), EffectiveNs(cur), budgetPct, advisory)]
    else []
  }

  function MemRows(id: string, base: BaselineEntry, cur: BaselineEntry, declared: real,
      advisory: bool): seq<Comparison> {
    if base.mem.Some? && cur.mem.Some?
    then [AbsoluteRow(id, PeakMem, None, base.mem.value.peakBytes as real, cur.mem.value.peakBytes as real, declared,
        advisory)]
    else []
  }

  /** The rows one phase name contributes. */
  function RowsOfPhase(
      id: string, name: string, base: Phases, cur: Phases, budgetPct: real, driftPp: real,
      advisory: bool): seq<Comparison>
  {
    var b, c := ShareIn(base, name), ShareIn(cur, name);
    if name in base && name in cur then
      var (delta, status) := ClassifyShare(b, c, driftPp);
      [AbsoluteRow(id, PhaseTime, Some(name), NsIn(base, name), NsIn(cur, name), budgetPct, advisory),
       ShareRow(id, name, Both, b, c, delta, driftPp, status)]
    else if name in cur then
      [ShareRow(id, name, AddedInCurrent, 0.0, c, c, driftPp, if c > driftPp then Exceeded else Within)]
    else if name in base then
      [ShareRow(id, name, MissingFromCurrent, b, 0.0, -b, driftPp, if b > driftPp then Exceeded else Within)]
    else []
  }

  function PhaseRows(
      id: string, base: Phases, cur: Phases, budgetPct: real, driftPp: real, advisory: bool): string -> seq<Comparison>
  {
    name => RowsOfPhase(id, name, base, cur, budgetPct, driftPp, advisory)
  }

  function PhaseNames(base: Phases, cur: Phases): set<string> {
    base.Keys + cur.Keys
  }

  function ScenarioRows(
      id: string, base: BaselineEntry, cur: BaselineEntry, declared: real, driftPp: real,
      advisory: bool): seq<Comparison>
  {
    var budgetPct := TimeBudget(base, declared);
    TimeRows(id, base, cur, budgetPct, advisory)
    + MemRows(id, base, cur, declared, advisory)
    + FlatMap(PhaseRows(id, base.phases, cur.phases, budgetPct, driftPp, advisory),
        Keys(PhaseNames(base.phases, cur.phases)))
  }

  // ------------------------------------------------------------------
  // What happens to one baseline scenario
  // ------------------------------------------------------------------

  /** `id.contains(f)`. */
  predicate Contains(s: string, f: string) {
    f <= s || (s != [] && Contains(s[1..], f))
  }

  predicate Selected(opts: CompareOptions, id: string) {
    opts.only.None? || Contains(id, opts.only.value)
  }

  datatype Fate = NotSelected | Missing | RefusedCorpus | RefusedShares | Compared

  function FateOf(baseline: BaselineFile, current: BaselineFile, opts: CompareOptions, id: string): (fate: Fate)
    ensures fate == Compared ==> id in baseline.entries && id in current.entries
  {
    if id !in baseline.entries || !Selected(opts, id) then NotSelected
    else if id !in current.entries then Missing
    else if current.entries[id].mean <= 0.0 then Missing
    else if CorpusRefused(CorpusFor(baseline, id), CorpusFor(current, id)) then RefusedCorpus
    else if !Gateable(baseline.entries[id].phases) || !Gateable(current.entries[id].phases) then RefusedShares
    else Compared
  }

  predicate HostDiffers(baseline: BaselineFile, current: BaselineFile) {
    baseline.host.hostClass != current.host.hostClass
  }

  predicate Advisory(baseline: BaselineFile, current: BaselineFile, opts: CompareOptions) {
    opts.forceAdvisory || HostDiffers(baseline, current)
  }

  function RowsOf(
      baseline: BaselineFile, current: BaselineFile, budget: string -> real, opts: CompareOptions,
      id: string): seq<Comparison>
  {
    if FateOf(baseline, current, opts, id) == Compared
    then ScenarioRows(id, baseline.entries[id], current.entries[id], budget(id), opts.shareDriftPp,
        Advisory(baseline, current, opts))
    else []
  }

  function MissingOf(baseline: BaselineFile, current: BaselineFile, opts: CompareOptions, id: string): seq<string> {
    if FateOf(baseline, current, opts, id) == Missing then [id] else []
  }

  function FatalOf(baseline: BaselineFile, current: BaselineFile, opts: CompareOptions,
      id: string): seq<FatalMismatch> {
    match FateOf(baseline, current, opts, id)
    case RefusedCorpus => [FatalMismatch(Corpus, Some(id))]
    case RefusedShares => [FatalMismatch(PhaseShares, Some(id))]
    case _ => []
  }

  function NewOf(baseline: BaselineFile, opts: CompareOptions, id: string): seq<string> {
    if Selected(opts, id) && id !in baseline.entries then [id] else []
  }

  // ------------------------------------------------------------------
  // The report
  // ------------------------------------------------------------------

  class CompareReport {
    var comparisons: seq<Comparison>
    var missing: seq<string>
    var newScenarios: seq<string>
    var fatal: seq<FatalMismatch>
    var advisoryReason: Option<AdvisoryReason>

    constructor ()
      ensures comparisons == [] && missing == [] && newScenarios == [] && fatal == [] && advisoryReason == None
    {
      comparisons, missing, newScenarios, fatal, advisoryReason := [], [], [], [], None;
    }

    /** No refusal and no enforced breach. */
    predicate Passed()
      reads this
    {
      fatal == [] && !AnyBreach(comparisons)
    }
  }

  predicate IsBreach(c: Comparison) {
    c.status == Exceeded && c.enforced
  }

  predicate AnyBreach(rows: seq<Comparison>) {
    exists i :: 0 <= i < |rows| && IsBreach(rows[i])
  }

  function RowsPushed(
      baseline: BaselineFile, current: BaselineFile, budget: string -> real,
      opts: CompareOptions): string -> seq<Comparison>
  {
    id => RowsOf(baseline, current, budget, opts, id)
  }

  function MissingPushed(baseline: BaselineFile, current: BaselineFile, opts: CompareOptions): string -> seq<string> {
    id => MissingOf(baseline, current, opts, id)
  }

  function FatalPushed(baseline: BaselineFile, current: BaselineFile,
      opts: CompareOptions): string -> seq<FatalMismatch> {
    id => FatalOf(baseline, current, opts, id)
  }

  function NewPushed(baseline: BaselineFile, opts: CompareOptions): string -> seq<string> {
    id => NewOf(baseline, opts, id)
  }

  function AllRows(
      baseline: BaselineFile, current: BaselineFile, budget: string -> real, opts: CompareOptions): seq<Comparison>
  {
    FlatMap(RowsPushed(baseline, current, budget, opts), Keys(baseline.entries.Keys))
  }

  function AllMissing(baseline: BaselineFile, current: BaselineFile, opts: CompareOptions): seq<string> {
    FlatMap(MissingPushed(baseline, current, opts), Keys(baseline.entries.Keys))
  }

  function AllFatal(baseline: BaselineFile, current: BaselineFile, opts: CompareOptions): seq<FatalMismatch> {
    FlatMap(FatalPushed(baseline, current, opts), Keys(baseline.entries.Keys))
  }

  function AllNew(baseline: BaselineFile, current: BaselineFile, opts: CompareOptions): seq<string> {
    FlatMap(NewPushed(baseline, opts), Keys(current.entries.Keys))
  }

  function FileRefusal(baseline: BaselineFile, current: BaselineFile, opts: CompareOptions): Option<FatalMismatch> {
    if baseline.schemaVersion > BASELINE_SCHEMA_VERSION then Some(FatalMismatch(SchemaVersion, None))
    else if HostDiffers(baseline, current) && opts.hostMismatch == Fatal then Some(FatalMismatch(HostClass, None))
    else None
  }

  function Reason(baseline: BaselineFile, current: BaselineFile, opts: CompareOptions): Option<AdvisoryReason> {
    if opts.forceAdvisory then Some(AdvisoryRequested)
    else if HostDiffers(baseline, current) then Some(HostClassesDiffer)
    else None
  }

  method ComparePhase(
      report: CompareReport, id: string, name: string, base: Phases, cur: Phases, budgetPct: real, driftPp: real,
      advisory: bool)
    requires AllMeasured(base) && AllMeasured(cur) && name in PhaseNames(base, cur)
    modifies report`comparisons
    ensures report.comparisons == old(report.comparisons)
        + RowsOfPhase(id, name, base, cur, budgetPct, driftPp, advisory)
  {
    if name in base && name in cur {
      var b, c := base[name], cur[name];
      var row := AbsoluteRow(id, PhaseTime, Some(name), b.ns.val, c.ns.val, budgetPct, advisory);
      report.comparisons := report.comparisons + [row];
      var (delta, status) := ClassifyShare(b.share.val, c.share.val, driftPp);
      row := ShareRow(id, name, Both, b.share.val, c.share.val, delta, driftPp, status);
      report.comparisons := report.comparisons + [row];
    } else if name in cur {
      var share := cur[name].share.val;
      var status := if share > driftPp then Exceeded else Within;
      report.comparisons := report.comparisons
          + [ShareRow(id, name, AddedInCurrent, 0.0, share, share, driftPp, status)];
    } else {
      var share := base[name].share.val;
      var status := if share > driftPp then Exceeded else Within;
      report.comparisons := report.comparisons
          + [ShareRow(id, name, MissingFromCurrent, share, 0.0, -share, driftPp, status)];
    }
  }

  method ComparePhases(
      report: CompareReport, id: string, base: Phases, cur: Phases, budgetPct: real, driftPp: real, advisory: bool)
    requires AllMeasured(base) && AllMeasured(cur)
    modifies report`comparisons
    ensures report.comparisons == old(report.comparisons) +
            FlatMap(PhaseRows(id, base, cur, budgetPct, driftPp, advisory), Keys(PhaseNames(base, cur)))
  {
    hide FlatMap, RowsOfPhase, AllMeasured, Distinct;
    var names := Keys(PhaseNames(base, cur));
    ghost var pushed, before := PhaseRows(id, base, cur, budgetPct, driftPp, advisory), report.comparisons;
    FlatMapNil(pushed, names);
    for i := 0 to |names|
      invariant report.comparisons == before + FlatMap(pushed, names[..i])
    {
      assert names[i] in names;
      ComparePhase(report, id, names[i], base, cur, budgetPct, driftPp, advisory);
      FlatMapSnoc(pushed, names, i);
      Associate(before, FlatMap(pushed, names[..i]), pushed(names[i]));
    }
  }

  method CompareTotals(
      report: CompareReport, id: string, base: BaselineEntry, cur: BaselineEntry, budgetPct: real, declared: real,
      advisory: bool)
    modifies report`comparisons
    ensures report.comparisons == old(report.comparisons)
            + (TimeRows(id, base, cur, budgetPct, advisory) + MemRows(id, base, cur, declared, advisory))
  {
    hide EffectiveNs, Classify;
    if EffectiveNs(base) > 0.0 {
      var row := AbsoluteRow(id, Time, None, EffectiveNs(base), EffectiveNs(cur), budgetPct, advisory);
      report.comparisons := report.comparisons + [row];
    }
    if base.mem.Some? && cur.mem.Some? {
      var peak, observed := base.mem.value.peakBytes as real, cur.mem.value.peakBytes as real;
      report.comparisons := report.comparisons + [AbsoluteRow(id, PeakMem, None, peak, observed, declared, advisory)];
    }
  }

  method CompareMeasurements(
      report: CompareReport, id: string, base: BaselineEntry, cur: BaselineEntry, declared: real, driftPp: real,
      advisory: bool)
    requires AllMeasured(base.phases) && AllMeasured(cur.phases)
    modifies report`comparisons
    ensures report.comparisons == old(report.comparisons) + ScenarioRows(id, base, cur, declared, driftPp, advisory)
  {
    hide FlatMap, Keys, TimeRows, MemRows, NoiseFloorPct;
    var budgetPct := MaxReal(declared, NoiseFloorPct(base));
    CompareTotals(report, id, base, cur, budgetPct, declared, advisory);
    ComparePhases(report, id, base.phases, cur.phases, budgetPct, driftPp, advisory);
  }

  /** One iteration of the scenario loop. */
  method CompareScenario(
      report: CompareReport, baseline: BaselineFile, current: BaselineFile, budget: string -> real,
      opts: CompareOptions, id: string)
    requires id in baseline.entries
    modifies report`comparisons, report`missing, report`fatal
    ensures report.comparisons == old(report.comparisons) + RowsOf(baseline, current, budget, opts, id)
    ensures report.missing == old(report.missing) + MissingOf(baseline, current, opts, id)
    ensures report.fatal == old(report.fatal) + FatalOf(baseline, current, opts, id)
  {
    hide ScenarioRows, Selected, CorpusRefused, CorpusFor, ShareSum;
    if !Selected(opts, id) {
      return;
    }
    if id !in current.entries || current.entries[id].mean <= 0.0 {
      report.missing := report.missing + [id];
      return;
    }
    var base, cur := baseline.entries[id], current.entries[id];
    if CorpusRefused(CorpusFor(baseline, id), CorpusFor(current, id)) {
      report.fatal := report.fatal + [FatalMismatch(Corpus, Some(id))];
      return;
    }
    if !Gateable(base.phases) || !Gateable(cur.phases) {
      report.fatal := report.fatal + [FatalMismatch(PhaseShares, Some(id))];
      return;
    }
    CompareMeasurements(report, id, base, cur, budget(id), opts.shareDriftPp, Advisory(baseline, current, opts));
  }

  method CompareScenarios(
      report: CompareReport, baseline: BaselineFile, current: BaselineFile, budget: string -> real,
      opts: CompareOptions)
    requires report.comparisons == [] && report.missing == [] && report.fatal == []
    modifies report`comparisons, report`missing, report`fatal
    ensures report.comparisons == AllRows(baseline, current, budget, opts)
    ensures report.missing == AllMissing(baseline, current, opts)
    ensures report.fatal == AllFatal(baseline, current, opts)
  {
    var ids := Keys(baseline.entries.Keys);
    ghost var rows := RowsPushed(baseline, current, budget, opts);
    ghost var missing := MissingPushed(baseline, current, opts);
    ghost var fatal := FatalPushed(baseline, current, opts);
    for i := 0 to |ids|
      invariant report.comparisons == FlatMap(rows, ids[..i])
      invariant report.missing == FlatMap(missing, ids[..i])
      invariant report.fatal == FlatMap(fatal, ids[..i])
    {
      assert ids[i] in ids;
      CompareScenario(report, baseline, current, budget, opts, ids[i]);
      FlatMapSnoc(rows, ids, i);
      FlatMapSnoc(missing, ids, i);
      FlatMapSnoc(fatal, ids, i);
    }
    assert ids[..|ids|] == ids;
  }

  method CollectNewScenarios(report: CompareReport, baseline: BaselineFile, current: BaselineFile, opts: CompareOptions)
    requires report.newScenarios == []
    modifies report`newScenarios
    ensures report.newScenarios == AllNew(baseline, current, opts)
  {
    var ids := Keys(current.entries.Keys);
    ghost var pushed := NewPushed(baseline, opts);
    for i := 0 to |ids|
      invariant report.newScenarios == FlatMap(pushed, ids[..i])
    {
      if Selected(opts, ids[i]) && ids[i] !in baseline.entries {
        report.newScenarios := report.newScenarios + [ids[i]];
      }
      FlatMapSnoc(pushed, ids, i);
    }
    assert ids[..|ids|] == ids;
  }

  method Compare(baseline: BaselineFile, current: BaselineFile, budget: string -> real, opts: CompareOptions)
    returns (report: CompareReport)
    ensures fresh(report)
    ensures FileRefusal(baseline, current, opts).Some? ==>
              && report.fatal == [FileRefusal(baseline, current, opts).value]
              && report.comparisons == [] && report.missing == [] && report.newScenarios == []
              && report.advisoryReason == None
    ensures FileRefusal(baseline, current, opts).None? ==>
              && report.comparisons == AllRows(baseline, current, budget, opts)
              && report.missing == AllMissing(baseline, current, opts)
              && report.fatal == AllFatal(baseline, current, opts)
              && report.newScenarios == AllNew(baseline, current, opts)
              && report.advisoryReason == Reason(baseline, current, opts)
    ensures baseline.schemaVersion > 2 ==> report.fatal == [FatalMismatch(SchemaVersion, None)]
    ensures (baseline.schemaVersion <= 2 && opts.hostMismatch == Fatal
             && baseline.host.hostClass != current.host.hostClass) ==>
              report.fatal == [FatalMismatch(HostClass, None)]
    ensures FileRefusal(baseline, current, opts).None? ==>
              report.advisoryReason == if opts.forceAdvisory then Some(AdvisoryRequested)
                                       else if baseline.host.hostClass != current.host.hostClass
                                            then Some(HostClassesDiffer)
                                       else None
    ensures report.Passed() <==> Acceptable(baseline, current, budget, opts)
  {
    report := new CompareReport();
    PassedIffAcceptable(baseline, current, budget, opts);
    if baseline.schemaVersion > BASELINE_SCHEMA_VERSION {
      report.fatal := report.fatal + [FatalMismatch(SchemaVersion, None)];
      return;
    }
    if HostDiffers(baseline, current) && opts.hostMismatch == Fatal {
      report.fatal := report.fatal + [FatalMismatch(HostClass, None)];
      return;
    }
    report.advisoryReason := Reason(baseline, current, opts);
    CompareScenarios(report, baseline, current, budget, opts);
    CollectNewScenarios(report, baseline, current, opts);
  }

  // ------------------------------------------------------------------
  // The declarative rule
  // ------------------------------------------------------------------

  /** `observed` stays under the budgeted ceiling; without a positive baseline there is none. */
  ghost predicate UnderCeiling(baseline: real, observed: real, budgetPct: real) {
    baseline > 0.0 ==> observed <= baseline * (1.0 + budgetPct / 100.0)
  }

  ghost predicate MemoryBound(base: BaselineEntry, cur: BaselineEntry, declared: real) {
    base.mem.Some? && cur.mem.Some? ==>
      UnderCeiling(base.mem.value.peakBytes as real, cur.mem.value.peakBytes as real, declared)
  }

  ghost predicate AbsoluteBounds(base: BaselineEntry, cur: BaselineEntry, declared: real) {
    && UnderCeiling(EffectiveNs(base), EffectiveNs(cur), TimeBudget(base, declared))
    && MemoryBound(base, cur, declared)
    && (forall name :: name in base.phases && name in cur.phases ==>
          UnderCeiling(NsIn(base.phases, name), NsIn(cur.phases, name), TimeBudget(base, declared)))
  }

  /** A phase on both sides may grow by at most the drift; a phase on one side may claim at most the drift. */
  ghost predicate ShareBound(base: Phases, cur: Phases, driftPp: real, name: string) {
    if name in base && name in cur then ShareIn(cur, name) - ShareIn(base, name) <= driftPp
    else if name in cur then ShareIn(cur, name) <= driftPp
    else if name in base then ShareIn(base, name) <= driftPp
    else true
  }

  ghost predicate ShareBounds(base: Phases, cur: Phases, driftPp: real) {
    forall name :: name in PhaseNames(base, cur) ==> ShareBound(base, cur, driftPp, name)
  }

  ghost predicate ScenarioAcceptable(
    baseline: BaselineFile, current: BaselineFile, budget: string -> real, opts: CompareOptions, id: string)
  {
    match FateOf(baseline, current, opts, id)
    case NotSelected => true
    case Missing => true
    case RefusedCorpus => false
    case RefusedShares => false
    case Compared =>
      var base, cur := baseline.entries[id], current.entries[id];
      && (Advisory(baseline, current, opts) || AbsoluteBounds(base, cur, budget(id)))
      && ShareBounds(base.phases, cur.phases, opts.shareDriftPp)
  }

  /** When the gate is meant to pass. */
  ghost predicate Acceptable(baseline: BaselineFile, current: BaselineFile, budget: string -> real,
      opts: CompareOptions) {
    && baseline.schemaVersion <= BASELINE_SCHEMA_VERSION
    && (HostDiffers(baseline, current) ==> opts.hostMismatch == Advise)
    && forall id :: id in baseline.entries ==> ScenarioAcceptable(baseline, current, budget, opts, id)
  }

  // ------------------------------------------------------------------
  // The rows breach exactly when a bound is broken
  // ------------------------------------------------------------------

  lemma AnyBreachSplits(a: seq<Comparison>, b: seq<Comparison>)
    ensures AnyBreach(a + b) <==> AnyBreach(a) || AnyBreach(b)
  {
    if AnyBreach(a) {
      var i :| 0 <= i < |a| && IsBreach(a[i]);
      assert (a + b)[i] == a[i];
    }
    if AnyBreach(b) {
      var i :| 0 <= i < |b| && IsBreach(b[i]);
      assert (a + b)[|a| + i] == b[i];
    }
  }

  lemma AbsoluteRowBreaches(
      id: string, metric: Metric, phase: Option<string>, baseline: real, observed: real, budgetPct: real,
      advisory: bool)
    ensures IsBreach(AbsoluteRow(id, metric, phase, baseline, observed, budgetPct, advisory))
            <==> !advisory && !UnderCeiling(baseline, observed, budgetPct)
  {
  }

  lemma OneBreach(c: Comparison)
    ensures AnyBreach([c]) <==> IsBreach(c)
  {
    if IsBreach(c) {
      assert IsBreach([c][0]);
    }
  }

  /** One phase name breaches when its share bound, or its enforced time ceiling, is broken. */
  ghost predicate PhaseBreach(name: string, base: Phases, cur: Phases, budgetPct: real, driftPp: real, advisory: bool)
  {
    || !ShareBound(base, cur, driftPp, name)
    || (!advisory && name in base && name in cur && !UnderCeiling(NsIn(base, name), NsIn(cur, name), budgetPct))
  }

  lemma {:induction false} PhaseRowsBreach(
      id: string, name: string, base: Phases, cur: Phases, budgetPct: real, driftPp: real, advisory: bool)
    ensures AnyBreach(RowsOfPhase(id, name, base, cur, budgetPct, driftPp, advisory))
            <==> PhaseBreach(name, base, cur, budgetPct, driftPp, advisory)
  {
    var rows := RowsOfPhase(id, name, base, cur, budgetPct, driftPp, advisory);
    if name in base && name in cur {
      AbsoluteRowBreaches(id, PhaseTime, Some(name), NsIn(base, name), NsIn(cur, name), budgetPct, advisory);
      AnyBreachSplits([rows[0]], [rows[1]]);
      assert rows == [rows[0]] + [rows[1]];
      OneBreach(rows[0]);
      OneBreach(rows[1]);
    } else if rows != [] {
      OneBreach(rows[0]);
    }
  }

  lemma {:induction false} AnyBreachInFlatMap(f: string -> seq<Comparison>, ids: seq<string>)
    ensures AnyBreach(FlatMap(f, ids)) <==> exists id :: id in ids && AnyBreach(f(id))
  {
    if ids != [] {
      var n := |ids| - 1;
      SplitLast(ids);
      AnyBreachInFlatMap(f, ids[..n]);
      AnyBreachSplits(FlatMap(f, ids[..n]), f(ids[n]));
    }
  }

  lemma {:induction false} AllPhaseRowsBreach(
      id: string, base: Phases, cur: Phases, budgetPct: real, driftPp: real, advisory: bool)
    ensures AnyBreach(FlatMap(PhaseRows(id, base, cur, budgetPct, driftPp, advisory), Keys(PhaseNames(base, cur))))
            <==> exists name ::
                   name in PhaseNames(base, cur) && PhaseBreach(name, base, cur, budgetPct, driftPp, advisory)
  {
    hide FlatMap, RowsOfPhase, PhaseBreach, AnyBreach;
    var f := PhaseRows(id, base, cur, budgetPct, driftPp, advisory);
    AnyBreachInFlatMap(f, Keys(PhaseNames(base, cur)));
    forall name ensures AnyBreach(f(name)) <==> PhaseBreach(name, base, cur, budgetPct, driftPp, advisory) {
      PhaseRowsBreach(id, name, base, cur, budgetPct, driftPp, advisory);
    }
  }

  lemma {:induction false} TotalRowsBreach(
      id: string, base: BaselineEntry, cur: BaselineEntry, budgetPct: real, declared: real, advisory: bool)
    ensures AnyBreach(TimeRows(id, base, cur, budgetPct, advisory)) <==>
            !advisory && !UnderCeiling(EffectiveNs(base), EffectiveNs(cur), budgetPct)
    ensures AnyBreach(MemRows(id, base, cur, declared, advisory)) <==> !advisory && !MemoryBound(base, cur, declared)
  {
    hide EffectiveNs;
    var time := TimeRows(id, base, cur, budgetPct, advisory);
    var mem := MemRows(id, base, cur, declared, advisory);
    if time != [] {
      AbsoluteRowBreaches(id, Time, None, EffectiveNs(base), EffectiveNs(cur), budgetPct, advisory);
      OneBreach(time[0]);
    }
    if mem != [] {
      AbsoluteRowBreaches(id, PeakMem, None, base.mem.value.peakBytes as real, cur.mem.value.peakBytes as real,
          declared, advisory);
      OneBreach(mem[0]);
    }
  }

  lemma {:induction false} ScenarioRowsBreach(
      id: string, base: BaselineEntry, cur: BaselineEntry, declared: real, driftPp: real, advisory: bool)
    ensures AnyBreach(ScenarioRows(id, base, cur, declared, driftPp, advisory)) <==>
            !((advisory || AbsoluteBounds(base, cur, declared)) && ShareBounds(base.phases, cur.phases, driftPp))
  {
    hide FlatMap, EffectiveNs, TimeBudget, UnderCeiling, MemoryBound, ShareBound, AnyBreach, TimeRows, MemRows;
    var budgetPct := TimeBudget(base, declared);
    var time := TimeRows(id, base, cur, budgetPct, advisory);
    var mem := MemRows(id, base, cur, declared, advisory);
    var phases := FlatMap(PhaseRows(id, base.phases, cur.phases, budgetPct, driftPp, advisory),
                          Keys(PhaseNames(base.phases, cur.phases)));
    AnyBreachSplits(time, mem);
    AnyBreachSplits(time + mem, phases);
    TotalRowsBreach(id, base, cur, budgetPct, declared, advisory);
    AllPhaseRowsBreach(id, base.phases, cur.phases, budgetPct, driftPp, advisory);
  }

  lemma {:induction false} ScenarioPassesIff(
      baseline: BaselineFile, current: BaselineFile, budget: string -> real, opts: CompareOptions, id: string)
    ensures FatalOf(baseline, current, opts, id) == [] && !AnyBreach(RowsOf(baseline, current, budget, opts, id))
            <==> ScenarioAcceptable(baseline, current, budget, opts, id)
  {
    if FateOf(baseline, current, opts, id) == Compared {
      ScenarioRowsBreach(id, baseline.entries[id], current.entries[id], budget(id), opts.shareDriftPp,
          Advisory(baseline, current, opts));
    }
  }

  /** The gate passes exactly when the declarative rule holds. */
  lemma {:induction false} PassedIffAcceptable(
      baseline: BaselineFile, current: BaselineFile, budget: string -> real, opts: CompareOptions)
    ensures Acceptable(baseline, current, budget, opts) <==>
            && FileRefusal(baseline, current, opts).None?
            && AllFatal(baseline, current, opts) == []
            && !AnyBreach(AllRows(baseline, current, budget, opts))
  {
    hide FlatMap, AnyBreach, RowsOf, FatalOf, ScenarioAcceptable;
    var ids := Keys(baseline.entries.Keys);
    var rows, fatal := RowsPushed(baseline, current, budget, opts), FatalPushed(baseline, current, opts);
    AnyBreachInFlatMap(rows, ids);
    EmptyFlatMap(fatal, ids);
    forall id ensures fatal(id) == [] && !AnyBreach(rows(id))
        <==> ScenarioAcceptable(baseline, current, budget, opts, id) {
      ScenarioPassesIff(baseline, current, budget, opts, id);
    }
  }
}

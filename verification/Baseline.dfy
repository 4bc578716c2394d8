/**
 Baseline files and `accumulate`, which folds one more capture into an existing baseline or
 refuses to.
 */
module Baseline {
  import opened Prelude
  import opened Ordering
  import opened Noise
  import opened Meta

  const BASELINE_SCHEMA_VERSION := 2

  datatype HostBlock = HostBlock(hostClass: string, name: string)

  datatype MemMetrics = MemMetrics(peakBytes: nat, totalAllocatedBytes: nat)

  datatype BaselineEntry = BaselineEntry(
    mean: real,
    median: real,
    mem: Option<MemMetrics>,
    noise: Option<NoiseStats>,
    corpus: Option<CorpusInfo>,
    phases: Phases)

  datatype BaselineFile = BaselineFile(
    schemaVersion: nat,
    title: string,
    gitSha: Option<string>,
    capturedAt: string,
    host: HostBlock,
    corpus: Option<CorpusInfo>,
    entries: map<string, BaselineEntry>)

  /** The wall-clock figure the gate compares. */
  function EffectiveNs(e: BaselineEntry): real {
    if e.noise.Some? && IsUsable(e.noise.value) then e.noise.value.median else e.mean
  }

  function NoiseFloorPct(e: BaselineEntry): real {
    if e.noise.Some? then FloorPct(e.noise.value) else 0.0
  }

  /** The corpus that governs `id`: the entry's own, else the file's. */
  function CorpusFor(file: BaselineFile, id: string): Option<CorpusInfo> {
    if id in file.entries && file.entries[id].corpus.Some? then file.entries[id].corpus else file.corpus
  }

  /** Whether two resolved corpus blocks make a scenario incomparable. */
  predicate CorpusRefused(base: Option<CorpusInfo>, cur: Option<CorpusInfo>) {
    match (base, cur)
    case (Some(b), Some(c)) => !ValidCorpus(b) || !ValidCorpus(c) || !SameIdentity(b, c)
    case (Some(_), None) => true
    case (None, _) => false
  }

  /** A file read back from disk: structurally checked, its noise statistics recomputed. */
  function Load(file: BaselineFile): Result<BaselineFile> {
    if file.schemaVersion == 0 || file.entries == map[] then Refused
    else Ok(file.(entries := map id | id in file.entries :: Reloaded(file.entries[id])))
  }

  function Reloaded(e: BaselineEntry): BaselineEntry {
    if e.noise.Some? then e.(noise := Some(Revalidated(e.noise.value))) else e
  }

  // ------------------------------------------------------------------
  // accumulate
  // ------------------------------------------------------------------

  /** A revision, with the empty string counting as no revision. */
  function Revision(file: BaselineFile): Option<string> {
    if file.gitSha == Some("") then None else file.gitSha
  }

  /** The samples an entry brings to the pool. */
  function Prior(e: BaselineEntry): seq<real> {
    match e.noise
    case Some(stats) => stats.samples
    case None => if e.mean > 0.0 then [e.mean] else []
  }

  /** `id` makes the merge impossible for want of one corpus identity. */
  predicate CorpusConflict(prev: BaselineFile, capture: BaselineFile, id: string) {
    id in prev.entries &&
    var p, f := CorpusFor(prev, id), CorpusFor(capture, id);
    if id in capture.entries then CorpusRefused(p, f) else p.None? && f.Some?
  }

  /** An entry not measured again is stamped with the corpus it had resolved to. */
  predicate NeedsStamp(prev: BaselineFile, capture: BaselineFile, id: string) {
    && id in prev.entries && id !in capture.entries
    && var p, f := CorpusFor(prev, id), CorpusFor(capture, id);
       p.Some? && (f.None? || p.value.sha256 != f.value.sha256)
  }

  predicate Remeasured(capture: BaselineFile, id: string) {
    id in capture.entries && capture.entries[id].mean > 0.0
  }

  function MergedEntry(prev: BaselineFile, capture: BaselineFile, id: string): BaselineEntry
    requires id in prev.entries || id in capture.entries
  {
    if id !in prev.entries then capture.entries[id]
    else if Remeasured(capture, id) then
      var e := capture.entries[id];
      e.(noise := Some(FromSamples(Prior(prev.entries[id]) + [e.mean])))
    else if NeedsStamp(prev, capture, id) then prev.entries[id].(corpus := CorpusFor(prev, id))
    else prev.entries[id]
  }

  predicate AccumulateRefused(prev: BaselineFile, capture: BaselineFile, allowDrift: bool) {
    || prev.schemaVersion > BASELINE_SCHEMA_VERSION
    || prev.host.hostClass != capture.host.hostClass
    || (!allowDrift && Revision(prev) != Revision(capture))
    || (exists id :: id in prev.entries && CorpusConflict(prev, capture, id))
  }

  function Accumulated(prev: BaselineFile, capture: BaselineFile, allowDrift: bool): Result<BaselineFile> {
    if AccumulateRefused(prev, capture, allowDrift) then Refused
    else
      Ok(capture.(entries :=
         map id | id in prev.entries.Keys + capture.entries.Keys :: MergedEntry(prev, capture, id)))
  }

  method Accumulate(prev: BaselineFile, capture: BaselineFile, allowDrift: bool) returns (r: Result<BaselineFile>)
    ensures r == Accumulated(prev, capture, allowDrift)
  {
    if prev.schemaVersion > BASELINE_SCHEMA_VERSION {
      return Refused;
    }
    if prev.host.hostClass != capture.host.hostClass {
      return Refused;
    }
    if !allowDrift {
      if Revision(prev) != Revision(capture) {
        return Refused;
      }
    }
    var carried, ok := CarriedCorpora(prev, capture);
    if !ok {
      return Refused;
    }
    var entries := MergeEntries(prev, capture, carried);
    r := Ok(capture.(entries := entries));
  }

  /** First loop: every scenario of the union is checked, and the stamps are collected. */
  method CarriedCorpora(prev: BaselineFile, capture: BaselineFile)
    returns (carried: map<string, CorpusInfo>, ok: bool)
    ensures ok <==> forall id :: id in prev.entries ==> !CorpusConflict(prev, capture, id)
    ensures ok ==> forall id :: id in carried <==> NeedsStamp(prev, capture, id)
    ensures ok ==> forall id :: id in carried ==> Some(carried[id]) == CorpusFor(prev, id)
  {
    carried := map[];
    var rest := prev.entries.Keys + capture.entries.Keys;
    while rest != {}
      invariant rest <= prev.entries.Keys + capture.entries.Keys
      invariant forall id :: id in prev.entries.Keys - rest ==> !CorpusConflict(prev, capture, id)
      invariant forall id :: id in carried <==> id !in rest && NeedsStamp(prev, capture, id)
      invariant forall id :: id in carried ==> Some(carried[id]) == CorpusFor(prev, id)
    {
      var id := Least(rest);
      var p, f := CorpusFor(prev, id), CorpusFor(capture, id);
      if id in prev.entries && id in capture.entries {
        if CorpusRefused(p, f) {
          assert CorpusConflict(prev, capture, id);
          return carried, false;
        }
      } else if id in prev.entries {
        if p.Some? && (f.None? || p.value.sha256 != f.value.sha256) {
          carried := carried[id := p.value];
        } else if p.None? && f.Some? {
          assert CorpusConflict(prev, capture, id);
          return carried, false;
        }
      }
      rest := rest - {id};
    }
    ok := true;
  }

  /** Second loop: pool samples into the fresh entries, carry the others forward. */
  method MergeEntries(prev: BaselineFile, capture: BaselineFile, carried: map<string, CorpusInfo>)
    returns (entries: map<string, BaselineEntry>)
    requires forall id :: id in carried <==> NeedsStamp(prev, capture, id)
    requires forall id :: id in carried ==> Some(carried[id]) == CorpusFor(prev, id)
    ensures entries == map id | id in prev.entries.Keys + capture.entries.Keys :: MergedEntry(prev, capture, id)
  {
    entries := capture.entries;
    var rest := prev.entries.Keys;
    while rest != {}
      invariant rest <= prev.entries.Keys
      invariant entries.Keys == (prev.entries.Keys - rest) + capture.entries.Keys
      invariant forall id :: id in entries && id in rest ==> entries[id] == capture.entries[id]
      invariant forall id :: id in entries && id !in rest ==> entries[id] == MergedEntry(prev, capture, id)
    {
      var id := Least(rest);
      var merged;
      if id in entries && entries[id].mean > 0.0 {
        var samples := Prior(prev.entries[id]) + [entries[id].mean];
        merged := entries[id].(noise := Some(FromSamples(samples)));
      } else {
        merged := prev.entries[id];
        if id in carried {
          merged := merged.(corpus := Some(carried[id]));
        }
      }
      assert merged == MergedEntry(prev, capture, id);
      entries := entries[id := merged];
      rest := rest - {id};
    }
  }
}

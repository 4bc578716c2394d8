/** The run records every other part of the virtual bench exchanges. */
module Schema {
  import opened Prelude

  datatype Status = Completed | Failed | DidNotFinish | ExpectedFailure

  /** Aggregated timing for one span name. */
  datatype SpanAgg = SpanAgg(n: nat, totalUs: nat, maxUs: nat)

  datatype Counters = Counters(
    spans: map<string, SpanAgg>,
    filesSelected: nat,
    filesPruned: nat,
    estimatedRowCount: nat,
    fileSize: nat)

  const NO_COUNTERS := Counters(map[], 0, 0, 0, 0)

  datatype RunRecord = RunRecord(
    queryId: string,
    target: string,
    cacheState: string,
    rep: nat,
    reps: nat,
    wallMs: nat,
    allWallsMs: seq<nat>,
    status: Status,
    rows: nat,
    resultHash: string,
    counters: Counters,
    spansMissing: bool,
    error: Option<string>,
    heads: Option<seq<string>>)

  datatype TargetFingerprint = TargetFingerprint(id: string, kind: string)

  datatype RunMeta = RunMeta(runId: string, gitCommit: string, targets: seq<TargetFingerprint>)

  datatype HashGate = FullHash | RowsOnly

  datatype QueryDef = QueryDef(timeoutS: nat, errorsOnVirtual: bool, hashGate: HashGate)

  /** The query catalogue by id. */
  type Corpus = map<string, QueryDef>

  predicate IsCold(r: RunRecord) {
    r.cacheState == "cold"
  }
}

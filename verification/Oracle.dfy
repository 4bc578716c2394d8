/**
 Blessing the per-query correctness oracles from native runs, and the comparison of a record
 with the oracle and the perf reference.
 */
module Oracle {
  import opened Prelude
  import opened Ordering
  import opened Schema

  datatype BlessedFrom = BlessedFrom(target: string, runId: string, commit: string)

  datatype ExpectedEntry = ExpectedEntry(
    queryId: string,
    resultHash: string,
    rows: nat,
    headRows: seq<string>,
    blessedFrom: BlessedFrom)

  /** `expected/<query>.json`, by query id. */
  type OracleStore = map<string, ExpectedEntry>

  datatype BlessSummary = BlessSummary(
    written: seq<string>,
    overwritten: seq<string>,
    reproduced: seq<string>,
    skipped: seq<string>)

  function NativeIds(meta: RunMeta): set<string> {
    set i | 0 <= i < |meta.targets| && meta.targets[i].kind == "native" :: meta.targets[i].id
  }

  function GateOf(corpus: Corpus, queryId: string): HashGate {
    if queryId in corpus then corpus[queryId].hashGate else FullHash
  }

  /** What becomes of one record in the classification pass. */
  datatype Class = NotNative | Skipped | Fresh | Unchanged | Replaces | Conflicts

  function Classify(meta: RunMeta, corpus: Corpus, store: OracleStore, force: bool, r: RunRecord): Class {
    if r.target !in NativeIds(meta) then NotNative
    else if r.queryId in corpus && corpus[r.queryId].errorsOnVirtual then Skipped
    else if r.status != Completed then Skipped
    else if r.queryId !in store then Fresh
    else if SameOracle(GateOf(corpus, r.queryId), store[r.queryId], r) then Unchanged
    else if force then Replaces
    else Conflicts
  }

  predicate SameOracle(gate: HashGate, existing: ExpectedEntry, r: RunRecord) {
    match gate
    case FullHash => existing.resultHash == r.resultHash && existing.rows == r.rows
    case RowsOnly => existing.rows == r.rows
  }

  function EntryOf(meta: RunMeta, r: RunRecord): ExpectedEntry {
    ExpectedEntry(r.queryId, r.resultHash, r.rows, if r.heads.Some? then r.heads.value else [],
                  BlessedFrom(r.target, meta.runId, meta.gitCommit))
  }

  /** An entry about to be written, and whether it replaces a differing one. */
  datatype Write = Write(entry: ExpectedEntry, replacing: bool)

  /** What one record adds to the write list. */
  function Writes(meta: RunMeta, corpus: Corpus, store: OracleStore, force: bool): RunRecord -> seq<Write> {
    (r: RunRecord) =>
      match Classify(meta, corpus, store, force, r)
      case Fresh => [Write(EntryOf(meta, r), false)]
      case Replaces => [Write(EntryOf(meta, r), true)]
      case _ => []
  }

  function WriteList(meta: RunMeta, corpus: Corpus, store: OracleStore, force: bool,
      records: seq<RunRecord>): seq<Write> {
    FlatMap(Writes(meta, corpus, store, force), records)
  }

  /** The query ids of the records classified as `c`. */
  function IdsOf(meta: RunMeta, corpus: Corpus, store: OracleStore, force: bool, c: Class): RunRecord -> seq<string> {
    (r: RunRecord) => if Classify(meta, corpus, store, force, r) == c then [r.queryId] else []
  }

  function WrittenId(): Write -> seq<string> {
    (w: Write) => [w.entry.queryId]
  }

  function OverwrittenId(): Write -> seq<string> {
    (w: Write) => if w.replacing then [w.entry.queryId] else []
  }

  function SummaryOf(meta: RunMeta, corpus: Corpus, store: OracleStore, force: bool,
      records: seq<RunRecord>): BlessSummary {
    var list := WriteList(meta, corpus, store, force, records);
    BlessSummary(FlatMap(WrittenId(), list),
                 FlatMap(OverwrittenId(), list),
                 FlatMap(IdsOf(meta, corpus, store, force, Unchanged), records),
                 FlatMap(IdsOf(meta, corpus, store, force, Skipped), records))
  }

  predicate BlessRefused(meta: RunMeta, corpus: Corpus, store: OracleStore, force: bool, records: seq<RunRecord>) {
    NativeIds(meta) == {} || exists r :: r in records && Classify(meta, corpus, store, force, r) == Conflicts
  }

  function WriteAll(store: OracleStore, list: seq<Write>): OracleStore {
    if list == [] then store
    else
      var last := list[|list| - 1].entry;
      WriteAll(store, list[..|list| - 1])[last.queryId := last]
  }

  /** The store after one bless; a refusal leaves it alone. */
  function Blessed(meta: RunMeta, corpus: Corpus, store: OracleStore, force: bool,
      records: seq<RunRecord>): OracleStore {
    if BlessRefused(meta, corpus, store, force, records) then store
    else WriteAll(store, WriteList(meta, corpus, store, force, records))
  }

  class BaselineDir {
    var expected: OracleStore

    constructor ()
      ensures expected == map[]
    {
      expected := map[];
    }

    /** `write_expected`: classify everything, then write everything or nothing. */
    method WriteExpected(meta: RunMeta, records: seq<RunRecord>, corpus: Corpus, force: bool)
      returns (r: Result<BlessSummary>)
      modifies this
      ensures r == if BlessRefused(meta, corpus, old(expected), force, records) then Refused
                   else Ok(SummaryOf(meta, corpus, old(expected), force, records))
      ensures expected == Blessed(meta, corpus, old(expected), force, records)
      ensures r.Refused? ==> expected == old(expected)
    {
      if NativeIds(meta) == {} {
        return Refused;
      }
      var toWrite, reproduced, skipped, conflict := ClassifyAll(meta, records, corpus, force);
      if conflict {
        return Refused;
      }
      var written, overwritten := WriteEntries(toWrite);
      r := Ok(BlessSummary(written, overwritten, reproduced, skipped));
    }

    /** First pass: nothing is written yet. */
    method ClassifyAll(meta: RunMeta, records: seq<RunRecord>, corpus: Corpus, force: bool)
      returns (toWrite: seq<Write>, reproduced: seq<string>, skipped: seq<string>, conflict: bool)
      ensures toWrite == WriteList(meta, corpus, expected, force, records)
      ensures reproduced == FlatMap(IdsOf(meta, corpus, expected, force, Unchanged), records)
      ensures skipped == FlatMap(IdsOf(meta, corpus, expected, force, Skipped), records)
      ensures conflict <==> exists r :: r in records && Classify(meta, corpus, expected, force, r) == Conflicts
    {
      toWrite, reproduced, skipped, conflict := [], [], [], false;
      ghost var writes := Writes(meta, corpus, expected, force);
      ghost var same, none := IdsOf(meta, corpus, expected, force, Unchanged),
          IdsOf(meta, corpus, expected, force, Skipped);
      hide FlatMap, Classify;
      FlatMapNil(writes, records);
      FlatMapNil(same, records);
      FlatMapNil(none, records);
      for i := 0 to |records|
        invariant toWrite == FlatMap(writes, records[..i])
        invariant reproduced == FlatMap(same, records[..i])
        invariant skipped == FlatMap(none, records[..i])
        invariant conflict <==>
                  exists k :: 0 <= k < i && Classify(meta, corpus, expected, force, records[k]) == Conflicts
      {
        var record := records[i];
        FlatMapSnoc(writes, records, i);
        FlatMapSnoc(same, records, i);
        FlatMapSnoc(none, records, i);
        match Classify(meta, corpus, expected, force, record) {
          case NotNative =>
          case Skipped => skipped := skipped + [record.queryId];
          case Fresh => toWrite := toWrite + [Write(EntryOf(meta, record), false)];
          case Unchanged => reproduced := reproduced + [record.queryId];
          case Replaces => toWrite := toWrite + [Write(EntryOf(meta, record), true)];
          case Conflicts => conflict := true;
        }
      }
    }

    /** Second pass. */
    method WriteEntries(toWrite: seq<Write>) returns (written: seq<string>, overwritten: seq<string>)
      modifies this
      ensures expected == WriteAll(old(expected), toWrite)
      ensures written == FlatMap(WrittenId(), toWrite) && overwritten == FlatMap(OverwrittenId(), toWrite)
    {
      written, overwritten := [], [];
      hide FlatMap;
      FlatMapNil(WrittenId(), toWrite);
      FlatMapNil(OverwrittenId(), toWrite);
      for i := 0 to |toWrite|
        invariant expected == WriteAll(old(expected), toWrite[..i])
        invariant written == FlatMap(WrittenId(), toWrite[..i]) && overwritten == FlatMap(OverwrittenId(), toWrite[..i])
      {
        var entry := toWrite[i].entry;
        FlatMapSnoc(WrittenId(), toWrite, i);
        FlatMapSnoc(OverwrittenId(), toWrite, i);
        expected := expected[entry.queryId := entry];
        if toWrite[i].replacing {
          overwritten := overwritten + [entry.queryId];
        }
        written := written + [entry.queryId];
        assert toWrite[..i + 1][..i] == toWrite[..i];
      }
    }
  }

  // ------------------------------------------------------------------
  // compare_one
  // ------------------------------------------------------------------

  datatype HashCheck =
    | Pass
    | NoExpected
    | NotApplicable
    | Mismatch(expectedHash: string, observedHash: string)
    | RowsMismatch(expectedRows: nat, observedRows: nat)

  function CheckHash(r: RunRecord, expected: Option<ExpectedEntry>, gate: HashGate): HashCheck {
    match expected
    case None => NoExpected
    case Some(e) =>
      if r.status != Completed then NotApplicable
      else match gate
           case RowsOnly => if e.rows == r.rows then Pass else RowsMismatch(e.rows, r.rows)
           case FullHash => if e.resultHash == r.resultHash then Pass else Mismatch(e.resultHash, r.resultHash)
  }

  function Lookup<V>(m: map<string, V>, key: string): Option<V> {
    if key in m then Some(m[key]) else None
  }

  // ------------------------------------------------------------------
  // What blessing writes
  // ------------------------------------------------------------------

  ghost predicate WritesFor(list: seq<Write>, q: string) {
    exists w :: w in list && w.entry.queryId == q
  }

  lemma {:induction false} WriteAllAt(store: OracleStore, list: seq<Write>, q: string)
    ensures !WritesFor(list, q) ==> Lookup(WriteAll(store, list), q) == Lookup(store, q)
    ensures WritesFor(list, q) ==>
              && q in WriteAll(store, list)
              && exists w :: w in list && w.entry.queryId == q && WriteAll(store, list)[q] == w.entry
  {
    if list != [] {
      var n := |list| - 1;
      WriteAllAt(store, list[..n], q);
      SplitLast(list);
    }
  }

  lemma {:induction false} WriteListOrigin(
      meta: RunMeta, corpus: Corpus, store: OracleStore, force: bool, records: seq<RunRecord>, w: Write)
    ensures w in WriteList(meta, corpus, store, force, records) <==>
            exists r :: r in records && w.entry == EntryOf(meta, r) &&
              Classify(meta, corpus, store, force, r) == if w.replacing then Replaces else Fresh
  {
    hide FlatMap, Classify;
    InFlatMap(Writes(meta, corpus, store, force), records, w);
  }

  /** A query is written exactly when one of its usable records is new or replaces a differing oracle. */
  lemma {:induction false} WritesForIff(
      meta: RunMeta, corpus: Corpus, store: OracleStore, force: bool, records: seq<RunRecord>, q: string)
    ensures WritesFor(WriteList(meta, corpus, store, force, records), q) <==>
            exists r :: r in records && r.queryId == q && Classify(meta, corpus, store, force, r) in {Fresh, Replaces}
  {
    hide Classify, WriteList;
    var list := WriteList(meta, corpus, store, force, records);
    if WritesFor(list, q) {
      var w :| w in list && w.entry.queryId == q;
      WriteListOrigin(meta, corpus, store, force, records, w);
    }
    if r :| r in records && r.queryId == q && Classify(meta, corpus, store, force, r) in {Fresh, Replaces} {
      var w := Write(EntryOf(meta, r), Classify(meta, corpus, store, force, r) == Replaces);
      WriteListOrigin(meta, corpus, store, force, records, w);
    }
  }

  // ------------------------------------------------------------------
  // Oracle safety over runs
  // ------------------------------------------------------------------

  datatype Bless = Bless(meta: RunMeta, corpus: Corpus, force: bool, records: seq<RunRecord>)

  function BlessRun(store: OracleStore, calls: seq<Bless>): OracleStore
    decreases calls
  {
    if calls == [] then store
    else BlessRun(Blessed(calls[0].meta, calls[0].corpus, store, calls[0].force, calls[0].records), calls[1..])
  }

  lemma {:induction false} UnforcedBlessKeepsEntries(meta: RunMeta, corpus: Corpus, store: OracleStore,
      records: seq<RunRecord>, q: string)
    requires q in store
    ensures Lookup(Blessed(meta, corpus, store, false, records), q) == Some(store[q])
  {
    var list := WriteList(meta, corpus, store, false, records);
    WritesForIff(meta, corpus, store, false, records, q);
    hide WriteList;
    WriteAllAt(store, list, q);
  }

  /** Through any sequence of unforced blesses the store only grows, and no oracle in it ever changes. */
  lemma {:induction false} UnforcedRunsOnlyGrow(store: OracleStore, calls: seq<Bless>, q: string)
    requires forall i :: 0 <= i < |calls| ==> !calls[i].force
    requires q in store
    ensures Lookup(BlessRun(store, calls), q) == Some(store[q])
    decreases calls
  {
    if calls != [] {
      var c := calls[0];
      UnforcedBlessKeepsEntries(c.meta, c.corpus, store, c.records, q);
      UnforcedRunsOnlyGrow(Blessed(c.meta, c.corpus, store, c.force, c.records), calls[1..], q);
    }
  }

  /** A record of a native target that completed and is not expected to fail on virtual targets. */
  predicate Usable(meta: RunMeta, corpus: Corpus, r: RunRecord) {
    && r.target in NativeIds(meta)
    && !(r.queryId in corpus && corpus[r.queryId].errorsOnVirtual)
    && r.status == Completed
  }

  /** Exactly the queries with a usable record gain an oracle. */
  lemma {:induction false} NewOraclesIff(
      meta: RunMeta, corpus: Corpus, store: OracleStore, force: bool, records: seq<RunRecord>, q: string)
    requires !BlessRefused(meta, corpus, store, force, records) && q !in store
    ensures q in Blessed(meta, corpus, store, force, records) <==>
            exists r :: r in records && Usable(meta, corpus, r) && r.queryId == q
  {
    WritesForIff(meta, corpus, store, force, records, q);
    hide WriteList;
    WriteAllAt(store, WriteList(meta, corpus, store, force, records), q);
  }

  // ------------------------------------------------------------------
  // Bless, then gate
  // ------------------------------------------------------------------

  predicate GateAgrees(gate: HashGate, a: RunRecord, b: RunRecord) {
    match gate
    case FullHash => a.resultHash == b.resultHash
    case RowsOnly => a.rows == b.rows
  }

  /** The usable records of each query agree with each other, as its gate compares them. */
  ghost predicate SelfConsistent(meta: RunMeta, corpus: Corpus, records: seq<RunRecord>) {
    forall a, b ::
      a in records && b in records && Usable(meta, corpus, a) && Usable(meta, corpus, b) && a.queryId == b.queryId ==>
        GateAgrees(GateOf(corpus, a.queryId), a, b)
  }

  /** The oracle a usable record meets after a successful bless. */
  lemma {:induction false} OracleAfterBless(
      meta: RunMeta, corpus: Corpus, store: OracleStore, force: bool, records: seq<RunRecord>, r: RunRecord)
    requires !BlessRefused(meta, corpus, store, force, records)
    requires r in records && Usable(meta, corpus, r)
    ensures var after := Blessed(meta, corpus, store, force, records);
            && r.queryId in after
            && (|| SameOracle(GateOf(corpus, r.queryId), after[r.queryId], r)
                || exists b ::
                     b in records && Usable(meta, corpus, b) && b.queryId == r.queryId
                     && after[r.queryId] == EntryOf(meta, b))
  {
    var list, q := WriteList(meta, corpus, store, force, records), r.queryId;
    WritesForIff(meta, corpus, store, force, records, q);
    WriteAllAt(store, list, q);
    hide WriteList, WriteAll;
    if WritesFor(list, q) {
      var w :| w in list && w.entry.queryId == q && WriteAll(store, list)[q] == w.entry;
      WriteListOrigin(meta, corpus, store, force, records, w);
    }
  }

  /**
   After a successful bless, the same run passes its own parity gate exactly when its usable
   records agree with each other.
   */
  lemma {:induction false} BlessThenGateIsGreenIff(
      meta: RunMeta, corpus: Corpus, store: OracleStore, force: bool, records: seq<RunRecord>)
    requires !BlessRefused(meta, corpus, store, force, records)
    ensures var after := Blessed(meta, corpus, store, force, records);
            (forall r :: r in records && Usable(meta, corpus, r) ==>
               CheckHash(r, Lookup(after, r.queryId), GateOf(corpus, r.queryId)) == Pass)
            <==> SelfConsistent(meta, corpus, records)
  {
    var after := Blessed(meta, corpus, store, force, records);
    hide Blessed, BlessRefused;
    if SelfConsistent(meta, corpus, records) {
      forall r | r in records && Usable(meta, corpus, r)
        ensures CheckHash(r, Lookup(after, r.queryId), GateOf(corpus, r.queryId)) == Pass
      {
        OracleAfterBless(meta, corpus, store, force, records, r);
      }
    }
    if forall r :: r in records && Usable(meta, corpus, r)
        ==> CheckHash(r, Lookup(after, r.queryId), GateOf(corpus, r.queryId)) == Pass {
      forall a, b | a in records && b in records && Usable(meta, corpus, a) && Usable(meta, corpus, b)
          && a.queryId == b.queryId
        ensures GateAgrees(GateOf(corpus, a.queryId), a, b)
      {
        OracleAfterBless(meta, corpus, store, force, records, a);
        assert CheckHash(a, Lookup(after, a.queryId), GateOf(corpus, a.queryId)) == Pass;
        assert CheckHash(b, Lookup(after, b.queryId), GateOf(corpus, b.queryId)) == Pass;
      }
    }
  }
}

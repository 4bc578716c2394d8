/**
 Blessing and comparing, spelled out on the fields of the records, the catalogue and the stores:
 what is refused, which entry ends up in a store, what a summary lists, and what one comparison
 answers.
 */
module BlessRule {
  import opened Prelude
  import opened Ordering
  import opened Schema
  import opened Oracle
  import opened Perf

  // ------------------------------------------------------------------
  // Which records count
  // ------------------------------------------------------------------

  ghost predicate IsNative(meta: RunMeta, target: string) {
    exists i :: 0 <= i < |meta.targets| && meta.targets[i].id == target && meta.targets[i].kind == "native"
  }

  /** A completed record of a native target whose query is not declared to fail on virtual targets. */
  ghost predicate Counts(meta: RunMeta, corpus: Corpus, r: RunRecord) {
    && IsNative(meta, r.target) && r.status == Completed
    && (r.queryId in corpus ==> !corpus[r.queryId].errorsOnVirtual)
  }

  /** Only the row count is compared for a query declared so; any other is compared by hash. */
  ghost predicate ByRowsOnly(corpus: Corpus, q: string) {
    q in corpus && corpus[q].hashGate == RowsOnly
  }

  ghost predicate Contradicts(corpus: Corpus, e: ExpectedEntry, r: RunRecord) {
    e.rows != r.rows || (!ByRowsOnly(corpus, r.queryId) && e.resultHash != r.resultHash)
  }

  lemma NativeIff(meta: RunMeta, target: string)
    ensures target in NativeIds(meta) <==> IsNative(meta, target)
  {
  }

  lemma ClassReads(meta: RunMeta, corpus: Corpus, store: OracleStore, force: bool, r: RunRecord)
    ensures var c, counts := Classify(meta, corpus, store, force, r), Counts(meta, corpus, r);
            && (c == NotNative <==> !IsNative(meta, r.target))
            && (c == Skipped <==> IsNative(meta, r.target) && !counts)
            && (c == Fresh <==> counts && r.queryId !in store)
            && (c == Unchanged <==> counts && r.queryId in store && !Contradicts(corpus, store[r.queryId], r))
            && (c == Replaces <==> counts && r.queryId in store && Contradicts(corpus, store[r.queryId], r) && force)
            && (c == Conflicts <==> counts && r.queryId in store && Contradicts(corpus, store[r.queryId], r) && !force)
  {
    NativeIff(meta, r.target);
    hide NativeIds, IsNative;
  }

  // ------------------------------------------------------------------
  // Refusal
  // ------------------------------------------------------------------

  /** A bless is refused for want of a native target, or when an unforced one contradicts an oracle. */
  lemma {:induction false} BlessRefusedIff(
      meta: RunMeta, corpus: Corpus, store: OracleStore, force: bool, records: seq<RunRecord>)
    ensures BlessRefused(meta, corpus, store, force, records) <==>
            || (forall i :: 0 <= i < |meta.targets| ==> meta.targets[i].kind != "native")
            || (!force && exists r :: r in records && Counts(meta, corpus, r) && r.queryId in store
                                      && Contradicts(corpus, store[r.queryId], r))
  {
    forall r
      ensures Classify(meta, corpus, store, force, r) == Conflicts <==>
              Counts(meta, corpus, r) && r.queryId in store && Contradicts(corpus, store[r.queryId], r) && !force
    {
      ClassReads(meta, corpus, store, force, r);
    }
    NoNativeIff(meta);
    hide Classify, Counts, Contradicts, NativeIds;
  }

  lemma NoNativeIff(meta: RunMeta)
    ensures NativeIds(meta) == {} <==> forall i :: 0 <= i < |meta.targets| ==> meta.targets[i].kind != "native"
  {
    forall i | 0 <= i < |meta.targets| && meta.targets[i].kind == "native"
      ensures meta.targets[i].id in NativeIds(meta)
    {
    }
  }

  // ------------------------------------------------------------------
  // The store and the summary
  // ------------------------------------------------------------------

  /** The record brings a new oracle, or replaces one it contradicts under force. */
  ghost predicate Supersedes(meta: RunMeta, corpus: Corpus, store: OracleStore, force: bool, r: RunRecord) {
    && Counts(meta, corpus, r)
    && (r.queryId in store ==> force && Contradicts(corpus, store[r.queryId], r))
  }

  /** The oracle a record leaves: its query, hash, rows and heads, and where it came from. */
  ghost predicate LeftBy(meta: RunMeta, e: ExpectedEntry, r: RunRecord) {
    && e.queryId == r.queryId && e.resultHash == r.resultHash && e.rows == r.rows
    && e.headRows == (if r.heads == None then [] else r.heads.value)
    && e.blessedFrom.target == r.target && e.blessedFrom.runId == meta.runId
    && e.blessedFrom.commit == meta.gitCommit
  }

  /** The last record that supersedes the oracle of `q`. */
  ghost function LastSuperseding(
      meta: RunMeta, corpus: Corpus, store: OracleStore, force: bool, records: seq<RunRecord>, q: string)
      : Option<RunRecord>
  {
    if records == [] then None
    else
      var r := records[|records| - 1];
      if r.queryId == q && Supersedes(meta, corpus, store, force, r) then Some(r)
      else LastSuperseding(meta, corpus, store, force, records[..|records| - 1], q)
  }

  lemma {:induction false} WritesReads(meta: RunMeta, corpus: Corpus, store: OracleStore, force: bool, r: RunRecord)
    ensures var ws := Writes(meta, corpus, store, force)(r);
            if Supersedes(meta, corpus, store, force, r)
            then |ws| == 1 && LeftBy(meta, ws[0].entry, r) && (ws[0].replacing <==> r.queryId in store)
            else ws == []
  {
    ClassReads(meta, corpus, store, force, r);
    hide Classify, Counts, Contradicts;
  }

  lemma WriteOne(store: OracleStore, list: seq<Write>, w: Write)
    ensures WriteAll(store, list + [w]) == WriteAll(store, list)[w.entry.queryId := w.entry]
  {
    assert (list + [w])[..|list|] == list;
  }

  lemma {:induction false} WrittenStore(
      meta: RunMeta, corpus: Corpus, store: OracleStore, force: bool, records: seq<RunRecord>, q: string)
    ensures var after := WriteAll(store, WriteList(meta, corpus, store, force, records));
            var last := LastSuperseding(meta, corpus, store, force, records, q);
            && (last == None ==> Lookup(after, q) == Lookup(store, q))
            && (last != None ==> q in after && LeftBy(meta, after[q], last.value))
  {
    if records != [] {
      var n := |records| - 1;
      var r, list := records[n], WriteList(meta, corpus, store, force, records[..n]);
      var ws := Writes(meta, corpus, store, force)(r);
      WrittenStore(meta, corpus, store, force, records[..n], q);
      WritesReads(meta, corpus, store, force, r);
      assert WriteList(meta, corpus, store, force, records) == list + ws;
      hide WriteList, Writes, Supersedes, WriteAll;
      if ws == [] {
        assert list + ws == list;
      } else {
        assert ws == [ws[0]];
        WriteOne(store, list, ws[0]);
      }
    }
  }

  /**
   After a bless that is not refused, the oracle of a query is the one left by the last record
   that supersedes it, and unchanged when there is none.
   */
  lemma {:induction false} BlessedStoreIs(
      meta: RunMeta, corpus: Corpus, store: OracleStore, force: bool, records: seq<RunRecord>, q: string)
    requires !BlessRefused(meta, corpus, store, force, records)
    ensures var after := Blessed(meta, corpus, store, force, records);
            var last := LastSuperseding(meta, corpus, store, force, records, q);
            && (last == None ==> Lookup(after, q) == Lookup(store, q))
            && (last != None ==> q in after && LeftBy(meta, after[q], last.value))
  {
    WrittenStore(meta, corpus, store, force, records, q);
    hide WriteList, BlessRefused, LastSuperseding;
  }

  /** What the summary lists. */
  lemma {:induction false} SummaryReads(
      meta: RunMeta, corpus: Corpus, store: OracleStore, force: bool, records: seq<RunRecord>, q: string)
    ensures var s := SummaryOf(meta, corpus, store, force, records);
            && (q in s.written <==>
                exists r :: r in records && r.queryId == q && Supersedes(meta, corpus, store, force, r))
            && (q in s.overwritten <==>
                q in store && exists r :: r in records && r.queryId == q && Supersedes(meta, corpus, store, force, r))
            && (q in s.reproduced <==>
                q in store && exists r :: r in records && r.queryId == q && Counts(meta, corpus, r)
                                          && !Contradicts(corpus, store[q], r))
            && (q in s.skipped <==>
                exists r :: r in records && r.queryId == q && IsNative(meta, r.target) && !Counts(meta, corpus, r))
  {
    WrittenIdsRead(meta, corpus, store, force, records, q);
    IdsRead(meta, corpus, store, force, records, q, Unchanged);
    IdsRead(meta, corpus, store, force, records, q, Skipped);
    forall r | r in records && r.queryId == q
      ensures Classify(meta, corpus, store, force, r) == Unchanged <==>
              Counts(meta, corpus, r) && q in store && !Contradicts(corpus, store[q], r)
      ensures Classify(meta, corpus, store, force, r) == Skipped <==>
              IsNative(meta, r.target) && !Counts(meta, corpus, r)
    {
      ClassReads(meta, corpus, store, force, r);
    }
    hide FlatMap, WriteList, Classify, Counts, Contradicts, IsNative, Supersedes;
  }

  lemma {:induction false} IdsRead(
      meta: RunMeta, corpus: Corpus, store: OracleStore, force: bool, records: seq<RunRecord>, q: string, c: Class)
    ensures q in FlatMap(IdsOf(meta, corpus, store, force, c), records) <==>
            exists r :: r in records && r.queryId == q && Classify(meta, corpus, store, force, r) == c
  {
    hide FlatMap, Classify;
    InFlatMap(IdsOf(meta, corpus, store, force, c), records, q);
    if r :| r in records && r.queryId == q && Classify(meta, corpus, store, force, r) == c {
      assert q in IdsOf(meta, corpus, store, force, c)(r);
    }
  }

  /** A write comes from a superseding record of its query. */
  lemma {:induction false} WriteComesFrom(
      meta: RunMeta, corpus: Corpus, store: OracleStore, force: bool, records: seq<RunRecord>, w: Write)
      returns (r: RunRecord)
    requires w in WriteList(meta, corpus, store, force, records)
    ensures r in records && r.queryId == w.entry.queryId && Supersedes(meta, corpus, store, force, r)
    ensures w.replacing <==> r.queryId in store
  {
    hide FlatMap, Writes, Supersedes;
    InFlatMap(Writes(meta, corpus, store, force), records, w);
    r :| r in records && w in Writes(meta, corpus, store, force)(r);
    WritesReads(meta, corpus, store, force, r);
  }

  lemma {:induction false} WriteOf(
      meta: RunMeta, corpus: Corpus, store: OracleStore, force: bool, records: seq<RunRecord>, r: RunRecord)
      returns (w: Write)
    requires r in records && Supersedes(meta, corpus, store, force, r)
    ensures w in WriteList(meta, corpus, store, force, records) && w.entry.queryId == r.queryId
    ensures w.replacing <==> r.queryId in store
  {
    hide FlatMap, Writes, Supersedes;
    WritesReads(meta, corpus, store, force, r);
    w := Writes(meta, corpus, store, force)(r)[0];
    InFlatMap(Writes(meta, corpus, store, force), records, w);
  }

  lemma {:induction false} WrittenIdsRead(
      meta: RunMeta, corpus: Corpus, store: OracleStore, force: bool, records: seq<RunRecord>, q: string)
    ensures var s := SummaryOf(meta, corpus, store, force, records);
            var some := exists r :: r in records && r.queryId == q && Supersedes(meta, corpus, store, force, r);
            (q in s.written <==> some) && (q in s.overwritten <==> q in store && some)
  {
    hide FlatMap, WriteList, Supersedes;
    var list := WriteList(meta, corpus, store, force, records);
    InFlatMap(WrittenId(), list, q);
    InFlatMap(OverwrittenId(), list, q);
    if w :| w in list && q in WrittenId()(w) {
      var r := WriteComesFrom(meta, corpus, store, force, records, w);
    }
    if w :| w in list && q in OverwrittenId()(w) {
      var r := WriteComesFrom(meta, corpus, store, force, records, w);
    }
    if r :| r in records && r.queryId == q && Supersedes(meta, corpus, store, force, r) {
      var w := WriteOf(meta, corpus, store, force, records, r);
      assert q in WrittenId()(w) && (w.replacing ==> q in OverwrittenId()(w));
    }
  }

  // ------------------------------------------------------------------
  // One comparison
  // ------------------------------------------------------------------

  /** The answer about correctness. */
  lemma HashAnswer(r: RunRecord, expected: Option<ExpectedEntry>, gate: HashGate)
    ensures var c := CheckHash(r, expected, gate);
            && (c == NoExpected <==> expected == None)
            && (c == NotApplicable <==> expected != None && r.status != Completed)
            && (c == Pass <==> && expected != None && r.status == Completed
                               && (gate == FullHash ==> expected.value.resultHash == r.resultHash)
                               && (gate == RowsOnly ==> expected.value.rows == r.rows))
            && (c.Mismatch? ==> gate == FullHash && c.expectedHash == expected.value.resultHash
                                && c.observedHash == r.resultHash)
            && (c.RowsMismatch? ==> gate == RowsOnly && c.expectedRows == expected.value.rows
                                    && c.observedRows == r.rows)
  {
  }

  /** The percentage a hot record is held to: the query's own, else that of its side. */
  ghost predicate IsBudget(b: Budgets, q: string, isVirtual: bool, pct: real) {
    && (q in b.overrides ==> pct == b.overrides[q])
    && (q !in b.overrides && isVirtual ==> pct == b.virtualHot)
    && (q !in b.overrides && !isVirtual ==> pct == b.native)
  }

  /** The reference wall of a record: of its target and query, hot or cold as it is. */
  ghost function ReferenceWall(perf: PerfStore, r: RunRecord): Option<nat> {
    if r.target !in perf || r.queryId !in perf[r.target].entries then None
    else if r.cacheState == "cold" then perf[r.target].entries[r.queryId].coldWallMs
    else perf[r.target].entries[r.queryId].hotWallMs
  }

  /**
   The answer about performance, against both stores: there is one exactly when there is a
   reference wall; it reports both walls and their ratio; it is a violation only of a hot record,
   and then exactly when the reference is positive and the wall exceeds it by more than the
   percentage and at least the floor, or the reference is zero under a negative percentage.
   */
  lemma {:induction false} PerfAnswer(
      oracles: OracleStore, perf: PerfStore, corpus: Corpus, budgets: Budgets, r: RunRecord, isVirtual: bool, pct: real)
    requires IsBudget(budgets, r.queryId, isVirtual, pct)
    ensures var p, wall := GateRecord(oracles, perf, corpus, budgets, r, isVirtual).perf, ReferenceWall(perf, r);
            && (p == None <==> wall == None)
            && (p != None ==>
                  && p.value.baselineMs == wall.value && p.value.observedMs == r.wallMs
                  && (wall.value > 0 ==> p.value.ratio * (wall.value as real) == r.wallMs as real)
                  && (wall.value == 0 ==> p.value.ratio == 1.0)
                  && (p.value.violated <==>
                        && r.cacheState != "cold" && Max(r.wallMs - wall.value, 0) >= budgets.minDeltaMs
                        && if wall.value > 0 then r.wallMs as real * 100.0 > wall.value as real * (100.0 + pct)
                           else pct < 0.0))
  {
    var wall := ReferenceWall(perf, r);
    if wall.Some? {
      RatioReads(wall.value, r.wallMs);
      OverReads(wall.value, r.wallMs, EffectiveBudget(pct, budgets.minDeltaMs));
    }
    hide Ratio, OverBudget, CheckHash;
  }

  lemma RatioReads(baselineMs: nat, observedMs: nat)
    ensures baselineMs > 0 ==> Ratio(baselineMs, observedMs) * (baselineMs as real) == observedMs as real
    ensures baselineMs == 0 ==> Ratio(baselineMs, observedMs) == 1.0
  {
  }

  lemma OverReads(baselineMs: nat, observedMs: nat, budget: EffectiveBudget)
    ensures OverBudget(baselineMs, observedMs, budget) <==>
            && Max(observedMs - baselineMs, 0) >= budget.minDeltaMs
            && if baselineMs > 0 then observedMs as real * 100.0 > baselineMs as real * (100.0 + budget.pct)
               else budget.pct < 0.0
  {
    if baselineMs > 0 {
      PositiveBaselineFollowsRule(baselineMs, observedMs, budget);
    }
  }

  /** Which oracle a record meets, and under which gate. */
  lemma HashAnswerOfStore(
      oracles: OracleStore, perf: PerfStore, corpus: Corpus, budgets: Budgets, r: RunRecord, isVirtual: bool)
    ensures GateRecord(oracles, perf, corpus, budgets, r, isVirtual).hash
            == CheckHash(r, if r.queryId in oracles then Some(oracles[r.queryId]) else None,
                         if ByRowsOnly(corpus, r.queryId) then RowsOnly else FullHash)
  {
  }

  // ------------------------------------------------------------------
  // The perf store
  // ------------------------------------------------------------------

  ghost predicate Ran(records: seq<RunRecord>, t: string) {
    exists r :: r in records && r.target == t
  }

  /** Provenance and extent of the perf references: targets that ran are stamped with the run, the others untouched. */
  lemma {:induction false} PerfStoreReads(
      meta: RunMeta, corpus: Corpus, store: PerfStore, records: seq<RunRecord>, t: string)
    ensures var after := PerfAfter(meta, corpus, store, records);
            && (t in after <==> t in store || Ran(records, t))
            && (t in store && !Ran(records, t) ==> after[t] == store[t])
            && (Ran(records, t) ==>
                  && after[t].runId == meta.runId && after[t].commit == meta.gitCommit
                  && after[t].target == if t in store then store[t].target else t)
  {
    hide ApplyRecords, OfTarget;
    assert t in TargetsOf(records) <==> Ran(records, t);
  }
}

/**
 The counters kept beside the blessed walls: the latest hot record's, or while those are empty
 the first cold record's that are not. This is where the order of a hot and a cold bless shows.
 */
module PerfCounters {
  import opened Prelude
  import opened Ordering
  import opened Schema
  import opened Perf

  predicate IsOf(r: RunRecord, t: string, q: string) {
    r.target == t && r.queryId == q
  }

  /** The counters a target and query end up with when `records` are merged over `before`. */
  ghost function MergedCounters(records: seq<RunRecord>, t: string, q: string, before: Counters): Counters {
    if records == [] then before
    else
      var r, c := records[|records| - 1], MergedCounters(records[..|records| - 1], t, q, before);
      if IsOf(r, t, q) && (!IsCold(r) || c == NO_COUNTERS) then r.counters else c
  }

  ghost function CountersAt(store: PerfStore, t: string, q: string): Counters {
    EntryAt(PerfEntries(store, t), q).counters
  }

  lemma {:induction false} ApplyingMergesCounters(
      corpus: Corpus, entries: map<string, PerfEntry>, records: seq<RunRecord>, t: string, q: string)
    requires forall r :: r in records ==> r.target == t
    ensures EntryAt(ApplyRecords(corpus, entries, records), q).counters
            == MergedCounters(records, t, q, EntryAt(entries, q).counters)
  {
    if records != [] {
      SplitLast(records);
      ApplyingMergesCounters(corpus, entries, records[..|records| - 1], t, q);
    }
  }

  lemma {:induction false} MergedOfTarget(records: seq<RunRecord>, t: string, q: string, before: Counters)
    ensures forall r :: r in OfTarget(records, t) ==> r.target == t
    ensures MergedCounters(OfTarget(records, t), t, q, before) == MergedCounters(records, t, q, before)
  {
    if records != [] {
      var n := |records| - 1;
      MergedOfTarget(records[..n], t, q, before);
      var rest := OfTarget(records[..n], t);
      if records[n].target == t {
        assert OfTarget(records, t) == rest + [records[n]];
        assert (rest + [records[n]])[..|rest|] == rest;
      } else {
        assert OfTarget(records, t) == rest;
      }
    }
  }

  lemma {:induction false} OtherTargetsAreSilent(records: seq<RunRecord>, t: string, q: string, before: Counters)
    requires t !in TargetsOf(records)
    ensures MergedCounters(records, t, q, before) == before
  {
    if records != [] {
      var n := |records| - 1;
      SplitLast(records);
      assert records[n] in records;
      assert t !in TargetsOf(records[..n]);
      OtherTargetsAreSilent(records[..n], t, q, before);
    }
  }

  lemma {:induction false} OneWriteMergesCounters(
      meta: RunMeta, corpus: Corpus, store: PerfStore, records: seq<RunRecord>, t: string, q: string)
    ensures CountersAt(PerfAfter(meta, corpus, store, records), t, q)
            == MergedCounters(records, t, q, CountersAt(store, t, q))
  {
    hide ApplyRecords, OfTarget;
    if t in TargetsOf(records) {
      MergedOfTarget(records, t, q, CountersAt(store, t, q));
      ApplyingMergesCounters(corpus, PerfEntries(store, t), OfTarget(records, t), t, q);
    } else {
      OtherTargetsAreSilent(records, t, q, CountersAt(store, t, q));
    }
  }

  lemma {:induction false} TwoWritesMergeCounters(
      corpus: Corpus, store: PerfStore, a: PerfCall, b: PerfCall, t: string, q: string)
    ensures CountersAt(PerfRun(corpus, store, [a, b]), t, q)
            == MergedCounters(b.records, t, q, MergedCounters(a.records, t, q, CountersAt(store, t, q)))
  {
    hide PerfAfter, CountersAt;
    var middle := PerfAfter(a.meta, corpus, store, a.records);
    var last := PerfAfter(b.meta, corpus, middle, b.records);
    assert [a, b][1..] == [b] && [b][1..] == [];
    assert PerfRun(corpus, last, []) == last && PerfRun(corpus, middle, [b]) == last;
    OneWriteMergesCounters(a.meta, corpus, store, a.records, t, q);
    OneWriteMergesCounters(b.meta, corpus, middle, b.records, t, q);
  }

  ghost predicate AllHot(records: seq<RunRecord>) {
    forall r :: r in records ==> !IsCold(r)
  }

  ghost predicate AllCold(records: seq<RunRecord>) {
    forall r :: r in records ==> IsCold(r)
  }

  /** Cold records only fill in counters that are empty. */
  lemma {:induction false} ColdFillsIn(records: seq<RunRecord>, t: string, q: string, before: Counters)
    requires AllCold(records) && before != NO_COUNTERS
    ensures MergedCounters(records, t, q, before) == before
  {
    if records != [] {
      SplitLast(records);
      ColdFillsIn(records[..|records| - 1], t, q, before);
    }
  }

  /** The last record of that target and query, if any. */
  ghost function LastOf(records: seq<RunRecord>, t: string, q: string): Option<RunRecord> {
    if records == [] then None
    else if IsOf(records[|records| - 1], t, q) then Some(records[|records| - 1])
    else LastOf(records[..|records| - 1], t, q)
  }

  lemma {:induction false} HotLeavesLast(records: seq<RunRecord>, t: string, q: string, before: Counters)
    requires AllHot(records)
    ensures MergedCounters(records, t, q, before)
            == if LastOf(records, t, q).Some? then LastOf(records, t, q).value.counters else before
  {
    if records != [] {
      var n := |records| - 1;
      SplitLast(records);
      HotLeavesLast(records[..n], t, q, before);
    }
  }

  /** Some record of that target and query has counters. */
  ghost predicate HasCounters(records: seq<RunRecord>, t: string, q: string) {
    exists r :: r in records && IsOf(r, t, q) && r.counters != NO_COUNTERS
  }

  lemma {:induction false} ColdLeavesSome(records: seq<RunRecord>, t: string, q: string)
    requires AllCold(records)
    ensures MergedCounters(records, t, q, NO_COUNTERS) != NO_COUNTERS <==> HasCounters(records, t, q)
  {
    if records != [] {
      var n := |records| - 1;
      SplitLast(records);
      ColdLeavesSome(records[..n], t, q);
      if IsOf(records[n], t, q) && records[n].counters != NO_COUNTERS {
        assert records[n] in records && HasCounters(records, t, q);
      }
    }
  }

  /**
   Blessing a hot and a cold run in either order always agrees on the walls. It agrees on a
   query's whole entry unless the last hot record of the query has no counters and some cold
   one has.
   */
  lemma {:induction false} HotAndColdCommuteIff(
      corpus: Corpus, store: PerfStore, hot: PerfCall, cold: PerfCall, t: string, q: string)
    requires AllHot(hot.records) && AllCold(cold.records)
    ensures var last := LastOf(hot.records, t, q);
            EntryAt(PerfEntries(PerfRun(corpus, store, [hot, cold]), t), q)
            == EntryAt(PerfEntries(PerfRun(corpus, store, [cold, hot]), t), q) <==>
            last.None? || last.value.counters != NO_COUNTERS || !HasCounters(cold.records, t, q)
  {
    HotAndColdCommute(corpus, store, hot, cold, t, q, true);
    HotAndColdCommute(corpus, store, hot, cold, t, q, false);
    TwoWritesMergeCounters(corpus, store, hot, cold, t, q);
    TwoWritesMergeCounters(corpus, store, cold, hot, t, q);
    hide PerfRun, MergedCounters, LastOf, HasCounters;
    var before := CountersAt(store, t, q);
    var filled := MergedCounters(cold.records, t, q, before);
    HotLeavesLast(hot.records, t, q, before);
    HotLeavesLast(hot.records, t, q, filled);
    ColdLeavesSome(cold.records, t, q);
    var left := MergedCounters(hot.records, t, q, before);
    if left != NO_COUNTERS {
      ColdFillsIn(cold.records, t, q, left);
    }
  }

  /** The order does show: a hot record without counters erases what a cold one brought. */
  lemma HotAndColdCanDisagree(corpus: Corpus, store: PerfStore, meta: RunMeta, h: RunRecord, c: RunRecord)
    requires !IsCold(h) && IsCold(c) && IsOf(c, h.target, h.queryId)
    requires h.counters == NO_COUNTERS && c.counters != NO_COUNTERS
    ensures var hot, cold := PerfCall(meta, [h]), PerfCall(meta, [c]);
            EntryAt(PerfEntries(PerfRun(corpus, store, [hot, cold]), h.target), h.queryId)
            != EntryAt(PerfEntries(PerfRun(corpus, store, [cold, hot]), h.target), h.queryId)
  {
    hide PerfRun;
    HotAndColdCommuteIff(corpus, store, PerfCall(meta, [h]), PerfCall(meta, [c]), h.target, h.queryId);
    assert c in [c] && HasCounters([c], h.target, h.queryId);
  }
}

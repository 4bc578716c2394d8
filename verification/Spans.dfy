/**
 The pathway counters: folding captured spans into per-name aggregates and summed fields.
 */
module Spans {
  import opened Prelude
  import opened Ordering
  import opened Schema

  const I64_MAX: int := 0x7FFF_FFFF_FFFF_FFFF

  /** A recorded field: an integer that JSON can hold, or anything else. */
  datatype FieldValue = Integer(value: int) | NotInteger

  datatype SpanRecord = SpanRecord(name: string, parent: Option<string>, elapsedUs: nat,
      fields: map<string, FieldValue>)

  const SPAN_ALLOWLIST: set<string> := {
    "r2rml.scan_table", "r2rml.count_manifest", "r2rml.load_table", "r2rml.read_metadata", "r2rml.count_manifest_read",
    "r2rml.prefetch", "iceberg.parquet_read", "iceberg.scan_plan", "iceberg.oauth_token", "iceberg.read_footer",
    "iceberg.plan_columns", "iceberg.fetch_bytes", "iceberg.decode"}

  /** At least one of these fires on any non-trivial virtual query. */
  const EXPECTED_GROUP: set<string> := {"r2rml.scan_table", "r2rml.count_manifest"}

  /** `field_u64`: 0 when absent, negative, or beyond the signed range. */
  function FieldU64(r: SpanRecord, key: string): nat {
    if key in r.fields && r.fields[key].Integer? && 0 <= r.fields[key].value <= I64_MAX then r.fields[key].value else 0
  }

  /** A field counts with its value when it is an integer from 0 to the largest `i64`, and not at all otherwise. */
  lemma FieldReads(r: SpanRecord, key: string, v: int)
    ensures r.fields == map[key := Integer(v)] ==>
              FieldU64(r, key) == if 0 <= v < 0x8000_0000_0000_0000 then v else 0
    ensures key !in r.fields || r.fields[key].NotInteger? ==> FieldU64(r, key) == 0
    ensures FieldU64(r, key) > 0 ==> key in r.fields && r.fields[key] == Integer(FieldU64(r, key))
  {
  }

  const NO_SPAN := SpanAgg(0, 0, 0)

  function AggAt(spans: map<string, SpanAgg>, name: string): SpanAgg {
    if name in spans then spans[name] else NO_SPAN
  }

  function CountSpan(c: Counters, r: SpanRecord): Counters {
    if r.name !in SPAN_ALLOWLIST then c
    else
      var agg := AggAt(c.spans, r.name);
      Counters(c.spans[r.name := SpanAgg(agg.n + 1, agg.totalUs + r.elapsedUs, Max(agg.maxUs, r.elapsedUs))],
               c.filesSelected + FieldU64(r, "files_selected"),
               c.filesPruned + FieldU64(r, "files_pruned"),
               c.estimatedRowCount + FieldU64(r, "estimated_row_count"),
               c.fileSize + FieldU64(r, "file_size"))
  }

  function Aggregated(records: seq<SpanRecord>): Counters {
    if records == [] then NO_COUNTERS
    else CountSpan(Aggregated(records[..|records| - 1]), records[|records| - 1])
  }

  /** `aggregate`. */
  method Aggregate(records: seq<SpanRecord>) returns (counters: Counters)
    ensures counters == Aggregated(records)
  {
    var spans: map<string, SpanAgg> := map[];
    var selected: nat, pruned: nat, estimated: nat, size: nat := 0, 0, 0, 0;
    for i := 0 to |records|
      invariant Counters(spans, selected, pruned, estimated, size) == Aggregated(records[..i])
    {
      var record := records[i];
      assert records[..i + 1][..i] == records[..i];
      if record.name in SPAN_ALLOWLIST {
        var agg := if record.name in spans then spans[record.name] else SpanAgg(0, 0, 0);
        agg := agg.(n := agg.n + 1, totalUs := agg.totalUs + record.elapsedUs,
            maxUs := Max(agg.maxUs, record.elapsedUs));
        spans := spans[record.name := agg];
        selected := selected + FieldU64(record, "files_selected");
        pruned := pruned + FieldU64(record, "files_pruned");
        estimated := estimated + FieldU64(record, "estimated_row_count");
        size := size + FieldU64(record, "file_size");
      }
    }
    assert records[..|records|] == records;
    counters := Counters(spans, selected, pruned, estimated, size);
  }

  /** `spans_missing` flags the expected group. */
  predicate GroupMissing(c: Counters, isVirtual: bool) {
    isVirtual && forall name :: name in EXPECTED_GROUP ==> name !in c.spans || c.spans[name].n == 0
  }

  // ------------------------------------------------------------------
  // What the aggregates mean
  // ------------------------------------------------------------------

  ghost function CountNamed(records: seq<SpanRecord>, name: string): nat {
    if records == [] then 0
    else CountNamed(records[..|records| - 1], name) + (if records[|records| - 1].name == name then 1 else 0)
  }

  ghost function ElapsedNamed(records: seq<SpanRecord>, name: string): nat {
    if records == [] then 0
    else
      ElapsedNamed(records[..|records| - 1], name)
      + (if records[|records| - 1].name == name then records[|records| - 1].elapsedUs else 0)
  }

  ghost function FieldTotal(records: seq<SpanRecord>, key: string): nat {
    if records == [] then 0
    else
      FieldTotal(records[..|records| - 1], key)
      + (if records[|records| - 1].name in SPAN_ALLOWLIST then FieldU64(records[|records| - 1], key) else 0)
  }

  /** Per allowlisted name: how many spans there were and how long they took together. */
  lemma {:induction false} AggregateCounts(records: seq<SpanRecord>, name: string)
    ensures name in Aggregated(records).spans <==> name in SPAN_ALLOWLIST && CountNamed(records, name) > 0
    ensures name in SPAN_ALLOWLIST ==>
              && AggAt(Aggregated(records).spans, name).n == CountNamed(records, name)
              && AggAt(Aggregated(records).spans, name).totalUs == ElapsedNamed(records, name)
  {
    hide FieldU64;
    if records != [] {
      AggregateCounts(records[..|records| - 1], name);
    }
  }

  /** The largest lifetime is reached and never exceeded. */
  lemma {:induction false} AggregateMax(records: seq<SpanRecord>, name: string)
    ensures forall r :: r in records && r.name == name && name in SPAN_ALLOWLIST ==>
              r.elapsedUs <= AggAt(Aggregated(records).spans, name).maxUs
    ensures name in Aggregated(records).spans ==>
              exists r :: r in records && r.name == name && r.elapsedUs == Aggregated(records).spans[name].maxUs
  {
    hide FieldU64;
    if records != [] {
      var n := |records| - 1;
      AggregateMax(records[..n], name);
      SplitLast(records);
      if name in Aggregated(records[..n]).spans {
        var r :| r in records[..n] && r.name == name && r.elapsedUs == Aggregated(records[..n]).spans[name].maxUs;
        assert r in records;
      }
    }
  }

  /** The summed fields are those of the allowlisted spans. */
  lemma {:induction false} AggregateFields(records: seq<SpanRecord>)
    ensures Aggregated(records).filesSelected == FieldTotal(records, "files_selected")
    ensures Aggregated(records).filesPruned == FieldTotal(records, "files_pruned")
    ensures Aggregated(records).estimatedRowCount == FieldTotal(records, "estimated_row_count")
    ensures Aggregated(records).fileSize == FieldTotal(records, "file_size")
  {
    hide FieldU64, AggAt;
    if records != [] {
      AggregateFields(records[..|records| - 1]);
    }
  }

  lemma {:induction false} NamedIff(records: seq<SpanRecord>, name: string)
    ensures CountNamed(records, name) > 0 <==> exists r :: r in records && r.name == name
  {
    if records != [] {
      SplitLast(records);
      NamedIff(records[..|records| - 1], name);
    }
  }

  /** The group is flagged exactly when a virtual run captured none of its spans. */
  lemma {:induction false} GroupMissingIff(records: seq<SpanRecord>, isVirtual: bool)
    ensures GroupMissing(Aggregated(records), isVirtual) <==>
            isVirtual && forall r :: r in records ==> r.name != "r2rml.scan_table" && r.name != "r2rml.count_manifest"
  {
    hide Aggregated;
    forall name | name in EXPECTED_GROUP
      ensures name !in Aggregated(records).spans || Aggregated(records).spans[name].n == 0
              <==> !exists r :: r in records && r.name == name
    {
      AggregateCounts(records, name);
      NamedIff(records, name);
    }
  }

  // ------------------------------------------------------------------
  // Merging
  // ------------------------------------------------------------------

  function MergeAgg(a: SpanAgg, b: SpanAgg): SpanAgg {
    SpanAgg(a.n + b.n, a.totalUs + b.totalUs, Max(a.maxUs, b.maxUs))
  }

  function MergeCounters(a: Counters, b: Counters): Counters {
    Counters(map name | name in a.spans.Keys + b.spans.Keys :: MergeAgg(AggAt(a.spans, name), AggAt(b.spans, name)),
             a.filesSelected + b.filesSelected,
             a.filesPruned + b.filesPruned,
             a.estimatedRowCount + b.estimatedRowCount,
             a.fileSize + b.fileSize)
  }

  lemma MergedAggAt(a: Counters, b: Counters, name: string)
    ensures AggAt(MergeCounters(a, b).spans, name) == MergeAgg(AggAt(a.spans, name), AggAt(b.spans, name))
  {
    hide MergeAgg;
    var merged := MergeCounters(a, b).spans;
    if name in a.spans || name in b.spans {
      assert name in merged;
    } else {
      assert name !in merged;
      MergeZero(AggAt(a.spans, name));
    }
  }

  lemma MergeZero(z: SpanAgg)
    requires z.n == 0 && z.totalUs == 0
    ensures MergeAgg(z, z) == z
  {
  }

  lemma SpansEqual(a: map<string, SpanAgg>, b: map<string, SpanAgg>)
    requires a.Keys == b.Keys && forall name :: name in a ==> AggAt(a, name) == AggAt(b, name)
    ensures a == b
  {
  }

  lemma MergeIsCommutative(a: Counters, b: Counters)
    ensures MergeCounters(a, b) == MergeCounters(b, a)
  {
    assert MergeCounters(a, b).spans == MergeCounters(b, a).spans;
  }

  lemma MergeUnit(a: Counters)
    ensures MergeCounters(a, NO_COUNTERS) == a
  {
    assert MergeCounters(a, NO_COUNTERS).spans == a.spans;
  }

  lemma MergeAggIsAssociative(a: SpanAgg, b: SpanAgg, c: SpanAgg)
    ensures MergeAgg(MergeAgg(a, b), c) == MergeAgg(a, MergeAgg(b, c))
  {
  }

  lemma MergeIsAssociative(a: Counters, b: Counters, c: Counters)
    ensures MergeCounters(MergeCounters(a, b), c) == MergeCounters(a, MergeCounters(b, c))
  {
    var l, r := MergeCounters(MergeCounters(a, b), c), MergeCounters(a, MergeCounters(b, c));
    assert l.spans.Keys == r.spans.Keys;
    hide MergeAgg, AggAt;
    forall name ensures AggAt(l.spans, name) == AggAt(r.spans, name) {
      MergedAggAt(MergeCounters(a, b), c, name);
      MergedAggAt(a, b, name);
      MergedAggAt(a, MergeCounters(b, c), name);
      MergedAggAt(b, c, name);
      MergeAggIsAssociative(AggAt(a.spans, name), AggAt(b.spans, name), AggAt(c.spans, name));
    }
    SpansEqual(l.spans, r.spans);
  }

  /** One span on its own. */
  function Single(r: SpanRecord): Counters {
    CountSpan(NO_COUNTERS, r)
  }

  lemma CountingIsMergingOne(a: Counters, r: SpanRecord)
    ensures CountSpan(a, r) == MergeCounters(a, Single(r))
  {
    hide FieldU64;
    assert CountSpan(a, r).spans == MergeCounters(a, Single(r)).spans;
  }

  lemma CountingIsMerging(a: Counters, b: Counters, r: SpanRecord)
    ensures CountSpan(MergeCounters(a, b), r) == MergeCounters(a, CountSpan(b, r))
  {
    hide MergeCounters, CountSpan, Single;
    CountingIsMergingOne(MergeCounters(a, b), r);
    CountingIsMergingOne(b, r);
    MergeIsAssociative(a, b, Single(r));
  }

  /** Aggregating a concatenation is merging the aggregates. */
  lemma {:induction false} AggregateSplits(a: seq<SpanRecord>, b: seq<SpanRecord>)
    ensures Aggregated(a + b) == MergeCounters(Aggregated(a), Aggregated(b))
  {
    hide MergeCounters, CountSpan;
    if b == [] {
      assert a + b == a;
      MergeUnit(Aggregated(a));
    } else {
      var n := |b| - 1;
      AggregateSplits(a, b[..n]);
      assert (a + b)[..|a + b| - 1] == a + b[..n];
      CountingIsMerging(Aggregated(a), Aggregated(b[..n]), b[n]);
    }
  }

  ghost function Concat(takes: seq<seq<SpanRecord>>): seq<SpanRecord> {
    if takes == [] then [] else takes[0] + Concat(takes[1..])
  }

  ghost function MergeAll(takes: seq<seq<SpanRecord>>): Counters {
    if takes == [] then NO_COUNTERS else MergeCounters(Aggregated(takes[0]), MergeAll(takes[1..]))
  }

  lemma {:induction false} MergeAllIsAggregate(takes: seq<seq<SpanRecord>>)
    ensures MergeAll(takes) == Aggregated(Concat(takes))
  {
    if takes != [] {
      MergeAllIsAggregate(takes[1..]);
      AggregateSplits(takes[0], Concat(takes[1..]));
    }
  }

  lemma {:induction false} MergeAllTakeOut(takes: seq<seq<SpanRecord>>, k: nat)
    requires k < |takes|
    ensures MergeAll(takes) == MergeCounters(Aggregated(takes[k]), MergeAll(Without(takes, k)))
  {
    hide MergeCounters, Aggregated;
    if k == 0 {
      assert Without(takes, 0) == takes[1..];
    } else {
      var rest := Without(takes, k);
      MergeAllTakeOut(takes[1..], k - 1);
      assert rest[0] == takes[0] && rest[1..] == Without(takes[1..], k - 1);
      var a, b, c := Aggregated(takes[0]), Aggregated(takes[k]), MergeAll(rest[1..]);
      MergeIsAssociative(a, b, c);
      MergeIsAssociative(b, a, c);
      MergeIsCommutative(a, b);
    }
  }

  /** The counters of several takes merge to the same totals in any order, and equal one aggregate over everything. */
  lemma {:induction false} TakesMergeInAnyOrder(a: seq<seq<SpanRecord>>, b: seq<seq<SpanRecord>>)
    requires multiset(a) == multiset(b)
    ensures MergeAll(a) == MergeAll(b) == Aggregated(Concat(a))
  {
    MergeAllPermutes(a, b);
    MergeAllIsAggregate(a);
  }

  lemma {:induction false} MergeAllPermutes(a: seq<seq<SpanRecord>>, b: seq<seq<SpanRecord>>)
    requires multiset(a) == multiset(b)
    ensures MergeAll(a) == MergeAll(b)
  {
    hide MergeCounters, Aggregated;
    SameElements(a, b);
    if a != [] {
      var k := TakeOut(b, a[0]);
      DropFirst(a);
      MergeAllPermutes(a[1..], Without(b, k));
      MergeAllTakeOut(b, k);
    } else {
      assert a == b;
    }
  }
}

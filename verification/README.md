# Verified model of the benchmark gates

A Dafny 4.11 model of the performance-gate and oracle machinery of the Fluree benchmark
crates, with proofs of what that machinery promises over whole runs. `dafny verify
dfyconfig.toml` checks everything.

| file | models |
|---|---|
| `Noise.dfy`, `NoiseStatistics.dfy` | repeat-run samples, median, MAD and the noise floor |
| `Meta.dfy` | corpus identity, phase timings and derived shares |
| `Baseline.dfy`, `Chains.dfy`, `ChainCorpora.dfy`, `ChainContents.dfy` | baseline files, `accumulate`, and chains of accumulations and reloads |
| `Gate.dfy`, `GateRule.dfy`, `GateProperties.dfy` | `compare`, the rule it implements, and what the rule guarantees |
| `TrackingAllocator.dfy`, `AllocatorTotals.dfy` | the allocator counters as a transition system over any number of threads |
| `Json.dfy`, `IntegerLexical.dfy`, `Canon.dfy`, `CellDatatypes.dfy`, `CanonProperties.dfy` | result canonicalization up to the stream fed to SHA-256 |
| `CanonAmbiguity.dfy`, `CanonColumns.dfy`, `CanonShapes.dfy`, `CanonKinds.dfy` | which rows, tables and documents the stream tells apart, and which malformed documents are accepted |
| `Schema.dfy`, `Oracle.dfy`, `Perf.dfy`, `BlessRule.dfy`, `PerfCounters.dfy` | run records, blessing of oracles and perf references, and the comparison against them |
| `Exec.dfy` | the repetition loop and the median record |
| `Spans.dfy`, `SpanCapture.dfy` | the counter fold and the span sink under interleaving |
| `Pipeline.dfy` | guarantees that combine several of the above |
| `Prelude.dfy`, `Ordering.dfy` | shared datatypes, orders, stable sort, ascending keys |

Conventions. `f64` is `real`, so rounding is not modelled; where the gate tests finiteness
(phase timings and shares) a reading is `F64` with infinities and NaN. A `BTreeMap` is a
`map`, and a loop over it visits keys in ascending order. Error texts are dropped: a refusal
is `Refused`, or a `FatalMismatch` that keeps its kind and scenario. SHA-256,
`serde_json::to_string`, the float arms of literal canonicalization and the lookup of a
scenario's declared budget are function parameters. Files on disk are the maps they hold.

Where the code does less than its comments say, the model follows the code:

- `accumulate` says a carried entry keeps the corpus identity it had
  (fluree-bench-support/src/baseline.rs:762-763). It compares hashes only, and never stamps an
  entry the capture lists without a measurement. `Chains.CarriedIdentityIff` gives the exact
  condition, `Chains.CarriedEntryCanBeRelabelled` and `Chains.CarriedEntryCanLoseCorpus` an
  input for either branch.
- `accumulate` says it will not retro-label existing samples
  (fluree-bench-support/src/baseline.rs:768-780), and refuses to when an entry is carried. An entry
  without a corpus that is measured again over one is pooled and labelled:
  `ChainCorpora.PooledOverOneCorpusIff` gives the exact condition,
  `ChainCorpora.UndeclaredSampleIsLabelled` the failing chain.
- `budgets.rs` says a wall over both thresholds violates (fluree-bench-virtual/src/budgets.rs:9-11).
  A blessed wall of 0 ms, which every sub-millisecond query has, switches the gate off:
  `Perf.OverBudgetIff` gives the exact condition, `Perf.ZeroWallHidesSlowdown` the failing input.
- `write_perf` says a hot and a later cold run can both populate an entry
  (fluree-bench-virtual/src/baseline.rs:259-260). Their walls commute; their counters do so under
  the condition of `PerfCounters.HotAndColdCommuteIff`.
- `exec_once` says its first take isolates the capture from stray spans
  (fluree-bench-virtual/src/exec.rs:262). It does not when a span is still open or on its way to the
  sink, as after a hard timeout, nor when somebody else opens spans meanwhile:
  `SpanCapture.FirstTakeIsolatesIff` gives the exact condition for an execution that is alone,
  `SpanCapture.StrayCloseIsCharged` and `SpanCapture.NeighbourIsCharged` the failing runs.
- `canon.rs` says the cell separator cannot appear in a canonical cell
  (fluree-bench-virtual/src/canon.rs:36). Nothing enforces it, and the stream does not say how many
  columns there are: `CanonShapes.SeparatorsCanCollide` and `CanonShapes.WidthsCanCollide` give
  colliding documents. `CanonShapes.ResultIsUnambiguousIff` is the exact condition among results of
  as many columns, `CanonShapes.ResultIsUnambiguousAcrossIff` the one among results of any width,
  both for cells without row separators; `CanonAmbiguity.AnyTableIsUnambiguousIff` and
  `CanonColumns.AnyTableIsUnambiguousAcrossIff` are the ones for arbitrary cells.
- `canon.rs` says no lexical form can collide with a tagged one (fluree-bench-virtual/src/canon.rs:42-43).
  A plain literal that holds the separator does: `CanonProperties.TermIsUnambiguousIff`,
  `CanonKinds.TagsCanCollide`.
- `canon.rs` says a document of no recognized shape is an error (fluree-bench-virtual/src/canon.rs:28-30).
  A non-array `@graph`, a table without `head.vars` and a table with improper bindings are
  accepted: `CanonShapes.MalformedIsAcceptedIff` gives the exact set, `CanonShapes.HeadlessResultsCollide`,
  `CanonShapes.ImproperBindingPasses`, `CanonShapes.ImproperCellPasses` and
  `CanonShapes.NonArrayGraphReadsAsEmpty` what becomes of them.
- `with_phase_ns` promises self-consistent shares (fluree-bench-support/src/meta.rs:199-201), but
  phases that all took zero nanoseconds get shares the gate refuses: `Meta.DerivedSharesGateIff`,
  `Meta.IdlePhaseIsRefused`.

## Model

| member | source | states |
|---|---|---|
| Noise.FromSamplesForgetsOrder | fluree-bench-support/src/baseline.rs:293-304 | the statistics are a function of the multiset of samples |
| Noise.RevalidatedKeepsDerivedStats | fluree-bench-support/src/baseline.rs:319-331 | loading a file leaves statistics derived from at least five positive samples unchanged |
| Noise.MedianSplitsSamples | fluree-bench-support/src/baseline.rs:343-349 | at most half the samples lie strictly on either side of the median |
| Noise.MedianFollowsMajority | fluree-bench-support/src/baseline.rs:343-349 | the median is on the side of any bound on which more than half the samples are |
| Noise.MinorityOutliersAreHarmless | fluree-bench-support/src/baseline.rs:281-304 | replacing fewer than half the samples arbitrarily keeps the median within the untouched samples and the MAD within their range |
| Noise.MinorityOutliersBoundFloor | fluree-bench-support/src/baseline.rs:395-402 | the noise floor of such samples is at most 300 times range over minimum percent |
| NoiseStatistics.MedianIsExact | fluree-bench-support/src/baseline.rs:343-349 | by counting: the middle value of an odd number, the midpoint of the two middle order statistics of an even number, 0 of none |
| NoiseStatistics.StatsAreExact | fluree-bench-support/src/baseline.rs:293-304 | the stored count, the samples in ascending order, their median, and the median of their distances from it |
| NoiseStatistics.MadSplitsDistances | fluree-bench-support/src/baseline.rs:297-301 | at most half the samples are strictly farther from the median than the MAD and at most half strictly nearer; for an odd number it is one of the distances |
| NoiseStatistics.MadAtLeast | fluree-bench-support/src/baseline.rs:297-301 | when fewer than half the samples are nearer to the median than d, the MAD is at least d |
| NoiseStatistics.FloorOfUsable | fluree-bench-support/src/baseline.rs:395-402 | the floor is three MADs in percent of the median |
| NoiseStatistics.FewSamplesHaveNoFloor | fluree-bench-support/src/baseline.rs:395-402 | fewer than five samples widen nothing |
| NoiseStatistics.LoadedStatsComeFromSamples | fluree-bench-support/src/baseline.rs:319-340 | reloaded statistics depend on the samples alone and are usable only from five positive samples on |
| Meta.RecordPhases | fluree-bench-support/src/meta.rs:242-260 | the insert loop and the share loop compute the specification: all readings merged, every share recomputed over the combined total |
| Meta.RecordingKeepsPhases | fluree-bench-support/src/meta.rs:228-250 | earlier phases survive a call, and a name read again has its last reading |
| Meta.SharesAreProportional | fluree-bench-support/src/meta.rs:251-258 | each share is its reading's part of the sum of all, in percent |
| Meta.TotalOfAny | fluree-bench-support/src/meta.rs:251-251 | the total is undefined with an undefined reading or both infinities, infinite with one, else the sum |
| Meta.SharesOfNonFinite | fluree-bench-support/src/meta.rs:252-258 | with a reading that is not finite every share is zero, or undefined for an infinity among positive ones only |
| Meta.DerivedSharesGateIff | fluree-bench-support/src/meta.rs:251-258 | derived shares pass the gate's share check exactly when all readings are finite and non-negative and not all zero |
| Meta.IdlePhaseIsRefused | fluree-bench-support/src/meta.rs:251-258 | a single phase of zero nanoseconds gets a share of zero and is refused |
| Meta.SharesAreScaleFree | fluree-bench-support/src/meta.rs:251-258 | scaling every reading by one positive factor leaves every share as it was |
| Baseline.Accumulate | fluree-bench-support/src/baseline.rs:694-821 | the two loops with their early refusals compute the specified merge or refusal |
| Baseline.CarriedCorpora | fluree-bench-support/src/baseline.rs:749-784 | the identity loop accepts exactly when no scenario of the union conflicts, and collects exactly the needed stamps |
| Baseline.MergeEntries | fluree-bench-support/src/baseline.rs:786-819 | the merge loop yields, for every scenario of the union, the pooled, carried or new entry |
| Chains.AccumulateConserves | fluree-bench-support/src/baseline.rs:786-820 | one accumulation of a capture holds, per scenario, the samples of both sides and nothing else |
| Chains.ChainConservesSamples | fluree-bench-support/src/baseline.rs:786-820 | over any chain with reloads at any points the samples held are those of the start and of all captures together |
| Chains.ChainEqualsBatch | fluree-bench-support/src/baseline.rs:656-661 | after any chain the stored statistics equal one batch over the whole history, from two samples on, or from five when the chain reloads |
| Chains.PassOrderIsIrrelevant | fluree-bench-support/src/baseline.rs:656-665 | two chains over the same captures in any order, both of which succeed, store the same statistics from five samples on |
| ChainCorpora.ChainSucceedsIff | fluree-bench-support/src/baseline.rs:694-784 | a chain of captures with reloads succeeds exactly when each file, judged by the files before it alone, may follow them |
| ChainCorpora.EveryOrderSucceedsIff | fluree-bench-support/src/baseline.rs:694-784 | two or more captures accumulate in every order exactly when every one may directly follow every other one |
| ChainContents.AccumulatedIff | fluree-bench-support/src/baseline.rs:694-784 | one accumulation is accepted exactly under the conditions on schema, host class, revision and corpora, spelled out on the fields |
| ChainContents.LatestMeasurementIsShown | fluree-bench-support/src/baseline.rs:786-820 | after any chain the file carries the last capture's provenance, and each scenario the mean, median, memory and phases of the latest file that measured it, else of the first that lists it |
| ChainContents.LoadableIff | fluree-bench-support/src/baseline.rs:542-548 | a file can be read back exactly when it has a schema version and a scenario |
| ChainContents.LoadRederivesStats | fluree-bench-support/src/baseline.rs:319-331 | reading back keeps samples and corpus and derives the statistics anew, or leaves none usable |
| Chains.ChainHasOneProvenance | fluree-bench-support/src/baseline.rs:707-741 | all captures of a successful chain share the start's host class and, without the override, its revision, absence included |
| Chains.CapturedChainHasNoFileCorpus | fluree-bench-support/src/baseline.rs:635-645 | a chain of captures never acquires a file-level corpus |
| Chains.CorpusIsNeverLaundered | fluree-bench-support/src/baseline.rs:743-784 | once a scenario has a corpus on record, a chain of captures neither drops it nor takes a measurement over another one |
| ChainCorpora.PooledOverOneCorpusIff | fluree-bench-support/src/baseline.rs:743-784 | a scenario that ends up on record over a corpus was over it in every contributing file exactly when the first file that lists it names a corpus |
| ChainCorpora.UndeclaredSampleIsLabelled | fluree-bench-support/src/baseline.rs:754-760 | a sample without a corpus is pooled under the corpus of the next one; the reverse order is refused |
| Chains.CarriedIdentityIff | fluree-bench-support/src/baseline.rs:761-817 | a carried entry keeps its corpus identity exactly when it names its own corpus, is stamped, or the two file-level blocks agree |
| Chains.CarriedEntryCanBeRelabelled | fluree-bench-support/src/baseline.rs:764-767 | an entry measured with eight threads comes to claim sixteen when the new file-level corpus has the same hash |
| Chains.CarriedEntryCanLoseCorpus | fluree-bench-support/src/baseline.rs:753-759 | a genuine capture that lists the scenario unmeasured leaves the old entry with no corpus at all |
| Gate.ComparePhases | fluree-bench-support/src/baseline.rs:1134-1219 | appends exactly the rows of the union of phase names, in ascending order |
| Gate.CompareScenario | fluree-bench-support/src/baseline.rs:1364-1476 | one iteration appends exactly the scenario's rows, its missing mark or its refusal |
| Gate.CollectNewScenarios | fluree-bench-support/src/baseline.rs:1478-1482 | lists exactly the selected current scenarios the baseline lacks |
| Gate.Compare | fluree-bench-support/src/baseline.rs:1304-1484 | the report's lists are the specified ones, and it passes if and only if the declarative rule holds |
| Gate.ScenarioRowsBreach | fluree-bench-support/src/baseline.rs:1083-1219 | the rows of a scenario contain an enforced breach exactly when a time, memory, phase time or share bound is broken |
| Gate.PassedIffAcceptable | fluree-bench-support/src/baseline.rs:1028-1047 | no file refusal, no scenario refusal and no breach is the same as the declarative rule |
| GateRule.Verdict | fluree-bench-support/src/baseline.rs:1304-1484 | compare and its verdict: passed exactly when the rule spelled out on the fields of files and options holds |
| GateRule.AcceptableIffRule | fluree-bench-support/src/baseline.rs:1028-1047 | the declarative rule is the rule spelled out on the fields |
| GateRule.ListsIff | fluree-bench-support/src/baseline.rs:1364-1412 | which scenarios are missing, new, refused for their corpus and refused for their shares, on the fields |
| GateRule.ContainsIff | fluree-bench-support/src/baseline.rs:1362-1362 | the `--only` filter asks for a substring |
| GateRule.RowsRead | fluree-bench-support/src/baseline.rs:1083-1219 | every row of a compared scenario: its figures, change, budget, status, presence and whether it is enforced |
| GateRule.SpreadIsTolerated | fluree-bench-support/src/baseline.rs:1429-1433 | when more than half the samples are at least d from their median, a time up to 3d over it breaks no bound, whatever was declared |
| GateProperties.EveryScenarioAccountedFor | fluree-bench-support/src/baseline.rs:1364-1476 | a selected scenario is exactly one of missing, refused and compared, its rows are its own comparison rows or none, and it has a row exactly when compared with something to compare |
| GateProperties.NewIff | fluree-bench-support/src/baseline.rs:1478-1482 | the new scenarios are exactly the selected current ones the baseline lacks |
| GateProperties.SilentlyComparedIff | fluree-bench-support/src/baseline.rs:1413-1476 | a selected scenario appears nowhere in the report exactly when it is compared and has no positive time, no memory pair and no phase |
| GateProperties.ShareRowsCancel | fluree-bench-support/src/baseline.rs:1134-1219 | the movements of all share rows of a scenario add up to within two points of zero |
| GateProperties.WorkCannotHideBetweenPhases | fluree-bench-support/src/baseline.rs:1117-1133 | a share that falls by more than (k-1) times the drift plus two points forces an enforced share breach elsewhere, and the gate fails |
| GateProperties.LostPhaseBlockIsNoticed | fluree-bench-support/src/baseline.rs:1182-1215 | a phase block present on one side only fails the gate when it has fewer than 99 over drift phases |
| GateProperties.BlockCanVanishIff | fluree-bench-support/src/baseline.rs:1182-1215 | phases of given names can form a gateable block that vanishes unnoticed exactly when there are at least 99 over drift of them |
| GateProperties.AdvisoryRunsIgnoreTimings | fluree-bench-support/src/baseline.rs:1156-1160 | in an advisory run no time or memory reading reaches the verdict or a share row |
| GateProperties.ListsIgnoreTimings | fluree-bench-support/src/baseline.rs:1368-1412 | nor do they reach the refusals and the lists of missing and new scenarios |
| GateProperties.AdvisoryBreachesAreShares | fluree-bench-support/src/baseline.rs:879-883 | every breach of an advisory run is a share row |
| GateProperties.CrossHostVerdictIsSpeedFree | fluree-bench-support/src/baseline.rs:1350-1350 | across host classes, a machine slower by any factor gets the same verdict and the same share rows |
| GateProperties.OutliersCannotMaskRegression | fluree-bench-support/src/baseline.rs:1415-1446 | whatever a minority of baseline samples are, a time beyond the ceiling of the others fails the enforcing gate |
| TrackingAllocator.CountersAreExact | fluree-bench-alloc/src/lib.rs:65-117 | in every interleaving CURRENT is the counted bytes and TOTAL the bytes allocated since the reset, modulo the word size, CURRENT exactly while they fit |
| AllocatorTotals.TotalCoversCalls | fluree-bench-alloc/src/lib.rs:65-117 | in every interleaving TOTAL is the bytes asked for by allocations and reallocations since the reset, less those threads still owe it, modulo the word size |
| AllocatorTotals.IdleTotalIsAsked | fluree-bench-alloc/src/lib.rs:65-117 | between calls TOTAL is the bytes asked for |
| AllocatorTotals.IdleCurrentIsLive | fluree-bench-alloc/src/lib.rs:87-117 | between calls CURRENT is the sizes of the blocks asked for and not given back, by the calls alone |
| AllocatorTotals.UninterruptedReallocIsSequential | fluree-bench-alloc/src/lib.rs:107-117 | a lone reallocation takes the old size off CURRENT, adds the new one to CURRENT and TOTAL, and raises PEAK to the result at most |
| AllocatorTotals.UninterruptedFreeIsSequential | fluree-bench-alloc/src/lib.rs:80-98 | a lone free takes the size off CURRENT and leaves TOTAL and PEAK |
| TrackingAllocator.QuiescentBlocksAreCounted | fluree-bench-alloc/src/lib.rs:87-117 | between allocator calls every live block is counted |
| TrackingAllocator.SubNeverWraps | fluree-bench-alloc/src/lib.rs:80-82 | a subtraction never wraps while the counted bytes fit in a word |
| TrackingAllocator.PeakIsHighWaterMark | fluree-bench-alloc/src/lib.rs:65-78 | PEAK is between the live bytes at the reset and the largest CURRENT since, and equals that maximum whenever no thread is in `on_alloc` |
| TrackingAllocator.PeakNeverDecreases | fluree-bench-alloc/src/lib.rs:71-77 | between resets PEAK never goes down |
| TrackingAllocator.EarlyResetIsSafeIff | fluree-bench-alloc/src/lib.rs:35-39 | after a reset at any moment PEAK stays within what CURRENT has been since, in every continuation, exactly when no thread may still write more than CURRENT to it |
| TrackingAllocator.EarlyResetOverstatesPeak | fluree-bench-alloc/src/lib.rs:35-39 | a state that ends a run from the start and does not meet that condition |
| TrackingAllocator.Counters.OnAlloc | fluree-bench-alloc/src/lib.rs:65-78 | alone, a call adds the size to both sums and raises PEAK to the maximum, however often the exchange fails spuriously |
| TrackingAllocator.Counters.OnDealloc | fluree-bench-alloc/src/lib.rs:80-82 | takes the counters of every state to those after the subtraction step of any thread giving back a block of that size |
| TrackingAllocator.Counters.Reset | fluree-bench-alloc/src/lib.rs:139-144 | takes the counters of every quiescent state to those after the reset step, and returns CURRENT |
| TrackingAllocator.UninterruptedCallIsSequential | fluree-bench-alloc/src/lib.rs:65-78 | every run of one thread alone through `on_alloc`, with any stale loads and failed exchanges, has the effect of the sequential call |
| Json.SortKeysIsCompleteNormalForm | fluree-bench-virtual/src/canon.rs:103-117 | two documents have one normal form exactly when they differ only in object key order at any depth |
| Json.SortKeysOnlyReorders | fluree-bench-virtual/src/canon.rs:99-117 | the normal form is the document itself up to key order, array order kept |
| Json.SortKeysIsIdempotent | fluree-bench-virtual/src/canon.rs:103-117 | normalizing twice changes nothing |
| IntegerLexical.ParseUndoesPrint | fluree-bench-virtual/src/canon.rs:215-216 | every `i128` printed, trimmed and parsed is itself |
| IntegerLexical.CanonicalIntegerIsExact | fluree-bench-virtual/src/canon.rs:213-218 | two integer lexicals have one canonical form exactly when they denote one `i128`, or neither does and they are identical |
| CellDatatypes.ParsedIff | fluree-bench-virtual/src/canon.rs:213-216 | trim and parse find exactly the integer a lexical denotes: whitespace, a sign, digits by position, 128 bits |
| CellDatatypes.WhitespaceIff | fluree-bench-virtual/src/canon.rs:215-215 | trimming takes off the 25 code points of Unicode White_Space |
| CellDatatypes.LocalNameIff | fluree-bench-virtual/src/canon.rs:211-211 | the local name is what follows the last `#` or `/` |
| CellDatatypes.IntegerCellsAgreeIff | fluree-bench-virtual/src/canon.rs:207-218 | two integer cells are one cell exactly when their values denote one integer or are spelled the same |
| CellDatatypes.IntegerCellIsPlain | fluree-bench-virtual/src/canon.rs:213-216 | an integer cell shows its integer in the plain decimal spelling, and any other value verbatim |
| CellDatatypes.OtherCellText | fluree-bench-virtual/src/canon.rs:207-232 | decimals and floats go through their arm under their own name, every other datatype is verbatim |
| CellDatatypes.RespellingKeepsStream | fluree-bench-virtual/src/canon.rs:122-218 | results that differ only in how integers are spelled have one stream |
| CellDatatypes.TaggedCellsAgreeIff | fluree-bench-virtual/src/canon.rs:194-201 | tagged literals of one lexical are one cell exactly when the tags differ at most in ASCII case |
| IntegerLexical.CanonicalIntegerIsIdempotent | fluree-bench-virtual/src/canon.rs:213-218 | a canonical form is its own canonical form |
| Canon.Finish | fluree-bench-virtual/src/canon.rs:165-178 | the hashing loop feeds exactly the sorted rows, each followed by the row separator |
| Ordering.LexLeqIff | fluree-bench-virtual/src/canon.rs:166-166 | the row order: the first differing code point decides, and a prefix comes first |
| Canon.CollectRows | fluree-bench-virtual/src/canon.rs:153-160 | the nested loops push the joined canonical cells of every binding |
| Canon.CanonicalizeSparqlJson | fluree-bench-virtual/src/canon.rs:122-162 | ASK, table and malformed documents give the specified result or refusal |
| CanonProperties.ResultOrderIsIrrelevant | fluree-bench-virtual/src/canon.rs:119-162 | permuting variables, bindings and the keys inside bindings changes neither rows nor stream |
| CanonProperties.StreamIsFaithful | fluree-bench-virtual/src/canon.rs:165-178 | for separator-free cells, equal streams are the same as equal multisets of rows, across any positive numbers of columns |
| CanonProperties.ResultStreamIsFaithful | fluree-bench-virtual/src/canon.rs:122-178 | the same for the tables of result documents, which carry cells and not column names |
| CanonAmbiguity.NoColumnsCollideIff | fluree-bench-virtual/src/canon.rs:153-178 | a table without columns shares its stream with one that has some exactly when both are empty or the other is one column of as many empty cells |
| CanonShapes.SeparatorsCanCollide | fluree-bench-virtual/src/canon.rs:36-39 | two result documents with different rows have one stream |
| CanonAmbiguity.RowIsUnambiguousIff | fluree-bench-virtual/src/canon.rs:153-160 | the text of a row is that of no other row of as many columns exactly when it has at most one column or no cell contains the cell separator |
| CanonAmbiguity.TableIsUnambiguousIff | fluree-bench-virtual/src/canon.rs:153-178 | among tables of as many columns without row separators in cells, a table shares its stream with no other exactly when it has at most one column or no cell contains the cell separator |
| CanonAmbiguity.AnyTableIsUnambiguousIff | fluree-bench-virtual/src/canon.rs:153-178 | among tables of as many columns with any cells, exactly the empty ones, those without columns and certain single rows are determined by their stream |
| CanonColumns.TableIsUnambiguousAcrossIff | fluree-bench-virtual/src/canon.rs:153-178 | among tables of any width without row separators in cells, a table shares its stream with no other exactly when it is empty, or has one column, a row without a cell separator and a row that is not an empty cell |
| CanonColumns.AnyTableIsUnambiguousAcrossIff | fluree-bench-virtual/src/canon.rs:153-178 | among all tables of any width, exactly the empty one and certain single cells are determined by their stream |
| CanonShapes.EveryTableOccurs | fluree-bench-virtual/src/canon.rs:122-162 | every table of cells is the table of some result document |
| CanonShapes.VarsAreStrings | fluree-bench-virtual/src/canon.rs:129-139 | the variables are the strings of `head.vars`, all of them in their order |
| CanonShapes.ResultIsUnambiguousIff | fluree-bench-virtual/src/canon.rs:122-178 | the exact condition of `TableIsUnambiguousIff`, for result documents with as many columns |
| CanonShapes.ResultIsUnambiguousAcrossIff | fluree-bench-virtual/src/canon.rs:122-178 | the exact condition of `TableIsUnambiguousAcrossIff`, for result documents of any width |
| CanonShapes.WidthsCanCollide | fluree-bench-virtual/src/canon.rs:153-160 | a one-column and a two-column document with different rows have one stream |
| CanonShapes.ColumnNamesAreForgotten | fluree-bench-virtual/src/canon.rs:129-160 | renaming the columns in an order-preserving way does not change the canonical form |
| CanonProperties.PlainTermsRenderInjectively | fluree-bench-virtual/src/canon.rs:181-204 | cells that cannot be taken for another kind render alike exactly when they denote the same term and folded language tag |
| CanonProperties.DenotableIff | fluree-bench-virtual/src/canon.rs:181-204 | the terms cells denote are exactly those whose language tag, if any, is non-empty and in lower case |
| CanonProperties.TermIsUnambiguousIff | fluree-bench-virtual/src/canon.rs:188-201 | a term's text is that of no other term exactly when it is an untagged literal not spelled like an IRI, the blank node, the unbound marker or a tagged literal |
| CanonProperties.GraphStreamIsFaithful | fluree-bench-virtual/src/canon.rs:85-97 | two graphs whose nodes are rendered injectively and without row separators give one stream exactly when their nodes agree as a multiset up to key order |
| CanonKinds.AskCollidesWithTableIff | fluree-bench-virtual/src/canon.rs:122-162 | an ASK answer and a table have one stream exactly when the table is the answer spelled out in two cells or in one |
| CanonKinds.AskCollidesWithGraphIff | fluree-bench-virtual/src/canon.rs:66-127 | an ASK answer and a graph have one stream exactly when the graph is one node with that text |
| CanonKinds.AskAnswersDiffer | fluree-bench-virtual/src/canon.rs:124-127 | two ASK answers have one stream exactly when they agree |
| CanonKinds.GraphCollidesWithTableIff | fluree-bench-virtual/src/canon.rs:66-178 | a graph and a table without row separators have one stream exactly when the rows spell the node texts |
| CanonKinds.EveryGraphHasTwin | fluree-bench-virtual/src/canon.rs:66-178 | every graph has the stream of some one-column table |
| CanonKinds.TagsCanCollide | fluree-bench-virtual/src/canon.rs:42-45 | a plain literal and a language-tagged one in two documents have one stream |
| CanonShapes.RefusedIff | fluree-bench-virtual/src/canon.rs:66-151 | which documents are refused; a well-shaped one never is |
| CanonShapes.MalformedIsAcceptedIff | fluree-bench-virtual/src/canon.rs:28-30 | exactly which documents of no recognized shape are accepted: a non-array `@graph`, a table without a proper head, a table with an improper binding |
| CanonShapes.NonArrayGraphReadsAsEmpty | fluree-bench-virtual/src/canon.rs:85-91 | a document whose `@graph` is not an array is read as an empty result |
| CanonShapes.HeadlessTablesCollideIff | fluree-bench-virtual/src/canon.rs:129-160 | two tables without variables share a stream exactly when they have as many bindings, whatever these hold |
| CanonShapes.HeadlessResultsCollide | fluree-bench-virtual/src/canon.rs:129-160 | any two single bindings without a head are malformed documents, accepted with one stream |
| CanonShapes.BindingsReadAlike | fluree-bench-virtual/src/canon.rs:153-160 | results whose bindings read alike in the listed variables have one table and one stream, whatever else they hold |
| CanonShapes.ImproperBindingPasses | fluree-bench-virtual/src/canon.rs:153-160 | under a proper head a binding that is not an object is accepted with the stream of a well-formed result |
| CanonShapes.ImproperCellPasses | fluree-bench-virtual/src/canon.rs:185-186 | a bound value that is not an object is accepted with the stream of a well-formed empty string |
| CanonShapes.ZeroRowsIff | fluree-bench-virtual/src/canon.rs:66-97 | which documents canonicalize to zero rows, among them a non-array `@graph` |
| Oracle.BaselineDir.WriteExpected | fluree-bench-virtual/src/baseline.rs:133-237 | the two passes refuse without a write, or write exactly the classified entries and report them |
| Oracle.BaselineDir.ClassifyAll | fluree-bench-virtual/src/baseline.rs:147-209 | the first pass lists the writes, the reproduced and the skipped, and detects a conflict |
| Oracle.BaselineDir.WriteEntries | fluree-bench-virtual/src/baseline.rs:226-235 | the second pass applies the write list in order |
| Oracle.UnforcedRunsOnlyGrow | fluree-bench-virtual/src/baseline.rs:124-132 | through any sequence of unforced blesses every oracle stays as it was first blessed |
| Oracle.NewOraclesIff | fluree-bench-virtual/src/baseline.rs:152-182 | exactly the queries with a usable native record gain an oracle |
| Oracle.OracleAfterBless | fluree-bench-virtual/src/baseline.rs:181-235 | the oracle a usable record meets afterwards is the same as it or comes from a usable record of its query |
| Oracle.BlessThenGateIsGreenIff | fluree-bench-virtual/src/baseline.rs:424-444 | after a bless every usable record passes parity if and only if the usable records of each query agree |
| BlessRule.BlessRefusedIff | fluree-bench-virtual/src/baseline.rs:133-224 | a bless is refused exactly for want of a native target or, unforced, for a completed native record that contradicts an oracle |
| BlessRule.BlessedStoreIs | fluree-bench-virtual/src/baseline.rs:181-235 | each oracle is the one left by the last record that supersedes it, field by field, else unchanged |
| BlessRule.SummaryReads | fluree-bench-virtual/src/baseline.rs:147-237 | which queries the summary lists as written, overwritten, reproduced and skipped |
| BlessRule.HashAnswer | fluree-bench-virtual/src/baseline.rs:424-444 | the five answers about correctness, each with its exact condition |
| BlessRule.HashAnswerOfStore | fluree-bench-virtual/src/baseline.rs:416-444 | a record meets the oracle of its query, by rows only when the catalogue says so |
| BlessRule.PerfAnswer | fluree-bench-virtual/src/baseline.rs:446-482 | the answer about performance against the stores: when there is one, its walls and ratio, and exactly when it is a violation, by side, override and regime |
| BlessRule.PerfStoreReads | fluree-bench-virtual/src/baseline.rs:275-321 | targets that ran are stamped with the run, the others untouched |
| Perf.PerfDir.WritePerf | fluree-bench-virtual/src/baseline.rs:266-321 | grouping and merging yield the specified store, targets untouched by the run unchanged |
| Perf.PerfDir.GroupByTarget | fluree-bench-virtual/src/baseline.rs:275-278 | every target gets its records in order |
| Perf.PerfDir.MergeRecords | fluree-bench-virtual/src/baseline.rs:294-314 | the in-place entry updates compute the specified fold |
| Perf.PerfStoreIsLastWriterView | fluree-bench-virtual/src/baseline.rs:239-321 | after any sequence of blesses each wall is that of the latest record of its target, query and regime if it completed, within its deadline when one is known, else none |
| Perf.HotAndColdCommute | fluree-bench-virtual/src/baseline.rs:259-308 | the walls are the same whether a hot or a cold run is blessed first |
| PerfCounters.HotAndColdCommuteIff | fluree-bench-virtual/src/baseline.rs:303-313 | the whole entry is the same unless the last hot record of the query has no counters and some cold record has |
| PerfCounters.HotAndColdCanDisagree | fluree-bench-virtual/src/baseline.rs:310-313 | a hot record without counters and a cold one with some leave entries that depend on the order |
| Perf.OverBudgetIff | fluree-bench-virtual/src/baseline.rs:401-409 | the code follows the documented two-threshold rule exactly when the baseline is positive, or the wall is below the floor, or the budget is negative just when the wall is positive |
| Perf.ZeroWallHidesSlowdown | fluree-bench-virtual/src/baseline.rs:402-403 | until the next bless, a completed hot record of 0 ms keeps every wall of that query from violating, although the rule says it does |
| Perf.BlessThenGateIsGreen | fluree-bench-virtual/src/baseline.rs:416-482 | blessing a run and gating the same run yields no perf violation, and parity exactly for self-consistent runs |
| Exec.MeasuredReps | fluree-bench-virtual/src/exec.rs:151-172 | between one and max(reps, 1) outcomes in order, stopped exactly by a slow first repetition or a did-not-finish, which is last |
| Exec.MeasurementIsUnique | fluree-bench-virtual/src/exec.rs:158-172 | what each execution yields determines the outcome list |
| Exec.MsIsWhole | fluree-bench-virtual/src/exec.rs:488-491 | whole milliseconds of a wall in nanoseconds, saturating |
| Exec.PlaceIsRank | fluree-bench-virtual/src/exec.rs:455-457 | the chosen repetition has exactly as many before it, by wall and then by order, as its place says |
| Exec.MedianRepIsLowerMedian | fluree-bench-virtual/src/exec.rs:454-458 | truncating to milliseconds commutes with taking the lower median |
| Exec.BuildRecord | fluree-bench-virtual/src/exec.rs:444-491 | the reported wall is the lower median of all walls and every field, error and span flag included, comes from that one repetition |
| Spans.Aggregate | fluree-bench-virtual/src/spans.rs:88-108 | the fold loop computes the specified counters |
| Spans.AggregateCounts | fluree-bench-virtual/src/spans.rs:90-99 | per allowlisted name the number of spans and their total time, and no other names |
| Spans.AggregateMax | fluree-bench-virtual/src/spans.rs:100-100 | the maximum is reached by a span and exceeded by none |
| Spans.AggregateFields | fluree-bench-virtual/src/spans.rs:102-105 | the four summed fields are those of the allowlisted spans |
| Spans.FieldReads | fluree-bench-virtual/src/spans.rs:111-118 | a field counts with its value when it is an integer from 0 to the largest `i64`, and not at all otherwise |
| Spans.GroupMissingIff | fluree-bench-virtual/src/spans.rs:122-135 | a virtual run is flagged exactly when it captured no span of the expected group |
| Spans.AggregateSplits | fluree-bench-virtual/src/spans.rs:88-108 | aggregating a concatenation is merging the aggregates |
| Spans.TakesMergeInAnyOrder | fluree-bench-virtual/src/spans.rs:88-108 | per-take counters merge in any order to one aggregate over everything |
| SpanCapture.BenchSpanLayer.OnNewSpan | fluree-bench-support/src/tracing.rs:212-230 | is the open step: only an allowlisted span is registered, with its creation fields |
| SpanCapture.BenchSpanLayer.OnRecord | fluree-bench-support/src/tracing.rs:232-238 | is the record step: late values are merged into an open span and ignored otherwise |
| SpanCapture.BenchSpanLayer.OnClose | fluree-bench-support/src/tracing.rs:240-258 | is the detach step followed by the push step: a registered span moves to the sink with its saturated lifetime |
| SpanCapture.BenchSpanLayer.TakeAll | fluree-bench-support/src/tracing.rs:119-121 | returns everything captured since the last take and is the take step of the transition system |
| SpanCapture.SpansAreConserved | fluree-bench-support/src/tracing.rs:208-259 | over every interleaving each closed span is in exactly one take, in the sink, or being pushed |
| SpanCapture.OpenSpanGathersFields | fluree-bench-support/src/tracing.rs:90-93 | an open span holds its creation fields overlaid by everything recorded on it since |
| SpanCapture.RecordTellsItsSpan | fluree-bench-support/src/tracing.rs:212-258 | from opening to closing, a record has the span's name, parent, saturated lifetime, and for every field the last value given |
| SpanCapture.OnlyAllowedNames | fluree-bench-support/src/tracing.rs:212-230 | in every run the layer holds spans of allowlisted names only |
| SpanCapture.TakesBracketOneExecution | fluree-bench-virtual/src/exec.rs:262-377 | what the second take holds or still misses is what the execution opened and closed, plus what was on its way, plus the foreign spans closed since: open before, or opened by others |
| SpanCapture.FirstTakeIsolatesIff | fluree-bench-virtual/src/exec.rs:262-263 | when nobody else opens spans, the second take holds only the execution's own in every run exactly when no span was open or on its way at the first take |
| SpanCapture.CleanLayerIsolates | fluree-bench-virtual/src/exec.rs:262-377 | from such a layer the second take and what is still on its way are exactly the execution's own spans |
| SpanCapture.StrayCloseIsCharged | fluree-bench-virtual/src/exec.rs:434-438 | a span opened before the first take and closed after it is charged to the execution |
| SpanCapture.NeighbourIsCharged | fluree-bench-virtual/src/exec.rs:262-377 | a span somebody else opens and closes between the takes is charged to the execution |
| Pipeline.OutlierCapturesCannotMaskRegression | fluree-bench-support/src/baseline.rs:270-276 | through capture, accumulation, reloads and the gate: a minority of outlier captures cannot hide a regression beyond the ceiling of the others |
| Pipeline.ComparedOverOneCorpus | fluree-bench-support/src/baseline.rs:1383-1396 | a scenario compared against an accumulated baseline that has it over a corpus was measured over it by the current run, and by every contributing file exactly when the first one that lists it names a corpus |
| Pipeline.ParityPassesIffSameRows | fluree-bench-virtual/src/baseline.rs:416-444 | once the native result is blessed, another engine's completed record passes parity exactly when its result has the same rows of cells or the digests of two different streams collide |

## Left out

- `budget_for_id` and `regression-budget.json`: the declared budget of a scenario is a function parameter.
- Host probing, environment variables, directory walks, sidecar and baseline file reading and writing, and the schema-1 host fixups.
- The finiteness tests of `revalidated` and `is_usable`: samples are reals, for which they always hold; JSON cannot carry other values.
- The `decimal`, `double` and `float` arms of `canonical_literal`, SHA-256 and JSON text: function parameters.
- `iso_to_epoch_millis`, `normalize.rs`, dashboards, report tables, the command line, cold subprocesses, deadlines and pacing.
- The automatic rerun of a perf violation in the `compare` command: it re-executes the query.
- Refusal and skip texts, labels and short hashes; a skipped query is reported by id only.
- `Noise`, `Gate` and `Perf` arithmetic: rounding of `f64` is not modelled.
- `Spans.Aggregate`: sums are unbounded; the `u64` sums of the source would overflow after 2^64 microseconds or bytes.
- `TrackingAllocator.PeakIsHighWaterMark`: the equality assumes that the counted bytes always fit in 64 bits, and `reset_peak` is one step taken while no thread is inside `on_alloc`.
- `Chains`: the file-level corpus of a hand-written file is covered by `CarriedIdentityIff` for one accumulation; the chain theorems on corpora are about captures, whose file-level corpus is absent.
- Criterion benches and examples, which drive the database engine.

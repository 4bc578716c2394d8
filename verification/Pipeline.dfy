/**
 Guarantees that span several components: from accumulated captures to the gate's verdict,
 and from result documents through the blessed oracle to the parity verdict.
 */
module Pipeline {
  import opened Prelude
  import opened Noise
  import opened Meta
  import opened Baseline
  import opened Chains
  import opened ChainCorpora
  import opened Gate
  import opened GateProperties
  import opened Json
  import opened Canon
  import opened CanonProperties
  import opened CanonShapes
  import opened Schema
  import opened Oracle

  /**
   A baseline accumulated over any chain of captures, reloaded at any points, in which fewer
   than half of a scenario's samples are outliers: whatever the outliers were, a current time
   beyond the ceiling set by the other samples fails the enforcing gate.
   */
  lemma {:induction false} OutlierCapturesCannotMaskRegression(
      first: BaselineFile, passes: seq<Pass>, allowDrift: bool, current: BaselineFile, budget: string -> real,
      opts: CompareOptions, id: string, honest: seq<real>, measured: seq<real>, lo: real, hi: real)
    requires Captured(first) && AllCaptured(passes) && Chains.Run(first, passes, allowDrift).Ok?
    requires multiset(measured) == Pooled([first] + CapturesOf(passes), id)
    requires MIN_NOISE_SAMPLES <= |measured| < U32_RANGE
    requires |honest| == |measured| && 2 * Differences(honest, measured) < |honest|
    requires UntouchedWithin(honest, measured, lo, hi) && 0.0 < lo
    requires var baseline := Chains.Run(first, passes, allowDrift).value;
             && FateOf(baseline, current, opts, id) == Compared
             && !opts.forceAdvisory && baseline.host.hostClass == current.host.hostClass
             && EffectiveNs(current.entries[id]) > Ceiling(hi, MaxReal(budget(id), 300.0 * ((hi - lo) / lo)))
    ensures !Gate.Acceptable(Chains.Run(first, passes, allowDrift).value, current, budget, opts)
  {
    ChainEqualsBatch(first, passes, allowDrift, id, measured);
    hide Chains.Run, FateOf, Acceptable, FromSamples, EffectiveNs, Ceiling, UntouchedWithin, Differences;
    OutliersCannotMaskRegression(
      Chains.Run(first, passes, allowDrift).value, current, budget, opts, id, honest, measured, lo, hi);
  }

  /**
   When a scenario is compared against an accumulated baseline that has it on record over a
   corpus, the current run was measured over that corpus, and every file that ever contributed
   to it was so too if and only if the first one that lists the scenario names a corpus.
   */
  lemma {:induction false} ComparedOverOneCorpus(
      first: BaselineFile, passes: seq<Pass>, allowDrift: bool, current: BaselineFile, opts: CompareOptions,
      id: string, p: CorpusInfo)
    requires first.corpus.None? && AllCaptured(passes) && Chains.Run(first, passes, allowDrift).Ok?
    requires RecordedOver(Chains.Run(first, passes, allowDrift).value, id, p)
    requires FateOf(Chains.Run(first, passes, allowDrift).value, current, opts, id) == Compared
    ensures CorpusFor(current, id).Some? && SameIdentity(p, CorpusFor(current, id).value)
    ensures AllOver([first] + CapturesOf(passes), id, p) <==> FirstDeclares([first] + CapturesOf(passes), id)
  {
    PooledOverOneCorpusIff(first, passes, allowDrift, id, p);
    hide Chains.Run, Gateable, AllOver, FirstDeclares;
  }

  /** The hash a record carries: SHA-256 over the canonical stream, empty for a refused document. */
  ghost function HashOf(
      doc: Json, text: Json -> string, floats: (string, string) -> string, sha: string -> string): string
  {
    match Canonicalized(doc, text, floats)
    case Ok(c) => sha(c.stream)
    case Refused => ""
  }

  /** The two tables have different streams with one digest. */
  ghost predicate Collide(a: Json, b: Json, floats: (string, string) -> string, sha: string -> string) {
    var p, q := TableStream(TableOf(a, floats)), TableStream(TableOf(b, floats));
    p != q && sha(p) == sha(q)
  }

  /** A table result whose cells are free of the separators. */
  ghost predicate CleanTable(doc: Json, floats: (string, string) -> string) {
    ReadsAsTable(doc) && Framed(TableOf(doc, floats), |VarsOf(doc)|)
  }

  /** After a successful bless of agreeing records, the oracle of a fully gated query carries their hash. */
  lemma {:induction false} OracleCarriesHash(
      meta: RunMeta, corpus: Corpus, store: OracleStore, force: bool, records: seq<RunRecord>, native: RunRecord)
    requires !BlessRefused(meta, corpus, store, force, records) && SelfConsistent(meta, corpus, records)
    requires native in records && Usable(meta, corpus, native) && GateOf(corpus, native.queryId) == FullHash
    ensures var after := Blessed(meta, corpus, store, force, records);
            native.queryId in after && after[native.queryId].resultHash == native.resultHash
  {
    OracleAfterBless(meta, corpus, store, force, records, native);
    hide Blessed, BlessRefused;
    var after := Blessed(meta, corpus, store, force, records);
    if !SameOracle(GateOf(corpus, native.queryId), after[native.queryId], native) {
      var b :| b in records && Usable(meta, corpus, b) && b.queryId == native.queryId
               && after[native.queryId] == EntryOf(meta, b);
      assert GateAgrees(FullHash, native, b);
    }
  }

  /**
   The parity gate does what it is for: once the native result is blessed, another engine's
   completed record passes exactly when its result holds the same rows of cells, in whatever
   order rows, columns and keys were emitted, or when the digests of two different streams
   collide.
   */
  lemma {:induction false} ParityPassesIffSameRows(
      meta: RunMeta, corpus: Corpus, store: OracleStore, force: bool, records: seq<RunRecord>,
      native: RunRecord, nativeDoc: Json, other: RunRecord, otherDoc: Json,
      text: Json -> string, floats: (string, string) -> string, sha: string -> string)
    requires !BlessRefused(meta, corpus, store, force, records) && SelfConsistent(meta, corpus, records)
    requires native in records && Usable(meta, corpus, native)
    requires other.queryId == native.queryId && other.status == Completed && GateOf(corpus, native.queryId) == FullHash
    requires CleanTable(nativeDoc, floats) && CleanTable(otherDoc, floats)
    requires Comparable(|VarsOf(nativeDoc)|, |VarsOf(otherDoc)|)
    requires native.resultHash == HashOf(nativeDoc, text, floats, sha)
    requires other.resultHash == HashOf(otherDoc, text, floats, sha)
    ensures CheckHash(other, Lookup(Blessed(meta, corpus, store, force, records), other.queryId), FullHash) == Pass
            <==> SameRows(nativeDoc, otherDoc, floats) || Collide(nativeDoc, otherDoc, floats, sha)
  {
    OracleCarriesHash(meta, corpus, store, force, records, native);
    hide Blessed, BlessRefused, TableStream, TableOf, Framed, VarsOf;
    HashOfTable(nativeDoc, text, floats, sha);
    HashOfTable(otherDoc, text, floats, sha);
    hide HashOf;
    StreamIsFaithful(TableOf(nativeDoc, floats), TableOf(otherDoc, floats), |VarsOf(nativeDoc)|, |VarsOf(otherDoc)|);
  }

  lemma HashOfTable(doc: Json, text: Json -> string, floats: (string, string) -> string, sha: string -> string)
    requires ReadsAsTable(doc)
    ensures HashOf(doc, text, floats, sha) == sha(TableStream(TableOf(doc, floats)))
  {
    hide TableOf;
  }
}

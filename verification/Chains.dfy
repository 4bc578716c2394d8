/**
 Whole accumulation chains: a starting file, then any sequence of `capture --accumulate`
 passes with the file saved and loaded again in between. What the chain pools, and whose
 samples it may pool.
 */
module Chains {
  import opened Prelude
  import opened Ordering
  import opened Noise
  import opened Meta
  import opened Baseline

  datatype Pass = Fold(capture: BaselineFile) | Reload

  function Apply(file: BaselineFile, pass: Pass, allowDrift: bool): Result<BaselineFile> {
    match pass
    case Fold(capture) => Accumulated(file, capture, allowDrift)
    case Reload => Load(file)
  }

  function Run(file: BaselineFile, passes: seq<Pass>, allowDrift: bool): Result<BaselineFile>
    decreases passes
  {
    if passes == [] then Ok(file)
    else
      match Apply(file, passes[0], allowDrift)
      case Ok(next) => Run(next, passes[1..], allowDrift)
      case Refused => Refused
  }

  function CapturesOf(passes: seq<Pass>): seq<BaselineFile> {
    if passes == [] then []
    else (if passes[0].Fold? then [passes[0].capture] else []) + CapturesOf(passes[1..])
  }

  /** What `capture` writes: no file-level corpus and no noise statistics yet. */
  predicate Captured(file: BaselineFile) {
    && file.corpus.None?
    && forall id :: id in file.entries ==> file.entries[id].noise.None?
  }

  predicate AllCaptured(passes: seq<Pass>) {
    forall i :: 0 <= i < |passes| && passes[i].Fold? ==> Captured(passes[i].capture)
  }

  // ------------------------------------------------------------------
  // Sample conservation
  // ------------------------------------------------------------------

  /** The samples a file holds for a scenario. */
  ghost function Held(file: BaselineFile, id: string): multiset<real> {
    if id in file.entries then multiset(Prior(file.entries[id])) else multiset{}
  }

  ghost function Pooled(files: seq<BaselineFile>, id: string): multiset<real> {
    if files == [] then multiset{} else Held(files[0], id) + Pooled(files[1..], id)
  }

  lemma {:induction false} AccumulateConserves(prev: BaselineFile, capture: BaselineFile, allowDrift: bool, id: string)
    requires Captured(capture) && Accumulated(prev, capture, allowDrift).Ok?
    ensures Held(Accumulated(prev, capture, allowDrift).value, id) == Held(prev, id) + Held(capture, id)
  {
    if id in prev.entries && Remeasured(capture, id) {
      var mean := capture.entries[id].mean;
      FromSamplesKeepsSamples(Prior(prev.entries[id]) + [mean]);
    }
  }

  lemma {:induction false} LoadConserves(file: BaselineFile, id: string)
    requires Load(file).Ok?
    ensures Held(Load(file).value, id) == Held(file, id)
  {
    if id in file.entries && file.entries[id].noise.Some? {
      FromSamplesKeepsSamples(file.entries[id].noise.value.samples);
    }
  }

  /** Nothing is lost, invented or counted twice, whatever is reloaded in between. */
  lemma {:induction false} ChainConservesSamples(
      file: BaselineFile, passes: seq<Pass>, allowDrift: bool, id: string)
    requires AllCaptured(passes) && Run(file, passes, allowDrift).Ok?
    ensures Held(Run(file, passes, allowDrift).value, id) == Held(file, id) + Pooled(CapturesOf(passes), id)
    decreases passes
  {
    if passes != [] {
      var next := Apply(file, passes[0], allowDrift).value;
      ChainConservesSamples(next, passes[1..], allowDrift, id);
      match passes[0] {
        case Fold(capture) =>
          AccumulateConserves(file, capture, allowDrift, id);
          var rest := CapturesOf(passes[1..]);
          assert CapturesOf(passes) == [capture] + rest;
          assert CapturesOf(passes)[1..] == rest;
          Rotate(Held(file, id), Held(capture, id), Pooled(rest, id));
        case Reload =>
          LoadConserves(file, id);
          assert CapturesOf(passes) == CapturesOf(passes[1..]);
      }
    }
  }

  // ------------------------------------------------------------------
  // Stored statistics
  // ------------------------------------------------------------------

  /** Stored statistics over at least `k` samples are the ones derived from those samples. */
  ghost predicate Derived(e: BaselineEntry, k: nat) {
    e.noise.Some? ==>
      var stats := e.noise.value;
      AllPositive(stats.samples) && (|stats.samples| >= k ==> stats == FromSamples(stats.samples))
  }

  ghost predicate AllDerived(file: BaselineFile, k: nat) {
    forall id :: id in file.entries ==> Derived(file.entries[id], k)
  }

  lemma {:induction false} FoldedStatsAreDerived(samples: seq<real>, mean: real)
    requires AllPositive(samples) && mean > 0.0
    ensures var stats := FromSamples(samples + [mean]);
            AllPositive(stats.samples) && stats == FromSamples(stats.samples)
  {
    FromSamplesKeepsSamples(samples + [mean]);
    FromSamplesForgetsOrder(samples + [mean], FromSamples(samples + [mean]).samples);
  }

  lemma {:induction false} MergedEntryIsDerived(prev: BaselineFile, capture: BaselineFile, id: string, k: nat)
    requires Captured(capture) && (id in prev.entries || id in capture.entries)
    requires id in prev.entries ==> Derived(prev.entries[id], k)
    ensures Derived(MergedEntry(prev, capture, id), k)
  {
    if id in prev.entries && Remeasured(capture, id) {
      FoldedStatsAreDerived(Prior(prev.entries[id]), capture.entries[id].mean);
    }
  }

  lemma {:induction false} AccumulateDerives(prev: BaselineFile, capture: BaselineFile, allowDrift: bool, k: nat)
    requires Captured(capture) && AllDerived(prev, k) && Accumulated(prev, capture, allowDrift).Ok?
    ensures AllDerived(Accumulated(prev, capture, allowDrift).value, k)
  {
    var out := Accumulated(prev, capture, allowDrift).value;
    forall id | id in out.entries ensures Derived(out.entries[id], k) {
      MergedEntryIsDerived(prev, capture, id, k);
    }
  }

  lemma {:induction false} LoadDerives(file: BaselineFile)
    requires AllDerived(file, MIN_NOISE_SAMPLES) && Load(file).Ok?
    ensures AllDerived(Load(file).value, MIN_NOISE_SAMPLES)
  {
    var out := Load(file).value;
    forall id | id in out.entries ensures Derived(out.entries[id], MIN_NOISE_SAMPLES) {
      if file.entries[id].noise.Some? {
        var stats := file.entries[id].noise.value;
        if |stats.samples| >= MIN_NOISE_SAMPLES {
          FromSamplesKeepsSamples(stats.samples);
          FromSamplesForgetsOrder(stats.samples, FromSamples(stats.samples).samples);
        }
      }
    }
  }

  lemma {:induction false} ChainDerives(file: BaselineFile, passes: seq<Pass>, allowDrift: bool, k: nat)
    requires AllCaptured(passes) && AllDerived(file, k) && Run(file, passes, allowDrift).Ok?
    requires Reload in passes ==> k == MIN_NOISE_SAMPLES
    ensures AllDerived(Run(file, passes, allowDrift).value, k)
    decreases passes
  {
    if passes != [] {
      var next := Apply(file, passes[0], allowDrift).value;
      match passes[0] {
        case Fold(capture) => AccumulateDerives(file, capture, allowDrift, k);
        case Reload => LoadDerives(file);
      }
      ChainDerives(next, passes[1..], allowDrift, k);
    }
  }

  lemma {:induction false} HeldDeterminesStats(file: BaselineFile, id: string, samples: seq<real>, k: nat)
    requires AllDerived(file, k) && Held(file, id) == multiset(samples) && |samples| >= k >= 2
    ensures id in file.entries && file.entries[id].noise == Some(FromSamples(samples))
  {
    assert |multiset(samples)| == |samples|;
    SameElements(Prior(file.entries[id]), samples);
    FromSamplesForgetsOrder(samples, Prior(file.entries[id]));
  }

  /**
   After any chain of captures, the statistics stored for a scenario are those of one batch
   over its whole history. Without reloads this holds from two samples on; with reloads at
   any points, from the five samples on that a load requires.
   */
  lemma {:induction false} ChainEqualsBatch(
      first: BaselineFile, passes: seq<Pass>, allowDrift: bool, id: string, samples: seq<real>)
    requires Captured(first) && AllCaptured(passes) && Run(first, passes, allowDrift).Ok?
    requires multiset(samples) == Pooled([first] + CapturesOf(passes), id)
    requires |samples| >= if Reload in passes then MIN_NOISE_SAMPLES else 2
    ensures var out := Run(first, passes, allowDrift).value;
            id in out.entries && out.entries[id].noise == Some(FromSamples(samples))
  {
    var out := Run(first, passes, allowDrift).value;
    var k := if Reload in passes then MIN_NOISE_SAMPLES else 2;
    ChainConservesSamples(first, passes, allowDrift, id);
    assert ([first] + CapturesOf(passes))[1..] == CapturesOf(passes);
    ChainDerives(first, passes, allowDrift, k);
    HeldDeterminesStats(out, id, samples, k);
  }

  lemma Rotate(a: multiset<real>, b: multiset<real>, c: multiset<real>)
    ensures a + (b + c) == b + (a + c)
    ensures a + b + c == a + (b + c)
  {
  }

  lemma {:induction false} PooledTakeOut(files: seq<BaselineFile>, k: nat, id: string)
    requires k < |files|
    ensures Pooled(files, id) == Held(files[k], id) + Pooled(Without(files, k), id)
  {
    if k == 0 {
      assert Without(files, k) == files[1..];
    } else {
      var rest := Without(files, k);
      PooledTakeOut(files[1..], k - 1, id);
      assert rest[0] == files[0] && rest[1..] == Without(files[1..], k - 1);
      Rotate(Held(files[0], id), Held(files[k], id), Pooled(rest[1..], id));
    }
  }

  lemma {:induction false} PoolingForgetsOrder(a: seq<BaselineFile>, b: seq<BaselineFile>, id: string)
    requires multiset(a) == multiset(b)
    ensures Pooled(a, id) == Pooled(b, id)
  {
    SameElements(a, b);
    if a != [] {
      var k := TakeOut(b, a[0]);
      PooledTakeOut(b, k, id);
      DropFirst(a);
      PoolingForgetsOrder(a[1..], Without(b, k), id);
    }
  }

  /** Two chains over the same captures, in any order and with any reloads, agree on every scenario. */
  lemma {:induction false} PassOrderIsIrrelevant(
      first: BaselineFile, passes: seq<Pass>, first': BaselineFile, passes': seq<Pass>, allowDrift: bool, id: string)
    requires Captured(first) && AllCaptured(passes) && Run(first, passes, allowDrift).Ok?
    requires Captured(first') && AllCaptured(passes') && Run(first', passes', allowDrift).Ok?
    requires multiset([first] + CapturesOf(passes)) == multiset([first'] + CapturesOf(passes'))
    requires |Pooled([first] + CapturesOf(passes), id)| >= MIN_NOISE_SAMPLES
    ensures var out, out' := Run(first, passes, allowDrift).value, Run(first', passes', allowDrift).value;
            && id in out.entries && id in out'.entries
            && out.entries[id].noise.Some?
            && out.entries[id].noise == out'.entries[id].noise
  {
    PoolingForgetsOrder([first] + CapturesOf(passes), [first'] + CapturesOf(passes'), id);
    var out := Run(first, passes, allowDrift).value;
    ChainConservesSamples(first, passes, allowDrift, id);
    assert ([first] + CapturesOf(passes))[1..] == CapturesOf(passes);
    var samples := Prior(out.entries[id]);
    assert |multiset(samples)| == |samples|;
    ChainEqualsBatch(first, passes, allowDrift, id, samples);
    ChainEqualsBatch(first', passes', allowDrift, id, samples);
  }

  // ------------------------------------------------------------------
  // Provenance
  // ------------------------------------------------------------------

  /** Every capture pooled by a chain comes from one host class and, without the override, one revision. */
  lemma {:induction false} ChainHasOneProvenance(file: BaselineFile, passes: seq<Pass>, allowDrift: bool, i: nat)
    requires Run(file, passes, allowDrift).Ok?
    requires i < |passes| && passes[i].Fold?
    ensures passes[i].capture.host.hostClass == file.host.hostClass
    ensures !allowDrift ==> Revision(passes[i].capture) == Revision(file)
    decreases passes
  {
    if i > 0 {
      var next := Apply(file, passes[0], allowDrift).value;
      ChainHasOneProvenance(next, passes[1..], allowDrift, i - 1);
    }
  }

  lemma {:induction false} CapturedChainHasNoFileCorpus(file: BaselineFile, passes: seq<Pass>, allowDrift: bool)
    requires file.corpus.None? && AllCaptured(passes) && Run(file, passes, allowDrift).Ok?
    ensures Run(file, passes, allowDrift).value.corpus.None?
    decreases passes
  {
    if passes != [] {
      CapturedChainHasNoFileCorpus(Apply(file, passes[0], allowDrift).value, passes[1..], allowDrift);
    }
  }

  /** `id` is on record with a corpus identity-equal to `p`. */
  ghost predicate RecordedOver(file: BaselineFile, id: string, p: CorpusInfo) {
    && id in file.entries
    && file.entries[id].corpus.Some?
    && SameIdentity(p, file.entries[id].corpus.value)
  }

  /**
   Once a scenario has a corpus on record, no chain of captures can drop it or contribute a
   measurement over another one.
   */
  lemma {:induction false} CorpusIsNeverLaundered(
      file: BaselineFile, passes: seq<Pass>, allowDrift: bool, id: string, p: CorpusInfo)
    requires file.corpus.None? && AllCaptured(passes) && Run(file, passes, allowDrift).Ok?
    requires RecordedOver(file, id, p)
    ensures RecordedOver(Run(file, passes, allowDrift).value, id, p)
    ensures forall i :: 0 <= i < |passes| && passes[i].Fold? && id in passes[i].capture.entries ==>
                    RecordedOver(passes[i].capture, id, p)
    decreases passes
  {
    if passes != [] {
      var next := Apply(file, passes[0], allowDrift).value;
      if passes[0].Fold? {
        assert !CorpusConflict(file, passes[0].capture, id);
      }
      CorpusIsNeverLaundered(next, passes[1..], allowDrift, id, p);
      forall i | 0 <= i < |passes| && passes[i].Fold? && id in passes[i].capture.entries
        ensures RecordedOver(passes[i].capture, id, p)
      {
        if i > 0 {
          assert passes[i] == passes[1..][i - 1];
        }
      }
    }
  }

  // ------------------------------------------------------------------
  // Carried entries under a file-level corpus
  // ------------------------------------------------------------------

  ghost predicate IdentityKept(before: Option<CorpusInfo>, after: Option<CorpusInfo>) {
    match (before, after)
    case (None, None) => true
    case (Some(p), Some(q)) => SameIdentity(p, q)
    case _ => false
  }

  /**
   A carried entry keeps the corpus identity it had resolved to exactly when it names its own
   corpus, or is stamped, or the two files' own corpus blocks agree. The stamp only looks at
   the hash, and an entry listed by the capture without a measurement is never stamped.
   */
  lemma CarriedIdentityIff(prev: BaselineFile, capture: BaselineFile, allowDrift: bool, id: string)
    requires Accumulated(prev, capture, allowDrift).Ok?
    requires id in prev.entries && !Remeasured(capture, id)
    ensures var out := Accumulated(prev, capture, allowDrift).value;
            IdentityKept(CorpusFor(prev, id), CorpusFor(out, id)) <==>
            || prev.entries[id].corpus.Some?
            || NeedsStamp(prev, capture, id)
            || IdentityKept(prev.corpus, capture.corpus)
  {
    assert !CorpusConflict(prev, capture, id);
  }

  const SAMPLE_CORPUS := CorpusInfo("dblp", seq(64, _ => 'a'), 1, 0, "turtle", "nquads", 8)

  /** A baseline that names its corpus once for the whole file and holds one measurement of `id`. */
  ghost function OneEntry(corpus: CorpusInfo, id: string): BaselineFile {
    BaselineFile(2, "", None, "", HostBlock("ci", ""), Some(corpus),
                 map[id := BaselineEntry(1.0, 1.0, None, None, None, map[])])
  }

  /**
   The stamp looks at the hash only: folding in a capture over the same bytes with sixteen
   threads makes an eight-thread measurement claim sixteen.
   */
  lemma CarriedEntryCanBeRelabelled(id: string) returns (prev: BaselineFile, capture: BaselineFile)
    ensures Accumulated(prev, capture, false).Ok? && id in prev.entries && id !in capture.entries
    ensures var out := Accumulated(prev, capture, false).value;
            && id in out.entries && out.entries[id] == prev.entries[id]
            && CorpusFor(prev, id) == Some(SAMPLE_CORPUS) && SAMPLE_CORPUS.threadCount == 8
            && CorpusFor(out, id) == Some(SAMPLE_CORPUS.(threadCount := 16))
  {
    prev := OneEntry(SAMPLE_CORPUS, id);
    capture := prev.(corpus := Some(SAMPLE_CORPUS.(threadCount := 16)), entries := map[]);
    assert !CorpusConflict(prev, capture, id);
    assert forall other :: other in prev.entries ==> other == id;
  }

  /**
   A genuine capture loses the corpus altogether when it lists the scenario without a
   measurement: the old entry is carried unstamped into a file without a corpus of its own.
   */
  lemma CarriedEntryCanLoseCorpus(id: string) returns (prev: BaselineFile, capture: BaselineFile)
    ensures Captured(capture) && id in capture.entries && capture.entries[id].mean == 0.0
    ensures Accumulated(prev, capture, false).Ok? && CorpusFor(capture, id) == CorpusFor(prev, id)
    ensures id in prev.entries
    ensures var out := Accumulated(prev, capture, false).value;
            && id in out.entries && out.entries[id] == prev.entries[id]
            && CorpusFor(prev, id) == Some(SAMPLE_CORPUS) && CorpusFor(out, id) == None
  {
    prev := OneEntry(SAMPLE_CORPUS, id);
    var unmeasured := BaselineEntry(0.0, 0.0, None, None, Some(SAMPLE_CORPUS), map[]);
    capture := prev.(corpus := None, entries := map[id := unmeasured]);
    assert ValidCorpus(SAMPLE_CORPUS);
    assert !CorpusConflict(prev, capture, id);
    assert forall other :: other in prev.entries ==> other == id;
  }
}

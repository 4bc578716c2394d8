/**
 What an accumulated file says beside its statistics: whose readings each entry shows, whose
 provenance the file carries, and when one accumulation is refused, all read off the files.
 */
module ChainContents {
  import opened Prelude
  import opened Ordering
  import opened Noise
  import opened NoiseStatistics
  import opened Baseline
  import opened Chains
  import opened GateRule

  // ------------------------------------------------------------------
  // One accumulation, spelled out
  // ------------------------------------------------------------------

  /** No revision and an empty one are the same. */
  ghost predicate SameRevision(a: BaselineFile, b: BaselineFile) {
    a.gitSha == b.gitSha || (a.gitSha in {None, Some("")} && b.gitSha in {None, Some("")})
  }

  /** Nothing stands in the way of folding `capture` into `prev`. */
  ghost predicate Foldable(prev: BaselineFile, capture: BaselineFile, allowDrift: bool) {
    && prev.schemaVersion <= 2
    && prev.host.hostClass == capture.host.hostClass
    && (allowDrift || SameRevision(prev, capture))
    && (forall id :: id in prev.entries && id in capture.entries ==>
          CorporaAgree(OwnOrFile(prev, id), OwnOrFile(capture, id)))
    && (forall id :: id in prev.entries && id !in capture.entries ==>
          OwnOrFile(prev, id).Some? || capture.corpus.None?)
  }

  lemma {:induction false} AccumulatedIff(prev: BaselineFile, capture: BaselineFile, allowDrift: bool)
    ensures Accumulated(prev, capture, allowDrift).Ok? <==> Foldable(prev, capture, allowDrift)
  {
    hide CorpusRefused, CorporaAgree, MergedEntry;
    forall id | id in prev.entries
      ensures CorpusConflict(prev, capture, id) <==>
              if id in capture.entries then !CorporaAgree(OwnOrFile(prev, id), OwnOrFile(capture, id))
              else OwnOrFile(prev, id).None? && capture.corpus.Some?
    {
      CorpusRefusedIff(CorpusFor(prev, id), CorpusFor(capture, id));
    }
  }

  /** `capture` brings a measurement of `id`. */
  ghost predicate Measures(capture: BaselineFile, id: string) {
    id in capture.entries && capture.entries[id].mean > 0.0
  }

  /** The figures of an entry other than its repeat-run statistics and its corpus. */
  ghost predicate SameReadings(a: BaselineEntry, b: BaselineEntry) {
    a.mean == b.mean && a.median == b.median && a.mem == b.mem && a.phases == b.phases
  }

  /** The file carries the provenance of `origin`. */
  ghost predicate SameHeader(file: BaselineFile, origin: BaselineFile) {
    && file.schemaVersion == origin.schemaVersion && file.title == origin.title && file.gitSha == origin.gitSha
    && file.capturedAt == origin.capturedAt && file.host == origin.host && file.corpus == origin.corpus
  }

  lemma {:induction false} FoldKeeps(prev: BaselineFile, capture: BaselineFile, allowDrift: bool, id: string)
    requires Accumulated(prev, capture, allowDrift).Ok?
    ensures var out := Accumulated(prev, capture, allowDrift).value;
            && SameHeader(out, capture)
            && (id in out.entries <==> id in prev.entries || id in capture.entries)
            && (id in out.entries ==>
                  SameReadings(out.entries[id],
                               if id in prev.entries && !Measures(capture, id) then prev.entries[id]
                               else capture.entries[id]))
  {
    hide FromSamples;
  }

  lemma LoadKeeps(file: BaselineFile, id: string)
    requires Load(file).Ok?
    ensures SameHeader(Load(file).value, file)
    ensures id in Load(file).value.entries <==> id in file.entries
    ensures id in file.entries ==> SameReadings(Load(file).value.entries[id], file.entries[id])
  {
    hide Revalidated;
  }

  // ------------------------------------------------------------------
  // Whole chains
  // ------------------------------------------------------------------

  /** The latest of the files that measured the scenario, else the first that lists it. */
  ghost function ShownBy(files: seq<BaselineFile>, id: string): Option<BaselineFile> {
    if files == [] then None
    else
      var last, earlier := files[|files| - 1], ShownBy(files[..|files| - 1], id);
      if Measures(last, id) || (earlier.None? && id in last.entries) then Some(last) else earlier
  }

  ghost predicate Shows(file: BaselineFile, files: seq<BaselineFile>, id: string) {
    && (id in file.entries <==> ShownBy(files, id).Some?)
    && (id in file.entries ==>
          && id in ShownBy(files, id).value.entries
          && SameReadings(file.entries[id], ShownBy(files, id).value.entries[id]))
  }

  lemma ShownBySnoc(files: seq<BaselineFile>, f: BaselineFile, id: string)
    ensures ShownBy(files + [f], id)
            == if Measures(f, id) || (ShownBy(files, id).None? && id in f.entries) then Some(f) else ShownBy(files, id)
  {
    assert (files + [f])[..|files|] == files;
  }

  lemma {:induction false} FoldShows(
      file: BaselineFile, files: seq<BaselineFile>, capture: BaselineFile, allowDrift: bool, id: string)
    requires Accumulated(file, capture, allowDrift).Ok? && Shows(file, files, id)
    ensures var next := Accumulated(file, capture, allowDrift).value;
            Shows(next, files + [capture], id) && SameHeader(next, capture)
  {
    FoldKeeps(file, capture, allowDrift, id);
    ShownBySnoc(files, capture, id);
    hide ShownBy, Accumulated;
  }

  lemma {:induction false} LoadShows(file: BaselineFile, files: seq<BaselineFile>, id: string)
    requires Load(file).Ok? && Shows(file, files, id)
    ensures Shows(Load(file).value, files, id) && SameHeader(Load(file).value, file)
  {
    LoadKeeps(file, id);
    hide ShownBy, Load;
  }

  /** `file` is what `files` leave. */
  ghost predicate Reflects(file: BaselineFile, files: seq<BaselineFile>, id: string) {
    files != [] && Shows(file, files, id) && SameHeader(file, files[|files| - 1])
  }

  lemma {:induction false} RunReflects(
      file: BaselineFile, files: seq<BaselineFile>, passes: seq<Pass>, allowDrift: bool, id: string)
    requires Run(file, passes, allowDrift).Ok? && Reflects(file, files, id)
    ensures Reflects(Run(file, passes, allowDrift).value, files + CapturesOf(passes), id)
    decreases passes
  {
    if passes == [] {
      assert files + CapturesOf(passes) == files;
    } else {
      var rest := CapturesOf(passes[1..]);
      match passes[0] {
        case Fold(capture) =>
          assert CapturesOf(passes) == [capture] + rest;
          FoldShows(file, files, capture, allowDrift, id);
          hide Accumulated, Load, Shows, SameHeader, CapturesOf;
          RunReflects(Accumulated(file, capture, allowDrift).value, files + [capture], passes[1..], allowDrift, id);
          Associate(files, [capture], rest);
        case Reload =>
          assert CapturesOf(passes) == rest;
          LoadShows(file, files, id);
          hide Accumulated, Load, Shows, CapturesOf;
          RunReflects(Load(file).value, files, passes[1..], allowDrift, id);
      }
    }
  }

  /**
   After any successful chain, with reloads anywhere, the file carries the provenance of the last
   capture, lists exactly the scenarios some file listed, and shows for each of them the mean,
   median, memory and phases of the latest file that measured it, or of the first that lists it.
   */
  lemma {:induction false} LatestMeasurementIsShown(
      first: BaselineFile, passes: seq<Pass>, allowDrift: bool, id: string)
    requires Run(first, passes, allowDrift).Ok?
    ensures var files := [first] + CapturesOf(passes);
            var out := Run(first, passes, allowDrift).value;
            Shows(out, files, id) && SameHeader(out, files[|files| - 1])
  {
    assert [first][..0] == [];
    assert ShownBy([], id) == None;
    RunReflects(first, [first], passes, allowDrift, id);
  }

  /** A file can be read back exactly when it has a schema version and a scenario. */
  lemma LoadableIff(file: BaselineFile)
    ensures Load(file).Ok? <==> file.schemaVersion != 0 && exists id :: id in file.entries
  {
    hide Reloaded;
    if file.entries != map[] {
      assert file.entries.Keys != {};
      var id :| id in file.entries;
    }
  }

  /**
   Reading back leaves every scenario's samples and corpus alone and derives the statistics anew,
   whatever the file claims: the median of the samples and of their distances from it, or nothing
   usable when there are fewer than five samples or one that is not positive.
   */
  lemma LoadRederivesStats(file: BaselineFile, id: string)
    requires Load(file).Ok? && id in file.entries
    ensures Load(file).value.entries[id].corpus == file.entries[id].corpus
    ensures Load(file).value.entries[id].noise.Some? <==> file.entries[id].noise.Some?
    ensures file.entries[id].noise.Some? ==>
              var stored, loaded := file.entries[id].noise.value.samples, Load(file).value.entries[id].noise.value;
              && multiset(loaded.samples) == multiset(stored)
              && (if |stored| >= 5 && forall x :: x in stored ==> x > 0.0
                  then IsMedian(stored, loaded.median) && IsMedian(Distances(stored, loaded.median), loaded.mad)
                  else !Trusted(Load(file).value.entries[id]))
  {
    if file.entries[id].noise.Some? {
      var stats := file.entries[id].noise.value;
      LoadedStatsComeFromSamples(stats, stats);
      hide Revalidated, IsMedian;
    }
  }
}

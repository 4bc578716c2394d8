/**
 Which accumulation chains succeed, read off the files alone, and when a chain that does has
 pooled samples over one declared corpus only.
 */
module ChainCorpora {
  import opened Prelude
  import opened Ordering
  import opened Meta
  import opened Baseline
  import opened Chains

  // ------------------------------------------------------------------
  // What a chain's file says about its history
  // ------------------------------------------------------------------

  ghost predicate Listed(files: seq<BaselineFile>, id: string) {
    exists f :: f in files && id in f.entries
  }

  /** The corpus named by the first file that lists the scenario, or by a later one that measured it. */
  ghost function CorpusAfter(files: seq<BaselineFile>, id: string): Option<CorpusInfo> {
    if files == [] then None
    else
      var prior, f := files[..|files| - 1], files[|files| - 1];
      if id in f.entries && (Remeasured(f, id) || !Listed(prior, id)) then f.entries[id].corpus
      else CorpusAfter(prior, id)
  }

  ghost predicate SameOrigin(f: BaselineFile, g: BaselineFile) {
    f.schemaVersion == g.schemaVersion && f.host == g.host && f.gitSha == g.gitSha
  }

  /** `file` is what accumulating `files` in order leaves, as far as refusals go. */
  ghost predicate Represents(file: BaselineFile, files: seq<BaselineFile>) {
    && files != [] && file.corpus.None? && SameOrigin(file, files[|files| - 1])
    && (forall id :: id in file.entries <==> Listed(files, id))
    && (forall id :: id in file.entries ==> file.entries[id].corpus == CorpusAfter(files, id))
  }

  lemma ListedSnoc(files: seq<BaselineFile>, f: BaselineFile, id: string)
    ensures Listed(files + [f], id) <==> Listed(files, id) || id in f.entries
  {
    if Listed(files, id) {
      var g :| g in files && id in g.entries;
      assert g in files + [f];
    }
    if id in f.entries {
      assert f in files + [f];
    }
  }

  lemma CorpusAfterSnoc(files: seq<BaselineFile>, f: BaselineFile, id: string)
    ensures CorpusAfter(files + [f], id)
            == if id in f.entries && (Remeasured(f, id) || !Listed(files, id)) then f.entries[id].corpus
               else CorpusAfter(files, id)
  {
    assert (files + [f])[..|files|] == files;
  }

  lemma FirstRepresentsItself(first: BaselineFile)
    requires Captured(first)
    ensures Represents(first, [first])
  {
    hide CorpusAfter, Listed;
    forall id
      ensures id in first.entries <==> Listed([first], id)
      ensures id in first.entries ==> first.entries[id].corpus == CorpusAfter([first], id)
    {
      ListedSnoc([], first, id);
      CorpusAfterSnoc([], first, id);
      NothingListed(id);
      assert [] + [first] == [first];
    }
  }

  lemma NothingListed(id: string)
    ensures !Listed([], id)
  {
  }

  // ------------------------------------------------------------------
  // When one more capture is accepted
  // ------------------------------------------------------------------

  /** The capture may follow these files. */
  ghost predicate MayFollow(files: seq<BaselineFile>, capture: BaselineFile, allowDrift: bool)
    requires files != []
  {
    var last := files[|files| - 1];
    && last.schemaVersion <= BASELINE_SCHEMA_VERSION
    && last.host.hostClass == capture.host.hostClass
    && (allowDrift || Revision(last) == Revision(capture))
    && forall id :: id in capture.entries && Listed(files, id) ==>
         !CorpusRefused(CorpusAfter(files, id), capture.entries[id].corpus)
  }

  lemma {:induction false} AcceptedIff(
      file: BaselineFile, files: seq<BaselineFile>, capture: BaselineFile, allowDrift: bool)
    requires Represents(file, files) && Captured(capture)
    ensures Accumulated(file, capture, allowDrift).Ok? <==> MayFollow(files, capture, allowDrift)
  {
    hide Listed, CorpusAfter, CorpusRefused, MergedEntry;
    forall id | id in file.entries
      ensures CorpusConflict(file, capture, id) <==>
              id in capture.entries && CorpusRefused(CorpusAfter(files, id), capture.entries[id].corpus)
    {
      assert CorpusFor(file, id) == CorpusAfter(files, id);
      assert id in capture.entries ==> CorpusFor(capture, id) == capture.entries[id].corpus;
    }
  }

  lemma {:induction false} FoldRepresents(
      file: BaselineFile, files: seq<BaselineFile>, capture: BaselineFile, allowDrift: bool)
    requires Represents(file, files) && Captured(capture) && Accumulated(file, capture, allowDrift).Ok?
    ensures Represents(Accumulated(file, capture, allowDrift).value, files + [capture])
  {
    hide Listed, CorpusAfter, AccumulateRefused;
    var out := Accumulated(file, capture, allowDrift).value;
    forall id
      ensures id in out.entries <==> Listed(files + [capture], id)
      ensures id in out.entries ==> out.entries[id].corpus == CorpusAfter(files + [capture], id)
    {
      ListedSnoc(files, capture, id);
      CorpusAfterSnoc(files, capture, id);
    }
  }

  lemma {:induction false} ReloadRepresents(file: BaselineFile, files: seq<BaselineFile>)
    requires Represents(file, files) && Load(file).Ok?
    ensures Represents(Load(file).value, files)
  {
    hide Listed, CorpusAfter;
  }

  // ------------------------------------------------------------------
  // When a whole chain succeeds
  // ------------------------------------------------------------------

  /** A reload finds a schema version and at least one scenario. */
  ghost predicate MayReload(files: seq<BaselineFile>)
    requires files != []
  {
    files[|files| - 1].schemaVersion != 0 && exists id :: Listed(files, id)
  }

  /** Every pass is possible after the files before it. */
  ghost predicate Admissible(files: seq<BaselineFile>, passes: seq<Pass>, allowDrift: bool)
    requires files != []
    decreases passes
  {
    passes == [] ||
    match passes[0]
    case Fold(capture) =>
      MayFollow(files, capture, allowDrift) && Admissible(files + [capture], passes[1..], allowDrift)
    case Reload => MayReload(files) && Admissible(files, passes[1..], allowDrift)
  }

  lemma LoadedIff(file: BaselineFile, files: seq<BaselineFile>)
    requires Represents(file, files)
    ensures Load(file).Ok? <==> MayReload(files)
  {
    hide Listed, CorpusAfter;
    if file.entries != map[] {
      var id :| id in file.entries;
      assert Listed(files, id);
    }
  }

  lemma {:induction false} RunsIff(file: BaselineFile, files: seq<BaselineFile>, passes: seq<Pass>, allowDrift: bool)
    requires Represents(file, files) && AllCaptured(passes)
    ensures Run(file, passes, allowDrift).Ok? <==> Admissible(files, passes, allowDrift)
    decreases passes
  {
    if passes != [] {
      hide Represents, Accumulated, MayFollow, MayReload, Load, Captured;
      assert AllCaptured(passes[1..]);
      match passes[0] {
        case Fold(capture) =>
          AcceptedIff(file, files, capture, allowDrift);
          if Accumulated(file, capture, allowDrift).Ok? {
            FoldRepresents(file, files, capture, allowDrift);
            RunsIff(Accumulated(file, capture, allowDrift).value, files + [capture], passes[1..], allowDrift);
          }
        case Reload =>
          LoadedIff(file, files);
          if Load(file).Ok? {
            ReloadRepresents(file, files);
            RunsIff(Load(file).value, files, passes[1..], allowDrift);
          }
      }
    }
  }

  /**
   A chain of captures succeeds exactly when each one may follow those before it: same host
   class, same revision unless drift is allowed, a supported schema version before it, and for
   every scenario already listed no conflict with the corpus on record for it.
   */
  lemma {:induction false} ChainSucceedsIff(first: BaselineFile, passes: seq<Pass>, allowDrift: bool)
    requires Captured(first) && AllCaptured(passes)
    ensures Run(first, passes, allowDrift).Ok? <==> Admissible([first], passes, allowDrift)
  {
    FirstRepresentsItself(first);
    RunsIff(first, [first], passes, allowDrift);
  }

  // ------------------------------------------------------------------
  // When every order succeeds
  // ------------------------------------------------------------------

  function FoldOf(capture: BaselineFile): Pass {
    Fold(capture)
  }

  /** The chain that accumulates these files one after the other. */
  function ChainOf(files: seq<BaselineFile>, allowDrift: bool): Result<BaselineFile>
    requires files != []
  {
    Run(files[0], Map(FoldOf, files[1..]), allowDrift)
  }

  /** `g` may directly follow `f`. */
  ghost predicate Agrees(f: BaselineFile, g: BaselineFile, allowDrift: bool) {
    && f.schemaVersion <= BASELINE_SCHEMA_VERSION
    && f.host.hostClass == g.host.hostClass
    && (allowDrift || Revision(f) == Revision(g))
    && forall id :: id in f.entries && id in g.entries ==> !CorpusRefused(f.entries[id].corpus, g.entries[id].corpus)
  }

  /** Any file may directly follow any other one. */
  ghost predicate Compatible(files: seq<BaselineFile>, allowDrift: bool) {
    forall i, j :: 0 <= i < |files| && 0 <= j < |files| && i != j ==> Agrees(files[i], files[j], allowDrift)
  }

  ghost predicate EveryOrderSucceeds(files: seq<BaselineFile>, allowDrift: bool) {
    forall order :: order != [] && multiset(order) == multiset(files) ==> ChainOf(order, allowDrift).Ok?
  }

  lemma {:induction false} CorpusComesFromFile(files: seq<BaselineFile>, id: string) returns (k: nat)
    requires Listed(files, id)
    ensures k < |files| && id in files[k].entries && files[k].entries[id].corpus == CorpusAfter(files, id)
  {
    var n := |files| - 1;
    assert files == files[..n] + [files[n]];
    ListedSnoc(files[..n], files[n], id);
    if id in files[n].entries && (Remeasured(files[n], id) || !Listed(files[..n], id)) {
      k := n;
    } else {
      k := CorpusComesFromFile(files[..n], id);
    }
  }

  lemma {:induction false} CompatibleMayFollow(files: seq<BaselineFile>, n: nat, allowDrift: bool)
    requires Compatible(files, allowDrift) && 0 < n < |files|
    ensures MayFollow(files[..n], files[n], allowDrift)
  {
    hide Listed, CorpusAfter, CorpusRefused;
    assert Agrees(files[n - 1], files[n], allowDrift);
    forall id | id in files[n].entries && Listed(files[..n], id)
      ensures !CorpusRefused(CorpusAfter(files[..n], id), files[n].entries[id].corpus)
    {
      var k := CorpusComesFromFile(files[..n], id);
      assert Agrees(files[k], files[n], allowDrift);
    }
  }

  lemma {:induction false} CompatibleIsAdmissible(files: seq<BaselineFile>, n: nat, allowDrift: bool)
    requires Compatible(files, allowDrift) && 0 < n <= |files|
    ensures Admissible(files[..n], Map(FoldOf, files[n..]), allowDrift)
    decreases |files| - n
  {
    hide Compatible, MayFollow, Map;
    var passes := Map(FoldOf, files[n..]);
    if n < |files| {
      CompatibleMayFollow(files, n, allowDrift);
      CompatibleIsAdmissible(files, n + 1, allowDrift);
      assert passes[1..] == Map(FoldOf, files[n + 1..]);
      assert files[..n + 1] == files[..n] + [files[n]];
      assert passes[0] == Fold(files[n]);
    }
  }

  ghost predicate AreCaptures(files: seq<BaselineFile>) {
    forall f :: f in files ==> Captured(f)
  }

  lemma {:induction false} ChainOfIff(files: seq<BaselineFile>, allowDrift: bool)
    requires AreCaptures(files) && files != []
    ensures ChainOf(files, allowDrift).Ok? <==> Admissible(files[..1], Map(FoldOf, files[1..]), allowDrift)
  {
    hide Captured, Map, Admissible, Run;
    var passes := Map(FoldOf, files[1..]);
    assert files[0] in files && files[..1] == [files[0]];
    forall i | 0 <= i < |passes| && passes[i].Fold? ensures Captured(passes[i].capture) {
      assert files[i + 1] in files;
    }
    ChainSucceedsIff(files[0], passes, allowDrift);
  }

  /** Agreement of all pairs does not depend on the order of the files. */
  lemma {:induction false} CompatibleInAnyOrder(a: seq<BaselineFile>, b: seq<BaselineFile>, allowDrift: bool)
    requires multiset(a) == multiset(b) && Compatible(a, allowDrift)
    ensures Compatible(b, allowDrift)
  {
    hide Agrees;
    forall i, j | 0 <= i < |b| && 0 <= j < |b| && i != j ensures Agrees(b[i], b[j], allowDrift) {
      var k, l := TwoPlaces(a, b, i, j);
    }
  }

  /**
   Two or more captures accumulate in every order exactly when every one may directly follow
   every other one. In particular, for each scenario either all of them name one valid corpus
   or none names any.
   */
  lemma {:induction false} EveryOrderSucceedsIff(files: seq<BaselineFile>, allowDrift: bool)
    requires AreCaptures(files) && |files| >= 2
    ensures EveryOrderSucceeds(files, allowDrift) <==> Compatible(files, allowDrift)
  {
    hide Agrees, ChainOf, Captured;
    if Compatible(files, allowDrift) {
      forall order | order != [] && multiset(order) == multiset(files) ensures ChainOf(order, allowDrift).Ok? {
        hide Compatible;
        SameElements(order, files);
        CompatibleInAnyOrder(files, order, allowDrift);
        CompatibleIsAdmissible(order, 1, allowDrift);
        ChainOfIff(order, allowDrift);
      }
    }
    if EveryOrderSucceeds(files, allowDrift) {
      forall i, j | 0 <= i < |files| && 0 <= j < |files| && i != j ensures Agrees(files[i], files[j], allowDrift) {
        PairInFront(files, i, j, allowDrift);
      }
    }
  }

  lemma {:induction false} PairInFront(files: seq<BaselineFile>, i: nat, j: nat, allowDrift: bool)
    requires AreCaptures(files) && EveryOrderSucceeds(files, allowDrift)
    requires i < |files| && j < |files| && i != j
    ensures Agrees(files[i], files[j], allowDrift)
  {
    hide Agrees, ChainOf, Captured, MayFollow;
    var order := MoveToFront(files, i, j);
    SameElements(order, files);
    ChainOfIff(order, allowDrift);
    var passes := Map(FoldOf, order[1..]);
    assert passes[0] == Fold(files[j]) && order[..1] == [files[i]];
    MayFollowOne(files[i], files[j], allowDrift);
  }

  lemma MayFollowOne(f: BaselineFile, g: BaselineFile, allowDrift: bool)
    requires MayFollow([f], g, allowDrift)
    ensures Agrees(f, g, allowDrift)
  {
    hide CorpusAfter, Listed, CorpusRefused;
    forall id | id in f.entries && id in g.entries
      ensures !CorpusRefused(f.entries[id].corpus, g.entries[id].corpus)
    {
      ListedSnoc([], f, id);
      CorpusAfterSnoc([], f, id);
      NothingListed(id);
      assert [] + [f] == [f];
    }
  }

  // ------------------------------------------------------------------
  // Samples over an undeclared corpus
  // ------------------------------------------------------------------

  /** The first of the files that lists the scenario names a corpus for it. */
  ghost predicate FirstDeclares(files: seq<BaselineFile>, id: string) {
    files != [] && if id in files[0].entries then files[0].entries[id].corpus.Some? else FirstDeclares(files[1..], id)
  }

  /** Every file that lists the scenario lists it over `p`. */
  ghost predicate AllOver(files: seq<BaselineFile>, id: string, p: CorpusInfo) {
    forall f :: f in files && id in f.entries ==> RecordedOver(f, id, p)
  }

  lemma {:induction false} LaterCapturesOver(
      file: BaselineFile, passes: seq<Pass>, allowDrift: bool, id: string, p: CorpusInfo)
    requires file.corpus.None? && AllCaptured(passes) && Run(file, passes, allowDrift).Ok?
    requires RecordedOver(file, id, p)
    ensures RecordedOver(Run(file, passes, allowDrift).value, id, p) && AllOver(CapturesOf(passes), id, p)
  {
    CorpusIsNeverLaundered(file, passes, allowDrift, id, p);
    hide RecordedOver, Run;
    forall f | f in CapturesOf(passes) && id in f.entries ensures RecordedOver(f, id, p) {
      var i := CaptureIndex(passes, f);
    }
  }

  lemma {:induction false} CaptureIndex(passes: seq<Pass>, f: BaselineFile) returns (i: nat)
    requires f in CapturesOf(passes)
    ensures i < |passes| && passes[i] == Fold(f)
  {
    if passes[0].Fold? && passes[0].capture == f {
      i := 0;
    } else {
      i := CaptureIndex(passes[1..], f);
      i := i + 1;
    }
  }

  /** One pass over a scenario that is not listed yet. */
  lemma FirstPass(file: BaselineFile, passes: seq<Pass>, allowDrift: bool, id: string) returns (next: BaselineFile)
    requires file.corpus.None? && AllCaptured(passes) && passes != [] && Run(file, passes, allowDrift).Ok?
    requires id !in file.entries
    ensures next.corpus.None? && AllCaptured(passes[1..])
    ensures Run(next, passes[1..], allowDrift) == Run(file, passes, allowDrift)
    ensures passes[0].Fold? ==>
              && CapturesOf(passes) == [passes[0].capture] + CapturesOf(passes[1..])
              && (id in next.entries <==> id in passes[0].capture.entries)
              && (id in next.entries ==> next.entries[id] == passes[0].capture.entries[id])
    ensures passes[0].Reload? ==> CapturesOf(passes) == CapturesOf(passes[1..]) && id !in next.entries
  {
    next := Apply(file, passes[0], allowDrift).value;
  }

  /** What the first listing declares binds the others. */
  lemma {:induction false} FirstListingBinds(
      file: BaselineFile, passes: seq<Pass>, allowDrift: bool, id: string, p: CorpusInfo)
    requires file.corpus.None? && AllCaptured(passes) && Run(file, passes, allowDrift).Ok?
    requires id !in file.entries && RecordedOver(Run(file, passes, allowDrift).value, id, p)
    ensures FirstDeclares(CapturesOf(passes), id) <==> AllOver(CapturesOf(passes), id, p)
    decreases passes
  {
    assert passes != [];
    hide Run, CapturesOf, AllCaptured, AllOver;
    var next := FirstPass(file, passes, allowDrift, id);
    var captures := CapturesOf(passes);
    if passes[0].Fold? {
      assert captures[0] == passes[0].capture && captures[1..] == CapturesOf(passes[1..]);
      AllOverCons(captures, id, p);
    }
    if id in next.entries {
      FirstListingDecides(next, passes[1..], allowDrift, id, p);
    } else {
      hide RecordedOver;
      FirstListingBinds(next, passes[1..], allowDrift, id, p);
    }
  }

  lemma AllOverCons(files: seq<BaselineFile>, id: string, p: CorpusInfo)
    requires files != []
    ensures AllOver(files, id, p) <==>
            (id in files[0].entries ==> RecordedOver(files[0], id, p)) && AllOver(files[1..], id, p)
  {
    hide RecordedOver;
    assert files == [files[0]] + files[1..];
  }

  /** Once listed, the scenario is over `p` throughout exactly when the file at hand names a corpus for it. */
  lemma {:induction false} FirstListingDecides(
      file: BaselineFile, passes: seq<Pass>, allowDrift: bool, id: string, p: CorpusInfo)
    requires file.corpus.None? && AllCaptured(passes) && Run(file, passes, allowDrift).Ok?
    requires id in file.entries && RecordedOver(Run(file, passes, allowDrift).value, id, p)
    ensures file.entries[id].corpus.Some? <==> RecordedOver(file, id, p) && AllOver(CapturesOf(passes), id, p)
  {
    if file.entries[id].corpus.Some? {
      var q := file.entries[id].corpus.value;
      LaterCapturesOver(file, passes, allowDrift, id, q);
      hide Run, CapturesOf;
      SameThroughout(q, p, Run(file, passes, allowDrift).value, id);
      forall f | f in CapturesOf(passes) && id in f.entries ensures RecordedOver(f, id, p) {
        assert RecordedOver(f, id, q);
      }
    }
  }

  lemma SameThroughout(q: CorpusInfo, p: CorpusInfo, file: BaselineFile, id: string)
    requires RecordedOver(file, id, q) && RecordedOver(file, id, p)
    ensures SameIdentity(p, q) && SameIdentity(q, p)
  {
  }

  /**
   When the scenario ends up on record over a corpus, every file that contributed to it was over
   that corpus if and only if the first file that lists it names one.
   */
  lemma {:induction false} PooledOverOneCorpusIff(
      first: BaselineFile, passes: seq<Pass>, allowDrift: bool, id: string, p: CorpusInfo)
    requires first.corpus.None? && AllCaptured(passes) && Run(first, passes, allowDrift).Ok?
    requires RecordedOver(Run(first, passes, allowDrift).value, id, p)
    ensures AllOver([first] + CapturesOf(passes), id, p) <==> FirstDeclares([first] + CapturesOf(passes), id)
  {
    var files := [first] + CapturesOf(passes);
    assert files[1..] == CapturesOf(passes);
    if id in first.entries {
      FirstListingDecides(first, passes, allowDrift, id, p);
    } else {
      FirstListingBinds(first, passes, allowDrift, id, p);
    }
    hide RecordedOver, Run, CapturesOf;
    AllOverCons(files, id, p);
  }

  /** A capture of `id` alone. */
  ghost function OneCapture(id: string, mean: real, corpus: Option<CorpusInfo>): BaselineFile {
    BaselineFile(2, "", None, "", HostBlock("ci", ""), None,
                 map[id := BaselineEntry(mean, mean, None, None, corpus, map[])])
  }

  lemma OneCaptureIsCaptured(id: string, mean: real, corpus: Option<CorpusInfo>)
    requires mean > 0.0
    ensures Captured(OneCapture(id, mean, corpus)) && OneCapture(id, mean, corpus).entries.Keys == {id}
    ensures CorpusFor(OneCapture(id, mean, corpus), id) == corpus
    ensures Held(OneCapture(id, mean, corpus), id) == multiset{mean}
  {
  }

  lemma DeclaredMayFollow(id: string, first: BaselineFile, second: BaselineFile, p: CorpusInfo)
    requires first == OneCapture(id, 1.0, None) && second == OneCapture(id, 2.0, Some(p))
    ensures Accumulated(first, second, false).Ok? && Accumulated(second, first, false).Refused?
  {
    hide MergedEntry;
    OneCaptureIsCaptured(id, 1.0, None);
    OneCaptureIsCaptured(id, 2.0, Some(p));
    assert !CorpusConflict(first, second, id);
    assert id in second.entries && CorpusConflict(second, first, id);
  }

  /**
   The failing chain: a capture without a corpus followed by one over a declared corpus is
   accepted, and the pooled entry claims the declared corpus for both samples. In the other
   order the same two captures are refused.
   */
  lemma UndeclaredSampleIsLabelled(id: string, p: CorpusInfo)
    ensures var first, second := OneCapture(id, 1.0, None), OneCapture(id, 2.0, Some(p));
            && Captured(first) && Captured(second) && CorpusFor(first, id) == None
            && Accumulated(second, first, false).Refused? && Accumulated(first, second, false).Ok?
            && var out := Accumulated(first, second, false).value;
               RecordedOver(out, id, p) && Held(out, id) == multiset{1.0, 2.0}
  {
    var first, second := OneCapture(id, 1.0, None), OneCapture(id, 2.0, Some(p));
    OneCaptureIsCaptured(id, 1.0, None);
    OneCaptureIsCaptured(id, 2.0, Some(p));
    DeclaredMayFollow(id, first, second, p);
    AccumulateConserves(first, second, false, id);
    var out := Accumulated(first, second, false).value;
    assert RecordedOver(out, id, p) by {
      assert out.entries[id] == MergedEntry(first, second, id);
    }
    hide Accumulated, Held, Captured, RecordedOver, OneCapture;
    assert multiset{1.0} + multiset{2.0} == multiset{1.0, 2.0};
  }
}

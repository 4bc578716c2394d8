/**
 Corpus identity and phase timings of one scenario: what a scenario read, how long each
 pipeline phase took and which share of the measured phases it claims.
 */
module Meta {
  import opened Prelude
  import opened Ordering

  // ------------------------------------------------------------------
  // Corpus identity
  // ------------------------------------------------------------------

  datatype CorpusInfo = CorpusInfo(
    name: string,
    sha256: string,
    byteLen: nat,
    elementCount: nat,
    inputSyntax: string,
    outputSyntax: string,
    threadCount: nat)

  predicate IsLowerHex(c: char) {
    '0' <= c <= '9' || 'a' <= c <= 'f'
  }

  /** `CorpusInfo::validate`: the hash is 64 lowercase hex digits. */
  predicate ValidCorpus(c: CorpusInfo) {
    |c.sha256| == 64 && forall i :: 0 <= i < |c.sha256| ==> IsLowerHex(c.sha256[i])
  }

  /** `CorpusInfo::identity_mismatch` finds nothing to report. */
  predicate SameIdentity(a: CorpusInfo, b: CorpusInfo) {
    if a.inputSyntax != b.inputSyntax || a.outputSyntax != b.outputSyntax then false
    else if a.threadCount != b.threadCount then false
    else a.sha256 == b.sha256
  }

  // ------------------------------------------------------------------
  // Floating-point readings
  // ------------------------------------------------------------------

  /** An `f64` reading; finite values are reals, so rounding is not modelled. */
  datatype F64 = Finite(val: real) | PosInf | NegInf | NaN

  function Add(a: F64, b: F64): F64 {
    match (a, b)
    case (Finite(x), Finite(y)) => Finite(x + y)
    case (Finite(_), _) => b
    case (_, Finite(_)) => a
    case (PosInf, PosInf) => PosInf
    case (NegInf, NegInf) => NegInf
    case _ => NaN
  }

  predicate Positive(a: F64) {
    a.PosInf? || (a.Finite? && a.val > 0.0)
  }

  /** `ns / total * 100.0` for a positive total. */
  function PercentOf(ns: F64, total: F64): F64
    requires Positive(total)
  {
    match (ns, total)
    case (Finite(x), Finite(t)) => Finite(x / t * 100.0)
    case (Finite(_), _) => Finite(0.0)
    case (_, Finite(_)) => ns
    case _ => NaN
  }

  /** Finite and non-negative, the two tests `share_refusal` puts to a reading. */
  predicate Measured(a: F64) {
    a.Finite? && a.val >= 0.0
  }

  // ------------------------------------------------------------------
  // Phases
  // ------------------------------------------------------------------

  datatype PhaseTiming = PhaseTiming(ns: F64, share: F64)

  type Phases = map<string, PhaseTiming>

  /** The sum of `f` over a key set, taken in ascending key order. */
  function Sum(s: set<string>, f: string -> real): real
    decreases |s|
  {
    if s == {} then 0.0 else var x := Least(s); f(x) + Sum(s - {x}, f)
  }

  function TotalNs(phases: Phases, names: set<string>): F64
    requires names <= phases.Keys
    decreases |names|
  {
    if names == {} then Finite(0.0)
    else
      var x := Least(names);
      Add(phases[x].ns, TotalNs(phases, names - {x}))
  }

  function InsertAll(phases: Phases, readings: seq<(string, F64)>): Phases {
    if readings == [] then phases
    else
      var (name, ns) := readings[|readings| - 1];
      InsertAll(phases, readings[..|readings| - 1])[name := PhaseTiming(ns, Finite(0.0))]
  }

  function ShareOf(ns: F64, total: F64): F64 {
    if Positive(total) then PercentOf(ns, total) else Finite(0.0)
  }

  function WithShare(timing: PhaseTiming, total: F64): PhaseTiming {
    PhaseTiming(timing.ns, ShareOf(timing.ns, total))
  }

  /** Every share recomputed over the combined total. */
  function DeriveShares(phases: Phases): Phases {
    var total := TotalNs(phases, phases.Keys);
    map name | name in phases :: WithShare(phases[name], total)
  }

  function WithPhaseNs(phases: Phases, readings: seq<(string, F64)>): Phases {
    DeriveShares(InsertAll(phases, readings))
  }

  /** `ScenarioMeta::with_phase_ns`: insert every reading, then rewrite every share. */
  method RecordPhases(phases: Phases, readings: seq<(string, F64)>) returns (out: Phases)
    ensures out == WithPhaseNs(phases, readings)
  {
    out := phases;
    for i := 0 to |readings|
      invariant out == InsertAll(phases, readings[..i])
    {
      var (name, ns) := readings[i];
      out := out[name := PhaseTiming(ns, Finite(0.0))];
      assert readings[..i + 1][..i] == readings[..i];
    }
    assert readings[..|readings|] == readings;
    out := RewriteShares(out);
  }

  method RewriteShares(phases: Phases) returns (out: Phases)
    ensures out == DeriveShares(phases)
  {
    out := phases;
    var total := TotalNs(phases, phases.Keys);
    var rest := phases.Keys;
    while rest != {}
      invariant rest <= phases.Keys && out.Keys == phases.Keys
      invariant forall name :: name in rest ==> out[name] == phases[name]
      invariant forall name :: name in phases.Keys - rest ==> out[name] == WithShare(phases[name], total)
    {
      var name := Least(rest);
      out := out[name := WithShare(out[name], total)];
      rest := rest - {name};
    }
  }

  // ------------------------------------------------------------------
  // Which phase blocks can gate
  // ------------------------------------------------------------------

  /** A phase's share, zero when the phase is absent. */
  function ShareIn(phases: Phases, name: string): real {
    if name in phases && phases[name].share.Finite? then phases[name].share.val else 0.0
  }

  function SharesOf(phases: Phases): string -> real {
    name => ShareIn(phases, name)
  }

  const SHARE_SUM_TOLERANCE_PP := 1.0

  predicate AllMeasured(phases: Phases) {
    forall name :: name in phases ==> Measured(phases[name].share) && Measured(phases[name].ns)
  }

  function ShareSum(phases: Phases): real {
    Sum(phases.Keys, SharesOf(phases))
  }

  /** One side passes `share_refusal`. */
  predicate Gateable(phases: Phases) {
    phases == map[] || (AllMeasured(phases) && Abs(ShareSum(phases) - 100.0) <= SHARE_SUM_TOLERANCE_PP)
  }

  // ------------------------------------------------------------------
  // Sums
  // ------------------------------------------------------------------

  lemma {:induction false} SumRemove(s: set<string>, x: string, f: string -> real)
    requires x in s
    ensures Sum(s, f) == f(x) + Sum(s - {x}, f)
    decreases |s|
  {
    var y := Least(s);
    if x != y {
      SumRemove(s - {y}, x, f);
      assert s - {x} - {y} == s - {y} - {x};
      SumRemove(s - {x}, y, f);
    }
  }

  ghost function Scaled(a: real, x: real): real {
    a * x
  }

  lemma ScaleStep(a: real, first: real, rest: real, sum: real, first': real, rest': real)
    requires sum == first + rest && first' == Scaled(a, first) && rest' == Scaled(a, rest)
    ensures first' + rest' == Scaled(a, sum)
  {
  }

  lemma {:induction false} SumScale(s: set<string>, f: string -> real, h: string -> real, a: real)
    requires forall x :: x in s ==> h(x) == Scaled(a, f(x))
    ensures Sum(s, h) == Scaled(a, Sum(s, f))
    decreases |s|
  {
    if s != {} {
      hide Scaled;
      var x := Least(s);
      SumScale(s - {x}, f, h, a);
      ScaleStep(a, f(x), Sum(s - {x}, f), Sum(s, f), h(x), Sum(s - {x}, h));
    } else {
      assert Scaled(a, 0.0) == 0.0;
    }
  }

  lemma {:induction false} SumDifference(s: set<string>, f: string -> real, g: string -> real, h: string -> real)
    requires forall x :: x in s ==> h(x) == f(x) - g(x)
    ensures Sum(s, h) == Sum(s, f) - Sum(s, g)
    decreases |s|
  {
    if s != {} {
      SumDifference(s - {Least(s)}, f, g, h);
    }
  }

  /** Keys on which `f` vanishes add nothing. */
  lemma {:induction false} SumSuperset(s: set<string>, t: set<string>, f: string -> real)
    requires s <= t && forall x :: x in t - s ==> f(x) == 0.0
    ensures Sum(t, f) == Sum(s, f)
    decreases |t|
  {
    if t - s != {} {
      var x :| x in t - s;
      SumRemove(t, x, f);
      SumSuperset(s, t - {x}, f);
    } else {
      assert s == t;
    }
  }

  // ------------------------------------------------------------------
  // Derived shares
  // ------------------------------------------------------------------

  function NsIn(phases: Phases, name: string): real {
    if name in phases && phases[name].ns.Finite? then phases[name].ns.val else 0.0
  }

  function NsOf(phases: Phases): string -> real {
    name => NsIn(phases, name)
  }

  ghost function NsSum(phases: Phases): real {
    Sum(phases.Keys, NsOf(phases))
  }

  ghost predicate FiniteNs(phases: Phases) {
    forall name :: name in phases ==> phases[name].ns.Finite?
  }

  lemma {:induction false} TotalNsIsSum(phases: Phases, names: set<string>, f: string -> real)
    requires names <= phases.Keys && FiniteNs(phases)
    requires forall name :: name in names ==> f(name) == NsIn(phases, name)
    ensures TotalNs(phases, names) == Finite(Sum(names, f))
    decreases |names|
  {
    if names != {} {
      TotalNsIsSum(phases, names - {Least(names)}, f);
    }
  }

  lemma {:induction false} DerivedShareSum(phases: Phases)
    requires FiniteNs(phases)
    ensures ShareSum(DeriveShares(phases)) == if NsSum(phases) > 0.0 then 100.0 else 0.0
  {
    hide Sum;
    var total, out := NsSum(phases), DeriveShares(phases);
    TotalNsIsSum(phases, phases.Keys, NsOf(phases));
    assert out.Keys == phases.Keys;
    var factor := if total > 0.0 then 100.0 / total else 0.0;
    var ns, share := NsOf(phases), SharesOf(out);
    forall name | name in phases ensures share(name) == factor * ns(name) {
      DerivedShare(ns(name), total, factor);
    }
    SumScale(phases.Keys, ns, share, factor);
  }

  lemma DerivedShare(x: real, total: real, factor: real)
    requires factor == if total > 0.0 then 100.0 / total else 0.0
    ensures ShareOf(Finite(x), Finite(total)) == Finite(factor * x)
  {
    if total > 0.0 {
      PercentIsScale(x, total);
    }
  }

  lemma PercentIsScale(x: real, t: real)
    requires t > 0.0
    ensures x / t * 100.0 == 100.0 / t * x
  {
    var q := x / t;
    assert q * t == x;
    assert 100.0 / t * t == 100.0;
    assert (q * 100.0 - 100.0 / t * x) * t == q * 100.0 * t - 100.0 / t * t * x;
  }

  /**
   The shares derived by `with_phase_ns` pass the gate's check exactly when every reading is
   finite and non-negative and they are not all zero. In particular a scenario whose phases
   all took zero nanoseconds is refused, although its shares are derived from them.
   */
  lemma {:induction false} DerivedSharesGateIff(phases: Phases)
    requires phases != map[]
    ensures Gateable(DeriveShares(phases)) <==>
            (forall name :: name in phases ==> Measured(phases[name].ns)) && NsSum(phases) > 0.0
  {
    var out := DeriveShares(phases);
    assert out.Keys == phases.Keys;
    var some :| some in phases;
    assert some in out;
    if forall name :: name in phases ==> Measured(phases[name].ns) {
      DerivedShareSum(phases);
      TotalNsIsSum(phases, phases.Keys, NsOf(phases));
      if NsSum(phases) > 0.0 {
        forall name | name in out ensures Measured(out[name].share) {
          PercentIsScale(phases[name].ns.val, NsSum(phases));
          assert 100.0 / NsSum(phases) > 0.0;
        }
      }
    } else {
      var name :| name in phases && !Measured(phases[name].ns);
      assert out[name].ns == phases[name].ns;
    }
  }

  /** The failing input: a single phase that took no time at all gets a share of zero, and is refused. */
  lemma IdlePhaseIsRefused(name: string)
    ensures var phases := WithPhaseNs(map[], [(name, Finite(0.0))]);
            phases == map[name := PhaseTiming(Finite(0.0), Finite(0.0))] && !Gateable(phases)
  {
    var inserted: Phases := map[name := PhaseTiming(Finite(0.0), Finite(0.0))];
    assert InsertAll(map[], [(name, Finite(0.0))]) == inserted by {
      assert [(name, Finite(0.0))][..0] == [];
      assert InsertAll(map[], []) == map[];
    }
    assert inserted.Keys == {name};
    NoTimeAtAll(inserted, name);
    DerivedSharesGateIff(inserted);
    assert NsSum(inserted) == 0.0 by {
      SumRemove({name}, name, NsOf(inserted));
      assert {name} - {name} == {};
    }
  }

  lemma NoTimeAtAll(phases: Phases, name: string)
    requires phases == map[name := PhaseTiming(Finite(0.0), Finite(0.0))]
    ensures DeriveShares(phases) == phases
  {
    assert phases.Keys == {name};
    assert Least({name}) == name && {name} - {name} == {};
    assert TotalNs(phases, {}) == Finite(0.0);
    assert TotalNs(phases, {name}) == Finite(0.0);
  }

  /** Derived shares are ratios: scaling every reading by the same factor leaves them alone. */
  lemma {:induction false} SharesAreScaleFree(phases: Phases, scaled: Phases, c: real)
    requires c > 0.0 && scaled.Keys == phases.Keys && FiniteNs(phases)
    requires forall name :: name in phases ==> scaled[name].ns == Finite(c * phases[name].ns.val)
    ensures forall name :: name in phases ==> DeriveShares(scaled)[name].share == DeriveShares(phases)[name].share
  {
    hide Sum, ShareOf;
    TotalScales(phases, scaled, c);
    forall name | name in phases ensures DeriveShares(scaled)[name].share == DeriveShares(phases)[name].share {
      ShareIsScaleFree(phases[name].ns.val, NsSum(phases), c, scaled[name].ns.val, NsSum(scaled));
    }
  }

  lemma {:induction false} TotalScales(phases: Phases, scaled: Phases, c: real)
    requires scaled.Keys == phases.Keys && FiniteNs(phases)
    requires forall name :: name in phases ==> scaled[name].ns == Finite(c * phases[name].ns.val)
    ensures TotalNs(phases, phases.Keys) == Finite(NsSum(phases))
    ensures TotalNs(scaled, scaled.Keys) == Finite(NsSum(scaled)) && NsSum(scaled) == c * NsSum(phases)
  {
    hide Sum;
    TotalNsIsSum(phases, phases.Keys, NsOf(phases));
    TotalNsIsSum(scaled, scaled.Keys, NsOf(scaled));
    SumScale(phases.Keys, NsOf(phases), NsOf(scaled), c);
  }

  lemma ShareIsScaleFree(x: real, t: real, c: real, x': real, t': real)
    requires c > 0.0 && x' == c * x && t' == c * t
    ensures ShareOf(Finite(x), Finite(t)) == ShareOf(Finite(x'), Finite(t'))
  {
    if t > 0.0 {
      assert c * t > 0.0;
      RatioIsScaleFree(x, t, c);
    } else {
      assert c * t <= 0.0;
    }
  }

  lemma RatioIsScaleFree(x: real, t: real, c: real)
    requires t > 0.0 && c > 0.0 && c * t > 0.0
    ensures x / t == (c * x) / (c * t)
  {
    var q := x / t;
    assert q * t == x;
    assert q * (c * t) == c * x;
  }

  // ------------------------------------------------------------------
  // What one recording keeps, adds and derives
  // ------------------------------------------------------------------

  /** `i` is the last reading of that name. */
  ghost predicate IsLastReading(readings: seq<(string, F64)>, name: string, i: int) {
    0 <= i < |readings| && readings[i].0 == name && forall j :: i < j < |readings| ==> readings[j].0 != name
  }

  ghost predicate HasReading(readings: seq<(string, F64)>, name: string) {
    exists i :: 0 <= i < |readings| && readings[i].0 == name
  }

  lemma {:induction false} InsertedReadings(phases: Phases, readings: seq<(string, F64)>, name: string)
    ensures name in InsertAll(phases, readings) <==> name in phases || HasReading(readings, name)
    ensures !HasReading(readings, name) && name in phases ==> InsertAll(phases, readings)[name] == phases[name]
    ensures forall i :: IsLastReading(readings, name, i) ==>
              name in InsertAll(phases, readings) && InsertAll(phases, readings)[name].ns == readings[i].1
  {
    if readings != [] {
      var n := |readings| - 1;
      InsertedReadings(phases, readings[..n], name);
      assert readings[n].0 == name ==> HasReading(readings, name);
      assert HasReading(readings[..n], name) ==> HasReading(readings, name);
      forall i | IsLastReading(readings, name, i) && i < n ensures IsLastReading(readings[..n], name, i) {
      }
    }
  }

  /**
   Recording phases loses none: the phases are those of before and those read now, each with its
   last reading, or with what it had when it was not read again.
   */
  lemma {:induction false} RecordingKeepsPhases(phases: Phases, readings: seq<(string, F64)>, name: string)
    ensures var out := WithPhaseNs(phases, readings);
            && (name in out <==> name in phases || HasReading(readings, name))
            && (name in phases && !HasReading(readings, name) ==> out[name].ns == phases[name].ns)
            && (forall i :: IsLastReading(readings, name, i) ==> out[name].ns == readings[i].1)
  {
    InsertedReadings(phases, readings, name);
    hide InsertAll, ShareOf, TotalNs;
  }

  /** The shares are proportional to the readings: each is its part of the sum, in percent. */
  lemma {:induction false} SharesAreProportional(phases: Phases, readings: seq<(string, F64)>, name: string)
    requires FiniteNs(WithPhaseNs(phases, readings)) && NsSum(WithPhaseNs(phases, readings)) > 0.0
    requires name in WithPhaseNs(phases, readings)
    ensures var out := WithPhaseNs(phases, readings);
            out[name].share.Finite? && out[name].share.val * NsSum(out) == 100.0 * out[name].ns.val
  {
    var inserted, out := InsertAll(phases, readings), WithPhaseNs(phases, readings);
    hide InsertAll;
    DerivedReading(inserted, name);
    hide DeriveShares;
    ShareTimesTotal(out[name].ns.val, NsSum(inserted));
  }

  lemma {:induction false} DerivedReading(phases: Phases, name: string)
    requires name in phases && FiniteNs(DeriveShares(phases))
    ensures FiniteNs(phases) && NsSum(DeriveShares(phases)) == NsSum(phases)
    ensures DeriveShares(phases)[name] == PhaseTiming(phases[name].ns, ShareOf(phases[name].ns, Finite(NsSum(phases))))
  {
    hide Sum, TotalNs, ShareOf;
    var out := DeriveShares(phases);
    assert out.Keys == phases.Keys;
    assert FiniteNs(phases) by {
      forall x | x in phases ensures phases[x].ns.Finite? {
        assert x in out && out[x].ns == phases[x].ns;
      }
    }
    SumCongruence(out.Keys, NsOf(out), NsOf(phases));
    TotalNsIsSum(phases, phases.Keys, NsOf(phases));
  }

  lemma {:induction false} SumCongruence(s: set<string>, f: string -> real, g: string -> real)
    requires forall x :: x in s ==> f(x) == g(x)
    ensures Sum(s, f) == Sum(s, g)
    decreases |s|
  {
    if s != {} {
      SumCongruence(s - {Least(s)}, f, g);
    }
  }

  lemma ShareTimesTotal(x: real, t: real)
    requires t > 0.0
    ensures ShareOf(Finite(x), Finite(t)).Finite? && ShareOf(Finite(x), Finite(t)).val * t == 100.0 * x
  {
    var q := x / t;
    assert q * t == x;
    assert q * 100.0 * t == 100.0 * (q * t);
  }

  // ------------------------------------------------------------------
  // Readings that are not finite
  // ------------------------------------------------------------------

  ghost predicate SomeNs(phases: Phases, names: set<string>, x: F64)
    requires names <= phases.Keys
  {
    exists name :: name in names && phases[name].ns == x
  }

  /** The total is undefined with an undefined reading or with both infinities, infinite with one, else finite. */
  lemma {:induction false} TotalOfAny(phases: Phases, names: set<string>)
    requires names <= phases.Keys
    ensures var up, down := SomeNs(phases, names, PosInf), SomeNs(phases, names, NegInf);
            TotalNs(phases, names) == (if SomeNs(phases, names, NaN) || (up && down) then NaN
                                       else if up then PosInf
                                       else if down then NegInf
                                       else Finite(Sum(names, NsOf(phases))))
    decreases |names|
  {
    if names != {} {
      var x := Least(names);
      TotalOfAny(phases, names - {x});
      SomeNsSplits(phases, names, x, PosInf);
      SomeNsSplits(phases, names, x, NegInf);
      SomeNsSplits(phases, names, x, NaN);
      hide SomeNs;
    }
  }

  lemma SomeNsSplits(phases: Phases, names: set<string>, x: string, v: F64)
    requires names <= phases.Keys && x in names
    ensures SomeNs(phases, names, v) <==> phases[x].ns == v || SomeNs(phases, names - {x}, v)
  {
    if name :| name in names - {x} && phases[name].ns == v {
      assert name in names;
    }
  }

  /**
   The shares derived when some reading is not finite: zero throughout, except that beside
   positive infinities alone each of these has an undefined share.
   */
  lemma {:induction false} SharesOfNonFinite(phases: Phases, name: string)
    requires name in phases && !FiniteNs(phases)
    ensures DeriveShares(phases)[name].share ==
            if phases[name].ns == PosInf && !SomeNs(phases, phases.Keys, NegInf) && !SomeNs(phases, phases.Keys, NaN)
            then NaN else Finite(0.0)
  {
    var bad :| bad in phases && !phases[bad].ns.Finite?;
    assert SomeNs(phases, phases.Keys, phases[bad].ns) && SomeNs(phases, phases.Keys, phases[name].ns);
    TotalOfAny(phases, phases.Keys);
    hide TotalNs, SomeNs, Sum;
  }
}

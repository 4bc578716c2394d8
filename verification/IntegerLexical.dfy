/**
 The integer arm of `canonical_literal`: trim, parse as `i128`, print again, or keep the
 lexical verbatim when it does not parse.
 */
module IntegerLexical {
  import opened Prelude

  const I128_MIN: int := -0x8000_0000_0000_0000_0000_0000_0000_0000
  const I128_MAX: int := 0x7FFF_FFFF_FFFF_FFFF_FFFF_FFFF_FFFF_FFFF

  /** Unicode `White_Space`, which `str::trim` strips. */
  predicate IsWhitespace(c: char) {
    || '\U{0009}' <= c <= '\U{000D}'
    || c in {' ', '\U{0085}', '\U{00A0}', '\U{1680}', '\U{2028}', '\U{2029}', '\U{202F}', '\U{205F}', '\U{3000}'}
    || '\U{2000}' <= c <= '\U{200A}'
  }

  function TrimStart(s: string): string {
    if s != [] && IsWhitespace(s[0]) then TrimStart(s[1..]) else s
  }

  function TrimEnd(s: string): string {
    if s != [] && IsWhitespace(s[|s| - 1]) then TrimEnd(s[..|s| - 1]) else s
  }

  function Trim(s: string): string {
    TrimEnd(TrimStart(s))
  }

  predicate IsDigit(c: char) {
    '0' <= c <= '9'
  }

  predicate AllDigits(s: string) {
    forall i :: 0 <= i < |s| ==> IsDigit(s[i])
  }

  function DigitsValue(s: string): nat
    requires AllDigits(s)
  {
    if s == [] then 0
    else 10 * DigitsValue(s[..|s| - 1]) + (s[|s| - 1] as int - '0' as int)
  }

  /** `str::parse::<i128>`: an optional sign, at least one digit, and a value in range. */
  function ParseI128(s: string): Option<int> {
    var signed := s != [] && s[0] in {'+', '-'};
    var digits := if signed then s[1..] else s;
    if digits == [] || !AllDigits(digits) then None
    else
      var n: int := if signed && s[0] == '-' then 0 - DigitsValue(digits) else DigitsValue(digits);
      if I128_MIN <= n <= I128_MAX then Some(n) else None
  }

  function PrintDigit(d: nat): char
    requires d < 10
  {
    ('0' as int + d) as char
  }

  function PrintNat(n: nat): string {
    if n < 10 then [PrintDigit(n)] else PrintNat(n / 10) + [PrintDigit(n % 10)]
  }

  function Print(n: int): string {
    if n < 0 then "-" + PrintNat(-n) else PrintNat(n)
  }

  function CanonicalInteger(value: string): string {
    match ParseI128(Trim(value))
    case Some(n) => Print(n)
    case None => value
  }

  // ------------------------------------------------------------------
  // Parsing undoes printing
  // ------------------------------------------------------------------

  lemma {:induction false} PrintNatReadsBack(n: nat)
    ensures AllDigits(PrintNat(n)) && PrintNat(n) != []
    ensures DigitsValue(PrintNat(n)) == n
  {
    if n >= 10 {
      PrintNatReadsBack(n / 10);
      assert PrintNat(n)[..|PrintNat(n)| - 1] == PrintNat(n / 10);
    } else {
      assert PrintNat(n)[..0] == [];
    }
  }

  lemma PrintNeedsNoTrim(n: int)
    ensures Trim(Print(n)) == Print(n)
  {
    PrintNatReadsBack(if n < 0 then -n else n);
    var s := Print(n);
    assert !IsWhitespace(s[0]);
    assert IsDigit(s[|s| - 1]);
  }

  lemma {:induction false} ParseUndoesPrint(n: int)
    requires I128_MIN <= n <= I128_MAX
    ensures ParseI128(Trim(Print(n))) == Some(n)
  {
    PrintNeedsNoTrim(n);
    PrintNatReadsBack(if n < 0 then -n else n);
    if n < 0 {
      assert Print(n)[1..] == PrintNat(-n);
    } else {
      assert IsDigit(Print(n)[0]);
    }
  }

  lemma ParsedInRange(s: string)
    requires ParseI128(s).Some?
    ensures I128_MIN <= ParseI128(s).value <= I128_MAX
  {
  }

  /**
   Two integer lexicals have one canonical form exactly when both denote the same `i128`, or
   neither is an `i128` and they are the same string. No verbatim lexical can be mistaken for
   a printed number.
   */
  lemma {:induction false} CanonicalIntegerIsExact(a: string, b: string)
    ensures CanonicalInteger(a) == CanonicalInteger(b) <==>
            var x, y := ParseI128(Trim(a)), ParseI128(Trim(b));
            x == y && (x.None? ==> a == b)
  {
    var x, y := ParseI128(Trim(a)), ParseI128(Trim(b));
    if x.Some? {
      ParsedInRange(Trim(a));
      ParseUndoesPrint(x.value);
    }
    if y.Some? {
      ParsedInRange(Trim(b));
      ParseUndoesPrint(y.value);
    }
  }

  /** Canonicalization is idempotent. */
  lemma {:induction false} CanonicalIntegerIsIdempotent(a: string)
    ensures CanonicalInteger(CanonicalInteger(a)) == CanonicalInteger(a)
  {
    if ParseI128(Trim(a)).Some? {
      ParsedInRange(Trim(a));
      ParseUndoesPrint(ParseI128(Trim(a)).value);
    }
  }
}

/**
 What the text of a literal cell is, datatype by datatype: which spellings of an integer are the
 same cell, and which language tags are.
 */
module CellDatatypes {
  import opened Prelude
  import opened Json
  import opened IntegerLexical
  import opened Canon
  import opened CanonProperties
  import opened CanonShapes

  // ------------------------------------------------------------------
  // What an integer lexical denotes
  // ------------------------------------------------------------------

  ghost function Power10(n: nat): nat {
    if n == 0 then 1 else 10 * Power10(n - 1)
  }

  /** The positional value of the digits `s[d..j]`, most significant first. */
  ghost function Positional(s: string, d: nat, j: nat): int
    requires d <= j <= |s|
    decreases j - d
  {
    if d == j then 0 else (s[d] as int - '0' as int) * Power10(j - d - 1) + Positional(s, d + 1, j)
  }

  ghost predicate IsSign(c: char) {
    c == '+' || c == '-'
  }

  /** Whitespace, an optional sign, at least one digit, whitespace; the value fits in 128 bits. */
  ghost predicate DenotesBetween(s: string, i: nat, j: nat, n: int) {
    && i < j <= |s|
    && (forall k :: 0 <= k < i ==> IsWhitespace(s[k]))
    && (forall k :: j <= k < |s| ==> IsWhitespace(s[k]))
    && -0x8000_0000_0000_0000_0000_0000_0000_0000 <= n < 0x8000_0000_0000_0000_0000_0000_0000_0000
    && var d := if IsSign(s[i]) then i + 1 else i;
       && d < j
       && (forall k :: d <= k < j ==> '0' <= s[k] <= '9')
       && n == if s[i] == '-' then 0 - Positional(s, d, j) else Positional(s, d, j)
  }

  ghost predicate Denotes(s: string, n: int) {
    exists i, j :: DenotesBetween(s, i, j, n)
  }

  /** The 25 code points of Unicode's White_Space property. */
  lemma WhitespaceIff(c: char)
    ensures IsWhitespace(c) <==>
            (c as int) in {0x9, 0xA, 0xB, 0xC, 0xD, 0x20, 0x85, 0xA0, 0x1680, 0x2000, 0x2001, 0x2002, 0x2003, 0x2004,
                           0x2005, 0x2006, 0x2007, 0x2008, 0x2009, 0x200A, 0x2028, 0x2029, 0x202F, 0x205F, 0x3000}
  {
  }

  lemma {:induction false} TrimStartIs(s: string) returns (a: nat)
    ensures a <= |s| && TrimStart(s) == s[a..]
    ensures forall k :: 0 <= k < a ==> IsWhitespace(s[k])
    ensures a < |s| ==> !IsWhitespace(s[a])
  {
    hide IsWhitespace;
    if s != [] && IsWhitespace(s[0]) {
      a := TrimStartIs(s[1..]);
      a := a + 1;
    } else {
      a := 0;
    }
  }

  lemma {:induction false} TrimEndIs(s: string) returns (b: nat)
    ensures b <= |s| && TrimEnd(s) == s[..b]
    ensures forall k :: b <= k < |s| ==> IsWhitespace(s[k])
    ensures b > 0 ==> !IsWhitespace(s[b - 1])
  {
    hide IsWhitespace;
    if s != [] && IsWhitespace(s[|s| - 1]) {
      b := TrimEndIs(s[..|s| - 1]);
    } else {
      b := |s|;
    }
  }

  lemma {:induction false} TrimIs(s: string) returns (a: nat, b: nat)
    ensures a <= b <= |s| && Trim(s) == s[a..b]
    ensures forall k :: 0 <= k < a || b <= k < |s| ==> IsWhitespace(s[k])
    ensures a < b ==> !IsWhitespace(s[a]) && !IsWhitespace(s[b - 1])
  {
    hide IsWhitespace, TrimStart, TrimEnd;
    a := TrimStartIs(s);
    var c := TrimEndIs(s[a..]);
    b := a + c;
    forall k | b <= k < |s| ensures IsWhitespace(s[k]) {
      assert s[k] == s[a..][k - a];
    }
  }

  lemma {:induction false} PositionalSnoc(s: string, d: nat, j: nat)
    requires d < j <= |s|
    ensures Positional(s, d, j) == 10 * Positional(s, d, j - 1) + (s[j - 1] as int - '0' as int)
    decreases j - d
  {
    if d + 1 < j {
      PositionalSnoc(s, d + 1, j);
      assert Power10(j - d - 1) == 10 * Power10(j - d - 2);
      var digit := s[d] as int - '0' as int;
      assert digit * (10 * Power10(j - d - 2)) == 10 * (digit * Power10(j - d - 2));
    } else {
      assert Positional(s, j, j) == 0 && Power10(0) == 1;
    }
  }

  lemma {:induction false} DigitsValueIs(s: string, d: nat, j: nat)
    requires d <= j <= |s| && AllDigits(s[d..j])
    ensures DigitsValue(s[d..j]) == Positional(s, d, j)
    decreases j - d
  {
    if d < j {
      var digits := s[d..j];
      assert digits[..|digits| - 1] == s[d..j - 1];
      assert digits[|digits| - 1] == s[j - 1];
      DigitsValueIs(s, d, j - 1);
      PositionalSnoc(s, d, j);
    }
  }

  lemma DigitsBetween(s: string, d: nat, b: nat)
    requires d <= b <= |s|
    ensures AllDigits(s[d..b]) <==> forall k :: d <= k < b ==> '0' <= s[k] <= '9'
  {
    var digits := s[d..b];
    if AllDigits(digits) {
      forall k | d <= k < b ensures '0' <= s[k] <= '9' {
        assert s[k] == digits[k - d] && IsDigit(digits[k - d]);
      }
    }
    if forall k :: d <= k < b ==> '0' <= s[k] <= '9' {
      forall i | 0 <= i < |digits| ensures IsDigit(digits[i]) {
        assert digits[i] == s[d + i];
      }
    }
  }

  /** The parser on `s[a..b]`, in terms of positions in `s`. */
  lemma {:induction false} ParseBetween(s: string, a: nat, b: nat, n: int)
    requires a <= b <= |s|
    requires forall k :: 0 <= k < a || b <= k < |s| ==> IsWhitespace(s[k])
    ensures ParseI128(s[a..b]) == Some(n) <==> DenotesBetween(s, a, b, n)
  {
    hide IsWhitespace, DigitsValue, Positional;
    if a < b {
      var core := s[a..b];
      var d := if IsSign(s[a]) then a + 1 else a;
      assert core[0] == s[a];
      assert s[d..b] == if IsSign(s[a]) then core[1..] else core;
      DigitsBetween(s, d, b);
      if AllDigits(s[d..b]) {
        DigitsValueIs(s, d, b);
      }
    }
  }

  /** `trim` and `parse` find exactly the integer a lexical denotes. */
  lemma {:induction false} ParsedIff(s: string, n: int)
    ensures ParseI128(Trim(s)) == Some(n) <==> Denotes(s, n)
  {
    var a, b := TrimIs(s);
    ParseBetween(s, a, b, n);
    if Denotes(s, n) {
      var i, j :| DenotesBetween(s, i, j, n);
      SameBounds(s, a, b, i, j, n);
    }
  }

  lemma SameBounds(s: string, a: nat, b: nat, i: nat, j: nat, n: int)
    requires a <= b <= |s| && DenotesBetween(s, i, j, n)
    requires forall k :: 0 <= k < a || b <= k < |s| ==> IsWhitespace(s[k])
    requires a < b ==> !IsWhitespace(s[a]) && !IsWhitespace(s[b - 1])
    ensures a == i && b == j
  {
    hide Positional;
    assert !IsWhitespace(s[i]) && !IsWhitespace(s[j - 1]);
  }

  lemma DenotesOne(s: string, n: int, m: int)
    requires Denotes(s, n) && Denotes(s, m)
    ensures n == m
  {
    ParsedIff(s, n);
    ParsedIff(s, m);
  }

  // ------------------------------------------------------------------
  // What a datatype IRI names
  // ------------------------------------------------------------------

  ghost predicate IsBreak(c: char) {
    c == '#' || c == '/'
  }

  /** The IRI is the name, or ends in a `#` or `/` followed by it; the name itself holds neither. */
  ghost predicate Names(dt: string, name: string) {
    && (forall k :: 0 <= k < |name| ==> !IsBreak(name[k]))
    && |name| <= |dt| && dt[|dt| - |name|..] == name
    && (|name| < |dt| ==> IsBreak(dt[|dt| - |name| - 1]))
  }

  lemma {:induction false} LocalNameIff(dt: string, name: string)
    ensures LocalName(dt) == name <==> Names(dt, name)
  {
    if dt == [] {
    } else if IsBreak(dt[|dt| - 1]) {
      EndsInBreak(dt, name);
    } else {
      var n := |dt| - 1;
      var init := dt[..n];
      if name != [] {
        var short := name[..|name| - 1];
        LocalNameIff(init, short);
        NamesSnoc(dt, name);
        assert name == short + [name[|name| - 1]];
      }
    }
  }

  lemma EndsInBreak(dt: string, name: string)
    requires dt != [] && IsBreak(dt[|dt| - 1])
    ensures Names(dt, name) <==> name == []
  {
    assert dt[|dt|..] == [];
  }

  lemma NamesSnoc(dt: string, name: string)
    requires dt != [] && name != [] && !IsBreak(dt[|dt| - 1])
    ensures Names(dt, name) <==>
            Names(dt[..|dt| - 1], name[..|name| - 1]) && name[|name| - 1] == dt[|dt| - 1]
  {
    var n, m := |dt| - 1, |name| - 1;
    var init, short := dt[..n], name[..m];
    if Names(dt, name) {
      assert name[m] == dt[|dt| - |name|..][m] == dt[n];
      assert init[n - m..] == dt[|dt| - |name|..][..m];
    }
    if Names(init, short) && name[m] == dt[n] {
      assert dt[|dt| - |name|..] == init[n - m..] + [dt[n]];
      assert name == short + [name[m]];
    }
  }

  ghost predicate IsIntegerName(name: string) {
    name in {
      "integer", "int", "long", "short", "byte", "unsignedInt", "unsignedLong", "unsignedShort", "unsignedByte",
      "positiveInteger", "negativeInteger", "nonPositiveInteger", "nonNegativeInteger"}
  }

  ghost predicate IsFloatName(name: string) {
    name == "decimal" || name == "double" || name == "float"
  }

  ghost predicate IsIntegerIri(dt: string) {
    exists name :: IsIntegerName(name) && Names(dt, name)
  }

  ghost predicate IsFloatIri(dt: string, name: string) {
    IsFloatName(name) && Names(dt, name)
  }

  lemma IntegerNameIff(name: string)
    ensures IsIntegerType(name) <==> IsIntegerName(name)
    ensures !(IsIntegerName(name) && IsFloatName(name))
  {
  }

  /** The arms of `canonical_literal` for a literal with a datatype, by local name. */
  lemma LiteralArm(value: string, dt: string, floats: (string, string) -> string)
    ensures var local, text := LocalName(dt), CanonicalLiteral(value, Some(dt), floats);
            && (IsIntegerName(local) ==> text == CanonicalInteger(value))
            && (IsFloatName(local) ==> text == floats(local, value))
            && (!IsIntegerName(local) && !IsFloatName(local) ==> text == value)
  {
    var local := LocalName(dt);
    IntegerNameIff(local);
    assert IsFloatName(local) <==> local in {"decimal", "double", "float"};
    hide LocalName, CanonicalInteger, IsIntegerType, IsIntegerName, IsFloatName;
  }

  lemma {:induction false} LiteralTextIs(value: string, dt: string, floats: (string, string) -> string)
    ensures IsIntegerIri(dt) ==> CanonicalLiteral(value, Some(dt), floats) == CanonicalInteger(value)
    ensures forall name :: IsFloatIri(dt, name) ==> CanonicalLiteral(value, Some(dt), floats) == floats(name, value)
    ensures !IsIntegerIri(dt) && (forall name :: !IsFloatIri(dt, name)) ==>
              CanonicalLiteral(value, Some(dt), floats) == value
  {
    hide Names, LocalName, CanonicalInteger, CanonicalLiteral, IsIntegerName, IsFloatName;
    var local := LocalName(dt);
    LocalNameIff(dt, local);
    LiteralArm(value, dt, floats);
    forall name | Names(dt, name) ensures name == local {
      LocalNameIff(dt, name);
    }
    assert IsFloatIri(dt, local) <==> IsFloatName(local);
  }

  // ------------------------------------------------------------------
  // Literal cells
  // ------------------------------------------------------------------

  /** A cell that is neither an IRI nor a blank node and carries no language tag. */
  ghost predicate IsUntagged(cell: Json, value: string, datatypeIri: Option<string>) {
    && AsString(Get(cell, "type")) !in {Some("uri"), Some("bnode")}
    && AsString(Get(cell, "value")) == Some(value)
    && AsString(Get(cell, "datatype")) == datatypeIri
    && AsString(Get(cell, "xml:lang")) in {None, Some("")}
  }

  lemma UntaggedText(cell: Json, value: string, datatypeIri: Option<string>, floats: (string, string) -> string)
    requires IsUntagged(cell, value, datatypeIri)
    ensures CanonicalCell(Some(cell), floats) == CanonicalLiteral(value, datatypeIri, floats)
  {
    hide Get, CanonicalLiteral;
  }

  ghost predicate IsIntegerCell(cell: Json, value: string) {
    exists dt :: IsIntegerIri(dt) && IsUntagged(cell, value, Some(dt))
  }

  lemma IntegerCellText(cell: Json, value: string, floats: (string, string) -> string)
    requires IsIntegerCell(cell, value)
    ensures CanonicalCell(Some(cell), floats) == CanonicalInteger(value)
  {
    var dt :| IsIntegerIri(dt) && IsUntagged(cell, value, Some(dt));
    hide IsUntagged, CanonicalLiteral, CanonicalInteger, CanonicalCell, IsIntegerIri;
    UntaggedText(cell, value, Some(dt), floats);
    LiteralTextIs(value, dt, floats);
  }

  /**
   Two integer cells, of whatever integer datatypes, are the same cell exactly when their values
   denote one integer or are spelled the same.
   */
  lemma {:induction false} IntegerCellsAgreeIff(
      a: Json, v: string, b: Json, w: string, floats: (string, string) -> string)
    requires IsIntegerCell(a, v) && IsIntegerCell(b, w)
    ensures CanonicalCell(Some(a), floats) == CanonicalCell(Some(b), floats) <==>
            v == w || exists n :: Denotes(v, n) && Denotes(w, n)
  {
    IntegerCellText(a, v, floats);
    IntegerCellText(b, w, floats);
    CanonicalIntegerIsExact(v, w);
    var x, y := ParseI128(Trim(v)), ParseI128(Trim(w));
    hide IsIntegerCell, CanonicalInteger, CanonicalCell, ParseI128, Trim, Denotes;
    if x.Some? && x == y {
      ParsedIff(v, x.value);
      ParsedIff(w, x.value);
    }
    if n :| Denotes(v, n) && Denotes(w, n) {
      ParsedIff(v, n);
      ParsedIff(w, n);
    }
  }

  /** The shortest decimal spelling: digits, a leading minus for a negative number, no other leading zero. */
  ghost predicate IsPlainDecimal(s: string, n: int) {
    && Denotes(s, n)
    && (forall k :: 0 <= k < |s| ==> '0' <= s[k] <= '9' || (k == 0 && s[k] == '-'))
    && s != [] && (s[0] == '-' <==> n < 0)
    && (s[0] == '0' ==> |s| == 1) && (s[0] == '-' ==> |s| > 1 && s[1] != '0')
  }

  lemma {:induction false} NoLeadingZero(n: nat)
    ensures PrintNat(n) != [] && (PrintNat(n)[0] == '0' <==> n == 0)
    ensures n < 10 ==> |PrintNat(n)| == 1
  {
    if n >= 10 {
      NoLeadingZero(n / 10);
    }
  }

  /** An integer cell whose value denotes an integer shows that integer in its plain spelling; any other is verbatim. */
  lemma {:induction false} IntegerCellIsPlain(cell: Json, value: string, floats: (string, string) -> string)
    requires IsIntegerCell(cell, value)
    ensures forall n :: Denotes(value, n) ==> IsPlainDecimal(CanonicalCell(Some(cell), floats), n)
    ensures (forall n :: !Denotes(value, n)) ==> CanonicalCell(Some(cell), floats) == value
  {
    IntegerCellText(cell, value, floats);
    hide IsIntegerCell, CanonicalCell, Denotes, IsPlainDecimal;
    var x := ParseI128(Trim(value));
    if x.Some? {
      ParsedIff(value, x.value);
      PrintIsPlain(x.value);
      hide ParseI128, Trim;
      forall n | Denotes(value, n) ensures n == x.value {
        DenotesOne(value, n, x.value);
      }
    } else {
      forall n ensures !Denotes(value, n) {
        ParsedIff(value, n);
      }
    }
  }

  lemma PrintShape(n: int)
    ensures var s := Print(n);
            && s != [] && (s[0] == '-' <==> n < 0)
            && (forall k :: 0 <= k < |s| ==> '0' <= s[k] <= '9' || (k == 0 && s[k] == '-'))
            && (s[0] == '0' ==> |s| == 1) && (s[0] == '-' ==> |s| > 1 && s[1] != '0')
  {
    var m := if n < 0 then -n else n;
    var digits := PrintNat(m);
    PrintNatReadsBack(m);
    NoLeadingZero(m);
    hide PrintNat, DigitsValue;
    assert forall k :: 0 <= k < |digits| ==> IsDigit(digits[k]);
    assert IsDigit(digits[0]);
  }

  lemma {:induction false} PrintIsPlain(n: int)
    requires I128_MIN <= n <= I128_MAX
    ensures IsPlainDecimal(Print(n), n)
  {
    ParseUndoesPrint(n);
    ParsedIff(Print(n), n);
    PrintShape(n);
    hide Denotes, Print, ParseI128, Trim;
  }

  /** Decimals and floats go through the float arms under their own name; any other datatype, or none, is verbatim. */
  lemma {:induction false} OtherCellText(
      cell: Json, value: string, datatypeIri: Option<string>, floats: (string, string) -> string)
    requires IsUntagged(cell, value, datatypeIri)
    ensures datatypeIri == None ==> CanonicalCell(Some(cell), floats) == value
    ensures forall name :: datatypeIri.Some? && IsFloatIri(datatypeIri.value, name) ==>
              CanonicalCell(Some(cell), floats) == floats(name, value)
    ensures (datatypeIri.Some? && !IsIntegerIri(datatypeIri.value)
             && forall name :: !IsFloatIri(datatypeIri.value, name)) ==> CanonicalCell(Some(cell), floats) == value
  {
    UntaggedText(cell, value, datatypeIri, floats);
    hide IsUntagged, CanonicalCell, IsIntegerIri, IsFloatIri, LocalName;
    if datatypeIri.Some? {
      LiteralTextIs(value, datatypeIri.value, floats);
      hide CanonicalLiteral;
    }
  }

  // ------------------------------------------------------------------
  // Documents
  // ------------------------------------------------------------------

  /** Absent on both sides, the same cell, or two spellings of one integer. */
  ghost predicate SpelledAlike(a: Option<Json>, b: Option<Json>) {
    || a == b
    || (a.Some? && b.Some? && exists v, w, n ::
          IsIntegerCell(a.value, v) && IsIntegerCell(b.value, w) && Denotes(v, n) && Denotes(w, n))
  }

  /** Two results that differ only in how integers are spelled have one table and one stream. */
  lemma {:induction false} RespellingKeepsStream(
      columns: seq<string>, xs: seq<Json>, ys: seq<Json>, floats: (string, string) -> string)
    requires |xs| == |ys|
    requires forall i, c :: 0 <= i < |xs| && c in columns ==> SpelledAlike(Get(xs[i], c), Get(ys[i], c))
    ensures SameStream(SelectResult(columns, xs), SelectResult(columns, ys), floats)
    ensures TableOf(SelectResult(columns, xs), floats) == TableOf(SelectResult(columns, ys), floats)
  {
    hide CanonicalCell, Get, SelectResult, TableOf, SameStream;
    forall i, c | 0 <= i < |xs| && c in columns
      ensures CanonicalCell(Get(xs[i], c), floats) == CanonicalCell(Get(ys[i], c), floats)
    {
      var a, b := Get(xs[i], c), Get(ys[i], c);
      if a != b {
        var v, w, n :| IsIntegerCell(a.value, v) && IsIntegerCell(b.value, w) && Denotes(v, n) && Denotes(w, n);
        hide IsIntegerCell, Denotes;
        IntegerCellsAgreeIff(a.value, v, b.value, w, floats);
      }
    }
    BindingsReadAlike(columns, xs, ys, floats);
  }

  // ------------------------------------------------------------------
  // Language tags
  // ------------------------------------------------------------------

  /** Equal, or the two cases of one ASCII letter. */
  ghost predicate SameLetter(a: char, b: char) {
    || a == b
    || ('A' <= a <= 'Z' && b as int == a as int + 32)
    || ('A' <= b <= 'Z' && a as int == b as int + 32)
  }

  ghost predicate SameTag(l: string, m: string) {
    |l| == |m| && forall i :: 0 <= i < |l| ==> SameLetter(l[i], m[i])
  }

  lemma {:induction false} LowerAsciiAt(s: string, i: nat)
    requires i < |s|
    ensures |LowerAscii(s)| == |s|
    ensures LowerAscii(s)[i] as int == if 'A' <= s[i] <= 'Z' then s[i] as int + 32 else s[i] as int
  {
    LowerAsciiIsIdempotent(s);
    if i > 0 {
      LowerAsciiAt(s[1..], i - 1);
    }
  }

  lemma {:induction false} LowerAsciiIff(l: string, m: string)
    ensures LowerAscii(l) == LowerAscii(m) <==> SameTag(l, m)
  {
    LowerAsciiIsIdempotent(l);
    LowerAsciiIsIdempotent(m);
    hide LowerAscii;
    if |l| == |m| {
      forall i | 0 <= i < |l| ensures LowerAscii(l)[i] == LowerAscii(m)[i] <==> SameLetter(l[i], m[i]) {
        LowerAsciiAt(l, i);
        LowerAsciiAt(m, i);
      }
    }
  }

  /** A literal without a datatype and with this language tag. */
  ghost predicate IsTagged(cell: Json, value: string, lang: string) {
    && AsString(Get(cell, "type")) !in {Some("uri"), Some("bnode")}
    && AsString(Get(cell, "value")) == Some(value)
    && AsString(Get(cell, "datatype")) == None
    && AsString(Get(cell, "xml:lang")) == Some(lang) && lang != ""
  }

  /** Tagged literals of one lexical are the same cell exactly when their tags differ at most in ASCII case. */
  lemma {:induction false} TaggedCellsAgreeIff(
      a: Json, b: Json, value: string, l: string, m: string, floats: (string, string) -> string)
    requires IsTagged(a, value, l) && IsTagged(b, value, m)
    ensures CanonicalCell(Some(a), floats) == CanonicalCell(Some(b), floats) <==> SameTag(l, m)
  {
    LowerAsciiIff(l, m);
    hide Get, LowerAscii, SameTag;
    var p := value + [LANG_SEP] + "@";
    assert CanonicalCell(Some(a), floats) == p + LowerAscii(l);
    assert CanonicalCell(Some(b), floats) == p + LowerAscii(m);
    assert LowerAscii(l) == (p + LowerAscii(l))[|p|..] && LowerAscii(m) == (p + LowerAscii(m))[|p|..];
  }
}

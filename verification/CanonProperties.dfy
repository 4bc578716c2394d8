/**
 What the digest input preserves and what it distinguishes: rows, columns, nodes and keys may
 come in any order, and for cells free of the separators nothing else is forgotten.
 */
module CanonProperties {
  import opened Prelude
  import opened Ordering
  import opened Json
  import opened Canon

  // ------------------------------------------------------------------
  // Order does not matter
  // ------------------------------------------------------------------

  ghost predicate Free(s: string, c: char) {
    c !in s
  }

  lemma FinishForgetsExactlyOrder(a: seq<string>, b: seq<string>)
    ensures multiset(a) == multiset(b) ==> Finished(a) == Finished(b)
    ensures Finished(a).canonicalRows == Finished(b).canonicalRows ==> multiset(a) == multiset(b)
  {
    hide FlatMap;
    LexIsTotalOrder();
    SortForgetsExactlyOrder(a, b, LexLeq);
    if multiset(a) == multiset(b) {
      SameElements(a, b);
    }
  }

  lemma {:induction false} FindIgnoresOrder(ms: seq<Member>, key: string, i: nat)
    requires DistinctKeys(ms) && i < |ms| && ms[i].key == key
    ensures Find(ms, key) == Some(ms[i].value)
  {
    if i > 0 {
      FindIgnoresOrder(ms[1..], key, i - 1);
    }
  }

  lemma {:induction false} FindAbsent(ms: seq<Member>, key: string)
    requires key !in KeySet(ms)
    ensures Find(ms, key) == None
  {
    if ms != [] {
      assert ms[0].key in KeySet(ms);
      assert KeySet(ms[1..]) <= KeySet(ms) by {
        forall k | k in KeySet(ms[1..]) ensures k in KeySet(ms) {
          var i := KeyIndex(ms[1..], k);
          assert ms[i + 1].key == k;
        }
      }
      FindAbsent(ms[1..], key);
    }
  }

  ghost predicate SameOption(a: Option<Json>, b: Option<Json>) {
    match (a, b)
    case (Some(x), Some(y)) => WellFormed(x) && WellFormed(y) && SameUpToKeyOrder(x, y)
    case (None, None) => true
    case _ => false
  }

  /** Looking a key up does not depend on where it stands. */
  lemma {:induction false} GetIgnoresKeyOrder(a: Json, b: Json, key: string)
    requires WellFormed(a) && WellFormed(b) && SameUpToKeyOrder(a, b)
    ensures SameOption(Get(a, key), Get(b, key))
  {
    if a.Object? && b.Object? {
      if key in KeySet(a.members) {
        var i := KeyIndex(a.members, key);
        var j := KeyIndex(b.members, key);
        FindIgnoresOrder(a.members, key, i);
        FindIgnoresOrder(b.members, key, j);
      } else {
        FindAbsent(a.members, key);
        FindAbsent(b.members, key);
      }
    }
  }

  lemma {:induction false} CellIgnoresKeyOrder(a: Option<Json>, b: Option<Json>, floats: (string, string) -> string)
    requires SameOption(a, b)
    ensures CanonicalCell(a, floats) == CanonicalCell(b, floats)
  {
    hide Get, LowerAscii, CanonicalLiteral, Render, WellFormed, SameUpToKeyOrder;
    if a.Some? {
      TextIgnoresKeyOrder(a.value, b.value, "type");
      TextIgnoresKeyOrder(a.value, b.value, "value");
      TextIgnoresKeyOrder(a.value, b.value, "datatype");
      TextIgnoresKeyOrder(a.value, b.value, "xml:lang");
    }
  }

  lemma TextIgnoresKeyOrder(a: Json, b: Json, key: string)
    requires WellFormed(a) && WellFormed(b) && SameUpToKeyOrder(a, b)
    ensures AsString(Get(a, key)) == AsString(Get(b, key))
  {
    hide Get;
    GetIgnoresKeyOrder(a, b, key);
  }

  lemma {:induction false} CellsIgnoreKeyOrder(a: Json, b: Json, columns: seq<string>,
      floats: (string, string) -> string)
    requires WellFormed(a) && WellFormed(b) && SameUpToKeyOrder(a, b)
    ensures CellsOf(columns, floats)(a) == CellsOf(columns, floats)(b)
  {
    hide Map, CanonicalCell;
    var xs, ys := CellsOf(columns, floats)(a), CellsOf(columns, floats)(b);
    forall i | 0 <= i < |columns| ensures xs[i] == ys[i] {
      GetIgnoresKeyOrder(a, b, columns[i]);
      CellIgnoresKeyOrder(Get(a, columns[i]), Get(b, columns[i]), floats);
    }
  }

  /** The documents hold the same rows, up to their order and the order of keys inside them. */
  ghost predicate SameBindings(a: seq<Json>, b: seq<Json>) {
    && (forall i :: 0 <= i < |a| ==> WellFormed(a[i]))
    && (forall i :: 0 <= i < |b| ==> WellFormed(b[i]))
    && multiset(SortItems(a)) == multiset(SortItems(b))
  }

  lemma {:induction false} TableIgnoresKeyOrder(bindings: seq<Json>, columns: seq<string>,
      floats: (string, string) -> string)
    requires forall i :: 0 <= i < |bindings| ==> WellFormed(bindings[i])
    ensures Table(SortItems(bindings), columns, floats) == Table(bindings, columns, floats)
  {
    hide Map, SortKeys;
    var a, b := Table(SortItems(bindings), columns, floats), Table(bindings, columns, floats);
    forall i | 0 <= i < |b| ensures a[i] == b[i] {
      SortKeysOnlyReorders(bindings[i]);
      CellsIgnoreKeyOrder(SortKeys(bindings[i]), bindings[i], columns, floats);
    }
  }

  /**
   Permuting `head.vars`, the bindings, and the keys inside the bindings changes neither the
   canonical rows nor the hashed stream.
   */
  lemma {:induction false} ResultOrderIsIrrelevant(a: Json, b: Json, floats: (string, string) -> string)
    requires AskOf(a).None? && AskOf(b).None? && BindingsOf(a).Some? && BindingsOf(b).Some?
    requires multiset(VarsOf(a)) == multiset(VarsOf(b))
    requires SameBindings(BindingsOf(a).value, BindingsOf(b).value)
    ensures SparqlCanonical(a, floats) == SparqlCanonical(b, floats)
  {
    hide VarsOf, BindingsOf, AskOf, SortKeys, Finished, Map, Join;
    var xs, ys := BindingsOf(a).value, BindingsOf(b).value;
    LexIsTotalOrder();
    SortForgetsExactlyOrder(VarsOf(a), VarsOf(b), LexLeq);
    var columns := Sort(VarsOf(a), LexLeq);
    TableIgnoresKeyOrder(xs, columns, floats);
    TableIgnoresKeyOrder(ys, columns, floats);
    MapPermutes(CellsOf(columns, floats), SortItems(xs), SortItems(ys));
    MapPermutes(Join, Table(xs, columns, floats), Table(ys, columns, floats));
    FinishForgetsExactlyOrder(Map(Join, Table(xs, columns, floats)), Map(Join, Table(ys, columns, floats)));
  }

  // ------------------------------------------------------------------
  // The framing is faithful
  // ------------------------------------------------------------------

  /** Text after the last separator is determined by the whole. */
  lemma SuffixIsUnique(p: string, r: string, p': string, r': string, sep: char)
    requires p + r == p' + r' && Free(r, sep) && Free(r', sep)
    requires (p == [] || p[|p| - 1] == sep) && (p' == [] || p'[|p'| - 1] == sep)
    ensures p == p' && r == r'
  {
    var whole := p + r;
    forall k | |p'| <= k < |whole| ensures whole[k] != sep { assert whole[k] == r'[k - |p'|]; }
    forall k | |p| <= k < |whole| ensures whole[k] != sep { assert whole[k] == r[k - |p|]; }
    assert p != [] ==> whole[|p| - 1] == sep;
    assert p' != [] ==> whole[|p'| - 1] == sep;
    assert p == whole[..|p|] && p' == whole[..|p'|];
    assert r == whole[|p|..] && r' == whole[|p'|..];
  }

  ghost predicate RowsFree(rows: seq<string>) {
    forall i :: 0 <= i < |rows| ==> Free(rows[i], ROW_SEP)
  }

  lemma {:induction false} StreamEndsInSeparator(rows: seq<string>)
    ensures rows == [] ==> Stream(rows) == []
    ensures rows != [] ==> Stream(rows) != [] && Stream(rows)[|Stream(rows)| - 1] == ROW_SEP
  {
  }

  /** The stream of separator-free rows can be read back. */
  lemma {:induction false} StreamIsInjective(a: seq<string>, b: seq<string>)
    requires RowsFree(a) && RowsFree(b) && Stream(a) == Stream(b)
    ensures a == b
  {
    StreamEndsInSeparator(a);
    StreamEndsInSeparator(b);
    if a != [] && b != [] {
      var m, n := |a| - 1, |b| - 1;
      LastRowIsUnique(a, b);
      hide Stream;
      StreamIsInjective(a[..m], b[..n]);
      assert a == a[..m] + [a[m]] && b == b[..n] + [b[n]];
    }
  }

  lemma {:induction false} LastRowIsUnique(a: seq<string>, b: seq<string>)
    requires RowsFree(a) && RowsFree(b) && Stream(a) == Stream(b) && a != [] && b != []
    ensures a[|a| - 1] == b[|b| - 1] && Stream(a[..|a| - 1]) == Stream(b[..|b| - 1])
  {
    var m, n := |a| - 1, |b| - 1;
    var p, q := Stream(a[..m]), Stream(b[..n]);
    assert Stream(a) == p + a[m] + [ROW_SEP] && Stream(b) == q + b[n] + [ROW_SEP];
    assert p + a[m] == Stream(a)[..|Stream(a)| - 1] && q + b[n] == Stream(b)[..|Stream(b)| - 1];
    StreamEndsInSeparator(a[..m]);
    StreamEndsInSeparator(b[..n]);
    hide FlatMap;
    SuffixIsUnique(p, a[m], q, b[n], ROW_SEP);
  }

  ghost predicate AllFree(cells: seq<string>, sep: char) {
    forall i :: 0 <= i < |cells| ==> Free(cells[i], sep)
  }

  ghost predicate CellsFree(cells: seq<string>) {
    AllFree(cells, CELL_SEP) && AllFree(cells, ROW_SEP)
  }

  ghost function Separators(s: string): nat {
    multiset(s)[CELL_SEP]
  }

  lemma SeparatorsAdd(p: string, cell: string)
    ensures Separators(p + [CELL_SEP] + cell) == Separators(p) + 1 + Separators(cell)
  {
  }

  lemma NoSeparators(cell: string)
    ensures Separators(cell) == 0 <==> Free(cell, CELL_SEP)
  {
  }

  lemma AllFreeSnoc(row: seq<string>, cell: string, sep: char)
    ensures AllFree(row + [cell], sep) <==> AllFree(row, sep) && Free(cell, sep)
    ensures AllFree([], sep)
  {
    hide Free;
    var both := row + [cell];
    if AllFree(both, sep) {
      forall i | 0 <= i < |row| ensures Free(row[i], sep) { assert row[i] == both[i]; }
      assert cell == both[|row|];
    }
  }

  lemma JoinSnoc(row: seq<string>, cell: string)
    ensures Join(row + [cell]) == if row == [] then cell else Join(row) + [CELL_SEP] + cell
  {
    assert (row + [cell])[..|row|] == row;
  }

  /** A joined row holds the separators between its cells and those inside them. */
  lemma {:induction false} SeparatorCount(row: seq<string>)
    requires row != []
    ensures Separators(Join(row)) >= |row| - 1
    ensures Separators(Join(row)) == |row| - 1 <==> AllFree(row, CELL_SEP)
  {
    hide Separators, Free, AllFree, Join;
    var n := |row| - 1;
    var init, cell := row[..n], row[n];
    assert row == init + [cell];
    NoSeparators(cell);
    JoinSnoc(init, cell);
    AllFreeSnoc(init, cell, CELL_SEP);
    if n > 0 {
      SeparatorCount(init);
      SeparatorsAdd(Join(init), cell);
    }
  }

  lemma {:induction false} JoinIsInjective(a: seq<string>, b: seq<string>)
    requires |a| == |b| && AllFree(a, CELL_SEP) && AllFree(b, CELL_SEP) && Join(a) == Join(b)
    ensures a == b
  {
    if |a| >= 2 {
      var n := |a| - 1;
      var p, q := Join(a[..n]) + [CELL_SEP], Join(b[..n]) + [CELL_SEP];
      SuffixIsUnique(p, a[n], q, b[n], CELL_SEP);
      assert Join(a[..n]) == p[..|p| - 1] && Join(b[..n]) == q[..|q| - 1];
      JoinIsInjective(a[..n], b[..n]);
      assert a == a[..n] + [a[n]] && b == b[..n] + [b[n]];
    }
  }

  /** Separator-free cells are determined by the joined row, their number included unless one row has none. */
  lemma {:induction false} JoinDetermines(a: seq<string>, b: seq<string>)
    requires AllFree(a, CELL_SEP) && AllFree(b, CELL_SEP) && Join(a) == Join(b)
    requires |a| == |b| || (a != [] && b != [])
    ensures a == b
  {
    hide Join;
    if |a| != |b| {
      SeparatorCount(a);
      SeparatorCount(b);
    }
    JoinIsInjective(a, b);
  }

  lemma {:induction false} JoinedRowIsFree(cells: seq<string>)
    requires CellsFree(cells)
    ensures Free(Join(cells), ROW_SEP)
  {
    if |cells| >= 2 {
      JoinedRowIsFree(cells[..|cells| - 1]);
    }
  }

  /** What a table feeds to the hasher. */
  function TableStream(table: seq<seq<string>>): string {
    Finished(Map(Join, table)).stream
  }

  /** Rows of `k` separator-free cells each. */
  ghost predicate Framed(table: seq<seq<string>>, k: nat) {
    forall i :: 0 <= i < |table| ==> |table[i]| == k && CellsFree(table[i])
  }

  /** Column counts for which a row of one table cannot be mistaken for a row of the other. */
  predicate Comparable(k: nat, l: nat) {
    k == l || (k > 0 && l > 0)
  }

  lemma {:induction false} JoinIsInjectiveOnFramed(a: seq<seq<string>>, b: seq<seq<string>>, k: nat, l: nat)
    requires Framed(a, k) && Framed(b, l) && Comparable(k, l)
    ensures InjectiveOn(Join, a, b)
  {
    hide Join;
    forall x, y | x in a && y in b && Join(x) == Join(y) ensures x == y {
      JoinDetermines(x, y);
    }
  }

  lemma {:induction false} FramedRowsFree(table: seq<seq<string>>, k: nat)
    requires Framed(table, k)
    ensures RowsFree(Sort(Map(Join, table), LexLeq))
  {
    hide Map, Join, Sort;
    var rows := Map(Join, table);
    var sorted := Sort(rows, LexLeq);
    SameElements(rows, sorted);
    forall i | 0 <= i < |sorted| ensures Free(sorted[i], ROW_SEP) {
      assert sorted[i] in rows;
      var j :| 0 <= j < |rows| && rows[j] == sorted[i];
      JoinedRowIsFree(table[j]);
    }
  }

  /**
   For cells free of the separators the hashed stream determines the multiset of rows, and
   conversely, also across different numbers of columns as long as there are any.
   */
  lemma {:induction false} StreamIsFaithful(a: seq<seq<string>>, b: seq<seq<string>>, k: nat, l: nat)
    requires Framed(a, k) && Framed(b, l) && Comparable(k, l)
    ensures TableStream(a) == TableStream(b) <==> multiset(a) == multiset(b)
  {
    hide Map, Join, Stream, Framed;
    var p, q := Map(Join, a), Map(Join, b);
    if multiset(a) == multiset(b) {
      MapPermutes(Join, a, b);
      FinishForgetsExactlyOrder(p, q);
    }
    if Finished(p).stream == Finished(q).stream {
      FramedRowsFree(a, k);
      FramedRowsFree(b, l);
      StreamIsInjective(Sort(p, LexLeq), Sort(q, LexLeq));
      FinishForgetsExactlyOrder(p, q);
      JoinIsInjectiveOnFramed(a, b, k, l);
      MapDetermines(Join, a, b);
    }
  }

  /** Two result documents with separator-free cells hash alike exactly when they hold the same rows of cells. */
  lemma {:induction false} ResultStreamIsFaithful(a: Json, b: Json, floats: (string, string) -> string)
    requires AskOf(a).None? && AskOf(b).None? && BindingsOf(a).Some? && BindingsOf(b).Some?
    requires Framed(TableOf(a, floats), |VarsOf(a)|) && Framed(TableOf(b, floats), |VarsOf(b)|)
    requires Comparable(|VarsOf(a)|, |VarsOf(b)|)
    ensures SparqlCanonical(a, floats).value.stream == SparqlCanonical(b, floats).value.stream
            <==> multiset(TableOf(a, floats)) == multiset(TableOf(b, floats))
  {
    hide VarsOf, BindingsOf, AskOf, Finished, TableOf, Map, Join;
    StreamIsFaithful(TableOf(a, floats), TableOf(b, floats), |VarsOf(a)|, |VarsOf(b)|);
  }

  // ------------------------------------------------------------------
  // Cells
  // ------------------------------------------------------------------

  /** A term that cannot be mistaken for another kind of term. */
  ghost predicate Plain(t: Term) {
    t.Literal? ==>
      && Free(t.lexical, LANG_SEP)
      && (t.lexical != [] ==> t.lexical[0] != '<' && t.lexical[0] != '\0')
      && t.lexical != "_:b"
      && (t.lang.Some? ==> Free(t.lang.value, LANG_SEP))
  }

  /** Terms that are plain render alike exactly when they are the same term. */
  lemma {:induction false} PlainTermsRenderInjectively(a: Term, b: Term)
    requires Plain(a) && Plain(b)
    ensures Render(a) == Render(b) <==> a == b
  {
    if Render(a) == Render(b) {
      var text := Render(a);
      match (a, b) {
        case (Iri(x), Iri(y)) =>
          assert x == text[1..|text| - 1] && y == text[1..|text| - 1];
        case (Literal(x, Some(l)), Literal(y, Some(m))) =>
          TaggedIsUnique(x, l, y, m);
        case (_, _) =>
          RenderShape(a);
          RenderShape(b);
      }
    }
  }

  /** The features by which a plain rendering gives its kind away. */
  lemma RenderShape(t: Term)
    requires Plain(t)
    ensures Render(t) != [] && Render(t)[0] == '<' <==> t.Iri?
    ensures Render(t) != [] && Render(t)[0] == '\0' <==> t.Unbound?
    ensures Render(t) == "_:b" <==> t.BlankNode?
    ensures t.Literal? ==> (LANG_SEP in Render(t) <==> t.lang.Some?)
  {
    if t.Literal? && t.lang.Some? {
      assert Render(t)[|t.lexical|] == LANG_SEP;
      assert t.lexical != [] ==> Render(t)[0] == t.lexical[0];
      assert LANG_SEP !in "_:b";
    }
  }

  lemma TaggedIsUnique(x: string, l: string, y: string, m: string)
    requires x + [LANG_SEP] + "@" + l == y + [LANG_SEP] + "@" + m
    requires Free(l, LANG_SEP) && Free(m, LANG_SEP)
    ensures x == y && l == m
  {
    var whole := x + [LANG_SEP] + "@" + l;
    assert whole == (x + [LANG_SEP]) + ("@" + l) && whole == (y + [LANG_SEP]) + ("@" + m);
    SuffixIsUnique(x + [LANG_SEP], "@" + l, y + [LANG_SEP], "@" + m, LANG_SEP);
    assert x == (x + [LANG_SEP])[..|x|] && y == (y + [LANG_SEP])[..|y|];
    assert l == ("@" + l)[1..] && m == ("@" + m)[1..];
  }

  lemma {:induction false} LowerAsciiIsIdempotent(s: string)
    ensures LowerAscii(LowerAscii(s)) == LowerAscii(s)
    ensures |LowerAscii(s)| == |s|
  {
    if s != [] {
      LowerAsciiIsIdempotent(s[1..]);
      var t := LowerAscii(s);
      assert t[1..] == LowerAscii(s[1..]);
      assert !('A' <= t[0] <= 'Z');
    }
  }

  /** A term some cell denotes: tags are not empty and in lower case. */
  ghost predicate Denotable(t: Term) {
    t.Literal? && t.lang.Some? ==> t.lang.value != "" && LowerAscii(t.lang.value) == t.lang.value
  }

  function CellDenoting(t: Term): Option<Json> {
    match t
    case Unbound => None
    case Iri(iri) => Some(Object([Member("type", String("uri")), Member("value", String(iri))]))
    case BlankNode => Some(Object([Member("type", String("bnode"))]))
    case Literal(x, None) => Some(Object([Member("value", String(x))]))
    case Literal(x, Some(l)) => Some(Object([Member("value", String(x)), Member("xml:lang", String(l))]))
  }

  lemma GetInSingle(k: string, u: Json, key: string)
    ensures Get(Object([Member(k, u)]), key) == if key == k then Some(u) else None
  {
    assert [Member(k, u)][1..] == [];
    assert Find([], key) == None;
  }

  lemma GetInPair(k: string, u: Json, l: string, v: Json, key: string)
    ensures Get(Object([Member(k, u), Member(l, v)]), key)
            == if key == k then Some(u) else if key == l then Some(v) else None
  {
    GetInSingle(l, v, key);
    assert [Member(k, u), Member(l, v)][1..] == [Member(l, v)];
  }

  lemma {:induction false} DenotedByItsCell(t: Term, floats: (string, string) -> string)
    requires Denotable(t)
    ensures TermOf(CellDenoting(t), floats) == t
  {
    hide Get;
    match t
    case Unbound =>
    case Iri(iri) =>
      GetInPair("type", String("uri"), "value", String(iri), "type");
      GetInPair("type", String("uri"), "value", String(iri), "value");
    case BlankNode =>
      GetInSingle("type", String("bnode"), "type");
    case Literal(x, None) =>
      GetInSingle("value", String(x), "type");
      GetInSingle("value", String(x), "value");
      GetInSingle("value", String(x), "datatype");
      GetInSingle("value", String(x), "xml:lang");
    case Literal(x, Some(l)) =>
      GetInPair("value", String(x), "xml:lang", String(l), "type");
      GetInPair("value", String(x), "xml:lang", String(l), "value");
      GetInPair("value", String(x), "xml:lang", String(l), "datatype");
      GetInPair("value", String(x), "xml:lang", String(l), "xml:lang");
  }

  lemma {:induction false} DenotableIff(t: Term, floats: (string, string) -> string)
    ensures Denotable(t) <==> exists cell :: TermOf(cell, floats) == t
  {
    if Denotable(t) {
      DenotedByItsCell(t, floats);
    }
    forall cell | TermOf(cell, floats) == t ensures Denotable(t) {
      if cell.Some? {
        var lang := AsString(Get(cell.value, "xml:lang"));
        hide Get, CanonicalLiteral;
        if lang.Some? {
          LowerAsciiIsIdempotent(lang.value);
        }
      }
    }
  }

  ghost predicate TagAt(x: string, k: nat) {
    k + 2 < |x| && x[k] == LANG_SEP && x[k + 1] == '@' && LowerAscii(x[k + 2..]) == x[k + 2..]
  }

  /** A text that is not spelled like an IRI, the blank node, the unbound marker or a tagged literal. */
  ghost predicate SpellsOnlyItself(x: string) {
    && !(|x| >= 2 && x[0] == '<' && x[|x| - 1] == '>')
    && x != "_:b"
    && x != UNBOUND
    && forall k :: !TagAt(x, k)
  }

  /**
   Exactly which terms no other term renders like: the untagged literals whose text spells
   nothing else. Every tagged literal and every term of another kind has a string as its twin.
   */
  lemma {:induction false} TermIsUnambiguousIff(t: Term)
    requires Denotable(t)
    ensures (forall other :: Denotable(other) && Render(other) == Render(t) ==> other == t)
            <==> t.Literal? && t.lang.None? && SpellsOnlyItself(t.lexical)
  {
    if !t.Literal? || t.lang.Some? {
      assert Render(Literal(Render(t), None)) == Render(t);
    } else {
      hide Render, Denotable, SpellsOnlyItself;
      assert Render(t) == t.lexical by { RenderPlain(t.lexical); }
      if SpellsOnlyItself(t.lexical) {
        forall other | Denotable(other) && Render(other) == Render(t) ensures other == t {
          OnlyUntaggedSpells(other, t.lexical);
        }
      } else {
        var other := OtherReading(t.lexical);
      }
    }
  }

  lemma RenderPlain(x: string)
    ensures Render(Literal(x, None)) == x
  {
  }

  lemma TaggedHasTag(x: string, l: string)
    requires Denotable(Literal(x, Some(l)))
    ensures TagAt(Render(Literal(x, Some(l))), |x|)
  {
    assert Render(Literal(x, Some(l)))[|x| + 2..] == l;
  }

  lemma OnlyUntaggedSpells(t: Term, x: string)
    requires Denotable(t) && Render(t) == x && SpellsOnlyItself(x)
    ensures t == Literal(x, None)
  {
    if t.Literal? && t.lang.Some? {
      TaggedHasTag(t.lexical, t.lang.value);
    }
  }

  lemma OtherReading(x: string) returns (other: Term)
    requires !SpellsOnlyItself(x)
    ensures Denotable(other) && Render(other) == x && other != Literal(x, None)
  {
    if x == "_:b" {
      other := BlankNode;
    } else if x == UNBOUND {
      other := Unbound;
    } else if |x| >= 2 && x[0] == '<' && x[|x| - 1] == '>' {
      other := Iri(x[1..|x| - 1]);
      assert x == "<" + x[1..|x| - 1] + ">";
    } else {
      var k: nat :| TagAt(x, k);
      other := Literal(x[..k], Some(x[k + 2..]));
      assert x == x[..k] + [LANG_SEP] + "@" + x[k + 2..];
    }
  }

  // ------------------------------------------------------------------
  // Graphs
  // ------------------------------------------------------------------

  /** The nodes at hand are rendered injectively and without row separators, as JSON text is. */
  ghost predicate FaithfulText(text: Json -> string, xs: seq<Json>, ys: seq<Json>) {
    && InjectiveOn(text, xs, ys)
    && (forall v :: v in xs ==> Free(text(v), ROW_SEP))
    && (forall v :: v in ys ==> Free(text(v), ROW_SEP))
  }

  lemma {:induction false} NodeRowsFree(nodes: seq<Json>, text: Json -> string)
    requires forall v :: v in nodes ==> Free(text(v), ROW_SEP)
    ensures RowsFree(Sort(Map(text, nodes), LexLeq))
  {
    hide Map, Sort;
    var rows := Map(text, nodes);
    var sorted := Sort(rows, LexLeq);
    SameElements(rows, sorted);
    forall i | 0 <= i < |sorted| ensures Free(sorted[i], ROW_SEP) {
      assert sorted[i] in rows;
      var j :| 0 <= j < |nodes| && rows[j] == sorted[i];
      assert nodes[j] in nodes;
    }
  }

  /**
   Two graph documents feed the hash the same stream exactly when their nodes agree as a
   multiset up to key order at any depth.
   */
  lemma {:induction false} GraphStreamIsFaithful(a: Json, b: Json, text: Json -> string)
    requires FaithfulText(text, SortItems(NodesOf(a)), SortItems(NodesOf(b)))
    ensures GraphCanonical(a, text).stream == GraphCanonical(b, text).stream
            <==> multiset(SortItems(NodesOf(a))) == multiset(SortItems(NodesOf(b)))
  {
    hide NodesOf, SortItems, Map, Stream;
    var xs, ys := SortItems(NodesOf(a)), SortItems(NodesOf(b));
    var p, q := Map(text, xs), Map(text, ys);
    if multiset(xs) == multiset(ys) {
      MapPermutes(text, xs, ys);
    }
    FinishForgetsExactlyOrder(p, q);
    if Finished(p).stream == Finished(q).stream {
      NodeRowsFree(xs, text);
      NodeRowsFree(ys, text);
      StreamIsInjective(Sort(p, LexLeq), Sort(q, LexLeq));
      MapDetermines(text, xs, ys);
    }
  }
}

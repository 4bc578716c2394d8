/**
 Result documents as a whole: which documents the canonicalizer accepts although they have no
 recognized shape, what it then makes of them, and what a table result leaves out.
 */
module CanonShapes {
  import opened Prelude
  import opened Ordering
  import opened Json
  import opened Canon
  import opened CanonProperties
  import opened CanonAmbiguity
  import opened CanonColumns

  // ------------------------------------------------------------------
  // Every table is the table of some document
  // ------------------------------------------------------------------

  function PlainCell(x: string): Json {
    Object([Member("type", String("literal")), Member("value", String(x))])
  }

  function BindingOf(columns: seq<string>, cells: seq<string>): Json
    requires |columns| == |cells|
  {
    Object(seq(|columns|, i requires 0 <= i < |columns| => Member(columns[i], PlainCell(cells[i]))))
  }

  function BindingsFor(columns: seq<string>, table: seq<seq<string>>): seq<Json>
    requires forall i :: 0 <= i < |table| ==> |table[i]| == |columns|
  {
    seq(|table|, i requires 0 <= i < |table| => BindingOf(columns, table[i]))
  }

  /** A SELECT result with the given bindings. */
  function SelectResult(columns: seq<string>, bindings: seq<Json>): Json {
    Object([Member("head", Object([Member("vars", Array(Map((c: string) => String(c), columns)))])),
            Member("results", Object([Member("bindings", Array(bindings))]))])
  }

  lemma {:induction false} StringsInStrings(columns: seq<string>)
    ensures StringsIn(Map((c: string) => String(c), columns)) == columns
  {
    if columns != [] {
      var n := |columns| - 1;
      StringsInStrings(columns[..n]);
      assert Map((c: string) => String(c), columns)[..n] == Map((c: string) => String(c), columns[..n]);
    }
  }

  /** Where `items[i]` stands among the strings of `items`. */
  ghost function StringsBefore(items: seq<Json>, i: nat): nat
    requires i <= |items|
  {
    if i == 0 then 0 else StringsBefore(items, i - 1) + if items[i - 1].String? then 1 else 0
  }

  /** The variables are the strings of `head.vars`, all of them and in their order; other items are passed over. */
  lemma {:induction false} VarsAreStrings(items: seq<Json>, i: nat)
    requires i < |items|
    ensures |StringsIn(items)| == StringsBefore(items, |items|)
    ensures items[i].String? ==>
              && StringsBefore(items, i) < |StringsIn(items)|
              && StringsIn(items)[StringsBefore(items, i)] == items[i].text
  {
    var n := |items| - 1;
    var init := items[..n];
    StringsBeforePrefix(items, n, n);
    if n == 0 {
      assert init == [];
    } else {
      VarsAreStrings(init, if i < n then i else 0);
      if i < n {
        StringsBeforePrefix(items, n, i);
      }
    }
  }

  lemma {:induction false} StringsBeforePrefix(items: seq<Json>, n: nat, i: nat)
    requires i <= n <= |items|
    ensures StringsBefore(items[..n], i) == StringsBefore(items, i)
  {
    if i > 0 {
      StringsBeforePrefix(items, n, i - 1);
    }
  }

  lemma SelectResultParts(columns: seq<string>, bindings: seq<Json>)
    ensures var doc := SelectResult(columns, bindings);
            && !doc.Array? && AskOf(doc) == None && Get(doc, "@graph") == None
            && VarsOf(doc) == columns && BindingsOf(doc) == Some(bindings)
  {
    hide Get, StringsIn, Map;
    var vars := Array(Map((c: string) => String(c), columns));
    var head, results := Object([Member("vars", vars)]), Object([Member("bindings", Array(bindings))]);
    GetInPair("head", head, "results", results, "boolean");
    GetInPair("head", head, "results", results, "@graph");
    GetInPair("head", head, "results", results, "head");
    GetInPair("head", head, "results", results, "results");
    GetInSingle("vars", vars, "vars");
    GetInSingle("bindings", Array(bindings), "bindings");
    StringsInStrings(columns);
  }

  lemma PlainCellReads(x: string, floats: (string, string) -> string)
    ensures CanonicalCell(Some(PlainCell(x)), floats) == x
  {
    hide Get;
    GetInPair("type", String("literal"), "value", String(x), "type");
    GetInPair("type", String("literal"), "value", String(x), "value");
    GetInPair("type", String("literal"), "value", String(x), "datatype");
    GetInPair("type", String("literal"), "value", String(x), "xml:lang");
  }

  lemma {:induction false} BindingReads(columns: seq<string>, cells: seq<string>, floats: (string, string) -> string)
    requires |columns| == |cells| && Distinct(columns)
    ensures CellsOf(columns, floats)(BindingOf(columns, cells)) == cells
  {
    hide Map, CanonicalCell;
    var binding := BindingOf(columns, cells);
    assert DistinctKeys(binding.members);
    forall i | 0 <= i < |columns| ensures CellIn(binding, floats)(columns[i]) == cells[i] {
      FindIgnoresOrder(binding.members, columns[i], i);
      PlainCellReads(cells[i], floats);
    }
  }

  /** The document built from ascending distinct columns has just that table. */
  lemma {:induction false} SelectResultHasTable(
      columns: seq<string>, table: seq<seq<string>>, floats: (string, string) -> string)
    requires Sorted(columns, LexLeq) && Distinct(columns)
    requires forall i :: 0 <= i < |table| ==> |table[i]| == |columns|
    ensures TableOf(SelectResult(columns, BindingsFor(columns, table)), floats) == table
  {
    hide Map, Sort, VarsOf, BindingsOf, SelectResult, LexLeq;
    var bindings := BindingsFor(columns, table);
    SelectResultParts(columns, bindings);
    LexIsTotalOrder();
    SortIsSorted(columns, LexLeq);
    SortedIsUnique(Sort(columns, LexLeq), columns, LexLeq);
    forall i | 0 <= i < |table| ensures CellsOf(columns, floats)(bindings[i]) == table[i] {
      BindingReads(columns, table[i], floats);
    }
    assert Table(bindings, columns, floats) == table;
  }

  /** `k` ascending column names: "", "a", "aa" and so on. */
  function Columns(k: nat): seq<string> {
    seq(k, (i: nat) => Letters(i))
  }

  function Letters(n: nat): string {
    seq(n, _ => 'a')
  }

  lemma ColumnsAscend(k: nat)
    ensures Sorted(Columns(k), LexLeq) && Distinct(Columns(k))
  {
    hide LexLeq;
    forall i, j | 0 <= i < j < k ensures LexLeq(Columns(k)[i], Columns(k)[j]) {
      assert Letters(j) == Letters(i) + Letters(j - i);
      PrefixIsLess(Letters(i), Letters(j - i));
    }
    forall i, j | 0 <= i < j < k ensures Columns(k)[i] != Columns(k)[j] {
      assert |Columns(k)[i]| == i && |Columns(k)[j]| == j;
    }
  }

  /** A SELECT result, as `canonicalize` reads it. */
  predicate ReadsAsTable(doc: Json) {
    Get(doc, "@graph").None? && !doc.Array? && AskOf(doc).None? && BindingsOf(doc).Some?
  }

  lemma {:induction false} EveryTableOccurs(table: seq<seq<string>>, k: nat, floats: (string, string) -> string)
      returns (doc: Json)
    requires Rectangular(table, k)
    ensures ReadsAsTable(doc) && |VarsOf(doc)| == k && TableOf(doc, floats) == table
  {
    hide TableOf, VarsOf, BindingsOf, AskOf, Get, Columns;
    ColumnsAscend(k);
    var columns := Columns(k);
    assert |columns| == k by { ColumnCount(k); }
    assert forall i :: 0 <= i < |table| ==> table[i] in table;
    doc := SelectResult(columns, BindingsFor(columns, table));
    SelectResultParts(columns, BindingsFor(columns, table));
    SelectResultHasTable(columns, table, floats);
  }

  lemma ColumnCount(k: nat)
    ensures |Columns(k)| == k
  {
  }

  // ------------------------------------------------------------------
  // Which results the stream tells apart
  // ------------------------------------------------------------------

  lemma TableIsRectangular(doc: Json, floats: (string, string) -> string)
    ensures Rectangular(TableOf(doc, floats), |VarsOf(doc)|)
  {
    hide Map, Sort, VarsOf, BindingsOf;
    forall row | row in TableOf(doc, floats) ensures |row| == |VarsOf(doc)| {
      var i :| 0 <= i < |TableOf(doc, floats)| && TableOf(doc, floats)[i] == row;
    }
  }

  lemma StreamOfTable(doc: Json, floats: (string, string) -> string)
    requires ReadsAsTable(doc)
    ensures SparqlCanonical(doc, floats).Ok?
    ensures SparqlCanonical(doc, floats).value.stream == TableStream(TableOf(doc, floats))
  {
  }

  ghost predicate SameStream(a: Json, b: Json, floats: (string, string) -> string) {
    && ReadsAsTable(a) && ReadsAsTable(b)
    && SparqlCanonical(a, floats).Ok? && SparqlCanonical(b, floats).Ok?
    && SparqlCanonical(a, floats).value.stream == SparqlCanonical(b, floats).value.stream
  }

  ghost predicate SameRows(a: Json, b: Json, floats: (string, string) -> string) {
    multiset(TableOf(a, floats)) == multiset(TableOf(b, floats))
  }

  /** Two engines can return different rows and still get one hash. */
  lemma {:induction false} SeparatorsCanCollide(
      x: string, y: string, z: string, floats: (string, string) -> string) returns (a: Json, b: Json)
    ensures TableOf(a, floats) == [[x + [CELL_SEP] + y, z]] && TableOf(b, floats) == [[x, y + [CELL_SEP] + z]]
    ensures |VarsOf(a)| == |VarsOf(b)| == 2 && SameStream(a, b, floats) && !SameRows(a, b, floats)
  {
    hide TableOf, VarsOf, ReadsAsTable, SparqlCanonical, TableStream;
    var p, q := [x + [CELL_SEP] + y, z], [x, y + [CELL_SEP] + z];
    JoinShiftLast([], x, y, z);
    assert [] + [x + [CELL_SEP] + y] + [z] == p && [] + [x] + [y + [CELL_SEP] + z] == q;
    assert |p[0]| != |q[0]|;
    SameTextSameStream([p], 0, q);
    assert [p][0 := q] == [q];
    a := EveryTableOccurs([p], 2, floats);
    b := EveryTableOccurs([q], 2, floats);
    StreamOfTable(a, floats);
    StreamOfTable(b, floats);
  }

  /** A result with as many columns and the same stream, whose cells hold no row separator. */
  ghost predicate Rival(other: Json, doc: Json, floats: (string, string) -> string) {
    && SameStream(other, doc, floats) && |VarsOf(other)| == |VarsOf(doc)|
    && CellsWithout(TableOf(other, floats), ROW_SEP)
  }

  /**
   Among results with as many columns whose cells hold no row separator, one shares its stream
   with no result of other rows if and only if it has at most one column or none of its cells
   holds the cell separator.
   */
  lemma {:induction false} ResultIsUnambiguousIff(doc: Json, floats: (string, string) -> string)
    requires ReadsAsTable(doc) && CellsWithout(TableOf(doc, floats), ROW_SEP)
    ensures (forall other :: Rival(other, doc, floats) ==> SameRows(other, doc, floats))
            <==> |VarsOf(doc)| <= 1 || CellsWithout(TableOf(doc, floats), CELL_SEP)
  {
    hide TableOf, VarsOf, ReadsAsTable, SparqlCanonical, TableStream, CellsWithout;
    var k, a := |VarsOf(doc)|, TableOf(doc, floats);
    TableIsRectangular(doc, floats);
    StreamOfTable(doc, floats);
    TableIsUnambiguousIff(a, k);
    if ToldApart(a, k) {
      forall other | Rival(other, doc, floats)
        ensures SameRows(other, doc, floats)
      {
        TableIsRectangular(other, floats);
        StreamOfTable(other, floats);
      }
    } else {
      var b :| Rectangular(b, k) && CellsWithout(b, ROW_SEP) && TableStream(b) == TableStream(a)
               && multiset(b) != multiset(a);
      var other := EveryTableOccurs(b, k, floats);
      StreamOfTable(other, floats);
      assert Rival(other, doc, floats) && !SameRows(other, doc, floats);
    }
  }

  /** A result of any width with the same stream, whose cells hold no row separator. */
  ghost predicate RivalOfAnyWidth(other: Json, doc: Json, floats: (string, string) -> string) {
    SameStream(other, doc, floats) && CellsWithout(TableOf(other, floats), ROW_SEP)
  }

  /**
   Among results of any width whose cells hold no row separator, one shares its stream with no
   result of other rows if and only if it has no row, or exactly one column, a cell without a
   cell separator and a cell that is not empty.
   */
  lemma {:induction false} ResultIsUnambiguousAcrossIff(doc: Json, floats: (string, string) -> string)
    requires ReadsAsTable(doc) && CellsWithout(TableOf(doc, floats), ROW_SEP)
    ensures (forall other :: RivalOfAnyWidth(other, doc, floats) ==> SameRows(other, doc, floats)) <==>
            TableOf(doc, floats) == [] || (|VarsOf(doc)| == 1 && ShowsOneColumn(TableOf(doc, floats)))
  {
    hide TableOf, VarsOf, ReadsAsTable, SparqlCanonical, TableStream, CellsWithout, ShowsOneColumn;
    var a := TableOf(doc, floats);
    TableIsRectangular(doc, floats);
    StreamOfTable(doc, floats);
    TableIsUnambiguousAcrossIff(a, |VarsOf(doc)|);
    if ToldApartAcross(a) {
      forall other | RivalOfAnyWidth(other, doc, floats) ensures SameRows(other, doc, floats) {
        TableIsRectangular(other, floats);
        StreamOfTable(other, floats);
      }
    } else {
      var b, l: nat :| Rectangular(b, l) && CellsWithout(b, ROW_SEP) && TableStream(b) == TableStream(a)
                       && multiset(b) != multiset(a);
      var other := EveryTableOccurs(b, l, floats);
      StreamOfTable(other, floats);
      assert RivalOfAnyWidth(other, doc, floats) && !SameRows(other, doc, floats);
    }
  }

  /** One column can pass for two. */
  lemma {:induction false} WidthsCanCollide(x: string, y: string, floats: (string, string) -> string)
      returns (a: Json, b: Json)
    ensures TableOf(a, floats) == [[x + [CELL_SEP] + y]] && TableOf(b, floats) == [[x, y]]
    ensures |VarsOf(a)| == 1 && |VarsOf(b)| == 2 && SameStream(a, b, floats) && !SameRows(a, b, floats)
  {
    hide TableOf, VarsOf, ReadsAsTable, SparqlCanonical, TableStream, Join;
    var p, q := [x + [CELL_SEP] + y], [x, y];
    TwoRowsOfOne(x, x);
    TwoRowsOfOne(x + [CELL_SEP] + y, x);
    JoinSnoc([x], y);
    assert [x] + [y] == q;
    TableStreamOne(p);
    TableStreamOne(q);
    WidthsDiffer([p], 1, [q], 2);
    a := EveryTableOccurs([p], 1, floats);
    b := EveryTableOccurs([q], 2, floats);
    StreamOfTable(a, floats);
    StreamOfTable(b, floats);
  }

  /**
   The column names are not part of what is hashed: a result whose columns are renamed in an
   order-preserving way has the same canonical form.
   */
  lemma {:induction false} ColumnNamesAreForgotten(
      columns: seq<string>, renamed: seq<string>, table: seq<seq<string>>, floats: (string, string) -> string)
    requires Sorted(columns, LexLeq) && Distinct(columns) && Sorted(renamed, LexLeq) && Distinct(renamed)
    requires |renamed| == |columns| && forall i :: 0 <= i < |table| ==> |table[i]| == |columns|
    ensures SparqlCanonical(SelectResult(columns, BindingsFor(columns, table)), floats)
            == SparqlCanonical(SelectResult(renamed, BindingsFor(renamed, table)), floats)
  {
    hide TableOf, SelectResult, AskOf, BindingsOf, LexLeq;
    SelectResultParts(columns, BindingsFor(columns, table));
    SelectResultParts(renamed, BindingsFor(renamed, table));
    SelectResultHasTable(columns, table, floats);
    SelectResultHasTable(renamed, table, floats);
  }

  // ------------------------------------------------------------------
  // Documents of no recognized shape
  // ------------------------------------------------------------------

  /** A graph is a node array, bare or under `@graph`. */
  predicate IsGraph(doc: Json) {
    doc.Array? || AsArray(Get(doc, "@graph")).Some?
  }

  predicate IsAsk(doc: Json) {
    AskOf(doc).Some?
  }

  /** An RDF term: an object with a known `type` and a string `value`. */
  predicate IsTerm(cell: Json) {
    && AsString(Get(cell, "value")).Some?
    && AsString(Get(cell, "type")).Some?
    && AsString(Get(cell, "type")).value in {"uri", "bnode", "literal", "typed-literal"}
  }

  /** A solution binds listed variables to terms. */
  predicate IsBinding(vars: seq<string>, binding: Json) {
    binding.Object? && forall m :: m in binding.members ==> m.key in vars && IsTerm(m.value)
  }

  predicate HasHead(doc: Json) {
    var vars := AsArray(GetIn(Get(doc, "head"), "vars"));
    vars.Some? && forall v :: v in vars.value ==> v.String?
  }

  /** A table as section 3 of SPARQL 1.1 Query Results JSON Format defines it. */
  predicate IsTable(doc: Json) {
    && HasHead(doc) && BindingsOf(doc).Some?
    && forall b :: b in BindingsOf(doc).value ==> IsBinding(VarsOf(doc), b)
  }

  predicate WellShaped(doc: Json) {
    IsGraph(doc) || IsAsk(doc) || IsTable(doc)
  }

  /** Exactly which documents are refused; a well-shaped one never is. */
  lemma RefusedIff(doc: Json, text: Json -> string, floats: (string, string) -> string)
    ensures Canonicalized(doc, text, floats).Refused? <==>
            !doc.Array? && Get(doc, "@graph").None? && AskOf(doc).None? && BindingsOf(doc).None?
    ensures WellShaped(doc) ==> Canonicalized(doc, text, floats).Ok?
  {
    hide Finished, TableOf, VarsOf, Get;
  }

  /**
   A document of no recognized shape is an error exactly when it has neither an `@graph` nor a
   `results.bindings` array. The others are accepted: a non-array `@graph`, a table without a
   proper head, and a table with an improper binding.
   */
  lemma MalformedIsAcceptedIff(doc: Json, text: Json -> string, floats: (string, string) -> string)
    ensures Canonicalized(doc, text, floats).Ok? && !WellShaped(doc) <==>
            && !doc.Array? && AskOf(doc).None?
            && (|| (Get(doc, "@graph").Some? && !Get(doc, "@graph").value.Array? && !IsTable(doc))
                || (Get(doc, "@graph").None? && BindingsOf(doc).Some?
                    && (!HasHead(doc) || exists b :: b in BindingsOf(doc).value && !IsBinding(VarsOf(doc), b))))
  {
    RefusedIff(doc, text, floats);
    hide Finished, TableOf, VarsOf, Get, IsBinding, HasHead;
  }

  /** What such a document is read as: a non-array `@graph` hides the whole document. */
  lemma NonArrayGraphReadsAsEmpty(doc: Json, text: Json -> string, floats: (string, string) -> string)
    requires Get(doc, "@graph").Some? && !Get(doc, "@graph").value.Array?
    ensures Canonicalized(doc, text, floats) == Ok(Finished([]))
    ensures Finished([]).rows == 0 && Finished([]).stream == ""
  {
    hide Get, SortItems, Sort, Finished;
    assert !doc.Array? by { OnlyObjectsHaveMembers(doc, "@graph"); }
    EmptyResult(text);
  }

  lemma OnlyObjectsHaveMembers(doc: Json, key: string)
    requires Get(doc, key).Some?
    ensures doc.Object?
  {
  }

  lemma EmptyResult(text: Json -> string)
    ensures Map(text, SortItems([])) == []
    ensures Finished([]) == Canonical(0, "", [])
  {
    assert Sort<string>([], LexLeq) == [];
    assert Stream([]) == [];
  }

  /** A binding counts only through the listed variables. */
  lemma {:induction false} OnlyListedColumnsCount(
      a: Json, b: Json, columns: seq<string>, floats: (string, string) -> string)
    requires forall c :: c in columns ==> CanonicalCell(Get(a, c), floats) == CanonicalCell(Get(b, c), floats)
    ensures CellsOf(columns, floats)(a) == CellsOf(columns, floats)(b)
  {
    hide Map, CanonicalCell;
    var xs, ys := CellsOf(columns, floats)(a), CellsOf(columns, floats)(b);
    forall i | 0 <= i < |columns| ensures xs[i] == ys[i] {
      assert columns[i] in columns;
    }
  }

  /** The bindings read alike in every listed variable. */
  ghost predicate ReadAlike(columns: seq<string>, xs: seq<Json>, ys: seq<Json>, floats: (string, string) -> string) {
    && |xs| == |ys|
    && forall i, c :: 0 <= i < |xs| && c in columns ==>
         CanonicalCell(Get(xs[i], c), floats) == CanonicalCell(Get(ys[i], c), floats)
  }

  /** Results whose bindings read alike in the listed variables have one canonical form, whatever else they hold. */
  lemma {:induction false} BindingsReadAlike(
      columns: seq<string>, xs: seq<Json>, ys: seq<Json>, floats: (string, string) -> string)
    requires ReadAlike(columns, xs, ys, floats)
    ensures SameStream(SelectResult(columns, xs), SelectResult(columns, ys), floats)
    ensures TableOf(SelectResult(columns, xs), floats) == TableOf(SelectResult(columns, ys), floats)
  {
    SelectResultParts(columns, xs);
    SelectResultParts(columns, ys);
    hide SelectResult, VarsOf, BindingsOf, AskOf, Get, Map, CanonicalCell, Sort, Finished;
    var sorted := Sort(columns, LexLeq);
    SameElements(columns, sorted);
    forall i | 0 <= i < |xs| ensures CellsOf(sorted, floats)(xs[i]) == CellsOf(sorted, floats)(ys[i]) {
      OnlyListedColumnsCount(xs[i], ys[i], sorted, floats);
    }
    assert Table(xs, sorted, floats) == Table(ys, sorted, floats);
  }

  /** What improper input reads as: a non-object binds nothing, and a non-object cell is an empty literal. */
  lemma ImproperReadsAs(binding: Json, c: string, cell: Json, floats: (string, string) -> string)
    requires !binding.Object? && !cell.Object?
    ensures Get(binding, c) == None && Get(Object([]), c) == None
    ensures CanonicalCell(Some(cell), floats) == CanonicalCell(Some(PlainCell("")), floats) == ""
  {
    hide PlainCell;
    PlainCellReads("", floats);
  }

  /** A document of no recognized shape is accepted with the stream of a well-shaped one. */
  ghost predicate PassesFor(bad: Json, good: Json, text: Json -> string, floats: (string, string) -> string) {
    !WellShaped(bad) && WellShaped(good) && Canonicalized(bad, text, floats).Ok? && SameStream(bad, good, floats)
  }

  /** Under a proper head, anything that is not an object passes for a solution without bindings. */
  lemma {:induction false} ImproperBindingPasses(
      c: string, binding: Json, text: Json -> string, floats: (string, string) -> string)
    requires !binding.Object?
    ensures PassesFor(SelectResult([c], [binding]), SelectResult([c], [Object([])]), text, floats)
  {
    hide SelectResult, WellShaped, Canonicalized, SameStream, CanonicalCell, Get;
    ImproperReadsAs(binding, c, binding, floats);
    BindingsReadAlike([c], [binding], [Object([])], floats);
    ShapeOfOneBinding(c, binding, text, floats);
    ShapeOfOneBinding(c, Object([]), text, floats);
  }

  /** And a bound value that is not an object passes for an empty string. */
  lemma {:induction false} ImproperCellPasses(
      c: string, cell: Json, text: Json -> string, floats: (string, string) -> string)
    requires !cell.Object?
    ensures PassesFor(SelectResult([c], [Object([Member(c, cell)])]),
                      SelectResult([c], [Object([Member(c, PlainCell(""))])]), text, floats)
  {
    hide SelectResult, WellShaped, Canonicalized, SameStream, CanonicalCell, PlainCell, Get;
    var odd, plain := Object([Member(c, cell)]), Object([Member(c, PlainCell(""))]);
    ImproperReadsAs(cell, c, cell, floats);
    GetInSingle(c, cell, c);
    GetInSingle(c, PlainCell(""), c);
    BindingsReadAlike([c], [odd], [plain], floats);
    ShapeOfOneBinding(c, odd, text, floats);
    ShapeOfOneBinding(c, plain, text, floats);
    PlainCellIsTerm("");
    assert !IsTerm(cell) by { NoMembers(cell, "value"); }
    assert Member(c, cell) in odd.members;
  }

  lemma NoMembers(v: Json, key: string)
    requires !v.Object?
    ensures Get(v, key) == None
  {
  }

  lemma PlainCellIsTerm(x: string)
    ensures IsTerm(PlainCell(x))
  {
    hide Get;
    GetInPair("type", String("literal"), "value", String(x), "type");
    GetInPair("type", String("literal"), "value", String(x), "value");
  }

  lemma ShapeOfOneBinding(c: string, b: Json, text: Json -> string, floats: (string, string) -> string)
    ensures WellShaped(SelectResult([c], [b])) <==> IsBinding([c], b)
    ensures Canonicalized(SelectResult([c], [b]), text, floats).Ok?
  {
    var doc := SelectResult([c], [b]);
    SelectResultParts([c], [b]);
    SelectResultHasHead([c], [b]);
    hide SelectResult, VarsOf, BindingsOf, AskOf, Get, Finished, IsBinding, TableOf, HasHead;
    assert b in [b];
    assert AsArray(Get(doc, "@graph")) == None;
  }

  lemma SelectResultHasHead(columns: seq<string>, bindings: seq<Json>)
    ensures HasHead(SelectResult(columns, bindings))
  {
    hide Get, Map;
    var vars := Array(Map((c: string) => String(c), columns));
    var head, results := Object([Member("vars", vars)]), Object([Member("bindings", Array(bindings))]);
    GetInPair("head", head, "results", results, "head");
    GetInSingle("vars", vars, "vars");
  }

  /** Without variables every binding is the empty row: the stream is one separator per binding. */
  lemma {:induction false} HeadlessTableCountsRows(doc: Json, floats: (string, string) -> string)
    requires ReadsAsTable(doc) && VarsOf(doc) == []
    ensures SparqlCanonical(doc, floats).value.rows == |BindingsOf(doc).value|
    ensures SparqlCanonical(doc, floats).value.stream == seq(|BindingsOf(doc).value|, _ => ROW_SEP)
  {
    hide Sort, VarsOf, BindingsOf, AskOf, Get, TableStream;
    TableIsRectangular(doc, floats);
    StreamOfTable(doc, floats);
    NoColumnsStream(TableOf(doc, floats));
  }

  /** So two headless results pass for one another exactly when they have as many bindings, whatever these hold. */
  lemma {:induction false} HeadlessTablesCollideIff(a: Json, b: Json, floats: (string, string) -> string)
    requires ReadsAsTable(a) && ReadsAsTable(b) && VarsOf(a) == [] && VarsOf(b) == []
    ensures SparqlCanonical(a, floats).value.stream == SparqlCanonical(b, floats).value.stream <==>
            |BindingsOf(a).value| == |BindingsOf(b).value|
  {
    HeadlessTableCountsRows(a, floats);
    HeadlessTableCountsRows(b, floats);
    hide SparqlCanonical, BindingsOf, VarsOf, ReadsAsTable;
    var m, n := |BindingsOf(a).value|, |BindingsOf(b).value|;
    assert |seq(m, _ => ROW_SEP)| == m && |seq(n, _ => ROW_SEP)| == n;
  }

  function HeadlessResult(bindings: seq<Json>): Json {
    Object([Member("results", Object([Member("bindings", Array(bindings))]))])
  }

  /** Such documents are malformed, and accepted: any two bindings without a head are one result. */
  lemma HeadlessResultsCollide(x: Json, y: Json, text: Json -> string, floats: (string, string) -> string)
    ensures !WellShaped(HeadlessResult([x])) && Canonicalized(HeadlessResult([x]), text, floats).Ok?
    ensures SameStream(HeadlessResult([x]), HeadlessResult([y]), floats)
  {
    HeadlessParts([x]);
    HeadlessParts([y]);
    hide HeadlessResult, SparqlCanonical, BindingsOf, VarsOf, Get, AskOf;
    MalformedIsAcceptedIff(HeadlessResult([x]), text, floats);
    StreamOfTable(HeadlessResult([x]), floats);
    StreamOfTable(HeadlessResult([y]), floats);
    HeadlessTablesCollideIff(HeadlessResult([x]), HeadlessResult([y]), floats);
  }

  lemma HeadlessParts(bindings: seq<Json>)
    ensures var doc := HeadlessResult(bindings);
            && ReadsAsTable(doc) && !HasHead(doc) && VarsOf(doc) == [] && BindingsOf(doc) == Some(bindings)
  {
    hide Get;
    var results := Object([Member("bindings", Array(bindings))]);
    GetInSingle("results", results, "@graph");
    GetInSingle("results", results, "boolean");
    GetInSingle("results", results, "head");
    GetInSingle("results", results, "results");
    GetInSingle("bindings", Array(bindings), "bindings");
  }

  /**
   A document canonicalizes to zero rows exactly when it is an empty table or an empty graph,
   or when it has an `@graph` that is not an array. The last is a malformed document that is
   accepted as an empty success.
   */
  lemma ZeroRowsIff(doc: Json, text: Json -> string, floats: (string, string) -> string)
    ensures Canonicalized(doc, text, floats).Ok? && Canonicalized(doc, text, floats).value.rows == 0 <==>
            || doc == Array([])
            || Get(doc, "@graph") == Some(Array([]))
            || (Get(doc, "@graph").Some? && !Get(doc, "@graph").value.Array?)
            || (!doc.Array? && Get(doc, "@graph").None? && AskOf(doc).None? && BindingsOf(doc) == Some([]))
  {
    hide Stream, VarsOf, Map, Find, SortItems, Sort;
  }
}

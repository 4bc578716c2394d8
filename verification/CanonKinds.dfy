/**
 The stream does not say what kind of result it came from. When an ASK answer, a table and a
 graph have one stream, and when two terms of different kinds do.
 */
module CanonKinds {
  import opened Prelude
  import opened Ordering
  import opened Json
  import opened Canon
  import opened CanonProperties
  import opened CanonAmbiguity
  import opened CanonShapes

  /** The single row of an ASK answer. */
  function AskRow(answer: bool): string {
    "BOOLEAN" + [CELL_SEP] + PrintBool(answer)
  }

  /** `canonicalize` reads the document as an ASK answer. */
  predicate ReadsAsAsk(doc: Json) {
    Get(doc, "@graph").None? && !doc.Array? && AskOf(doc).Some?
  }

  predicate ReadsAsGraph(doc: Json) {
    Get(doc, "@graph").Some? || doc.Array?
  }

  /** The stream `canonicalize` feeds to the hasher. */
  ghost function StreamOf(doc: Json, text: Json -> string, floats: (string, string) -> string): string
    requires Canonicalized(doc, text, floats).Ok?
  {
    Canonicalized(doc, text, floats).value.stream
  }

  lemma AskStream(doc: Json, text: Json -> string, floats: (string, string) -> string)
    requires ReadsAsAsk(doc)
    ensures Canonicalized(doc, text, floats).Ok?
    ensures StreamOf(doc, text, floats) == AskRow(AskOf(doc).value) + [ROW_SEP]
    ensures AskOf(doc) == Some(true) ==> AskRow(AskOf(doc).value) == "BOOLEAN" + [CELL_SEP] + "true"
    ensures AskOf(doc) == Some(false) ==> AskRow(AskOf(doc).value) == "BOOLEAN" + [CELL_SEP] + "false"
  {
    hide AskOf, Get, Finished;
    StreamOne(AskRow(AskOf(doc).value));
  }

  lemma AskWords(answer: bool)
    ensures AllFree(["BOOLEAN", PrintBool(answer)], CELL_SEP)
    ensures AllFree(["BOOLEAN", PrintBool(answer)], ROW_SEP)
  {
  }

  lemma AskRowIsFree(answer: bool)
    ensures AskRow(answer) != "" && Free(AskRow(answer), ROW_SEP)
    ensures Separators(AskRow(answer)) == 1
    ensures Join(["BOOLEAN", PrintBool(answer)]) == AskRow(answer)
  {
    hide Join, AllFree, Separators, Free, PrintBool;
    var word, row := PrintBool(answer), ["BOOLEAN", PrintBool(answer)];
    AskWords(answer);
    TwoRowsOfOne("BOOLEAN", "");
    JoinSnoc(["BOOLEAN"], word);
    assert ["BOOLEAN"] + [word] == row;
    RowTextIsFree(row);
    SeparatorCount(row);
  }

  /** A stream with a single row separator comes from a single row. */
  lemma {:induction false} OneRowStream(rows: seq<string>, x: string)
    requires Free(x, ROW_SEP)
    ensures Finished(rows).stream == x + [ROW_SEP] <==> rows == [x]
  {
    hide Sort, Stream, LexLeq;
    var sorted := Sort(rows, LexLeq);
    StreamOne(x);
    if Finished(rows).stream == x + [ROW_SEP] {
      if |rows| >= 2 {
        LexIsTotalOrder();
        SortIsSorted(rows, LexLeq);
        RowsSplit(sorted, x);
      } else if rows == [] {
        StreamEndsInSeparator(sorted);
      } else {
        StreamOne(rows[0]);
        assert rows == [rows[0]];
        DropSeparator(rows[0], x);
      }
    }
  }

  /** Two ASK answers have one stream exactly when they agree. */
  lemma AskAnswersDiffer(
      a: Json, b: Json, text: Json -> string, floats: (string, string) -> string)
    requires ReadsAsAsk(a) && ReadsAsAsk(b)
    ensures Canonicalized(a, text, floats).Ok? && Canonicalized(b, text, floats).Ok?
    ensures StreamOf(a, text, floats) == StreamOf(b, text, floats) <==> AskOf(a) == AskOf(b)
  {
    AskStream(a, text, floats);
    AskStream(b, text, floats);
    hide AskOf, Get, Canonicalized;
    var p, q := AskRow(AskOf(a).value), AskRow(AskOf(b).value);
    if p + [ROW_SEP] == q + [ROW_SEP] {
      DropSeparator(p, q);
      assert p[|"BOOLEAN"| + 1] == q[|"BOOLEAN"| + 1];
    }
  }

  /**
   An ASK answer and a table have one stream exactly when the table is the answer spelled out,
   in two cells or in one.
   */
  lemma {:induction false} AskCollidesWithTableIff(
      ask: Json, table: Json, text: Json -> string, floats: (string, string) -> string)
    requires ReadsAsAsk(ask) && ReadsAsTable(table)
    ensures Canonicalized(ask, text, floats).Ok? && Canonicalized(table, text, floats).Ok?
    ensures var answer := AskOf(ask).value;
            StreamOf(ask, text, floats) == StreamOf(table, text, floats) <==>
            || TableOf(table, floats) == [["BOOLEAN", PrintBool(answer)]]
            || TableOf(table, floats) == [[AskRow(answer)]]
  {
    var answer, rows := AskOf(ask).value, Map(Join, TableOf(table, floats));
    AskStream(ask, text, floats);
    AskRowIsFree(answer);
    assert Canonicalized(table, text, floats) == Ok(Finished(rows));
    OneRowStream(rows, AskRow(answer));
    hide Canonicalized, TableOf, AskOf, Finished;
    SpellsAskRow(TableOf(table, floats), answer);
  }

  lemma {:induction false} SpellsAskRow(table: seq<seq<string>>, answer: bool)
    ensures Map(Join, table) == [AskRow(answer)] <==>
            table == [["BOOLEAN", PrintBool(answer)]] || table == [[AskRow(answer)]]
  {
    hide Map, Join, AskRow, PrintBool;
    AskRowIsFree(answer);
    TwoRowsOfOne(AskRow(answer), "");
    if |table| == 1 {
      assert table == [table[0]];
      RowSpellsAskRow(table[0], answer);
    }
  }

  lemma {:induction false} RowSpellsAskRow(row: seq<string>, answer: bool)
    ensures Join(row) == AskRow(answer) <==> row == ["BOOLEAN", PrintBool(answer)] || row == [AskRow(answer)]
  {
    hide Join, Separators, AskRow, PrintBool, AllFree;
    AskRowIsFree(answer);
    TwoRowsOfOne(AskRow(answer), "");
    EmptyTexts(row);
    if Join(row) == AskRow(answer) {
      if |row| == 1 {
        TwoRowsOfOne(row[0], "");
        assert row == [row[0]];
      } else {
        var spelled := ["BOOLEAN", PrintBool(answer)];
        SeparatorCount(row);
        SeparatorCount(spelled);
        JoinIsInjective(row, spelled);
      }
    }
  }

  /** The texts of a graph's nodes. */
  ghost function NodeTexts(doc: Json, text: Json -> string): seq<string> {
    Map(text, SortItems(NodesOf(doc)))
  }

  /** An ASK answer and a graph have one stream exactly when the graph is one node with that text. */
  lemma {:induction false} AskCollidesWithGraphIff(
      ask: Json, graph: Json, text: Json -> string, floats: (string, string) -> string)
    requires ReadsAsAsk(ask) && ReadsAsGraph(graph)
    ensures Canonicalized(ask, text, floats).Ok? && Canonicalized(graph, text, floats).Ok?
    ensures StreamOf(ask, text, floats) == StreamOf(graph, text, floats) <==>
            NodeTexts(graph, text) == [AskRow(AskOf(ask).value)]
  {
    AskStream(ask, text, floats);
    AskRowIsFree(AskOf(ask).value);
    hide Get, AskOf, NodesOf, SortItems, Map, Finished, SparqlCanonical;
    OneRowStream(NodeTexts(graph, text), AskRow(AskOf(ask).value));
  }

  lemma {:induction false} FreeRowsDetermined(p: seq<string>, q: seq<string>)
    requires RowsFree(p) && RowsFree(q)
    ensures Finished(p).stream == Finished(q).stream <==> multiset(p) == multiset(q)
  {
    hide Stream, Sort;
    FinishForgetsExactlyOrder(p, q);
    if Finished(p).stream == Finished(q).stream {
      SortedRowsFree(p);
      SortedRowsFree(q);
      StreamIsInjective(Sort(p, LexLeq), Sort(q, LexLeq));
    }
  }

  lemma {:induction false} SortedRowsFree(rows: seq<string>)
    requires RowsFree(rows)
    ensures RowsFree(Sort(rows, LexLeq))
  {
    hide Sort;
    var sorted := Sort(rows, LexLeq);
    SameElements(rows, sorted);
    forall i | 0 <= i < |sorted| ensures Free(sorted[i], ROW_SEP) {
      assert sorted[i] in rows;
    }
  }

  /**
   A graph and a table, neither with row separators in its texts, have one stream exactly when
   the rows spell the node texts.
   */
  lemma {:induction false} GraphCollidesWithTableIff(
      graph: Json, table: Json, text: Json -> string, floats: (string, string) -> string)
    requires ReadsAsGraph(graph) && ReadsAsTable(table)
    requires RowsFree(NodeTexts(graph, text)) && CellsWithout(TableOf(table, floats), ROW_SEP)
    ensures Canonicalized(graph, text, floats).Ok? && Canonicalized(table, text, floats).Ok?
    ensures StreamOf(graph, text, floats) == StreamOf(table, text, floats) <==>
            multiset(NodeTexts(graph, text)) == multiset(Map(Join, TableOf(table, floats)))
  {
    hide Get, AskOf, BindingsOf, NodesOf, SortItems, Map, Finished, TableOf, Join;
    var rows := Map(Join, TableOf(table, floats));
    assert Canonicalized(table, text, floats) == Ok(Finished(rows));
    forall i | 0 <= i < |rows| ensures Free(rows[i], ROW_SEP) {
      assert TableOf(table, floats)[i] in TableOf(table, floats);
      RowTextIsFree(TableOf(table, floats)[i]);
    }
    FreeRowsDetermined(NodeTexts(graph, text), rows);
  }

  ghost function OneCell(x: string): seq<string> {
    [x]
  }

  /** So every graph has a one-column table as its twin. */
  lemma {:induction false} EveryGraphHasTwin(graph: Json, text: Json -> string, floats: (string, string) -> string)
      returns (table: Json)
    requires ReadsAsGraph(graph)
    ensures ReadsAsTable(table) && Canonicalized(graph, text, floats).Ok? && Canonicalized(table, text, floats).Ok?
    ensures StreamOf(graph, text, floats) == StreamOf(table, text, floats)
  {
    hide Get, AskOf, BindingsOf, NodesOf, SortItems, Map, TableOf, Finished, VarsOf;
    var texts := NodeTexts(graph, text);
    var cells := Map(OneCell, texts);
    forall row | row in cells ensures |row| == 1 {
      var i :| 0 <= i < |cells| && cells[i] == row;
    }
    forall i | 0 <= i < |texts| ensures Map(Join, cells)[i] == texts[i] {
      TwoRowsOfOne(texts[i], "");
    }
    assert Map(Join, cells) == texts;
    table := EveryTableOccurs(cells, 1, floats);
    assert Canonicalized(table, text, floats) == Ok(Finished(Map(Join, TableOf(table, floats))));
  }

  // ------------------------------------------------------------------
  // Terms
  // ------------------------------------------------------------------

  /** The cell of the only column of the only row. */
  function OneTermResult(c: string, cell: Json): Json {
    SelectResult([c], [Object([Member(c, cell)])])
  }

  /** A plain literal can spell a language-tagged one: two results with different terms have one stream. */
  lemma {:induction false} TagsCanCollide(c: string, x: string, l: string, floats: (string, string) -> string)
    requires Denotable(Literal(x, Some(l)))
    ensures var spelled := x + [LANG_SEP] + "@" + l;
            var tagged, plain := CellDenoting(Literal(x, Some(l))).value, CellDenoting(Literal(spelled, None)).value;
            && TermOf(Some(tagged), floats) == Literal(x, Some(l))
            && TermOf(Some(plain), floats) == Literal(spelled, None)
            && SameStream(OneTermResult(c, tagged), OneTermResult(c, plain), floats)
  {
    var spelled := x + [LANG_SEP] + "@" + l;
    var a, b := CellDenoting(Literal(x, Some(l))), CellDenoting(Literal(spelled, None));
    DenotedByItsCell(Literal(x, Some(l)), floats);
    DenotedByItsCell(Literal(spelled, None), floats);
    assert CanonicalCell(a, floats) == CanonicalCell(b, floats);
    hide CellDenoting, TermOf, CanonicalCell, Get, SelectResult, SameStream;
    GetInSingle(c, a.value, c);
    GetInSingle(c, b.value, c);
    BindingsReadAlike([c], [Object([Member(c, a.value)])], [Object([Member(c, b.value)])], floats);
  }
}

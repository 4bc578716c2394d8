/**
 The stream does not say how many columns a result has. Which tables it still determines when
 tables of other widths are possible.
 */
module CanonColumns {
  import opened Ordering
  import opened Canon
  import opened CanonProperties
  import opened CanonAmbiguity

  // ------------------------------------------------------------------
  // Rewriting a table to another width
  // ------------------------------------------------------------------

  /** Row by row the same text in `l` cells. */
  ghost predicate Rewrites(f: seq<string> -> seq<string>, a: seq<seq<string>>, l: nat) {
    forall row :: row in a ==> |f(row)| == l && Join(f(row)) == Join(row)
  }

  lemma {:induction false} RewrittenRow(f: seq<string> -> seq<string>, a: seq<seq<string>>, row: seq<string>)
      returns (source: seq<string>)
    requires row in Map(f, a)
    ensures source in a && row == f(source)
  {
    hide Map;
    var i :| 0 <= i < |a| && Map(f, a)[i] == row;
    source := a[i];
  }

  lemma {:induction false} RewrittenTable(a: seq<seq<string>>, k: nat, f: seq<string> -> seq<string>, l: nat)
    requires Rectangular(a, k) && a != [] && k != l && Rewrites(f, a, l)
    ensures Rectangular(Map(f, a), l) && TableStream(Map(f, a)) == TableStream(a)
    ensures multiset(Map(f, a)) != multiset(a)
    ensures CellsWithout(a, ROW_SEP) ==> CellsWithout(Map(f, a), ROW_SEP)
  {
    hide Map, Join, Stream, Sort, AllFree;
    var b := Map(f, a);
    forall i | 0 <= i < |a| ensures Map(Join, b)[i] == Map(Join, a)[i] {
      assert a[i] in a;
    }
    assert Map(Join, b) == Map(Join, a);
    forall row | row in b ensures |row| == l && (CellsWithout(a, ROW_SEP) ==> AllFree(row, ROW_SEP)) {
      var source := RewrittenRow(f, a, row);
      if CellsWithout(a, ROW_SEP) {
        RowTextIsFree(source);
        JoinKeepsSeparators(row);
      }
    }
    WidthsDiffer(a, k, b, l);
  }

  lemma WidthsDiffer(a: seq<seq<string>>, k: nat, b: seq<seq<string>>, l: nat)
    requires Rectangular(a, k) && Rectangular(b, l) && a != [] && k != l
    ensures multiset(b) != multiset(a)
  {
    assert a[0] in a;
    if multiset(b) == multiset(a) {
      SameElements(a, b);
    }
  }

  ghost function InOneColumn(row: seq<string>): seq<string> {
    [Join(row)]
  }

  ghost function InNoColumn(row: seq<string>): seq<string> {
    []
  }

  /** A single cell cut in two at a separator, if it holds one. */
  ghost function InTwoColumns(row: seq<string>): seq<string> {
    if |row| == 1 && !Free(row[0], CELL_SEP) then
      var i :| 0 <= i < |row[0]| && row[0][i] == CELL_SEP;
      [row[0][..i], row[0][i + 1..]]
    else row
  }

  lemma OneColumnRewrites(a: seq<seq<string>>)
    ensures Rewrites(InOneColumn, a, 1)
  {
  }

  lemma NoColumnRewrites(a: seq<seq<string>>)
    requires forall row :: row in a ==> row == [""]
    ensures Rewrites(InNoColumn, a, 0)
  {
  }

  lemma CutRow(row: seq<string>)
    requires |row| == 1 && !Free(row[0], CELL_SEP)
    ensures |InTwoColumns(row)| == 2 && Join(InTwoColumns(row)) == Join(row)
  {
    var cells := InTwoColumns(row);
    assert row[0] == cells[0] + [CELL_SEP] + cells[1];
    JoinSnoc([cells[0]], cells[1]);
    assert [cells[0]] + [cells[1]] == cells;
    assert Join([cells[0]]) == cells[0];
  }

  lemma TwoColumnsRewrite(a: seq<seq<string>>)
    requires forall row :: row in a ==> |row| == 1 && !Free(row[0], CELL_SEP)
    ensures Rewrites(InTwoColumns, a, 2)
  {
    hide Join, InTwoColumns;
    forall row | row in a ensures |InTwoColumns(row)| == 2 && Join(InTwoColumns(row)) == Join(row) {
      CutRow(row);
    }
  }

  // ------------------------------------------------------------------
  // Among cells without row separators
  // ------------------------------------------------------------------

  /** No other table of any width without row separators in its cells has the stream of `a`. */
  ghost predicate ToldApartAcross(a: seq<seq<string>>) {
    forall b, l: nat :: Rectangular(b, l) && CellsWithout(b, ROW_SEP) && TableStream(b) == TableStream(a) ==>
      multiset(b) == multiset(a)
  }

  /** Some row holds no cell separator, and some row is not just an empty cell. */
  ghost predicate ShowsOneColumn(a: seq<seq<string>>) {
    && (exists row :: row in a && AllFree(row, CELL_SEP))
    && (exists row :: row in a && row != [""])
  }

  /**
   Among tables of any width whose cells hold no row separator, a table shares its stream with
   no other one if and only if it is empty, or has exactly one column, a row without a cell
   separator and a row that is not an empty cell. In particular every table of two or more
   columns that has a row shares its stream with a table of one column.
   */
  lemma {:induction false} TableIsUnambiguousAcrossIff(a: seq<seq<string>>, k: nat)
    requires Rectangular(a, k) && CellsWithout(a, ROW_SEP)
    ensures ToldApartAcross(a) <==> a == [] || (k == 1 && ShowsOneColumn(a))
  {
    hide TableStream, Join, ShowsOneColumn, AllFree;
    if a == [] || (k == 1 && ShowsOneColumn(a)) {
      forall b, l: nat | Rectangular(b, l) && CellsWithout(b, ROW_SEP) && TableStream(b) == TableStream(a)
        ensures multiset(b) == multiset(a)
      {
        OnlyOneWidth(a, b, k, l);
      }
    } else {
      var b, l := OtherWidth(a, k);
    }
  }

  lemma {:induction false} OtherWidth(a: seq<seq<string>>, k: nat) returns (b: seq<seq<string>>, l: nat)
    requires Rectangular(a, k) && CellsWithout(a, ROW_SEP) && a != [] && !(k == 1 && ShowsOneColumn(a))
    ensures Rectangular(b, l) && CellsWithout(b, ROW_SEP)
    ensures TableStream(b) == TableStream(a) && multiset(b) != multiset(a)
  {
    hide TableStream, Join, Rewrites, InTwoColumns;
    if k != 1 {
      l := 1;
      OneColumnRewrites(a);
      b := Map(InOneColumn, a);
      RewrittenTable(a, k, InOneColumn, 1);
    } else if forall row :: row in a ==> row == [""] {
      l := 0;
      NoColumnRewrites(a);
      b := Map(InNoColumn, a);
      RewrittenTable(a, k, InNoColumn, 0);
    } else {
      l := 2;
      forall row | row in a ensures |row| == 1 && !Free(row[0], CELL_SEP) {
        assert !AllFree(row, CELL_SEP);
      }
      TwoColumnsRewrite(a);
      b := Map(InTwoColumns, a);
      RewrittenTable(a, k, InTwoColumns, 2);
    }
  }

  lemma {:induction false} OnlyOneWidth(a: seq<seq<string>>, b: seq<seq<string>>, k: nat, l: nat)
    requires Rectangular(a, k) && CellsWithout(a, ROW_SEP) && Rectangular(b, l) && CellsWithout(b, ROW_SEP)
    requires TableStream(b) == TableStream(a) && (a == [] || (k == 1 && ShowsOneColumn(a)))
    ensures multiset(b) == multiset(a)
  {
    hide TableStream, Join, AllFree, CellsWithout;
    if a == [] {
      EmptyStream(b);
    } else if l == 1 {
      StreamDeterminesTable(a, b, 1);
    } else if l == 0 {
      NoColumnsCollideIff(b, a, 1);
    } else {
      var row :| row in a && AllFree(row, CELL_SEP);
      var other := RowWithText(a, b, row);
      SeparatorCount(row);
      SeparatorCount(other);
    }
  }

  /** Tables with one stream have the same row texts. */
  lemma {:induction false} RowWithText(a: seq<seq<string>>, b: seq<seq<string>>, row: seq<string>)
      returns (other: seq<string>)
    requires CellsWithout(a, ROW_SEP) && CellsWithout(b, ROW_SEP) && TableStream(b) == TableStream(a) && row in a
    ensures other in b && Join(other) == Join(row)
  {
    hide Map, Join, Stream, Sort, CellsWithout;
    var p, q := Map(Join, a), Map(Join, b);
    RowTextsFree(a);
    RowTextsFree(b);
    StreamIsInjective(Sort(p, LexLeq), Sort(q, LexLeq));
    SameElements(p, q);
    var i :| 0 <= i < |a| && a[i] == row;
    assert p[i] in q;
    var j :| 0 <= j < |b| && q[j] == p[i];
    other := b[j];
  }

  // ------------------------------------------------------------------
  // Among all cells
  // ------------------------------------------------------------------

  /** No other table, of whatever width and with whatever cells, has the stream of `a`. */
  ghost predicate ToldApartFromEverything(a: seq<seq<string>>) {
    forall b, l: nat :: Rectangular(b, l) && TableStream(b) == TableStream(a) ==> multiset(b) == multiset(a)
  }

  /** A cell that is read in one way only. */
  ghost predicate CellStands(x: string) {
    x != "" && Free(x, CELL_SEP) && forall j :: !SplitsAt(x, j)
  }

  /**
   With nothing ruled out, neither widths nor cells, exactly the empty table and some tables of
   one cell are determined by their stream.
   */
  lemma {:induction false} AnyTableIsUnambiguousAcrossIff(a: seq<seq<string>>, k: nat)
    requires Rectangular(a, k)
    ensures ToldApartFromEverything(a) <==> a == [] || (k == 1 && |a| == 1 && CellStands(a[0][0]))
  {
    hide TableStream, Join, CellStands;
    if a == [] || (k == 1 && |a| == 1 && CellStands(a[0][0])) {
      forall b, l: nat | Rectangular(b, l) && TableStream(b) == TableStream(a) ensures multiset(b) == multiset(a) {
        OnlyReadingAcross(a, b, k, l);
      }
    } else {
      var b, l := OtherReadingAcross(a, k);
    }
  }

  lemma {:induction false} OtherReadingAcross(a: seq<seq<string>>, k: nat) returns (b: seq<seq<string>>, l: nat)
    requires Rectangular(a, k) && a != [] && (k == 1 && |a| == 1 ==> !CellStands(a[0][0]))
    ensures Rectangular(b, l) && TableStream(b) == TableStream(a) && multiset(b) != multiset(a)
  {
    hide TableStream, Join, Rewrites, InTwoColumns, OneRowStands;
    assert a[0] in a;
    if k != 1 {
      l := 1;
      OneColumnRewrites(a);
      b := Map(InOneColumn, a);
      RewrittenTable(a, k, InOneColumn, 1);
    } else if |a| >= 2 {
      l := 1;
      b := AnotherReading(a, k);
    } else if a[0][0] == "" {
      l := 0;
      assert a[0] == [""];
      NoColumnRewrites(a);
      b := Map(InNoColumn, a);
      RewrittenTable(a, k, InNoColumn, 0);
    } else if !Free(a[0][0], CELL_SEP) {
      l := 2;
      TwoColumnsRewrite(a);
      b := Map(InTwoColumns, a);
      RewrittenTable(a, k, InTwoColumns, 2);
    } else {
      l := 1;
      SplitCellFalls(a[0]);
      b := AnotherReading(a, k);
    }
  }

  lemma SplitCellFalls(row: seq<string>)
    requires |row| == 1 && exists j :: SplitsAt(row[0], j)
    ensures !OneRowStands(row)
  {
  }

  lemma {:induction false} OnlyReadingAcross(a: seq<seq<string>>, b: seq<seq<string>>, k: nat, l: nat)
    requires Rectangular(a, k) && Rectangular(b, l) && TableStream(b) == TableStream(a)
    requires a == [] || (k == 1 && |a| == 1 && CellStands(a[0][0]))
    ensures multiset(b) == multiset(a)
  {
    hide TableStream, Join;
    if a == [] {
      EmptyStream(b);
    } else if l == 1 {
      OnlyReading(a, b, 1);
    } else {
      var x := a[0][0];
      assert a[0] in a && a[0] == [x] && a == [[x]];
      TableStreamOne([x]);
      assert Join([x]) == x by { TwoRowsOfOne(x, x); }
      if l == 0 {
        NoColumnsSpell(b, x);
      } else {
        ColumnsSpellSeparator(b, l, x);
      }
    }
  }

  /** A table without columns spells row separators only, which split. */
  lemma {:induction false} NoColumnsSpell(b: seq<seq<string>>, x: string)
    requires Rectangular(b, 0) && TableStream(b) == x + [ROW_SEP] && x != ""
    ensures SplitsAt(x, 0)
  {
    var stream := TableStream(b);
    NoColumnsStream(b);
    hide TableStream;
    assert x[0] == stream[0];
    assert x[..0] == [];
  }

  lemma {:induction false} NoColumnsStream(b: seq<seq<string>>)
    requires Rectangular(b, 0)
    ensures TableStream(b) == seq(|b|, _ => ROW_SEP)
  {
    hide Join, Sort, Map;
    var sorted := Sort(Map(Join, b), LexLeq);
    forall i | 0 <= i < |sorted| ensures sorted[i] == [] {
      var row := SomeRow(b, i);
      EmptyTexts(row);
    }
    EmptyRowsStream(sorted);
  }

  lemma {:induction false} EmptyRowsStream(rows: seq<string>)
    requires forall i :: 0 <= i < |rows| ==> rows[i] == []
    ensures Stream(rows) == seq(|rows|, _ => ROW_SEP)
  {
    if rows != [] {
      StreamSnoc(rows);
      hide Stream;
      EmptyRowsStream(rows[..|rows| - 1]);
    }
  }

  /** A row of two or more columns brings a cell separator into the stream. */
  lemma {:induction false} ColumnsSpellSeparator(b: seq<seq<string>>, l: nat, x: string)
    requires Rectangular(b, l) && l >= 2 && TableStream(b) == x + [ROW_SEP]
    ensures !Free(x, CELL_SEP)
  {
    hide Join, Stream, Sort, Separators, Map;
    var sorted := Sort(Map(Join, b), LexLeq);
    StreamEndsInSeparator(sorted);
    forall i | 0 <= i < |sorted| ensures Separators(sorted[i]) >= l - 1 {
      var row := SomeRow(b, i);
      SeparatorCount(row);
    }
    StreamSeparators(sorted, l - 1);
    NoSeparators(x);
    SeparatorsAppend([], x);
    NoSeparators([]);
    assert [] + (x + [ROW_SEP]) == x + [ROW_SEP];
  }
}

/**
 When separators inside cells make results of one width collide: exactly which rows and tables
 the stream tells apart from others with as many columns.
 */
module CanonAmbiguity {
  import opened Ordering
  import opened Canon
  import opened CanonProperties

  // ------------------------------------------------------------------
  // One row
  // ------------------------------------------------------------------

  lemma JoinShiftLast(before: seq<string>, x: string, y: string, z: string)
    ensures Join(before + [x + [CELL_SEP] + y] + [z]) == Join(before + [x] + [y + [CELL_SEP] + z])
  {
    JoinSnoc(before, x + [CELL_SEP] + y);
    JoinSnoc(before, x);
    JoinSnoc(before + [x + [CELL_SEP] + y], z);
    JoinSnoc(before + [x], y + [CELL_SEP] + z);
    hide Join;
    var s := [CELL_SEP];
    var p := if before == [] then [] else Join(before) + s;
    assert Join(before + [x + s + y]) == p + (x + s + y) && Join(before + [x]) == p + x;
    assert p + (x + s + y) + s + z == p + x + s + (y + s + z);
  }

  /** Rows with one text keep having one when the same cells follow. */
  lemma {:induction false} JoinCongruence(a: seq<string>, b: seq<string>, after: seq<string>)
    requires a != [] && b != [] && Join(a) == Join(b)
    ensures Join(a + after) == Join(b + after)
  {
    hide Join;
    if after == [] {
      assert a + after == a && b + after == b;
    } else {
      var n := |after| - 1;
      JoinCongruence(a, b, after[..n]);
      JoinSnoc(a + after[..n], after[n]);
      JoinSnoc(b + after[..n], after[n]);
      assert a + after == a + after[..n] + [after[n]];
      assert b + after == b + after[..n] + [after[n]];
    }
  }

  /** A separator inside a cell can be taken for the one after it. */
  lemma JoinShift(before: seq<string>, x: string, y: string, z: string, after: seq<string>)
    ensures Join(before + [x + [CELL_SEP] + y] + [z] + after) == Join(before + [x] + [y + [CELL_SEP] + z] + after)
  {
    hide Join;
    JoinShiftLast(before, x, y, z);
    JoinCongruence(before + [x + [CELL_SEP] + y] + [z], before + [x] + [y + [CELL_SEP] + z], after);
  }

  lemma {:induction false} SeparatorInCellIsAmbiguous(row: seq<string>, i: nat) returns (other: seq<string>)
    requires |row| >= 2 && i < |row| && !Free(row[i], CELL_SEP)
    ensures |other| == |row| && other != row && Join(other) == Join(row)
  {
    hide Join;
    var k :| 0 <= k < |row[i]| && row[i][k] == CELL_SEP;
    var x, y := row[i][..k], row[i][k + 1..];
    assert row[i] == x + [CELL_SEP] + y;
    if i + 1 < |row| {
      JoinShift(row[..i], x, y, row[i + 1], row[i + 2..]);
      assert row == row[..i] + [row[i]] + [row[i + 1]] + row[i + 2..];
      other := row[..i] + [x] + [y + [CELL_SEP] + row[i + 1]] + row[i + 2..];
    } else {
      JoinShift(row[..i - 1], row[i - 1], x, y, []);
      assert row == row[..i - 1] + [row[i - 1]] + [row[i]] + [];
      other := row[..i - 1] + [row[i - 1] + [CELL_SEP] + x] + [y] + [];
    }
    assert |other[i]| < |row[i]|;
  }

  /**
   A joined row is read back as no other row of as many columns if and only if it has at most
   one column or no cell holds the separator.
   */
  lemma {:induction false} RowIsUnambiguousIff(row: seq<string>)
    ensures (forall other :: |other| == |row| && Join(other) == Join(row) ==> other == row)
            <==> |row| <= 1 || AllFree(row, CELL_SEP)
  {
    if |row| > 1 && !AllFree(row, CELL_SEP) {
      var i :| 0 <= i < |row| && !Free(row[i], CELL_SEP);
      var other := SeparatorInCellIsAmbiguous(row, i);
    } else if |row| > 1 {
      hide Join;
      forall other | |other| == |row| && Join(other) == Join(row) ensures other == row {
        SeparatorCount(row);
        SeparatorCount(other);
        JoinIsInjective(row, other);
      }
    }
  }

  // ------------------------------------------------------------------
  // Tables whose cells hold no row separator
  // ------------------------------------------------------------------

  ghost predicate Rectangular(table: seq<seq<string>>, k: nat) {
    forall row :: row in table ==> |row| == k
  }

  ghost predicate CellsWithout(table: seq<seq<string>>, sep: char) {
    forall row :: row in table ==> AllFree(row, sep)
  }

  lemma {:induction false} JoinKeepsSeparators(cells: seq<string>)
    requires Free(Join(cells), ROW_SEP)
    ensures AllFree(cells, ROW_SEP)
  {
    if cells != [] {
      var n := |cells| - 1;
      assert cells == cells[..n] + [cells[n]];
      JoinSnoc(cells[..n], cells[n]);
      AllFreeSnoc(cells[..n], cells[n], ROW_SEP);
      hide Join;
      if n > 0 {
        assert Join(cells) == Join(cells[..n]) + [CELL_SEP] + cells[n];
        JoinKeepsSeparators(cells[..n]);
      }
    }
  }

  /** Replacing a row by another with the same text keeps the stream and changes the table. */
  lemma SameTextSameStream(table: seq<seq<string>>, i: nat, other: seq<string>)
    requires i < |table| && other != table[i] && Join(other) == Join(table[i])
    ensures TableStream(table[i := other]) == TableStream(table)
    ensures multiset(table[i := other]) != multiset(table)
  {
    hide Join, Stream, Sort;
    assert Map(Join, table[i := other]) == Map(Join, table);
    assert multiset(table[i := other])[other] == multiset(table)[other] + 1;
  }

  lemma {:induction false} RowTextsFree(table: seq<seq<string>>)
    requires CellsWithout(table, ROW_SEP)
    ensures RowsFree(Sort(Map(Join, table), LexLeq))
  {
    hide Map, Join, Sort;
    var rows := Map(Join, table);
    var sorted := Sort(rows, LexLeq);
    SameElements(rows, sorted);
    forall i | 0 <= i < |sorted| ensures Free(sorted[i], ROW_SEP) {
      assert sorted[i] in rows;
      var j :| 0 <= j < |rows| && rows[j] == sorted[i];
      assert table[j] in table;
      RowTextIsFree(table[j]);
    }
  }

  lemma {:induction false} RowTextIsFree(cells: seq<string>)
    requires AllFree(cells, ROW_SEP)
    ensures Free(Join(cells), ROW_SEP)
  {
    if |cells| >= 2 {
      RowTextIsFree(cells[..|cells| - 1]);
    }
  }

  /** No other table of `k` columns without row separators in its cells has the stream of `a`. */
  ghost predicate ToldApart(a: seq<seq<string>>, k: nat) {
    forall b :: Rectangular(b, k) && CellsWithout(b, ROW_SEP) && TableStream(b) == TableStream(a) ==>
      multiset(b) == multiset(a)
  }

  /**
   Among tables of `k` columns whose cells hold no row separator, a table shares its stream
   with no other one if and only if there is at most one column or no cell holds the cell
   separator.
   */
  lemma {:induction false} TableIsUnambiguousIff(a: seq<seq<string>>, k: nat)
    requires Rectangular(a, k) && CellsWithout(a, ROW_SEP)
    ensures ToldApart(a, k) <==> k <= 1 || CellsWithout(a, CELL_SEP)
  {
    hide TableStream, Join;
    if k <= 1 || CellsWithout(a, CELL_SEP) {
      forall b | Rectangular(b, k) && CellsWithout(b, ROW_SEP) && TableStream(b) == TableStream(a)
        ensures multiset(b) == multiset(a)
      {
        StreamDeterminesTable(a, b, k);
      }
    } else {
      var b := CollidingTable(a, k);
    }
  }

  lemma {:induction false} StreamDeterminesTable(a: seq<seq<string>>, b: seq<seq<string>>, k: nat)
    requires Rectangular(a, k) && CellsWithout(a, ROW_SEP) && Rectangular(b, k) && CellsWithout(b, ROW_SEP)
    requires TableStream(b) == TableStream(a) && (k <= 1 || CellsWithout(a, CELL_SEP))
    ensures multiset(b) == multiset(a)
  {
    hide Map, Join, Stream, Sort;
    var p, q := Map(Join, a), Map(Join, b);
    RowTextsFree(a);
    RowTextsFree(b);
    StreamIsInjective(Sort(p, LexLeq), Sort(q, LexLeq));
    forall x, y | x in a && y in b && Join(x) == Join(y) ensures x == y {
      RowIsUnambiguousIff(x);
    }
    MapDetermines(Join, a, b);
  }

  lemma {:induction false} CollidingTable(a: seq<seq<string>>, k: nat) returns (b: seq<seq<string>>)
    requires Rectangular(a, k) && CellsWithout(a, ROW_SEP) && k >= 2 && !CellsWithout(a, CELL_SEP)
    ensures Rectangular(b, k) && CellsWithout(b, ROW_SEP)
    ensures TableStream(b) == TableStream(a) && multiset(b) != multiset(a)
  {
    hide TableStream, Join;
    var i := BadRow(a);
    var j :| 0 <= j < |a[i]| && !Free(a[i][j], CELL_SEP);
    var other := SeparatorInCellIsAmbiguous(a[i], j);
    SameTextSameStream(a, i, other);
    RowTextIsFree(a[i]);
    JoinKeepsSeparators(other);
    b := a[i := other];
    hide AllFree;
    forall row | row in b ensures |row| == k && AllFree(row, ROW_SEP) {
      assert row == other || row in a;
    }
  }

  lemma BadRow(a: seq<seq<string>>) returns (i: nat)
    requires !CellsWithout(a, CELL_SEP)
    ensures i < |a| && !AllFree(a[i], CELL_SEP)
  {
    hide AllFree;
    var row :| row in a && !AllFree(row, CELL_SEP);
    i :| 0 <= i < |a| && a[i] == row;
  }

  /**
   The case of column counts that cannot be compared: a table without columns shares its stream
   with one that has some exactly when both are empty, or the latter is one column of as many
   empty cells.
   */
  lemma {:induction false} NoColumnsCollideIff(a: seq<seq<string>>, b: seq<seq<string>>, k: nat)
    requires Rectangular(a, 0) && Rectangular(b, k) && k > 0 && CellsWithout(b, ROW_SEP)
    ensures TableStream(a) == TableStream(b) <==> |a| == |b| && forall row :: row in b ==> row == [""]
  {
    hide Join, Stream, Sort, Map;
    var p, q := Map(Join, a), Map(Join, b);
    forall i | 0 <= i < |a| ensures p[i] == "" {
      assert a[i] in a;
      EmptyTexts(a[i]);
    }
    if TableStream(a) == TableStream(b) {
      RowTextsFree(a);
      RowTextsFree(b);
      StreamIsInjective(Sort(p, LexLeq), Sort(q, LexLeq));
      SameElements(p, q);
      forall row | row in b ensures row == [""] {
        var i :| 0 <= i < |b| && b[i] == row;
        assert q[i] in p;
        EmptyTexts(row);
      }
    } else if |a| == |b| && forall row :: row in b ==> row == [""] {
      forall i | 0 <= i < |b| ensures p[i] == q[i] {
        assert b[i] in b;
        EmptyTexts(b[i]);
      }
      assert p == q;
    }
  }

  /** A row with an empty text has no column, or one empty cell. */
  lemma EmptyTexts(row: seq<string>)
    ensures Join(row) == "" <==> row == [] || row == [""]
  {
  }

  // ------------------------------------------------------------------
  // Tables with any cells at all
  // ------------------------------------------------------------------

  lemma {:induction false} StreamCons(first: string, rest: seq<string>)
    ensures Stream([first] + rest) == first + [ROW_SEP] + Stream(rest)
  {
    var rows := [first] + rest;
    if rest == [] {
      assert rows == [first] && rows[..0] == [];
      assert FlatMap(Terminated(), []) == [];
    } else {
      var n := |rest| - 1;
      assert rows[..|rows| - 1] == [first] + rest[..n];
      StreamCons(first, rest[..n]);
      Associate(first + [ROW_SEP], Stream(rest[..n]), rest[n] + [ROW_SEP]);
    }
  }

  lemma StreamOne(row: string)
    ensures Stream([row]) == row + [ROW_SEP]
    ensures Finished([row]).stream == row + [ROW_SEP]
  {
    StreamCons(row, []);
    assert [row] + [] == [row];
    assert Stream([]) == [];
    hide Stream;
    var sorted := Sort([row], LexLeq);
    SameElements(sorted, [row]);
    assert sorted[0] in [row];
    assert sorted == [row];
  }

  /** A stream without its final separator. */
  ghost function Body(rows: seq<string>): string
    requires rows != []
  {
    StreamEndsInSeparator(rows);
    Stream(rows)[..|Stream(rows)| - 1]
  }

  lemma BodyCons(first: string, rest: seq<string>)
    requires rest != []
    ensures Body([first] + rest) == first + [ROW_SEP] + Body(rest)
    ensures Stream(rest) == Body(rest) + [ROW_SEP]
  {
    StreamCons(first, rest);
    StreamEndsInSeparator(rest);
  }

  lemma TableStreamOne(row: seq<string>)
    ensures TableStream([row]) == Join(row) + [ROW_SEP]
  {
    assert Map(Join, [row]) == [Join(row)];
    hide Join, Finished;
    StreamOne(Join(row));
  }

  /** Every sorted row text is that of a row. */
  lemma SomeRow(a: seq<seq<string>>, i: nat) returns (row: seq<string>)
    requires i < |a|
    ensures row in a && Join(row) == Sort(Map(Join, a), LexLeq)[i]
  {
    hide Join, Sort, Map;
    var sorted := Sort(Map(Join, a), LexLeq);
    SameElements(sorted, Map(Join, a));
    assert sorted[i] in Map(Join, a);
    var j :| 0 <= j < |a| && Map(Join, a)[j] == sorted[i];
    row := a[j];
  }

  lemma ExtendLast(x: seq<string>, more: string)
    requires x != []
    ensures Join(x[..|x| - 1] + [x[|x| - 1] + more]) == Join(x) + more
  {
    hide Join;
    var n := |x| - 1;
    JoinSnoc(x[..n], x[n] + more);
    JoinSnoc(x[..n], x[n]);
    assert x == x[..n] + [x[n]];
    var p := if n == 0 then [] else Join(x[..n]) + [CELL_SEP];
    assert Join(x) == p + x[n];
    Associate(p, x[n], more);
  }

  /** The last cell of a row can swallow the rest of the stream. */
  lemma {:induction false} RowsMerge(a: seq<seq<string>>, k: nat) returns (other: seq<string>)
    requires Rectangular(a, k) && k >= 1 && |a| >= 2
    ensures |other| == k && TableStream([other]) == TableStream(a)
  {
    hide Join, Sort, Stream, Body;
    var sorted := Sort(Map(Join, a), LexLeq);
    var x := SomeRow(a, 0);
    var rest := sorted[1..];
    var tail := [ROW_SEP] + Body(rest);
    other := x[..k - 1] + [x[k - 1] + tail];
    ExtendLast(x, tail);
    TableStreamOne(other);
    BodyCons(sorted[0], rest);
    StreamCons(sorted[0], rest);
    assert [sorted[0]] + rest == sorted;
    assert sorted[0] + tail + [ROW_SEP] == sorted[0] + [ROW_SEP] + (Body(rest) + [ROW_SEP]);
  }

  lemma {:induction false} PrefixIsLess(x: string, y: string)
    ensures LexLeq(x, x + y)
  {
    if x != [] {
      PrefixIsLess(x[1..], y);
      assert (x + y)[1..] == x[1..] + y;
    }
  }

  /** A cell that reads as two rows in ascending order. */
  ghost predicate SplitsAt(x: string, j: nat) {
    j < |x| && x[j] == ROW_SEP && LexLeq(x[..j], x[j + 1..])
  }

  lemma {:induction false} StreamTwo(p: string, q: string)
    requires LexLeq(p, q)
    ensures Finished([p, q]).stream == p + [ROW_SEP] + (q + [ROW_SEP])
  {
    hide LexLeq, Stream, Sort;
    LexIsTotalOrder();
    SortIsSorted([p, q], LexLeq);
    assert Sorted([p, q], LexLeq);
    SortedIsUnique(Sort([p, q], LexLeq), [p, q], LexLeq);
    StreamOne(q);
    StreamCons(p, [q]);
    assert [p] + [q] == [p, q];
  }

  lemma TwoRowsOfOne(p: string, q: string)
    ensures Join([p]) == p && Map(Join, [[p], [q]]) == [p, q]
  {
  }

  lemma {:induction false} SplitCell(x: string, j: nat)
    requires SplitsAt(x, j)
    ensures TableStream([[x[..j]], [x[j + 1..]]]) == TableStream([[x]])
  {
    hide Map, Join, LexLeq, Finished;
    var p, q := x[..j], x[j + 1..];
    TwoRowsOfOne(p, q);
    TwoRowsOfOne(x, x);
    StreamTwo(p, q);
    TableStreamOne([x]);
    assert p + [ROW_SEP] + (q + [ROW_SEP]) == x + [ROW_SEP];
  }

  /** Two or more rows in one column spell a cell that splits. */
  lemma {:induction false} RowsSplit(rows: seq<string>, x: string)
    requires |rows| >= 2 && Sorted(rows, LexLeq) && Stream(rows) == x + [ROW_SEP]
    ensures SplitsAt(x, |rows[0]|)
  {
    hide Stream, LexLeq;
    var rest := rows[1..];
    assert [rows[0]] + rest == rows;
    BodyCons(rows[0], rest);
    assert Body(rows) == x;
    assert x[..|rows[0]|] == rows[0] && x[|rows[0]| + 1..] == Body(rest);
    StreamCons(rest[0], rest[1..]);
    assert [rest[0]] + rest[1..] == rest;
    var more := Body(rest)[|rest[0]|..];
    assert Body(rest) == rest[0] + more;
    PrefixIsLess(rest[0], more);
    assert LexLeq(rows[0], rows[1]);
    LexTransitive(rows[0], rest[0], Body(rest));
  }

  lemma {:induction false} StreamSeparators(rows: seq<string>, c: nat)
    requires forall i :: 0 <= i < |rows| ==> Separators(rows[i]) >= c
    ensures |rows| >= 1 ==> Separators(Stream(rows)) >= c
    ensures |rows| >= 2 ==> Separators(Stream(rows)) >= c + c
  {
    hide Stream, Separators;
    if rows != [] {
      var n := |rows| - 1;
      StreamSnoc(rows);
      StreamSeparators(rows[..n], c);
      SeparatorsAppend(Stream(rows[..n]), rows[n]);
    }
  }

  lemma StreamSnoc(rows: seq<string>)
    requires rows != []
    ensures Stream(rows) == Stream(rows[..|rows| - 1]) + (rows[|rows| - 1] + [ROW_SEP])
  {
  }

  lemma SeparatorsAppend(p: string, row: string)
    ensures Separators(p + (row + [ROW_SEP])) == Separators(p) + Separators(row)
  {
    assert multiset(p + (row + [ROW_SEP])) == multiset(p) + multiset(row) + multiset{ROW_SEP};
  }

  /** No other table of `k` columns, whatever its cells hold, has the stream of `a`. */
  ghost predicate ToldApartFromAll(a: seq<seq<string>>, k: nat) {
    forall b :: Rectangular(b, k) && TableStream(b) == TableStream(a) ==> multiset(b) == multiset(a)
  }

  /** What a table of one row must be like. */
  ghost predicate OneRowStands(row: seq<string>) {
    if |row| == 1 then forall j :: !SplitsAt(row[0], j) else AllFree(row, CELL_SEP)
  }

  /**
   Among tables of `k` columns with any cells, only the empty table, a table without columns
   and some tables of one row are determined by their stream: two or more rows always read as
   one row whose last cell holds the rest.
   */
  lemma {:induction false} AnyTableIsUnambiguousIff(a: seq<seq<string>>, k: nat)
    requires Rectangular(a, k)
    ensures ToldApartFromAll(a, k) <==> k == 0 || a == [] || (|a| == 1 && OneRowStands(a[0]))
  {
    hide TableStream, Join, OneRowStands;
    if k == 0 || a == [] || (|a| == 1 && OneRowStands(a[0])) {
      forall b | Rectangular(b, k) && TableStream(b) == TableStream(a) ensures multiset(b) == multiset(a) {
        OnlyReading(a, b, k);
      }
    } else {
      var b := AnotherReading(a, k);
    }
  }

  lemma {:induction false} AnotherReading(a: seq<seq<string>>, k: nat) returns (b: seq<seq<string>>)
    requires Rectangular(a, k) && k > 0 && a != [] && (|a| == 1 ==> !OneRowStands(a[0]))
    ensures Rectangular(b, k) && TableStream(b) == TableStream(a) && multiset(b) != multiset(a)
  {
    hide TableStream, Join, AllFree;
    if |a| >= 2 {
      var other := RowsMerge(a, k);
      b := [other];
      assert |multiset(b)| != |multiset(a)|;
    } else if k == 1 {
      assert a[0] in a;
      var j: nat :| SplitsAt(a[0][0], j);
      SplitCell(a[0][0], j);
      assert a[0] == [a[0][0]];
      assert a == [[a[0][0]]];
      b := [[a[0][0][..j]], [a[0][0][j + 1..]]];
      assert |multiset(b)| != |multiset(a)|;
    } else {
      assert a[0] in a;
      assert !AllFree(a[0], CELL_SEP);
      var other := AmbiguousRow(a[0]);
      SameTextSameStream(a, 0, other);
      b := a[0 := other];
    }
  }

  lemma AmbiguousRow(row: seq<string>) returns (other: seq<string>)
    requires |row| >= 2 && !AllFree(row, CELL_SEP)
    ensures |other| == |row| && other != row && Join(other) == Join(row)
  {
    var i :| 0 <= i < |row| && !Free(row[i], CELL_SEP);
    other := SeparatorInCellIsAmbiguous(row, i);
  }

  lemma {:induction false} OnlyReading(a: seq<seq<string>>, b: seq<seq<string>>, k: nat)
    requires Rectangular(a, k) && Rectangular(b, k) && TableStream(b) == TableStream(a)
    requires k == 0 || a == [] || (|a| == 1 && OneRowStands(a[0]))
    ensures multiset(b) == multiset(a)
  {
    hide TableStream, OneRowStands, Join;
    if k == 0 {
      NoColumnsCountRows(a);
      NoColumnsCountRows(b);
      StreamDeterminesTable(a, b, 0);
    } else if a == [] {
      EmptyStream(b);
    } else {
      assert a == [a[0]] && a[0] in a;
      OneRowReading(a[0], b, k);
    }
  }

  lemma NoColumnsCountRows(a: seq<seq<string>>)
    requires Rectangular(a, 0)
    ensures CellsWithout(a, ROW_SEP)
  {
  }

  lemma EmptyStream(b: seq<seq<string>>)
    requires TableStream(b) == TableStream([])
    ensures b == []
  {
    hide Join;
    StreamEndsInSeparator(Sort(Map(Join, b), LexLeq));
    StreamEndsInSeparator([]);
  }

  lemma {:induction false} OneRowReading(row: seq<string>, b: seq<seq<string>>, k: nat)
    requires |row| == k > 0 && OneRowStands(row) && Rectangular(b, k) && TableStream(b) == TableStream([row])
    ensures b == [row]
  {
    hide Join, Stream, Sort, OneRowStands;
    TableStreamOne(row);
    if b == [] {
      StreamEndsInSeparator(Sort(Map(Join, b), LexLeq));
    } else if |b| == 1 {
      assert b == [b[0]] && b[0] in b;
      TableStreamOne(b[0]);
      DropSeparator(Join(row), Join(b[0]));
      OneRowIsUnambiguous(row, b[0]);
    } else {
      ManyRowsSpellOther(row, b, k);
    }
  }

  lemma DropSeparator(x: string, y: string)
    requires x + [ROW_SEP] == y + [ROW_SEP]
    ensures x == y
  {
    assert x == (x + [ROW_SEP])[..|x|] && y == (y + [ROW_SEP])[..|y|];
  }

  lemma OneRowIsUnambiguous(row: seq<string>, other: seq<string>)
    requires OneRowStands(row) && |other| == |row| > 0 && Join(other) == Join(row)
    ensures other == row
  {
    RowIsUnambiguousIff(row);
  }

  lemma {:induction false} ManyRowsSpellOther(row: seq<string>, b: seq<seq<string>>, k: nat)
    requires |row| == k > 0 && OneRowStands(row) && Rectangular(b, k) && |b| >= 2
    ensures Stream(Sort(Map(Join, b), LexLeq)) != Join(row) + [ROW_SEP]
  {
    var sorted := Sort(Map(Join, b), LexLeq);
    if k == 1 {
      assert Join(row) == row[0];
      hide Join, Stream, Sort, LexLeq;
      if Stream(sorted) == Join(row) + [ROW_SEP] {
        LexIsTotalOrder();
        SortIsSorted(Map(Join, b), LexLeq);
        RowsSplit(sorted, row[0]);
      }
    } else {
      hide Join, Stream, Sort, Separators;
      ManySeparators(b, k);
      SeparatorCount(row);
      SeparatorsAppend([], Join(row));
      assert [] + (Join(row) + [ROW_SEP]) == Join(row) + [ROW_SEP];
      NoSeparators([]);
    }
  }

  lemma {:induction false} ManySeparators(b: seq<seq<string>>, k: nat)
    requires Rectangular(b, k) && |b| >= 2 && k >= 2
    ensures Separators(Stream(Sort(Map(Join, b), LexLeq))) > k - 1
  {
    hide Join, Stream, Sort, Separators, Map;
    var sorted := Sort(Map(Join, b), LexLeq);
    forall i | 0 <= i < |sorted| ensures Separators(sorted[i]) >= k - 1 {
      var row := SomeRow(b, i);
      SeparatorCount(row);
    }
    StreamSeparators(sorted, k - 1);
  }
}

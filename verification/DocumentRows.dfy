/**
  The order of the cells in the rows of a built document. Cells come in the order of their columns, and
  each is put into its row by its column number as an index. So a row is in column order, unless it has
  both a column 0 and a column 1.
 */
module DocumentRows {
  import opened PathOrder
  import opened DocumentTree
  import opened DocumentWalk
  import opened DocumentBuild

  function ColumnOf(c: Path): nat {
    if c == [] then 0 else c[|c| - 1].n
  }

  ghost predicate InColumnOrder(row: seq<Path>) {
    forall i, j :: 0 <= i < j < |row| ==> ColumnOf(row[i]) < ColumnOf(row[j])
  }

  ghost predicate HasColumn(row: seq<Path>, n: nat) {
    exists i :: 0 <= i < |row| && ColumnOf(row[i]) == n
  }

  ghost predicate HasZeroAndOne(row: seq<Path>) {
    HasColumn(row, 0) && HasColumn(row, 1)
  }

  /** In column order, or else with both columns and another one than column 0 in front. */
  ghost predicate RowShape(row: seq<Path>) {
    if HasZeroAndOne(row) then ColumnOf(row[0]) != 0 else InColumnOrder(row)
  }

  lemma ShapeIsOrder(row: seq<Path>)
    requires RowShape(row)
    ensures InColumnOrder(row) <==> !HasZeroAndOne(row)
  {
    if HasZeroAndOne(row) {
      var i :| 0 <= i < |row| && ColumnOf(row[i]) == 0;
      assert i > 0;
    }
  }

  // ---- One insertion ----

  lemma {:induction false} ColumnsGrow(row: seq<Path>, i: nat)
    requires InColumnOrder(row) && i < |row|
    ensures ColumnOf(row[i]) >= i
  {
    if i > 0 {
      ColumnsGrow(row, i - 1);
    }
  }

  lemma HasColumnNext(row: seq<Path>, c: Path, n: nat)
    ensures HasColumn(InsertInRow(row, c, ColumnOf(c)), n) <==> HasColumn(row, n) || ColumnOf(c) == n
  {
    var r := InsertInRow(row, c, ColumnOf(c));
    InsertInRowMeaning(row, c, ColumnOf(c));
    if i :| 0 <= i < |r| && ColumnOf(r[i]) == n {
      assert r[i] in r;
    }
    if i :| 0 <= i < |row| && ColumnOf(row[i]) == n {
      assert row[i] in r;
    }
    assert c in r;
  }

  /** A cell that comes after all others keeps the shape of its row. */
  lemma InsertKeepsShape(row: seq<Path>, c: Path)
    requires RowShape(row) && forall i :: 0 <= i < |row| ==> ColumnOf(row[i]) < ColumnOf(c)
    ensures RowShape(InsertInRow(row, c, ColumnOf(c)))
  {
    var col := ColumnOf(c);
    HasColumnNext(row, c, 0);
    HasColumnNext(row, c, 1);
    hide HasColumn;
    if HasZeroAndOne(row) {
      TwoColumns(row, c);
    } else if |row| > 0 {
      ColumnsGrow(row, |row| - 1);
      if col <= |row| {
        AllColumns(row, col);
      }
    }
  }

  lemma TwoColumns(row: seq<Path>, c: Path)
    requires HasZeroAndOne(row) && forall i :: 0 <= i < |row| ==> ColumnOf(row[i]) < ColumnOf(c)
    ensures ColumnOf(c) >= 2 && |row| >= 2
  {
    var i :| 0 <= i < |row| && ColumnOf(row[i]) == 0;
    var j :| 0 <= j < |row| && ColumnOf(row[j]) == 1;
  }

  /** A row in order that is as long as its columns are bounded has them all. */
  lemma AllColumns(row: seq<Path>, col: nat)
    requires InColumnOrder(row) && 0 < col <= |row| && forall i :: 0 <= i < |row| ==> ColumnOf(row[i]) < col
    ensures |row| == col && ColumnOf(row[0]) == 0 && HasColumn(row, 0) && (col > 1 ==> HasColumn(row, 1))
  {
    ColumnsGrow(row, |row| - 1);
    if ColumnOf(row[0]) > 0 {
      ShiftedColumns(row, |row| - 1);
    } else if col > 1 && ColumnOf(row[1]) > 1 {
      SkippedColumns(row, |row| - 1);
    }
  }

  lemma {:induction false} ShiftedColumns(row: seq<Path>, i: nat)
    requires InColumnOrder(row) && i < |row| && ColumnOf(row[0]) > 0
    ensures ColumnOf(row[i]) > i
  {
    if i > 0 {
      ShiftedColumns(row, i - 1);
    }
  }

  lemma {:induction false} SkippedColumns(row: seq<Path>, i: nat)
    requires InColumnOrder(row) && 1 <= i < |row| && ColumnOf(row[1]) > 1
    ensures ColumnOf(row[i]) > i
  {
    if i > 1 {
      SkippedColumns(row, i - 1);
    }
  }

  // ---- Every insertion ----

  ghost predicate RowsShaped(s: Store) {
    forall q, r :: q in s.tables && 0 <= r < |s.tables[q]| ==> RowShape(s.tables[q][r])
  }

  /** In the row of `c`, the path does not lead to an earlier column. */
  predicate NotAfter(c: Path, path: Path) {
    c != [] && |c| <= |path| && path[..|c| - 1] == c[..|c| - 1] ==> ColumnOf(c) <= path[|c| - 1].n
  }

  ghost predicate ComesLast(s: Store, path: Path) {
    forall c :: c in s.cells ==> NotAfter(c, path)
  }

  lemma CellComesLast(s: Store, q: Path, row: nat, col: nat, path: Path)
    requires Valid(s) && q in s.tables && RowsShaped(s) && ComesLast(s, path) && row >= 1
    requires |path| >= |q| + 2 && path[..|q| + 2] == CellPath(q, row, col)
    ensures RowsShaped(EnsureCell(s, q, row, col)) && ComesLast(EnsureCell(s, q, row, col), path)
  {
    hide Valid, RowShape, NotAfter, AppendCell;
    var c := CellPath(q, row, col);
    if c !in s.cells {
      OwnColumn(c, path);
      forall r | 0 <= r < |AppendCell(s.tables[q], c, row, col)|
        ensures RowShape(AppendCell(s.tables[q], c, row, col)[r])
      {
        RowStaysShaped(s, q, row, col, path, r);
      }
    }
  }

  lemma OwnColumn(c: Path, path: Path)
    requires |path| >= |c| && path[..|c|] == c
    ensures NotAfter(c, path)
  {
  }

  lemma RowStaysShaped(s: Store, q: Path, row: nat, col: nat, path: Path, r: nat)
    requires Valid(s) && q in s.tables && RowsShaped(s) && ComesLast(s, path) && row >= 1
    requires |path| >= |q| + 2 && path[..|q| + 2] == CellPath(q, row, col) && CellPath(q, row, col) !in s.cells
    requires r < |AppendCell(s.tables[q], CellPath(q, row, col), row, col)|
    ensures RowShape(AppendCell(s.tables[q], CellPath(q, row, col), row, col)[r])
  {
    hide Valid, RowShape, NotAfter, InsertInRow, PadRows, ComesLast;
    var c, rows := CellPath(q, row, col), s.tables[q];
    var before := if r < |rows| then rows[r] else [];
    EmptyRow();
    assert RowShape(before) && PadRows(rows, row)[r] == before;
    if r == row - 1 {
      forall i | 0 <= i < |before|
        ensures ColumnOf(before[i]) < ColumnOf(c)
      {
        EarlierColumn(s, q, row, col, path, i);
      }
      InsertKeepsShape(before, c);
    }
  }

  lemma EmptyRow()
    ensures RowShape([])
  {
  }

  lemma EarlierColumn(s: Store, q: Path, row: nat, col: nat, path: Path, i: nat)
    requires Valid(s) && q in s.tables && ComesLast(s, path) && 1 <= row <= |s.tables[q]| && i < |s.tables[q][row - 1]|
    requires |path| >= |q| + 2 && path[..|q| + 2] == CellPath(q, row, col) && CellPath(q, row, col) !in s.cells
    ensures ColumnOf(s.tables[q][row - 1][i]) < col
  {
    hide Valid;
    RowListed(s, q, row - 1);
    var x := s.tables[q][row - 1][i];
    InSameRow(q, row, col, path, x);
  }

  /** A different cell of the row that the path is not behind. */
  lemma InSameRow(q: Path, row: nat, col: nat, path: Path, x: Path)
    requires |path| >= |q| + 2 && path[..|q| + 2] == CellPath(q, row, col) && x != CellPath(q, row, col)
    requires CellShape(x) && CellTable(x) == q && x[|q|].n == row && NotAfter(x, path)
    ensures ColumnOf(x) < col
  {
    var c, n := CellPath(q, row, col), |q| + 1;
    assert x[..n] == q + [Row(row)] == c[..n];
    assert path[..n] == path[..n + 1][..n] && path[n] == path[..n + 1][n];
    assert x == x[..n] + [x[n]];
  }

  lemma {:induction false} IngestTableRows(s: Store, q: Path, tokens: seq<Token>, text: string)
    requires Valid(s) && q in s.tables && RowsShaped(s) && ComesLast(s, q + tokens)
    requires IngestTable(s, q, tokens, text).Some?
    ensures RowsShaped(IngestTable(s, q, tokens, text).value)
    decreases |tokens|, 0
  {
    hide Valid, RowsShaped, ComesLast, EnsureCell, EnsureCellParagraph;
    if CellTail(tokens) {
      var c := CellPath(q, tokens[0].n, tokens[1].n);
      assert c in s.cells ==> tokens[0].n >= 1 by { CellHasRow(s, q, tokens[0].n, tokens[1].n); }
      var s1 := EnsureCell(s, q, tokens[0].n, tokens[1].n);
      EnsureCellKeeps(s, q, tokens[0].n, tokens[1].n);
      CellComesLast(s, q, tokens[0].n, tokens[1].n, q + tokens);
      var s2 := EnsureCellParagraph(s1, c, tokens[2].n);
      EnsureCellParagraphKeeps(s1, c, tokens[2].n);
      OnlyParagraphs(s1, c, tokens[2].n, q + tokens);
      var p := c + [tokens[2]];
      assert p + tokens[3..] == q + tokens;
      IngestParagraphRows(s2, p, tokens[3..], text, false);
    }
  }

  lemma OnlyParagraphs(s: Store, c: Path, n: nat, path: Path)
    requires c in s.cells && RowsShaped(s) && ComesLast(s, path)
    ensures RowsShaped(EnsureCellParagraph(s, c, n)) && ComesLast(EnsureCellParagraph(s, c, n), path)
  {
  }

  lemma OnlyATable(s: Store, p: Path, q: Path, path: Path)
    requires p in s.paragraphs && RowsShaped(s) && ComesLast(s, path)
    ensures RowsShaped(EnsureTable(s, p, q)) && ComesLast(EnsureTable(s, p, q), path)
  {
  }

  lemma {:induction false} IngestParagraphRows(s: Store, p: Path, tokens: seq<Token>, text: string, runTables: bool)
    requires Valid(s) && p in s.paragraphs && RowsShaped(s) && ComesLast(s, p + tokens) && (runTables ==> |p| == 2)
    requires IngestParagraph(s, p, tokens, text, runTables).Some?
    ensures RowsShaped(IngestParagraph(s, p, tokens, text, runTables).value)
    decreases |tokens|, 1
  {
    hide Valid, RowsShaped, ComesLast, EnsureTable, AttachRun, IngestTable;
    if tokens != [] {
      ParagraphHasShape(s, p);
      if tokens[0].Run? && |tokens| == 1 {
        OnlyARun(s, p, tokens[0], text);
      } else if tokens[0].Run? && runTables && tokens[1].Tbl? {
        var q := p + [tokens[0], tokens[1]];
        assert q[..|p|] == p;
        EnsureTableKeeps(s, p, q);
        OnlyATable(s, p, q, p + tokens);
        assert q + tokens[2..] == p + tokens;
        IngestTableRows(EnsureTable(s, p, q), q, tokens[2..], text);
      } else if tokens[0].Tbl? {
        var q := p + [tokens[0]];
        assert q[..|p|] == p;
        EnsureTableKeeps(s, p, q);
        OnlyATable(s, p, q, p + tokens);
        assert q + tokens[1..] == p + tokens;
        IngestTableRows(EnsureTable(s, p, q), q, tokens[1..], text);
      }
    }
  }

  lemma OnlyARun(s: Store, p: Path, run: Token, text: string)
    requires p in s.paragraphs && RowsShaped(s)
    ensures RowsShaped(AttachRun(s, p, run, text))
  {
  }

  // ---- Where cells come from ----

  /** Every cell lies on the path of some item. */
  ghost predicate CellsOnPaths(s: Store, items: seq<Item>) {
    forall c :: c in s.cells ==> exists i :: 0 <= i < |items| && c <= items[i].path
  }

  ghost predicate CellsGrow(s: Store, t: Store, path: Path) {
    forall c :: c in t.cells ==> c in s.cells || c <= path
  }

  lemma {:induction false} IngestTableCells(s: Store, q: Path, tokens: seq<Token>, text: string)
    requires q in s.tables && IngestTable(s, q, tokens, text).Some?
    ensures CellsGrow(s, IngestTable(s, q, tokens, text).value, q + tokens)
    decreases |tokens|, 0
  {
    if CellTail(tokens) {
      var c := CellPath(q, tokens[0].n, tokens[1].n);
      var s1 := if c in s.cells then s else EnsureCell(s, q, tokens[0].n, tokens[1].n);
      var s2 := EnsureCellParagraph(s1, c, tokens[2].n);
      assert c <= q + tokens;
      assert CellsGrow(s, s2, q + tokens);
      assert c + [tokens[2]] + tokens[3..] == q + tokens;
      IngestParagraphCells(s2, c + [tokens[2]], tokens[3..], text, false);
    }
  }

  lemma {:induction false} IngestParagraphCells(s: Store, p: Path, tokens: seq<Token>, text: string, runTables: bool)
    requires p in s.paragraphs && IngestParagraph(s, p, tokens, text, runTables).Some?
    ensures CellsGrow(s, IngestParagraph(s, p, tokens, text, runTables).value, p + tokens)
    decreases |tokens|, 1
  {
    hide IngestTable;
    if tokens != [] {
      if tokens[0].Run? && |tokens| > 1 && runTables && tokens[1].Tbl? {
        var q := p + [tokens[0], tokens[1]];
        assert q + tokens[2..] == p + tokens;
        IngestTableCells(EnsureTable(s, p, q), q, tokens[2..], text);
      } else if tokens[0].Tbl? {
        var q := p + [tokens[0]];
        assert q + tokens[1..] == p + tokens;
        IngestTableCells(EnsureTable(s, p, q), q, tokens[1..], text);
      }
    }
  }

  // ---- In the order of paths ----

  lemma {:induction false} CommonPrefix(a: seq<nat>, b: seq<nat>, n: nat)
    requires n < |a| && n < |b| && a[..n] == b[..n] && LexLess(a, b)
    ensures a[n] <= b[n]
    decreases n
  {
    if n > 0 {
      assert a[..n][0] == a[0] && b[..n][0] == b[0];
      assert a[1..][..n - 1] == a[..n][1..] && b[1..][..n - 1] == b[..n][1..];
      CommonPrefix(a[1..], b[1..], n - 1);
    }
  }

  /** A cell on an earlier path is not in a later column of the same row. */
  lemma EarlierPath(c: Path, earlier: Path, path: Path)
    requires c <= earlier && PathLess(earlier, path)
    ensures NotAfter(c, path)
  {
    hide LexLess;
    if c != [] && |c| <= |path| && path[..|c| - 1] == c[..|c| - 1] {
      var n := |c| - 1;
      var a, b := Nums(earlier), Nums(path);
      assert earlier[..n] == path[..n] && earlier[n] == c[n];
      assert forall i :: 0 <= i < n ==> a[i] == earlier[..n][i].n && b[i] == path[..n][i].n;
      assert a[..n] == b[..n];
      if a == b {
        assert a[n] == b[n];
      } else {
        CommonPrefix(a, b, n);
      }
    }
  }

  lemma {:induction false} IngestAllRows(items: seq<Item>)
    requires Ascending(items, PathOf) && DistinctPaths(items) && IngestAll(Empty, items).Some?
    ensures var s := IngestAll(Empty, items).value; RowsShaped(s) && CellsOnPaths(s, items)
  {
    hide PathLess, RowsShaped, CellsOnPaths, IngestItem, Valid;
    if items == [] {
      NoRows();
    } else {
      var n := |items| - 1;
      var front, last := items[..n], items[n];
      IngestAllRows(front);
      IngestAllMeaning(front);
      var s := IngestAll(Empty, front).value;
      LastComesLast(s, items);
      ItemRows(s, last);
      ItemCells(s, items);
    }
  }

  lemma NoRows()
    ensures RowsShaped(Empty) && CellsOnPaths(Empty, [])
  {
  }

  lemma LastComesLast(s: Store, items: seq<Item>)
    requires items != [] && Ascending(items, PathOf) && CellsOnPaths(s, items[..|items| - 1])
    ensures ComesLast(s, items[|items| - 1].path)
  {
    hide PathLess;
    var n := |items| - 1;
    forall c | c in s.cells
      ensures NotAfter(c, items[n].path)
    {
      var i :| 0 <= i < n && c <= items[..n][i].path;
      assert PathLess(PathOf(items[i]), PathOf(items[n]));
      EarlierPath(c, items[i].path, items[n].path);
    }
  }

  lemma ItemRows(s: Store, item: Item)
    requires Valid(s) && RowsShaped(s) && ComesLast(s, item.path) && IngestItem(s, item).Some?
    ensures RowsShaped(IngestItem(s, item).value)
  {
    hide Valid, IngestParagraph, NotAfter, RowShape;
    if HasParagraph(item.path) {
      var p, tokens := item.path[..2], item.path[2..];
      EnsureParagraphKeeps(s, p);
      assert p + tokens == item.path;
      IngestParagraphRows(EnsureParagraph(s, p), p, tokens, item.text, true);
    }
  }

  lemma ItemCells(s: Store, items: seq<Item>)
    requires items != [] && CellsOnPaths(s, items[..|items| - 1]) && IngestItem(s, items[|items| - 1]).Some?
    ensures CellsOnPaths(IngestItem(s, items[|items| - 1]).value, items)
  {
    hide IngestParagraph;
    var n := |items| - 1;
    var item := items[n];
    assert forall i :: 0 <= i < n ==> items[..n][i] == items[i];
    if HasParagraph(item.path) {
      var p, tokens := item.path[..2], item.path[2..];
      assert p + tokens == item.path;
      IngestParagraphCells(EnsureParagraph(s, p), p, tokens, item.text, true);
    }
  }

  /** In a built document the cells of a row are in column order if and only if it lacks a column 0 or a column 1. */
  lemma BuildOrdersRows(items: seq<Item>, q: Path, r: nat)
    requires DistinctPaths(items) && BuildDocument(items).Some?
    requires var s := BuildDocument(items).value.store; q in s.tables && r < |s.tables[q]|
    ensures var row := BuildDocument(items).value.store.tables[q][r]; InColumnOrder(row) <==> !HasZeroAndOne(row)
  {
    hide PathLess, SortByPath, IngestAll, Ascending, RowShape, InColumnOrder, HasZeroAndOne, DistinctPaths, RootsIn;
    var sorted := SortByPath(items, PathOf);
    SortedItemsOf(items);
    IngestAllRows(sorted);
    assert RowShape(BuildDocument(items).value.store.tables[q][r]);
    ShapeIsOrder(BuildDocument(items).value.store.tables[q][r]);
  }

  lemma SortedItemsOf(items: seq<Item>)
    requires DistinctPaths(items)
    ensures Ascending(SortByPath(items, PathOf), PathOf) && DistinctPaths(SortByPath(items, PathOf))
  {
    hide Ascending;
    SortMeaning(items, PathOf);
    SortedItems(SortByPath(items, PathOf));
  }

  /** The first row of such a table, with both columns. */
  lemma ZeroAfterOne(q: Path)
    ensures AppendCell(AppendCell([], CellPath(q, 1, 0), 1, 0), CellPath(q, 1, 1), 1, 1)
         == [[CellPath(q, 1, 1), CellPath(q, 1, 0)]]
  {
    var c0, c1 := CellPath(q, 1, 0), CellPath(q, 1, 1);
    assert PadRows([], 1) == PadRows([[]], 1) == [[]];
    assert InsertInRow([], c0, 0) == [c0];
    assert PadRows([[c0]], 1) == [[c0]];
    assert InsertInRow([c0], c1, 1) == [c1, c0];
  }
}

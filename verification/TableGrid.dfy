/**
  Tables with merged cells: the emitter writes one `td` per origin cell or empty position and leaves
  out what a span covers; a browser puts the cells back with the algorithm for forming a table of
  section 4.9.12.1 of the HTML Living Standard. The two are inverse.
 */
module TableGrid {
  import opened Basics

  datatype Pos = Pos(row: int, col: int)

  datatype Cell = Cell(id: nat, rowspan: int, colspan: int)

  datatype Origin = Origin(row: int, col: int, cell: Cell)

  /** `hasRows` says whether the table lists any row of cells; a row may be empty. */
  datatype Table = Table(hasRows: bool, origins: seq<Origin>, rowCount: int, colCount: int)

  datatype Td = Td(content: Option<Cell>, rowspan: int, colspan: int)

  datatype Placement = Placement(row: int, col: int, td: Td)

  function RowspanOf(c: Cell): int {
    Max(c.rowspan, 1)
  }

  function ColspanOf(c: Cell): int {
    Max(c.colspan, 1)
  }

  // ---- Emitting ----

  function Rect(row: int, col: int, rowspan: int, colspan: int): set<Pos> {
    set r, c | row <= r < row + rowspan && col <= c < col + colspan :: Pos(r, c)
  }

  lemma InRect(row: int, col: int, rowspan: int, colspan: int, p: Pos)
    ensures p in Rect(row, col, rowspan, colspan) <==> row <= p.row < row + rowspan && col <= p.col < col + colspan
  {
    if row <= p.row < row + rowspan && col <= p.col < col + colspan {
      assert Pos(p.row, p.col) == p;
    }
  }

  /** The cell that starts at a position; of several, the last. */
  function CellAt(origins: seq<Origin>, row: int, col: int): Option<Cell> {
    if origins == [] then None
    else
      var last := origins[|origins| - 1];
      if last.row == row && last.col == col then Some(last.cell) else CellAt(origins[..|origins| - 1], row, col)
  }

  function LastRow(t: Table): int {
    LastRowOf(t.origins, t.rowCount)
  }

  function LastRowOf(origins: seq<Origin>, least: int): (n: int)
    ensures least <= n && forall o <- origins :: o.row + RowspanOf(o.cell) - 1 <= n
    ensures n == least || exists o <- origins :: n == o.row + RowspanOf(o.cell) - 1
  {
    if origins == [] then least
    else
      var n := |origins| - 1;
      assert origins == origins[..n] + [origins[n]];
      Max(LastRowOf(origins[..n], least), origins[n].row + RowspanOf(origins[n].cell) - 1)
  }

  function LastCol(t: Table): int {
    LastColOf(t.origins, t.colCount)
  }

  function LastColOf(origins: seq<Origin>, least: int): (n: int)
    ensures least <= n && forall o <- origins :: o.col + ColspanOf(o.cell) - 1 <= n
    ensures n == least || exists o <- origins :: n == o.col + ColspanOf(o.cell) - 1
  {
    if origins == [] then least
    else
      var n := |origins| - 1;
      assert origins == origins[..n] + [origins[n]];
      Max(LastColOf(origins[..n], least), origins[n].col + ColspanOf(origins[n].cell) - 1)
  }

  function TdFor(t: Table, row: int, col: int): Td {
    match CellAt(t.origins, row, col)
    case None => Td(None, 1, 1)
    case Some(cell) => Td(Some(cell), RowspanOf(cell), ColspanOf(cell))
  }

  function Covers(p: Placement): set<Pos> {
    Rect(p.row, p.col, p.td.rowspan, p.td.colspan)
  }

  datatype Emitted = Emitted(placements: seq<Placement>, covered: set<Pos>)

  /** One row from `col` on: skip what is covered, write a cell or an empty `td` elsewhere. */
  function EmitRow(t: Table, row: int, col: int, covered: set<Pos>): Emitted
    decreases LastCol(t) + 1 - col
  {
    if col > LastCol(t) then Emitted([], covered)
    else if Pos(row, col) in covered then EmitRow(t, row, col + 1, covered)
    else
      var p := Placement(row, col, TdFor(t, row, col));
      var rest := EmitRow(t, row, col + 1, covered + (Covers(p) - {Pos(row, col)}));
      Emitted([p] + rest.placements, rest.covered)
  }

  function EmitRows(t: Table, row: int, covered: set<Pos>): seq<seq<Placement>>
    decreases LastRow(t) + 1 - row
  {
    if row > LastRow(t) then []
    else
      var e := EmitRow(t, row, 1, covered);
      [e.placements] + EmitRows(t, row + 1, e.covered)
  }

  /** The cells in document order, with the positions at which they were written. */
  function Emit(t: Table): seq<Placement> {
    if t.hasRows then Join(EmitRows(t, 1, {})) else []
  }

  function Join(rows: seq<seq<Placement>>): seq<Placement> {
    if rows == [] then [] else rows[0] + Join(rows[1..])
  }

  // ---- Forming a table ----

  /** The attributes as a browser reads them. */
  function ReadColspan(td: Td): int {
    if td.colspan < 1 then 1 else if td.colspan > 1000 then 1000 else td.colspan
  }

  function ReadRowspan(td: Td): int {
    if td.rowspan < 1 then 1 else if td.rowspan > 65534 then 65534 else td.rowspan
  }

  function FirstFree(occupied: set<Pos>, row: int, x: int, width: int): (f: int)
    decreases width + 1 - x
  {
    if x <= width && Pos(row, x) in occupied then FirstFree(occupied, row, x + 1, width) else x
  }

  datatype Formed = Formed(placements: seq<Placement>, occupied: set<Pos>, width: int)

  /** One row: each cell goes to the first free column, and its span is marked as occupied. */
  function FormRow(tds: seq<Td>, row: int, x: int, occupied: set<Pos>, width: int): Formed
    decreases |tds|
  {
    if tds == [] then Formed([], occupied, width)
    else
      var td := Td(tds[0].content, ReadRowspan(tds[0]), ReadColspan(tds[0]));
      var p := Placement(row, FirstFree(occupied, row, x, width), td);
      var rest := FormRow(tds[1..], row, p.col + td.colspan, occupied + Covers(p), Max(width, p.col + td.colspan - 1));
      rest.(placements := [p] + rest.placements)
  }

  function FormRows(rows: seq<seq<Td>>, row: int, occupied: set<Pos>, width: int): seq<Placement>
    decreases |rows|
  {
    if rows == [] then []
    else
      var f := FormRow(rows[0], row, 1, occupied, width);
      f.placements + FormRows(rows[1..], row + 1, f.occupied, f.width)
  }

  function FormTable(rows: seq<seq<Td>>): seq<Placement> {
    FormRows(rows, 1, {}, 0)
  }

  /** What is written of a row: the cells without their positions. */
  function Written(row: seq<Placement>): (tds: seq<Td>)
    ensures |tds| == |row| && forall i :: 0 <= i < |row| ==> tds[i] == row[i].td
  {
    if row == [] then [] else [row[0].td] + Written(row[1..])
  }

  function WrittenRows(rows: seq<seq<Placement>>): seq<seq<Td>> {
    if rows == [] then [] else [Written(rows[0])] + WrittenRows(rows[1..])
  }

  /** A table without rows is written as an empty table, whatever its row and column counts. */
  function Html(t: Table): seq<seq<Td>> {
    if t.hasRows then WrittenRows(EmitRows(t, 1, {})) else []
  }

  // ---- Every cell goes back to where it was written ----

  predicate ReadableSpans(t: Table) {
    forall o <- t.origins :: o.cell.colspan <= 1000 && o.cell.rowspan <= 65534
  }

  /** The emitter at `col` and the browser at `x` of the same row agree on what is taken from there on. */
  ghost predicate InStep(row: int, col: int, covered: set<Pos>, x: int, occupied: set<Pos>, width: int) {
    && (forall p <- occupied :: p.col <= width)
    && (forall k :: col <= k < x ==> Pos(row, k) in covered)
    && (forall k :: x <= k < col ==> Pos(row, k) in occupied)
    && (forall p: Pos :: p.row > row || (p.row == row && p.col >= col) ==> (p in covered <==> p in occupied))
  }

  lemma {:induction false} FreeColumn(occupied: set<Pos>, row: int, x: int, width: int, col: int)
    requires x <= col && Pos(row, col) !in occupied
    requires forall k :: x <= k < col ==> Pos(row, k) in occupied
    requires forall p <- occupied :: p.col <= width
    ensures FirstFree(occupied, row, x, width) == col
    decreases col - x
  {
    if x < col {
      assert Pos(row, x) in occupied;
      FreeColumn(occupied, row, x + 1, width, col);
    }
  }

  lemma {:induction false} CellAtOrigin(origins: seq<Origin>, row: int, col: int)
    ensures CellAt(origins, row, col).Some? ==> Origin(row, col, CellAt(origins, row, col).value) in origins
  {
    if origins != [] {
      var n := |origins| - 1;
      assert origins == origins[..n] + [origins[n]];
      CellAtOrigin(origins[..n], row, col);
    }
  }

  lemma TdReadable(t: Table, row: int, col: int)
    requires ReadableSpans(t)
    ensures var td := TdFor(t, row, col);
      ReadColspan(td) == td.colspan >= 1 && ReadRowspan(td) == td.rowspan >= 1
  {
    CellAtOrigin(t.origins, row, col);
  }

  lemma StepTogether(row: int, col: int, covered: set<Pos>, x: int, occupied: set<Pos>, width: int, p: Placement)
    requires InStep(row, col, covered, x, occupied, width) && Pos(row, col) !in covered
    requires p.row == row && p.col == col && p.td.rowspan >= 1 && p.td.colspan >= 1
    ensures FirstFree(occupied, row, x, width) == col
    ensures InStep(row, col + 1, covered + (Covers(p) - {Pos(row, col)}), col + p.td.colspan,
                   occupied + Covers(p), Max(width, col + p.td.colspan - 1))
  {
    assert x <= col;
    FreeColumn(occupied, row, x, width, col);
    forall q: Pos
      ensures q in Covers(p) <==> row <= q.row < row + p.td.rowspan && col <= q.col < col + p.td.colspan
    {
      InRect(row, col, p.td.rowspan, p.td.colspan, q);
    }
    hide Covers;
  }

  lemma RowSkips(t: Table, row: int, col: int, covered: set<Pos>)
    requires col <= LastCol(t) && Pos(row, col) in covered
    ensures EmitRow(t, row, col, covered) == EmitRow(t, row, col + 1, covered)
  {
  }

  lemma RowEnds(t: Table, row: int, col: int, covered: set<Pos>)
    requires col > LastCol(t)
    ensures EmitRow(t, row, col, covered) == Emitted([], covered) && Written([]) == []
  {
  }

  lemma RowWrites(t: Table, row: int, col: int, covered: set<Pos>)
    requires col <= LastCol(t) && Pos(row, col) !in covered
    ensures var p := Placement(row, col, TdFor(t, row, col));
      var rest := EmitRow(t, row, col + 1, covered + (Covers(p) - {Pos(row, col)}));
      && p.td.rowspan >= 1 && p.td.colspan >= 1
      && EmitRow(t, row, col, covered) == Emitted([p] + rest.placements, rest.covered)
      && Written([p] + rest.placements) == [p.td] + Written(rest.placements)
  {
    var p := Placement(row, col, TdFor(t, row, col));
    var rest := EmitRow(t, row, col + 1, covered + (Covers(p) - {Pos(row, col)}));
    assert ([p] + rest.placements)[1..] == rest.placements;
  }

  /** Reading a row back puts every cell where it was written, and both sides stay in step. */
  lemma {:induction false} RowRoundTrip(t: Table, row: int, col: int, covered: set<Pos>, x: int, occupied: set<Pos>,
                                        width: int)
    requires ReadableSpans(t) && InStep(row, col, covered, x, occupied, width)
    ensures var e := EmitRow(t, row, col, covered);
      var f := FormRow(Written(e.placements), row, x, occupied, width);
      f.placements == e.placements && InStep(row + 1, 1, e.covered, 1, f.occupied, f.width)
    decreases LastCol(t) + 1 - col
  {
    hide InStep, LastCol, TdFor, Covers, FirstFree, EmitRow, FormRow, Written;
    if col > LastCol(t) {
      RowEnds(t, row, col, covered);
      FormNothing(row, x, occupied, width);
      NextRow(row, col, covered, x, occupied, width);
    } else if Pos(row, col) in covered {
      RowSkips(t, row, col, covered);
      SkipTogether(row, col, covered, x, occupied, width);
      RowRoundTrip(t, row, col + 1, covered, x, occupied, width);
    } else {
      var p := Placement(row, col, TdFor(t, row, col));
      TdReadable(t, row, col);
      RowWrites(t, row, col, covered);
      StepTogether(row, col, covered, x, occupied, width, p);
      var covered', occupied' := covered + (Covers(p) - {Pos(row, col)}), occupied + Covers(p);
      RowRoundTrip(t, row, col + 1, covered', col + p.td.colspan, occupied', Max(width, col + p.td.colspan - 1));
      FormNext(p, Written(EmitRow(t, row, col + 1, covered').placements), x, occupied, width);
    }
  }

  lemma FormNothing(row: int, x: int, occupied: set<Pos>, width: int)
    ensures FormRow([], row, x, occupied, width) == Formed([], occupied, width)
  {
  }

  lemma FormNext(p: Placement, tds: seq<Td>, x: int, occupied: set<Pos>, width: int)
    requires p.col == FirstFree(occupied, p.row, x, width)
    requires ReadColspan(p.td) == p.td.colspan && ReadRowspan(p.td) == p.td.rowspan
    ensures var rest := FormRow(tds, p.row, p.col + p.td.colspan, occupied + Covers(p),
                                Max(width, p.col + p.td.colspan - 1));
      FormRow([p.td] + tds, p.row, x, occupied, width) == rest.(placements := [p] + rest.placements)
  {
    assert ([p.td] + tds)[1..] == tds;
  }

  lemma NextRow(row: int, col: int, covered: set<Pos>, x: int, occupied: set<Pos>, width: int)
    requires InStep(row, col, covered, x, occupied, width)
    ensures InStep(row + 1, 1, covered, 1, occupied, width)
  {
  }

  lemma SkipTogether(row: int, col: int, covered: set<Pos>, x: int, occupied: set<Pos>, width: int)
    requires InStep(row, col, covered, x, occupied, width) && Pos(row, col) in covered
    ensures InStep(row, col + 1, covered, x, occupied, width)
  {
    assert Pos(row, col) in occupied;
  }

  lemma {:induction false} RowsRoundTrip(t: Table, row: int, covered: set<Pos>, occupied: set<Pos>, width: int)
    requires ReadableSpans(t) && InStep(row, 1, covered, 1, occupied, width)
    ensures FormRows(WrittenRows(EmitRows(t, row, covered)), row, occupied, width) == Join(EmitRows(t, row, covered))
    decreases LastRow(t) + 1 - row
  {
    hide InStep, LastRow, EmitRow, FormRow, Written, ReadableSpans;
    if row <= LastRow(t) {
      RowRoundTrip(t, row, 1, covered, 1, occupied, width);
      var e := EmitRow(t, row, 1, covered);
      var f := FormRow(Written(e.placements), row, 1, occupied, width);
      RowsRoundTrip(t, row + 1, e.covered, f.occupied, f.width);
      var rest := EmitRows(t, row + 1, e.covered);
      assert ([e.placements] + rest)[1..] == rest;
      assert WrittenRows([e.placements] + rest)[1..] == WrittenRows(rest);
    }
  }

  /** A browser puts every cell back at the row and column at which it was written, with its span. */
  lemma FormUndoesEmit(t: Table)
    requires ReadableSpans(t)
    ensures FormTable(Html(t)) == Emit(t)
  {
    RowsRoundTrip(t, 1, {}, {}, 0);
  }

  // ---- The cells tile the grid ----

  function At(p: Placement): Pos {
    Pos(p.row, p.col)
  }

  predicate Earlier(p: Pos, q: Pos) {
    p.row < q.row || (p.row == q.row && p.col < q.col)
  }

  ghost predicate CoveredBy(ps: seq<Placement>, q: Pos) {
    exists p <- ps :: q in Covers(p)
  }

  ghost predicate SpannedBy(ps: seq<Placement>, q: Pos) {
    exists p <- ps :: q in Covers(p) && q != At(p)
  }

  /** What has been written when the emitter arrives at a position. */
  ghost predicate Scanned(t: Table, ps: seq<Placement>, covered: set<Pos>, here: Pos) {
    && (forall p <- ps :: p.td == TdFor(t, p.row, p.col) && Earlier(At(p), here))
    && (forall i, j :: 0 <= i < j < |ps| ==> Earlier(At(ps[i]), At(ps[j])) && At(ps[j]) !in Covers(ps[i]))
    && (forall q: Pos :: q in covered <==> SpannedBy(ps, q))
    && (forall q: Pos :: 1 <= q.row && 1 <= q.col <= LastCol(t) && Earlier(q, here) ==> CoveredBy(ps, q))
  }

  lemma TdCoversItself(t: Table, row: int, col: int)
    ensures Pos(row, col) in Covers(Placement(row, col, TdFor(t, row, col)))
  {
    var td := TdFor(t, row, col);
    InRect(row, col, td.rowspan, td.colspan, Pos(row, col));
  }

  lemma ScanWrites(t: Table, ps: seq<Placement>, covered: set<Pos>, row: int, col: int)
    requires Scanned(t, ps, covered, Pos(row, col)) && Pos(row, col) !in covered && 1 <= col
    ensures var p := Placement(row, col, TdFor(t, row, col));
      Scanned(t, ps + [p], covered + (Covers(p) - {Pos(row, col)}), Pos(row, col + 1))
  {
    var p := Placement(row, col, TdFor(t, row, col));
    TdCoversItself(t, row, col);
    hide Covers, TdFor, LastCol, SpannedBy, CoveredBy;
    var next := ps + [p];
    forall q: Pos
      ensures SpannedBy(next, q) <==> SpannedBy(ps, q) || (q in Covers(p) && q != Pos(row, col))
      ensures CoveredBy(next, q) <==> CoveredBy(ps, q) || q in Covers(p)
    {
      OneMore(ps, p, q);
    }
    forall i | 0 <= i < |ps|
      ensures Earlier(At(ps[i]), At(p)) && At(p) !in Covers(ps[i])
    {
      assert ps[i] in ps;
      NotSpanned(ps, ps[i], At(p));
    }
    assert forall x <- next :: x in ps || x == p;
  }

  lemma OneMore(ps: seq<Placement>, p: Placement, q: Pos)
    ensures SpannedBy(ps + [p], q) <==> SpannedBy(ps, q) || (q in Covers(p) && q != At(p))
    ensures CoveredBy(ps + [p], q) <==> CoveredBy(ps, q) || q in Covers(p)
  {
    hide Covers;
    assert p in ps + [p];
    assert forall x <- ps :: x in ps + [p];
  }

  lemma NotSpanned(ps: seq<Placement>, p: Placement, q: Pos)
    requires p in ps && !SpannedBy(ps, q) && q != At(p)
    ensures q !in Covers(p)
  {
  }

  lemma ScanSkips(t: Table, ps: seq<Placement>, covered: set<Pos>, row: int, col: int)
    requires Scanned(t, ps, covered, Pos(row, col)) && Pos(row, col) in covered
    ensures Scanned(t, ps, covered, Pos(row, col + 1))
  {
    hide Covers, TdFor, LastCol;
    assert SpannedBy(ps, Pos(row, col));
    assert CoveredBy(ps, Pos(row, col));
    forall q: Pos | 1 <= q.row && 1 <= q.col <= LastCol(t) && Earlier(q, Pos(row, col + 1))
      ensures CoveredBy(ps, q)
    {
      assert Earlier(q, Pos(row, col)) || q == Pos(row, col);
    }
  }

  lemma ScanNextRow(t: Table, ps: seq<Placement>, covered: set<Pos>, row: int, col: int)
    requires Scanned(t, ps, covered, Pos(row, col)) && col > LastCol(t)
    ensures Scanned(t, ps, covered, Pos(row + 1, 1))
  {
    hide Covers, TdFor, LastCol;
    forall q: Pos | 1 <= q.row && 1 <= q.col <= LastCol(t) && Earlier(q, Pos(row + 1, 1))
      ensures CoveredBy(ps, q)
    {
      assert Earlier(q, Pos(row, col));
    }
  }

  lemma {:induction false} RowScanned(t: Table, ps: seq<Placement>, covered: set<Pos>, row: int, col: int)
    requires Scanned(t, ps, covered, Pos(row, col)) && 1 <= col
    ensures var e := EmitRow(t, row, col, covered); Scanned(t, ps + e.placements, e.covered, Pos(row + 1, 1))
    decreases LastCol(t) + 1 - col
  {
    hide Scanned, LastCol, TdFor, Covers;
    if col > LastCol(t) {
      ScanNextRow(t, ps, covered, row, col);
      assert ps + [] == ps;
    } else if Pos(row, col) in covered {
      ScanSkips(t, ps, covered, row, col);
      RowScanned(t, ps, covered, row, col + 1);
    } else {
      var p := Placement(row, col, TdFor(t, row, col));
      ScanWrites(t, ps, covered, row, col);
      var covered' := covered + (Covers(p) - {Pos(row, col)});
      RowScanned(t, ps + [p], covered', row, col + 1);
      var rest := EmitRow(t, row, col + 1, covered').placements;
      assert ps + ([p] + rest) == (ps + [p]) + rest;
    }
  }

  lemma {:induction false} RowsScanned(t: Table, ps: seq<Placement>, covered: set<Pos>, row: int)
      returns (covered': set<Pos>)
    requires Scanned(t, ps, covered, Pos(row, 1)) && 1 <= row <= Max(1, LastRow(t) + 1)
    ensures Scanned(t, ps + Join(EmitRows(t, row, covered)), covered', Pos(Max(1, LastRow(t) + 1), 1))
    decreases LastRow(t) + 1 - row
  {
    hide Scanned, LastRow, EmitRow;
    if row > LastRow(t) {
      covered' := covered;
      assert ps + [] == ps;
    } else {
      RowScanned(t, ps, covered, row, 1);
      var e := EmitRow(t, row, 1, covered);
      covered' := RowsScanned(t, ps + e.placements, e.covered, row + 1);
      var rest := EmitRows(t, row + 1, e.covered);
      assert ([e.placements] + rest)[1..] == rest;
      assert ps + (e.placements + Join(rest)) == (ps + e.placements) + Join(rest);
    }
  }

  /** Within the counts of the table or the extent of some cell, in both directions. */
  predicate InGrid(t: Table, q: Pos) {
    && 1 <= q.row && (q.row <= t.rowCount || exists o <- t.origins :: q.row < o.row + Max(o.cell.rowspan, 1))
    && 1 <= q.col && (q.col <= t.colCount || exists o <- t.origins :: q.col < o.col + Max(o.cell.colspan, 1))
  }

  lemma GridIsScanned(t: Table, q: Pos)
    ensures InGrid(t, q) <==> 1 <= q.row <= LastRow(t) && 1 <= q.col <= LastCol(t)
  {
    hide LastRowOf, LastColOf;
    if 1 <= q.row <= LastRow(t) && LastRow(t) != t.rowCount {
      var o :| o in t.origins && LastRow(t) == o.row + RowspanOf(o.cell) - 1;
      assert q.row < o.row + Max(o.cell.rowspan, 1);
    }
    if 1 <= q.col <= LastCol(t) && LastCol(t) != t.colCount {
      var o :| o in t.origins && LastCol(t) == o.col + ColspanOf(o.cell) - 1;
      assert q.col < o.col + Max(o.cell.colspan, 1);
    }
  }

  lemma {:induction false} RowWithin(t: Table, row: int, col: int, covered: set<Pos>, p: Placement)
    requires p in EmitRow(t, row, col, covered).placements
    ensures p.row == row && col <= p.col <= LastCol(t)
    decreases LastCol(t) + 1 - col
  {
    hide LastCol, TdFor, Covers;
    if col <= LastCol(t) {
      if Pos(row, col) in covered {
        RowWithin(t, row, col + 1, covered, p);
      } else {
        var first := Placement(row, col, TdFor(t, row, col));
        if p != first {
          RowWithin(t, row, col + 1, covered + (Covers(first) - {Pos(row, col)}), p);
        }
      }
    }
  }

  lemma {:induction false} RowsWithin(t: Table, row: int, covered: set<Pos>, p: Placement)
    requires p in Join(EmitRows(t, row, covered))
    ensures row <= p.row <= LastRow(t) && 1 <= p.col <= LastCol(t)
    decreases LastRow(t) + 1 - row
  {
    hide LastRow, LastCol, EmitRow;
    if row <= LastRow(t) {
      var e := EmitRow(t, row, 1, covered);
      var rest := EmitRows(t, row + 1, e.covered);
      assert ([e.placements] + rest)[1..] == rest;
      if p in e.placements {
        RowWithin(t, row, 1, covered, p);
      } else {
        RowsWithin(t, row + 1, e.covered, p);
      }
    }
  }

  /** Of the cells at a position the last one listed is written, and an empty cell where there is none. */
  lemma LastCellIsWritten(t: Table, p: Placement)
    requires p in Emit(t)
    ensures p.td.content.None? ==> p.td == Td(None, 1, 1) && forall o <- t.origins :: o.row != p.row || o.col != p.col
    ensures p.td.content.Some? ==>
      exists i :: 0 <= i < |t.origins| && LastThere(t.origins, i, p.row, p.col) && IsTdOf(p.td, t.origins[i].cell)
  {
    hide LastRow, LastCol, EmitRows, CellAt, Scanned;
    var covered := EmitScanned(t);
    ScannedTd(t, Emit(t), covered, Pos(Max(1, LastRow(t) + 1), 1), p);
    CellAtIsLast(t.origins, p.row, p.col);
  }

  ghost predicate IsTdOf(td: Td, cell: Cell) {
    td == Td(Some(cell), Max(cell.rowspan, 1), Max(cell.colspan, 1))
  }

  ghost predicate LastThere(origins: seq<Origin>, i: nat, row: int, col: int)
    requires i < |origins|
  {
    && origins[i].row == row && origins[i].col == col
    && forall j :: i < j < |origins| ==> origins[j].row != row || origins[j].col != col
  }

  lemma {:induction false} CellAtIsLast(origins: seq<Origin>, row: int, col: int)
    ensures match CellAt(origins, row, col)
            case None => forall o <- origins :: o.row != row || o.col != col
            case Some(cell) =>
              exists i :: 0 <= i < |origins| && LastThere(origins, i, row, col) && origins[i].cell == cell
  {
    if origins != [] {
      var n := |origins| - 1;
      CellAtIsLast(origins[..n], row, col);
      assert origins == origins[..n] + [origins[n]];
      if origins[n].row == row && origins[n].col == col {
        assert LastThere(origins, n, row, col);
      } else if CellAt(origins[..n], row, col).Some? {
        var i :| 0 <= i < n && LastThere(origins[..n], i, row, col) &&
          origins[..n][i].cell == CellAt(origins[..n], row, col).value;
        assert LastThere(origins, i, row, col);
      }
    }
  }

  /** Nothing is written outside the grid. */
  lemma EmitWithin(t: Table, p: Placement, q: Pos)
    requires WellPlaced(t) && p in Emit(t) && q in Covers(p)
    ensures InGrid(t, q)
  {
    hide LastRow, LastCol, EmitRows, TdFor, Scanned;
    RowsWithin(t, 1, {}, p);
    var covered := EmitScanned(t);
    ScannedTd(t, Emit(t), covered, Pos(Max(1, LastRow(t) + 1), 1), p);
    CoversOf(t, p);
    GridIsScanned(t, At(p));
    GridIsScanned(t, q);
    if p.td.content.Some? {
      var o := Origin(p.row, p.col, p.td.content.value);
      InRect(o.row, o.col, RowspanOf(o.cell), ColspanOf(o.cell), q);
      assert q.row < o.row + Max(o.cell.rowspan, 1) && q.col < o.col + Max(o.cell.colspan, 1);
    }
  }

  lemma EmitScanned(t: Table) returns (covered: set<Pos>)
    requires t.hasRows
    ensures Scanned(t, Emit(t), covered, Pos(Max(1, LastRow(t) + 1), 1))
  {
    hide EmitRows, LastRow, LastCol, TdFor;
    assert Scanned(t, [], {}, Pos(1, 1));
    covered := RowsScanned(t, [], {}, 1);
    assert [] + Emit(t) == Emit(t);
  }

  function OriginRect(o: Origin): set<Pos> {
    Rect(o.row, o.col, RowspanOf(o.cell), ColspanOf(o.cell))
  }

  /** Cells start inside the table and no two of them share a position. */
  ghost predicate NonOverlapping(t: Table) {
    forall i, j :: 0 <= i < j < |t.origins| ==> OriginRect(t.origins[i]) !! OriginRect(t.origins[j])
  }

  /** Cells come from the rows of the table, which are counted from 1, as are the columns. */
  predicate WellPlaced(t: Table) {
    (t.origins != [] ==> t.hasRows) && forall o <- t.origins :: 1 <= o.row && 1 <= o.col
  }

  /** Every cell is placed at its own row and column with its own span. */
  ghost predicate Restores(t: Table, ps: seq<Placement>) {
    forall o <- t.origins ::
      Placement(o.row, o.col, Td(Some(o.cell), RowspanOf(o.cell), ColspanOf(o.cell))) in ps
  }

  /** Every position of the grid is occupied by one placement and no more, and no other position is. */
  ghost predicate Tiles(t: Table, ps: seq<Placement>) {
    && (forall q: Pos :: InGrid(t, q) <==> CoveredBy(ps, q))
    && (forall i, j :: 0 <= i < j < |ps| ==> Covers(ps[i]) !! Covers(ps[j]))
  }

  lemma SameOrigin(t: Table, o: Origin, o': Origin, q: Pos)
    requires NonOverlapping(t) && o in t.origins && o' in t.origins && q in OriginRect(o) && q in OriginRect(o')
    ensures o == o'
  {
    hide OriginRect;
    var i :| 0 <= i < |t.origins| && t.origins[i] == o;
    var j :| 0 <= j < |t.origins| && t.origins[j] == o';
  }

  lemma OwnRect(o: Origin)
    ensures Pos(o.row, o.col) in OriginRect(o)
  {
    InRect(o.row, o.col, RowspanOf(o.cell), ColspanOf(o.cell), Pos(o.row, o.col));
  }

  /** A written cell covers what its origin covers; an empty one covers its own position only. */
  lemma CoversOf(t: Table, p: Placement)
    requires p.td == TdFor(t, p.row, p.col)
    ensures p.td.content.Some? ==>
      var o := Origin(p.row, p.col, p.td.content.value); o in t.origins && Covers(p) == OriginRect(o)
    ensures p.td.content.None? ==> Covers(p) == {At(p)}
  {
    CellAtOrigin(t.origins, p.row, p.col);
    if p.td.content.None? {
      forall q: Pos
        ensures q in Covers(p) <==> q == At(p)
      {
        InRect(p.row, p.col, 1, 1, q);
      }
    }
  }

  lemma EmitDisjoint(t: Table, ps: seq<Placement>, covered: set<Pos>, here: Pos, i: nat, j: nat)
    requires NonOverlapping(t) && Scanned(t, ps, covered, here) && i < j < |ps|
    ensures Covers(ps[i]) !! Covers(ps[j])
  {
    assert ps[i] in ps && ps[j] in ps;
    CoversOf(t, ps[i]);
    CoversOf(t, ps[j]);
    forall q | q in Covers(ps[i]) && q in Covers(ps[j])
      ensures false
    {
      InRect(ps[j].row, ps[j].col, ps[j].td.rowspan, ps[j].td.colspan, q);
      if ps[i].td.content.Some? && ps[j].td.content.Some? {
        SameOrigin(t, Origin(ps[i].row, ps[i].col, ps[i].td.content.value),
          Origin(ps[j].row, ps[j].col, ps[j].td.content.value), q);
      }
    }
  }

  lemma EmitRestores(t: Table, ps: seq<Placement>, covered: set<Pos>, here: Pos, o: Origin)
    requires NonOverlapping(t) && Scanned(t, ps, covered, here) && o in t.origins && CoveredBy(ps, Pos(o.row, o.col))
    ensures Placement(o.row, o.col, Td(Some(o.cell), RowspanOf(o.cell), ColspanOf(o.cell))) in ps
  {
    hide Scanned;
    var p :| p in ps && Pos(o.row, o.col) in Covers(p);
    ScannedTd(t, ps, covered, here, p);
    CoversOf(t, p);
    OwnRect(o);
    if p.td.content.Some? {
      SameOrigin(t, o, Origin(p.row, p.col, p.td.content.value), Pos(o.row, o.col));
    } else {
      NotEmpty(t.origins, o);
    }
  }

  lemma ScannedTd(t: Table, ps: seq<Placement>, covered: set<Pos>, here: Pos, p: Placement)
    requires Scanned(t, ps, covered, here) && p in ps
    ensures p.td == TdFor(t, p.row, p.col)
  {
  }

  lemma {:induction false} NotEmpty(origins: seq<Origin>, o: Origin)
    requires o in origins
    ensures CellAt(origins, o.row, o.col).Some?
  {
    var n := |origins| - 1;
    if origins[n] != o {
      assert origins == origins[..n] + [origins[n]];
      NotEmpty(origins[..n], o);
    }
  }

  /**
    For cells that do not overlap, the table formed from the emitted rows has every cell at its own
    row and column with its own span, and every position of the grid is occupied exactly once. A table
    without rows comes back without any.
   */
  lemma TableRoundTrip(t: Table)
    requires ReadableSpans(t) && WellPlaced(t) && NonOverlapping(t)
    ensures Restores(t, FormTable(Html(t)))
    ensures if t.hasRows then Tiles(t, FormTable(Html(t))) else FormTable(Html(t)) == []
  {
    hide Html, FormRows, Emit, Tiles;
    FormUndoesEmit(t);
    if t.hasRows {
      EmitTiles(t);
    } else {
      NothingWritten(t);
    }
  }

  lemma NothingWritten(t: Table)
    requires !t.hasRows
    ensures FormTable(Html(t)) == []
  {
  }

  lemma EmitTiles(t: Table)
    requires WellPlaced(t) && NonOverlapping(t) && t.hasRows
    ensures Restores(t, Emit(t)) && Tiles(t, Emit(t))
  {
    hide Emit, Scanned, Covers, LastRow, LastCol, InGrid;
    var ps := Emit(t);
    var covered := EmitScanned(t);
    var here := Pos(Max(1, LastRow(t) + 1), 1);
    forall q: Pos
      ensures InGrid(t, q) <==> CoveredBy(ps, q)
    {
      if InGrid(t, q) {
        ScannedComplete(t, ps, covered, here, q);
      }
      if p :| p in ps && q in Covers(p) {
        EmitWithin(t, p, q);
      }
    }
    forall o | o in t.origins
      ensures Placement(o.row, o.col, Td(Some(o.cell), RowspanOf(o.cell), ColspanOf(o.cell))) in ps
    {
      OriginInGrid(t, o);
      EmitRestores(t, ps, covered, here, o);
    }
    forall i, j | 0 <= i < j < |ps|
      ensures Covers(ps[i]) !! Covers(ps[j])
    {
      EmitDisjoint(t, ps, covered, here, i, j);
    }
  }

  lemma ScannedComplete(t: Table, ps: seq<Placement>, covered: set<Pos>, here: Pos, q: Pos)
    requires Scanned(t, ps, covered, here) && InGrid(t, q) && here.row > LastRow(t)
    ensures CoveredBy(ps, q)
  {
    hide InGrid, LastRow, LastCol, Covers, TdFor;
    GridIsScanned(t, q);
  }

  lemma OriginInGrid(t: Table, o: Origin)
    requires WellPlaced(t) && o in t.origins
    ensures InGrid(t, Pos(o.row, o.col))
  {
    assert o.row < o.row + Max(o.cell.rowspan, 1) && o.col < o.col + Max(o.cell.colspan, 1);
  }

  lemma {:induction false} RestoredOverlap(t: Table, ps: seq<Placement>, i: nat, j: nat)
    requires Restores(t, ps) && Tiles(t, ps) && i < j < |t.origins| && t.origins[i] != t.origins[j]
    ensures OriginRect(t.origins[i]) !! OriginRect(t.origins[j])
  {
    var o, o' := t.origins[i], t.origins[j];
    var p := Placement(o.row, o.col, Td(Some(o.cell), RowspanOf(o.cell), ColspanOf(o.cell)));
    var p' := Placement(o'.row, o'.col, Td(Some(o'.cell), RowspanOf(o'.cell), ColspanOf(o'.cell)));
    assert p in ps && p' in ps && p != p';
    var a :| 0 <= a < |ps| && ps[a] == p;
    var b :| 0 <= b < |ps| && ps[b] == p';
    assert Covers(p) == OriginRect(o) && Covers(p') == OriginRect(o');
  }

  ghost predicate ReadAll(ps: seq<Placement>) {
    forall p <- ps :: p.td.colspan <= 1000 && p.td.rowspan <= 65534
  }

  lemma {:induction false} FormRowReads(tds: seq<Td>, row: int, x: int, occupied: set<Pos>, width: int)
    ensures ReadAll(FormRow(tds, row, x, occupied, width).placements)
    decreases |tds|
  {
    hide Covers, FirstFree;
    if tds != [] {
      var td := Td(tds[0].content, ReadRowspan(tds[0]), ReadColspan(tds[0]));
      var p := Placement(row, FirstFree(occupied, row, x, width), td);
      FormRowReads(tds[1..], row, p.col + td.colspan, occupied + Covers(p), Max(width, p.col + td.colspan - 1));
    }
  }

  lemma {:induction false} FormRowsRead(rows: seq<seq<Td>>, row: int, occupied: set<Pos>, width: int)
    ensures ReadAll(FormRows(rows, row, occupied, width))
    decreases |rows|
  {
    hide FormRow;
    if rows != [] {
      FormRowReads(rows[0], row, 1, occupied, width);
      var f := FormRow(rows[0], row, 1, occupied, width);
      FormRowsRead(rows[1..], row + 1, f.occupied, f.width);
    }
  }

  /** The counts of a table without rows leave no position to fill. */
  predicate GridIsWritten(t: Table) {
    t.hasRows || t.rowCount < 1 || t.colCount < 1
  }

  lemma NoPlacementTiles(t: Table)
    requires t.origins == []
    ensures Tiles(t, []) <==> t.rowCount < 1 || t.colCount < 1
  {
    if t.rowCount >= 1 && t.colCount >= 1 {
      assert InGrid(t, Pos(1, 1)) && !CoveredBy([], Pos(1, 1));
    }
  }

  /**
    The condition is exact: a table whose cells are all listed once comes back complete and tiled if
    and only if its cells do not overlap, no span exceeds what a browser reads, and a table without rows
    does not claim to have any position.
   */
  lemma RoundTripIffNonOverlapping(t: Table)
    requires WellPlaced(t) && forall i, j :: 0 <= i < j < |t.origins| ==> t.origins[i] != t.origins[j]
    ensures Restores(t, FormTable(Html(t))) && Tiles(t, FormTable(Html(t)))
       <==> NonOverlapping(t) && ReadableSpans(t) && GridIsWritten(t)
  {
    hide Html, FormRows, Tiles, OriginRect, LastRow, LastCol;
    var ps := FormTable(Html(t));
    FormRowsRead(Html(t), 1, {}, 0);
    if !t.hasRows {
      NothingWritten(t);
      NoPlacementTiles(t);
    }
    if NonOverlapping(t) && ReadableSpans(t) && GridIsWritten(t) {
      TableRoundTrip(t);
    } else if Restores(t, ps) && Tiles(t, ps) {
      forall i, j | 0 <= i < j < |t.origins|
        ensures OriginRect(t.origins[i]) !! OriginRect(t.origins[j])
      {
        RestoredOverlap(t, ps, i, j);
      }
      forall o | o in t.origins
        ensures o.cell.colspan <= 1000 && o.cell.rowspan <= 65534
      {
        assert Placement(o.row, o.col, Td(Some(o.cell), RowspanOf(o.cell), ColspanOf(o.cell))) in ps;
      }
    }
  }

  // ---- The emitter as it runs ----

  method CoverSpan(row: int, col: int, rowspan: int, colspan: int, before: set<Pos>) returns (covered: set<Pos>)
    requires rowspan >= 1 && colspan >= 1
    ensures covered == before + (Rect(row, col, rowspan, colspan) - {Pos(row, col)})
  {
    covered := before;
    for r := row to row + rowspan
      invariant covered == before + (Rect(row, col, r - row, colspan) - {Pos(row, col)})
    {
      ghost var above := Rect(row, col, r - row, colspan);
      for c := col to col + colspan
        invariant covered == before + ((above + Rect(r, col, 1, c - col)) - {Pos(row, col)})
      {
        assert Rect(r, col, 1, c + 1 - col) == Rect(r, col, 1, c - col) + {Pos(r, c)};
        if !(r == row && c == col) {
          covered := covered + {Pos(r, c)};
        }
      }
      assert Rect(row, col, r + 1 - row, colspan) == above + Rect(r, col, 1, colspan);
    }
  }

  method RenderRow(t: Table, row: int, before: set<Pos>) returns (tds: seq<Td>, covered: set<Pos>)
    ensures tds == Written(EmitRow(t, row, 1, before).placements) && covered == EmitRow(t, row, 1, before).covered
  {
    hide LastCol, EmitRow, Written, TdFor, Rect;
    tds, covered := [], before;
    var last := LastCol(t);
    var col := 1;
    while col <= last
      invariant tds + Written(EmitRow(t, row, col, covered).placements) ==
        Written(EmitRow(t, row, 1, before).placements)
      invariant EmitRow(t, row, col, covered).covered == EmitRow(t, row, 1, before).covered
    {
      if Pos(row, col) in covered {
        RowSkips(t, row, col, covered);
      } else {
        var td := TdFor(t, row, col);
        RowWrites(t, row, col, covered);
        covered := CoverSpan(row, col, td.rowspan, td.colspan, covered);
        tds := tds + [td];
      }
      col := col + 1;
    }
    RowEnds(t, row, col, covered);
  }

  /** Writes the table row by row, remembering which positions the spans so far cover. */
  method RenderTable(t: Table) returns (rows: seq<seq<Td>>)
    ensures rows == Html(t)
  {
    hide EmitRow, Written, LastRow;
    rows := [];
    if !t.hasRows {
      return;
    }
    var covered := {};
    var last := LastRow(t);
    var row := 1;
    while row <= last
      invariant rows + WrittenRows(EmitRows(t, row, covered)) == Html(t)
    {
      ghost var e := EmitRow(t, row, 1, covered);
      ghost var rest := EmitRows(t, row + 1, e.covered);
      assert ([e.placements] + rest)[1..] == rest;
      var tds;
      tds, covered := RenderRow(t, row, covered);
      rows := rows + [tds];
      row := row + 1;
    }
  }
}

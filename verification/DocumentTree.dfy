/**
  Building a document tree from a flat mapping of structural paths to run texts. Objects are found
  through index dictionaries keyed by path; an entry of an index is the object, and children are listed
  by path in their parents. The indexes and the tree agree at every step, and every path adds its run.
 */
module DocumentTree {
  import opened Basics
  import opened PathOrder

  datatype Node = RunNode(path: Path, text: string) | TableNode(path: Path)

  datatype Item = Item(path: Path, text: string)

  /**
    `paragraphs` gives the content of every paragraph, of the document or of a cell, `tables` the rows of
    cells of every table, and `cells` the paragraphs of every cell.
   */
  datatype Store = Store(paragraphs: map<Path, seq<Node>>, tables: map<Path, seq<seq<Path>>>,
                         cells: map<Path, seq<Path>>)

  const Empty: Store := Store(map[], map[], map[])

  // ---- Get or create ----

  function EnsureParagraph(s: Store, p: Path): (r: Store)
    ensures p in r.paragraphs
  {
    if p in s.paragraphs then s else s.(paragraphs := s.paragraphs[p := []])
  }

  function EnsureTable(s: Store, parent: Path, q: Path): (r: Store)
    requires parent in s.paragraphs
    ensures q in r.tables
  {
    if q in s.tables then s
    else s.(tables := s.tables[q := []],
            paragraphs := s.paragraphs[parent := s.paragraphs[parent] + [TableNode(q)]])
  }

  function CellPath(q: Path, row: nat, col: nat): Path {
    q + [Row(row), Col(col)]
  }

  function PadRows(rows: seq<seq<Path>>, n: nat): (r: seq<seq<Path>>)
    ensures |r| >= n && rows <= r
    ensures forall i :: |rows| <= i < |r| ==> r[i] == []
    decreases n - |rows|
  {
    if |rows| >= n then rows else PadRows(rows + [[]], n)
  }

  function InsertInRow(row: seq<Path>, c: Path, col: nat): seq<Path> {
    if col > |row| then row + [c]
    else var at := if col == 0 then 0 else col - 1; row[..at] + [c] + row[at..]
  }

  function AppendCell(rows: seq<seq<Path>>, c: Path, row: nat, col: nat): seq<seq<Path>>
    requires row >= 1
  {
    var padded := PadRows(rows, row);
    padded[row - 1 := InsertInRow(padded[row - 1], c, col)]
  }

  function EnsureCell(s: Store, q: Path, row: nat, col: nat): (r: Store)
    requires q in s.tables && row >= 1
    ensures CellPath(q, row, col) in r.cells
    ensures CellPath(q, row, col) in s.cells ==> r == s
  {
    var c := CellPath(q, row, col);
    if c in s.cells then s
    else s.(cells := s.cells[c := []], tables := s.tables[q := AppendCell(s.tables[q], c, row, col)])
  }

  function EnsureCellParagraph(s: Store, c: Path, n: nat): (r: Store)
    requires c in s.cells
    ensures c + [Par(n)] in r.paragraphs
  {
    var p := c + [Par(n)];
    if p in s.paragraphs then s
    else s.(paragraphs := s.paragraphs[p := []], cells := s.cells[c := s.cells[c] + [p]])
  }

  function AttachRun(s: Store, p: Path, run: Token, text: string): (r: Store)
    requires p in s.paragraphs
  {
    s.(paragraphs := s.paragraphs[p := s.paragraphs[p] + [RunNode(p + [run], text)]])
  }

  // ---- Ingesting a path ----

  /** None when a row number below 1 is refused. */
  function IngestTable(s: Store, q: Path, tokens: seq<Token>, text: string): Option<Store>
    requires q in s.tables
    decreases |tokens|, 0
  {
    if |tokens| < 3 || !tokens[0].Row? || !tokens[1].Col? || !tokens[2].Par? then Some(s)
    else if CellPath(q, tokens[0].n, tokens[1].n) !in s.cells && tokens[0].n < 1 then None
    else
      var c := CellPath(q, tokens[0].n, tokens[1].n);
      var s1 := if c in s.cells then s else EnsureCell(s, q, tokens[0].n, tokens[1].n);
      var s2 := EnsureCellParagraph(s1, c, tokens[2].n);
      IngestParagraph(s2, c + [tokens[2]], tokens[3..], text, false)
  }

  function IngestParagraph(s: Store, p: Path, tokens: seq<Token>, text: string, runTables: bool): Option<Store>
    requires p in s.paragraphs
    decreases |tokens|, 1
  {
    if tokens == [] then Some(s)
    else if tokens[0].Run? && |tokens| == 1 then Some(AttachRun(s, p, tokens[0], text))
    else if tokens[0].Run? && runTables && tokens[1].Tbl? then
      var q := p + [tokens[0], tokens[1]];
      IngestTable(EnsureTable(s, p, q), q, tokens[2..], text)
    else if tokens[0].Tbl? then
      var q := p + [tokens[0]];
      IngestTable(EnsureTable(s, p, q), q, tokens[1..], text)
    else Some(s)
  }

  predicate HasParagraph(path: Path) {
    |path| >= 2 && path[0].Sec? && path[1].Par?
  }

  function IngestItem(s: Store, item: Item): Option<Store> {
    if !HasParagraph(item.path) then Some(s)
    else IngestParagraph(EnsureParagraph(s, item.path[..2]), item.path[..2], item.path[2..], item.text, true)
  }

  function IngestAll(s: Store, items: seq<Item>): Option<Store> {
    if items == [] then Some(s)
    else
      match IngestAll(s, items[..|items| - 1])
      case None => None
      case Some(t) => IngestItem(t, items[|items| - 1])
  }

  // ---- Which paths are runs ----

  predicate RunTail(tokens: seq<Token>, runTables: bool)
    decreases |tokens|, 1
  {
    tokens != [] &&
    if tokens[0].Run? && |tokens| == 1 then true
    else if tokens[0].Run? && runTables && tokens[1].Tbl? then TableTail(tokens[2..])
    else tokens[0].Tbl? && TableTail(tokens[1..])
  }

  predicate CellTail(tokens: seq<Token>) {
    |tokens| >= 3 && tokens[0].Row? && tokens[1].Col? && tokens[2].Par?
  }

  predicate TableTail(tokens: seq<Token>)
    decreases |tokens|, 0
  {
    CellTail(tokens) && RunTail(tokens[3..], false)
  }

  /** The path of a run of the document. */
  predicate RunPath(path: Path) {
    HasParagraph(path) && RunTail(path[2..], true)
  }

  /** A cell the path leads to has row 0. */
  predicate RowZero(tokens: seq<Token>, runTables: bool)
    decreases |tokens|
  {
    tokens != [] &&
    var rest :=
      if tokens[0].Run? && |tokens| > 1 && runTables && tokens[1].Tbl? then tokens[2..]
      else if tokens[0].Tbl? then tokens[1..]
      else [];
    CellTail(rest) && (rest[0].n == 0 || RowZero(rest[3..], false))
  }

  predicate Refused(path: Path) {
    HasParagraph(path) && RowZero(path[2..], true)
  }

  // ---- The indexes agree with the tree ----

  ghost predicate NoRepeat<T(!new)>(s: seq<T>) {
    forall i, j :: 0 <= i < j < |s| ==> s[i] != s[j]
  }

  ghost predicate NoRepeatedPath(s: seq<Node>) {
    forall i, j :: 0 <= i < j < |s| ==> s[i].path != s[j].path
  }

  predicate TableShape(q: Path) {
    |q| >= 3 && q[|q| - 1].Tbl? && (q[|q| - 2].Run? ==> |q| == 4)
  }

  /** The paragraph a table belongs to. */
  function TableHome(q: Path): Path
    requires TableShape(q)
  {
    if q[|q| - 2].Run? then q[..|q| - 2] else q[..|q| - 1]
  }

  predicate CellShape(c: Path) {
    |c| >= 2 && c[|c| - 2].Row? && c[|c| - 2].n >= 1 && c[|c| - 1].Col?
  }

  function CellTable(c: Path): Path
    requires CellShape(c)
  {
    c[..|c| - 2]
  }

  predicate ParagraphShape(p: Path) {
    |p| >= 2 && p[|p| - 1].Par?
  }

  ghost predicate NodeOk(s: Store, p: Path, n: Node) {
    match n
    case RunNode(path, _) => |path| == |p| + 1 && path[..|p|] == p && path[|p|].Run?
    case TableNode(q) => q in s.tables && TableShape(q) && TableHome(q) == p
  }

  /** A paragraph lists runs and tables of its own, each once, and is listed by its cell if it has one. */
  ghost predicate ParagraphOk(s: Store, p: Path)
    requires p in s.paragraphs
  {
    ParagraphShape(p) && NoRepeatedPath(s.paragraphs[p]) &&
    (forall i :: 0 <= i < |s.paragraphs[p]| ==> NodeOk(s, p, s.paragraphs[p][i])) &&
    (|p| > 2 ==> p[..|p| - 1] in s.cells && p in s.cells[p[..|p| - 1]])
  }

  ghost predicate RowOk(s: Store, q: Path, r: nat, row: seq<Path>) {
    NoRepeat(row) &&
    forall i :: 0 <= i < |row| ==>
      row[i] in s.cells && CellShape(row[i]) && CellTable(row[i]) == q && row[i][|q|].n == r + 1
  }

  /** A table lists cells of its own in their rows, each once, and is listed by its paragraph. */
  ghost predicate TableOk(s: Store, q: Path)
    requires q in s.tables
  {
    TableShape(q) && TableHome(q) in s.paragraphs && TableNode(q) in s.paragraphs[TableHome(q)] &&
    forall r :: 0 <= r < |s.tables[q]| ==> RowOk(s, q, r, s.tables[q][r])
  }

  /** A cell lists paragraphs of its own, each once, and is listed by its table in its row. */
  ghost predicate CellOk(s: Store, c: Path)
    requires c in s.cells
  {
    CellShape(c) && CellTable(c) in s.tables &&
    c[|c| - 2].n <= |s.tables[CellTable(c)]| && c in s.tables[CellTable(c)][c[|c| - 2].n - 1] &&
    NoRepeat(s.cells[c]) &&
    forall i :: 0 <= i < |s.cells[c]| ==>
      s.cells[c][i] in s.paragraphs && |s.cells[c][i]| == |c| + 1 && s.cells[c][i][..|c|] == c
  }

  ghost predicate Valid(s: Store) {
    (forall p :: p in s.paragraphs ==> ParagraphOk(s, p)) &&
    (forall q :: q in s.tables ==> TableOk(s, q)) &&
    (forall c :: c in s.cells ==> CellOk(s, c))
  }

  /** The store has this run in the paragraph its path names. */
  ghost predicate HasRun(s: Store, n: Node) {
    n.RunNode? && n.path != [] && n.path[..|n.path| - 1] in s.paragraphs && n in s.paragraphs[n.path[..|n.path| - 1]]
  }

  ghost predicate SameRuns(s: Store, t: Store) {
    forall n :: HasRun(s, n) <==> HasRun(t, n)
  }

  // ---- What each insertion keeps ----

  /** Everything listed in `s` is still listed in `t`. */
  ghost predicate Grows(s: Store, t: Store) {
    (forall p :: p in s.paragraphs ==>
      p in t.paragraphs && forall n :: n in s.paragraphs[p] ==> n in t.paragraphs[p]) &&
    (forall q :: q in s.tables ==> q in t.tables && RowsGrow(s.tables[q], t.tables[q])) &&
    (forall c :: c in s.cells ==> c in t.cells && forall k :: k in s.cells[c] ==> k in t.cells[c])
  }

  ghost predicate RowsGrow(a: seq<seq<Path>>, b: seq<seq<Path>>) {
    |a| <= |b| && forall r, x :: 0 <= r < |a| && x in a[r] ==> x in b[r]
  }

  lemma ParagraphStays(s: Store, t: Store, p: Path)
    requires Grows(s, t) && p in s.paragraphs && ParagraphOk(s, p) && t.paragraphs[p] == s.paragraphs[p]
    ensures ParagraphOk(t, p)
  {
    forall i | 0 <= i < |s.paragraphs[p]|
      ensures NodeOk(t, p, s.paragraphs[p][i])
    {
      assert NodeOk(s, p, s.paragraphs[p][i]);
    }
  }

  lemma TableStays(s: Store, t: Store, q: Path)
    requires Grows(s, t) && q in s.tables && TableOk(s, q) && t.tables[q] == s.tables[q]
    ensures TableOk(t, q)
  {
    forall r | 0 <= r < |s.tables[q]|
      ensures RowOk(t, q, r, s.tables[q][r])
    {
      assert RowOk(s, q, r, s.tables[q][r]);
    }
  }

  lemma CellStays(s: Store, t: Store, c: Path)
    requires Grows(s, t) && c in s.cells && CellOk(s, c) && t.cells[c] == s.cells[c]
    ensures CellOk(t, c)
  {
  }

  lemma RunsUnchanged(s: Store)
    ensures SameRuns(s, s)
  {
  }

  /** Only what changed has to be looked at again. */
  lemma ValidStays(s: Store, t: Store)
    requires Valid(s) && Grows(s, t)
    requires forall k :: k in t.paragraphs ==>
      (k in s.paragraphs && t.paragraphs[k] == s.paragraphs[k]) || ParagraphOk(t, k)
    requires forall k :: k in t.tables ==> (k in s.tables && t.tables[k] == s.tables[k]) || TableOk(t, k)
    requires forall k :: k in t.cells ==> (k in s.cells && t.cells[k] == s.cells[k]) || CellOk(t, k)
    ensures Valid(t)
  {
    hide ParagraphOk, TableOk, CellOk, Grows;
    forall k | k in t.paragraphs ensures ParagraphOk(t, k) {
      if k in s.paragraphs && t.paragraphs[k] == s.paragraphs[k] { ParagraphStays(s, t, k); }
    }
    forall k | k in t.tables ensures TableOk(t, k) {
      if k in s.tables && t.tables[k] == s.tables[k] { TableStays(s, t, k); }
    }
    forall k | k in t.cells ensures CellOk(t, k) {
      if k in s.cells && t.cells[k] == s.cells[k] { CellStays(s, t, k); }
    }
  }

  lemma NewParagraphKeeps(s: Store, p: Path)
    requires Valid(s) && |p| == 2 && p[1].Par? && p !in s.paragraphs
    ensures Valid(EnsureParagraph(s, p)) && SameRuns(s, EnsureParagraph(s, p))
  {
    var t := EnsureParagraph(s, p);
    assert ParagraphOk(t, p);
    hide ParagraphOk, TableOk, CellOk, Valid;
    assert Grows(s, t);
    ValidStays(s, t);
  }

  lemma EnsureParagraphKeeps(s: Store, p: Path)
    requires Valid(s) && |p| == 2 && p[1].Par?
    ensures Valid(EnsureParagraph(s, p)) && SameRuns(s, EnsureParagraph(s, p))
  {
    hide Valid, SameRuns;
    if p !in s.paragraphs {
      NewParagraphKeeps(s, p);
    } else {
      RunsUnchanged(s);
    }
  }

  lemma NewTableIsNoRun(s: Store, t: Store, p: Path, q: Path)
    requires p in s.paragraphs && t.paragraphs == s.paragraphs[p := s.paragraphs[p] + [TableNode(q)]]
    ensures SameRuns(s, t)
  {
  }

  lemma NewTableKeeps(s: Store, p: Path, q: Path)
    requires Valid(s) && p in s.paragraphs && TableShape(q) && TableHome(q) == p && q !in s.tables
    ensures Valid(EnsureTable(s, p, q)) && SameRuns(s, EnsureTable(s, p, q))
  {
    hide TableOk, CellOk, ParagraphOk, SameRuns;
    var t := EnsureTable(s, p, q);
    assert t.paragraphs[p] == s.paragraphs[p] + [TableNode(q)];
    NewTableIsNoRun(s, t, p, q);
    assert ParagraphOk(s, p);
    hide Valid;
    assert Grows(s, t);
    assert ParagraphOk(t, p) by { NewTableFits(s, p, q); }
    assert TableOk(t, q) by { NewTableIsListed(s, p, q); }
    ValidStays(s, t);
  }

  lemma EnsureTableKeeps(s: Store, p: Path, q: Path)
    requires Valid(s) && p in s.paragraphs && TableShape(q) && TableHome(q) == p
    ensures Valid(EnsureTable(s, p, q)) && SameRuns(s, EnsureTable(s, p, q))
  {
    hide Valid, SameRuns;
    if q !in s.tables {
      NewTableKeeps(s, p, q);
    } else {
      RunsUnchanged(s);
    }
  }

  lemma NewTableIsListed(s: Store, p: Path, q: Path)
    requires p in s.paragraphs && TableShape(q) && TableHome(q) == p && q !in s.tables
    ensures TableOk(EnsureTable(s, p, q), q)
  {
    var content := s.paragraphs[p] + [TableNode(q)];
    assert content[|content| - 1] == TableNode(q);
  }

  lemma NewTableFits(s: Store, p: Path, q: Path)
    requires p in s.paragraphs && ParagraphOk(s, p) && TableShape(q) && TableHome(q) == p && q !in s.tables
    ensures ParagraphOk(EnsureTable(s, p, q), p)
  {
    var t, content := EnsureTable(s, p, q), s.paragraphs[p];
    assert t.paragraphs[p] == content + [TableNode(q)];
    forall i | 0 <= i < |content|
      ensures content[i].path != q && NodeOk(t, p, content[i])
    {
      assert NodeOk(s, p, content[i]);
    }
  }

  lemma AppendCellMeaning(rows: seq<seq<Path>>, c: Path, row: nat, col: nat)
    requires row >= 1
    ensures var r := AppendCell(rows, c, row, col);
      |r| >= |rows| && |r| >= row && c in r[row - 1] &&
      forall i :: 0 <= i < |r| ==>
        var before := if i < |rows| then rows[i] else [];
        (forall x :: x in r[i] <==> x in before || (i == row - 1 && x == c)) &&
        (NoRepeat(before) && (i == row - 1 ==> c !in before) ==> NoRepeat(r[i]))
  {
    var padded := PadRows(rows, row);
    InsertInRowMeaning(padded[row - 1], c, col);
  }

  lemma InsertInRowMeaning(row: seq<Path>, c: Path, col: nat)
    ensures forall x :: x in InsertInRow(row, c, col) <==> x in row || x == c
    ensures NoRepeat(row) && c !in row ==> NoRepeat(InsertInRow(row, c, col))
  {
    if col <= |row| {
      var at := if col == 0 then 0 else col - 1;
      assert row == row[..at] + row[at..];
      assert InsertInRow(row, c, col)[at] == c;
    }
  }

  lemma RowGrows(s: Store, q: Path, row: nat, col: nat, r: nat)
    requires q in s.tables && TableOk(s, q) && row >= 1 && CellPath(q, row, col) !in s.cells
    requires r < |AppendCell(s.tables[q], CellPath(q, row, col), row, col)|
    ensures RowOk(EnsureCell(s, q, row, col), q, r, AppendCell(s.tables[q], CellPath(q, row, col), row, col)[r])
  {
    var c, t := CellPath(q, row, col), EnsureCell(s, q, row, col);
    var rows := s.tables[q];
    var grown: seq<seq<Path>> := AppendCell(rows, c, row, col);
    AppendCellMeaning(rows, c, row, col);
    hide AppendCell;
    assert c[..|c| - 2] == q;
    var before := if r < |rows| then rows[r] else [];
    assert r < |rows| ==> RowOk(s, q, r, rows[r]);
    assert c !in before;
    forall i | 0 <= i < |grown[r]|
      ensures var x: Path := grown[r][i]; x in t.cells && CellShape(x) && CellTable(x) == q && x[|q|].n == r + 1
    {
      assert grown[r][i] in grown[r];
    }
  }

  lemma NewCellKeeps(s: Store, q: Path, row: nat, col: nat)
    requires Valid(s) && q in s.tables && row >= 1 && CellPath(q, row, col) !in s.cells
    ensures Valid(EnsureCell(s, q, row, col)) && SameRuns(s, EnsureCell(s, q, row, col))
  {
    var c := CellPath(q, row, col);
    hide ParagraphOk, TableOk, CellOk;
    var t := EnsureCell(s, q, row, col);
    assert SameRuns(s, t);
    hide SameRuns, HasRun;
    AppendCellMeaning(s.tables[q], c, row, col);
    hide AppendCell;
    assert TableOk(s, q);
    hide Valid;
    assert RowsGrow(s.tables[q], t.tables[q]);
    assert Grows(s, t);
    assert TableOk(t, q) by { GrownTableFits(s, q, row, col); }
    assert CellOk(t, c) by { NewCellIsListed(s, q, row, col); }
    ValidStays(s, t);
  }

  lemma EnsureCellKeeps(s: Store, q: Path, row: nat, col: nat)
    requires Valid(s) && q in s.tables && row >= 1
    ensures Valid(EnsureCell(s, q, row, col)) && SameRuns(s, EnsureCell(s, q, row, col))
  {
    hide Valid, SameRuns;
    if CellPath(q, row, col) !in s.cells {
      NewCellKeeps(s, q, row, col);
    } else {
      RunsUnchanged(s);
    }
  }

  lemma NewCellIsListed(s: Store, q: Path, row: nat, col: nat)
    requires q in s.tables && row >= 1 && CellPath(q, row, col) !in s.cells
    ensures CellOk(EnsureCell(s, q, row, col), CellPath(q, row, col))
  {
    var c := CellPath(q, row, col);
    AppendCellMeaning(s.tables[q], c, row, col);
    hide AppendCell;
    assert c[..|c| - 2] == q;
  }

  lemma GrownTableFits(s: Store, q: Path, row: nat, col: nat)
    requires q in s.tables && TableOk(s, q) && row >= 1 && CellPath(q, row, col) !in s.cells
    ensures TableOk(EnsureCell(s, q, row, col), q)
  {
    var t := EnsureCell(s, q, row, col);
    hide RowOk;
    forall r | 0 <= r < |t.tables[q]|
      ensures RowOk(t, q, r, t.tables[q][r])
    {
      RowGrows(s, q, row, col, r);
    }
  }

  lemma NewCellParagraphKeeps(s: Store, c: Path, n: nat)
    requires Valid(s) && c in s.cells && c + [Par(n)] !in s.paragraphs
    ensures Valid(EnsureCellParagraph(s, c, n)) && SameRuns(s, EnsureCellParagraph(s, c, n))
  {
    var p := c + [Par(n)];
    hide ParagraphOk, TableOk, CellOk, SameRuns;
    var t := EnsureCellParagraph(s, c, n);
    NewParagraphHasNoRun(s, t, p);
    assert CellOk(s, c);
    hide Valid;
    assert t.cells[c] == s.cells[c] + [p];
    assert Grows(s, t);
    assert ParagraphOk(t, p) && CellOk(t, c) by { NewCellParagraphFits(s, c, n); }
    ValidStays(s, t);
  }

  lemma EnsureCellParagraphKeeps(s: Store, c: Path, n: nat)
    requires Valid(s) && c in s.cells
    ensures Valid(EnsureCellParagraph(s, c, n)) && SameRuns(s, EnsureCellParagraph(s, c, n))
  {
    hide Valid, SameRuns;
    if c + [Par(n)] !in s.paragraphs {
      NewCellParagraphKeeps(s, c, n);
    } else {
      RunsUnchanged(s);
    }
  }

  lemma NewParagraphHasNoRun(s: Store, t: Store, p: Path)
    requires p !in s.paragraphs && t.paragraphs == s.paragraphs[p := []]
    ensures SameRuns(s, t)
  {
  }

  lemma NewCellParagraphFits(s: Store, c: Path, n: nat)
    requires c in s.cells && CellOk(s, c) && c + [Par(n)] !in s.paragraphs
    ensures ParagraphOk(EnsureCellParagraph(s, c, n), c + [Par(n)]) && CellOk(EnsureCellParagraph(s, c, n), c)
  {
    var p, t := c + [Par(n)], EnsureCellParagraph(s, c, n);
    assert p[..|p| - 1] == c;
    assert t.cells[c] == s.cells[c] + [p];
    assert t.cells[c][|s.cells[c]|] == p;
    assert forall i :: 0 <= i < |s.cells[c]| ==> s.cells[c][i] != p;
  }

  lemma AttachRunKeeps(s: Store, p: Path, k: nat, text: string)
    requires Valid(s) && p in s.paragraphs && Fresh(s, p + [Run(k)])
    ensures Valid(AttachRun(s, p, Run(k), text))
    ensures Adds(s, AttachRun(s, p, Run(k), text), true, RunNode(p + [Run(k)], text))
  {
    hide ParagraphOk, TableOk, CellOk, Fresh;
    var path := p + [Run(k)];
    assert path[..|path| - 1] == p;
    var t := AttachRun(s, p, Run(k), text);
    assert t.paragraphs[p] == s.paragraphs[p] + [RunNode(path, text)];
    assert t.paragraphs[p][|s.paragraphs[p]|] == RunNode(path, text);
    assert Grows(s, t);
    assert ParagraphOk(t, p) by { NewRunFits(s, p, k, text); }
    ValidStays(s, t);
  }

  lemma NewRunFits(s: Store, p: Path, k: nat, text: string)
    requires p in s.paragraphs && ParagraphOk(s, p) && Fresh(s, p + [Run(k)])
    ensures ParagraphOk(AttachRun(s, p, Run(k), text), p)
  {
    var path, t, content := p + [Run(k)], AttachRun(s, p, Run(k), text), s.paragraphs[p];
    assert path[..|path| - 1] == p;
    assert t.paragraphs[p] == content + [RunNode(path, text)];
    forall i | 0 <= i < |content|
      ensures content[i].path != path && NodeOk(t, p, content[i])
    {
      assert NodeOk(s, p, content[i]);
      if content[i].RunNode? {
        assert !HasRun(s, RunNode(path, content[i].text));
      }
    }
  }

  // ---- Every path adds exactly its run ----

  ghost predicate Fresh(s: Store, path: Path) {
    forall text :: !HasRun(s, RunNode(path, text))
  }

  /** `t` has the runs of `s` and, if `isRun`, the run `n`. */
  ghost predicate Adds(s: Store, t: Store, isRun: bool, n: Node) {
    forall m :: HasRun(t, m) <==> HasRun(s, m) || (isRun && m == n)
  }

  lemma {:induction false} IngestTableMeaning(s: Store, q: Path, tokens: seq<Token>, text: string)
    requires Valid(s) && q in s.tables && Fresh(s, q + tokens)
    ensures var r := IngestTable(s, q, tokens, text);
      (r.None? <==> CellTail(tokens) && (tokens[0].n == 0 || RowZero(tokens[3..], false))) &&
      (r.Some? ==> Valid(r.value) && Adds(s, r.value, TableTail(tokens), RunNode(q + tokens, text)))
    decreases |tokens|, 0
  {
    hide Valid, HasRun, EnsureCell, EnsureCellParagraph;
    if CellTail(tokens) {
      var c := CellPath(q, tokens[0].n, tokens[1].n);
      assert c in s.cells ==> tokens[0].n >= 1 by { CellHasRow(s, q, tokens[0].n, tokens[1].n); }
      if tokens[0].n >= 1 {
        var s1 := EnsureCell(s, q, tokens[0].n, tokens[1].n);
        EnsureCellKeeps(s, q, tokens[0].n, tokens[1].n);
        var s2 := EnsureCellParagraph(s1, c, tokens[2].n);
        EnsureCellParagraphKeeps(s1, c, tokens[2].n);
        var p := c + [tokens[2]];
        assert p + tokens[3..] == q + tokens;
        IngestParagraphMeaning(s2, p, tokens[3..], text, false);
      }
    }
  }

  lemma {:induction false} IngestParagraphMeaning(s: Store, p: Path, tokens: seq<Token>, text: string, runTables: bool)
    requires Valid(s) && p in s.paragraphs && Fresh(s, p + tokens) && (runTables ==> |p| == 2)
    ensures var r := IngestParagraph(s, p, tokens, text, runTables);
      (r.None? <==> RowZero(tokens, runTables)) &&
      (r.Some? ==> Valid(r.value) && Adds(s, r.value, RunTail(tokens, runTables), RunNode(p + tokens, text)))
    decreases |tokens|, 1
  {
    hide Valid, HasRun, EnsureTable, AttachRun, IngestTable;
    if tokens != [] {
      ParagraphHasShape(s, p);
      if tokens[0].Run? && |tokens| == 1 {
        assert tokens == [Run(tokens[0].n)];
        AttachRunKeeps(s, p, tokens[0].n, text);
      } else if tokens[0].Run? && runTables && tokens[1].Tbl? {
        var q := p + [tokens[0], tokens[1]];
        assert q[..|p|] == p;
        EnsureTableKeeps(s, p, q);
        assert q + tokens[2..] == p + tokens;
        IngestTableMeaning(EnsureTable(s, p, q), q, tokens[2..], text);
      } else if tokens[0].Tbl? {
        var q := p + [tokens[0]];
        assert q[..|p|] == p;
        EnsureTableKeeps(s, p, q);
        assert q + tokens[1..] == p + tokens;
        IngestTableMeaning(EnsureTable(s, p, q), q, tokens[1..], text);
      }
    }
  }

  lemma CellHasRow(s: Store, q: Path, row: nat, col: nat)
    requires Valid(s)
    ensures CellPath(q, row, col) in s.cells ==> row >= 1
  {
    var c := CellPath(q, row, col);
    if c in s.cells {
      assert CellOk(s, c);
      assert c[|c| - 2] == Row(row);
    }
  }

  lemma ParagraphHasShape(s: Store, p: Path)
    requires Valid(s) && p in s.paragraphs
    ensures ParagraphShape(p)
  {
    assert ParagraphOk(s, p);
  }

  lemma IngestItemMeaning(s: Store, item: Item)
    requires Valid(s) && Fresh(s, item.path)
    ensures var r := IngestItem(s, item);
      (r.None? <==> Refused(item.path)) &&
      (r.Some? ==> Valid(r.value) && Adds(s, r.value, RunPath(item.path), RunNode(item.path, item.text)))
  {
    hide Valid, HasRun, IngestParagraph, EnsureParagraph, RunTail, RowZero;
    if HasParagraph(item.path) {
      var p, tokens := item.path[..2], item.path[2..];
      EnsureParagraphKeeps(s, p);
      assert p + tokens == item.path;
      IngestParagraphMeaning(EnsureParagraph(s, p), p, tokens, item.text, true);
    }
  }

  ghost predicate DistinctPaths(items: seq<Item>) {
    forall i, j :: 0 <= i < j < |items| ==> items[i].path != items[j].path
  }

  /** The store's runs are the items whose paths are run paths. */
  ghost predicate RunsAreItems(s: Store, items: seq<Item>) {
    forall n :: HasRun(s, n) <==> n.RunNode? && RunPath(n.path) && Item(n.path, n.text) in items
  }

  lemma NextIsFresh(s: Store, front: seq<Item>, last: Item)
    requires RunsAreItems(s, front) && DistinctPaths(front + [last])
    ensures Fresh(s, last.path)
  {
    hide HasRun, RunPath;
    var items := front + [last];
    forall i | 0 <= i < |front|
      ensures front[i].path != last.path
    {
      assert items[i].path != items[|front|].path;
    }
  }

  lemma NextIsAdded(s: Store, t: Store, front: seq<Item>, last: Item)
    requires RunsAreItems(s, front) && Adds(s, t, RunPath(last.path), RunNode(last.path, last.text))
    ensures RunsAreItems(t, front + [last])
  {
    hide HasRun, RunPath;
  }

  ghost predicate SomeRefused(items: seq<Item>) {
    exists i :: 0 <= i < |items| && Refused(items[i].path)
  }

  lemma RefusedNext(front: seq<Item>, last: Item)
    ensures SomeRefused(front + [last]) <==> SomeRefused(front) || Refused(last.path)
  {
    hide Refused;
    var items := front + [last];
    assert items[|front|] == last;
    if i :| 0 <= i < |front| && Refused(front[i].path) {
      assert Refused(items[i].path);
    }
  }

  lemma {:induction false} IngestAllMeaning(items: seq<Item>)
    requires DistinctPaths(items)
    ensures var r := IngestAll(Empty, items);
      (r.None? <==> SomeRefused(items)) &&
      (r.Some? ==> Valid(r.value) && RunsAreItems(r.value, items))
  {
    hide HasRun, RunPath, Refused, IngestItem, Valid, RunsAreItems, SomeRefused;
    if items == [] {
      NoRuns();
    } else {
      var front, last := items[..|items| - 1], items[|items| - 1];
      IngestAllMeaning(front);
      assert items == front + [last];
      RefusedNext(front, last);
      if IngestAll(Empty, front).Some? {
        var s := IngestAll(Empty, front).value;
        NextIsFresh(s, front, last);
        IngestItemMeaning(s, last);
        if IngestItem(s, last).Some? {
          NextIsAdded(s, IngestItem(s, last).value, front, last);
        }
      }
    }
  }

  lemma NoRuns()
    ensures Valid(Empty) && RunsAreItems(Empty, []) && !SomeRefused([])
  {
  }
}

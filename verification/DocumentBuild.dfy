/**
  The whole document of a mapping: the entries are taken in the order of their paths, and the lists of the
  tree are sorted at the end. The document holds exactly the mapping, whatever its order.
 */
module DocumentBuild {
  import opened Basics
  import opened PathOrder
  import opened DocumentTree
  import opened DocumentWalk

  function PathOf(item: Item): Path {
    item.path
  }

  function NodePath(n: Node): Path {
    n.path
  }

  function Itself(p: Path): Path {
    p
  }

  /** Sorts the content of every paragraph and the paragraphs of every cell. */
  function Finish(s: Store): (t: Store)
    ensures t.tables == s.tables
  {
    Store(map p | p in s.paragraphs :: SortByPath(s.paragraphs[p], NodePath),
          s.tables,
          map c | c in s.cells :: SortByPath(s.cells[c], Itself))
  }

  /** The document's paragraphs in the order in which they are first named. */
  function RootsIn(items: seq<Item>): seq<Path> {
    if items == [] then []
    else
      var front, path := RootsIn(items[..|items| - 1]), items[|items| - 1].path;
      if HasParagraph(path) && path[..2] !in front then front + [path[..2]] else front
  }

  datatype Document = Document(store: Store, paragraphs: seq<Path>)

  function BuildDocument(items: seq<Item>): Option<Document> {
    var sorted := SortByPath(items, PathOf);
    match IngestAll(Empty, sorted)
    case None => None
    case Some(s) => Some(Document(Finish(s), SortByPath(RootsIn(sorted), Itself)))
  }

  lemma SortedContent(s: Store, p: Path)
    requires p in s.paragraphs && ParagraphOk(s, p)
    ensures var r := SortByPath(s.paragraphs[p], NodePath);
      Ascending(r, NodePath) && forall n :: n in r <==> n in s.paragraphs[p]
  {
    hide PathLess;
    SortMeaning(s.paragraphs[p], NodePath);
    SameMembers(SortByPath(s.paragraphs[p], NodePath), s.paragraphs[p]);
  }

  lemma SortedCell(s: Store, c: Path)
    requires c in s.cells && CellOk(s, c)
    ensures var r := SortByPath(s.cells[c], Itself);
      Ascending(r, Itself) && forall k :: k in r <==> k in s.cells[c]
  {
    hide PathLess;
    SortMeaning(s.cells[c], Itself);
    SameMembers(SortByPath(s.cells[c], Itself), s.cells[c]);
  }

  lemma AscendingDistinct<T>(r: seq<T>, key: T -> Path, i: nat, j: nat)
    requires Ascending(r, key) && i < j < |r|
    ensures key(r[i]) != key(r[j])
  {
    hide PathLess;
    PathTotal(key(r[i]), key(r[j]));
  }

  lemma FinishedParagraph(s: Store, t: Store, p: Path)
    requires p in s.paragraphs && p in t.paragraphs && ParagraphOk(s, p) && Grows(s, t)
    requires Ascending(t.paragraphs[p], NodePath) && forall n :: n in t.paragraphs[p] <==> n in s.paragraphs[p]
    ensures ParagraphOk(t, p)
  {
    hide Ascending;
    var content := t.paragraphs[p];
    forall i, j | 0 <= i < j < |content|
      ensures content[i].path != content[j].path
    {
      AscendingDistinct(content, NodePath, i, j);
    }
    forall i | 0 <= i < |content|
      ensures NodeOk(t, p, content[i])
    {
      assert content[i] in content;
      var k :| 0 <= k < |s.paragraphs[p]| && s.paragraphs[p][k] == content[i];
      assert NodeOk(s, p, s.paragraphs[p][k]);
    }
  }

  lemma FinishedCell(s: Store, t: Store, c: Path)
    requires c in s.cells && c in t.cells && CellOk(s, c) && Grows(s, t)
    requires Ascending(t.cells[c], Itself) && forall k :: k in t.cells[c] <==> k in s.cells[c]
    ensures CellOk(t, c)
  {
    hide Ascending;
    var list := t.cells[c];
    forall i, j | 0 <= i < j < |list|
      ensures list[i] != list[j]
    {
      AscendingDistinct(list, Itself, i, j);
    }
    forall i | 0 <= i < |list|
      ensures list[i] in t.paragraphs && |list[i]| == |c| + 1 && list[i][..|c|] == c
    {
      assert list[i] in list;
      var k :| 0 <= k < |s.cells[c]| && s.cells[c][k] == list[i];
    }
  }

  ghost predicate Sorted(s: Store) {
    (forall p :: p in s.paragraphs ==> Ascending(s.paragraphs[p], NodePath)) &&
    forall c :: c in s.cells ==> Ascending(s.cells[c], Itself)
  }

  /** Sorting keeps the agreement of indexes and tree, and the runs. */
  lemma FinishKeeps(s: Store)
    requires Valid(s)
    ensures Valid(Finish(s)) && SameRuns(s, Finish(s)) && Finish(s).paragraphs.Keys == s.paragraphs.Keys
    ensures Sorted(Finish(s))
  {
    hide ParagraphOk, TableOk, CellOk, SortByPath, Ascending;
    var t := Finish(s);
    forall p | p in s.paragraphs
      ensures Ascending(t.paragraphs[p], NodePath) && forall n :: n in t.paragraphs[p] <==> n in s.paragraphs[p]
    {
      SortedContent(s, p);
    }
    forall c | c in s.cells
      ensures Ascending(t.cells[c], Itself) && forall k :: k in t.cells[c] <==> k in s.cells[c]
    {
      SortedCell(s, c);
    }
    assert Grows(s, t);
    forall p | p in t.paragraphs ensures ParagraphOk(t, p) { FinishedParagraph(s, t, p); }
    forall c | c in t.cells ensures CellOk(t, c) { FinishedCell(s, t, c); }
    ValidStays(s, t);
  }

  lemma SameMembers<T>(a: seq<T>, b: seq<T>)
    requires multiset(a) == multiset(b)
    ensures forall x :: x in a <==> x in b
  {
    assert forall x :: x in a <==> x in multiset(a);
    assert forall x :: x in b <==> x in multiset(b);
  }

  // ---- The paragraphs of the document ----

  ghost predicate SameRoots(s: Store, t: Store) {
    forall p: Path :: |p| == 2 ==> (p in s.paragraphs <==> p in t.paragraphs)
  }

  lemma {:induction false} IngestTableRoots(s: Store, q: Path, tokens: seq<Token>, text: string)
    requires q in s.tables && IngestTable(s, q, tokens, text).Some?
    ensures SameRoots(s, IngestTable(s, q, tokens, text).value)
    decreases |tokens|, 0
  {
    if CellTail(tokens) {
      var c := CellPath(q, tokens[0].n, tokens[1].n);
      var s1 := if c in s.cells then s else EnsureCell(s, q, tokens[0].n, tokens[1].n);
      var s2 := EnsureCellParagraph(s1, c, tokens[2].n);
      assert SameRoots(s, s2);
      IngestParagraphRoots(s2, c + [tokens[2]], tokens[3..], text, false);
    }
  }

  lemma {:induction false} IngestParagraphRoots(s: Store, p: Path, tokens: seq<Token>, text: string, runTables: bool)
    requires p in s.paragraphs && IngestParagraph(s, p, tokens, text, runTables).Some?
    ensures SameRoots(s, IngestParagraph(s, p, tokens, text, runTables).value)
    decreases |tokens|, 1
  {
    if tokens != [] {
      if tokens[0].Run? && |tokens| > 1 && runTables && tokens[1].Tbl? {
        var q := p + [tokens[0], tokens[1]];
        IngestTableRoots(EnsureTable(s, p, q), q, tokens[2..], text);
      } else if tokens[0].Tbl? {
        var q := p + [tokens[0]];
        IngestTableRoots(EnsureTable(s, p, q), q, tokens[1..], text);
      }
    }
  }

  lemma {:induction false} RootsMeaning(items: seq<Item>)
    requires IngestAll(Empty, items).Some?
    ensures NoRepeat(RootsIn(items))
    ensures forall p :: p in RootsIn(items) <==> p in IngestAll(Empty, items).value.paragraphs && |p| == 2
  {
    if items != [] {
      var front, last := items[..|items| - 1], items[|items| - 1];
      RootsMeaning(front);
      var s := IngestAll(Empty, front).value;
      if HasParagraph(last.path) {
        var p := last.path[..2];
        hide IngestParagraph;
        IngestParagraphRoots(EnsureParagraph(s, p), p, last.path[2..], last.text, true);
      }
    }
  }

  // ---- The document is the mapping ----

  /**
    A mapping is refused exactly when one of its paths leads to a cell in row 0. Otherwise the indexes
    agree with the tree, and walking the document meets exactly the runs of the mapping, each once.
   */
  lemma BuildMeaning(items: seq<Item>)
    requires DistinctPaths(items)
    ensures BuildDocument(items).None? <==> SomeRefused(items)
    ensures BuildDocument(items).Some? ==>
      var d := BuildDocument(items).value;
      Valid(d.store) && Roots(d.store, d.paragraphs) && Sorted(d.store) && Ascending(d.paragraphs, Itself) &&
      NoRepeat(Walk(d.store, d.paragraphs)) &&
      forall n :: n in Walk(d.store, d.paragraphs) <==> n.RunNode? && RunPath(n.path) && Item(n.path, n.text) in items
  {
    hide Valid, Walk, HasRun, RunPath, Refused, SortByPath, IngestAll, Ascending, Finish, RootsIn, Sorted;
    var sorted := SortByPath(items, PathOf);
    SortMeaning(items, PathOf);
    SameMembers(sorted, items);
    SortedItems(sorted);
    IngestAllMeaning(sorted);
    RefusedEither(items, sorted);
    if IngestAll(Empty, sorted).Some? {
      var s := IngestAll(Empty, sorted).value;
      FinishKeeps(s);
      RootsMeaning(sorted);
      SortedRoots(RootsIn(sorted));
      var d := BuildDocument(items).value;
      assert Roots(d.store, d.paragraphs);
      WalkMeetsEveryRunOnce(d.store, d.paragraphs);
    }
  }

  lemma SortedItems(sorted: seq<Item>)
    requires Ascending(sorted, PathOf)
    ensures DistinctPaths(sorted)
  {
    hide Ascending;
    forall i, j | 0 <= i < j < |sorted|
      ensures sorted[i].path != sorted[j].path
    {
      AscendingDistinct(sorted, PathOf, i, j);
    }
  }

  lemma RefusedEither(a: seq<Item>, b: seq<Item>)
    requires forall x :: x in a <==> x in b
    ensures SomeRefused(a) <==> SomeRefused(b)
  {
    hide Refused;
    if i :| 0 <= i < |a| && Refused(a[i].path) {
      assert a[i] in b;
    }
    if i :| 0 <= i < |b| && Refused(b[i].path) {
      assert b[i] in a;
    }
  }

  lemma SortedRoots(roots: seq<Path>)
    requires NoRepeat(roots)
    ensures NoRepeat(SortByPath(roots, Itself)) && Ascending(SortByPath(roots, Itself), Itself)
    ensures forall p :: p in SortByPath(roots, Itself) <==> p in roots
  {
    hide PathLess, Ascending;
    SortMeaning(roots, Itself);
    var r := SortByPath(roots, Itself);
    SameMembers(r, roots);
    forall i, j | 0 <= i < j < |r|
      ensures r[i] != r[j]
    {
      AscendingDistinct(r, Itself, i, j);
    }
  }

  /** The document does not depend on the order of the mapping. */
  lemma OrderDoesNotMatter(a: seq<Item>, b: seq<Item>)
    requires DistinctPaths(a) && DistinctPaths(b) && multiset(a) == multiset(b)
    ensures BuildDocument(a) == BuildDocument(b)
  {
    hide Ascending, SortByPath, IngestAll;
    SortMeaning(a, PathOf);
    SortMeaning(b, PathOf);
    AscendingUnique(SortByPath(a, PathOf), SortByPath(b, PathOf), PathOf);
  }

  // ---- The imperative form ----

  class Builder {
    var roots: seq<Path>
    var paragraphs: map<Path, seq<Node>>
    var tables: map<Path, seq<seq<Path>>>
    var cells: map<Path, seq<Path>>

    ghost function State(): Store
      reads this
    {
      Store(paragraphs, tables, cells)
    }

    constructor ()
      ensures State() == Empty && roots == []
    {
      roots, paragraphs, tables, cells := [], map[], map[], map[];
    }

    method GetParagraph(p: Path)
      modifies this
      ensures State() == EnsureParagraph(old(State()), p)
      ensures roots == if p in old(paragraphs) then old(roots) else old(roots) + [p]
    {
      if p !in paragraphs {
        paragraphs := paragraphs[p := []];
        roots := roots + [p];
      }
    }

    method GetOrCreateTable(parent: Path, q: Path)
      requires parent in paragraphs
      modifies this`tables, this`paragraphs
      ensures State() == EnsureTable(old(State()), parent, q)
    {
      if q !in tables {
        tables := tables[q := []];
        paragraphs := paragraphs[parent := paragraphs[parent] + [TableNode(q)]];
      }
    }

    /** Whether the cell could be had; a row below 1 is refused. */
    method GetOrCreateCell(q: Path, row: nat, col: nat) returns (ok: bool)
      requires q in tables
      modifies this`tables, this`cells
      ensures ok <==> CellPath(q, row, col) in old(cells) || row >= 1
      ensures CellPath(q, row, col) in old(cells) ==> State() == old(State())
      ensures ok && row >= 1 ==> State() == EnsureCell(old(State()), q, row, col)
    {
      var c := CellPath(q, row, col);
      if c in cells {
        return true;
      }
      if row < 1 {
        return false;
      }
      var rows := tables[q];
      while |rows| < row
        invariant PadRows(rows, row) == PadRows(tables[q], row)
        decreases row - |rows|
      {
        rows := rows + [[]];
      }
      rows := rows[row - 1 := InsertInRow(rows[row - 1], c, col)];
      cells := cells[c := []];
      tables := tables[q := rows];
      ok := true;
    }

    method GetOrCreateCellParagraph(c: Path, n: nat)
      requires c in cells
      modifies this`paragraphs, this`cells
      ensures State() == EnsureCellParagraph(old(State()), c, n)
    {
      var p := c + [Par(n)];
      if p !in paragraphs {
        paragraphs := paragraphs[p := []];
        cells := cells[c := cells[c] + [p]];
      }
    }

    method IngestTableTokens(q: Path, tokens: seq<Token>, text: string) returns (ok: bool)
      requires q in tables
      modifies this`paragraphs, this`tables, this`cells
      ensures ok <==> IngestTable(old(State()), q, tokens, text).Some?
      ensures ok ==> State() == IngestTable(old(State()), q, tokens, text).value
      decreases |tokens|, 0
    {
      if |tokens| < 3 || !tokens[0].Row? || !tokens[1].Col? || !tokens[2].Par? {
        return true;
      }
      ok := GetOrCreateCell(q, tokens[0].n, tokens[1].n);
      if ok {
        var c := CellPath(q, tokens[0].n, tokens[1].n);
        GetOrCreateCellParagraph(c, tokens[2].n);
        assert tokens[2] == Par(tokens[2].n);
        ok := IngestParagraphTokens(c + [tokens[2]], tokens[3..], text, false);
      }
    }

    method IngestParagraphTokens(p: Path, tokens: seq<Token>, text: string, runTables: bool) returns (ok: bool)
      requires p in paragraphs
      modifies this`paragraphs, this`tables, this`cells
      ensures ok <==> IngestParagraph(old(State()), p, tokens, text, runTables).Some?
      ensures ok ==> State() == IngestParagraph(old(State()), p, tokens, text, runTables).value
      decreases |tokens|, 1
    {
      if tokens == [] {
        return true;
      }
      if tokens[0].Run? {
        if |tokens| == 1 {
          paragraphs := paragraphs[p := paragraphs[p] + [RunNode(p + [tokens[0]], text)]];
          return true;
        }
        if runTables && tokens[1].Tbl? {
          var q := p + [tokens[0], tokens[1]];
          GetOrCreateTable(p, q);
          ok := IngestTableTokens(q, tokens[2..], text);
          return;
        }
      }
      if tokens[0].Tbl? {
        var q := p + [tokens[0]];
        GetOrCreateTable(p, q);
        ok := IngestTableTokens(q, tokens[1..], text);
        return;
      }
      ok := true;
    }

    /** Builds the document of a mapping, given as its entries in any order. */
    method Build(items: seq<Item>) returns (r: Option<Document>)
      requires State() == Empty && roots == []
      modifies this
      ensures r == BuildDocument(items)
    {
      hide SortByPath, IngestParagraph, Finish, RootsIn, IngestAll;
      var sorted := SortByPath(items, PathOf);
      assert sorted[..0] == [];
      NothingIngested();
      for k := 0 to |sorted|
        invariant IngestAll(Empty, sorted[..k]) == Some(State()) && roots == RootsIn(sorted[..k])
      {
        var item := sorted[k];
        IngestOneMore(sorted, k);
        if HasParagraph(item.path) {
          var p := item.path[..2];
          RootsMeaning(sorted[..k]);
          GetParagraph(p);
          var ok := IngestParagraphTokens(p, item.path[2..], item.text, true);
          if !ok {
            FailsThroughout(sorted, k + 1);
            return None;
          }
        }
      }
      assert sorted[..|sorted|] == sorted;
      r := Some(Document(Finish(Store(paragraphs, tables, cells)), SortByPath(roots, Itself)));
    }
  }

  lemma NothingIngested()
    ensures IngestAll(Empty, []) == Some(Empty) && RootsIn([]) == []
  {
  }

  lemma IngestOneMore(items: seq<Item>, k: nat)
    requires k < |items|
    ensures IngestAll(Empty, items[..k + 1]) ==
      if IngestAll(Empty, items[..k]).None? then None else IngestItem(IngestAll(Empty, items[..k]).value, items[k])
    ensures var front, path := RootsIn(items[..k]), items[k].path;
      RootsIn(items[..k + 1]) == if HasParagraph(path) && path[..2] !in front then front + [path[..2]] else front
  {
    assert items[..k + 1][..k] == items[..k];
  }

  lemma {:induction false} FailsThroughout(items: seq<Item>, k: nat)
    requires k <= |items| && IngestAll(Empty, items[..k]).None?
    ensures IngestAll(Empty, items).None?
    decreases |items| - k
  {
    if k == |items| {
      assert items[..k] == items;
    } else {
      assert items[..k + 1][..k] == items[..k];
      FailsThroughout(items, k + 1);
    }
  }
}

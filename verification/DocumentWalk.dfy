/** Walking a document tree from its paragraphs meets every run exactly once. */
module DocumentWalk {
  import opened PathOrder
  import opened DocumentTree

  ghost function Flat<T>(ss: seq<seq<T>>): seq<T> {
    if ss == [] then [] else Flat(ss[..|ss| - 1]) + ss[|ss| - 1]
  }

  lemma {:induction false} FlatMember<T>(ss: seq<seq<T>>, x: T)
    ensures x in Flat(ss) <==> exists i :: 0 <= i < |ss| && x in ss[i]
  {
    if ss != [] {
      FlatMember(ss[..|ss| - 1], x);
      assert x in ss[|ss| - 1] ==> x in Flat(ss);
    }
  }

  lemma {:induction false} FlatNoRepeat<T(!new)>(ss: seq<seq<T>>)
    requires forall i :: 0 <= i < |ss| ==> NoRepeat(ss[i])
    requires forall i, j, x :: 0 <= i < j < |ss| && x in ss[i] ==> x !in ss[j]
    ensures NoRepeat(Flat(ss))
  {
    if ss != [] {
      var front, last := ss[..|ss| - 1], ss[|ss| - 1];
      FlatNoRepeat(front);
      forall i, j | 0 <= i < |Flat(front)| && 0 <= j < |last|
        ensures Flat(front)[i] != last[j]
      {
        FlatMember(front, Flat(front)[i]);
      }
    }
  }

  ghost function CellLists(s: Store, row: seq<Path>): (r: seq<seq<Path>>)
    requires forall i :: 0 <= i < |row| ==> row[i] in s.cells
    ensures |r| == |row| && forall i :: 0 <= i < |row| ==> r[i] == s.cells[row[i]]
  {
    seq(|row|, i requires 0 <= i < |row| => s.cells[row[i]])
  }

  ghost function RowKids(s: Store, row: seq<Path>): seq<Path>
    requires forall i :: 0 <= i < |row| ==> row[i] in s.cells
  {
    Flat(CellLists(s, row))
  }

  ghost function RowLists(s: Store, q: Path): (r: seq<seq<Path>>)
    requires Valid(s) && q in s.tables
    ensures |r| == |s.tables[q]|
    ensures forall i :: 0 <= i < |r| ==> RowOk(s, q, i, s.tables[q][i]) && r[i] == RowKids(s, s.tables[q][i])
  {
    assert TableOk(s, q);
    var rows := s.tables[q];
    seq(|rows|, r requires 0 <= r < |rows| => assert RowOk(s, q, r, rows[r]); RowKids(s, rows[r]))
  }

  /** The paragraphs of a table's cells, row by row. */
  ghost function Kids(s: Store, q: Path): seq<Path>
    requires Valid(s) && q in s.tables
  {
    Flat(RowLists(s, q))
  }

  /** `k` is a paragraph of a cell of table `q`. */
  ghost predicate KidOf(s: Store, q: Path, k: Path) {
    k in s.paragraphs && |k| == |q| + 3 && k[..|q|] == q
  }

  lemma RowKidsMember(s: Store, q: Path, r: nat, k: Path)
    requires Valid(s) && q in s.tables && r < |s.tables[q]| && RowOk(s, q, r, s.tables[q][r])
    ensures k in RowKids(s, s.tables[q][r]) <==> KidOf(s, q, k) && k[|q|].n == r + 1
  {
    hide Valid, Flat;
    var row := s.tables[q][r];
    var lists := CellLists(s, row);
    FlatMember(lists, k);
    if KidOf(s, q, k) && k[|q|].n == r + 1 {
      RowHasCell(s, q, k);
      var c := k[..|q| + 2];
      var i :| 0 <= i < |row| && row[i] == c;
      CellKids(s, c);
      assert k in lists[i];
    }
    if k in RowKids(s, row) {
      var i :| 0 <= i < |lists| && k in lists[i];
      CellKids(s, row[i]);
      assert k[..|q|] == row[i][..|q|] && k[|q|] == row[i][|q|];
    }
  }

  lemma RowKidsMeaning(s: Store, q: Path, r: nat)
    requires Valid(s) && q in s.tables && r < |s.tables[q]|
    ensures RowOk(s, q, r, s.tables[q][r]) && NoRepeat(RowKids(s, s.tables[q][r]))
    ensures forall k: Path :: k in RowKids(s, s.tables[q][r]) <==> KidOf(s, q, k) && k[|q|].n == r + 1
  {
    hide Valid, RowKids, Flat;
    RowListed(s, q, r);
    RowKidsOnce(s, q, r);
    forall k: Path
      ensures k in RowKids(s, s.tables[q][r]) <==> KidOf(s, q, k) && k[|q|].n == r + 1
    {
      RowKidsMember(s, q, r, k);
    }
  }

  lemma RowListed(s: Store, q: Path, r: nat)
    requires Valid(s) && q in s.tables && r < |s.tables[q]|
    ensures RowOk(s, q, r, s.tables[q][r])
  {
    hide ParagraphOk, CellOk;
    assert TableOk(s, q);
  }

  lemma RowKidsOnce(s: Store, q: Path, r: nat)
    requires Valid(s) && q in s.tables && r < |s.tables[q]| && RowOk(s, q, r, s.tables[q][r])
    ensures NoRepeat(RowKids(s, s.tables[q][r]))
  {
    hide Valid, Flat;
    var row := s.tables[q][r];
    var lists := CellLists(s, row);
    forall i | 0 <= i < |row|
      ensures NoRepeat(lists[i]) && forall k :: k in lists[i] ==> |k| == |row[i]| + 1 && k[..|k| - 1] == row[i]
    {
      CellKids(s, row[i]);
    }
    FlatNoRepeat(lists);
  }

  lemma CellKids(s: Store, c: Path)
    requires Valid(s) && c in s.cells
    ensures NoRepeat(s.cells[c])
    ensures forall k :: k in s.cells[c] <==> KidOfCell(s, c, k)
  {
    hide Valid, CellOk;
    CellListed(s, c);
    forall k
      ensures k in s.cells[c] <==> KidOfCell(s, c, k)
    {
      if KidOfCell(s, c, k) {
        ListedByCell(s, c, k);
      }
    }
  }

  /** `k` is a paragraph of cell `c`. */
  ghost predicate KidOfCell(s: Store, c: Path, k: Path) {
    k in s.paragraphs && |k| == |c| + 1 && k[..|c|] == c
  }

  lemma CellListed(s: Store, c: Path)
    requires Valid(s) && c in s.cells
    ensures CellShape(c) && NoRepeat(s.cells[c]) && forall k :: k in s.cells[c] ==> KidOfCell(s, c, k)
  {
    hide ParagraphOk, TableOk;
    assert CellOk(s, c);
  }

  lemma ListedByCell(s: Store, c: Path, k: Path)
    requires Valid(s) && c in s.cells && CellShape(c) && KidOfCell(s, c, k)
    ensures k in s.cells[c]
  {
    hide CellOk, TableOk;
    assert ParagraphOk(s, k);
  }

  lemma RowHasCell(s: Store, q: Path, k: Path)
    requires Valid(s) && KidOf(s, q, k) && q in s.tables
    ensures 1 <= k[|q|].n <= |s.tables[q]| && k[..|q| + 2] in s.tables[q][k[|q|].n - 1]
  {
    hide Valid;
    var c := k[..|q| + 2];
    assert c == k[..|k| - 1];
    HasItsCell(s, k);
    assert CellTable(c) == q && c[|c| - 2] == k[|q|];
  }

  lemma HasItsCell(s: Store, k: Path)
    requires Valid(s) && k in s.paragraphs && |k| > 2
    ensures k[..|k| - 1] in s.cells && CellOk(s, k[..|k| - 1])
  {
    hide CellOk;
    assert ParagraphOk(s, k);
  }

  lemma KidsMeaning(s: Store, q: Path)
    requires Valid(s) && q in s.tables
    ensures NoRepeat(Kids(s, q))
    ensures forall k :: k in Kids(s, q) <==> KidOf(s, q, k)
  {
    hide Valid, RowKids, RowOk, Flat;
    var lists := RowLists(s, q);
    forall r | 0 <= r < |lists|
      ensures NoRepeat(lists[r]) && forall k :: k in lists[r] <==> KidInRow(s, q, k, r)
    {
      RowKidsMeaning(s, q, r);
    }
    FlatNoRepeat(lists);
    forall k: Path
      ensures k in Flat(lists) <==> KidOf(s, q, k)
    {
      FlatMember(lists, k);
      if KidOf(s, q, k) {
        KidHasRow(s, q, k);
        assert k in lists[k[|q|].n - 1];
      }
    }
  }

  ghost predicate KidInRow(s: Store, q: Path, k: Path, r: nat) {
    KidOf(s, q, k) && |k| > |q| && k[|q|].n == r + 1
  }

  lemma KidHasRow(s: Store, q: Path, k: Path)
    requires Valid(s) && KidOf(s, q, k) && q in s.tables
    ensures |k| > |q| && 1 <= k[|q|].n <= |s.tables[q]|
  {
    hide Valid;
    RowHasCell(s, q, k);
  }

  /** How many paragraphs have paths longer than `n`. */
  ghost function Deeper(s: Store, n: nat): nat {
    |set k: Path | k in s.paragraphs && |k| > n|
  }

  lemma DeeperFalls(s: Store, n: nat, k: Path)
    requires k in s.paragraphs && |k| > n
    ensures Deeper(s, |k|) < Deeper(s, n)
  {
    var below := set x: Path | x in s.paragraphs && |x| > |k|;
    var all := set x: Path | x in s.paragraphs && |x| > n;
    assert below + {k} <= all;
    Smaller(below + {k}, all);
  }

  lemma {:induction false} Smaller(a: set<Path>, b: set<Path>)
    requires a <= b
    ensures |a| <= |b|
  {
    if a != {} {
      var x :| x in a;
      Smaller(a - {x}, b - {x});
    }
  }

  /** The runs met below node `i` of a paragraph. */
  ghost function NodeRuns(s: Store, p: Path, i: nat): seq<Node>
    requires Valid(s) && p in s.paragraphs && i < |s.paragraphs[p]|
    decreases Deeper(s, |p|), 1
  {
    match s.paragraphs[p][i]
    case RunNode(_, _) => [s.paragraphs[p][i]]
    case TableNode(_) => Flat(KidLists(s, p, i))
  }

  ghost function KidLists(s: Store, p: Path, i: nat): (r: seq<seq<Node>>)
    requires Valid(s) && p in s.paragraphs && i < |s.paragraphs[p]| && s.paragraphs[p][i].TableNode?
    decreases Deeper(s, |p|), 0
  {
    var q := s.paragraphs[p][i].path;
    NodeIsOk(s, p, i);
    var kids := Kids(s, q);
    seq(|kids|, j requires 0 <= j < |kids| =>
      KidIsDeeper(s, p, q, j);
      RunsOf(s, kids[j]))
  }

  /** The node that turn `i` is about: first come the runs among `n` nodes, then the tables. */
  function NodeAt(n: nat, i: nat): (j: nat)
    requires i < 2 * n
    ensures j < n
  {
    if i < n then i else i - n
  }

  ghost function NodeLists(s: Store, p: Path): (r: seq<seq<Node>>)
    requires Valid(s) && p in s.paragraphs
    decreases Deeper(s, |p|), 2
  {
    var n := |s.paragraphs[p]|;
    seq(2 * n, i requires 0 <= i < 2 * n =>
      if s.paragraphs[p][NodeAt(n, i)].RunNode? == (i < n) then NodeRuns(s, p, NodeAt(n, i)) else [])
  }

  /** All runs met in a paragraph: its own, then those of its tables. */
  ghost function RunsOf(s: Store, p: Path): seq<Node>
    requires Valid(s) && p in s.paragraphs
    decreases Deeper(s, |p|), 3
  {
    Flat(NodeLists(s, p))
  }

  lemma KidIsDeeper(s: Store, p: Path, q: Path, j: nat)
    requires Valid(s) && p in s.paragraphs && q in s.tables && |q| > |p| && j < |Kids(s, q)|
    ensures KidOf(s, q, Kids(s, q)[j]) && Deeper(s, |Kids(s, q)[j]|) < Deeper(s, |p|)
  {
    hide Valid, Deeper;
    KidsMeaning(s, q);
    assert Kids(s, q)[j] in Kids(s, q);
    DeeperFalls(s, |p|, Kids(s, q)[j]);
  }

  lemma NodeIsOk(s: Store, p: Path, i: nat)
    requires Valid(s) && p in s.paragraphs && i < |s.paragraphs[p]|
    ensures NodeOk(s, p, s.paragraphs[p][i]) && |s.paragraphs[p][i].path| > |p| && s.paragraphs[p][i].path[..|p|] == p
  {
    assert ParagraphOk(s, p);
  }

  ghost predicate Under(a: Path, b: Path) {
    |a| <= |b| && b[..|a|] == a
  }

  lemma UnderTransitive(a: Path, b: Path, c: Path)
    requires Under(a, b) && Under(b, c)
    ensures Under(a, c)
  {
    assert c[..|a|] == b[..|a|];
  }

  /** A path that is met at a node: its own for a run, any below for a table. */
  ghost predicate At(n: Node, path: Path) {
    if n.RunNode? then path == n.path else Under(n.path, path)
  }

  /** No path is met at two different nodes of a paragraph. */
  lemma NodesApart(s: Store, p: Path, i: nat, j: nat, path: Path)
    requires Valid(s) && p in s.paragraphs && i < j < |s.paragraphs[p]|
    requires At(s.paragraphs[p][i], path)
    ensures !At(s.paragraphs[p][j], path)
  {
    var a, b := s.paragraphs[p][i], s.paragraphs[p][j];
    assert a.path != b.path by { assert ParagraphOk(s, p); }
    NodeIsOk(s, p, i);
    NodeIsOk(s, p, j);
    hide Valid;
  }

  /** `runs` are runs of the store met at `node`, each once. */
  ghost predicate RunsAt(s: Store, node: Node, runs: seq<Node>) {
    NoRepeat(runs) && forall n :: n in runs ==> HasRun(s, n) && At(node, n.path)
  }

  ghost predicate RunsBelow(s: Store, p: Path, runs: seq<Node>) {
    NoRepeat(runs) && forall n :: n in runs ==> HasRun(s, n) && Under(p, n.path)
  }

  lemma {:induction false} NodeRunsOnce(s: Store, p: Path, i: nat)
    requires Valid(s) && p in s.paragraphs && i < |s.paragraphs[p]|
    ensures RunsAt(s, s.paragraphs[p][i], NodeRuns(s, p, i))
    decreases Deeper(s, |p|), 0
  {
    hide Valid, Flat, Deeper, HasRun;
    NodeIsOk(s, p, i);
    match s.paragraphs[p][i]
    case RunNode(path, _) =>
      HasItsRun(s, p, i);
    case TableNode(q) =>
      KidsMeaning(s, q);
      var kids, lists := Kids(s, q), KidLists(s, p, i);
      forall j | 0 <= j < |kids|
        ensures RunsBelow(s, kids[j], lists[j]) && KidOf(s, q, kids[j])
      {
        KidIsDeeper(s, p, q, j);
        RunsOnce(s, kids[j]);
      }
      FlatNoRepeat(lists);
      forall n: Node | n in Flat(lists)
        ensures HasRun(s, n) && Under(q, n.path)
      {
        FlatMember(lists, n);
        var j :| 0 <= j < |lists| && n in lists[j];
        UnderTransitive(q, kids[j], n.path);
      }
  }

  lemma HasItsRun(s: Store, p: Path, i: nat)
    requires Valid(s) && p in s.paragraphs && i < |s.paragraphs[p]| && s.paragraphs[p][i].RunNode?
    ensures HasRun(s, s.paragraphs[p][i])
  {
    NodeIsOk(s, p, i);
  }

  lemma {:induction false} RunsOnce(s: Store, p: Path)
    requires Valid(s) && p in s.paragraphs
    ensures RunsBelow(s, p, RunsOf(s, p))
    decreases Deeper(s, |p|), 1
  {
    hide Valid, Flat, Deeper, HasRun, NodeRuns;
    var lists, n := NodeLists(s, p), |s.paragraphs[p]|;
    forall i | 0 <= i < |lists|
      ensures RunsAt(s, s.paragraphs[p][NodeAt(n, i)], lists[i]) && Under(p, s.paragraphs[p][NodeAt(n, i)].path)
    {
      NodeRunsOnce(s, p, NodeAt(n, i));
      NodeIsOk(s, p, NodeAt(n, i));
    }
    forall i, j, m: Node | 0 <= i < j < |lists| && m in lists[i]
      ensures m !in lists[j]
    {
      var a, b := NodeAt(n, i), NodeAt(n, j);
      if a < b {
        NodesApart(s, p, a, b, m.path);
      } else if b < a && m in lists[j] {
        NodesApart(s, p, b, a, m.path);
      }
    }
    FlatNoRepeat(lists);
    forall m: Node | m in Flat(lists)
      ensures HasRun(s, m) && Under(p, m.path)
    {
      FlatMember(lists, m);
      var i :| 0 <= i < |lists| && m in lists[i];
      UnderTransitive(p, s.paragraphs[p][NodeAt(n, i)].path, m.path);
    }
  }

  /** What is met in a cell's paragraph is met in the paragraph that holds the table. */
  lemma MetAbove(s: Store, h: Path, n: Node)
    requires Valid(s) && h in s.paragraphs && |h| > 2 && n in RunsOf(s, h)
    ensures |h| >= 6 && TableShape(h[..|h| - 3]) && TableHome(h[..|h| - 3]) in s.paragraphs
    ensures n in RunsOf(s, TableHome(h[..|h| - 3]))
  {
    hide Valid, Flat, RunsOf;
    HasItsTable(s, h);
    var q := h[..|h| - 3];
    var p := TableHome(q);
    var i :| 0 <= i < |s.paragraphs[p]| && s.paragraphs[p][i] == TableNode(q);
    KidsMeaning(s, q);
    var kids, lists := Kids(s, q), KidLists(s, p, i);
    assert KidOf(s, q, h);
    var j :| 0 <= j < |kids| && kids[j] == h;
    assert n in lists[j];
    FlatMember(lists, n);
    MetAtNode(s, p, i, n);
  }

  lemma MetAtNode(s: Store, p: Path, i: nat, n: Node)
    requires Valid(s) && p in s.paragraphs && i < |s.paragraphs[p]| && n in NodeRuns(s, p, i)
    ensures n in RunsOf(s, p)
  {
    hide Valid, Flat, NodeRuns;
    assert n in NodeLists(s, p)[if s.paragraphs[p][i].RunNode? then i else |s.paragraphs[p]| + i];
    FlatMember(NodeLists(s, p), n);
  }

  lemma HasItsTable(s: Store, h: Path)
    requires Valid(s) && h in s.paragraphs && |h| > 2
    ensures |h| >= 6 && h[..|h| - 3] in s.tables && TableOk(s, h[..|h| - 3])
  {
    hide TableOk;
    HasItsCell(s, h);
    var c := h[..|h| - 1];
    assert c[..|c| - 2] == h[..|h| - 3];
    TableHasShape(s, h[..|h| - 3]);
  }

  lemma TableHasShape(s: Store, q: Path)
    requires Valid(s) && q in s.tables
    ensures TableOk(s, q) && |q| >= 3
  {
  }

  lemma {:induction false} MetAtRoot(s: Store, h: Path, n: Node)
    requires Valid(s) && h in s.paragraphs && n in RunsOf(s, h)
    ensures |h| >= 2 && h[..2] in s.paragraphs && n in RunsOf(s, h[..2])
    decreases |h|
  {
    hide Valid, RunsOf;
    ParagraphHasShape(s, h);
    if |h| == 2 {
      assert h[..2] == h;
    } else {
      MetAbove(s, h, n);
      var p := TableHome(h[..|h| - 3]);
      MetAtRoot(s, p, n);
      assert p[..2] == h[..2];
    }
  }

  /** Walks the paragraphs of the document in order. */
  ghost function Walk(s: Store, roots: seq<Path>): (r: seq<Node>)
    requires Valid(s) && forall i :: 0 <= i < |roots| ==> roots[i] in s.paragraphs
  {
    Flat(seq(|roots|, i requires 0 <= i < |roots| => RunsOf(s, roots[i])))
  }

  /** `roots` lists the paragraphs of the document, each once. */
  ghost predicate Roots(s: Store, roots: seq<Path>) {
    NoRepeat(roots) && (forall p :: p in roots <==> p in s.paragraphs && |p| == 2) &&
    forall i :: 0 <= i < |roots| ==> roots[i] in s.paragraphs
  }

  /** Walking a store whose indexes agree with its tree meets every run exactly once. */
  lemma WalkMeetsEveryRunOnce(s: Store, roots: seq<Path>)
    requires Valid(s) && Roots(s, roots)
    ensures NoRepeat(Walk(s, roots))
    ensures forall n :: n in Walk(s, roots) <==> HasRun(s, n)
  {
    hide Valid, Flat, RunsOf, HasRun;
    var lists := seq(|roots|, i requires 0 <= i < |roots| => RunsOf(s, roots[i]));
    forall i | 0 <= i < |roots|
      ensures RunsBelow(s, roots[i], lists[i]) && |roots[i]| == 2
    {
      RunsOnce(s, roots[i]);
      assert roots[i] in roots;
    }
    FlatNoRepeat(lists);
    forall n: Node
      ensures n in Flat(lists) <==> HasRun(s, n)
    {
      FlatMember(lists, n);
      if HasRun(s, n) {
        MetFromHome(s, n);
        var root := n.path[..2];
        var i :| 0 <= i < |roots| && roots[i] == root;
        assert n in lists[i];
      }
    }
  }

  lemma MetFromHome(s: Store, n: Node)
    requires Valid(s) && HasRun(s, n)
    ensures |n.path| > 2 && n.path[..2] in s.paragraphs && n in RunsOf(s, n.path[..2])
  {
    hide Valid, Flat, RunsOf;
    var p := n.path[..|n.path| - 1];
    ParagraphHasShape(s, p);
    var i :| 0 <= i < |s.paragraphs[p]| && s.paragraphs[p][i] == n;
    MetAtNode(s, p, i, n);
    MetAtRoot(s, p, n);
    assert p[..2] == n.path[..2];
  }
}

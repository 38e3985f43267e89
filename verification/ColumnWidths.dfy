/**
  Column widths of a table from the widths of its cells, in exact arithmetic: unspanned cells set their
  columns, spanning cells divide what is left of their width over the columns nobody has set yet, and
  the table's own width is divided over the columns that remain.
 */
module ColumnWidths {
  import opened Basics

  datatype Width = Unknown | Known(pt: real)

  /** A cell with its one-based column; a cell without a style has span 1 and an unknown width. */
  datatype Cell = Cell(col: int, colspan: int, width: Width)

  datatype Table = Table(cells: seq<Cell>, colCount: int, styleColCount: int, width: Width)

  datatype Spanned = Spanned(start: nat, colspan: nat, total: real)

  function MaxPt(a: real, b: real): real {
    if a < b then b else a
  }

  function ColCountOf(cells: seq<Cell>, least: int): (n: int)
    ensures n >= least
    ensures forall i :: 0 <= i < |cells| ==> cells[i].col + Max(cells[i].colspan, 1) - 1 <= n
    ensures n == least || exists i :: 0 <= i < |cells| && n == cells[i].col + Max(cells[i].colspan, 1) - 1
  {
    if cells == [] then least
    else
      var last := cells[|cells| - 1];
      Max(ColCountOf(cells[..|cells| - 1], least), last.col + Max(last.colspan, 1) - 1)
  }

  function LogicalColCount(t: Table): int {
    ColCountOf(t.cells, Max(t.colCount, t.styleColCount))
  }

  // ---- Unspanned cells ----

  function Start(c: Cell): nat {
    Max(c.col - 1, 0)
  }

  predicate Measured(c: Cell, n: nat) {
    c.width.Known? && Start(c) < n
  }

  function SpanIn(c: Cell, n: nat): nat
    requires Start(c) < n
  {
    Min(Max(c.colspan, 1), n - Start(c))
  }

  /** The cell sets column `i` by itself. */
  predicate Sets(c: Cell, n: nat, i: nat) {
    Measured(c, n) && SpanIn(c, n) == 1 && Start(c) == i
  }

  function PtOf(c: Cell): real
    requires c.width.Known?
  {
    MaxPt(c.width.pt, 0.0)
  }

  function Widen(w: Width, pt: real): Width {
    if w.Unknown? then Known(pt) else Known(MaxPt(w.pt, pt))
  }

  function Widest(cells: seq<Cell>, n: nat, i: nat): Width {
    if cells == [] then Unknown
    else
      var c := cells[|cells| - 1];
      var w := Widest(cells[..|cells| - 1], n, i);
      if Sets(c, n, i) then Widen(w, PtOf(c)) else w
  }

  /** The measured cells over several columns, in order. */
  function SpannedCells(cells: seq<Cell>, n: nat): seq<Spanned> {
    if cells == [] then []
    else
      var c := cells[|cells| - 1];
      SpannedCells(cells[..|cells| - 1], n) +
        if Measured(c, n) && SpanIn(c, n) > 1 then [Spanned(Start(c), SpanIn(c, n), PtOf(c))] else []
  }

  function Single(cells: seq<Cell>, n: nat): (r: seq<Width>)
    ensures |r| == n
  {
    seq(n, i requires 0 <= i < n => Widest(cells, n, i))
  }

  /** A column has a width from unspanned cells exactly when some cell sets it, and it is the largest such width. */
  lemma {:induction false} WidestMeaning(cells: seq<Cell>, n: nat, i: nat)
    ensures Widest(cells, n, i).Known? <==> exists c :: c in cells && Sets(c, n, i)
    ensures forall c :: c in cells && Sets(c, n, i) ==> PtOf(c) <= Widest(cells, n, i).pt
    ensures Widest(cells, n, i).Known? ==> exists c :: c in cells && Sets(c, n, i) && PtOf(c) == Widest(cells, n, i).pt
  {
    if cells != [] {
      var front, last := cells[..|cells| - 1], cells[|cells| - 1];
      WidestMeaning(front, n, i);
      assert cells == front + [last];
      if Sets(last, n, i) {
        assert last in cells;
      }
    }
  }

  /** A cell with a width that lies on more than one column of the table. */
  predicate SpansColumns(c: Cell, n: nat) {
    c.width.Known? && Max(c.col - 1, 0) < n && Max(c.colspan, 1) > 1 && n - Max(c.col - 1, 0) > 1
  }

  predicate IsSpanOf(s: Spanned, c: Cell, n: nat) {
    && SpansColumns(c, n) && s.start == Max(c.col - 1, 0) && s.colspan == Min(Max(c.colspan, 1), n - s.start)
    && s.total == MaxPt(c.width.pt, 0.0)
  }

  lemma SpannedNext(front: seq<Cell>, last: Cell, n: nat)
    ensures var before, now := SpannedCells(front, n), SpannedCells(front + [last], n);
      if SpansColumns(last, n) then |now| == |before| + 1 && before <= now && IsSpanOf(now[|before|], last, n)
      else now == before
  {
    assert (front + [last])[..|front|] == front;
  }

  /** `at` lists, in order, the places of exactly those of the first `m` cells that span columns. */
  ghost predicate SpanPlaces(cells: seq<Cell>, n: nat, at: seq<nat>, m: nat)
    requires m <= |cells|
  {
    && (forall i, j :: 0 <= i < j < |at| ==> at[i] < at[j])
    && (forall k :: k in at <==> 0 <= k < m && SpansColumns(cells[k], n))
  }

  ghost predicate SpansOf(cells: seq<Cell>, n: nat, at: seq<nat>, spanned: seq<Spanned>) {
    |spanned| == |at| && forall j :: 0 <= j < |at| ==> at[j] < |cells| && IsSpanOf(spanned[j], cells[at[j]], n)
  }

  lemma SpanPlacesMore(cells: seq<Cell>, n: nat, at: seq<nat>, m: nat)
    requires m < |cells| && SpanPlaces(cells, n, at, m)
    ensures SpanPlaces(cells, n, if SpansColumns(cells[m], n) then at + [m] else at, m + 1)
  {
    hide SpansColumns;
    assert forall j :: 0 <= j < |at| ==> at[j] in at;
    assert forall k :: k in at + [m] <==> k in at || k == m;
  }

  lemma SpansOfMore(cells: seq<Cell>, n: nat, at: seq<nat>, spanned: seq<Spanned>, m: nat, now: seq<Spanned>)
    requires m < |cells| && SpansOf(cells, n, at, spanned)
    requires |now| == |spanned| + 1 && spanned <= now && IsSpanOf(now[|spanned|], cells[m], n)
    ensures SpansOf(cells, n, at + [m], now)
  {
    hide IsSpanOf;
  }

  lemma {:induction false} SpannedSoFar(cells: seq<Cell>, n: nat, m: nat) returns (at: seq<nat>)
    requires m <= |cells|
    ensures SpanPlaces(cells, n, at, m) && SpansOf(cells, n, at, SpannedCells(cells[..m], n))
  {
    at := [];
    if m > 0 {
      var front, last := cells[..m - 1], cells[m - 1];
      at := SpannedSoFar(cells, n, m - 1);
      hide SpanPlaces, SpansOf, SpannedCells, SpansColumns, IsSpanOf;
      assert cells[..m] == front + [last];
      SpannedNext(front, last, n);
      SpanPlacesMore(cells, n, at, m - 1);
      if SpansColumns(last, n) {
        SpansOfMore(cells, n, at, SpannedCells(front, n), m - 1, SpannedCells(cells[..m], n));
        at := at + [m - 1];
      }
    }
  }

  /** The spanning cells are those with a width on several columns, in the order of the table, cut at its edge. */
  lemma SpannedMeaning(cells: seq<Cell>, n: nat) returns (at: seq<nat>)
    ensures SpanPlaces(cells, n, at, |cells|) && SpansOf(cells, n, at, SpannedCells(cells, n))
  {
    hide SpanPlaces, SpansOf, SpannedCells;
    at := SpannedSoFar(cells, n, |cells|);
    assert cells[..|cells|] == cells;
  }

  lemma {:induction false} SpannedInside(cells: seq<Cell>, n: nat, j: nat)
    requires j < |SpannedCells(cells, n)|
    ensures var s := SpannedCells(cells, n)[j]; s.colspan > 1 && s.start + s.colspan <= n && s.total >= 0.0
    decreases |cells|
  {
    var front := cells[..|cells| - 1];
    if j < |SpannedCells(front, n)| {
      SpannedInside(front, n, j);
    }
  }

  // ---- Sharing out ----

  function KnownSum(w: seq<Width>, lo: nat, hi: nat): (r: real)
    requires lo <= hi <= |w|
  {
    if lo == hi then 0.0
    else KnownSum(w, lo, hi - 1) + if w[hi - 1].Known? then w[hi - 1].pt else 0.0
  }

  function UnknownCount(w: seq<Width>, lo: nat, hi: nat): (r: nat)
    requires lo <= hi <= |w|
    ensures r == 0 <==> forall i :: lo <= i < hi ==> w[i].Known?
  {
    if lo == hi then 0
    else UnknownCount(w, lo, hi - 1) + if w[hi - 1].Unknown? then 1 else 0
  }

  /** Gives every unknown column of `lo .. hi` the same width. */
  function FillWith(w: seq<Width>, lo: nat, hi: nat, share: real): (r: seq<Width>)
    requires lo <= hi <= |w|
    ensures |r| == |w|
  {
    seq(|w|, i requires 0 <= i < |w| => if lo <= i < hi && w[i].Unknown? then Known(share) else w[i])
  }

  predicate InsideOf(s: Spanned, n: nat) {
    s.colspan > 0 && s.start + s.colspan <= n
  }

  function ShareOf(w: seq<Width>, s: Spanned): real
    requires InsideOf(s, |w|) && UnknownCount(w, s.start, s.start + s.colspan) > 0
  {
    var left := MaxPt(s.total - KnownSum(w, s.start, s.start + s.colspan), 0.0);
    if left != 0.0 then left / UnknownCount(w, s.start, s.start + s.colspan) as real else s.total / s.colspan as real
  }

  function Distribute(w: seq<Width>, s: Spanned): (r: seq<Width>)
    requires InsideOf(s, |w|)
    ensures |r| == |w|
  {
    if UnknownCount(w, s.start, s.start + s.colspan) == 0 then w
    else FillWith(w, s.start, s.start + s.colspan, ShareOf(w, s))
  }

  ghost predicate AllInside(spanned: seq<Spanned>, n: nat) {
    forall j :: 0 <= j < |spanned| ==> InsideOf(spanned[j], n)
  }

  function DistributeAll(w: seq<Width>, spanned: seq<Spanned>, k: nat): (r: seq<Width>)
    requires AllInside(spanned, |w|) && k <= |spanned|
    ensures |r| == |w|
  {
    if k == 0 then w else Distribute(DistributeAll(w, spanned, k - 1), spanned[k - 1])
  }

  function FillTable(w: seq<Width>, table: Width): (r: seq<Width>)
    ensures |r| == |w|
  {
    if table.Unknown? then w
    else
      var left := MaxPt(MaxPt(table.pt, 0.0) - KnownSum(w, 0, |w|), 0.0);
      var unknown := UnknownCount(w, 0, |w|);
      if unknown > 0 && left != 0.0 then FillWith(w, 0, |w|, left / unknown as real) else w
  }

  function Shared(t: Table): seq<Width> {
    if LogicalColCount(t) <= 0 then []
    else
      var n := LogicalColCount(t);
      var spanned := SpannedCells(t.cells, n);
      AllSpannedInside(t.cells, n);
      DistributeAll(Single(t.cells, n), spanned, |spanned|)
  }

  function Widths(t: Table): seq<Width> {
    FillTable(Shared(t), t.width)
  }

  lemma AllSpannedInside(cells: seq<Cell>, n: nat)
    ensures AllInside(SpannedCells(cells, n), n)
  {
    forall j | 0 <= j < |SpannedCells(cells, n)|
      ensures InsideOf(SpannedCells(cells, n)[j], n)
    {
      SpannedInside(cells, n, j);
    }
  }

  // ---- The imperative form ----

  /** Sets the unknown columns of `lo .. hi`. */
  method AssignUnknown(widths: array<Width>, lo: nat, hi: nat, share: real)
    requires lo <= hi <= widths.Length
    modifies widths
    ensures widths[..] == FillWith(old(widths[..]), lo, hi, share)
  {
    for i := lo to hi
      invariant widths[..] == FillWith(old(widths[..]), lo, i, share)
    {
      if widths[i].Unknown? {
        widths[i] := Known(share);
      }
    }
  }

  method Measure(widths: array<Width>, lo: nat, hi: nat) returns (known: real, unknown: nat)
    requires lo <= hi <= widths.Length
    ensures known == KnownSum(widths[..], lo, hi) && unknown == UnknownCount(widths[..], lo, hi)
  {
    known, unknown := 0.0, 0;
    for i := lo to hi
      invariant known == KnownSum(widths[..], lo, i) && unknown == UnknownCount(widths[..], lo, i)
    {
      match widths[i]
      case Known(pt) => known := known + pt;
      case Unknown => unknown := unknown + 1;
    }
  }

  method DistributeSpan(widths: array<Width>, s: Spanned)
    requires InsideOf(s, widths.Length)
    modifies widths
    ensures widths[..] == Distribute(old(widths[..]), s)
  {
    var known, unknown := Measure(widths, s.start, s.start + s.colspan);
    if unknown == 0 {
      return;
    }
    var left := MaxPt(s.total - known, 0.0);
    var share := if left != 0.0 then left / unknown as real else s.total / s.colspan as real;
    AssignUnknown(widths, s.start, s.start + s.colspan, share);
  }

  /** The unspanned cells set their columns; the spanning ones are put aside. */
  method CollectCells(cells: seq<Cell>, widths: array<Width>) returns (spanned: seq<Spanned>)
    requires forall i :: 0 <= i < widths.Length ==> widths[i].Unknown?
    modifies widths
    ensures widths[..] == Single(cells, widths.Length)
    ensures spanned == SpannedCells(cells, widths.Length)
  {
    spanned := [];
    var n := widths.Length;
    assert cells[..0] == [];
    for k := 0 to |cells|
      invariant forall i :: 0 <= i < n ==> widths[i] == Widest(cells[..k], n, i)
      invariant spanned == SpannedCells(cells[..k], n)
    {
      var c := cells[k];
      assert cells[..k + 1][..k] == cells[..k];
      if c.width.Unknown? {
        continue;
      }
      var start := Max(c.col - 1, 0);
      if start >= n {
        continue;
      }
      var colspan := Min(Max(c.colspan, 1), n - start);
      if colspan == 1 {
        widths[start] := Widen(widths[start], PtOf(c));
      } else {
        spanned := spanned + [Spanned(start, colspan, PtOf(c))];
      }
    }
    assert cells[..|cells|] == cells;
  }

  method TableColumnWidths(t: Table) returns (r: seq<Width>)
    ensures r == Widths(t)
  {
    hide ColCountOf, Single, SpannedCells;
    var n := LogicalColCount(t);
    if n <= 0 {
      return [];
    }
    var widths := new Width[n](_ => Unknown);
    var spanned := CollectCells(t.cells, widths);
    AllSpannedInside(t.cells, n);
    for k := 0 to |spanned|
      invariant widths[..] == DistributeAll(Single(t.cells, n), spanned, k)
    {
      DistributeSpan(widths, spanned[k]);
    }
    if t.width.Known? {
      var known, unknown := Measure(widths, 0, n);
      var left := MaxPt(MaxPt(t.width.pt, 0.0) - known, 0.0);
      if unknown > 0 && left != 0.0 {
        AssignUnknown(widths, 0, n, left / unknown as real);
      }
    }
    r := widths[..];
  }

  // ---- What the widths mean ----

  /** `later` has every width that `w` has. */
  ghost predicate Extends(later: seq<Width>, w: seq<Width>) {
    |later| == |w| && forall i :: 0 <= i < |w| && w[i].Known? ==> later[i] == w[i]
  }

  /** One column more. */
  lemma FillStep(w: seq<Width>, lo: nat, hi: nat, share: real, i: nat)
    requires lo <= i < hi <= |w|
    ensures KnownSum(FillWith(w, lo, hi, share), lo, i + 1) == KnownSum(FillWith(w, lo, hi, share), lo, i) +
      if w[i].Unknown? then share else w[i].pt
    ensures KnownSum(w, lo, i + 1) == KnownSum(w, lo, i) + if w[i].Unknown? then 0.0 else w[i].pt
    ensures UnknownCount(w, lo, i + 1) == UnknownCount(w, lo, i) + if w[i].Unknown? then 1 else 0
  {
  }

  lemma {:induction false} FillAddsUp(w: seq<Width>, lo: nat, hi: nat, share: real, upTo: nat)
    requires lo <= upTo <= hi <= |w|
    ensures KnownSum(FillWith(w, lo, hi, share), lo, upTo) ==
      KnownSum(w, lo, upTo) + share * UnknownCount(w, lo, upTo) as real
  {
    if lo < upTo {
      var i := upTo - 1;
      FillAddsUp(w, lo, hi, share, i);
      FillStep(w, lo, hi, share, i);
      hide KnownSum, FillWith, UnknownCount;
      OneShareMore(share, UnknownCount(w, lo, i));
    }
  }

  lemma OneShareMore(share: real, count: nat)
    ensures share * (count + 1) as real == share * count as real + share
  {
  }

  lemma {:induction false} SumStays(later: seq<Width>, w: seq<Width>, lo: nat, hi: nat)
    requires Extends(later, w) && lo <= hi <= |w| && UnknownCount(w, lo, hi) == 0
    ensures KnownSum(later, lo, hi) == KnownSum(w, lo, hi)
  {
    if lo < hi {
      SumStays(later, w, lo, hi - 1);
    }
  }

  lemma ShareTimesCount(left: real, n: nat)
    requires n > 0
    ensures left / n as real * n as real == left
  {
  }

  /** A spanning cell that meets an unknown column and is wider than the known ones is met exactly. */
  lemma DistributeMeets(w: seq<Width>, s: Spanned)
    requires InsideOf(s, |w|)
    requires UnknownCount(w, s.start, s.start + s.colspan) > 0
    requires s.total > KnownSum(w, s.start, s.start + s.colspan)
    ensures KnownSum(Distribute(w, s), s.start, s.start + s.colspan) == s.total
    ensures UnknownCount(Distribute(w, s), s.start, s.start + s.colspan) == 0
  {
    var lo, hi := s.start, s.start + s.colspan;
    FillAddsUp(w, lo, hi, ShareOf(w, s), hi);
    ShareTimesCount(s.total - KnownSum(w, lo, hi), UnknownCount(w, lo, hi));
  }

  lemma {:induction false} DistributeAllExtends(w: seq<Width>, spanned: seq<Spanned>, j: nat, k: nat)
    requires AllInside(spanned, |w|) && j <= k <= |spanned|
    ensures Extends(DistributeAll(w, spanned, k), DistributeAll(w, spanned, j))
    decreases k
  {
    if j < k {
      DistributeAllExtends(w, spanned, j, k - 1);
    }
  }

  lemma FinalExtends(t: Table, k: nat)
    requires LogicalColCount(t) > 0 && k <= |SpannedCells(t.cells, LogicalColCount(t))|
    ensures AllInside(SpannedCells(t.cells, LogicalColCount(t)), LogicalColCount(t))
    ensures Extends(Widths(t),
      DistributeAll(Single(t.cells, LogicalColCount(t)), SpannedCells(t.cells, LogicalColCount(t)), k))
  {
    hide Single, SpannedCells, DistributeAll, KnownSum;
    var n := LogicalColCount(t);
    AllSpannedInside(t.cells, n);
    DistributeAllExtends(Single(t.cells, n), SpannedCells(t.cells, n), k, |SpannedCells(t.cells, n)|);
  }

  /** There are as many widths as the table counts columns, or as its cells reach. */
  lemma OneWidthPerColumn(t: Table)
    ensures var n := |Widths(t)|;
      && t.colCount <= n && t.styleColCount <= n
      && (forall c <- t.cells :: c.col + Max(c.colspan, 1) - 1 <= n)
      && (n == 0 || n == t.colCount || n == t.styleColCount
          || exists c <- t.cells :: n == c.col + Max(c.colspan, 1) - 1)
  {
    hide FillTable, DistributeAll, Single, SpannedCells;
    var n := LogicalColCount(t);
    assert n > 0 ==> |Shared(t)| == n;
    forall c | c in t.cells
      ensures c.col + Max(c.colspan, 1) - 1 <= n
    {
      var i :| 0 <= i < |t.cells| && t.cells[i] == c;
    }
    if i :| 0 <= i < |t.cells| && n == t.cells[i].col + Max(t.cells[i].colspan, 1) - 1 {
      assert t.cells[i] in t.cells;
    }
  }

  /** A column that unspanned cells set ends with the largest of their widths. */
  lemma UnspannedKeepsLargest(t: Table, i: nat)
    requires i < LogicalColCount(t)
    requires exists c :: c in t.cells && Sets(c, LogicalColCount(t), i)
    ensures |Widths(t)| == LogicalColCount(t) && Widths(t)[i].Known?
    ensures forall c :: c in t.cells && Sets(c, LogicalColCount(t), i) ==> PtOf(c) <= Widths(t)[i].pt
    ensures exists c :: c in t.cells && Sets(c, LogicalColCount(t), i) && PtOf(c) == Widths(t)[i].pt
  {
    hide Widths, Widest;
    var n := LogicalColCount(t);
    WidestMeaning(t.cells, n, i);
    FinalExtends(t, 0);
    assert Single(t.cells, n)[i] == Widest(t.cells, n, i);
  }

  /** Whether column `i` has a width when the `k`-th spanning cell has its turn. */
  ghost predicate SetBefore(t: Table, k: nat, i: nat)
    requires LogicalColCount(t) > 0 && k <= |SpannedCells(t.cells, LogicalColCount(t))|
  {
    var n := LogicalColCount(t);
    (exists c :: c in t.cells && Sets(c, n, i)) ||
    exists j :: 0 <= j < k && var s := SpannedCells(t.cells, n)[j]; s.start <= i < s.start + s.colspan
  }

  lemma {:induction false} KnownIffSetBefore(t: Table, k: nat, i: nat)
    requires i < LogicalColCount(t) && k <= |SpannedCells(t.cells, LogicalColCount(t))|
    ensures AllInside(SpannedCells(t.cells, LogicalColCount(t)), LogicalColCount(t))
    ensures DistributeAll(Single(t.cells, LogicalColCount(t)), SpannedCells(t.cells, LogicalColCount(t)), k)[i].Known?
      <==> SetBefore(t, k, i)
    decreases k
  {
    hide Widest, SpannedCells, LogicalColCount, ShareOf;
    var n := LogicalColCount(t);
    AllSpannedInside(t.cells, n);
    WidestMeaning(t.cells, n, i);
    if k > 0 {
      KnownIffSetBefore(t, k - 1, i);
      var s := SpannedCells(t.cells, n)[k - 1];
      assert SetBefore(t, k, i) <==> SetBefore(t, k - 1, i) || s.start <= i < s.start + s.colspan;
    }
  }

  lemma MetThenKept(w: seq<Width>, s: Spanned, later: seq<Width>, i: nat)
    requires InsideOf(s, |w|) && s.start <= i < s.start + s.colspan && w[i].Unknown?
    requires Extends(later, Distribute(w, s))
    ensures later[i].Known? &&
      if s.total > KnownSum(w, s.start, s.start + s.colspan)
      then KnownSum(later, s.start, s.start + s.colspan) == s.total
      else later[i].pt == s.total / s.colspan as real
  {
    hide KnownSum;
    if s.total > KnownSum(w, s.start, s.start + s.colspan) {
      DistributeMeets(w, s);
      SumStays(later, Distribute(w, s), s.start, s.start + s.colspan);
    }
  }

  /** The columns when the `k`-th spanning cell has its turn. */
  ghost function Before(t: Table, k: nat): (w: seq<Width>)
    requires LogicalColCount(t) > 0 && k <= |SpannedCells(t.cells, LogicalColCount(t))|
    ensures |w| == LogicalColCount(t)
  {
    AllSpannedInside(t.cells, LogicalColCount(t));
    DistributeAll(Single(t.cells, LogicalColCount(t)), SpannedCells(t.cells, LogicalColCount(t)), k)
  }

  /**
    A spanning cell with a column that no unspanned and no earlier spanning cell sets, and wider than the
    columns set by then, has columns that add up to its width in the end. If it is not wider, each such
    column has an equal part of its width in the end.
   */
  lemma SpanIsMetForGood(t: Table, k: nat, i: nat)
    requires LogicalColCount(t) > 0 && k < |SpannedCells(t.cells, LogicalColCount(t))|
    requires var s := SpannedCells(t.cells, LogicalColCount(t))[k]; s.start <= i < s.start + s.colspan
    requires !SetBefore(t, k, i)
    ensures var s := SpannedCells(t.cells, LogicalColCount(t))[k];
      s.start + s.colspan <= |Before(t, k)| == |Widths(t)| && Widths(t)[i].Known? &&
      if s.total > KnownSum(Before(t, k), s.start, s.start + s.colspan)
      then KnownSum(Widths(t), s.start, s.start + s.colspan) == s.total
      else Widths(t)[i].pt == s.total / s.colspan as real
  {
    hide SpannedCells, LogicalColCount, Single, Widths, SetBefore, KnownSum, Distribute, UnknownCount;
    var n := LogicalColCount(t);
    var spanned := SpannedCells(t.cells, n);
    AllSpannedInside(t.cells, n);
    var s := spanned[k];
    assert InsideOf(s, n);
    KnownIffSetBefore(t, k, i);
    var w := Before(t, k);
    assert w[i].Unknown?;
    FinalExtends(t, k + 1);
    assert DistributeAll(Single(t.cells, n), spanned, k + 1) == Distribute(w, s);
    MetThenKept(w, s, Widths(t), i);
  }

  /** Columns that no cell sets make the total the table's width, if room remains; else they stay as they are. */
  lemma TableWidthIsMet(t: Table)
    requires LogicalColCount(t) > 0
    ensures var n, spanned := LogicalColCount(t), SpannedCells(t.cells, LogicalColCount(t));
      var left := if t.width.Known? then MaxPt(t.width.pt, 0.0) - KnownSum(Before(t, |spanned|), 0, n) else 0.0;
      |Widths(t)| == n &&
      if left > 0.0 && exists i :: 0 <= i < n && !SetBefore(t, |spanned|, i)
      then KnownSum(Widths(t), 0, n) == MaxPt(t.width.pt, 0.0) && forall i :: 0 <= i < n ==> Widths(t)[i].Known?
      else Widths(t) == Before(t, |spanned|)
  {
    hide SpannedCells, LogicalColCount, Single, SetBefore, DistributeAll, KnownSum;
    var n := LogicalColCount(t);
    var spanned := SpannedCells(t.cells, n);
    AllSpannedInside(t.cells, n);
    var w := Before(t, |spanned|);
    assert w == Shared(t);
    forall i | 0 <= i < n
      ensures w[i].Known? <==> SetBefore(t, |spanned|, i)
    {
      KnownIffSetBefore(t, |spanned|, i);
    }
    var unknown := UnknownCount(w, 0, n);
    if t.width.Known? && unknown > 0 {
      var left := MaxPt(t.width.pt, 0.0) - KnownSum(w, 0, n);
      FillAddsUp(w, 0, n, left / unknown as real, n);
      ShareTimesCount(left, unknown);
    }
  }

  /** Columns that a spanning cell is the first to set get equal parts. */
  lemma EqualParts(t: Table, k: nat, i: nat, j: nat)
    requires LogicalColCount(t) > 0 && k < |SpannedCells(t.cells, LogicalColCount(t))|
    requires var s := SpannedCells(t.cells, LogicalColCount(t))[k];
      s.start <= i < s.start + s.colspan && s.start <= j < s.start + s.colspan
    requires !SetBefore(t, k, i) && !SetBefore(t, k, j)
    ensures i < |Widths(t)| && j < |Widths(t)| && Widths(t)[i] == Widths(t)[j]
  {
    hide SpannedCells, LogicalColCount, Single, Widths, SetBefore, KnownSum;
    var n := LogicalColCount(t);
    AllSpannedInside(t.cells, n);
    assert InsideOf(SpannedCells(t.cells, n)[k], n);
    KnownIffSetBefore(t, k, i);
    KnownIffSetBefore(t, k, j);
    FinalExtends(t, k + 1);
    assert DistributeAll(Single(t.cells, n), SpannedCells(t.cells, n), k + 1)
        == Distribute(Before(t, k), SpannedCells(t.cells, n)[k]);
  }

  /** So do the columns that no cell sets. */
  lemma EqualRest(t: Table, i: nat, j: nat)
    requires LogicalColCount(t) > 0 && i < LogicalColCount(t) && j < LogicalColCount(t)
    requires var all := |SpannedCells(t.cells, LogicalColCount(t))|; !SetBefore(t, all, i) && !SetBefore(t, all, j)
    ensures |Widths(t)| == LogicalColCount(t) && Widths(t)[i] == Widths(t)[j]
  {
    hide SpannedCells, LogicalColCount, Single, SetBefore, DistributeAll, KnownSum;
    var n := LogicalColCount(t);
    AllSpannedInside(t.cells, n);
    assert Before(t, |SpannedCells(t.cells, n)|) == Shared(t);
    KnownIffSetBefore(t, |SpannedCells(t.cells, n)|, i);
    KnownIffSetBefore(t, |SpannedCells(t.cells, n)|, j);
  }
}

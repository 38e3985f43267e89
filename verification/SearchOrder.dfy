/**
  In which order the neighbourhood search spends its room: level by level, and within a level by turns between
  the nodes it comes from.
 */
module SearchOrder {
  import opened KeyedList
  import opened EvidenceGraph
  import opened Neighborhood

  // ---- Level by level ----

  /** All of one level, or the room is used up on the way to it. */
  ghost predicate Level(edges: seq<Edge>, permitted: set<string>, start: set<string>, limit: int, s: Search, d: nat) {
    && NoRepeat(s.kept)
    && ((Elems(s.kept) == Ball(edges, permitted, start, d) && LastLayer(edges, permitted, start, s, d)) ||
        (|s.kept| >= limit && exists e: nat :: e < d && Between(edges, permitted, start, s.kept, e)))
  }

  ghost predicate LastLayer(edges: seq<Edge>, permitted: set<string>, start: set<string>, s: Search, d: nat) {
    && Elems(s.frontier) <= Elems(s.kept)
    && (if d == 0 then Elems(s.frontier) == Elems(s.kept)
        else Elems(s.kept) - Elems(s.frontier) == Ball(edges, permitted, start, d - 1))
  }

  /** Everything within `e` hops, and nothing beyond one more. */
  ghost predicate Between(edges: seq<Edge>, permitted: set<string>, start: set<string>, kept: seq<string>, e: nat) {
    Ball(edges, permitted, start, e) <= Elems(kept) <= Ball(edges, permitted, start, e + 1)
  }

  lemma RoundLevel(edges: seq<Edge>, permitted: set<string>, start: set<string>, limit: int, s: Search, d: nat)
    requires Level(edges, permitted, start, limit, s, d)
    ensures Level(edges, permitted, start, limit, Round(edges, permitted, limit, s), d + 1)
  {
    hide Ball, Fringe, Distinct, Interleave, Rows, TakeKeys, LastLayer;
    var keys := Distinct(Interleave(Rows(edges, s.frontier, permitted, s.kept)));
    RoundKeys(edges, permitted, s);
    TakeKeysMeaning(s.kept, keys, limit);
    var r := Round(edges, permitted, limit, s);
    if Elems(s.kept) == Ball(edges, permitted, start, d) && LastLayer(edges, permitted, start, s, d) {
      WholeLevel(edges, permitted, start, limit, s, d, keys, r);
    } else {
      var e: nat :| e < d && Between(edges, permitted, start, s.kept, e);
      assert r.kept == s.kept && Between(edges, permitted, start, r.kept, e);
    }
  }

  lemma WholeLevel(edges: seq<Edge>, permitted: set<string>, start: set<string>, limit: int, s: Search, d: nat,
                   keys: seq<string>, r: Search)
    requires NoRepeat(s.kept) && Elems(s.kept) == Ball(edges, permitted, start, d)
    requires LastLayer(edges, permitted, start, s, d)
    requires NoRepeat(keys) && Elems(keys) == Fringe(edges, permitted, Elems(s.frontier), Elems(s.kept))
    requires |r.frontier| <= |keys| && r.frontier == keys[..|r.frontier|] && r.kept == s.kept + r.frontier
    requires |r.kept| < limit ==> r.frontier == keys
    ensures Level(edges, permitted, start, limit, r, d + 1)
  {
    hide Ball, Fringe;
    var b := Ball(edges, permitted, start, d);
    BallNext(edges, permitted, start, d);
    FringeOfFrontier(edges, permitted, start, Elems(s.frontier), d);
    FringeInside(edges, permitted, Elems(s.frontier), Elems(s.kept), b);
    PrefixElems(keys, |r.frontier|);
    NoRepeatConcat(s.kept, r.frontier);
    if r.frontier == keys {
      assert Elems(r.kept) - Elems(r.frontier) == b;
    } else {
      assert Between(edges, permitted, start, r.kept, d);
    }
  }

  /** Nearest first: either the whole ball, or the room is used up with everything closer than the farthest level. */
  ghost predicate NearestFirst(edges: seq<Edge>, permitted: set<string>, start: set<string>, limit: int,
                               kept: seq<string>) {
    || Elems(kept) == Ball(edges, permitted, start, 3)
    || (|kept| >= limit && exists e: nat :: e < 3 && Between(edges, permitted, start, kept, e))
  }

  lemma {:induction false} RoundsLevel(edges: seq<Edge>, permitted: set<string>, start: set<string>, limit: int,
                                       s: Search, d: nat, n: nat)
    requires Level(edges, permitted, start, limit, s, d) && d + n == 3
    ensures NearestFirst(edges, permitted, start, limit, Rounds(edges, permitted, limit, s, n).kept)
    decreases n
  {
    hide Ball, Round, Between;
    if n > 0 {
      RoundLevel(edges, permitted, start, limit, s, d);
      var next := Round(edges, permitted, limit, s);
      if next.frontier == [] {
        if Elems(next.kept) == Ball(edges, permitted, start, d + 1) && LastLayer(edges, permitted, start, next, d + 1) {
          assert Elems(next.kept) - Elems([]) == Elems(next.kept);
          BallStable(edges, permitted, start, d + 1, 3);
        }
      } else {
        RoundsLevel(edges, permitted, start, limit, next, d + 1, n - 1);
      }
    }
  }

  /** The search keeps nearer nodes first, and stops short of the ball only when its room is used up. */
  lemma FoundNearestFirst(g: Graph, focus: seq<string>, limit: int)
    ensures var start := Elems(Start(g, focus));
      NearestFirst(g.edges, Permitted(g, start), start, limit, Found(g, focus, limit))
  {
    hide Rounds, Distinct, KnownKeys, Permitted, NearestFirst;
    var start := Start(g, focus);
    DistinctElems(KnownKeys(focus, Ids(g.nodes)));
    assert Level(g.edges, Permitted(g, Elems(start)), Elems(start), limit, Search(start, start), 0);
    RoundsLevel(g.edges, Permitted(g, Elems(start)), Elems(start), limit, Search(start, start), 0, 3);
  }

  // ---- By turns ----

  /** An entry of the rows: its place in its row, and the row. */
  datatype Place = Place(at: nat, row: nat)

  predicate ValidPlace(rows: seq<seq<string>>, p: Place) {
    p.row < |rows| && p.at < |rows[p.row]|
  }

  function EntryAt(rows: seq<seq<string>>, p: Place): string
    requires ValidPlace(rows, p)
  {
    rows[p.row][p.at]
  }

  /** Earlier in its row, or equally early in an earlier row. */
  predicate Sooner(p: Place, q: Place) {
    p.at < q.at || (p.at == q.at && p.row < q.row)
  }

  /** The sequence lists the entries at the given places. */
  ghost predicate Lists(rows: seq<seq<string>>, s: seq<string>, places: seq<Place>) {
    && |s| == |places|
    && (forall j :: 0 <= j < |places| ==> ValidPlace(rows, places[j]) && EntryAt(rows, places[j]) == s[j])
    && (forall i, j :: 0 <= i < j < |places| ==> Sooner(places[i], places[j]))
  }

  lemma {:induction false} ColumnPlaces(rows: seq<seq<string>>, m: nat, i: nat) returns (places: seq<Place>)
    requires m <= |rows|
    ensures Lists(rows, Column(rows[..m], i), places)
    ensures forall p :: p in places <==> ValidPlace(rows, p) && p.at == i && p.row < m
    decreases m
  {
    places := [];
    if m > 0 {
      places := ColumnPlaces(rows, m - 1, i);
      assert rows[..m][..m - 1] == rows[..m - 1];
      if i < |rows[m - 1]| {
        assert forall j :: 0 <= j < |places| ==> places[j] in places;
        places := places + [Place(i, m - 1)];
      }
    }
  }

  lemma {:induction false} ColumnsPlaces(rows: seq<seq<string>>, n: nat) returns (places: seq<Place>)
    ensures Lists(rows, Columns(rows, n), places)
    ensures forall p :: p in places <==> ValidPlace(rows, p) && p.at < n
    decreases n
  {
    places := [];
    if n > 0 {
      places := ColumnsPlaces(rows, n - 1);
      var more := ColumnPlaces(rows, |rows|, n - 1);
      assert rows[..|rows|] == rows;
      hide Columns, Column;
      assert forall j :: 0 <= j < |places| ==> places[j] in places;
      assert forall j :: 0 <= j < |more| ==> more[j] in more;
      JoinLists(rows, Columns(rows, n - 1), places, Column(rows, n - 1), more);
      ColumnsNext(rows, n);
      places := places + more;
    }
  }

  lemma ColumnsNext(rows: seq<seq<string>>, n: nat)
    requires n > 0
    ensures Columns(rows, n) == Columns(rows, n - 1) + Column(rows, n - 1)
  {
  }

  lemma JoinLists(rows: seq<seq<string>>, s: seq<string>, a: seq<Place>, t: seq<string>, b: seq<Place>)
    requires Lists(rows, s, a) && Lists(rows, t, b)
    requires forall i, j :: 0 <= i < |a| && 0 <= j < |b| ==> Sooner(a[i], b[j])
    ensures Lists(rows, s + t, a + b)
  {
    hide Sooner;
  }

  /** Of distinct entries, an earlier one occurs before every occurrence of a later one. */
  lemma {:induction false} DistinctFirst(s: seq<string>, a: nat, b: nat) returns (x: nat)
    requires a < b < |Distinct(s)|
    ensures x < |s| && s[x] == Distinct(s)[a] && forall y :: 0 <= y < |s| && s[y] == Distinct(s)[b] ==> x < y
    decreases |s|
  {
    var n := |s| - 1;
    var front, d := s[..n], Distinct(s[..n]);
    DistinctElems(front);
    if b < |d| {
      x := DistinctFirst(front, a, b);
      assert forall y :: 0 <= y < n ==> front[y] == s[y];
    } else {
      assert Distinct(s)[b] == s[n] && s[n] !in d;
      assert d[a] in Elems(d) && d[a] in Elems(front);
      x :| 0 <= x < |front| && front[x] == d[a];
      assert s[n] !in Elems(d) && s[n] !in Elems(front);
      assert forall y :: 0 <= y < n ==> front[y] == s[y] && front[y] in Elems(front);
    }
  }

  /**
    When the room ends within a level, nodes are taken by turns: a node that is taken has a place in the rows of
    the nodes it is reached from that comes sooner than every place of a node that is not taken.
   */
  lemma TakesTurns(edges: seq<Edge>, permitted: set<string>, limit: int, s: Search, taken: string, left: string)
      returns (p: Place)
    requires taken in Round(edges, permitted, limit, s).frontier
    requires left in Distinct(Interleave(Rows(edges, s.frontier, permitted, s.kept)))
    requires left !in Round(edges, permitted, limit, s).frontier
    ensures var rows := Rows(edges, s.frontier, permitted, s.kept);
      && ValidPlace(rows, p) && EntryAt(rows, p) == taken
      && forall q :: ValidPlace(rows, q) && EntryAt(rows, q) == left ==> Sooner(p, q)
  {
    hide Distinct, Rows, TakeKeys, Columns, Longest, Sooner;
    var rows := Rows(edges, s.frontier, permitted, s.kept);
    var all := Interleave(rows);
    var keys, r := Distinct(all), Round(edges, permitted, limit, s);
    TakeKeysMeaning(s.kept, keys, limit);
    var a :| 0 <= a < |r.frontier| && r.frontier[a] == taken;
    var b :| 0 <= b < |keys| && keys[b] == left;
    assert keys[a] == taken;
    assert forall j :: 0 <= j < |r.frontier| ==> keys[j] == r.frontier[j] && keys[j] in r.frontier;
    var x := DistinctFirst(all, a, b);
    var places := ColumnsPlaces(rows, Longest(rows));
    p := places[x];
    forall q | ValidPlace(rows, q) && EntryAt(rows, q) == left
      ensures Sooner(p, q)
    {
      assert q in places;
      var y :| 0 <= y < |places| && places[y] == q;
      assert all[y] == left;
    }
  }

  // ---- What the result says of itself ----

  /** The result is marked truncated exactly when the graph was, or some node of it is not kept. */
  lemma MarkedIfSmaller(g: Graph, focus: seq<string>, limit: int)
    ensures var r := FocusNeighborhood(g, focus, limit);
      && (r.truncated <==> g.truncated || Ids(r.nodes) != Ids(g.nodes)) && r.warnings == g.warnings
  {
    hide Found, Filter, Pick;
    var kept := Found(g, focus, limit);
    FoundMeaning(g, focus, limit);
    FocusBallKnown(g, focus);
    PickIds(ByKey(g.nodes), kept);
    ElemsSize(kept);
    SubsetSize(Elems(kept), Ids(g.nodes));
    assert |ByKey(g.nodes)| == |ByKey(g.nodes).Keys|;
  }

  /** From a posting the search does not go to other postings or their evidence; else it goes anywhere. */
  lemma PostingsApart(g: Graph, focus: seq<string>, limit: int, n: Node)
    requires n in FocusNeighborhood(g, focus, limit).nodes && n.id !in focus
    requires exists k <- focus :: k in ByKey(g.nodes) && ByKey(g.nodes)[k].body.kind.Posting?
    ensures !n.body.kind.Posting? && !n.body.kind.PostingEvidence?
  {
    hide Found, Filter, Pick, ByKey, Ball;
    var kept, start := Found(g, focus, limit), Elems(Start(g, focus));
    FoundMeaning(g, focus, limit);
    FocusBallKnown(g, focus);
    PickIds(ByKey(g.nodes), kept);
    StartIs(g, focus);
    BallPermitted(g.edges, Permitted(g, start), start, 3);
    IdOfPicked(g, kept, n);
  }

  lemma IdOfPicked(g: Graph, kept: seq<string>, n: Node)
    requires n in Pick(ByKey(g.nodes), kept) && Elems(kept) <= Ids(g.nodes) && NoRepeat(kept)
    ensures n.id in Elems(kept) && n.id in ByKey(g.nodes) && ByKey(g.nodes)[n.id] == n
  {
    hide Pick, ByKey;
    PickIds(ByKey(g.nodes), kept);
    var i :| 0 <= i < |Pick(ByKey(g.nodes), kept)| && Pick(ByKey(g.nodes), kept)[i] == n;
    IdsOf(Pick(ByKey(g.nodes), kept), i);
    assert n in ByKey(g.nodes).Values;
  }

  lemma StartIs(g: Graph, focus: seq<string>)
    ensures Elems(Start(g, focus)) == Elems(focus) * Ids(g.nodes)
  {
    hide Distinct, KnownKeys;
    DistinctElems(KnownKeys(focus, Ids(g.nodes)));
    KnownKeysMeaning(focus, Ids(g.nodes));
  }

  lemma {:induction false} BallPermitted(edges: seq<Edge>, permitted: set<string>, start: set<string>, d: nat)
    ensures Ball(edges, permitted, start, d) <= start + permitted
  {
    if d > 0 {
      BallPermitted(edges, permitted, start, d - 1);
    }
  }

  lemma AnywhereElse(g: Graph, start: set<string>)
    requires forall k :: k in start && k in ByKey(g.nodes) ==> !ByKey(g.nodes)[k].body.kind.Posting?
    ensures Permitted(g, start) == Ids(g.nodes)
  {
  }
}

/**
  The bounded neighbourhood of the focused nodes: three rounds of breadth-first search that stop
  taking nodes at a limit, giving every parent its turn.
 */
module Neighborhood {
  import opened KeyedList
  import opened EvidenceGraph

  function Elems(s: seq<string>): set<string> {
    set x | x in s
  }

  predicate NoRepeat(s: seq<string>) {
    forall i, j :: 0 <= i < j < |s| ==> s[i] != s[j]
  }

  /** Node bodies by identifier; a later entry replaces an earlier one. */
  function ByKey(nodes: seq<Node>): (m: map<string, Node>)
    ensures m.Keys == Ids(nodes)
    ensures forall k <- m :: m[k] in nodes && m[k].id == k
  {
    if nodes == [] then map[]
    else
      var n := |nodes| - 1;
      assert nodes == nodes[..n] + [nodes[n]];
      IdsConcat(nodes[..n], [nodes[n]]);
      ByKey(nodes[..n])[nodes[n].id := nodes[n]]
  }

  predicate IsPosting(n: Node) {
    n.body.kind.Posting? || n.body.kind.PostingEvidence?
  }

  /** Where a search may go: anywhere, except that from a posting it does not go to other postings. */
  function Permitted(g: Graph, start: set<string>): set<string> {
    var nodes := ByKey(g.nodes);
    var fromPosting := exists k <- start :: k in nodes && nodes[k].body.kind.Posting?;
    set k | k in nodes && !(fromPosting && IsPosting(nodes[k]))
  }

  predicate Linked(e: Edge, a: string, b: string) {
    (e.body.source == a && e.body.target == b) || (e.body.source != a && e.body.target == a && e.body.source == b)
  }

  // ---- One round ----

  /** The end of an edge to go to from `parent`, if it is permitted and not kept yet. */
  function Reached(e: Edge, parent: string, permitted: set<string>, kept: seq<string>): seq<string> {
    var key := if e.body.source == parent then [e.body.target]
               else if e.body.target == parent then [e.body.source] else [];
    if key != [] && key[0] in permitted && key[0] !in kept then key else []
  }

  function Candidates(edges: seq<Edge>, parent: string, permitted: set<string>, kept: seq<string>): seq<string> {
    if edges == [] then []
    else
      var n := |edges| - 1;
      Candidates(edges[..n], parent, permitted, kept) + Reached(edges[n], parent, permitted, kept)
  }

  function Rows(edges: seq<Edge>, frontier: seq<string>, permitted: set<string>,
                kept: seq<string>): (rows: seq<seq<string>>)
    ensures |rows| == |frontier|
    ensures forall i :: 0 <= i < |rows| ==> rows[i] == Distinct(Candidates(edges, frontier[i], permitted, kept))
  {
    if frontier == [] then []
    else
      var n := |frontier| - 1;
      Rows(edges, frontier[..n], permitted, kept) + [Distinct(Candidates(edges, frontier[n], permitted, kept))]
  }

  /** The `i`-th entries of the rows that have one. */
  function Column(rows: seq<seq<string>>, i: nat): seq<string> {
    if rows == [] then []
    else Column(rows[..|rows| - 1], i) + if i < |rows[|rows| - 1]| then [rows[|rows| - 1][i]] else []
  }

  function Columns(rows: seq<seq<string>>, n: nat): seq<string> {
    if n == 0 then [] else Columns(rows, n - 1) + Column(rows, n - 1)
  }

  function Longest(rows: seq<seq<string>>): (n: nat)
    ensures forall i :: 0 <= i < |rows| ==> |rows[i]| <= n
  {
    if rows == [] then 0
    else
      var n, last := Longest(rows[..|rows| - 1]), |rows[|rows| - 1]|;
      if n < last then last else n
  }

  /** Row by row in turn: first entries, then second entries, and so on. */
  function Interleave(rows: seq<seq<string>>): seq<string> {
    Columns(rows, Longest(rows))
  }

  datatype Search = Search(kept: seq<string>, frontier: seq<string>)

  /** Take the keys one by one while there is room. */
  function TakeKeys(kept: seq<string>, keys: seq<string>, limit: int): Search {
    if keys == [] then Search(kept, [])
    else
      var n := |keys| - 1;
      var before := TakeKeys(kept, keys[..n], limit);
      if |before.kept| < limit then Search(before.kept + [keys[n]], before.frontier + [keys[n]]) else before
  }

  function Round(edges: seq<Edge>, permitted: set<string>, limit: int, s: Search): Search {
    TakeKeys(s.kept, Distinct(Interleave(Rows(edges, s.frontier, permitted, s.kept))), limit)
  }

  function Rounds(edges: seq<Edge>, permitted: set<string>, limit: int, s: Search, n: nat): Search
    decreases n
  {
    if n == 0 then s
    else
      var next := Round(edges, permitted, limit, s);
      if next.frontier == [] then next else Rounds(edges, permitted, limit, next, n - 1)
  }

  function KnownKeys(s: seq<string>, ids: set<string>): seq<string> {
    if s == [] then []
    else
      var front, last := KnownKeys(s[..|s| - 1], ids), s[|s| - 1];
      if last in ids then front + [last] else front
  }

  function Start(g: Graph, focus: seq<string>): seq<string> {
    Distinct(KnownKeys(focus, Ids(g.nodes)))
  }

  function Found(g: Graph, focus: seq<string>, limit: int): seq<string> {
    var start := Start(g, focus);
    Rounds(g.edges, Permitted(g, Elems(start)), limit, Search(start, start), 3).kept
  }

  function Pick(nodes: map<string, Node>, keys: seq<string>): seq<Node> {
    if keys == [] then []
    else
      var front, last := Pick(nodes, keys[..|keys| - 1]), keys[|keys| - 1];
      if last in nodes then front + [nodes[last]] else front
  }

  function FocusNeighborhood(g: Graph, focus: seq<string>, limit: int): Graph {
    var kept := Found(g, focus, limit);
    Graph(Pick(ByKey(g.nodes), kept), Filter(g.edges, Within(Elems(kept))),
          g.truncated || |kept| < |ByKey(g.nodes)|, g.warnings)
  }

  // ---- What a round takes ----

  lemma {:induction false} DistinctElems(s: seq<string>)
    ensures Elems(Distinct(s)) == Elems(s) && NoRepeat(Distinct(s))
  {
    if s != [] {
      var n := |s| - 1;
      DistinctElems(s[..n]);
      assert s == s[..n] + [s[n]];
      var front := Distinct(s[..n]);
      if s[n] !in front {
        assert Elems([s[n]]) == {s[n]};
        NoRepeatConcat(front, [s[n]]);
      } else {
        assert s[n] in Elems(front);
      }
    }
  }

  lemma {:induction false} CandidatesMeaning(edges: seq<Edge>, parent: string, permitted: set<string>,
                                             kept: seq<string>, k: string)
    ensures k in Candidates(edges, parent, permitted, kept)
       <==> k in permitted && k !in kept && exists e <- edges :: Linked(e, parent, k)
  {
    if edges != [] {
      var n := |edges| - 1;
      var e := edges[n];
      CandidatesMeaning(edges[..n], parent, permitted, kept, k);
      assert k in Reached(e, parent, permitted, kept) <==> k in permitted && k !in kept && Linked(e, parent, k);
      assert forall x :: x in edges <==> x in edges[..n] || x == e;
    }
  }

  ghost predicate InColumn(rows: seq<seq<string>>, i: nat, k: string) {
    exists r :: 0 <= r < |rows| && i < |rows[r]| && rows[r][i] == k
  }

  lemma {:induction false} ColumnMeaning(rows: seq<seq<string>>, i: nat, k: string)
    ensures k in Column(rows, i) <==> InColumn(rows, i, k)
  {
    if rows != [] {
      ColumnMeaning(rows[..|rows| - 1], i, k);
      assert rows == rows[..|rows| - 1] + [rows[|rows| - 1]];
    }
  }

  lemma {:induction false} ColumnsMeaning(rows: seq<seq<string>>, n: nat, k: string)
    ensures k in Columns(rows, n) <==> exists i :: 0 <= i < n && InColumn(rows, i, k)
  {
    hide InColumn, Column;
    if n > 0 {
      ColumnsMeaning(rows, n - 1, k);
      ColumnMeaning(rows, n - 1, k);
    }
  }

  /** Taking turns loses nothing and adds nothing. */
  lemma InterleaveMeaning(rows: seq<seq<string>>, k: string)
    ensures k in Interleave(rows) <==> exists r :: 0 <= r < |rows| && k in rows[r]
  {
    ColumnsMeaning(rows, Longest(rows), k);
    if r :| 0 <= r < |rows| && k in rows[r] {
      var i :| 0 <= i < |rows[r]| && rows[r][i] == k;
      assert InColumn(rows, i, k);
    }
  }

  /** What is one permitted step away from `from` and not kept yet. */
  ghost function Fringe(edges: seq<Edge>, permitted: set<string>, from: set<string>, kept: set<string>): set<string> {
    set k | k in permitted && k !in kept && Adjacent(edges, from, k)
  }

  ghost predicate Adjacent(edges: seq<Edge>, from: set<string>, k: string) {
    exists e, a :: e in edges && a in from && Linked(e, a, k)
  }

  lemma RoundKeys(edges: seq<Edge>, permitted: set<string>, s: Search)
    ensures var keys := Distinct(Interleave(Rows(edges, s.frontier, permitted, s.kept)));
      NoRepeat(keys) && Elems(keys) == Fringe(edges, permitted, Elems(s.frontier), Elems(s.kept))
  {
    hide Interleave, Rows, Distinct, Fringe, Adjacent;
    var rows := Rows(edges, s.frontier, permitted, s.kept);
    DistinctElems(Interleave(rows));
    forall k: string
      ensures k in Interleave(rows) <==> k in Fringe(edges, permitted, Elems(s.frontier), Elems(s.kept))
    {
      if k in Interleave(rows) {
        CandidateOnFringe(edges, permitted, s, k);
      }
      if k in Fringe(edges, permitted, Elems(s.frontier), Elems(s.kept)) {
        FringeIsCandidate(edges, permitted, s, k);
      }
    }
  }

  lemma CandidateOnFringe(edges: seq<Edge>, permitted: set<string>, s: Search, k: string)
    requires k in Interleave(Rows(edges, s.frontier, permitted, s.kept))
    ensures k in Fringe(edges, permitted, Elems(s.frontier), Elems(s.kept))
  {
    hide Interleave, Rows, Distinct, Linked, Candidates;
    var rows := Rows(edges, s.frontier, permitted, s.kept);
    InterleaveMeaning(rows, k);
    var r :| 0 <= r < |rows| && k in rows[r];
    RowMeaning(edges, s.frontier[r], permitted, s.kept, k);
    assert s.frontier[r] in Elems(s.frontier);
  }

  lemma FringeIsCandidate(edges: seq<Edge>, permitted: set<string>, s: Search, k: string)
    requires k in Fringe(edges, permitted, Elems(s.frontier), Elems(s.kept))
    ensures k in Interleave(Rows(edges, s.frontier, permitted, s.kept))
  {
    hide Interleave, Rows, Distinct, Linked, Candidates;
    var rows := Rows(edges, s.frontier, permitted, s.kept);
    InterleaveMeaning(rows, k);
    var e, a :| e in edges && a in Elems(s.frontier) && Linked(e, a, k);
    var r :| 0 <= r < |s.frontier| && s.frontier[r] == a;
    RowMeaning(edges, s.frontier[r], permitted, s.kept, k);
    assert k in rows[r];
  }

  lemma RowMeaning(edges: seq<Edge>, parent: string, permitted: set<string>, kept: seq<string>, k: string)
    ensures k in Distinct(Candidates(edges, parent, permitted, kept))
       <==> k in permitted && k !in kept && exists e <- edges :: Linked(e, parent, k)
  {
    var c := Candidates(edges, parent, permitted, kept);
    DistinctElems(c);
    CandidatesMeaning(edges, parent, permitted, kept, k);
    assert k in Elems(Distinct(c)) <==> k in Elems(c);
  }

  /** The keys are taken in order, as many as there is room for. */
  lemma {:induction false} TakeKeysMeaning(kept: seq<string>, keys: seq<string>, limit: int)
    ensures var r := TakeKeys(kept, keys, limit);
      && |r.frontier| <= |keys| && r.frontier == keys[..|r.frontier|] && r.kept == kept + r.frontier
      && (|r.kept| <= limit || r.kept == kept)
      && (|r.kept| < limit ==> r.frontier == keys)
  {
    if keys != [] {
      var n := |keys| - 1;
      assert keys == keys[..n] + [keys[n]];
      TakeKeysMeaning(kept, keys[..n], limit);
    }
  }

  lemma PrefixElems(s: seq<string>, n: nat)
    requires n <= |s| && NoRepeat(s)
    ensures NoRepeat(s[..n]) && Elems(s[..n]) <= Elems(s)
    ensures n == |s| ==> s[..n] == s
  {
  }

  lemma NoRepeatConcat(a: seq<string>, b: seq<string>)
    requires NoRepeat(a) && NoRepeat(b) && Elems(a) !! Elems(b)
    ensures NoRepeat(a + b) && Elems(a + b) == Elems(a) + Elems(b)
  {
    forall i, j | 0 <= i < j < |a + b|
      ensures (a + b)[i] != (a + b)[j]
    {
      if i < |a| && j >= |a| {
        assert a[i] in Elems(a) && b[j - |a|] in Elems(b);
      }
    }
  }

  lemma {:induction false} ElemsSize(s: seq<string>)
    requires NoRepeat(s)
    ensures |Elems(s)| == |s|
  {
    if s != [] {
      var n := |s| - 1;
      ElemsSize(s[..n]);
      assert s == s[..n] + [s[n]];
      assert Elems(s) == Elems(s[..n]) + {s[n]};
    }
  }

  lemma SubsetSize(a: set<string>, b: set<string>)
    requires a <= b
    ensures |a| <= |b|
    ensures |a| == |b| ==> a == b
  {
    assert b == a + (b - a);
  }

  // ---- Three rounds ----

  /** Everything within `d` permitted steps of the start. */
  ghost function Ball(edges: seq<Edge>, permitted: set<string>, start: set<string>, d: nat): set<string> {
    if d == 0 then start
    else
      var b := Ball(edges, permitted, start, d - 1);
      b + Fringe(edges, permitted, b, b)
  }

  lemma BallNext(edges: seq<Edge>, permitted: set<string>, start: set<string>, d: nat)
    ensures var b := Ball(edges, permitted, start, d);
      Ball(edges, permitted, start, d + 1) == b + Fringe(edges, permitted, b, b)
  {
  }

  lemma {:induction false} BallGrows(edges: seq<Edge>, permitted: set<string>, start: set<string>, d: nat, d': nat)
    requires d <= d'
    ensures Ball(edges, permitted, start, d) <= Ball(edges, permitted, start, d')
    decreases d'
  {
    if d < d' {
      BallGrows(edges, permitted, start, d, d' - 1);
    }
  }

  /** A search that has made `d` rounds: inside the ball, and equal to it if nothing was left out. */
  ghost predicate Searched(edges: seq<Edge>, permitted: set<string>, start: set<string>, limit: int, s: Search,
                           d: nat) {
    && NoRepeat(s.kept) && NoRepeat(s.frontier) && Elems(s.frontier) <= Elems(s.kept) && start <= Elems(s.kept)
    && Elems(s.kept) <= Ball(edges, permitted, start, d)
    && (|s.kept| <= limit || |s.kept| == |start|)
    && (|Ball(edges, permitted, start, 3)| <= limit ==>
          && Elems(s.kept) == Ball(edges, permitted, start, d)
          && (d > 0 ==> Elems(s.kept) - Elems(s.frontier) == Ball(edges, permitted, start, d - 1)))
  }

  lemma FringeOfFrontier(edges: seq<Edge>, permitted: set<string>, start: set<string>, frontier: set<string>, d: nat)
    requires var b := Ball(edges, permitted, start, d);
      frontier <= b && (d > 0 ==> b - frontier == Ball(edges, permitted, start, d - 1)) && (d == 0 ==> frontier == b)
    ensures var b := Ball(edges, permitted, start, d);
      Fringe(edges, permitted, frontier, b) == Fringe(edges, permitted, b, b)
  {
    var b := Ball(edges, permitted, start, d);
    forall k | k in Fringe(edges, permitted, b, b)
      ensures k in Fringe(edges, permitted, frontier, b)
    {
      var e, a :| e in edges && a in b && Linked(e, a, k);
      assert a !in frontier ==> k in b;
    }
  }

  lemma RoundSearched(edges: seq<Edge>, permitted: set<string>, start: set<string>, limit: int, s: Search, d: nat)
    requires Searched(edges, permitted, start, limit, s, d) && d < 3 && (d == 0 ==> s.frontier == s.kept)
    ensures Searched(edges, permitted, start, limit, Round(edges, permitted, limit, s), d + 1)
  {
    hide Ball, Fringe, Distinct, Interleave, Rows, TakeKeys;
    var keys := Distinct(Interleave(Rows(edges, s.frontier, permitted, s.kept)));
    var r := Round(edges, permitted, limit, s);
    RoundKeys(edges, permitted, s);
    TakeKeysMeaning(s.kept, keys, limit);
    PrefixElems(keys, |r.frontier|);
    RoundGrows(edges, permitted, start, limit, s, d, keys, r);
  }

  lemma RoundGrows(edges: seq<Edge>, permitted: set<string>, start: set<string>, limit: int, s: Search, d: nat,
                   keys: seq<string>, r: Search)
    requires Searched(edges, permitted, start, limit, s, d) && d < 3 && (d == 0 ==> s.frontier == s.kept)
    requires NoRepeat(keys) && Elems(keys) == Fringe(edges, permitted, Elems(s.frontier), Elems(s.kept))
    requires NoRepeat(r.frontier) && Elems(r.frontier) <= Elems(keys) && |r.frontier| <= |keys|
    requires r.kept == s.kept + r.frontier
    requires |r.kept| <= limit || r.kept == s.kept
    requires |r.kept| < limit || |r.frontier| == |keys| ==> r.frontier == keys
    ensures Searched(edges, permitted, start, limit, r, d + 1)
  {
    hide Fringe, Ball;
    var b, b' := Ball(edges, permitted, start, d), Ball(edges, permitted, start, d + 1);
    BallNext(edges, permitted, start, d);
    FringeInside(edges, permitted, Elems(s.frontier), Elems(s.kept), b);
    NoRepeatConcat(s.kept, r.frontier);
    hide NoRepeat;
    assert Elems(r.kept) == Elems(s.kept) + Elems(r.frontier) && Elems(r.kept) <= b';
    if |Ball(edges, permitted, start, 3)| <= limit {
      RoundComplete(edges, permitted, start, limit, s, d, keys);
      assert |r.kept| < limit || |r.frontier| == |keys|;
      assert Elems(r.kept) - Elems(r.frontier) == b;
    }
  }

  /** When the whole ball fits, a round completes the next ball and has room for it. */
  lemma RoundComplete(edges: seq<Edge>, permitted: set<string>, start: set<string>, limit: int, s: Search, d: nat,
                      keys: seq<string>)
    requires Searched(edges, permitted, start, limit, s, d) && d < 3 && (d == 0 ==> s.frontier == s.kept)
    requires NoRepeat(keys) && Elems(keys) == Fringe(edges, permitted, Elems(s.frontier), Elems(s.kept))
    requires |Ball(edges, permitted, start, 3)| <= limit
    ensures Elems(s.kept + keys) == Ball(edges, permitted, start, d + 1) && |s.kept + keys| <= limit
    ensures Elems(s.kept) == Ball(edges, permitted, start, d)
    ensures Elems(s.kept) + Elems(keys) == Ball(edges, permitted, start, d + 1) && Elems(s.kept) !! Elems(keys)
  {
    hide Fringe;
    var b, b' := Ball(edges, permitted, start, d), Ball(edges, permitted, start, d + 1);
    assert b' == b + Fringe(edges, permitted, b, b);
    FringeInside(edges, permitted, Elems(s.frontier), Elems(s.kept), b);
    BallGrows(edges, permitted, start, d + 1, 3);
    FringeOfFrontier(edges, permitted, start, Elems(s.frontier), d);
    SubsetSize(b', Ball(edges, permitted, start, 3));
    NoRepeatConcat(s.kept, keys);
    ElemsSize(s.kept + keys);
  }

  lemma FringeInside(edges: seq<Edge>, permitted: set<string>, frontier: set<string>, kept: set<string>, b: set<string>)
    requires frontier <= kept <= b
    ensures Fringe(edges, permitted, frontier, kept) <= b + Fringe(edges, permitted, b, b)
    ensures Fringe(edges, permitted, frontier, kept) !! kept
  {
  }

  lemma {:induction false} BallStable(edges: seq<Edge>, permitted: set<string>, start: set<string>, d: nat, d': nat)
    requires 0 < d <= d' && Ball(edges, permitted, start, d) == Ball(edges, permitted, start, d - 1)
    ensures Ball(edges, permitted, start, d') == Ball(edges, permitted, start, d)
    decreases d'
  {
    hide Fringe;
    if d < d' {
      BallStable(edges, permitted, start, d, d' - 1);
    }
  }

  lemma {:induction false} RoundsSearched(edges: seq<Edge>, permitted: set<string>, start: set<string>, limit: int,
                                          s: Search, d: nat, n: nat)
    requires Searched(edges, permitted, start, limit, s, d) && d + n == 3 && (d == 0 ==> s.frontier == s.kept)
    ensures var r := Rounds(edges, permitted, limit, s, n);
      && NoRepeat(r.kept) && start <= Elems(r.kept) <= Ball(edges, permitted, start, 3)
      && (|r.kept| <= limit || |r.kept| == |start|)
      && (|Ball(edges, permitted, start, 3)| <= limit ==> Elems(r.kept) == Ball(edges, permitted, start, 3))
    decreases n
  {
    hide Ball, Round;
    if n > 0 {
      RoundSearched(edges, permitted, start, limit, s, d);
      var next := Round(edges, permitted, limit, s);
      if next.frontier == [] {
        BallGrows(edges, permitted, start, d + 1, 3);
        if |Ball(edges, permitted, start, 3)| <= limit {
          assert Elems(next.kept) - Elems(next.frontier) == Elems(next.kept);
          BallStable(edges, permitted, start, d + 1, 3);
        }
      } else {
        RoundsSearched(edges, permitted, start, limit, next, d + 1, n - 1);
      }
    }
  }

  /** The ball around the focused nodes that the search explores. */
  ghost function FocusBall(g: Graph, focus: seq<string>): set<string> {
    var start := Elems(Start(g, focus));
    Ball(g.edges, Permitted(g, start), start, 3)
  }

  lemma FoundMeaning(g: Graph, focus: seq<string>, limit: int)
    ensures var kept := Found(g, focus, limit);
      && NoRepeat(kept) && Elems(Start(g, focus)) <= Elems(kept) <= FocusBall(g, focus)
      && (|kept| <= limit || |kept| == |Start(g, focus)|)
      && (|FocusBall(g, focus)| <= limit ==> Elems(kept) == FocusBall(g, focus))
  {
    hide Rounds, Distinct, KnownKeys;
    var start := Start(g, focus);
    DistinctElems(KnownKeys(focus, Ids(g.nodes)));
    ElemsSize(start);
    var p := Permitted(g, Elems(start));
    if |Ball(g.edges, p, Elems(start), 3)| <= limit {
      BallGrows(g.edges, p, Elems(start), 0, 3);
      SubsetSize(Elems(start), Ball(g.edges, p, Elems(start), 3));
    }
    RoundsSearched(g.edges, p, Elems(start), limit, Search(start, start), 0, 3);
  }

  lemma {:induction false} KnownKeysMeaning(s: seq<string>, ids: set<string>)
    ensures Elems(KnownKeys(s, ids)) == Elems(s) * ids
  {
    if s != [] {
      var n := |s| - 1;
      KnownKeysMeaning(s[..n], ids);
      assert s == s[..n] + [s[n]];
      assert Elems(s) == Elems(s[..n]) + {s[n]};
      var front := KnownKeys(s[..n], ids);
      assert Elems(front + [s[n]]) == Elems(front) + {s[n]};
    }
  }

  lemma {:induction false} BallKnown(g: Graph, focus: seq<string>, d: nat)
    ensures var start := Elems(Start(g, focus));
      Ball(g.edges, Permitted(g, start), start, d) <= Ids(g.nodes)
  {
    if d == 0 {
      KnownKeysMeaning(focus, Ids(g.nodes));
      DistinctElems(KnownKeys(focus, Ids(g.nodes)));
    } else {
      BallKnown(g, focus, d - 1);
    }
  }

  lemma {:induction false} PickMeaning(nodes: map<string, Node>, keys: seq<string>)
    requires Elems(keys) <= nodes.Keys && forall k <- nodes :: nodes[k].id == k
    ensures |Pick(nodes, keys)| == |keys|
    ensures forall i :: 0 <= i < |keys| ==> keys[i] in nodes && Pick(nodes, keys)[i] == nodes[keys[i]]
  {
    if keys != [] {
      var n := |keys| - 1;
      assert keys == keys[..n] + [keys[n]] && keys[n] in Elems(keys);
      assert Elems(keys[..n]) <= Elems(keys);
      PickMeaning(nodes, keys[..n]);
    }
  }

  /**
    The neighbourhood keeps the known focused nodes and only nodes within three permitted steps of
    them, no more than the limit or the focused ones, all of them when they fit, each once and as it
    stands in the graph, with exactly the edges between them.
   */
  lemma NeighborhoodMeaning(g: Graph, focus: seq<string>, limit: int)
    ensures var r := FocusNeighborhood(g, focus, limit);
      && Unique(r.nodes) && (forall n <- r.nodes :: n in g.nodes)
      && Elems(focus) * Ids(g.nodes) <= Ids(r.nodes) <= FocusBall(g, focus)
      && (|r.nodes| <= limit || |r.nodes| == |Elems(focus) * Ids(g.nodes)|)
      && (|FocusBall(g, focus)| <= limit ==> Ids(r.nodes) == FocusBall(g, focus))
      && (forall e <- g.edges :: e in r.edges <==> e.body.source in Ids(r.nodes) && e.body.target in Ids(r.nodes))
      && (forall e <- r.edges :: e in g.edges)
  {
    hide FocusBall, Found, Distinct, KnownKeys, Filter, Pick, Permitted, ByKey;
    var kept, r := Found(g, focus, limit), FocusNeighborhood(g, focus, limit);
    var nodes := ByKey(g.nodes);
    FoundMeaning(g, focus, limit);
    FocusBallKnown(g, focus);
    KnownKeysMeaning(focus, Ids(g.nodes));
    DistinctElems(KnownKeys(focus, Ids(g.nodes)));
    ElemsSize(Start(g, focus));
    PickMeaning(nodes, kept);
    PickIds(nodes, kept);
    FilterMembers(g.edges, Within(Elems(kept)));
  }

  lemma FocusBallKnown(g: Graph, focus: seq<string>)
    ensures FocusBall(g, focus) <= Ids(g.nodes)
  {
    BallKnown(g, focus, 3);
  }

  lemma PickIds(nodes: map<string, Node>, keys: seq<string>)
    requires Elems(keys) <= nodes.Keys && NoRepeat(keys) && forall k <- nodes :: nodes[k].id == k
    ensures Unique(Pick(nodes, keys)) && Ids(Pick(nodes, keys)) == Elems(keys)
    ensures forall n <- Pick(nodes, keys) :: n in nodes.Values
  {
    PickMeaning(nodes, keys);
    var r := Pick(nodes, keys);
    hide Pick;
    forall k | k in Elems(keys)
      ensures k in Ids(r)
    {
      var i :| 0 <= i < |keys| && keys[i] == k;
      IdsOf(r, i);
    }
    forall n | n in r
      ensures n.id in Elems(keys) && n in nodes.Values
    {
      var i :| 0 <= i < |r| && r[i] == n;
      assert keys[i] in Elems(keys);
    }
  }

  // ---- The search as it runs ----

  method CollectRow(edges: seq<Edge>, parent: string, permitted: set<string>, kept: seq<string>)
      returns (row: seq<string>)
    ensures row == Distinct(Candidates(edges, parent, permitted, kept))
  {
    var candidates := [];
    for i := 0 to |edges|
      invariant candidates == Candidates(edges[..i], parent, permitted, kept)
    {
      assert edges[..i + 1][..i] == edges[..i];
      var e := edges[i];
      if e.body.source == parent {
        if e.body.target in permitted && e.body.target !in kept {
          candidates := candidates + [e.body.target];
        }
      } else if e.body.target == parent && e.body.source in permitted && e.body.source !in kept {
        candidates := candidates + [e.body.source];
      }
    }
    assert edges[..|edges|] == edges;
    row := Distinct(candidates);
  }

  method SearchRound(edges: seq<Edge>, permitted: set<string>, limit: int, s: Search) returns (r: Search)
    ensures r == Round(edges, permitted, limit, s)
  {
    hide Distinct, Candidates, Interleave, TakeKeys;
    var rows := [];
    for i := 0 to |s.frontier|
      invariant rows == Rows(edges, s.frontier[..i], permitted, s.kept)
    {
      assert s.frontier[..i + 1][..i] == s.frontier[..i];
      var row := CollectRow(edges, s.frontier[i], permitted, s.kept);
      rows := rows + [row];
    }
    assert s.frontier[..|s.frontier|] == s.frontier;
    r := TakeFollowing(s.kept, Distinct(Interleave(rows)), limit);
  }

  method TakeFollowing(kept: seq<string>, following: seq<string>, limit: int) returns (r: Search)
    ensures r == TakeKeys(kept, following, limit)
  {
    r := Search(kept, []);
    for i := 0 to |following|
      invariant r == TakeKeys(kept, following[..i], limit)
    {
      assert following[..i + 1][..i] == following[..i];
      if |r.kept| < limit {
        r := Search(r.kept + [following[i]], r.frontier + [following[i]]);
      }
    }
    assert following[..|following|] == following;
  }

  method KeepNeighborhood(g: Graph, focus: seq<string>, limit: int) returns (r: Graph)
    ensures r == FocusNeighborhood(g, focus, limit)
  {
    hide Round, Permitted, ByKey, Distinct, KnownKeys, Filter, Pick;
    var start := Distinct(KnownKeys(focus, Ids(g.nodes)));
    var permitted := Permitted(g, Elems(start));
    var s := Search(start, start);
    var round := 0;
    while round < 3
      invariant 0 <= round <= 3
      invariant Rounds(g.edges, permitted, limit, s, 3 - round).kept == Found(g, focus, limit)
    {
      s := SearchRound(g.edges, permitted, limit, s);
      round := round + 1;
      if s.frontier == [] {
        break;
      }
    }
    assert s.kept == Found(g, focus, limit);
    var nodes := ByKey(g.nodes);
    r := Graph(Pick(nodes, s.kept), Filter(g.edges, Within(Elems(s.kept))),
               g.truncated || |s.kept| < |nodes|, g.warnings);
  }
}

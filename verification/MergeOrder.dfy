/**
  Which nodes and edges survive a merge, in terms of what was brought and when it was brought last: the requested
  ones first, then the context of the conversation, then the most recent.
 */
module MergeOrder {
  import opened Basics
  import opened KeyedList
  import opened EvidenceGraph
  import opened Neighborhood

  // ---- Places ----

  /** The last place of an identifier, or -1. */
  function LastPlace<T>(s: seq<Item<T>>, id: string): (i: int)
    ensures -1 <= i < |s| && (i >= 0 ==> s[i].id == id) && forall j :: i < j < |s| ==> s[j].id != id
  {
    if s == [] then -1
    else if s[|s| - 1].id == id then |s| - 1
    else LastPlace(s[..|s| - 1], id)
  }

  ghost function Older<T>(all: seq<Item<T>>, ids: set<string>, id: string): set<string> {
    set k | k in ids && LastPlace(all, k) < LastPlace(all, id)
  }

  ghost function Newer<T>(all: seq<Item<T>>, ids: set<string>, id: string): set<string> {
    set k | k in ids && LastPlace(all, k) > LastPlace(all, id)
  }

  /** The `n` oldest and the `n` most recent of some identifiers. */
  ghost function Oldest<T>(all: seq<Item<T>>, ids: set<string>, n: nat): set<string> {
    set k | k in ids && |Older(all, ids, k)| < n
  }

  ghost function MostRecent<T>(all: seq<Item<T>>, ids: set<string>, n: nat): set<string> {
    set k | k in ids && |Newer(all, ids, k)| < n
  }

  /** The items stand in the order in which they were brought last. */
  ghost predicate Chronological<T>(all: seq<Item<T>>, s: seq<Item<T>>) {
    forall i, j :: 0 <= i < j < |s| ==> LastPlace(all, s[i].id) < LastPlace(all, s[j].id)
  }

  lemma PlaceIs<T>(s: seq<Item<T>>, id: string, i: int)
    requires -1 <= i < |s| && (i >= 0 ==> s[i].id == id) && forall j :: i < j < |s| ==> s[j].id != id
    ensures LastPlace(s, id) == i
  {
    var p := LastPlace(s, id);
    hide LastPlace;
  }

  lemma PlaceCons<T>(first: Item<T>, rest: seq<Item<T>>, id: string)
    ensures LastPlace([first] + rest, id) ==
      if id in Ids(rest) then 1 + LastPlace(rest, id) else if first.id == id then 0 else -1
  {
    hide LastPlace;
    var s, r := [first] + rest, LastPlace(rest, id);
    PlaceOfMember(rest, id);
    assert s[0] == first && forall j :: 1 <= j < |s| ==> s[j] == rest[j - 1];
    PlaceIs(s, id, if r >= 0 then 1 + r else if first.id == id then 0 else -1);
  }

  lemma {:induction false} LatestChronological<T>(all: seq<Item<T>>)
    ensures Chronological(all, Latest(all))
  {
    hide Latest, LastPlace;
    if all == [] {
      NothingLeft<T>();
    } else {
      var first, rest := all[0], all[1..];
      assert all == [first] + rest;
      LatestChronological(rest);
      LatestUnique(rest);
      LatestCons(first, rest);
      var s := Latest(rest);
      forall i | 0 <= i < |s|
        ensures LastPlace(all, s[i].id) == 1 + LastPlace(rest, s[i].id) >= 1
      {
        IdsOf(s, i);
        PlaceCons(first, rest, s[i].id);
        PlaceOfMember(rest, s[i].id);
      }
      if first.id !in Ids(rest) {
        PlaceCons(first, rest, first.id);
      }
    }
  }

  lemma NothingLeft<T>()
    ensures Latest<T>([]) == []
  {
  }

  lemma PlaceOfMember<T>(s: seq<Item<T>>, id: string)
    ensures id in Ids(s) <==> LastPlace(s, id) >= 0
  {
    hide LastPlace;
    var i := LastPlace(s, id);
    if id in Ids(s) {
      var j :| 0 <= j < |s| && s[j].id == id;
    }
    if i >= 0 {
      IdsOf(s, i);
    }
  }

  lemma {:induction false} FilterChronological<T>(all: seq<Item<T>>, s: seq<Item<T>>, p: Item<T> -> bool)
    requires Chronological(all, s)
    ensures Chronological(all, Filter(s, p))
  {
    hide LastPlace;
    if s != [] {
      var first, rest := s[0], s[1..];
      FilterChronological(all, rest, p);
      FilterMembers(rest, p);
      FirstIsOldest(all, s, Filter(rest, p));
      assert Filter(s, p) == (if p(first) then [first] else []) + Filter(rest, p);
    }
  }

  lemma FirstIsOldest<T>(all: seq<Item<T>>, s: seq<Item<T>>, t: seq<Item<T>>)
    requires s != [] && Chronological(all, s) && forall x <- t :: x in s[1..]
    ensures forall j :: 0 <= j < |t| ==> LastPlace(all, s[0].id) < LastPlace(all, t[j].id)
  {
    hide LastPlace;
    forall j | 0 <= j < |t|
      ensures LastPlace(all, s[0].id) < LastPlace(all, t[j].id)
    {
      assert t[j] in t;
      var i :| 0 <= i < |s[1..]| && s[1..][i] == t[j];
      assert s[i + 1] == t[j];
    }
  }

  // ---- Ranks ----

  lemma ChronologicalUnique<T>(all: seq<Item<T>>, u: seq<Item<T>>)
    requires Chronological(all, u)
    ensures Unique(u)
  {
    hide LastPlace;
  }

  /** Of items in chronological order, the ones before an item are the older ones. */
  lemma RankOf<T>(all: seq<Item<T>>, u: seq<Item<T>>, i: nat)
    requires Chronological(all, u) && i < |u|
    ensures Older(all, Ids(u), u[i].id) == Ids(u[..i]) && |Ids(u[..i])| == i
    ensures Newer(all, Ids(u), u[i].id) == Ids(u[i + 1..]) && |Ids(u[i + 1..])| == |u| - 1 - i
  {
    hide LastPlace;
    ChronologicalUnique(all, u);
    IdsSize(u[..i]);
    IdsSize(u[i + 1..]);
    forall k
      ensures k in Older(all, Ids(u), u[i].id) <==> k in Ids(u[..i])
      ensures k in Newer(all, Ids(u), u[i].id) <==> k in Ids(u[i + 1..])
    {
      OneRank(all, u, i, k);
    }
  }

  lemma OneRank<T>(all: seq<Item<T>>, u: seq<Item<T>>, i: nat, k: string)
    requires Chronological(all, u) && i < |u|
    ensures k in Ids(u[..i]) ==> k in Ids(u) && LastPlace(all, k) < LastPlace(all, u[i].id)
    ensures k in Ids(u[i + 1..]) ==> k in Ids(u) && LastPlace(all, k) > LastPlace(all, u[i].id)
    ensures k in Ids(u) ==> k in Ids(u[..i]) || k == u[i].id || k in Ids(u[i + 1..])
  {
    hide LastPlace;
    SplitIds(u, i, k);
    if k in Ids(u[..i]) {
      var j :| 0 <= j < i && u[..i][j].id == k;
      assert u[j].id == k;
    }
    if k in Ids(u[i + 1..]) {
      var j :| 0 <= j < |u[i + 1..]| && u[i + 1..][j].id == k;
      assert u[i + 1 + j].id == k;
    }
  }

  lemma SplitIds<T>(u: seq<Item<T>>, i: nat, k: string)
    requires i < |u|
    ensures k in Ids(u) <==> k in Ids(u[..i]) || k == u[i].id || k in Ids(u[i + 1..])
  {
    assert u == u[..i] + ([u[i]] + u[i + 1..]);
    IdsConcat(u[..i], [u[i]] + u[i + 1..]);
    IdsConcat([u[i]], u[i + 1..]);
    assert [u[i]][0] == u[i];
    IdsOf([u[i]], 0);
  }

  lemma OldestIsTake<T>(all: seq<Item<T>>, u: seq<Item<T>>, n: nat)
    requires Chronological(all, u)
    ensures Ids(Take(u, n)) == Oldest(all, Ids(u), n)
    ensures |Ids(Take(u, n))| == Min(n, |u|)
  {
    hide LastPlace, Older;
    var t := Take(u, n);
    assert t == u[..Min(n, |u|)];
    ChronologicalUnique(all, u);
    IdsSize(t);
    forall k
      ensures k in Ids(t) <==> k in Oldest(all, Ids(u), n)
    {
      if k in Ids(u) {
        var i :| 0 <= i < |u| && u[i].id == k;
        RankOf(all, u, i);
        PlaceInTake(u, Min(n, |u|), i);
      } else {
        assert forall j :: 0 <= j < |t| ==> t[j] == u[j] && u[j].id in Ids(u);
      }
    }
  }

  lemma PlaceInTake<T>(u: seq<Item<T>>, n: nat, i: nat)
    requires Unique(u) && n <= |u| && i < |u|
    ensures u[i].id in Ids(u[..n]) <==> i < n
    ensures u[i].id in Ids(u[n..]) <==> i >= n
  {
    if i < n {
      IdsOf(u[..n], i);
      assert u[..n][i] == u[i];
    } else {
      IdsOf(u[n..], i - n);
      assert u[n..][i - n] == u[i];
    }
    assert forall j :: 0 <= j < n ==> u[..n][j] == u[j];
    assert forall j :: 0 <= j < |u| - n ==> u[n..][j] == u[n + j];
  }

  lemma RecentIsTakeLast<T>(all: seq<Item<T>>, u: seq<Item<T>>, n: nat)
    requires Chronological(all, u)
    ensures Ids(TakeLast(u, n)) == MostRecent(all, Ids(u), n)
  {
    hide LastPlace, Newer;
    var m := |u| - Min(n, |u|);
    var t := TakeLast(u, n);
    assert t == u[m..];
    ChronologicalUnique(all, u);
    forall k
      ensures k in Ids(t) <==> k in MostRecent(all, Ids(u), n)
    {
      if k in Ids(u) {
        var i :| 0 <= i < |u| && u[i].id == k;
        RankOf(all, u, i);
        PlaceInTake(u, m, i);
      } else {
        assert forall j :: 0 <= j < |t| ==> t[j] == u[m + j] && u[m + j].id in Ids(u);
      }
    }
  }

  // ---- Nodes ----

  /** The identifiers whose last content gives the conversation its context. */
  ghost function ContextIds(all: seq<Node>): set<string> {
    set k | k in Ids(all) && LastPlace(all, k) >= 0 &&
            all[LastPlace(all, k)].body.kind in {Profile, Goal, Role, Preferences}
  }

  /** The first 160 requested ones. */
  ghost function RequestedFirst(all: seq<Node>, requested: set<string>): set<string> {
    Oldest(all, Ids(all) * requested, 160)
  }

  /** Then the first of the context, 16 at most. */
  ghost function ContextNext(all: seq<Node>, requested: set<string>): set<string> {
    var first := RequestedFirst(all, requested);
    Oldest(all, ContextIds(all) - first, if |first| >= 160 then 0 else Min(16, 160 - |first|))
  }

  /** Then the most recent of the others, as far as there is room. */
  ghost function RecentLast(all: seq<Node>, requested: set<string>): set<string> {
    var before := RequestedFirst(all, requested) + ContextNext(all, requested);
    MostRecent(all, Ids(all) - before, if |before| >= 160 then 0 else 160 - |before|)
  }

  lemma FilterIds<T(!new)>(s: seq<Item<T>>, p: Item<T> -> bool, ids: set<string>)
    requires forall x <- s :: p(x) <==> x.id in ids
    ensures Ids(Filter(s, p)) == Ids(s) * ids
  {
    hide Filter;
    FilterMembers(s, p);
    forall k
      ensures k in Ids(Filter(s, p)) <==> k in Ids(s) * ids
    {
      if k in Ids(Filter(s, p)) {
        var i :| 0 <= i < |Filter(s, p)| && Filter(s, p)[i].id == k;
        var x := Filter(s, p)[i];
        assert x in Filter(s, p) && x in s;
      }
      if k in Ids(s) && k in ids {
        var i :| 0 <= i < |s| && s[i].id == k;
        assert s[i] in s && s[i] in Filter(s, p);
      }
    }
  }

  /** What remains of an identifier is the item at its last place. */
  lemma LatestAtPlace<T>(all: seq<Item<T>>, x: Item<T>)
    requires x in Latest(all)
    ensures LastPlace(all, x.id) >= 0 && all[LastPlace(all, x.id)] == x && x.id in Ids(all)
  {
    LatestMeaning(all, x);
    hide LastPlace, Latest;
    var i :| 0 <= i < |all| && all[i] == x && x.id !in Ids(all[i + 1..]);
    forall j | i < j < |all|
      ensures all[j].id != x.id
    {
      IdsOf(all[i + 1..], j - i - 1);
      assert all[i + 1..][j - i - 1] == all[j];
    }
    PlaceIs(all, x.id, i);
    IdsOf(all, i);
  }

  lemma ContextFilter(all: seq<Node>, first: set<string>)
    ensures Ids(Filter(Latest(all), ContextLacking(first))) == ContextIds(all) - first
  {
    hide Latest, Filter, LastPlace;
    var nodes := Latest(all);
    LatestUnique(all);
    forall x | x in nodes
      ensures ContextLacking(first)(x) <==> x.id in ContextIds(all) - first
    {
      LatestAtPlace(all, x);
    }
    FilterIds(nodes, ContextLacking(first), ContextIds(all) - first);
  }

  lemma RequestedNodes(all: seq<Node>, requested: set<string>)
    ensures Ids(Requested(Latest(all), requested)) == RequestedFirst(all, requested)
    ensures |Requested(Latest(all), requested)| == |RequestedFirst(all, requested)| <= 160
  {
    hide Latest, Filter, LastPlace, Oldest, Take;
    var nodes := Latest(all);
    LatestUnique(all);
    LatestChronological(all);
    FilterIds(nodes, HasId<NodeBody>(requested), requested);
    FilterChronological(all, nodes, HasId<NodeBody>(requested));
    OldestIsTake(all, Filter(nodes, HasId<NodeBody>(requested)), 160);
    SizeOfTake(Filter(nodes, HasId<NodeBody>(requested)), 160);
  }

  lemma SizeOfTake<T>(u: seq<Item<T>>, n: nat)
    ensures |Take(u, n)| == Min(n, |u|)
  {
  }

  lemma ContextNodes(all: seq<Node>, requested: set<string>)
    ensures Ids(Context(Latest(all), requested)) == ContextNext(all, requested)
    ensures |Context(Latest(all), requested)| == |ContextNext(all, requested)|
  {
    hide Latest, Filter, LastPlace, Oldest, Take, Requested, RequestedFirst, ContextIds;
    var nodes := Latest(all);
    RequestedNodes(all, requested);
    var first := RequestedFirst(all, requested);
    var u := Filter(nodes, ContextLacking(first));
    LatestChronological(all);
    FilterChronological(all, nodes, ContextLacking(first));
    ContextFilter(all, first);
    var n := ContextRoom(Requested(nodes, requested));
    OldestIsTake(all, u, n);
    SizeOfTake(u, n);
  }

  /** The nodes a merge keeps, exactly. */
  lemma MergeKeepsExactly(graphs: seq<Graph>, requested: set<string>)
    ensures var all := AllNodes(graphs);
      Ids(Merge(graphs, requested).nodes)
      == RequestedFirst(all, requested) + ContextNext(all, requested) + RecentLast(all, requested)
  {
    hide Latest, LastPlace, Requested, Context, Recent, Protected, Kept, KeptEdges, AllNodes, AllEdges;
    hide RequestedFirst, ContextNext, RecentLast;
    var all := AllNodes(graphs);
    var nodes := Latest(all);
    RequestedNodes(all, requested);
    ContextNodes(all, requested);
    RecentNodes(all, requested);
    KeptParts(nodes, requested);
    var first, extra := Requested(nodes, requested), Context(nodes, requested);
    IdsConcat(first, extra);
    IdsConcat(first + extra, Recent(nodes, requested));
  }

  lemma RecentNodes(all: seq<Node>, requested: set<string>)
    ensures Ids(Recent(Latest(all), requested)) == RecentLast(all, requested)
  {
    hide Latest, Filter, LastPlace, MostRecent, TakeLast, Protected, RequestedFirst, ContextNext;
    var nodes := Latest(all);
    var before := RequestedFirst(all, requested) + ContextNext(all, requested);
    ProtectedIds(all, requested);
    OthersOf(all, before);
    var p := LacksId<NodeBody>(before);
    RecentIsTakeLast(all, Filter(nodes, p), 160 - |before|);
    assert Recent(nodes, requested) == TakeLast(Filter(nodes, p), 160 - |before|);
  }

  lemma ProtectedIds(all: seq<Node>, requested: set<string>)
    ensures var before := RequestedFirst(all, requested) + ContextNext(all, requested);
      Ids(Protected(Latest(all), requested)) == before && |Protected(Latest(all), requested)| == |before| <= 160
  {
    hide Latest, Requested, Context, Recent, Protected, Kept, RequestedFirst, ContextNext;
    var nodes := Latest(all);
    RequestedNodes(all, requested);
    ContextNodes(all, requested);
    KeptParts(nodes, requested);
    IdsConcat(Requested(nodes, requested), Context(nodes, requested));
    LatestUnique(all);
    BeforeSize(nodes, requested);
  }

  lemma OthersOf(all: seq<Node>, before: set<string>)
    ensures var u := Filter(Latest(all), LacksId<NodeBody>(before));
      Ids(u) == Ids(all) - before && Chronological(all, u)
  {
    hide Latest, Filter, LastPlace;
    var nodes, p := Latest(all), LacksId<NodeBody>(before);
    LatestUnique(all);
    LatestChronological(all);
    FilterIds(nodes, p, Ids(all) - before);
    assert Ids(nodes) * (Ids(all) - before) == Ids(all) - before;
    FilterChronological(all, nodes, p);
  }

  lemma BeforeSize(nodes: seq<Node>, requested: set<string>)
    requires Unique(nodes)
    ensures |Ids(Protected(nodes, requested))| == |Protected(nodes, requested)| <= 160
  {
    hide Filter, Take;
    ProtectedPart(nodes, requested);
    IdsSize(Protected(nodes, requested));
  }

  /** The nodes of a merge are listed in these three parts, each by when they were brought last. */
  lemma MergeListsInOrder(graphs: seq<Graph>, requested: set<string>)
      returns (a: seq<Node>, b: seq<Node>, c: seq<Node>)
    ensures Merge(graphs, requested).nodes == a + b + c
    ensures var all := AllNodes(graphs);
      && Ids(a) == RequestedFirst(all, requested) && Ids(b) == ContextNext(all, requested)
      && Ids(c) == RecentLast(all, requested)
      && Chronological(all, a) && Chronological(all, b) && Chronological(all, c)
  {
    hide Latest, LastPlace, Filter, AllNodes, AllEdges, KeptEdges, RequestedFirst, ContextNext, RecentLast, Take;
    hide TakeLast;
    hide Chronological;
    var all := AllNodes(graphs);
    var nodes := Latest(all);
    RequestedNodes(all, requested);
    ContextNodes(all, requested);
    RecentNodes(all, requested);
    KeptParts(nodes, requested);
    a, b, c := Requested(nodes, requested), Context(nodes, requested), Recent(nodes, requested);
    LatestChronological(all);
    FilterChronological(all, nodes, HasId(requested));
    FilterChronological(all, nodes, ContextLacking(Ids(a)));
    FilterChronological(all, nodes, LacksId(Ids(Protected(nodes, requested))));
    PartsChronological(all, Filter(nodes, HasId(requested)), 160);
    PartsChronological(all, Filter(nodes, ContextLacking(Ids(a))), ContextRoom(a));
    PartsChronological(all, Filter(nodes, LacksId(Ids(Protected(nodes, requested)))),
                       160 - |Protected(nodes, requested)|);
  }

  lemma PartsChronological<T>(all: seq<Item<T>>, u: seq<Item<T>>, n: nat)
    requires Chronological(all, u)
    ensures Chronological(all, Take(u, n)) && Chronological(all, TakeLast(u, n))
  {
    hide LastPlace;
  }

  /** Of nodes that are kept for being recent and nodes that are dropped, the kept ones were brought later. */
  lemma DroppedIsOlder(graphs: seq<Graph>, requested: set<string>, kept: string, dropped: string)
    requires var all := AllNodes(graphs);
      && kept in Ids(Merge(graphs, requested).nodes)
      && kept !in RequestedFirst(all, requested) && kept !in ContextNext(all, requested)
      && dropped in Ids(all) && dropped !in Ids(Merge(graphs, requested).nodes)
    ensures LastPlace(AllNodes(graphs), dropped) < LastPlace(AllNodes(graphs), kept)
  {
    hide Merge, LastPlace, AllNodes, RequestedFirst, ContextNext, Newer;
    var all := AllNodes(graphs);
    MergeKeepsExactly(graphs, requested);
    var others := Ids(all) - (RequestedFirst(all, requested) + ContextNext(all, requested));
    var before := RequestedFirst(all, requested) + ContextNext(all, requested);
    var n := if |before| >= 160 then 0 else 160 - |before|;
    RecentIsNewer(all, others, n, kept, dropped);
  }

  lemma RecentIsNewer<T>(all: seq<Item<T>>, ids: set<string>, n: nat, kept: string, dropped: string)
    requires kept in MostRecent(all, ids, n) && dropped in ids && dropped !in MostRecent(all, ids, n) && ids <= Ids(all)
    ensures LastPlace(all, dropped) < LastPlace(all, kept)
  {
    hide LastPlace;
    PlaceOfMember(all, kept);
    PlaceOfMember(all, dropped);
    if LastPlace(all, kept) < LastPlace(all, dropped) {
      assert Newer(all, ids, dropped) <= Newer(all, ids, kept);
      SubsetSize(Newer(all, ids, dropped), Newer(all, ids, kept));
    }
  }

  // ---- Edges ----

  /** The edges that were brought with both ends among the nodes that are kept. */
  ghost function EdgesBetweenKept(graphs: seq<Graph>, requested: set<string>): seq<Edge> {
    Filter(AllEdges(graphs), Within(Ids(Merge(graphs, requested).nodes)))
  }

  /** The identifiers of edges whose last content touches a requested node. */
  ghost function TouchingIds(es: seq<Edge>, requested: set<string>): set<string> {
    set k | k in Ids(es) && LastPlace(es, k) >= 0 && Touches(es[LastPlace(es, k)], requested)
  }

  predicate Touches(e: Edge, requested: set<string>) {
    e.body.source in requested || e.body.target in requested
  }

  /** The first 320 at requested nodes. */
  ghost function PersonalFirst(es: seq<Edge>, requested: set<string>): set<string> {
    Oldest(es, TouchingIds(es, requested), 320)
  }

  /** Then the most recent of the others, as far as there is room. */
  ghost function RecentEdges(es: seq<Edge>, requested: set<string>): set<string> {
    var first := PersonalFirst(es, requested);
    MostRecent(es, Ids(es) - first, if |first| >= 320 then 0 else 320 - |first|)
  }

  lemma PersonalEdges(es: seq<Edge>, requested: set<string>)
    ensures Ids(Personal(Latest(es), requested)) == PersonalFirst(es, requested)
    ensures |Personal(Latest(es), requested)| == |PersonalFirst(es, requested)| <= 320
  {
    hide Latest, Filter, LastPlace, Oldest, Take, Touches;
    var edges := Latest(es);
    LatestUnique(es);
    LatestChronological(es);
    forall e | e in edges
      ensures Touching(requested)(e) <==> e.id in TouchingIds(es, requested)
    {
      LatestAtPlace(es, e);
      TouchesIff(e, requested);
    }
    FilterIds(edges, Touching(requested), TouchingIds(es, requested));
    assert Ids(edges) * TouchingIds(es, requested) == TouchingIds(es, requested);
    FilterChronological(es, edges, Touching(requested));
    OldestIsTake(es, Filter(edges, Touching(requested)), 320);
    SizeOfTake(Filter(edges, Touching(requested)), 320);
  }

  lemma TouchesIff(e: Edge, requested: set<string>)
    ensures Touching(requested)(e) <==> Touches(e, requested)
  {
  }

  /** The edges a merge keeps, exactly. */
  lemma MergeKeepsEdgesExactly(graphs: seq<Graph>, requested: set<string>)
    ensures var es := EdgesBetweenKept(graphs, requested);
      Ids(Merge(graphs, requested).edges) == PersonalFirst(es, requested) + RecentEdges(es, requested)
  {
    hide Kept, AllNodes, AllEdges, Latest, LastPlace, PersonalFirst, RecentEdges, KeptEdges, Filter;
    KeptEdgesAre(EdgesBetweenKept(graphs, requested), requested);
  }

  lemma KeptEdgesAre(es: seq<Edge>, requested: set<string>)
    ensures Ids(KeptEdges(Latest(es), requested)) == PersonalFirst(es, requested) + RecentEdges(es, requested)
  {
    hide Latest, Filter, LastPlace, MostRecent, TakeLast, Personal, PersonalFirst;
    var edges := Latest(es);
    var first := Personal(edges, requested);
    PersonalEdges(es, requested);
    LatestUnique(es);
    LatestChronological(es);
    var p := LacksId<EdgeBody>(PersonalFirst(es, requested));
    FilterIds(edges, p, Ids(es) - PersonalFirst(es, requested));
    assert Ids(Filter(edges, p)) == Ids(es) - PersonalFirst(es, requested);
    FilterChronological(es, edges, p);
    RecentIsTakeLast(es, Filter(edges, p), 320 - |first|);
    IdsConcat(first, TakeLast(Filter(edges, p), 320 - |first|));
  }

  /** Every edge kept has its last content. */
  lemma MergeKeepsLatestEdge(graphs: seq<Graph>, requested: set<string>, e: Edge)
    requires e in Merge(graphs, requested).edges
    ensures var es := EdgesBetweenKept(graphs, requested); LastPlace(es, e.id) >= 0 && es[LastPlace(es, e.id)] == e
  {
    hide Kept, AllNodes, AllEdges, Latest, LastPlace, KeptEdges, Filter;
    var es := EdgesBetweenKept(graphs, requested);
    LatestUnique(es);
    KeptEdgesPart(Latest(es), requested);
    LatestAtPlace(es, e);
  }

  // ---- The mark and the warnings ----

  /** A merge is marked truncated exactly when an input is, or more than 160 nodes or 320 edges came together. */
  lemma TruncatedIff(graphs: seq<Graph>, requested: set<string>)
    ensures Merge(graphs, requested).truncated <==>
      || (exists g <- graphs :: g.truncated) || |Ids(AllNodes(graphs))| > 160
      || |Ids(EdgesBetweenKept(graphs, requested))| > 320
  {
    hide Kept, AllNodes, AllEdges, Latest, KeptEdges, Filter;
    LatestUnique(AllNodes(graphs));
    IdsSize(Latest(AllNodes(graphs)));
    LatestUnique(EdgesBetweenKept(graphs, requested));
    IdsSize(Latest(EdgesBetweenKept(graphs, requested)));
  }

  lemma {:induction false} WarningsOf(graphs: seq<Graph>, w: string)
    ensures w in AllWarnings(graphs) <==> exists g <- graphs :: w in g.warnings
  {
    if graphs != [] {
      var n := |graphs| - 1;
      WarningsOf(graphs[..n], w);
      assert graphs == graphs[..n] + [graphs[n]];
    }
  }

  /** A merge has the warnings of its inputs, each once. */
  lemma MergeKeepsWarnings(graphs: seq<Graph>, requested: set<string>, w: string)
    ensures NoRepeat(Merge(graphs, requested).warnings)
    ensures w in Merge(graphs, requested).warnings <==> exists g <- graphs :: w in g.warnings
  {
    hide Kept, AllNodes, AllEdges, Latest, KeptEdges, Filter, AllWarnings, Distinct;
    DistinctElems(AllWarnings(graphs));
    WarningsOf(graphs, w);
    assert w in Elems(Merge(graphs, requested).warnings) <==> w in Elems(AllWarnings(graphs));
  }

  /** Of several nodes with one identifier the search sees the last. */
  lemma {:induction false} ByKeyIsLast(nodes: seq<Node>, k: string)
    requires k in ByKey(nodes)
    ensures LastPlace(nodes, k) >= 0 && ByKey(nodes)[k] == nodes[LastPlace(nodes, k)]
  {
    var n := |nodes| - 1;
    if nodes[n].id != k {
      ByKeyIsLast(nodes[..n], k);
    }
  }
}

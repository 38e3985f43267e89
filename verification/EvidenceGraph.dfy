/**
  The bounded evidence graph of a conversation: merging what a tool found into what is already
  shown, with at most 160 nodes and 320 edges, and the protected nodes first.
 */
module EvidenceGraph {
  import opened KeyedList

  const MAX_NODES: nat := 160
  const MAX_EDGES: nat := 320
  const MAX_CONTEXT: nat := 16

  datatype Kind = Profile | Goal | Role | Preferences | Posting | PostingEvidence | OtherKind(name: string)

  datatype NodeBody = NodeBody(kind: Kind, text: string)

  datatype EdgeBody = EdgeBody(source: string, target: string, kind: string)

  type Node = Item<NodeBody>
  type Edge = Item<EdgeBody>

  datatype Graph = Graph(nodes: seq<Node>, edges: seq<Edge>, truncated: bool, warnings: seq<string>)

  // ---- Specification ----

  function AllNodes(graphs: seq<Graph>): seq<Node> {
    if graphs == [] then [] else AllNodes(graphs[..|graphs| - 1]) + graphs[|graphs| - 1].nodes
  }

  function AllEdges(graphs: seq<Graph>): seq<Edge> {
    if graphs == [] then [] else AllEdges(graphs[..|graphs| - 1]) + graphs[|graphs| - 1].edges
  }

  function AllWarnings(graphs: seq<Graph>): seq<string> {
    if graphs == [] then [] else AllWarnings(graphs[..|graphs| - 1]) + graphs[|graphs| - 1].warnings
  }

  predicate AnyTruncated(graphs: seq<Graph>) {
    exists g <- graphs :: g.truncated
  }

  /** First occurrences, in order. */
  function Distinct(s: seq<string>): seq<string> {
    if s == [] then []
    else
      var front, last := Distinct(s[..|s| - 1]), s[|s| - 1];
      if last in front then front else front + [last]
  }

  predicate IsContext(k: Kind) {
    k.Profile? || k.Goal? || k.Role? || k.Preferences?
  }

  function ContextLacking(ids: set<string>): Node -> bool {
    (n: Node) => n.id !in ids && IsContext(n.body.kind)
  }

  function Within(ids: set<string>): Edge -> bool {
    (e: Edge) => e.body.source in ids && e.body.target in ids
  }

  function Touching(ids: set<string>): Edge -> bool {
    (e: Edge) => e.body.source in ids || e.body.target in ids
  }

  function Requested(nodes: seq<Node>, requested: set<string>): (r: seq<Node>)
    ensures |r| <= MAX_NODES
  {
    Take(Filter(nodes, HasId(requested)), MAX_NODES)
  }

  /** The requested nodes, then a few that give the conversation its context. */
  function Protected(nodes: seq<Node>, requested: set<string>): (r: seq<Node>)
    ensures |r| <= MAX_NODES
  {
    var first := Requested(nodes, requested);
    var room := MAX_NODES - |first|;
    first + Take(Filter(nodes, ContextLacking(Ids(first))), if room < MAX_CONTEXT then room else MAX_CONTEXT)
  }

  /** The protected nodes, then the most recent others as far as there is room. */
  function Kept(nodes: seq<Node>, requested: set<string>): (r: seq<Node>)
    ensures |r| <= MAX_NODES
  {
    Select(nodes, Protected(nodes, requested), MAX_NODES)
  }

  function Personal(edges: seq<Edge>, requested: set<string>): (r: seq<Edge>)
    ensures |r| <= MAX_EDGES
  {
    Take(Filter(edges, Touching(requested)), MAX_EDGES)
  }

  /** The edges at requested nodes, then the most recent others as far as there is room. */
  function KeptEdges(edges: seq<Edge>, requested: set<string>): (r: seq<Edge>)
    ensures |r| <= MAX_EDGES
  {
    Select(edges, Personal(edges, requested), MAX_EDGES)
  }

  function Merge(graphs: seq<Graph>, requested: set<string>): Graph {
    var nodes := Latest(AllNodes(graphs));
    var kept := Kept(nodes, requested);
    var edges := Latest(Filter(AllEdges(graphs), Within(Ids(kept))));
    Graph(kept, KeptEdges(edges, requested),
          AnyTruncated(graphs) || |nodes| > MAX_NODES || |edges| > MAX_EDGES, Distinct(AllWarnings(graphs)))
  }

  // ---- The merge as it runs ----

  lemma OneGraphMore(graphs: seq<Graph>, i: nat)
    requires i < |graphs|
    ensures AllNodes(graphs[..i + 1]) == AllNodes(graphs[..i]) + graphs[i].nodes
    ensures AllEdges(graphs[..i + 1]) == AllEdges(graphs[..i]) + graphs[i].edges
  {
    assert graphs[..i + 1][..i] == graphs[..i];
  }

  lemma NothingCollected(p: Edge -> bool)
    ensures AllNodes([]) == [] && Latest(AllNodes([])) == [] && AllEdges([]) == [] && Latest(Filter([], p)) == []
  {
  }

  lemma PrefixGrows<T>(s: seq<T>, j: nat)
    requires j < |s|
    ensures s[..j + 1] == s[..j] + [s[j]]
  {
  }

  method CollectNodes(graphs: seq<Graph>) returns (nodes: seq<Node>)
    ensures nodes == Latest(AllNodes(graphs))
  {
    hide Latest, Without, AllNodes, AllEdges;
    nodes := [];
    assert graphs[..0] == [];
    NothingCollected(Within({}));
    for i := 0 to |graphs|
      invariant nodes == Latest(AllNodes(graphs[..i]))
    {
      var more := graphs[i].nodes;
      ghost var before := AllNodes(graphs[..i]);
      assert before + more[..0] == before;
      for j := 0 to |more|
        invariant nodes == Latest(before + more[..j])
      {
        LatestAppend(before + more[..j], more[j]);
        PrefixGrows(more, j);
        assert before + more[..j + 1] == (before + more[..j]) + [more[j]];
        nodes := Reenter(nodes, more[j]);
      }
      assert more[..|more|] == more;
      OneGraphMore(graphs, i);
    }
    assert graphs[..|graphs|] == graphs;
  }

  method CollectEdges(graphs: seq<Graph>, kept: set<string>) returns (edges: seq<Edge>)
    ensures edges == Latest(Filter(AllEdges(graphs), Within(kept)))
  {
    hide Filter, Latest, Without, AllNodes, AllEdges;
    edges := [];
    assert graphs[..0] == [];
    NothingCollected(Within(kept));
    for i := 0 to |graphs|
      invariant edges == Latest(Filter(AllEdges(graphs[..i]), Within(kept)))
    {
      var more := graphs[i].edges;
      ghost var before := AllEdges(graphs[..i]);
      assert before + more[..0] == before;
      for j := 0 to |more|
        invariant edges == Latest(Filter(before + more[..j], Within(kept)))
      {
        var e := more[j];
        FilterAppend(before + more[..j], e, Within(kept));
        PrefixGrows(more, j);
        assert before + more[..j + 1] == (before + more[..j]) + [e];
        if e.body.source in kept && e.body.target in kept {
          LatestAppend(Filter(before + more[..j], Within(kept)), e);
          edges := Reenter(edges, e);
        }
      }
      assert more[..|more|] == more;
      OneGraphMore(graphs, i);
    }
    assert graphs[..|graphs|] == graphs;
  }

  /** Pops and reinserts every node and edge, then cuts both dictionaries to size. */
  method MergeGraphs(graphs: seq<Graph>, requested: set<string>) returns (merged: Graph)
    ensures merged == Merge(graphs, requested)
  {
    hide Filter, Latest, Take, TakeLast, AllNodes, AllEdges, AllWarnings, Distinct, Ids, AnyTruncated;
    var nodes := CollectNodes(graphs);
    var protected := Take(Filter(nodes, HasId(requested)), MAX_NODES);
    var room := MAX_NODES - |protected|;
    protected := protected +
      Take(Filter(nodes, ContextLacking(Ids(protected))), if room < MAX_CONTEXT then room else MAX_CONTEXT);
    var capacity := MAX_NODES - |protected|;
    var kept := protected + TakeLast(Filter(nodes, LacksId(Ids(protected))), capacity);
    var edges := CollectEdges(graphs, Ids(kept));
    var personal := Take(Filter(edges, Touching(requested)), MAX_EDGES);
    var recent := TakeLast(Filter(edges, LacksId(Ids(personal))), MAX_EDGES - |personal|);
    merged := Graph(kept, personal + recent,
                    AnyTruncated(graphs) || |nodes| > MAX_NODES || |edges| > MAX_EDGES, Distinct(AllWarnings(graphs)));
  }

  // ---- What a merge keeps ----

  lemma ProtectedPart(nodes: seq<Node>, requested: set<string>)
    requires Unique(nodes)
    ensures PartOf(Protected(nodes, requested), nodes)
  {
    var first := Requested(nodes, requested);
    var p := ContextLacking(Ids(first));
    FilterMembers(nodes, HasId(requested));
    FilterUnique(nodes, HasId(requested));
    TakeParts(Filter(nodes, HasId(requested)), MAX_NODES);
    FilterMembers(nodes, p);
    FilterUnique(nodes, p);
    var room := MAX_NODES - |first|;
    var n := if room < MAX_CONTEXT then room else MAX_CONTEXT;
    TakeParts(Filter(nodes, p), n);
    assert Ids(first) !! Ids(Take(Filter(nodes, p), n));
    UniqueConcat(first, Take(Filter(nodes, p), n));
  }

  lemma KeptPart(nodes: seq<Node>, requested: set<string>)
    requires Unique(nodes)
    ensures PartOf(Kept(nodes, requested), nodes)
    ensures |nodes| <= MAX_NODES ==> forall n <- nodes :: n in Kept(nodes, requested)
    ensures |Filter(nodes, HasId(requested))| <= MAX_NODES ==>
              forall n <- nodes :: n.id in requested ==> n in Kept(nodes, requested)
  {
    ProtectedPart(nodes, requested);
    SelectPart(nodes, Protected(nodes, requested), MAX_NODES);
    FilterMembers(nodes, HasId(requested));
  }

  lemma KeptEdgesPart(edges: seq<Edge>, requested: set<string>)
    requires Unique(edges)
    ensures PartOf(KeptEdges(edges, requested), edges)
    ensures |edges| <= MAX_EDGES ==> forall e <- edges :: e in KeptEdges(edges, requested)
  {
    FilterMembers(edges, Touching(requested));
    FilterUnique(edges, Touching(requested));
    TakeParts(Filter(edges, Touching(requested)), MAX_EDGES);
    SelectPart(edges, Personal(edges, requested), MAX_EDGES);
  }

  /** At most 160 nodes and 320 edges, no identifier twice, and no edge without both its ends. */
  ghost predicate Bounded(g: Graph) {
    && |g.nodes| <= 160 && |g.edges| <= 320 && Unique(g.nodes) && Unique(g.edges)
    && forall e <- g.edges :: e.body.source in Ids(g.nodes) && e.body.target in Ids(g.nodes)
  }

  lemma MergeBounded(graphs: seq<Graph>, requested: set<string>)
    ensures Bounded(Merge(graphs, requested))
  {
    hide Kept, KeptEdges, Latest, Filter;
    var nodes := Latest(AllNodes(graphs));
    LatestUnique(AllNodes(graphs));
    KeptPart(nodes, requested);
    var ids := Ids(Kept(nodes, requested));
    var inside := Filter(AllEdges(graphs), Within(ids));
    LatestUnique(inside);
    FilterMembers(AllEdges(graphs), Within(ids));
    KeptEdgesPart(Latest(inside), requested);
  }

  /** A kept node is an input node after which no input has the same identifier; so its content is the latest. */
  lemma MergeKeepsLatest(graphs: seq<Graph>, requested: set<string>, n: Node) returns (i: nat)
    requires n in Merge(graphs, requested).nodes
    ensures i < |AllNodes(graphs)| && AllNodes(graphs)[i] == n && n.id !in Ids(AllNodes(graphs)[i + 1..])
  {
    hide Kept, KeptEdges, Latest, Filter;
    var all := AllNodes(graphs);
    LatestUnique(all);
    KeptPart(Latest(all), requested);
    assert n in Kept(Latest(all), requested) && n in Latest(all);
    LatestMeaning(all, n);
    i :| 0 <= i < |all| && all[i] == n && n.id !in Ids(all[i + 1..]);
  }

  /** Requested nodes survive while they number at most 160. */
  lemma MergeKeepsRequested(graphs: seq<Graph>, requested: set<string>, id: string)
    requires id in requested && id in Ids(AllNodes(graphs))
    requires |Filter(Latest(AllNodes(graphs)), HasId(requested))| <= 160
    ensures id in Ids(Merge(graphs, requested).nodes)
  {
    hide Kept, KeptEdges, Latest, Filter;
    LatestUnique(AllNodes(graphs));
    KeptPart(Latest(AllNodes(graphs)), requested);
  }

  /**
    A result that is not marked truncated has every node, as it came last, and of the edges between nodes
    that are present every one, as it came last.
   */
  lemma UntruncatedIsComplete(graphs: seq<Graph>, requested: set<string>)
    requires !Merge(graphs, requested).truncated
    ensures !AnyTruncated(graphs) && Ids(Merge(graphs, requested).nodes) == Ids(AllNodes(graphs))
    ensures forall n :: n in Merge(graphs, requested).nodes <==> n in Latest(AllNodes(graphs))
    ensures forall e :: (e in Merge(graphs, requested).edges
              <==> e in Latest(Filter(AllEdges(graphs), Within(Ids(AllNodes(graphs))))))
  {
    hide Kept, KeptEdges, Latest, Filter, AllNodes, AllEdges, AnyTruncated;
    var nodes := Latest(AllNodes(graphs));
    LatestUnique(AllNodes(graphs));
    KeptPart(nodes, requested);
    var ids := Ids(Kept(nodes, requested));
    assert ids == Ids(nodes);
    var inside := Filter(AllEdges(graphs), Within(ids));
    LatestUnique(inside);
    KeptEdgesPart(Latest(inside), requested);
  }

  // ---- Merging again ----

  function ContextRoom(first: seq<Node>): nat
    requires |first| <= MAX_NODES
  {
    if MAX_NODES - |first| < MAX_CONTEXT then MAX_NODES - |first| else MAX_CONTEXT
  }

  lemma RequestedAgain(nodes: seq<Node>, requested: set<string>, more: seq<Node>)
    requires Unique(nodes)
    requires forall n <- more :: n in nodes && n.id !in Ids(Requested(nodes, requested))
    requires |Requested(nodes, requested)| == MAX_NODES ==> more == []
    ensures Requested(Requested(nodes, requested) + more, requested) == Requested(nodes, requested)
  {
    var p, first := HasId<NodeBody>(requested), Requested(nodes, requested);
    FilterMembers(nodes, p);
    TakeParts(Filter(nodes, p), MAX_NODES);
    FilterConcat(first, more, p);
    FilterAll(first, p);
    if |first| < MAX_NODES {
      assert first == Filter(nodes, p);
      FilterNone(more, p);
    }
    hide Filter;
    assert Filter(first + more, p) == first;
  }

  lemma ContextAgain(nodes: seq<Node>, ids: set<string>, first: seq<Node>, rest: seq<Node>, m: nat)
    requires Ids(first) == ids
    requires forall n <- rest :: n in nodes && n.id !in ids && n.id !in Ids(Take(Filter(nodes, ContextLacking(ids)), m))
    ensures var extra := Take(Filter(nodes, ContextLacking(ids)), m);
      Take(Filter(first + extra + rest, ContextLacking(ids)), m) == extra
  {
    var p := ContextLacking(ids);
    var all := Filter(nodes, p);
    var extra := Take(all, m);
    FilterMembers(nodes, p);
    TakeParts(all, m);
    FilterMiddle(first, extra, rest, p);
    if |all| <= m {
      FilterNone(rest, p);
    }
    hide Filter, ContextLacking, Ids;
    assert Take(extra + Filter(rest, p), m) == extra;
  }

  function Context(nodes: seq<Node>, requested: set<string>): seq<Node> {
    var first := Requested(nodes, requested);
    Take(Filter(nodes, ContextLacking(Ids(first))), ContextRoom(first))
  }

  function Recent(nodes: seq<Node>, requested: set<string>): seq<Node> {
    var protected := Protected(nodes, requested);
    TakeLast(Filter(nodes, LacksId(Ids(protected))), MAX_NODES - |protected|)
  }

  lemma ContextPart(nodes: seq<Node>, requested: set<string>)
    ensures var first, extra := Requested(nodes, requested), Context(nodes, requested);
      && Protected(nodes, requested) == first + extra && |first| + |extra| <= MAX_NODES
      && forall n <- extra :: n in nodes && n.id !in Ids(first)
  {
    hide Requested, Filter, Ids;
    var first := Requested(nodes, requested);
    FilterMembers(nodes, ContextLacking(Ids(first)));
    TakeParts(Filter(nodes, ContextLacking(Ids(first))), ContextRoom(first));
  }

  lemma RecentPart(nodes: seq<Node>, requested: set<string>)
    ensures var protected, rest := Protected(nodes, requested), Recent(nodes, requested);
      && Kept(nodes, requested) == protected + rest && |protected| + |rest| <= MAX_NODES
      && forall n <- rest :: n in nodes && n.id !in Ids(protected)
  {
    hide Protected, Filter, Ids;
    var protected := Protected(nodes, requested);
    FilterMembers(nodes, LacksId<NodeBody>(Ids(protected)));
    TakeParts(Filter(nodes, LacksId<NodeBody>(Ids(protected))), MAX_NODES - |protected|);
  }

  /** The three parts of what is kept. */
  lemma KeptParts(nodes: seq<Node>, requested: set<string>)
    ensures var first, extra, rest := Requested(nodes, requested), Context(nodes, requested), Recent(nodes, requested);
      && Protected(nodes, requested) == first + extra
      && Kept(nodes, requested) == first + extra + rest
      && (|first| == MAX_NODES ==> extra == [] && rest == [])
      && (forall n <- extra :: n in nodes && n.id !in Ids(first))
      && (forall n <- rest :: n in nodes && n.id !in Ids(first) && n.id !in Ids(extra))
  {
    hide Requested, Context, Recent, Protected, Kept, Ids;
    ContextPart(nodes, requested);
    RecentPart(nodes, requested);
    IdsConcat(Requested(nodes, requested), Context(nodes, requested));
  }

  lemma KeptAgain(nodes: seq<Node>, requested: set<string>)
    requires Unique(nodes)
    ensures Kept(Kept(nodes, requested), requested) == Kept(nodes, requested)
  {
    KeptParts(nodes, requested);
    var first, extra, rest := Requested(nodes, requested), Context(nodes, requested), Recent(nodes, requested);
    var r := Kept(nodes, requested);
    hide Filter, Take, TakeLast, Requested, Recent, Ids, Unique;
    assert first + (extra + rest) == r;
    RequestedAgain(nodes, requested, extra + rest);
    ContextAgain(nodes, Ids(first), first, rest, ContextRoom(first));
    assert Protected(r, requested) == first + extra;
    SelectAgain(nodes, first + extra, MAX_NODES);
  }

  lemma KeptEdgesAgain(edges: seq<Edge>, requested: set<string>)
    requires Unique(edges)
    ensures KeptEdges(KeptEdges(edges, requested), requested) == KeptEdges(edges, requested)
  {
    var p, personal := Touching(requested), Personal(edges, requested);
    var q := LacksId<EdgeBody>(Ids(personal));
    var rest := TakeLast(Filter(edges, q), MAX_EDGES - |personal|);
    FilterMembers(edges, p);
    TakeParts(Filter(edges, p), MAX_EDGES);
    FilterMembers(edges, q);
    TakeParts(Filter(edges, q), MAX_EDGES - |personal|);
    FilterConcat(personal, rest, p);
    FilterAll(personal, p);
    if |personal| < MAX_EDGES {
      assert personal == Filter(edges, p);
      FilterNone(rest, p);
    } else {
      assert rest == [];
    }
    hide Filter;
    assert Filter(personal + rest, p) == personal;
    SelectAgain(edges, personal, MAX_EDGES);
  }

  lemma {:induction false} DistinctAgain(s: seq<string>)
    ensures Distinct(Distinct(s)) == Distinct(s)
  {
    if s != [] {
      var n := |s| - 1;
      DistinctAgain(s[..n]);
      var front := Distinct(s[..n]);
      if s[n] !in front {
        assert (front + [s[n]])[..|front|] == front;
      }
    }
  }

  lemma MergeOfOne(g: Graph)
    ensures AllNodes([g]) == g.nodes && AllEdges([g]) == g.edges && AllWarnings([g]) == g.warnings
    ensures AnyTruncated([g]) == g.truncated
  {
    assert [g][..0] == [];
  }

  /** Merging a result again, with the same requested nodes, changes nothing. */
  lemma MergeAgain(graphs: seq<Graph>, requested: set<string>)
    ensures Merge([Merge(graphs, requested)], requested) == Merge(graphs, requested)
  {
    hide Kept, KeptEdges, Latest, Filter, AllNodes, AllEdges, AllWarnings, AnyTruncated, Distinct;
    var r := Merge(graphs, requested);
    MergeBounded(graphs, requested);
    MergeOfOne(r);
    LatestFixed(r.nodes);
    LatestUnique(AllNodes(graphs));
    KeptAgain(Latest(AllNodes(graphs)), requested);
    FilterAll(r.edges, Within(Ids(r.nodes)));
    LatestFixed(r.edges);
    LatestUnique(Filter(AllEdges(graphs), Within(Ids(r.nodes))));
    KeptEdgesAgain(Latest(Filter(AllEdges(graphs), Within(Ids(r.nodes)))), requested);
    DistinctAgain(AllWarnings(graphs));
  }
}

/**
  The evidence graph over a whole chat answer: every reply of a tool is merged into the graph, while
  the set of protected nodes grows.
 */
module ChatRun {
  import opened KeyedList
  import opened EvidenceGraph
  import opened Neighborhood

  const FOCUS_LIMIT := 24

  datatype Chat = Chat(graph: Graph, protected: set<string>)

  /**
    A focused item or a catalog reply is merged as it is; an expansion of the focus then protects the
    neighbourhood of the focus; personal records are protected before they are merged.
   */
  datatype Reply = Plain(found: Graph) | Expanded(found: Graph, focus: seq<string>) | Personal(found: Graph)

  function Open(initial: Graph): Chat {
    Chat(initial, Ids(initial.nodes))
  }

  function Absorb(c: Chat, r: Reply): Chat {
    match r
    case Plain(found) => c.(graph := Merge([c.graph, found], c.protected))
    case Expanded(found, focus) =>
      var graph := Merge([c.graph, found], c.protected);
      Chat(graph, c.protected + Ids(FocusNeighborhood(graph, focus, FOCUS_LIMIT).nodes))
    case Personal(found) =>
      var protected := c.protected + Ids(found.nodes);
      Chat(Merge([c.graph, found], protected), protected)
  }

  function AbsorbAll(c: Chat, replies: seq<Reply>): Chat
    decreases |replies|
  {
    if replies == [] then c else AbsorbAll(Absorb(c, replies[0]), replies[1..])
  }

  method Answer(initial: Graph, replies: seq<Reply>) returns (graph: Graph, protected: set<string>)
    ensures Chat(graph, protected) == AbsorbAll(Open(initial), replies)
  {
    hide Merge, FocusNeighborhood;
    graph, protected := initial, Ids(initial.nodes);
    for i := 0 to |replies|
      invariant AbsorbAll(Chat(graph, protected), replies[i..]) == AbsorbAll(Open(initial), replies)
    {
      assert replies[i..][1..] == replies[i + 1..];
      match replies[i] {
        case Plain(found) =>
          graph := MergeGraphs([graph, found], protected);
        case Expanded(found, focus) =>
          graph := MergeGraphs([graph, found], protected);
          var near := KeepNeighborhood(graph, focus, FOCUS_LIMIT);
          protected := protected + Ids(near.nodes);
        case Personal(found) =>
          protected := protected + Ids(found.nodes);
          graph := MergeGraphs([graph, found], protected);
      }
    }
  }

  // ---- Over every run ----

  lemma AbsorbBounded(c: Chat, r: Reply)
    ensures Bounded(Absorb(c, r).graph) && c.protected <= Absorb(c, r).protected
  {
    hide Merge, FocusNeighborhood, Bounded;
    MergeBounded([c.graph, r.found], c.protected);
    MergeBounded([c.graph, r.found], c.protected + Ids(r.found.nodes));
  }

  /** After any run of replies the graph is bounded, without duplicates and without dangling edges. */
  lemma {:induction false} RunBounded(c: Chat, replies: seq<Reply>)
    ensures replies != [] ==> Bounded(AbsorbAll(c, replies).graph)
    ensures c.protected <= AbsorbAll(c, replies).protected
    decreases |replies|
  {
    hide Absorb, Bounded;
    if replies != [] {
      AbsorbBounded(c, replies[0]);
      RunBounded(Absorb(c, replies[0]), replies[1..]);
    }
  }

  lemma RequestedFew(nodes: seq<Node>, requested: set<string>)
    requires Unique(nodes) && |requested| <= 160
    ensures |Filter(nodes, HasId(requested))| <= 160
  {
    var r := Filter(nodes, HasId(requested));
    FilterMembers(nodes, HasId(requested));
    FilterUnique(nodes, HasId(requested));
    IdsSize(r);
    assert Ids(r) <= requested;
    SubsetSize(Ids(r), requested);
  }

  lemma AllNodesOfTwo(g: Graph, h: Graph)
    ensures AllNodes([g, h]) == g.nodes + h.nodes
    ensures Ids(AllNodes([g, h])) == Ids(g.nodes) + Ids(h.nodes)
  {
    assert [g, h][..1] == [g] && [g][..0] == [];
    assert AllNodes([g]) == g.nodes;
    IdsConcat(g.nodes, h.nodes);
  }

  lemma MergeKeeps(g: Graph, found: Graph, requested: set<string>, id: string)
    requires |requested| <= 160 && id in requested && id in Ids(g.nodes) + Ids(found.nodes)
    ensures id in Ids(Merge([g, found], requested).nodes)
  {
    hide Merge, Filter, Latest, AllNodes;
    AllNodesOfTwo(g, found);
    LatestUnique(AllNodes([g, found]));
    RequestedFew(Latest(AllNodes([g, found])), requested);
    MergeKeepsRequested([g, found], requested, id);
  }

  lemma AbsorbKeeps(c: Chat, r: Reply, id: string)
    requires |Absorb(c, r).protected| <= 160 && id in c.protected && id in Ids(c.graph.nodes)
    ensures id in Ids(Absorb(c, r).graph.nodes)
  {
    hide Merge, FocusNeighborhood;
    AbsorbBounded(c, r);
    SubsetSize(c.protected, Absorb(c, r).protected);
    MergeKeeps(c.graph, r.found, if r.Personal? then c.protected + Ids(r.found.nodes) else c.protected, id);
  }

  /**
    Protected evidence is never lost: if at most 160 nodes end up protected, every node that is
    protected and present at some point of a run is still present at its end.
   */
  lemma {:induction false} ProtectedSurvive(c: Chat, replies: seq<Reply>, id: string)
    requires |AbsorbAll(c, replies).protected| <= 160 && id in c.protected && id in Ids(c.graph.nodes)
    ensures id in Ids(AbsorbAll(c, replies).graph.nodes)
    decreases |replies|
  {
    hide Absorb;
    if replies != [] {
      var next := Absorb(c, replies[0]);
      AbsorbBounded(c, replies[0]);
      RunBounded(next, replies[1..]);
      SubsetSize(next.protected, AbsorbAll(c, replies).protected);
      AbsorbKeeps(c, replies[0], id);
      ProtectedSurvive(next, replies[1..], id);
    }
  }

  /** In particular, what the conversation was opened with. */
  lemma OpeningSurvives(initial: Graph, replies: seq<Reply>, n: Node)
    requires n in initial.nodes && |AbsorbAll(Open(initial), replies).protected| <= 160
    ensures n.id in Ids(AbsorbAll(Open(initial), replies).graph.nodes)
  {
    ProtectedSurvive(Open(initial), replies, n.id);
  }

  /** Personal records that a reply brings are there for the rest of the chat. */
  lemma PersonalSurvives(c: Chat, found: Graph, later: seq<Reply>, n: Node)
    requires n in found.nodes && |AbsorbAll(Absorb(c, Personal(found)), later).protected| <= 160
    ensures n.id in Ids(AbsorbAll(Absorb(c, Personal(found)), later).graph.nodes)
  {
    hide Merge, AbsorbAll;
    var next := Absorb(c, Personal(found));
    RunBounded(next, later);
    SubsetSize(next.protected, AbsorbAll(next, later).protected);
    MergeKeeps(c.graph, found, next.protected, n.id);
    ProtectedSurvive(next, later, n.id);
  }

  /** The neighbourhood of the focus, as an expansion leaves it, is there for the rest of the chat. */
  lemma FocusSurvives(c: Chat, found: Graph, focus: seq<string>, later: seq<Reply>, n: Node)
    requires var next := Absorb(c, Expanded(found, focus));
      n in FocusNeighborhood(next.graph, focus, 24).nodes && |AbsorbAll(next, later).protected| <= 160
    ensures n.id in Ids(AbsorbAll(Absorb(c, Expanded(found, focus)), later).graph.nodes)
  {
    hide Merge, AbsorbAll, FocusNeighborhood;
    var next := Absorb(c, Expanded(found, focus));
    NeighborhoodMeaning(next.graph, focus, 24);
    ProtectedSurvive(next, later, n.id);
  }

  // ---- What a run has kept ----

  lemma {:induction false} AbsorbNext(c: Chat, replies: seq<Reply>, r: Reply)
    ensures AbsorbAll(c, replies + [r]) == Absorb(AbsorbAll(c, replies), r)
    decreases |replies|
  {
    hide Absorb;
    if replies == [] {
      assert [r][1..] == [];
      assert AbsorbAll(c, [r]) == AbsorbAll(Absorb(c, r), []);
      assert replies + [r] == [r];
    } else {
      assert (replies + [r])[0] == replies[0] && (replies + [r])[1..] == replies[1..] + [r];
      AbsorbNext(Absorb(c, replies[0]), replies[1..], r);
    }
  }

  /** The nodes of the opening and of each reply. */
  function NodeBatches(c: Chat, replies: seq<Reply>): seq<seq<Node>> {
    if replies == [] then [c.graph.nodes]
    else
      var n := |replies| - 1;
      NodeBatches(c, replies[..n]) + [replies[n].found.nodes]
  }

  /** The identifiers of all nodes the opening and the replies bring. */
  function Brought(c: Chat, replies: seq<Reply>): set<string> {
    if replies == [] then Ids(c.graph.nodes)
    else
      var n := |replies| - 1;
      Brought(c, replies[..n]) + Ids(replies[n].found.nodes)
  }

  /**
    The edges of the opening and of each reply that have both ends among the nodes brought by then. The
    opening is only looked at together with the first reply.
   */
  function EdgeBatches(c: Chat, replies: seq<Reply>): seq<seq<Edge>>
    requires replies != []
  {
    var n := |replies| - 1;
    var ends := Within(Brought(c, replies));
    (if n == 0 then [Filter(c.graph.edges, ends)] else EdgeBatches(c, replies[..n]))
      + [Filter(replies[n].found.edges, ends)]
  }

  function RequestedBy(c: Chat, r: Reply): set<string> {
    if r.Personal? then c.protected + Ids(r.found.nodes) else c.protected
  }

  lemma AbsorbMerges(c: Chat, r: Reply)
    ensures Absorb(c, r).graph == Merge([c.graph, r.found], RequestedBy(c, r))
  {
    hide Merge, FocusNeighborhood;
  }

  lemma AllEdgesOfTwo(g: Graph, h: Graph)
    ensures AllEdges([g, h]) == g.edges + h.edges
    ensures AnyTruncated([g, h]) <==> g.truncated || h.truncated
  {
    assert [g, h][..1] == [g] && [g][..0] == [];
    assert AllEdges([g]) == g.edges;
    assert [g, h][0] == g && [g, h][1] == h;
  }

  /** A node shown after a reply is the one found last: in the reply if it is there, else as it was before. */
  lemma ShownAfterReply(c: Chat, r: Reply, n: Node)
    requires n in Absorb(c, r).graph.nodes
    ensures n in Latest(r.found.nodes) || (n in Latest(c.graph.nodes) && n.id !in Ids(r.found.nodes))
  {
    hide Merge, AllNodes, Latest, Ids;
    AbsorbMerges(c, r);
    hide Absorb;
    AllNodesOfTwo(c.graph, r.found);
    var i := MergeKeepsLatest([c.graph, r.found], RequestedBy(c, r), n);
    LatestMeaning(c.graph.nodes + r.found.nodes, n);
    LatestConcat(c.graph.nodes, r.found.nodes, n);
  }

  /** An untruncated reply leaves exactly what was there and what it brings, each as it came last. */
  lemma UntruncatedReply(c: Chat, r: Reply)
    requires !Absorb(c, r).graph.truncated
    ensures !c.graph.truncated && Ids(Absorb(c, r).graph.nodes) == Ids(c.graph.nodes) + Ids(r.found.nodes)
    ensures forall n :: (n in Absorb(c, r).graph.nodes
              <==> n in Latest(r.found.nodes) || (n in Latest(c.graph.nodes) && n.id !in Ids(r.found.nodes)))
    ensures var ends := Within(Ids(c.graph.nodes) + Ids(r.found.nodes));
      var before, now := Filter(c.graph.edges, ends), Filter(r.found.edges, ends);
      forall e :: (e in Absorb(c, r).graph.edges <==> e in Latest(now) || (e in Latest(before) && e.id !in Ids(now)))
  {
    hide Merge, AllNodes, AllEdges, AnyTruncated, Latest, Filter, Ids;
    AbsorbMerges(c, r);
    hide Absorb;
    AllNodesOfTwo(c.graph, r.found);
    AllEdgesOfTwo(c.graph, r.found);
    UntruncatedIsComplete([c.graph, r.found], RequestedBy(c, r));
    forall n { LatestConcat(c.graph.nodes, r.found.nodes, n); }
    var ends := Within(Ids(c.graph.nodes) + Ids(r.found.nodes));
    FilterConcat(c.graph.edges, r.found.edges, ends);
    forall e { LatestConcat(Filter(c.graph.edges, ends), Filter(r.found.edges, ends), e); }
  }

  /**
    Over a whole run each node shown has the content that came last: of the last reply that has it, or
    the opening's.
   */
  lemma {:induction false} ShownIsLatest(c: Chat, replies: seq<Reply>, n: Node)
    requires replies != [] && n in AbsorbAll(c, replies).graph.nodes
    ensures LastIn(NodeBatches(c, replies), n)
    decreases |replies|
  {
    hide Absorb, AbsorbAll, Latest, LastIn;
    var m := |replies| - 1;
    var front, last := replies[..m], replies[m];
    assert replies == front + [last];
    var before := AbsorbAll(c, front);
    AbsorbNext(c, front, last);
    ShownAfterReply(before, last, n);
    LastInNext(NodeBatches(c, front), last.found.nodes, n);
    if n !in Latest(last.found.nodes) {
      if front == [] {
        NothingAbsorbed(c);
        OneBatch(c.graph.nodes, n);
      } else {
        LatestUnique(before.graph.nodes);
        ShownIsLatest(c, front, n);
      }
    }
  }

  lemma NothingAbsorbed(c: Chat)
    ensures AbsorbAll(c, []) == c
  {
  }

  /** A run whose result is not marked truncated has lost no node, and shows each as it came last. */
  lemma {:induction false} UntruncatedRunKeepsNodes(c: Chat, replies: seq<Reply>)
    requires replies != [] && !AbsorbAll(c, replies).graph.truncated
    ensures !c.graph.truncated && Ids(AbsorbAll(c, replies).graph.nodes) == Brought(c, replies)
    ensures forall n :: n in AbsorbAll(c, replies).graph.nodes <==> LastIn(NodeBatches(c, replies), n)
    decreases |replies|
  {
    hide Absorb, AbsorbAll, Latest, LastIn, Ids;
    var m := |replies| - 1;
    var front, last := replies[..m], replies[m];
    assert replies == front + [last];
    var before := AbsorbAll(c, front);
    AbsorbNext(c, front, last);
    UntruncatedReply(before, last);
    forall n { LastInNext(NodeBatches(c, front), last.found.nodes, n); }
    if front == [] {
      NothingAbsorbed(c);
      forall n { OneBatch(c.graph.nodes, n); }
    } else {
      UntruncatedRunKeepsNodes(c, front);
      RunBounded(c, front);
      LatestFixed(before.graph.nodes);
    }
  }

  /**
    In such a run an edge is there in the end, with its content, exactly when it is the last of its
    identifier among the edges that came with both ends known by then.
   */
  lemma {:induction false} UntruncatedRunKeepsEdges(c: Chat, replies: seq<Reply>)
    requires replies != [] && !AbsorbAll(c, replies).graph.truncated
    ensures forall e :: e in AbsorbAll(c, replies).graph.edges <==> LastIn(EdgeBatches(c, replies), e)
    decreases |replies|
  {
    hide Absorb, AbsorbAll, Latest, LastIn, Filter, Ids;
    var m := |replies| - 1;
    var front, last := replies[..m], replies[m];
    assert replies == front + [last];
    var before := AbsorbAll(c, front);
    AbsorbNext(c, front, last);
    UntruncatedReply(before, last);
    var ends := Within(Brought(c, replies));
    var brought := Filter(last.found.edges, ends);
    if front == [] {
      NothingAbsorbed(c);
      assert Brought(c, replies) == Ids(c.graph.nodes) + Ids(last.found.nodes);
      var opening := Filter(c.graph.edges, ends);
      assert EdgeBatches(c, replies) == [opening] + [brought];
      forall e
        ensures LastIn([opening] + [brought], e) <==>
          e in Latest(brought) || (e in Latest(opening) && e.id !in Ids(brought))
      {
        OneBatch(opening, e);
        LastInNext([opening], brought, e);
      }
    } else {
      UntruncatedRunKeepsNodes(c, front);
      UntruncatedRunKeepsEdges(c, front);
      RunBounded(c, front);
      EndsStay(before.graph, Ids(last.found.nodes));
      LatestFixed(before.graph.edges);
      forall e { LastInNext(EdgeBatches(c, front), brought, e); }
    }
  }

  /** More nodes do not drop an edge that has its ends. */
  lemma EndsStay(g: Graph, more: set<string>)
    requires Bounded(g)
    ensures Filter(g.edges, Within(Ids(g.nodes) + more)) == g.edges && Unique(g.edges) && Unique(g.nodes)
  {
    FilterAll(g.edges, Within(Ids(g.nodes) + more));
  }

  lemma {:induction false} EdgeBatchAt(c: Chat, replies: seq<Reply>, k: nat)
    requires replies != [] && k <= |replies|
    ensures |EdgeBatches(c, replies)| == |replies| + 1
    ensures EdgeBatches(c, replies)[k] == KnownEdges(c, replies, k)
    decreases |replies|
  {
    hide Filter, Brought;
    var n := |replies| - 1;
    if n == 0 {
      assert replies[..1] == replies;
    } else {
      var front := replies[..n];
      assert k <= n ==> front[..if k == 0 then 1 else k] == replies[..if k == 0 then 1 else k];
      EdgeBatchAt(c, front, if k <= n then k else 0);
      assert replies[..|replies|] == replies;
    }
  }

  /** The edges of the opening (0) or of the `k`-th reply whose ends are both known once that reply has come. */
  function KnownEdges(c: Chat, replies: seq<Reply>, k: nat): seq<Edge>
    requires replies != [] && k <= |replies|
  {
    Filter(if k == 0 then c.graph.edges else replies[k - 1].found.edges,
           Within(Brought(c, replies[..if k == 0 then 1 else k])))
  }

  /** An edge is present after an untruncated run if and only if it came at some point with both ends known by then. */
  lemma EdgePresentIff(c: Chat, replies: seq<Reply>, id: string)
    requires replies != [] && !AbsorbAll(c, replies).graph.truncated
    ensures id in Ids(AbsorbAll(c, replies).graph.edges)
       <==> exists k :: 0 <= k <= |replies| && id in Ids(KnownEdges(c, replies, k))
  {
    hide AbsorbAll, LastIn, KnownEdges, EdgeBatches;
    UntruncatedRunKeepsEdges(c, replies);
    LastInIds(EdgeBatches(c, replies), id);
    forall k | 0 <= k <= |replies|
      ensures |EdgeBatches(c, replies)| == |replies| + 1 && EdgeBatches(c, replies)[k] == KnownEdges(c, replies, k)
    {
      EdgeBatchAt(c, replies, k);
    }
    EdgeBatchAt(c, replies, 0);
  }

  /** An edge from `a` to `b` that comes with `a`, and `b` afterwards. */
  const Early: Graph := Graph([Item("a", NodeBody(Role, ""))], [Item("e", EdgeBody("a", "b", "needs"))], false, [])
  const Late: Graph := Graph([Item("b", NodeBody(Role, ""))], [], false, [])

  /** A reply that keeps within the bounds is not marked truncated. */
  lemma SmallReply(c: Chat, r: Reply)
    requires !c.graph.truncated && !r.found.truncated
    requires |c.graph.nodes| + |r.found.nodes| <= MAX_NODES && |c.graph.edges| + |r.found.edges| <= MAX_EDGES
    ensures !Absorb(c, r).graph.truncated
  {
    hide AllNodes, AllEdges, AnyTruncated, Latest, Filter, Ids, Kept, KeptEdges;
    AbsorbMerges(c, r);
    hide Absorb;
    AllNodesOfTwo(c.graph, r.found);
    AllEdgesOfTwo(c.graph, r.found);
    var nodes, edges := c.graph.nodes + r.found.nodes, c.graph.edges + r.found.edges;
    var inside := Filter(edges, Within(Ids(Kept(Latest(nodes), RequestedBy(c, r)))));
    FilterMembers(edges, Within(Ids(Kept(Latest(nodes), RequestedBy(c, r)))));
    LatestShrinks(nodes);
    LatestShrinks(inside);
  }

  lemma {:induction false} LatestShrinks<T>(s: seq<Item<T>>)
    ensures |Latest(s)| <= |s|
  {
    if s != [] {
      LatestShrinks(s[1..]);
    }
  }

  const Blank: Chat := Open(Graph([], [], false, []))

  lemma AfterEarly()
    ensures var r := Absorb(Blank, Plain(Early)).graph;
      !r.truncated && |r.nodes| <= 1 && r.edges == [] && Ids(r.nodes) == {"a"}
  {
    hide Merge, Absorb;
    var r := Absorb(Blank, Plain(Early)).graph;
    SmallReply(Blank, Plain(Early));
    UntruncatedReply(Blank, Plain(Early));
    AbsorbBounded(Blank, Plain(Early));
    IdsSize(r.nodes);
    assert Early.nodes[0].id == "a" && Ids(Early.nodes) == {"a"};
    var ends := Within(Ids(Blank.graph.nodes) + Ids(Early.nodes));
    assert Filter(Early.edges, ends) == [] by { FilterNone(Early.edges, ends); }
    NoEdges(r);
  }

  lemma NoEdges(g: Graph)
    requires forall e :: e !in g.edges
    ensures g.edges == []
  {
    if g.edges != [] {
      FirstEdge(g);
    }
  }

  lemma FirstEdge(g: Graph)
    requires g.edges != []
    ensures exists e :: e in g.edges
  {
    assert g.edges[0] in g.edges;
  }

  /** Such an edge is lost, although both its ends are there in the end and nothing is marked truncated. */
  lemma EarlyEdgeIsLost()
    ensures var r := AbsorbAll(Blank, [Plain(Early), Plain(Late)]).graph;
      !r.truncated && Ids(r.nodes) == {"a", "b"} && r.edges == []
  {
    hide Merge, Absorb;
    AfterEarly();
    var c := Absorb(Blank, Plain(Early));
    var r := Absorb(c, Plain(Late)).graph;
    SmallReply(c, Plain(Late));
    UntruncatedReply(c, Plain(Late));
    assert Late.nodes[0].id == "b" && Ids(Late.nodes) == {"b"};
    NoEdges(r);
    assert [Plain(Early), Plain(Late)][1..] == [Plain(Late)] && [Plain(Late)][1..] == [];
    assert AbsorbAll(c, [Plain(Late)]) == Absorb(c, Plain(Late));
  }
}

/** EdmondsKarp: repeatedly build the residual network of the current flows,
    find a shortest path from 's' to 't' in it, and push the smallest residual
    capacity along that path, until no path is left. The flows change in place,
    in the network object createGraph returned. */
module MaxFlow {
  import opened FlowGraph
  import opened Ids
  import opened Trace
  import opened Residual
  import opened PathSearch
  import opened Augmenting
  import opened MinCut

  /** The network object createGraph returns, as EdmondsKarp sees it: a fixed
      key list and edges whose flows are updated in place. The adjacency lists
      share the edge objects, so they are always the view `Graph()` of the
      current edges. */
  class FlowNetwork {
    const keys: seq<VId>
    var edges: seq<Edge>

    /** createGraph(vertices, edges). */
    constructor (vertices: seq<VId>, es: seq<Edge>)
      ensures Graph() == CreateGraph(vertices, es)
    {
      keys := vertices;
      edges := es;
    }

    function Graph(): Graph
      reads this
    {
      CreateGraph(keys, edges)
    }

    /** The second loop of a round: for each step of the path, push `delta`
        along it; collect each updated edge as it is right after its update. */
    method Augment(path: seq<VId>, delta: int) returns (pathEdges: seq<Edge>)
      requires |path| > 0 && PathLinked(edges, path)
      modifies this
      ensures edges == Augmented(old(edges), path, delta, |path| - 1)
      ensures pathEdges == PushedEdges(old(edges), path, delta, |path| - 1)
    {
      ghost var e0 := edges;
      pathEdges := [];
      for i := 0 to |path| - 1
        invariant edges == Augmented(e0, path, delta, i)
        invariant pathEdges == PushedEdges(e0, path, delta, i)
      {
        AugmentedUnfold(e0, path, delta, i);
        var k;
        edges, k := PushFlow(edges, path[i], path[i + 1], delta);
        pathEdges := pathEdges + [edges[k]];
      }
    }
  }

  /** One iteration of the second loop: find the `u -> v` edge and add
      `delta` to its flow, or else find the `v -> u` edge and take `delta` off
      its flow. The lookups go through the adjacency lists, which hold the
      same edge objects as the edge list (FindToOutgoing). */
  method PushFlow(edges: seq<Edge>, u: VId, v: VId, delta: int) returns (r: seq<Edge>, k: nat)
    requires Linked(edges, u, v)
    ensures k == PairIndex(edges, u, v) && r == PushStep(edges, u, v, delta)
  {
    var fwd := FindEdgeIndex(edges, u, v);
    if fwd.Some? {
      k := fwd.value;
      r := edges[k := edges[k].(flow := edges[k].flow + delta)];
    } else {
      k := FindEdgeIndex(edges, v, u).value;
      r := edges[k := edges[k].(flow := edges[k].flow - delta)];
    }
  }

  /** Where an edge joins `u` to `v`, the search among `u`'s connections
      finds one. */
  lemma HasEdgeFinds(g: Graph, u: VId, v: VId)
    requires HasEdge(g, u, v)
    ensures FindTo(g.connections[u], v).Some?
  {
    var adj := g.connections[u];
    var k :| 0 <= k < |adj| && adj[k].to == v;
    assert adj[k] in adj;
  }

  /** The first loop of a round: for each step `u -> v` of the path, the first
      edge to `v` in the residual adjacency list of `u`, and its capacity. */
  method PathResidualEdges(res: Graph, path: seq<VId>) returns (pathRes: seq<Edge>, flows: seq<int>)
    requires |path| > 0 && IsPath(res, path)
    ensures FoundAlong(res, path, pathRes) && |flows| == |pathRes|
    ensures forall i :: 0 <= i < |pathRes| ==> flows[i] == pathRes[i].flow
  {
    pathRes, flows := [], [];
    for i := 0 to |path| - 1
      invariant |pathRes| == |flows| == i
      invariant FoundPrefix(res, path, pathRes)
      invariant forall j :: 0 <= j < i ==> flows[j] == pathRes[j].flow
    {
      HasEdgeFinds(res, path[i], path[i + 1]);
      var curEdge := FindTo(res.connections[path[i]], path[i + 1]).value;
      FoundPrefixSnoc(res, path, pathRes, curEdge);
      pathRes := pathRes + [curEdge];
      flows := flows + [curEdge.flow];
    }
  }

  /** The first |pathRes| steps of `path` find the edges of `pathRes`. */
  predicate FoundPrefix(res: Graph, path: seq<VId>, pathRes: seq<Edge>)
  {
    |pathRes| < |path| &&
    forall i :: 0 <= i < |pathRes| ==>
      path[i] in res.connections && FindTo(res.connections[path[i]], path[i + 1]) == Some(pathRes[i])
  }

  lemma FoundPrefixSnoc(res: Graph, path: seq<VId>, pathRes: seq<Edge>, e: Edge)
    requires FoundPrefix(res, path, pathRes) && |pathRes| < |path| - 1
    requires path[|pathRes|] in res.connections
    requires FindTo(res.connections[path[|pathRes|]], path[|pathRes| + 1]) == Some(e)
    ensures FoundPrefix(res, path, pathRes + [e])
  {
    var q := pathRes + [e];
    forall i | 0 <= i < |q|
      ensures path[i] in res.connections && FindTo(res.connections[path[i]], path[i + 1]) == Some(q[i])
    {
      if i < |pathRes| {
        assert q[i] == pathRes[i];
      }
    }
  }

  /** The residual edge a round finds for a step carries the residual
      capacity of that step, which is positive. */
  lemma StepResidualCap(keys: seq<VId>, edges: seq<Edge>, nextId: nat, u: VId, v: VId, r: Edge)
    requires ValidNetwork(keys, edges)
    requires u in ResidualGraph(keys, edges, nextId).connections
    requires FindTo(ResidualGraph(keys, edges, nextId).connections[u], v) == Some(r)
    ensures r.flow == ResidualCap(edges, u, v) > 0
  {
    var rs := ResidualEdges(edges, nextId);
    CreateGraphFacts(keys, rs);
    var adj := ResidualGraph(keys, edges, nextId).connections[u];
    var j :| 0 <= j < |adj| && adj[j] == r && r.to == v;
    assert adj[j] in adj;
    ResidualEdgeCap(keys, edges, nextId, r);
  }

  /** The residual edges a round finds along a path carry the residual
      capacities of its steps, all positive. */
  lemma PathResidualCaps(keys: seq<VId>, edges: seq<Edge>, nextId: nat, path: seq<VId>, pathRes: seq<Edge>)
    requires ValidNetwork(keys, edges)
    requires FoundAlong(ResidualGraph(keys, edges, nextId), path, pathRes)
    ensures forall i :: 0 <= i < |pathRes| ==> pathRes[i].flow == ResidualCap(edges, path[i], path[i + 1]) > 0
  {
    forall i | 0 <= i < |pathRes|
      ensures pathRes[i].flow == ResidualCap(edges, path[i], path[i + 1]) > 0
    {
      StepResidualCap(keys, edges, nextId, path[i], path[i + 1], pathRes[i]);
    }
  }

  /** Math.min over a non-empty list. */
  function MinOf(s: seq<int>): (m: int)
    requires |s| > 0
    ensures m in s
    ensures forall i :: 0 <= i < |s| ==> m <= s[i]
  {
    if |s| == 1 then s[0]
    else
      var rest := MinOf(s[1..]);
      assert forall i :: 1 <= i < |s| ==> s[i] == s[1..][i - 1];
      if s[0] <= rest then s[0] else rest
  }

  /** How the flows have moved since `e0`: only flows changed; every vertex
      but 's' and 't' keeps its net flow; the net flow out of 's' has not
      shrunk; no edge into 's' carries more than before. */
  ghost predicate Progress(e0: seq<Edge>, e: seq<Edge>)
  {
    SameShape(e0, e) &&
    (forall v :: v != S && v != T ==> NetFlow(e, v) == NetFlow(e0, v)) &&
    NetFlow(e0, S) <= NetFlow(e, S) &&
    (forall k :: 0 <= k < |e| && e[k].to == S ==> e[k].flow <= e0[k].flow)
  }

  lemma ProgressRefl(e: seq<Edge>)
    ensures Progress(e, e)
  {
  }

  lemma ProgressTrans(e0: seq<Edge>, e1: seq<Edge>, e2: seq<Edge>)
    requires Progress(e0, e1) && Progress(e1, e2)
    ensures Progress(e0, e2)
  {
    SameShapeTrans(e0, e1, e2);
  }

  /** Augmenting along an augmenting path without repeated vertices is
      progress, and it raises the net flow out of 's' by exactly `delta`. */
  lemma AugmentProgress(keys: seq<VId>, edges: seq<Edge>, path: seq<VId>, delta: int, r: seq<Edge>)
    requires ValidNetwork(keys, edges) && Distinct(path) && |path| > 0
    requires path[0] == S && path[|path| - 1] == T
    requires CapsAtLeast(edges, path, delta) && PathLinked(edges, path)
    requires r == Augmented(edges, path, delta, |path| - 1)
    ensures ValidNetwork(keys, r) && Progress(edges, r) && NetFlow(r, S) == NetFlow(edges, S) + delta
  {
    AugmentFacts(keys, edges, path, delta);
  }

  /** The key list createGraph keeps has the same members, so a network
      valid over its vertex list is valid over its keys. */
  lemma GraphKeysValid(vertices: seq<VId>, edges: seq<Edge>)
    requires ValidNetwork(vertices, edges)
    ensures ValidNetwork(CreateGraph(vertices, edges).keys, edges)
    ensures CreateGraph(vertices, edges).connections[S] == Outgoing(edges, S)
  {
    CreateGraphFacts(vertices, edges);
  }

  /** ... and back: a network valid over its graph's keys is valid over the
      vertex list it was built from. */
  lemma ValidNetworkKeys(vertices: seq<VId>, edges: seq<Edge>)
    requires ValidNetwork(CreateGraph(vertices, edges).keys, edges)
    ensures ValidNetwork(vertices, edges)
  {
    CreateGraphFacts(vertices, edges);
  }

  /** No edge into `v` carries flow. */
  predicate NoFlowInto(edges: seq<Edge>, v: VId)
  {
    forall k :: 0 <= k < |edges| && edges[k].to == v ==> edges[k].flow == 0
  }

  /** When no flow entered 's' at the start, none enters it after any amount
      of progress, and the summed flow on the edges leaving 's' (the value
      EdmondsKarp reports) is the net flow out of 's'. */
  lemma ReportedIsNetFlow(keys: seq<VId>, e0: seq<Edge>, e: seq<Edge>)
    requires ValidNetwork(keys, e) && Progress(e0, e)
    requires NoFlowInto(e0, S)
    ensures SumFlow(Outgoing(e, S)) == NetFlow(e, S)
  {
    forall k | 0 <= k < |e| && e[k].to == S
      ensures e[k].flow == 0
    {
      assert e0[k] == e[k].(flow := e0[k].flow);
    }
    SumFlowOutgoingIsNetFlow(e, S);
  }

  /** The smallest of the residual capacities along a path is positive, fits
      every step, and is the residual capacity of one of them: the bottleneck. */
  lemma MinFlowFits(edges: seq<Edge>, path: seq<VId>, flows: seq<int>)
    requires |path| > 1 && |flows| == |path| - 1
    requires forall i :: 0 <= i < |flows| ==> flows[i] == ResidualCap(edges, path[i], path[i + 1]) > 0
    ensures CapsAtLeast(edges, path, MinOf(flows)) && PathLinked(edges, path)
    ensures exists i :: 0 <= i < |path| - 1 && MinOf(flows) == ResidualCap(edges, path[i], path[i + 1])
  {
    var m := MinOf(flows);
    var j :| 0 <= j < |flows| && flows[j] == m;
    assert ResidualCap(edges, path[j], path[j + 1]) > 0;
    forall i | 0 <= i < |path| - 1
      ensures ResidualCap(edges, path[i], path[i + 1]) >= m
    {
      assert m <= flows[i];
    }
    CapsLinked(edges, path, m);
  }

  /** `m` is the bottleneck of `path`: positive, no larger than the residual
      capacity of any step, and equal to that of one of them. */
  ghost predicate Bottleneck(edges: seq<Edge>, path: seq<VId>, m: int)
  {
    CapsAtLeast(edges, path, m) &&
    exists i :: 0 <= i < |path| - 1 && m == ResidualCap(edges, path[i], path[i + 1])
  }

  /** `pathRes` holds, for each step `u -> v` of `path`, the residual edge the
      lookup among the connections of `u` finds for `v`. */
  predicate FoundAlong(residualNet: Graph, path: seq<VId>, pathRes: seq<Edge>)
  {
    |pathRes| == |path| - 1 &&
    forall i :: 0 <= i < |pathRes| ==>
      path[i] in residualNet.connections &&
      FindTo(residualNet.connections[path[i]], path[i + 1]) == Some(pathRes[i])
  }

  /** One round after a path was found: the residual edges along the path and
      their capacities, the smallest of them (the bottleneck), the push of
      that amount along the path, and the PathFound report carrying the
      updated edges and the residual edges found. */
  method AugmentRound(net: FlowNetwork, residualNet: Graph, path: seq<VId>, ghost keys: seq<VId>, ghost rid: nat)
    returns (found: Event, minFlow: int)
    requires ValidNetwork(keys, net.edges) && residualNet == ResidualGraph(keys, net.edges, rid)
    requires PathFromTo(residualNet, path, S, T) && Distinct(path)
    modifies net
    ensures Bottleneck(old(net.edges), path, minFlow) && PathLinked(old(net.edges), path)
    ensures net.edges == Augmented(old(net.edges), path, minFlow, |path| - 1)
    ensures ValidNetwork(keys, net.edges) && Progress(old(net.edges), net.edges)
    ensures NetFlow(net.edges, S) == NetFlow(old(net.edges), S) + minFlow
    ensures found.PathFound? && found.pathOriginal == PushedEdges(old(net.edges), path, minFlow, |path| - 1)
    ensures FoundAlong(residualNet, path, found.pathResidual)
  {
    ghost var before := net.edges;
    var pathRes, flows := PathResidualEdges(residualNet, path);
    PathResidualCaps(keys, net.edges, rid, path, pathRes);
    MinFlowFits(net.edges, path, flows);
    minFlow := MinOf(flows);
    var pathEdges := net.Augment(path, minFlow);
    assert net.edges == Augmented(before, path, minFlow, |path| - 1);
    AugmentProgress(keys, before, path, minFlow, net.edges);
    found := PathFound(pathEdges, pathRes);
  }

  /** A round on two parallel edges from 's' to 't', the first full
      (flow 5, capacity 5) and the second empty (capacity 3), as the code is
      written: the residual network offers 3 units from 's' to 't', taken from
      the second edge, but the lookup that applies them finds the first edge,
      which ends up carrying 8 units over a capacity of 5. */
  lemma ParallelEdgesOverflow()
    ensures var edges := [Original(0, S, T, 5, 5), Original(1, S, T, 0, 3)];
            var residualNet := CreateGraph([S, T], ResidualEdges(edges, 2));
            FindTo(residualNet.connections[S], T) == Some(Residual(3, S, T, 3)) &&
            PathLinked(edges, [S, T]) &&
            Augmented(edges, [S, T], 3, 1)[0] == Original(0, S, T, 8, 5)
  {
    ParallelResidual();
    ParallelPush();
  }

  /** The residual side of ParallelEdgesOverflow: the lookup from 's' finds
      the spare capacity of the second edge. */
  lemma ParallelResidual()
    ensures var edges := [Original(0, S, T, 5, 5), Original(1, S, T, 0, 3)];
            FindTo(CreateGraph([S, T], ResidualEdges(edges, 2)).connections[S], T) == Some(Residual(3, S, T, 3))
  {
    var edges := [Original(0, S, T, 5, 5), Original(1, S, T, 0, 3)];
    var rs := ResidualEdges(edges, 2);
    assert ResidualPrefix(edges, 1, 2) == [Residual(2, T, S, 5)];
    assert rs == [Residual(2, T, S, 5), Residual(3, S, T, 3)];
    assert Outgoing(rs, S) == [Residual(3, S, T, 3)];
  }

  /** The push side of ParallelEdgesOverflow: the update lands on the first,
      full edge. */
  lemma ParallelPush()
    ensures var edges := [Original(0, S, T, 5, 5), Original(1, S, T, 0, 3)];
            PathLinked(edges, [S, T]) && Augmented(edges, [S, T], 3, 1)[0] == Original(0, S, T, 8, 5)
  {
    var edges := [Original(0, S, T, 5, 5), Original(1, S, T, 0, 3)];
    assert FindEdgeIndex(edges, S, T) == Some(0);
    assert PushStep(edges, S, T, 3)[0] == Original(0, S, T, 8, 5);
  }

  /** What a search leaves: the residual network of the current flows, and a
      shortest path from 's' to 't' in it, or none when there is no such path. */
  ghost predicate Searched(keys: seq<VId>, edges: seq<Edge>, residualNet: Graph, rid: nat, path: seq<VId>)
  {
    residualNet == ResidualGraph(keys, edges, rid) &&
    (path != [] ==> PathFromTo(residualNet, path, S, T) && Distinct(path)) &&
    (path != [] ==> forall p {:trigger PathFromTo(residualNet, p, S, T)} ::
                      PathFromTo(residualNet, p, S, T) ==> |path| <= |p|) &&
    (path == [] ==> !Reachable(residualNet, S, T))
  }

  /** createResidualNetwork, then shortestPathBfs from 's' to 't'. */
  method NextPath(net: FlowNetwork, ids: IdGenerator, ghost keys: seq<VId>)
    returns (residualNet: Graph, path: seq<VId>, evs: seq<Event>, ghost rid: nat)
    requires ValidNetwork(keys, net.edges) && keys == net.Graph().keys
    modifies ids
    ensures Searched(keys, net.edges, residualNet, rid, path)
    ensures evs == [InitResidual(keys)] + AddEdgeEvents(ResidualEdges(net.edges, rid))
  {
    rid := ids.counter;
    residualNet, evs := CreateResidualNetwork(net.Graph(), ids);
    ResidualReady(keys, net.edges, rid);
    path := ShortestPathBfs(residualNet, S, T);
  }

  /** What holds between rounds of the main loop: the flows are valid and
      have progressed since `e0`, the last search is recorded, and the log so
      far is well formed. */
  ghost predicate Between(keys: seq<VId>, e0: seq<Edge>, edges: seq<Edge>, residualNet: Graph, rid: nat,
                          path: seq<VId>, events: seq<Event>)
  {
    ValidNetwork(keys, edges) && Progress(e0, edges) &&
    Searched(keys, edges, residualNet, rid, path) &&
    Run(Start, events) == Some(Building)
  }

  /** Bookkeeping of a round: progress composes, and raising the net flow out
      of 's' by a positive amount shrinks the room left on its edges. */
  lemma RoundProgress(keys: seq<VId>, e0: seq<Edge>, before: seq<Edge>, after: seq<Edge>, delta: int)
    requires ValidNetwork(keys, before) && ValidNetwork(keys, after)
    requires Progress(e0, before) && Progress(before, after) && delta > 0
    requires NetFlow(after, S) == NetFlow(before, S) + delta
    ensures Progress(e0, after)
    ensures 0 <= CapOut(after, S) - NetFlow(after, S) < CapOut(before, S) - NetFlow(before, S)
  {
    ProgressTrans(e0, before, after);
    CapOutSameShape(before, after, S);
    NetFlowAtMostCapOut(after, S);
  }

  /** Before the first round: the residual network of the flows as given is
      built and searched, and the log so far is its construction. */
  method FirstSearch(net: FlowNetwork, ids: IdGenerator, ghost keys: seq<VId>)
    returns (residualNet: Graph, path: seq<VId>, events: seq<Event>, ghost rid: nat)
    requires ValidNetwork(net.keys, net.edges) && keys == net.Graph().keys
    modifies ids
    ensures Between(keys, net.edges, net.edges, residualNet, rid, path, events)
    ensures 0 <= CapOut(net.edges, S) - NetFlow(net.edges, S)
  {
    GraphKeysValid(net.keys, net.edges);
    residualNet, path, events, rid := NextPath(net, ids, keys);
    RunResidualBuild(keys, ResidualEdges(net.edges, rid));
    ProgressRefl(net.edges);
    NetFlowAtMostCapOut(net.edges, S);
  }

  /** Progress keeps conservation. */
  lemma ConservedKept(keys: seq<VId>, e0: seq<Edge>, e: seq<Edge>)
    requires Progress(e0, e) && Conserved(keys, e0)
    ensures Conserved(keys, e)
  {
  }

  /** One pass of the main loop: augment along the path found, log it, and
      search again. What holds between rounds still holds, and the room left
      on the edges out of 's' has shrunk. */
  method Round(net: FlowNetwork, ids: IdGenerator, ghost keys: seq<VId>, ghost e0: seq<Edge>,
               residualNet: Graph, path: seq<VId>, events: seq<Event>, ghost rid: nat)
    returns (residualNet': Graph, path': seq<VId>, events': seq<Event>, ghost rid': nat)
    requires keys == net.Graph().keys && path != []
    requires Between(keys, e0, net.edges, residualNet, rid, path, events)
    modifies net, ids
    ensures keys == net.Graph().keys
    ensures Between(keys, e0, net.edges, residualNet', rid', path', events')
    ensures 0 <= CapOut(net.edges, S) - NetFlow(net.edges, S) < CapOut(old(net.edges), S) - NetFlow(old(net.edges), S)
  {
    var found := PushRound(net, residualNet, path, keys, e0, rid);
    var evs;
    residualNet', path', evs, rid' := NextPath(net, ids, keys);
    events' := events + [found] + evs;
    NextBetween(keys, e0, net.edges, residualNet', rid', path', events, found, evs);
  }

  /** The push of a round, as the main loop sees it: the flows stay valid,
      progress further since `e0`, and leave less room on the edges out of
      's'. */
  method PushRound(net: FlowNetwork, residualNet: Graph, path: seq<VId>, ghost keys: seq<VId>,
                   ghost e0: seq<Edge>, ghost rid: nat)
    returns (found: Event)
    requires keys == net.Graph().keys && path != []
    requires ValidNetwork(keys, net.edges) && Progress(e0, net.edges)
    requires Searched(keys, net.edges, residualNet, rid, path)
    modifies net
    ensures keys == net.Graph().keys && found.PathFound?
    ensures ValidNetwork(keys, net.edges) && Progress(e0, net.edges)
    ensures 0 <= CapOut(net.edges, S) - NetFlow(net.edges, S) < CapOut(old(net.edges), S) - NetFlow(old(net.edges), S)
  {
    ghost var before := net.edges;
    var minFlow;
    found, minFlow := AugmentRound(net, residualNet, path, keys, rid);
    RoundProgress(keys, e0, before, net.edges, minFlow);
  }

  /** The state after a round's search, with the round's report and the new
      build appended to the log, is again a state between rounds. */
  lemma NextBetween(keys: seq<VId>, e0: seq<Edge>, edges: seq<Edge>, residualNet: Graph, rid: nat,
                    path: seq<VId>, events: seq<Event>, found: Event, evs: seq<Event>)
    requires ValidNetwork(keys, edges) && Progress(e0, edges)
    requires Searched(keys, edges, residualNet, rid, path)
    requires Run(Start, events) == Some(Building) && found.PathFound?
    requires evs == [InitResidual(keys)] + AddEdgeEvents(ResidualEdges(edges, rid))
    ensures Between(keys, e0, edges, residualNet, rid, path, events + [found] + evs)
  {
    RunNextRound(events, found, keys, ResidualEdges(edges, rid));
  }

  /** After the last search found nothing: no augmenting path is left, and the
      value reported is the summed flow on the edges leaving 's', which is the
      net flow out of 's' when no flow entered 's' at the start. The final
      report completes the log. */
  method Report(vertices: seq<VId>, edges: seq<Edge>, ghost keys: seq<VId>, ghost e0: seq<Edge>,
                ghost residualNet: Graph, ghost rid: nat, events: seq<Event>)
    returns (maxFlow: int, events': seq<Event>)
    requires keys == CreateGraph(vertices, edges).keys
    requires Between(keys, e0, edges, residualNet, rid, [], events)
    ensures forall p :: !AugmentingPath(edges, p)
    ensures maxFlow == SumFlow(Outgoing(edges, S))
    ensures NoFlowInto(e0, S) ==> maxFlow == NetFlow(edges, S)
    ensures Complete(events') && events'[|events'| - 1] == Final(Outgoing(edges, S), maxFlow)
    ensures ValidNetwork(vertices, edges)
    ensures Conserved(vertices, e0) ==> MaximumFlow(vertices, edges)
  {
    FinalFacts(vertices, keys, e0, edges, residualNet, rid, events);
    var edgesFromStart := CreateGraph(vertices, edges).connections[S];
    maxFlow := SumFlow(edgesFromStart);
    RunFinish(events, edgesFromStart, maxFlow);
    events' := events + [Final(edgesFromStart, maxFlow)];
  }

  /** What holds of the flows once the last search found nothing. */
  lemma FinalFacts(vertices: seq<VId>, keys: seq<VId>, e0: seq<Edge>, edges: seq<Edge>, residualNet: Graph,
                   rid: nat, events: seq<Event>)
    requires keys == CreateGraph(vertices, edges).keys
    requires Between(keys, e0, edges, residualNet, rid, [], events)
    ensures forall p :: !AugmentingPath(edges, p)
    ensures CreateGraph(vertices, edges).connections[S] == Outgoing(edges, S)
    ensures NoFlowInto(e0, S) ==>
              SumFlow(Outgoing(edges, S)) == NetFlow(edges, S)
    ensures ValidNetwork(vertices, edges)
    ensures Conserved(vertices, e0) ==> MaximumFlow(vertices, edges)
  {
    NoAugmentingPath(keys, edges, rid);
    ValidNetworkKeys(vertices, edges);
    if Conserved(vertices, e0) {
      ConservedKept(vertices, e0, edges);
      NoAugmentingPathIsMaximum(vertices, edges);
    }
    GraphKeysValid(vertices, edges);
    if NoFlowInto(e0, S) {
      ReportedIsNetFlow(keys, e0, edges);
    }
  }

  /** EdmondsKarp: the flows change in place until the residual network has
      no path from 's' to 't'. Then no augmenting path is left; only flows have
      changed; every vertex but 's' and 't' keeps its net flow; the net flow
      out of 's' has not shrunk. The value returned is the summed flow on the
      edges leaving 's', which is the net flow out of 's' when no flow entered
      's' at the start. The reports form a complete log that ends with the
      final report. */
  method EdmondsKarp(net: FlowNetwork, ids: IdGenerator) returns (maxFlow: int, events: seq<Event>)
    requires ValidNetwork(net.keys, net.edges)
    modifies net, ids
    ensures ValidNetwork(net.keys, net.edges) && Progress(old(net.edges), net.edges)
    ensures forall p :: !AugmentingPath(net.edges, p)
    ensures maxFlow == SumFlow(Outgoing(net.edges, S))
    ensures NoFlowInto(old(net.edges), S) ==>
              maxFlow == NetFlow(net.edges, S)
    ensures Complete(events) && events[|events| - 1] == Final(Outgoing(net.edges, S), maxFlow)
    ensures Conserved(net.keys, old(net.edges)) ==> MaximumFlow(net.keys, net.edges)
  {
    ghost var e0 := net.edges;
    ghost var keys := net.Graph().keys;
    var residualNet, path; ghost var rid;
    residualNet, path, events, rid := FirstSearch(net, ids, keys);
    while path != []
      invariant keys == net.Graph().keys
      invariant Between(keys, e0, net.edges, residualNet, rid, path, events)
      invariant 0 <= CapOut(net.edges, S) - NetFlow(net.edges, S)
      decreases CapOut(net.edges, S) - NetFlow(net.edges, S)
    {
      residualNet, path, events, rid := Round(net, ids, keys, e0, residualNet, path, events, rid);
    }
    maxFlow, events := Report(net.keys, net.edges, keys, e0, residualNet, rid, events);
  }
}

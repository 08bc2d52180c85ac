/** createResidualNetwork: the residual network of the current flows, built
    fresh for every round, together with the events that report its building. */
module Residual {
  import opened FlowGraph
  import opened Trace
  import opened Ids

  /** What one edge contributes, ids starting at `nextId`: its cancel-flow edge
      (to -> from, capacity flow) when flow > 0, then its spare-capacity edge
      (from -> to, capacity cap - flow) when flow < cap. An edge without a
      capacity has no spare-capacity edge. */
  function ResidualPair(e: Edge, nextId: nat): seq<Edge>
  {
    var back := e.flow > 0;
    var spare := e.Original? && e.flow < e.cap;
    if back && spare then [Residual(nextId, e.to, e.from, e.flow), Residual(nextId + 1, e.from, e.to, e.cap - e.flow)]
    else if back then [Residual(nextId, e.to, e.from, e.flow)]
    else if spare then [Residual(nextId, e.from, e.to, e.cap - e.flow)]
    else []
  }

  /** The residual edges of the first `n` edges, in the order they are
      created, numbered from `nextId` on. */
  function ResidualPrefix(edges: seq<Edge>, n: nat, nextId: nat): (r: seq<Edge>)
    requires n <= |edges|
    ensures |r| <= 2 * n
  {
    if n == 0 then []
    else
      var init := ResidualPrefix(edges, n - 1, nextId);
      init + ResidualPair(edges[n - 1], nextId + |init|)
  }

  /** One more edge appends its residual pair. */
  lemma ResidualPrefixStep(edges: seq<Edge>, n: nat, nextId: nat)
    requires n < |edges|
    ensures ResidualPrefix(edges, n + 1, nextId) ==
            ResidualPrefix(edges, n, nextId) + ResidualPair(edges[n], nextId + |ResidualPrefix(edges, n, nextId)|)
  {
  }

  /** The residual edges of all of `edges`. */
  function ResidualEdges(edges: seq<Edge>, nextId: nat): (r: seq<Edge>)
  {
    ResidualPrefix(edges, |edges|, nextId)
  }

  /** Residual edges carry consecutive fresh ids and a positive remaining
      capacity. */
  lemma {:induction false} ResidualPrefixFacts(edges: seq<Edge>, n: nat, nextId: nat)
    requires n <= |edges|
    ensures forall k :: 0 <= k < |ResidualPrefix(edges, n, nextId)| ==>
              var r := ResidualPrefix(edges, n, nextId)[k];
              r.Residual? && r.id == nextId + k && r.flow > 0
  {
    if n > 0 {
      ResidualPrefixFacts(edges, n - 1, nextId);
    }
  }

  /** Every residual edge stands for one original edge: its spare capacity
      forward, or its flow backward. */
  lemma {:induction false} ResidualOrigin(edges: seq<Edge>, n: nat, nextId: nat, r: Edge) returns (k: nat)
    requires n <= |edges|
    requires r in ResidualPrefix(edges, n, nextId)
    ensures k < n
    ensures (r.from == edges[k].from && r.to == edges[k].to && edges[k].Original? &&
             edges[k].flow < edges[k].cap && r.flow == edges[k].cap - edges[k].flow) ||
            (r.from == edges[k].to && r.to == edges[k].from &&
             edges[k].flow > 0 && r.flow == edges[k].flow)
  {
    var init := ResidualPrefix(edges, n - 1, nextId);
    if r in init {
      k := ResidualOrigin(edges, n - 1, nextId, r);
    } else {
      k := n - 1;
    }
  }

  /** Conversely, every edge with flow has its cancel-flow edge, and every one
      with spare capacity has its forward edge. */
  lemma ResidualComplete(edges: seq<Edge>, n: nat, nextId: nat, k: nat)
    requires k < n <= |edges|
    ensures edges[k].flow > 0 ==>
              exists r :: r in ResidualPrefix(edges, n, nextId) &&
                          r.from == edges[k].to && r.to == edges[k].from && r.flow == edges[k].flow
    ensures edges[k].Original? && edges[k].flow < edges[k].cap ==>
              exists r :: r in ResidualPrefix(edges, n, nextId) &&
                          r.from == edges[k].from && r.to == edges[k].to && r.flow == edges[k].cap - edges[k].flow
  {
    if edges[k].flow > 0 {
      ResidualHasCancel(edges, n, nextId, k);
    }
    if edges[k].Original? && edges[k].flow < edges[k].cap {
      ResidualHasForward(edges, n, nextId, k);
    }
  }

  lemma {:induction false} ResidualHasCancel(edges: seq<Edge>, n: nat, nextId: nat, k: nat)
    requires k < n <= |edges| && edges[k].flow > 0
    ensures exists r :: r in ResidualPrefix(edges, n, nextId) &&
                        r.from == edges[k].to && r.to == edges[k].from && r.flow == edges[k].flow
  {
    var init := ResidualPrefix(edges, n - 1, nextId);
    var p := ResidualPair(edges[n - 1], nextId + |init|);
    assert ResidualPrefix(edges, n, nextId) == init + p;
    var e := edges[k];
    if k == n - 1 {
      assert p[0] in init + p;
    } else {
      ResidualHasCancel(edges, n - 1, nextId, k);
      var r :| r in init && r.from == e.to && r.to == e.from && r.flow == e.flow;
      assert r in init + p;
    }
  }

  lemma {:induction false} ResidualHasForward(edges: seq<Edge>, n: nat, nextId: nat, k: nat)
    requires k < n <= |edges| && edges[k].Original? && edges[k].flow < edges[k].cap
    ensures exists r :: r in ResidualPrefix(edges, n, nextId) &&
                        r.from == edges[k].from && r.to == edges[k].to && r.flow == edges[k].cap - edges[k].flow
  {
    var init := ResidualPrefix(edges, n - 1, nextId);
    var p := ResidualPair(edges[n - 1], nextId + |init|);
    assert ResidualPrefix(edges, n, nextId) == init + p;
    var e := edges[k];
    if k == n - 1 {
      assert p[|p| - 1] in init + p;
    } else {
      ResidualHasForward(edges, n - 1, nextId, k);
      var r :| r in init && r.from == e.from && r.to == e.to && r.flow == e.cap - e.flow;
      assert r in init + p;
    }
  }

  /** The residual network keeps the vertex set: its edges join known vertices. */
  lemma ResidualEndpoints(keys: seq<VId>, edges: seq<Edge>, nextId: nat)
    requires ValidNetwork(keys, edges)
    ensures forall r :: r in ResidualEdges(edges, nextId) ==> r.from in keys && r.to in keys && r.from != r.to
  {
    forall r | r in ResidualEdges(edges, nextId)
      ensures r.from in keys && r.to in keys && r.from != r.to
    {
      var k := ResidualOrigin(edges, |edges|, nextId, r);
      assert edges[k] in edges;
    }
  }

  /** The body of createResidualNetwork's loop for one original edge: the
      cancel-flow edge, then the spare-capacity edge, each with a fresh id. */
  method MakeResidualEdges(edge: Edge, ids: IdGenerator) returns (made: seq<Edge>)
    modifies ids
    ensures made == ResidualPair(edge, old(ids.counter))
    ensures ids.counter == old(ids.counter) + |made|
  {
    made := [];
    if edge.flow > 0 {
      var id := ids.GetNextId();
      made := made + [Residual(id, edge.to, edge.from, edge.flow)];
    }
    if edge.Original? && edge.flow < edge.cap {
      var id := ids.GetNextId();
      made := made + [Residual(id, edge.from, edge.to, edge.cap - edge.flow)];
    }
  }

  /** createResidualNetwork: reports the vertex keys, then each residual edge as
      it is created, and returns the residual graph over the same keys. The
      input graph is a value and cannot change. */
  method CreateResidualNetwork(graph: Graph, ids: IdGenerator) returns (res: Graph, events: seq<Event>)
    modifies ids
    ensures ids.counter == old(ids.counter) + |ResidualEdges(graph.edges, old(ids.counter))|
    ensures res == CreateGraph(graph.keys, ResidualEdges(graph.edges, old(ids.counter)))
    ensures events == [InitResidual(graph.keys)] + AddEdgeEvents(ResidualEdges(graph.edges, old(ids.counter)))
  {
    ghost var first := ids.counter;
    var newEdges: seq<Edge> := [];
    events := [InitResidual(graph.keys)];
    for i := 0 to |graph.edges|
      invariant newEdges == ResidualPrefix(graph.edges, i, first)
      invariant ids.counter == first + |newEdges|
      invariant events == [InitResidual(graph.keys)] + AddEdgeEvents(newEdges)
    {
      var made := MakeResidualEdges(graph.edges[i], ids);
      ResidualPrefixStep(graph.edges, i, first);
      ResidualBuildSnoc(graph.keys, newEdges, made);
      newEdges := newEdges + made;
      events := events + AddEdgeEvents(made);
    }
    assert newEdges == ResidualEdges(graph.edges, first);
    res := CreateGraph(graph.keys, newEdges);
  }
}

/** Residual capacities and one augmentation along a path: the arithmetic
    behind EdmondsKarp's rounds, stated on the edge list of the flow network. */
module Augmenting {
  import opened FlowGraph
  import opened Residual
  import opened PathSearch

  /** The spare capacity of an edge; an edge without a capacity has none. */
  function Spare(e: Edge): int
  {
    if e.Original? then e.cap - e.flow else 0
  }

  /** The residual capacity from `u` to `v`: the spare capacity of the first
      `u -> v` edge if there is one, else the flow of the first `v -> u` edge
      (which can be cancelled), else nothing. */
  function ResidualCap(edges: seq<Edge>, u: VId, v: VId): int
  {
    match FindEdgeIndex(edges, u, v)
    case Some(k) => Spare(edges[k])
    case None =>
      match FindEdgeIndex(edges, v, u)
      case Some(k) => edges[k].flow
      case None => 0
  }

  /** The residual network of `edges` over `keys`, edge ids from `nextId` on. */
  function ResidualGraph(keys: seq<VId>, edges: seq<Edge>, nextId: nat): Graph
  {
    CreateGraph(keys, ResidualEdges(edges, nextId))
  }

  /** In a valid network an edge joins no vertex pair but its own. */
  lemma SingleJoin(keys: seq<VId>, edges: seq<Edge>, i: nat, j: nat)
    requires ValidNetwork(keys, edges)
    requires i < |edges| && j < |edges|
    requires Joins(edges[j], edges[i].from, edges[i].to)
    ensures i == j
  {
    if j < i {
      assert Joins(edges[i], edges[j].from, edges[j].to);
    }
  }

  /** In a valid network, the edge that joins `u` and `v` is what the first
      lookup in either direction finds. */
  lemma LookupJoining(keys: seq<VId>, edges: seq<Edge>, k: nat)
    requires ValidNetwork(keys, edges) && k < |edges|
    ensures FindEdgeIndex(edges, edges[k].from, edges[k].to) == Some(k)
    ensures FindEdgeIndex(edges, edges[k].to, edges[k].from).None?
  {
    var e := edges[k];
    var fwd := FindEdgeIndex(edges, e.from, e.to);
    SingleJoin(keys, edges, k, fwd.value);
    var bwd := FindEdgeIndex(edges, e.to, e.from);
    if bwd.Some? {
      SingleJoin(keys, edges, k, bwd.value);
    }
  }

  /** Every residual edge carries exactly the residual capacity of its vertex
      pair, and that capacity is positive. */
  lemma ResidualEdgeCap(keys: seq<VId>, edges: seq<Edge>, nextId: nat, r: Edge)
    requires ValidNetwork(keys, edges)
    requires r in ResidualEdges(edges, nextId)
    ensures r.flow == ResidualCap(edges, r.from, r.to) > 0
  {
    var k := ResidualOrigin(edges, |edges|, nextId, r);
    LookupJoining(keys, edges, k);
  }

  /** Conversely, a positive residual capacity has its residual edge. */
  lemma ResidualCapEdge(keys: seq<VId>, edges: seq<Edge>, nextId: nat, u: VId, v: VId)
    requires ValidNetwork(keys, edges)
    requires ResidualCap(edges, u, v) > 0
    ensures exists r :: r in ResidualEdges(edges, nextId) && r.from == u && r.to == v
  {
    match FindEdgeIndex(edges, u, v)
    case Some(k) =>
      ResidualComplete(edges, |edges|, nextId, k);
    case None =>
      var k := FindEdgeIndex(edges, v, u).value;
      ResidualComplete(edges, |edges|, nextId, k);
  }

  /** The residual network has an edge from `u` to `v` exactly when the
      residual capacity from `u` to `v` is positive. */
  lemma ResidualHasEdge(keys: seq<VId>, edges: seq<Edge>, nextId: nat, u: VId, v: VId)
    requires ValidNetwork(keys, edges)
    ensures HasEdge(ResidualGraph(keys, edges, nextId), u, v) <==> ResidualCap(edges, u, v) > 0
  {
    var rs := ResidualEdges(edges, nextId);
    var g := ResidualGraph(keys, edges, nextId);
    CreateGraphFacts(keys, rs);
    if HasEdge(g, u, v) {
      var k :| 0 <= k < |g.connections[u]| && g.connections[u][k].to == v;
      ResidualEdgeCap(keys, edges, nextId, g.connections[u][k]);
    }
    if ResidualCap(edges, u, v) > 0 {
      ResidualCapEdge(keys, edges, nextId, u, v);
      var r :| r in rs && r.from == u && r.to == v;
      ResidualEndpoints(keys, edges, nextId);
      assert r in g.connections[u];
    }
  }

  /** An augmenting path: from the source to the sink, every step with
      positive residual capacity. */
  predicate AugmentingPath(edges: seq<Edge>, p: seq<VId>)
  {
    |p| > 0 && p[0] == S && p[|p| - 1] == T &&
    forall i :: 0 <= i < |p| - 1 ==> ResidualCap(edges, p[i], p[i + 1]) > 0
  }

  /** The paths from 's' to 't' in the residual network are exactly the
      augmenting paths. */
  lemma ResidualPathIsAugmenting(keys: seq<VId>, edges: seq<Edge>, nextId: nat, p: seq<VId>)
    requires ValidNetwork(keys, edges)
    ensures PathFromTo(ResidualGraph(keys, edges, nextId), p, S, T) <==> AugmentingPath(edges, p)
  {
    forall i | 0 <= i < |p| - 1
      ensures HasEdge(ResidualGraph(keys, edges, nextId), p[i], p[i + 1]) <==> ResidualCap(edges, p[i], p[i + 1]) > 0
    {
      ResidualHasEdge(keys, edges, nextId, p[i], p[i + 1]);
    }
  }

  /** When the search finds no path in the residual network, the flow has no
      augmenting path at all. */
  lemma NoAugmentingPath(keys: seq<VId>, edges: seq<Edge>, nextId: nat)
    requires ValidNetwork(keys, edges)
    requires !Reachable(ResidualGraph(keys, edges, nextId), S, T)
    ensures forall p :: !AugmentingPath(edges, p)
  {
    forall p | AugmentingPath(edges, p)
      ensures false
    {
      ResidualPathIsAugmenting(keys, edges, nextId, p);
    }
  }

  /** The residual network of a valid network is one the search can run on,
      from 's' to 't'. */
  lemma ResidualReady(keys: seq<VId>, edges: seq<Edge>, nextId: nat)
    requires ValidNetwork(keys, edges)
    ensures BfsReady(ResidualGraph(keys, edges, nextId), S, T)
  {
    var rs := ResidualEdges(edges, nextId);
    CreateGraphFacts(keys, rs);
    ResidualEndpoints(keys, edges, nextId);
    var g := ResidualGraph(keys, edges, nextId);
    forall u, k | u in g.connections && 0 <= k < |g.connections[u]|
      ensures g.connections[u][k].to in g.connections
    {
      assert g.connections[u][k] in rs;
    }
  }

  /** Some edge joins `u` and `v`, so the lookups of the augmentation loop find
      one in one direction or the other. */
  predicate Linked(edges: seq<Edge>, u: VId, v: VId)
  {
    FindEdgeIndex(edges, u, v).Some? || FindEdgeIndex(edges, v, u).Some?
  }

  /** The edge the augmentation updates for the step `u -> v`: the first
      `u -> v` edge, or failing that the first `v -> u` edge. */
  function PairIndex(edges: seq<Edge>, u: VId, v: VId): (k: nat)
    requires Linked(edges, u, v)
    ensures k < |edges| && Joins(edges[k], u, v)
  {
    match FindEdgeIndex(edges, u, v)
    case Some(k) => k
    case None => FindEdgeIndex(edges, v, u).value
  }

  /** Shape-preserving changes keep every lookup. */
  lemma LinkedSameShape(a: seq<Edge>, b: seq<Edge>, u: VId, v: VId)
    requires SameShape(a, b)
    ensures FindEdgeIndex(a, u, v) == FindEdgeIndex(b, u, v)
    ensures FindEdgeIndex(a, v, u) == FindEdgeIndex(b, v, u)
    ensures Linked(a, u, v) <==> Linked(b, u, v)
    ensures Linked(a, u, v) ==> PairIndex(a, u, v) == PairIndex(b, u, v)
  {
    FindEdgeIndexSameShape(a, b, u, v);
    FindEdgeIndexSameShape(a, b, v, u);
  }

  lemma SameShapeTrans(a: seq<Edge>, b: seq<Edge>, c: seq<Edge>)
    requires SameShape(a, b) && SameShape(b, c)
    ensures SameShape(a, c)
  {
    forall k | 0 <= k < |a|
      ensures a[k] == c[k].(flow := a[k].flow)
    {
      assert a[k] == b[k].(flow := a[k].flow);
      assert b[k] == c[k].(flow := b[k].flow);
    }
  }

  /** One step of the augmentation: add `delta` to the flow of the `u -> v`
      edge, or, when there is none, take it off the `v -> u` edge. */
  function PushStep(edges: seq<Edge>, u: VId, v: VId, delta: int): (r: seq<Edge>)
    requires Linked(edges, u, v)
    ensures SameShape(edges, r)
  {
    var k := PairIndex(edges, u, v);
    var f := if FindEdgeIndex(edges, u, v).Some? then edges[k].flow + delta else edges[k].flow - delta;
    edges[k := edges[k].(flow := f)]
  }

  /** The edge a push updates, as it is right after the update. */
  function PushedEdge(edges: seq<Edge>, u: VId, v: VId, delta: int): (e: Edge)
    requires Linked(edges, u, v)
    ensures Joins(e, u, v)
  {
    PushStep(edges, u, v, delta)[PairIndex(edges, u, v)]
  }

  /** Every step of `path` has an edge joining its two vertices. */
  predicate PathLinked(edges: seq<Edge>, path: seq<VId>)
  {
    forall i :: 0 <= i < |path| - 1 ==> Linked(edges, path[i], path[i + 1])
  }

  /** The flows after the first `n` steps of the augmentation along `path`. */
  function Augmented(edges: seq<Edge>, path: seq<VId>, delta: int, n: nat): (r: seq<Edge>)
    requires n < |path| && PathLinked(edges, path)
    ensures SameShape(edges, r)
  {
    if n == 0 then edges
    else
      var prev := Augmented(edges, path, delta, n - 1);
      LinkedSameShape(edges, prev, path[n - 1], path[n]);
      var r := PushStep(prev, path[n - 1], path[n], delta);
      SameShapeTrans(edges, prev, r);
      r
  }

  /** The edges the first `n` steps update, each as it is right after its
      update. */
  function PushedEdges(edges: seq<Edge>, path: seq<VId>, delta: int, n: nat): (r: seq<Edge>)
    requires n < |path| && PathLinked(edges, path)
    ensures |r| == n
  {
    if n == 0 then []
    else
      var prev := Augmented(edges, path, delta, n - 1);
      LinkedSameShape(edges, prev, path[n - 1], path[n]);
      PushedEdges(edges, path, delta, n - 1) + [PushedEdge(prev, path[n - 1], path[n], delta)]
  }

  /** The first `n` collected edges each join the two vertices of their step. */
  ghost predicate CollectedJoin(edges: seq<Edge>, path: seq<VId>, delta: int, n: nat)
    requires n < |path| && PathLinked(edges, path)
  {
    forall i :: 0 <= i < n ==> Joins(PushedEdges(edges, path, delta, n)[i], path[i], path[i + 1])
  }

  /** One more step collects an edge joining that step's vertices. */
  lemma PushedEdgesNext(edges: seq<Edge>, path: seq<VId>, delta: int, n: nat)
    requires n + 1 < |path| && PathLinked(edges, path)
    requires CollectedJoin(edges, path, delta, n)
    ensures CollectedJoin(edges, path, delta, n + 1)
  {
    var prev := Augmented(edges, path, delta, n);
    LinkedSameShape(edges, prev, path[n], path[n + 1]);
    var r0 := PushedEdges(edges, path, delta, n);
    var e := PushedEdge(prev, path[n], path[n + 1], delta);
    JoinsSnoc(r0, e, path, n);
    assert PushedEdges(edges, path, delta, n + 1) == r0 + [e];
  }

  /** From step `n` on, the remaining steps keep every collected edge joining
      its step. */
  lemma {:induction false} PushedJoinFrom(edges: seq<Edge>, path: seq<VId>, delta: int, n: nat)
    requires n < |path| && PathLinked(edges, path)
    requires CollectedJoin(edges, path, delta, n)
    ensures CollectedJoin(edges, path, delta, |path| - 1)
    decreases |path| - n
  {
    if n < |path| - 1 {
      PushedEdgesNext(edges, path, delta, n);
      PushedJoinFrom(edges, path, delta, n + 1);
    }
  }

  /** The edges the augmentation loop collects are one per step, each joining
      the two vertices of its step. */
  lemma PushedEdgesJoin(edges: seq<Edge>, path: seq<VId>, delta: int)
    requires |path| > 0 && PathLinked(edges, path)
    ensures |PushedEdges(edges, path, delta, |path| - 1)| == |path| - 1
    ensures forall i :: 0 <= i < |path| - 1 ==>
              Joins(PushedEdges(edges, path, delta, |path| - 1)[i], path[i], path[i + 1])
  {
    assert CollectedJoin(edges, path, delta, 0);
    PushedJoinFrom(edges, path, delta, 0);
  }

  /** Appending an edge that joins the next step keeps every collected edge
      joining its step. */
  lemma JoinsSnoc(r0: seq<Edge>, e: Edge, path: seq<VId>, k: nat)
    requires |r0| == k && k + 1 < |path|
    requires forall i :: 0 <= i < k ==> Joins(r0[i], path[i], path[i + 1])
    requires Joins(e, path[k], path[k + 1])
    ensures forall i :: 0 <= i < k + 1 ==> Joins((r0 + [e])[i], path[i], path[i + 1])
  {
    forall i | 0 <= i < k + 1
      ensures Joins((r0 + [e])[i], path[i], path[i + 1])
    {
      if i < k {
        assert (r0 + [e])[i] == r0[i];
      }
    }
  }

  /** Every step of `path` has residual capacity at least `delta` > 0. */
  predicate CapsAtLeast(edges: seq<Edge>, path: seq<VId>, delta: int)
  {
    delta > 0 && forall i :: 0 <= i < |path| - 1 ==> ResidualCap(edges, path[i], path[i + 1]) >= delta
  }

  lemma CapsLinked(edges: seq<Edge>, path: seq<VId>, delta: int)
    requires CapsAtLeast(edges, path, delta)
    ensures PathLinked(edges, path)
  {
  }

  /** No step among the first `n` of `path` joins the ends of `e`. */
  predicate Untouched(e: Edge, path: seq<VId>, n: nat)
    requires n < |path|
  {
    forall i :: 0 <= i < n ==> !Joins(e, path[i], path[i + 1])
  }

  /** Every edge has a capacity and carries a flow between 0 and it. */
  predicate FlowsWithin(edges: seq<Edge>)
  {
    forall k :: 0 <= k < |edges| ==> edges[k].Original? && 0 <= edges[k].flow <= edges[k].cap
  }

  /** What augmenting by `delta` from `a` to `b` does to the net flow out of `v`. */
  function Shift(v: VId, a: VId, b: VId, delta: int): int
  {
    (if v == a then delta else 0) - (if v == b then delta else 0)
  }

  /** The state after `n` steps: same shape, flows within capacity, edges no
      step has joined unchanged, the net flow moved from path[n] to path[0],
      and no edge into path[0] carrying more than before. */
  ghost predicate PrefixState(edges: seq<Edge>, r: seq<Edge>, path: seq<VId>, delta: int, n: nat)
    requires n < |path|
  {
    SameShape(edges, r) && FlowsWithin(r) &&
    (forall k :: 0 <= k < |r| && Untouched(edges[k], path, n) ==> r[k].flow == edges[k].flow) &&
    (forall v :: NetFlow(r, v) == NetFlow(edges, v) + Shift(v, path[0], path[n], delta)) &&
    (forall k :: 0 <= k < |r| && r[k].to == path[0] ==> r[k].flow <= edges[k].flow)
  }

  /** Two different steps of a path without repeated vertices never join the
      same pair of vertices. */
  lemma PairsDistinct(path: seq<VId>, i: nat, j: nat, e: Edge)
    requires Distinct(path) && i < j < |path| - 1
    requires Joins(e, path[j], path[j + 1])
    ensures !Joins(e, path[i], path[i + 1])
  {
  }

  /** Setting one edge's flow to `f` moves the net flow at its two ends only. */
  lemma PushNetFlow(r: seq<Edge>, k: nat, f: int, x: VId)
    requires k < |r|
    ensures NetFlow(r[k := r[k].(flow := f)], x) ==
            NetFlow(r, x) + (if x == r[k].from then f - r[k].flow else 0) - (if x == r[k].to then f - r[k].flow else 0)
  {
    NetFlowUpdate(r, k, r[k].(flow := f), x);
  }

  /** The flows after step `n + 1` are those after step `n`, pushed once more. */
  lemma AugmentedUnfold(edges: seq<Edge>, path: seq<VId>, delta: int, n: nat)
    requires n + 1 < |path| && PathLinked(edges, path)
    ensures Linked(Augmented(edges, path, delta, n), path[n], path[n + 1])
    ensures Augmented(edges, path, delta, n + 1) ==
            PushStep(Augmented(edges, path, delta, n), path[n], path[n + 1], delta)
  {
    LinkedSameShape(edges, Augmented(edges, path, delta, n), path[n], path[n + 1]);
  }

  /** The edge a step updates was left alone by the steps before it. */
  lemma StepUntouched(path: seq<VId>, n: nat, e: Edge)
    requires Distinct(path) && n < |path| - 1
    requires Joins(e, path[n], path[n + 1])
    ensures Untouched(e, path, n)
    ensures !Untouched(e, path, n + 1)
  {
    forall i | 0 <= i < n
      ensures !Joins(e, path[i], path[i + 1])
    {
      PairsDistinct(path, i, n, e);
    }
  }

  /** The residual capacity of a step keeps the new flow of its edge within
      the edge's capacity. */
  lemma StepBounds(keys: seq<VId>, edges: seq<Edge>, r: seq<Edge>, u: VId, v: VId, delta: int, k: nat, f: int)
    requires ValidNetwork(keys, edges) && SameShape(edges, r)
    requires delta > 0 && ResidualCap(edges, u, v) >= delta
    requires Linked(r, u, v) && k == PairIndex(r, u, v) && r[k].flow == edges[k].flow
    requires f == if FindEdgeIndex(r, u, v).Some? then r[k].flow + delta else r[k].flow - delta
    ensures r[k].Original? && 0 <= f <= r[k].cap
  {
    LinkedSameShape(edges, r, u, v);
    assert edges[k] == r[k].(flow := edges[k].flow);
  }

  /** The edge step `n` updates: left alone by the earlier steps, in the
      direction of the step or against it, and with its new flow within its
      capacity. */
  lemma StepEdge(keys: seq<VId>, edges: seq<Edge>, path: seq<VId>, delta: int, n: nat, r: seq<Edge>)
    returns (k: nat, f: int)
    requires ValidNetwork(keys, edges) && Distinct(path) && CapsAtLeast(edges, path, delta)
    requires n < |path| - 1 && SameShape(edges, r)
    requires forall j :: 0 <= j < |r| && Untouched(edges[j], path, n) ==> r[j].flow == edges[j].flow
    ensures k < |r| && Linked(r, path[n], path[n + 1]) && k == PairIndex(r, path[n], path[n + 1])
    ensures PushStep(r, path[n], path[n + 1], delta) == r[k := r[k].(flow := f)]
    ensures r[k].flow == edges[k].flow && r[k].Original? && 0 <= f <= r[k].cap
    ensures Joins(edges[k], path[n], path[n + 1])
    ensures FindEdgeIndex(r, path[n], path[n + 1]).Some? ==>
              r[k].from == path[n] && r[k].to == path[n + 1] && f == r[k].flow + delta
    ensures FindEdgeIndex(r, path[n], path[n + 1]).None? ==>
              r[k].from == path[n + 1] && r[k].to == path[n] && f == r[k].flow - delta
  {
    var u, v := path[n], path[n + 1];
    assert ResidualCap(edges, u, v) >= delta;
    k, f := StepIndex(edges, path, delta, n, r);
    StepBounds(keys, edges, r, u, v, delta, k, f);
  }

  /** The edge step `n` updates and its new flow, apart from the bounds. */
  lemma StepIndex(edges: seq<Edge>, path: seq<VId>, delta: int, n: nat, r: seq<Edge>)
    returns (k: nat, f: int)
    requires Distinct(path) && n < |path| - 1 && SameShape(edges, r)
    requires Linked(edges, path[n], path[n + 1])
    requires forall j :: 0 <= j < |r| && Untouched(edges[j], path, n) ==> r[j].flow == edges[j].flow
    ensures k < |r| && Linked(r, path[n], path[n + 1]) && k == PairIndex(r, path[n], path[n + 1])
    ensures f == if FindEdgeIndex(r, path[n], path[n + 1]).Some? then r[k].flow + delta else r[k].flow - delta
    ensures PushStep(r, path[n], path[n + 1], delta) == r[k := r[k].(flow := f)]
    ensures r[k].flow == edges[k].flow
    ensures Joins(edges[k], path[n], path[n + 1])
    ensures FindEdgeIndex(r, path[n], path[n + 1]).Some? ==>
              r[k].from == path[n] && r[k].to == path[n + 1]
    ensures FindEdgeIndex(r, path[n], path[n + 1]).None? ==>
              r[k].from == path[n + 1] && r[k].to == path[n]
  {
    var u, v := path[n], path[n + 1];
    LinkedSameShape(edges, r, u, v);
    k := PairIndex(r, u, v);
    f := if FindEdgeIndex(r, u, v).Some? then r[k].flow + delta else r[k].flow - delta;
    assert edges[k] == r[k].(flow := edges[k].flow);
    StepUntouched(path, n, edges[k]);
  }

  /** Step `n` moves the net flow at its two ends only: out of path[n + 1]
      and into path[n]. */
  lemma StepNetFlow(r: seq<Edge>, k: nat, f: int, u: VId, v: VId, delta: int, x: VId)
    requires k < |r| && u != v
    requires (r[k].from == u && r[k].to == v && f == r[k].flow + delta) ||
             (r[k].from == v && r[k].to == u && f == r[k].flow - delta)
    ensures NetFlow(r[k := r[k].(flow := f)], x) == NetFlow(r, x) + Shift(x, u, v, delta)
  {
    PushNetFlow(r, k, f, x);
  }

  /** The flows of the untouched edges after one more step. */
  lemma NextUntouched(edges: seq<Edge>, r: seq<Edge>, path: seq<VId>, n: nat, k: nat, f: int)
    requires Distinct(path) && n < |path| - 1 && |r| == |edges| && k < |r|
    requires Joins(edges[k], path[n], path[n + 1])
    requires forall j :: 0 <= j < |r| && Untouched(edges[j], path, n) ==> r[j].flow == edges[j].flow
    ensures var r' := r[k := r[k].(flow := f)];
            forall j :: 0 <= j < |r'| && Untouched(edges[j], path, n + 1) ==> r'[j].flow == edges[j].flow
  {
    StepUntouched(path, n, edges[k]);
    var r' := r[k := r[k].(flow := f)];
    forall j | 0 <= j < |r'| && Untouched(edges[j], path, n + 1)
      ensures r'[j].flow == edges[j].flow
    {
      assert j != k;
      assert Untouched(edges[j], path, n);
    }
  }

  /** The net flows after one more step. */
  lemma NextNetFlow(edges: seq<Edge>, r: seq<Edge>, path: seq<VId>, delta: int, n: nat, k: nat, f: int)
    requires Distinct(path) && n < |path| - 1 && k < |r|
    requires (r[k].from == path[n] && r[k].to == path[n + 1] && f == r[k].flow + delta) ||
             (r[k].from == path[n + 1] && r[k].to == path[n] && f == r[k].flow - delta)
    requires forall v :: NetFlow(r, v) == NetFlow(edges, v) + Shift(v, path[0], path[n], delta)
    ensures forall v :: NetFlow(r[k := r[k].(flow := f)], v) == NetFlow(edges, v) + Shift(v, path[0], path[n + 1], delta)
  {
    forall x
      ensures NetFlow(r[k := r[k].(flow := f)], x) == NetFlow(edges, x) + Shift(x, path[0], path[n + 1], delta)
    {
      StepNetFlow(r, k, f, path[n], path[n + 1], delta, x);
    }
  }

  /** The flows into path[0] after one more step. */
  lemma NextIntoStart(edges: seq<Edge>, r: seq<Edge>, path: seq<VId>, delta: int, n: nat, k: nat, f: int)
    requires Distinct(path) && n < |path| - 1 && k < |r| == |edges| && delta > 0
    requires r[k].flow == edges[k].flow
    requires (r[k].to == path[n + 1] && f == r[k].flow + delta) || f == r[k].flow - delta
    requires forall j :: 0 <= j < |r| && r[j].to == path[0] ==> r[j].flow <= edges[j].flow
    ensures var r' := r[k := r[k].(flow := f)];
            forall j :: 0 <= j < |r'| && r'[j].to == path[0] ==> r'[j].flow <= edges[j].flow
  {
    assert path[n + 1] != path[0];
  }

  /** Setting one edge's flow to a value within its capacity keeps the shape
      and keeps every flow within capacity. */
  lemma FlowUpdateKeeps(edges: seq<Edge>, r: seq<Edge>, k: nat, f: int)
    requires SameShape(edges, r) && FlowsWithin(r)
    requires k < |r| && 0 <= f <= r[k].cap
    ensures SameShape(edges, r[k := r[k].(flow := f)]) && FlowsWithin(r[k := r[k].(flow := f)])
  {
  }

  /** One step of the augmentation keeps the prefix state. */
  lemma AugmentStep(keys: seq<VId>, edges: seq<Edge>, path: seq<VId>, delta: int, n: nat)
    requires ValidNetwork(keys, edges) && Distinct(path) && CapsAtLeast(edges, path, delta)
    requires n < |path| - 1 && PathLinked(edges, path)
    requires PrefixState(edges, Augmented(edges, path, delta, n), path, delta, n)
    ensures PrefixState(edges, Augmented(edges, path, delta, n + 1), path, delta, n + 1)
  {
    AugmentedUnfold(edges, path, delta, n);
    PushState(keys, edges, path, delta, n, Augmented(edges, path, delta, n));
  }

  /** The same for any state `r` reached after `n` steps: pushing along step
      `n` reaches the state after `n + 1` steps. */
  lemma PushState(keys: seq<VId>, edges: seq<Edge>, path: seq<VId>, delta: int, n: nat, r: seq<Edge>)
    requires ValidNetwork(keys, edges) && Distinct(path) && CapsAtLeast(edges, path, delta)
    requires n < |path| - 1 && PrefixState(edges, r, path, delta, n)
    ensures Linked(r, path[n], path[n + 1])
    ensures PrefixState(edges, PushStep(r, path[n], path[n + 1], delta), path, delta, n + 1)
  {
    var k, f := StepEdge(keys, edges, path, delta, n, r);
    FlowUpdateKeeps(edges, r, k, f);
    NextUntouched(edges, r, path, n, k, f);
    NextNetFlow(edges, r, path, delta, n, k, f);
    NextIntoStart(edges, r, path, delta, n, k, f);
  }

  /** The whole path of steps reaches the prefix state. */
  lemma AugmentPrefix(keys: seq<VId>, edges: seq<Edge>, path: seq<VId>, delta: int)
    requires ValidNetwork(keys, edges) && Distinct(path) && CapsAtLeast(edges, path, delta)
    requires |path| > 0 && PathLinked(edges, path)
    ensures PrefixState(edges, Augmented(edges, path, delta, |path| - 1), path, delta, |path| - 1)
  {
    PrefixStart(keys, edges, path, delta);
    assert Augmented(edges, path, delta, 0) == edges;
    PrefixFrom(keys, edges, path, delta, 0);
  }

  /** The prefix state, once reached after `n` steps, is reached after the
      last step. */
  lemma {:induction false} PrefixFrom(keys: seq<VId>, edges: seq<Edge>, path: seq<VId>, delta: int, n: nat)
    requires ValidNetwork(keys, edges) && Distinct(path) && CapsAtLeast(edges, path, delta)
    requires n < |path| && PathLinked(edges, path)
    requires PrefixState(edges, Augmented(edges, path, delta, n), path, delta, n)
    ensures PrefixState(edges, Augmented(edges, path, delta, |path| - 1), path, delta, |path| - 1)
    decreases |path| - n
  {
    if n < |path| - 1 {
      AugmentStep(keys, edges, path, delta, n);
      PrefixFrom(keys, edges, path, delta, n + 1);
    }
  }

  /** Before any step, the state is the starting one. */
  lemma PrefixStart(keys: seq<VId>, edges: seq<Edge>, path: seq<VId>, delta: int)
    requires ValidNetwork(keys, edges) && |path| > 0
    ensures PrefixState(edges, edges, path, delta, 0)
  {
  }

  /** Changing flows only, within the capacities, keeps a network valid. */
  lemma ValidSameShape(keys: seq<VId>, a: seq<Edge>, b: seq<Edge>)
    requires ValidNetwork(keys, a) && SameShape(a, b) && FlowsWithin(b)
    ensures ValidNetwork(keys, b)
  {
    forall k | 0 <= k < |b|
      ensures b[k].from == a[k].from && b[k].to == a[k].to
    {
      assert a[k] == b[k].(flow := a[k].flow);
    }
  }

  /** The change step `u -> v` makes to the flow of its edge: `delta` more on
      a `u -> v` edge, `delta` less on a `v -> u` edge. */
  function StepChange(edges: seq<Edge>, u: VId, v: VId, delta: int): int
  {
    if FindEdgeIndex(edges, u, v).Some? then delta else -delta
  }

  /** After `n` steps, the edge of each of those steps carries its old flow
      changed by that step's change. */
  ghost predicate StepsApplied(edges: seq<Edge>, r: seq<Edge>, path: seq<VId>, delta: int, n: nat)
    requires n < |path|
  {
    |r| == |edges| &&
    forall i :: 0 <= i < n && Linked(edges, path[i], path[i + 1]) ==>
      r[PairIndex(edges, path[i], path[i + 1])].flow ==
      edges[PairIndex(edges, path[i], path[i + 1])].flow + StepChange(edges, path[i], path[i + 1], delta)
  }

  /** Step `n` applies its change to its own edge, which no earlier step
      touched, and leaves the edges of the earlier steps alone. */
  lemma StepApplied(keys: seq<VId>, edges: seq<Edge>, path: seq<VId>, delta: int, n: nat, r: seq<Edge>)
    requires ValidNetwork(keys, edges) && Distinct(path) && CapsAtLeast(edges, path, delta)
    requires n < |path| - 1 && SameShape(edges, r)
    requires forall j :: 0 <= j < |r| && Untouched(edges[j], path, n) ==> r[j].flow == edges[j].flow
    requires StepsApplied(edges, r, path, delta, n)
    ensures Linked(r, path[n], path[n + 1])
    ensures StepsApplied(edges, PushStep(r, path[n], path[n + 1], delta), path, delta, n + 1)
  {
    var k, f := StepEdge(keys, edges, path, delta, n, r);
    LinkedSameShape(edges, r, path[n], path[n + 1]);
    StepsAppliedUpdate(edges, r, path, delta, n, k, f);
  }

  /** Setting the flow of step `n`'s edge to its old flow changed by the
      step's change extends the steps applied by one. */
  lemma StepsAppliedUpdate(edges: seq<Edge>, r: seq<Edge>, path: seq<VId>, delta: int, n: nat, k: nat, f: int)
    requires Distinct(path) && n < |path| - 1
    requires StepsApplied(edges, r, path, delta, n) && k < |r|
    requires Linked(edges, path[n], path[n + 1]) && k == PairIndex(edges, path[n], path[n + 1])
    requires f == edges[k].flow + StepChange(edges, path[n], path[n + 1], delta)
    ensures StepsApplied(edges, r[k := r[k].(flow := f)], path, delta, n + 1)
  {
    var r' := r[k := r[k].(flow := f)];
    forall i | 0 <= i < n + 1 && Linked(edges, path[i], path[i + 1])
      ensures r'[PairIndex(edges, path[i], path[i + 1])].flow ==
              edges[PairIndex(edges, path[i], path[i + 1])].flow + StepChange(edges, path[i], path[i + 1], delta)
    {
      if i < n {
        PairsDistinct(path, i, n, edges[k]);
      }
    }
  }

  /** The same, from the state after `n` steps to the state after `n + 1`. */
  lemma StepsNext(keys: seq<VId>, edges: seq<Edge>, path: seq<VId>, delta: int, n: nat)
    requires ValidNetwork(keys, edges) && Distinct(path) && CapsAtLeast(edges, path, delta)
    requires n < |path| - 1 && PathLinked(edges, path)
    requires PrefixState(edges, Augmented(edges, path, delta, n), path, delta, n)
    requires StepsApplied(edges, Augmented(edges, path, delta, n), path, delta, n)
    ensures StepsApplied(edges, Augmented(edges, path, delta, n + 1), path, delta, n + 1)
  {
    AugmentedUnfold(edges, path, delta, n);
    StepApplied(keys, edges, path, delta, n, Augmented(edges, path, delta, n));
  }

  /** From any state reached after `n` steps with the first `n` changes
      applied, the remaining steps apply the rest. */
  lemma {:induction false} StepsFrom(keys: seq<VId>, edges: seq<Edge>, path: seq<VId>, delta: int, n: nat)
    requires ValidNetwork(keys, edges) && Distinct(path) && CapsAtLeast(edges, path, delta)
    requires n < |path| && PathLinked(edges, path)
    requires PrefixState(edges, Augmented(edges, path, delta, n), path, delta, n)
    requires StepsApplied(edges, Augmented(edges, path, delta, n), path, delta, n)
    ensures StepsApplied(edges, Augmented(edges, path, delta, |path| - 1), path, delta, |path| - 1)
    decreases |path| - n
  {
    if n < |path| - 1 {
      StepsNext(keys, edges, path, delta, n);
      AugmentStep(keys, edges, path, delta, n);
      StepsFrom(keys, edges, path, delta, n + 1);
    }
  }

  /** After the whole path, the edge of every step carries its old flow
      changed by that step's change: `delta` more when it runs along the
      step, `delta` less when it runs against it. */
  lemma AugmentSteps(keys: seq<VId>, edges: seq<Edge>, path: seq<VId>, delta: int)
    requires ValidNetwork(keys, edges) && Distinct(path) && |path| > 0
    requires CapsAtLeast(edges, path, delta) && PathLinked(edges, path)
    ensures StepsApplied(edges, Augmented(edges, path, delta, |path| - 1), path, delta, |path| - 1)
  {
    PrefixStart(keys, edges, path, delta);
    StepsStart(edges, path, delta);
    StepsFrom(keys, edges, path, delta, 0);
  }

  /** Before any step, no step has been applied. */
  lemma StepsStart(edges: seq<Edge>, path: seq<VId>, delta: int)
    requires |path| > 0
    ensures StepsApplied(edges, edges, path, delta, 0)
  {
  }

  /** Augmenting by `delta` along a path from `s` without repeated vertices,
      every step of which has residual capacity at least `delta`: the network
      stays valid and keeps its shape; the net flow out of path[0] grows by
      `delta`, the net flow out of its last vertex shrinks by `delta`, and
      every other vertex keeps its net flow; no edge into path[0] gains flow. */
  lemma AugmentFacts(keys: seq<VId>, edges: seq<Edge>, path: seq<VId>, delta: int)
    requires ValidNetwork(keys, edges) && Distinct(path) && |path| > 0
    requires CapsAtLeast(edges, path, delta) && PathLinked(edges, path)
    ensures var r := Augmented(edges, path, delta, |path| - 1);
            ValidNetwork(keys, r) && SameShape(edges, r) &&
            (forall v :: NetFlow(r, v) == NetFlow(edges, v) + Shift(v, path[0], path[|path| - 1], delta)) &&
            (forall k :: 0 <= k < |r| && r[k].to == path[0] ==> r[k].flow <= edges[k].flow)
  {
    AugmentPrefix(keys, edges, path, delta);
    ValidSameShape(keys, edges, Augmented(edges, path, delta, |path| - 1));
  }

  /** Every edge no step of the path joins keeps its flow. */
  lemma AugmentUntouched(keys: seq<VId>, edges: seq<Edge>, path: seq<VId>, delta: int)
    requires ValidNetwork(keys, edges) && Distinct(path) && |path| > 0
    requires CapsAtLeast(edges, path, delta) && PathLinked(edges, path)
    ensures var r := Augmented(edges, path, delta, |path| - 1);
            |r| == |edges| &&
            forall k :: 0 <= k < |r| && Untouched(edges[k], path, |path| - 1) ==> r[k].flow == edges[k].flow
  {
    AugmentPrefix(keys, edges, path, delta);
  }
}

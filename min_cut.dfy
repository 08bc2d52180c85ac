/** Why the flow EdmondsKarp stops at is a maximum flow: the vertices that
    residual steps reach from 's' form a cut that every edge leaving it fills
    and no edge entering it uses, and no flow can carry more across a cut than
    the capacity leaving it. */
module MinCut {
  import opened FlowGraph
  import opened Augmenting

  /** What an edge adds to the net flow out of the vertex set `side`: its flow
      when it leaves the set, minus its flow when it enters it. */
  function Crossing(e: Edge, side: seq<VId>): int
  {
    (if e.from in side then e.flow else 0) - (if e.to in side then e.flow else 0)
  }

  /** The net flow out of the vertex set `side`. */
  function CutFlow(edges: seq<Edge>, side: seq<VId>): int
  {
    if edges == [] then 0 else Crossing(edges[0], side) + CutFlow(edges[1..], side)
  }

  /** The capacity of the edges that leave `side`. */
  function CutCap(edges: seq<Edge>, side: seq<VId>): int
    requires forall k :: 0 <= k < |edges| ==> edges[k].Original?
  {
    if edges == [] then 0
    else (if edges[0].from in side && edges[0].to !in side then edges[0].cap else 0) + CutCap(edges[1..], side)
  }

  /** The net flows out of the vertices of `side`, added up. */
  function SideNetFlow(edges: seq<Edge>, side: seq<VId>): int
  {
    if side == [] then 0 else NetFlow(edges, side[0]) + SideNetFlow(edges, side[1..])
  }

  /** Nothing crosses the empty cut. */
  lemma {:induction false} CutFlowEmpty(edges: seq<Edge>)
    ensures CutFlow(edges, []) == 0
  {
    if edges != [] {
      CutFlowEmpty(edges[1..]);
    }
  }

  /** Adding a vertex `x` to the set adds its own net flow to the set's. */
  lemma {:induction false} NetFlowJoin(edges: seq<Edge>, x: VId, side: seq<VId>)
    requires x !in side
    ensures NetFlow(edges, x) + CutFlow(edges, side) == CutFlow(edges, [x] + side)
  {
    if edges != [] {
      NetFlowJoin(edges[1..], x, side);
    }
  }

  /** The net flow out of a set of vertices, each counted once, is the sum of
      their net flows: edges inside the set cancel. */
  lemma {:induction false} SideNetFlowIsCutFlow(edges: seq<Edge>, side: seq<VId>)
    requires Distinct(side)
    ensures SideNetFlow(edges, side) == CutFlow(edges, side)
  {
    if side == [] {
      CutFlowEmpty(edges);
    } else {
      SideNetFlowIsCutFlow(edges, side[1..]);
      NetFlowJoin(edges, side[0], side[1..]);
      assert [side[0]] + side[1..] == side;
    }
  }

  /** With conservation, a set that holds 's' but not 't' has the net flow of
      's'; one that holds neither has none. */
  lemma {:induction false} SideNetFlowConserved(keys: seq<VId>, edges: seq<Edge>, side: seq<VId>)
    requires Conserved(keys, edges) && Distinct(side) && T !in side
    requires forall v :: v in side ==> v in keys
    ensures SideNetFlow(edges, side) == if S in side then NetFlow(edges, S) else 0
  {
    if side != [] {
      SideNetFlowConserved(keys, edges, side[1..]);
    }
  }

  /** No feasible flow carries more out of a set than the capacity leaving it. */
  lemma {:induction false} CutFlowAtMostCap(edges: seq<Edge>, side: seq<VId>)
    requires FlowsWithin(edges)
    ensures CutFlow(edges, side) <= CutCap(edges, side)
  {
    if edges != [] {
      CutFlowAtMostCap(edges[1..], side);
    }
  }

  /** A flow that fills every edge leaving the set and leaves every edge
      entering it empty carries exactly the capacity leaving it. */
  lemma {:induction false} CutFlowSaturated(edges: seq<Edge>, side: seq<VId>)
    requires forall k :: 0 <= k < |edges| ==> edges[k].Original?
    requires forall k :: 0 <= k < |edges| && edges[k].from in side && edges[k].to !in side ==>
               edges[k].flow == edges[k].cap
    requires forall k :: 0 <= k < |edges| && edges[k].from !in side && edges[k].to in side ==>
               edges[k].flow == 0
    ensures CutFlow(edges, side) == CutCap(edges, side)
  {
    if edges != [] {
      CutFlowSaturated(edges[1..], side);
    }
  }

  /** The capacity of a cut depends only on the edges, not on their flows. */
  lemma {:induction false} CutCapSameShape(a: seq<Edge>, b: seq<Edge>, side: seq<VId>)
    requires SameShape(a, b)
    requires forall k :: 0 <= k < |a| ==> a[k].Original?
    ensures forall k :: 0 <= k < |b| ==> b[k].Original?
    ensures CutCap(a, side) == CutCap(b, side)
  {
    if a != [] {
      assert a[0] == b[0].(flow := a[0].flow);
      assert forall k :: 0 <= k < |a| - 1 ==> a[1..][k] == a[k + 1];
      CutCapSameShape(a[1..], b[1..], side);
    }
  }

  /** A walk from 's' along steps of positive residual capacity. */
  predicate ResidualWalk(edges: seq<Edge>, p: seq<VId>)
  {
    |p| > 0 && p[0] == S && forall i :: 0 <= i < |p| - 1 ==> ResidualCap(edges, p[i], p[i + 1]) > 0
  }

  ghost predicate ResidualReachable(edges: seq<Edge>, v: VId)
  {
    exists p :: ResidualWalk(edges, p) && p[|p| - 1] == v
  }

  /** A step of positive residual capacity extends a walk, so its end is
      reachable too. */
  lemma WalkExtend(edges: seq<Edge>, p: seq<VId>, v: VId)
    requires ResidualWalk(edges, p) && ResidualCap(edges, p[|p| - 1], v) > 0
    ensures ResidualWalk(edges, p + [v]) && ResidualReachable(edges, v)
  {
    var q := p + [v];
    assert q[|q| - 1] == v;
    forall i | 0 <= i < |q| - 1
      ensures ResidualCap(edges, q[i], q[i + 1]) > 0
    {
      if i < |p| - 1 {
        assert q[i] == p[i] && q[i + 1] == p[i + 1];
      }
    }
  }

  /** The members of `vs` that residual walks reach, in order. */
  ghost function ReachableAmong(vs: seq<VId>, edges: seq<Edge>): (r: seq<VId>)
    ensures forall v :: v in r <==> v in vs && ResidualReachable(edges, v)
    ensures Distinct(vs) ==> Distinct(r)
  {
    if vs == [] then []
    else
      var rest := ReachableAmong(vs[1..], edges);
      assert forall v :: v in vs <==> v == vs[0] || v in vs[1..];
      (if ResidualReachable(edges, vs[0]) then [vs[0]] else []) + rest
  }

  /** The source side of the cut: the vertices residual walks reach, each once. */
  ghost function SourceSide(keys: seq<VId>, edges: seq<Edge>): (side: seq<VId>)
    ensures Distinct(side)
    ensures forall v :: v in side <==> v in keys && ResidualReachable(edges, v)
  {
    ReachableAmong(Dedup(keys), edges)
  }

  /** Every edge leaving the source side is full: otherwise its spare capacity
      would reach its head. */
  lemma LeavingFull(keys: seq<VId>, edges: seq<Edge>, k: nat)
    requires ValidNetwork(keys, edges) && k < |edges|
    requires edges[k].from in SourceSide(keys, edges) && edges[k].to !in SourceSide(keys, edges)
    ensures edges[k].flow == edges[k].cap
  {
    var e := edges[k];
    LookupJoining(keys, edges, k);
    assert ResidualCap(edges, e.from, e.to) == e.cap - e.flow;
    var p :| ResidualWalk(edges, p) && p[|p| - 1] == e.from;
    if e.flow < e.cap {
      WalkExtend(edges, p, e.to);
    }
  }

  /** Every edge entering the source side is empty: otherwise cancelling its
      flow would reach its tail. */
  lemma EnteringEmpty(keys: seq<VId>, edges: seq<Edge>, k: nat)
    requires ValidNetwork(keys, edges) && k < |edges|
    requires edges[k].from !in SourceSide(keys, edges) && edges[k].to in SourceSide(keys, edges)
    ensures edges[k].flow == 0
  {
    var e := edges[k];
    LookupJoining(keys, edges, k);
    assert ResidualCap(edges, e.to, e.from) == e.flow;
    var p :| ResidualWalk(edges, p) && p[|p| - 1] == e.to;
    if e.flow > 0 {
      WalkExtend(edges, p, e.from);
    }
  }

  /** When no augmenting path is left, the source side holds 's' and not 't',
      and the flow fills exactly the capacity leaving it. */
  lemma SourceSideIsMinCut(keys: seq<VId>, edges: seq<Edge>)
    requires ValidNetwork(keys, edges)
    requires forall p :: !AugmentingPath(edges, p)
    ensures S in SourceSide(keys, edges) && T !in SourceSide(keys, edges)
    ensures CutFlow(edges, SourceSide(keys, edges)) == CutCap(edges, SourceSide(keys, edges))
  {
    var side := SourceSide(keys, edges);
    assert ResidualWalk(edges, [S]);
    if T in side {
      var p :| ResidualWalk(edges, p) && p[|p| - 1] == T;
      assert AugmentingPath(edges, p);
    }
    forall k | 0 <= k < |edges| && edges[k].from in side && edges[k].to !in side
      ensures edges[k].flow == edges[k].cap
    {
      LeavingFull(keys, edges, k);
    }
    forall k | 0 <= k < |edges| && edges[k].from !in side && edges[k].to in side
      ensures edges[k].flow == 0
    {
      EnteringEmpty(keys, edges, k);
    }
    CutFlowSaturated(edges, side);
  }

  /** For a conserved flow, the net flow out of 's' is what crosses any cut
      that separates 's' from 't'. */
  lemma ValueIsCutFlow(keys: seq<VId>, edges: seq<Edge>, side: seq<VId>)
    requires Conserved(keys, edges) && Distinct(side)
    requires S in side && T !in side && forall v :: v in side ==> v in keys
    ensures NetFlow(edges, S) == CutFlow(edges, side)
  {
    SideNetFlowConserved(keys, edges, side);
    SideNetFlowIsCutFlow(edges, side);
  }

  /** `f` is a maximum flow: it is conserved, and no feasible, conserved flow
      on the same edges sends more out of 's'. */
  ghost predicate MaximumFlow(keys: seq<VId>, f: seq<Edge>)
  {
    Conserved(keys, f) &&
    forall g :: SameShape(f, g) && FlowsWithin(g) && Conserved(keys, g) ==> NetFlow(g, S) <= NetFlow(f, S)
  }

  /** A conserved flow with no augmenting path is a maximum flow: the cut of
      the vertices residual walks reach bounds every other flow by exactly
      what this one carries. */
  lemma NoAugmentingPathIsMaximum(keys: seq<VId>, f: seq<Edge>)
    requires ValidNetwork(keys, f) && Conserved(keys, f)
    requires forall p :: !AugmentingPath(f, p)
    ensures MaximumFlow(keys, f)
  {
    var side := SourceSide(keys, f);
    SourceSideIsMinCut(keys, f);
    ValueIsCutFlow(keys, f, side);
    forall g | SameShape(f, g) && FlowsWithin(g) && Conserved(keys, g)
      ensures NetFlow(g, S) <= NetFlow(f, S)
    {
      ValueIsCutFlow(keys, g, side);
      CutFlowAtMostCap(g, side);
      CutCapSameShape(f, g, side);
    }
  }
}

/** The flow-network data model: vertex ids, edges, the adjacency graph built by
    createGraph, edge lookups, and the flow sums the algorithm reasons about. */
module FlowGraph {

  datatype Option<T> = None | Some(value: T)

  /** Vertex ids: the reserved source 's', the reserved sink 't', and the numeric
      ids handed out by the id counter. */
  datatype VId = S | T | Num(n: nat)

  /** An edge object. Edges of the flow network carry a capacity; edges of a
      residual network carry only their remaining capacity in `flow`. */
  datatype Edge =
    | Original(id: nat, from: VId, to: VId, flow: int, cap: int)
    | Residual(id: nat, from: VId, to: VId, flow: int)

  /** The value createGraph returns: `connections` maps each vertex to the edges
      leaving it, `keys` is the order in which the map's keys were inserted. */
  datatype Graph = Graph(keys: seq<VId>, connections: map<VId, seq<Edge>>, edges: seq<Edge>)

  predicate Distinct(s: seq<VId>)
  {
    forall i, j :: 0 <= i < j < |s| ==> s[i] != s[j]
  }

  /** The key order of a map filled by `set` calls on `vs` in turn: a key that is
      set again keeps its first position. */
  function Dedup(vs: seq<VId>): (r: seq<VId>)
    ensures Distinct(r)
    ensures forall v :: v in r <==> v in vs
    ensures Distinct(vs) ==> r == vs
  {
    if vs == [] then []
    else
      var p := Dedup(vs[..|vs| - 1]);
      var last := vs[|vs| - 1];
      assert vs == vs[..|vs| - 1] + [last];
      if last in vs[..|vs| - 1] then p else p + [last]
  }

  /** The edges of `edges` that leave `v`, in input order (the filter of createGraph). */
  function Outgoing(edges: seq<Edge>, v: VId): (r: seq<Edge>)
    ensures |r| <= |edges|
    ensures forall e :: e in r <==> e in edges && e.from == v
  {
    if edges == [] then []
    else (if edges[0].from == v then [edges[0]] else []) + Outgoing(edges[1..], v)
  }

  /** Filtering distributes over concatenation; with the one-edge case this pins
      Outgoing down completely, order included. */
  lemma {:induction false} OutgoingAppend(a: seq<Edge>, b: seq<Edge>, v: VId)
    ensures Outgoing(a + b, v) == Outgoing(a, v) + Outgoing(b, v)
  {
    if a == [] {
      assert a + b == b;
    } else {
      assert (a + b)[1..] == a[1..] + b;
      OutgoingAppend(a[1..], b, v);
    }
  }

  lemma OutgoingSingle(e: Edge, v: VId)
    ensures Outgoing([e], v) == if e.from == v then [e] else []
  {
    assert [e][1..] == [];
  }

  /** createGraph: one adjacency entry per listed vertex, holding the edges
      that leave it; the edge list is kept as given. */
  function CreateGraph(vertices: seq<VId>, edges: seq<Edge>): (g: Graph)
    ensures g.edges == edges && Distinct(g.keys)
    ensures Distinct(vertices) ==> g.keys == vertices
  {
    Graph(Dedup(vertices), map v | v in vertices :: Outgoing(edges, v), edges)
  }

  /** Every listed vertex, and only those, becomes a key, each once; a key maps
      to exactly the edges that leave it; the edge list is returned unchanged. */
  lemma CreateGraphFacts(vertices: seq<VId>, edges: seq<Edge>)
    ensures var g := CreateGraph(vertices, edges);
      g.edges == edges &&
      Distinct(g.keys) &&
      (forall v :: v in g.keys <==> v in vertices) &&
      (forall v :: v in g.connections <==> v in vertices) &&
      (forall v, e :: v in g.connections ==> (e in g.connections[v] <==> e in edges && e.from == v)) &&
      (Distinct(vertices) ==> g.keys == vertices)
  {
  }

  /** `Array.prototype.find(edge => edge.to === v)` on an adjacency list. */
  function FindTo(s: seq<Edge>, v: VId): (r: Option<Edge>)
    ensures r.None? <==> forall e :: e in s ==> e.to != v
    ensures r.Some? ==> r.value in s && r.value.to == v
  {
    if s == [] then None
    else if s[0].to == v then Some(s[0])
    else
      var r := FindTo(s[1..], v);
      if r.Some? then
        assert forall e :: e in s[1..] ==> e in s;
        r
      else r
  }

  /** The edge found is the first one that ends at `v`. */
  lemma {:induction false} FindToFirst(s: seq<Edge>, v: VId)
    ensures FindTo(s, v).Some? ==>
              exists i :: 0 <= i < |s| && s[i] == FindTo(s, v).value && forall j :: 0 <= j < i ==> s[j].to != v
  {
    if s != [] && s[0].to != v && FindTo(s, v).Some? {
      FindToFirst(s[1..], v);
      var i :| 0 <= i < |s[1..]| && s[1..][i] == FindTo(s[1..], v).value && forall j :: 0 <= j < i ==> s[1..][j].to != v;
      assert s[i + 1] == FindTo(s, v).value;
      assert forall j :: 0 <= j < i + 1 ==> s[j].to != v by {
        forall j | 0 <= j < i + 1 ensures s[j].to != v {
          if j > 0 { assert s[j] == s[1..][j - 1]; }
        }
      }
    }
  }

  /** The index of the first edge from `u` to `v`. */
  function FindEdgeIndex(edges: seq<Edge>, u: VId, v: VId): (r: Option<nat>)
    ensures r.None? <==> forall j :: 0 <= j < |edges| ==> !(edges[j].from == u && edges[j].to == v)
    ensures r.Some? ==> r.value < |edges| && edges[r.value].from == u && edges[r.value].to == v
  {
    if edges == [] then None
    else if edges[0].from == u && edges[0].to == v then Some(0)
    else
      match FindEdgeIndex(edges[1..], u, v)
      case None => None
      case Some(i) => Some(i + 1)
  }

  /** The index found is that of the first `u -> v` edge. */
  lemma {:induction false} FindEdgeIndexFirst(edges: seq<Edge>, u: VId, v: VId)
    ensures FindEdgeIndex(edges, u, v).Some? ==>
              forall j :: 0 <= j < FindEdgeIndex(edges, u, v).value ==> !(edges[j].from == u && edges[j].to == v)
  {
    if edges != [] && !(edges[0].from == u && edges[0].to == v) {
      FindEdgeIndexFirst(edges[1..], u, v);
    }
  }

  /** Looking `v` up in the adjacency list of `u` finds the first `u -> v` edge of
      the whole edge list: the connections view and the edge list are the same
      objects. */
  lemma {:induction false} FindToOutgoing(edges: seq<Edge>, u: VId, v: VId)
    ensures FindTo(Outgoing(edges, u), v) ==
            match FindEdgeIndex(edges, u, v)
            case Some(i) => Some(edges[i])
            case None => None
  {
    if edges != [] {
      FindToOutgoing(edges[1..], u, v);
      FindToOutgoingStep(edges, u, v);
    }
  }

  /** One step of FindToOutgoing: the first edge either answers both lookups, or
      both lookups pass over it to the rest of the list. */
  lemma FindToOutgoingStep(edges: seq<Edge>, u: VId, v: VId)
    requires edges != []
    requires FindTo(Outgoing(edges[1..], u), v) ==
             match FindEdgeIndex(edges[1..], u, v)
             case Some(i) => Some(edges[1..][i])
             case None => None
    ensures FindTo(Outgoing(edges, u), v) ==
            match FindEdgeIndex(edges, u, v)
            case Some(i) => Some(edges[i])
            case None => None
  {
    OutgoingCons(edges, u);
    if edges[0].from == u {
      FindToCons(edges[0], Outgoing(edges[1..], u), v);
    }
  }

  lemma FindToCons(e: Edge, rest: seq<Edge>, v: VId)
    ensures FindTo([e] + rest, v) == if e.to == v then Some(e) else FindTo(rest, v)
  {
    assert ([e] + rest)[1..] == rest;
  }

  /** The edge joins `a` and `b`, in one direction or the other. */
  predicate Joins(e: Edge, a: VId, b: VId)
  {
    (e.from == a && e.to == b) || (e.from == b && e.to == a)
  }

  /** The conditions createGraph relies on and does not check: known endpoints,
      no self-loop, at most one edge per unordered vertex pair, 0 <= flow <= cap;
      and the source vertex exists. */
  predicate ValidNetwork(keys: seq<VId>, edges: seq<Edge>)
  {
    S in keys &&
    (forall i :: 0 <= i < |edges| ==>
       edges[i].Original? && edges[i].from in keys && edges[i].to in keys &&
       edges[i].from != edges[i].to && 0 <= edges[i].flow <= edges[i].cap) &&
    (forall i, j :: 0 <= i < j < |edges| ==> !Joins(edges[j], edges[i].from, edges[i].to))
  }

  /** The two edge lists differ at most in their flows. */
  predicate SameShape(a: seq<Edge>, b: seq<Edge>)
  {
    |a| == |b| &&
    forall k :: 0 <= k < |a| ==> a[k] == b[k].(flow := a[k].flow)
  }

  lemma {:induction false} FindEdgeIndexSameShape(a: seq<Edge>, b: seq<Edge>, u: VId, v: VId)
    requires SameShape(a, b)
    ensures FindEdgeIndex(a, u, v) == FindEdgeIndex(b, u, v)
  {
    if a != [] {
      SameShapeTail(a, b);
      FindEdgeIndexSameShape(a[1..], b[1..], u, v);
      FindEdgeIndexStep(a, b, u, v);
    }
  }

  /** Lists whose first edges join the same ends, and whose tails give the same
      lookup, give the same lookup. */
  lemma FindEdgeIndexStep(a: seq<Edge>, b: seq<Edge>, u: VId, v: VId)
    requires a != [] && b != [] && a[0].from == b[0].from && a[0].to == b[0].to
    requires FindEdgeIndex(a[1..], u, v) == FindEdgeIndex(b[1..], u, v)
    ensures FindEdgeIndex(a, u, v) == FindEdgeIndex(b, u, v)
  {
  }

  lemma SameShapeTail(a: seq<Edge>, b: seq<Edge>)
    requires SameShape(a, b) && a != []
    ensures SameShape(a[1..], b[1..])
  {
    forall k | 0 <= k < |a| - 1
      ensures a[1..][k] == b[1..][k].(flow := a[1..][k].flow)
    {
      assert a[1..][k] == a[k + 1] && b[1..][k] == b[k + 1];
    }
  }

  /** What one edge adds to the net flow out of `v`. */
  function Contribution(e: Edge, v: VId): int
  {
    (if e.from == v then e.flow else 0) - (if e.to == v then e.flow else 0)
  }

  /** Flow leaving `v` minus flow entering `v`. */
  function NetFlow(edges: seq<Edge>, v: VId): int
  {
    if edges == [] then 0 else Contribution(edges[0], v) + NetFlow(edges[1..], v)
  }

  /** Total capacity of the edges leaving `v`. */
  function CapOut(edges: seq<Edge>, v: VId): int
    requires forall k :: 0 <= k < |edges| ==> edges[k].Original?
  {
    if edges == [] then 0 else (if edges[0].from == v then edges[0].cap else 0) + CapOut(edges[1..], v)
  }

  /** `edges.reduce((acc, e) => acc + e.flow, 0)`. */
  function SumFlow(edges: seq<Edge>): int
  {
    if edges == [] then 0 else edges[0].flow + SumFlow(edges[1..])
  }

  /** Flow conservation at every vertex other than the source and the sink. */
  predicate Conserved(keys: seq<VId>, edges: seq<Edge>)
  {
    forall v :: v in keys && v != S && v != T ==> NetFlow(edges, v) == 0
  }

  /** Changing one edge changes the net flow at `v` by that edge's change of
      contribution and by nothing else. */
  lemma {:induction false} NetFlowUpdate(edges: seq<Edge>, k: nat, e: Edge, v: VId)
    requires k < |edges|
    ensures NetFlow(edges[k := e], v) == NetFlow(edges, v) - Contribution(edges[k], v) + Contribution(e, v)
  {
    if k > 0 {
      assert edges[k := e][1..] == edges[1..][k - 1 := e];
      NetFlowUpdate(edges[1..], k - 1, e, v);
    }
  }

  /** With 0 <= flow <= cap everywhere, the net flow out of `v` is at most the
      capacity leaving `v`. */
  lemma {:induction false} NetFlowAtMostCapOut(edges: seq<Edge>, v: VId)
    requires forall k :: 0 <= k < |edges| ==> edges[k].Original? && 0 <= edges[k].flow <= edges[k].cap
    ensures NetFlow(edges, v) <= CapOut(edges, v)
  {
    if edges != [] {
      NetFlowAtMostCapOut(edges[1..], v);
    }
  }

  lemma {:induction false} CapOutSameShape(a: seq<Edge>, b: seq<Edge>, v: VId)
    requires SameShape(a, b)
    requires forall k :: 0 <= k < |a| ==> a[k].Original?
    ensures forall k :: 0 <= k < |b| ==> b[k].Original?
    ensures CapOut(a, v) == CapOut(b, v)
  {
    if a != [] {
      assert a[0].Original? && b[0].Original?;
      assert forall k :: 0 <= k < |a| - 1 ==> a[1..][k] == a[k + 1];
      CapOutSameShape(a[1..], b[1..], v);
    }
  }

  /** Flow on the edges of the list that leave `v`. */
  function FlowOut(edges: seq<Edge>, v: VId): int
  {
    if edges == [] then 0 else (if edges[0].from == v then edges[0].flow else 0) + FlowOut(edges[1..], v)
  }

  /** When no edge into `v` carries flow, the summed flow of the edges leaving
      `v` (the reported maximum flow) is the net flow out of `v`. */
  lemma SumFlowOutgoingIsNetFlow(edges: seq<Edge>, v: VId)
    requires forall k :: 0 <= k < |edges| ==> edges[k].from != edges[k].to
    requires forall k :: 0 <= k < |edges| && edges[k].to == v ==> edges[k].flow == 0
    ensures SumFlow(Outgoing(edges, v)) == NetFlow(edges, v)
  {
    SumFlowOutgoing(edges, v);
    FlowOutIsNetFlow(edges, v);
  }

  lemma {:induction false} SumFlowOutgoing(edges: seq<Edge>, v: VId)
    ensures SumFlow(Outgoing(edges, v)) == FlowOut(edges, v)
  {
    if edges != [] {
      SumFlowOutgoing(edges[1..], v);
      OutgoingCons(edges, v);
      if edges[0].from == v {
        SumFlowCons(edges[0], Outgoing(edges[1..], v));
      }
    }
  }

  lemma {:induction false} FlowOutIsNetFlow(edges: seq<Edge>, v: VId)
    requires forall k :: 0 <= k < |edges| ==> edges[k].from != edges[k].to
    requires forall k :: 0 <= k < |edges| && edges[k].to == v ==> edges[k].flow == 0
    ensures FlowOut(edges, v) == NetFlow(edges, v)
  {
    if edges != [] {
      assert forall k :: 0 <= k < |edges| - 1 ==> edges[1..][k] == edges[k + 1];
      FlowOutIsNetFlow(edges[1..], v);
    }
  }

  lemma OutgoingCons(edges: seq<Edge>, v: VId)
    requires edges != []
    ensures Outgoing(edges, v) ==
            if edges[0].from == v then [edges[0]] + Outgoing(edges[1..], v) else Outgoing(edges[1..], v)
  {
    assert [] + Outgoing(edges[1..], v) == Outgoing(edges[1..], v);
  }

  lemma SumFlowCons(e: Edge, rest: seq<Edge>)
    ensures SumFlow([e] + rest) == e.flow + SumFlow(rest)
  {
    assert ([e] + rest)[1..] == rest;
  }
}

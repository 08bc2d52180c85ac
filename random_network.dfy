/** generateRandomFlowNetwork and getRndInteger: a random flow network built by
    rejection sampling. Math.random becomes a nondeterministic choice of a real
    in [0, 1); the rejection loops, which end only with probability one, run on
    a fuel budget and give up with None when it is spent. */
module RandomNetwork {
  import opened FlowGraph
  import opened Ids

  /** Math.random(): any real in [0, 1). */
  method RandomUnit() returns (x: real)
    ensures 0.0 <= x < 1.0
  {
    x :| 0.0 <= x < 1.0;
  }

  /** Scaling a draw in [0, 1) by k and flooring lands in [0, k) for k > 0
      and in [k, 0] for k < 0. */
  lemma FloorOfScaled(x: real, k: int)
    requires 0.0 <= x < 1.0
    ensures k > 0 ==> 0 <= (x * k as real).Floor < k
    ensures k <= 0 ==> k <= (x * k as real).Floor <= 0
  {
    var c := k as real;
    var y := x * c;
    assert c - y == (1.0 - x) * c;
    if k > 0 {
      ProductSigns(x, c);
      ProductSigns(1.0 - x, c);
    } else {
      ProductSigns(x, -c);
      ProductSigns(1.0 - x, -c);
    }
  }

  /** Sign rules for a product with a non-negative second factor. */
  lemma ProductSigns(a: real, b: real)
    requires 0.0 <= b
    ensures 0.0 <= a ==> 0.0 <= a * b
    ensures 0.0 < a && 0.0 < b ==> 0.0 < a * b
  {
  }

  /** getRndInteger for a given draw `x` of Math.random: the floor of
      x * (max - min), shifted by min. The range is half-open, [min, max); an
      empty range gives min; a reversed one gives a value in [max, min]. */
  function RndInteger(x: real, min: int, max: int): (r: int)
    requires 0.0 <= x < 1.0
    ensures min < max ==> min <= r < max
    ensures min == max ==> r == min
    ensures max < min ==> max <= r <= min
  {
    FloorOfScaled(x, max - min);
    (x * (max - min) as real).Floor + min
  }

  /** getRndInteger with a fresh draw of Math.random. */
  method GetRndInteger(min: int, max: int) returns (r: int)
    ensures min < max ==> min <= r < max
    ensures min == max ==> r == min
    ensures max < min ==> max <= r <= min
  {
    var x := RandomUnit();
    r := RndInteger(x, min, max);
  }

  /** `allEdges.find(...)` for an edge joining `a` and `b` in either direction:
      the first such edge, if any. */
  function FindJoining(edges: seq<Edge>, a: VId, b: VId): (r: Option<Edge>)
    ensures r.None? <==> forall k :: 0 <= k < |edges| ==> !Joins(edges[k], a, b)
    ensures r.Some? ==> r.value in edges && Joins(r.value, a, b)
  {
    if edges == [] then None
    else if Joins(edges[0], a, b) then Some(edges[0])
    else
      var r := FindJoining(edges[1..], a, b);
      assert forall k :: 1 <= k < |edges| ==> edges[k] == edges[1..][k - 1];
      r
  }

  /** The vertex list of a generated network: 's', then the fresh ids
      first, first + 1, ..., then 't'. */
  predicate GeneratedVertices(vs: seq<VId>, first: nat)
  {
    |vs| >= 2 && vs[0] == S && vs[|vs| - 1] == T &&
    forall i :: 1 <= i < |vs| - 1 ==> vs[i] == Num(first + i - 1)
  }

  /** Generated edges: capacity-carrying, empty, with a capacity in [1, 14],
      and ids that are fresh (at least `low`, below `next`) and increasing. */
  predicate GeneratedEdges(edges: seq<Edge>, low: nat, next: nat)
  {
    (forall k :: 0 <= k < |edges| ==>
       edges[k].Original? && edges[k].flow == 0 && 1 <= edges[k].cap <= 14 &&
       low <= edges[k].id < next) &&
    (forall j, k :: 0 <= j < k < |edges| ==> edges[j].id < edges[k].id)
  }

  /** The number of edges drawn for n vertices: getRndInteger(1, n(n-1)/2),
      so 1 for two vertices and in [1, n(n-1)/2 - 1] otherwise. */
  predicate EdgeCountInRange(n: int, eCnt: int)
  {
    1 <= eCnt && (n == 2 ==> eCnt == 1) && (n > 2 ==> eCnt < n * (n - 1) / 2)
  }

  lemma GeneratedVerticesDistinct(vs: seq<VId>, first: nat)
    requires GeneratedVertices(vs, first)
    ensures Distinct(vs)
  {
    forall i, j | 0 <= i < j < |vs|
      ensures vs[i] != vs[j]
    {
      if 0 < i && j < |vs| - 1 {
        assert vs[i].n != vs[j].n;
      }
    }
  }

  /** Accepting an edge whose ends are two different known vertices that no
      edge joins yet keeps the network valid. */
  lemma AcceptKeepsValid(vertices: seq<VId>, edges: seq<Edge>, e: Edge)
    requires ValidNetwork(vertices, edges)
    requires e.Original? && e.from in vertices && e.to in vertices && e.from != e.to && 0 <= e.flow <= e.cap
    requires forall k :: 0 <= k < |edges| ==> !Joins(edges[k], e.from, e.to)
    ensures ValidNetwork(vertices, edges + [e])
  {
    var es := edges + [e];
    forall i, j | 0 <= i < j < |es|
      ensures !Joins(es[j], es[i].from, es[i].to)
    {
      if j == |edges| {
        assert !Joins(edges[i], e.from, e.to);
      }
    }
  }

  /** Accepting an edge with a fresh id above all earlier ones keeps the
      generated-edge facts. */
  lemma AcceptKeepsGenerated(edges: seq<Edge>, low: nat, next: nat, e: Edge)
    requires GeneratedEdges(edges, low, next)
    requires e.Original? && e.flow == 0 && 1 <= e.cap <= 14 && e.id == next && low <= next
    ensures GeneratedEdges(edges + [e], low, next + 1)
  {
  }

  /** The vertices of a network of vCnt vertices: 's', vCnt - 2 fresh ids
      taken from the generator, 't'. */
  method MakeVertices(vCnt: int, ids: IdGenerator) returns (vertices: seq<VId>)
    requires vCnt >= 2
    modifies ids
    ensures |vertices| == vCnt && GeneratedVertices(vertices, old(ids.counter))
    ensures ids.counter == old(ids.counter) + vCnt - 2
  {
    ghost var first := ids.counter;
    var middle: seq<VId> := [];
    for i := 0 to vCnt - 2
      invariant |middle| == i
      invariant forall j :: 0 <= j < i ==> middle[j] == Num(first + j)
      invariant ids.counter == first + i
    {
      var id := ids.GetNextId();
      middle := middle + [Num(id)];
    }
    vertices := [S] + middle + [T];
  }

  /** One draw of a vertex pair: a first vertex, then a second one redrawn
      while it equals the first. Each draw spends one unit of the budget;
      `ok` is false when the budget ran out before two distinct vertices
      were drawn. */
  method DrawPair(vertices: seq<VId>, budget: nat) returns (ok: bool, vFrom: VId, vTo: VId, left: nat)
    requires |vertices| >= 1
    ensures left < budget || (left == 0 && !ok)
    ensures ok ==> vFrom in vertices && vTo in vertices && vFrom != vTo
  {
    if budget == 0 {
      return false, vertices[0], vertices[0], 0;
    }
    left := budget - 1;
    var a := GetRndInteger(0, |vertices|);
    vFrom := vertices[a];
    var b := GetRndInteger(0, |vertices|);
    vTo := vertices[b];
    while vFrom == vTo
      invariant left < budget && vTo in vertices
      decreases left
    {
      if left == 0 {
        return false, vFrom, vTo, 0;
      }
      left := left - 1;
      b := GetRndInteger(0, |vertices|);
      vTo := vertices[b];
    }
    ok := true;
  }

  /** The edges of a network over `vertices`: eCnt accepted draws. A pair
      that some edge already joins, in either direction, is skipped; an
      accepted pair gets a fresh id and a capacity from [1, 14]. */
  method MakeEdges(vertices: seq<VId>, eCnt: int, ids: IdGenerator, fuel: nat) returns (ok: bool, allEdges: seq<Edge>)
    requires ValidNetwork(vertices, []) && |vertices| >= 2
    modifies ids
    ensures old(ids.counter) <= ids.counter
    ensures ok ==> |allEdges| == if eCnt < 0 then 0 else eCnt
    ensures ok ==> ValidNetwork(vertices, allEdges)
    ensures ok ==> GeneratedEdges(allEdges, old(ids.counter), ids.counter)
  {
    ghost var low := ids.counter;
    allEdges := [];
    var leftEdgesToAdd := eCnt;
    var budget := fuel;
    while leftEdgesToAdd > 0
      invariant |allEdges| + (if leftEdgesToAdd < 0 then 0 else leftEdgesToAdd) == if eCnt < 0 then 0 else eCnt
      invariant low <= ids.counter
      invariant ValidNetwork(vertices, allEdges)
      invariant GeneratedEdges(allEdges, low, ids.counter)
      decreases budget
    {
      var drawn, vFrom, vTo, left := DrawPair(vertices, budget);
      if !drawn {
        return false, allEdges;
      }
      budget := left;
      if FindJoining(allEdges, vFrom, vTo).Some? {
        continue;
      }
      var id := ids.GetNextId();
      var cap := GetRndInteger(1, 15);
      var e := Original(id, vFrom, vTo, 0, cap);
      AcceptKeepsValid(vertices, allEdges, e);
      AcceptKeepsGenerated(allEdges, low, id, e);
      allEdges := allEdges + [e];
      leftEdgesToAdd := leftEdgesToAdd - 1;
    }
    ok := true;
  }

  /** The number of edges for vCnt vertices: getRndInteger(1, vCnt(vCnt-1)/2). */
  method DrawEdgeCount(vCnt: int) returns (eCnt: int)
    requires vCnt >= 2
    ensures EdgeCountInRange(vCnt, eCnt)
  {
    eCnt := GetRndInteger(1, vCnt * (vCnt - 1) / 2);
    assert vCnt > 2 ==> vCnt * (vCnt - 1) >= 6;
  }

  /** generateRandomFlowNetwork: vCnt vertices ('s', vCnt - 2 fresh ids, 't';
      vCnt drawn from [3, 11] when not given), then edges drawn until eCnt of
      them are accepted. The result is a valid flow network with zero flow:
      no self-loop, at most one edge per vertex pair, every capacity in
      [1, 14]. */
  method GenerateRandomFlowNetwork(vCount: Option<int>, ids: IdGenerator, fuel: nat) returns (g: Option<Graph>)
    requires vCount.Some? ==> vCount.value >= 2
    modifies ids
    ensures g.Some? ==>
              var n := |g.value.keys|;
              GeneratedVertices(g.value.keys, old(ids.counter)) &&
              (vCount.Some? ==> n == vCount.value) &&
              (vCount.None? ==> 3 <= n <= 11) &&
              g.value == CreateGraph(g.value.keys, g.value.edges) &&
              ValidNetwork(g.value.keys, g.value.edges) &&
              GeneratedEdges(g.value.edges, old(ids.counter) + n - 2, ids.counter) &&
              EdgeCountInRange(n, |g.value.edges|)
  {
    var vCnt: int;
    if vCount.None? {
      var r := GetRndInteger(1, 10);
      vCnt := r + 2;
    } else {
      vCnt := vCount.value;
    }
    var eCnt := DrawEdgeCount(vCnt);
    ghost var first := ids.counter;
    var vertices := MakeVertices(vCnt, ids);
    GeneratedVerticesDistinct(vertices, first);
    var ok, allEdges := MakeEdges(vertices, eCnt, ids, fuel);
    if !ok {
      return None;
    }
    g := Some(CreateGraph(vertices, allEdges));
  }
}

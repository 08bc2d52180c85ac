/** shortestPathBfs and recreatePath: breadth-first search over a residual
    network. The frontier is a queue that takes from its back (`pop`) and adds
    at its front (`unshift`), so vertices leave it in the order they entered. */
module PathSearch {
  import opened FlowGraph

  /** The search colour of a vertex: not yet found, queued, expanded. */
  datatype Color = White | Gray | Black

  /** Per-vertex search state: colour and the vertex it was discovered from. */
  datatype VState = VState(color: Color, prev: Option<VId>)

  /** Some edge in the adjacency list of `u` leads to `v`. */
  predicate HasEdge(g: Graph, u: VId, v: VId)
  {
    u in g.connections && exists k :: 0 <= k < |g.connections[u]| && g.connections[u][k].to == v
  }

  /** Consecutive vertices of `p` are joined by edges of `g`. */
  predicate IsPath(g: Graph, p: seq<VId>)
  {
    forall i :: 0 <= i < |p| - 1 ==> HasEdge(g, p[i], p[i + 1])
  }

  /** `p` is a path of `g` from `a` to `b`; it has |p| - 1 edges. */
  predicate PathFromTo(g: Graph, p: seq<VId>, a: VId, b: VId)
  {
    |p| > 0 && p[0] == a && p[|p| - 1] == b && IsPath(g, p)
  }

  ghost predicate Reachable(g: Graph, a: VId, b: VId)
  {
    exists p :: PathFromTo(g, p, a, b)
  }

  /** What the search relies on: the start is a vertex, start and goal differ,
      the key list and the adjacency map agree, and every edge leads to a
      vertex. */
  ghost predicate BfsReady(g: Graph, from: VId, to: VId)
  {
    from in g.connections && from != to &&
    (forall v :: v in g.keys <==> v in g.connections) &&
    (forall u, k :: u in g.connections && 0 <= k < |g.connections[u]| ==> g.connections[u][k].to in g.connections)
  }

  /** Every edge leaving `v` leads into the labelled set. */
  ghost predicate Closed(g: Graph, d: map<VId, nat>, v: VId)
  {
    v in g.connections ==> forall k :: 0 <= k < |g.connections[v]| ==> g.connections[v][k].to in d
  }

  /** No path from `from` reaches a labelled vertex in fewer edges than its label. */
  ghost predicate LowerBound(g: Graph, d: map<VId, nat>, from: VId)
  {
    forall v, p {:trigger PathFromTo(g, p, from, v)} :: v in d && PathFromTo(g, p, from, v) ==> |p| > d[v]
  }

  /** The `prev` links of the labelled vertices: `from` has none and label 0;
      every other one points along an edge to a vertex labelled one less. */
  ghost predicate PrevChain(g: Graph, vStates: map<VId, VState>, d: map<VId, nat>, from: VId)
  {
    from in d && d[from] == 0 &&
    (forall v :: v in d ==> v in vStates) &&
    forall v {:trigger vStates[v]} :: v in d && v in vStates ==>
      (v == from ==> vStates[v].prev.None?) &&
      (v != from ==> vStates[v].prev.Some? && vStates[v].prev.value in d &&
                     d[vStates[v].prev.value] + 1 == d[v] && HasEdge(g, vStates[v].prev.value, v))
  }

  /** recreatePath: follows `prev` links back from `last` and returns the
      vertices in forward order. Each step lands on a vertex labelled one less,
      so the walk ends, at `from`, after d[last] steps. */
  method RecreatePath(vStates: map<VId, VState>, last: VId, ghost g: Graph, ghost d: map<VId, nat>, ghost from: VId)
    returns (path: seq<VId>)
    requires PrevChain(g, vStates, d, from)
    requires last in d
    ensures |path| == d[last] + 1
    ensures PathFromTo(g, path, from, last)
    ensures forall i :: 0 <= i < |path| ==> path[i] in d && d[path[i]] == i
  {
    path := [last];
    var prev := vStates[last].prev;
    while prev.Some?
      invariant BackFrom(g, d, path, last)
      invariant prev == vStates[path[0]].prev
      decreases d[path[0]]
    {
      var p := prev.value;
      PrependPrev(g, vStates, d, from, path, last);
      path := [p] + path;
      prev := vStates[p].prev;
    }
  }

  /** `path` is a walk of `g` ending at `last` whose vertices carry
      consecutive labels. */
  ghost predicate BackFrom(g: Graph, d: map<VId, nat>, path: seq<VId>, last: VId)
  {
    |path| > 0 && path[|path| - 1] == last && path[0] in d &&
    IsPath(g, path) &&
    forall i :: 0 <= i < |path| ==> path[i] in d && d[path[i]] == d[path[0]] + i
  }

  /** Following the `prev` link of the first vertex extends the walk backwards
      onto a vertex labelled one less. */
  lemma PrependPrev(g: Graph, vStates: map<VId, VState>, d: map<VId, nat>, from: VId,
                    path: seq<VId>, last: VId)
    requires PrevChain(g, vStates, d, from) && BackFrom(g, d, path, last)
    requires vStates[path[0]].prev.Some?
    ensures var p := vStates[path[0]].prev.value;
            BackFrom(g, d, [p] + path, last) && d[p] < d[path[0]]
  {
    var p := vStates[path[0]].prev.value;
    var q := [p] + path;
    assert path[0] != from;
    forall i | 0 <= i < |q| - 1
      ensures HasEdge(g, q[i], q[i + 1])
    {
      if i > 0 {
        assert q[i] == path[i - 1] && q[i + 1] == path[i];
      }
    }
    forall i | 0 <= i < |q|
      ensures q[i] in d && d[q[i]] == d[q[0]] + i
    {
      if i > 0 {
        assert q[i] == path[i - 1];
      }
    }
  }

  /** A path that starts in a closed labelled set never leaves it. */
  lemma PathStaysIn(g: Graph, d: map<VId, nat>, p: seq<VId>)
    requires |p| > 0 && p[0] in d && IsPath(g, p)
    requires forall v :: v in d ==> Closed(g, d, v)
    ensures forall i :: 0 <= i < |p| ==> p[i] in d
  {
    for i := 1 to |p|
      invariant forall j :: 0 <= j < i ==> p[j] in d
    {
      assert HasEdge(g, p[i - 1], p[i]);
      assert Closed(g, d, p[i - 1]);
    }
  }

  /** When every labelled vertex is closed, nothing unlabelled is reachable. */
  lemma ClosedUnreachable(g: Graph, d: map<VId, nat>, from: VId, to: VId)
    requires from in d && to !in d
    requires forall v :: v in d ==> Closed(g, d, v)
    ensures !Reachable(g, from, to)
  {
    forall p | PathFromTo(g, p, from, to)
      ensures false
    {
      PathStaysIn(g, d, p);
    }
  }

  /** The first vertex of `p` outside the labelled set. */
  lemma FirstOutside(d: map<VId, nat>, p: seq<VId>) returns (i: nat)
    requires |p| > 0 && p[|p| - 1] !in d
    ensures i < |p| && p[i] !in d
    ensures forall j :: 0 <= j < i ==> p[j] in d
  {
    i := 0;
    while p[i] in d
      invariant i < |p|
      invariant forall j :: 0 <= j < i ==> p[j] in d
      decreases |p| - i
    {
      i := i + 1;
    }
  }

  /** The key fact of breadth-first search. If every labelled vertex is queued
      or closed, and every queued label is at least `m`, then any path from
      `from` to an unlabelled vertex has more than m + 1 vertices: it must leave
      the labelled set through a queued vertex. */
  lemma UnlabelledFar(g: Graph, d: map<VId, nat>, queue: seq<VId>, from: VId, m: nat)
    requires from in d
    requires forall v {:trigger Closed(g, d, v)} :: v in d ==> v in queue || Closed(g, d, v)
    requires forall i :: 0 <= i < |queue| ==> queue[i] in d && d[queue[i]] >= m
    requires LowerBound(g, d, from)
    ensures forall x, p {:trigger PathFromTo(g, p, from, x)} :: x !in d && PathFromTo(g, p, from, x) ==> |p| > m + 1
  {
    forall x, p | x !in d && PathFromTo(g, p, from, x)
      ensures |p| > m + 1
    {
      var i := FirstOutside(d, p);
      var u := p[i - 1];
      assert HasEdge(g, u, p[i]);
      assert !Closed(g, d, u);
      assert PathFromTo(g, p[..i], from, u);
    }
  }

  /** Labelling one more vertex of `k` leaves fewer unlabelled ones. */
  lemma FewerUnlabelled(k: set<VId>, a: set<VId>, b: set<VId>)
    requires a < b <= k
    ensures |k - b| < |k - a|
  {
    var x :| x in b && x !in a;
    var small, big := k - b, (k - a) - {x};
    assert small <= big;
    assert big == small + (big - small);
    assert |k - a| == |big| + 1;
  }

  /** The part of the search state that holds between any two steps: the
      colours agree with the labels, `to` is never labelled, the `prev` links
      form a chain back to `from`, and labels are lower bounds on distances. */
  ghost predicate SearchState(g: Graph, from: VId, to: VId, vStates: map<VId, VState>, d: map<VId, nat>)
  {
    (forall v :: v in vStates <==> v in g.connections) &&
    (forall v :: v in d ==> v in g.connections) &&
    from in d && to !in d &&
    (forall v :: v in vStates ==> (vStates[v].color != White ==> v in d)) &&
    (forall v :: v in d && v != from ==> vStates[v].color != White) &&
    PrevChain(g, vStates, d, from) &&
    LowerBound(g, d, from)
  }

  /** The queue holds two neighbouring layers: its first `split` vertices are
      labelled lo + 1, the rest lo. Vertices leave from the back, so the lower
      layer leaves first. */
  ghost predicate Layered(d: map<VId, nat>, queue: seq<VId>, lo: nat, split: nat)
  {
    split <= |queue| &&
    forall i :: 0 <= i < |queue| ==> queue[i] in d && d[queue[i]] == if i < split then lo + 1 else lo
  }

  /** The ghost bookkeeping of the search: the distance label of every
      labelled vertex and the two layers of the queue (see Layered). */
  datatype Labels = Labels(d: map<VId, nat>, lo: nat, split: nat)

  /** The state at the head of the search loop: every labelled vertex is
      queued or closed, and `from` is white only before the first step. */
  ghost predicate LoopState(g: Graph, from: VId, to: VId, vStates: map<VId, VState>, queue: seq<VId>, ls: Labels)
  {
    match ls
    case Labels(d, lo, split) =>
      SearchState(g, from, to, vStates, d) &&
      Layered(d, queue, lo, split) &&
      (forall v {:trigger Closed(g, d, v)} :: v in d ==> v in queue || Closed(g, d, v)) &&
      (vStates[from].color == White ==> queue == [from])
  }

  /** The state while the edges of `cur` are scanned: `cur` carries the
      lower label of the queue, and the first `j` of its edges lead to
      labelled vertices. */
  ghost predicate ScanState(g: Graph, from: VId, to: VId, vStates: map<VId, VState>, queue: seq<VId>,
                            cur: VId, j: nat, ls: Labels)
  {
    match ls
    case Labels(d, m, split) =>
      SearchState(g, from, to, vStates, d) &&
      vStates[from].color != White &&
      cur in d && d[cur] == m &&
      Layered(d, queue, m, split) &&
      (forall v {:trigger Closed(g, d, v)} :: v in d ==> v in queue || v == cur || Closed(g, d, v)) &&
      j <= |g.connections[cur]| &&
      (forall k :: 0 <= k < j ==> g.connections[cur][k].to in d)
  }

  /** Every path from `from` to a vertex outside `d0` has more than m + 1 vertices. */
  ghost predicate Far(g: Graph, d0: map<VId, nat>, from: VId, m: nat)
  {
    forall x, p {:trigger PathFromTo(g, p, from, x)} :: x !in d0 && PathFromTo(g, p, from, x) ==> |p| > m + 1
  }

  /** The first state: every vertex white, only `from` labelled and queued. */
  lemma LoopStart(g: Graph, from: VId, to: VId, vStates: map<VId, VState>)
    requires BfsReady(g, from, to)
    requires forall v :: v in vStates <==> v in g.connections
    requires forall v :: v in vStates ==> vStates[v] == VState(White, None)
    ensures LoopState(g, from, to, vStates, [from], Labels(map[from := 0], 0, 0))
  {
    var d := map[from := 0];
    forall v, p | v in d && PathFromTo(g, p, from, v)
      ensures |p| > d[v]
    {
    }
  }

  /** The back of the queue carries the lowest label, so every vertex outside
      the labelled set is far from `from`. */
  lemma LoopFar(g: Graph, from: VId, to: VId, vStates: map<VId, VState>, d: map<VId, nat>,
                queue: seq<VId>, lo: nat, split: nat)
    requires LoopState(g, from, to, vStates, queue, Labels(d, lo, split)) && |queue| > 0
    ensures Far(g, d, from, d[queue[|queue| - 1]])
  {
    var m := d[queue[|queue| - 1]];
    assert forall i :: 0 <= i < |queue| ==> queue[i] in d && d[queue[i]] >= m;
    UnlabelledFar(g, d, queue, from, m);
  }

  /** Recolouring a vertex keeps its `prev` link. */
  lemma PrevChainRecolor(g: Graph, vStates: map<VId, VState>, d: map<VId, nat>, from: VId, v: VId, c: Color)
    requires PrevChain(g, vStates, d, from) && v in vStates
    ensures PrevChain(g, vStates[v := vStates[v].(color := c)], d, from)
  {
  }

  /** Colouring a labelled vertex black keeps the search state. */
  lemma BlackenSearchState(g: Graph, from: VId, to: VId, vStates: map<VId, VState>, d: map<VId, nat>, cur: VId)
    requires SearchState(g, from, to, vStates, d) && cur in d
    ensures SearchState(g, from, to, vStates[cur := vStates[cur].(color := Black)], d)
  {
    PrevChainRecolor(g, vStates, d, from, cur, Black);
  }

  /** What remains of the queue after its back leaves holds one layer, or two. */
  lemma PopLayered(d: map<VId, nat>, queue: seq<VId>, lo: nat, split: nat)
    requires Layered(d, queue, lo, split) && |queue| > 0
    ensures var m := if split < |queue| then lo else lo + 1;
            d[queue[|queue| - 1]] == m &&
            Layered(d, queue[..|queue| - 1], m, if split < |queue| then split else 0)
  {
    var rest := queue[..|queue| - 1];
    assert forall i :: 0 <= i < |rest| ==> rest[i] == queue[i];
  }

  /** The popped vertex is the only labelled one neither queued nor closed. */
  lemma PopFrontier(g: Graph, d: map<VId, nat>, queue: seq<VId>)
    requires |queue| > 0
    requires forall v {:trigger Closed(g, d, v)} :: v in d ==> v in queue || Closed(g, d, v)
    ensures forall v {:trigger Closed(g, d, v)} :: v in d ==> v in queue[..|queue| - 1] || v == queue[|queue| - 1] || Closed(g, d, v)
  {
    assert queue == queue[..|queue| - 1] + [queue[|queue| - 1]];
  }

  /** Taking the back of the queue and colouring it black starts a scan of its
      edges, with every unlabelled vertex far from `from`. */
  lemma ScanStart(g: Graph, from: VId, to: VId, vStates: map<VId, VState>, queue: seq<VId>, ls: Labels)
    requires LoopState(g, from, to, vStates, queue, ls) && |queue| > 0
    ensures var cur := queue[|queue| - 1];
            var m := if ls.split < |queue| then ls.lo else ls.lo + 1;
            ls.d[cur] == m && Far(g, ls.d, from, m) &&
            ScanState(g, from, to, vStates[cur := vStates[cur].(color := Black)], queue[..|queue| - 1],
                      cur, 0, Labels(ls.d, m, if ls.split < |queue| then ls.split else 0))
  {
    LoopFar(g, from, to, vStates, ls.d, queue, ls.lo, ls.split);
    BlackenSearchState(g, from, to, vStates, ls.d, queue[|queue| - 1]);
    PopLayered(ls.d, queue, ls.lo, ls.split);
    PopFrontier(g, ls.d, queue);
  }

  /** An edge to a labelled vertex needs nothing done. */
  lemma ScanSkip(g: Graph, from: VId, to: VId, vStates: map<VId, VState>, d: map<VId, nat>,
                 queue: seq<VId>, cur: VId, m: nat, split: nat, j: nat)
    requires BfsReady(g, from, to) && cur in g.connections
    requires ScanState(g, from, to, vStates, queue, cur, j, Labels(d, m, split))
    requires j < |g.connections[cur]| && vStates[g.connections[cur][j].to].color != White
    ensures ScanState(g, from, to, vStates, queue, cur, j + 1, Labels(d, m, split))
  {
  }

  /** Linking a new vertex w, labelled m + 1, back to `cur`, labelled m,
      along an edge extends the `prev` chain. */
  lemma LinkNew(g: Graph, from: VId, vStates: map<VId, VState>, d: map<VId, nat>,
                cur: VId, m: nat, w: VId, c: Color)
    requires PrevChain(g, vStates, d, from)
    requires cur in d && d[cur] == m && w in vStates && w !in d && HasEdge(g, cur, w)
    ensures PrevChain(g, vStates[w := vStates[w].(color := c, prev := Some(cur))], d[w := m + 1], from)
  {
  }

  /** A vertex labelled m + 1 that is far from `from` keeps the labels lower
      bounds on distances. */
  lemma BoundNew(g: Graph, from: VId, d: map<VId, nat>, m: nat, w: VId, d0: map<VId, nat>)
    requires LowerBound(g, d, from)
    requires w !in d0 && Far(g, d0, from, m)
    ensures LowerBound(g, d[w := m + 1], from)
  {
  }

  /** Labelling a white vertex w with m + 1 and linking it back to `cur` keeps
      the search state. */
  lemma LabelNew(g: Graph, from: VId, to: VId, vStates: map<VId, VState>, d: map<VId, nat>,
                 cur: VId, m: nat, w: VId, d0: map<VId, nat>)
    requires SearchState(g, from, to, vStates, d)
    requires vStates[from].color != White && cur in d && d[cur] == m
    requires w in vStates && w != to && vStates[w].color == White && HasEdge(g, cur, w)
    requires Far(g, d0, from, m) && d0.Keys <= d.Keys
    ensures w !in d
    ensures SearchState(g, from, to, vStates[w := vStates[w].(color := Gray, prev := Some(cur))], d[w := m + 1])
  {
    LinkNew(g, from, vStates, d, cur, m, w, Gray);
    BoundNew(g, from, d, m, w, d0);
  }

  /** A vertex labelled m + 1 joins the queue at the front, in the upper layer. */
  lemma DiscoverLayered(d: map<VId, nat>, queue: seq<VId>, m: nat, split: nat, w: VId)
    requires Layered(d, queue, m, split)
    requires w !in d
    ensures Layered(d[w := m + 1], [w] + queue, m, split + 1)
  {
    var q := [w] + queue;
    assert forall i :: 1 <= i < |q| ==> q[i] == queue[i - 1];
  }

  /** Labelling and queueing a new vertex keeps every labelled vertex queued,
      current or closed. */
  lemma DiscoverFrontier(g: Graph, d: map<VId, nat>, queue: seq<VId>, cur: VId, w: VId, m: nat)
    requires forall v {:trigger Closed(g, d, v)} :: v in d ==> v in queue || v == cur || Closed(g, d, v)
    ensures forall v {:trigger Closed(g, d[w := m + 1], v)} :: v in d[w := m + 1] ==> v in [w] + queue || v == cur || Closed(g, d[w := m + 1], v)
  {
    var d' := d[w := m + 1];
    forall v | v in d'
      ensures v in [w] + queue || v == cur || Closed(g, d', v)
    {
      if v != w && !(v in queue) && v != cur {
        assert Closed(g, d, v);
      }
    }
  }

  /** After labelling the target of edge j, the first j + 1 edges lead to
      labelled vertices. */
  lemma DiscoverScanned(g: Graph, d: map<VId, nat>, cur: VId, j: nat, m: nat)
    requires cur in g.connections && j < |g.connections[cur]|
    requires forall k :: 0 <= k < j ==> g.connections[cur][k].to in d
    ensures forall k :: 0 <= k < j + 1 ==> g.connections[cur][k].to in d[g.connections[cur][j].to := m + 1]
  {
  }

  /** An edge to a white vertex other than `to` labels it m + 1, links it back
      to `cur` and queues it at the front. */
  lemma ScanDiscover(g: Graph, from: VId, to: VId, vStates: map<VId, VState>, d: map<VId, nat>,
                     queue: seq<VId>, cur: VId, m: nat, split: nat, j: nat, d0: map<VId, nat>)
    requires BfsReady(g, from, to) && cur in g.connections
    requires ScanState(g, from, to, vStates, queue, cur, j, Labels(d, m, split))
    requires Far(g, d0, from, m) && d0.Keys <= d.Keys
    requires j < |g.connections[cur]|
    requires g.connections[cur][j].to != to && vStates[g.connections[cur][j].to].color == White
    ensures var w := g.connections[cur][j].to;
            w !in d &&
            ScanState(g, from, to, vStates[w := vStates[w].(color := Gray, prev := Some(cur))], [w] + queue,
                      cur, j + 1, Labels(d[w := m + 1], m, split + 1))
  {
    var w := g.connections[cur][j].to;
    assert HasEdge(g, cur, w);
    LabelNew(g, from, to, vStates, d, cur, m, w, d0);
    DiscoverLayered(d, queue, m, split, w);
    DiscoverFrontier(g, d, queue, cur, w, m);
    DiscoverScanned(g, d, cur, j, m);
  }

  /** Once all edges of `cur` are scanned, the loop state holds again. */
  lemma ScanEnd(g: Graph, from: VId, to: VId, vStates: map<VId, VState>, d: map<VId, nat>,
                queue: seq<VId>, cur: VId, m: nat, split: nat)
    requires BfsReady(g, from, to) && cur in g.connections
    requires ScanState(g, from, to, vStates, queue, cur, |g.connections[cur]|, Labels(d, m, split))
    ensures LoopState(g, from, to, vStates, queue, Labels(d, m, split))
  {
    assert Closed(g, d, cur);
  }

  /** An edge from `cur` to `to` extends the `prev` chain to `to`, labelled m + 1. */
  lemma ScanFound(g: Graph, from: VId, to: VId, vStates: map<VId, VState>, d: map<VId, nat>,
                  queue: seq<VId>, cur: VId, m: nat, split: nat, j: nat)
    requires BfsReady(g, from, to) && cur in g.connections
    requires ScanState(g, from, to, vStates, queue, cur, j, Labels(d, m, split))
    requires j < |g.connections[cur]| && g.connections[cur][j].to == to
    ensures PrevChain(g, vStates[to := vStates[to].(prev := Some(cur))], d[to := m + 1], from)
  {
    assert HasEdge(g, cur, to);
    LinkNew(g, from, vStates, d, cur, m, to, vStates[to].color);
    assert vStates[to].(color := vStates[to].color, prev := Some(cur)) == vStates[to].(prev := Some(cur));
  }

  /** Labels 0, 1, 2, ... along a path make its vertices distinct. */
  lemma LabelsDistinct(path: seq<VId>, d: map<VId, nat>)
    requires forall i :: 0 <= i < |path| ==> path[i] in d && d[path[i]] == i
    ensures Distinct(path)
  {
    forall i, k | 0 <= i < k < |path|
      ensures path[i] != path[k]
    {
      assert d[path[i]] != d[path[k]];
    }
  }

  /** The inner loop of shortestPathBfs for the popped vertex `cur`: scans its
      edges in order. An edge to `to` ends the search with the path recreated
      from the `prev` links (non-empty, with m + 2 vertices); an edge to a white
      vertex colours it gray, links it back to `cur` and queues it at the
      front. When no edge leads to `to`, every edge of `cur` has been followed. */
  method ScanEdges(g: Graph, from: VId, to: VId, vStates: map<VId, VState>, queue: seq<VId>, cur: VId,
                   ghost ls: Labels)
    returns (path: seq<VId>, vStates': map<VId, VState>, queue': seq<VId>, ghost ls': Labels)
    requires BfsReady(g, from, to) && cur in g.connections
    requires ScanState(g, from, to, vStates, queue, cur, 0, ls)
    requires Far(g, ls.d, from, ls.lo)
    ensures path != [] ==> PathFromTo(g, path, from, to) && Distinct(path) && |path| == ls.lo + 2
    ensures path == [] ==> ScanState(g, from, to, vStates', queue', cur, |g.connections[cur]|, ls')
    ensures path == [] ==> ls'.lo == ls.lo && ls.d.Keys <= ls'.d.Keys && (ls'.d.Keys == ls.d.Keys ==> queue' == queue)
  {
    ghost var d, m := ls.d, ls.lo;
    vStates', queue', ls' := vStates, queue, ls;
    var adj := g.connections[cur];
    for j := 0 to |adj|
      invariant ScanState(g, from, to, vStates', queue', cur, j, ls')
      invariant ls'.lo == m && d.Keys <= ls'.d.Keys && (ls'.d.Keys == d.Keys ==> queue' == queue)
    {
      var e := adj[j];
      if e.to == to {
        ScanFound(g, from, to, vStates', ls'.d, queue', cur, m, ls'.split, j);
        vStates' := vStates'[to := vStates'[to].(prev := Some(cur))];
        ghost var dt := ls'.d[to := m + 1];
        path := RecreatePath(vStates', to, g, dt, from);
        LabelsDistinct(path, dt);
        return;
      } else if vStates'[e.to].color == White {
        ScanDiscover(g, from, to, vStates', ls'.d, queue', cur, m, ls'.split, j, d);
        vStates' := vStates'[e.to := vStates'[e.to].(color := Gray, prev := Some(cur))];
        queue' := [e.to] + queue';
        ls' := Labels(ls'.d[e.to := m + 1], m, ls'.split + 1);
      } else {
        ScanSkip(g, from, to, vStates', ls'.d, queue', cur, m, ls'.split, j);
      }
    }
    path := [];
  }

  /** After the scan of `cur` the loop state holds again, and either more
      vertices are labelled or the queue lost `cur`. */
  lemma VisitEnd(g: Graph, from: VId, to: VId, vStates: map<VId, VState>, queue: seq<VId>, cur: VId,
                 ls: Labels, d0: map<VId, nat>, n: nat)
    requires BfsReady(g, from, to) && cur in g.connections
    requires ScanState(g, from, to, vStates, queue, cur, |g.connections[cur]|, ls)
    requires d0.Keys <= ls.d.Keys && (ls.d.Keys == d0.Keys ==> |queue| < n)
    ensures LoopState(g, from, to, vStates, queue, ls)
    ensures var k := g.connections.Keys;
            |k - ls.d.Keys| < |k - d0.Keys| || (|k - ls.d.Keys| == |k - d0.Keys| && |queue| < n)
  {
    ScanEnd(g, from, to, vStates, ls.d, queue, cur, ls.lo, ls.split);
    if ls.d.Keys != d0.Keys {
      FewerUnlabelled(g.connections.Keys, d0.Keys, ls.d.Keys);
    }
  }

  /** One turn of the search loop of shortestPathBfs: pop the back of the
      queue, colour it black and scan its edges. A non-empty result is a
      shortest path from `from` to `to`; otherwise the loop state holds again
      and either more vertices are labelled or the queue is shorter. */
  method VisitNext(g: Graph, from: VId, to: VId, vStates: map<VId, VState>, queue: seq<VId>, ghost ls: Labels)
    returns (path: seq<VId>, vStates': map<VId, VState>, queue': seq<VId>, ghost ls': Labels)
    requires BfsReady(g, from, to)
    requires LoopState(g, from, to, vStates, queue, ls) && |queue| > 0
    ensures path != [] ==> PathFromTo(g, path, from, to) && Distinct(path)
    ensures path != [] ==> forall p {:trigger PathFromTo(g, p, from, to)} :: PathFromTo(g, p, from, to) ==> |path| <= |p|
    ensures path == [] ==> LoopState(g, from, to, vStates', queue', ls')
    ensures path == [] ==> var k := g.connections.Keys;
              |k - ls'.d.Keys| < |k - ls.d.Keys| || (|k - ls'.d.Keys| == |k - ls.d.Keys| && |queue'| < |queue|)
  {
    ScanStart(g, from, to, vStates, queue, ls);
    var cur := queue[|queue| - 1];
    queue' := queue[..|queue| - 1];
    vStates' := vStates[cur := vStates[cur].(color := Black)];
    ghost var start := Labels(ls.d, ls.d[cur], if ls.split < |queue| then ls.split else 0);
    path, vStates', queue', ls' := ScanEdges(g, from, to, vStates', queue', cur, start);
    if path == [] {
      VisitEnd(g, from, to, vStates', queue', cur, ls', ls.d, |queue|);
    }
  }

  /** shortestPathBfs: breadth-first search from `from`. It returns [] exactly
      when `to` cannot be reached; otherwise a path from `from` to `to` that
      repeats no vertex and has no more edges than any other such path. */
  method ShortestPathBfs(g: Graph, from: VId, to: VId) returns (path: seq<VId>)
    requires BfsReady(g, from, to)
    ensures path != [] ==> PathFromTo(g, path, from, to) && Distinct(path)
    ensures path != [] ==> forall p {:trigger PathFromTo(g, p, from, to)} :: PathFromTo(g, p, from, to) ==> |path| <= |p|
    ensures path == [] <==> !Reachable(g, from, to)
  {
    var vStates: map<VId, VState> := map[];
    for i := 0 to |g.keys|
      invariant forall v :: v in vStates <==> v in g.keys[..i]
      invariant forall v :: v in vStates ==> vStates[v] == VState(White, None)
    {
      vStates := vStates[g.keys[i] := VState(White, None)];
    }
    assert g.keys[..|g.keys|] == g.keys;
    var queue := [from];
    ghost var ls := Labels(map[from := 0], 0, 0);
    LoopStart(g, from, to, vStates);
    while |queue| > 0
      invariant LoopState(g, from, to, vStates, queue, ls)
      decreases |g.connections.Keys - ls.d.Keys|, |queue|
    {
      path, vStates, queue, ls := VisitNext(g, from, to, vStates, queue, ls);
      if path != [] {
        return;
      }
    }
    ClosedUnreachable(g, ls.d, from, to);
    path := [];
  }
}

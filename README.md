# Edmonds–Karp maximum flow, modelled in Dafny

This project models the max-flow engine of `js/MaxFlow.js`:

- the shared id counter (`IdGenerator`);
- the adjacency graph builder (`createGraph`);
- the random flow-network generator (`generateRandomFlowNetwork`, `getRndInteger`);
- the residual-network builder (`createResidualNetwork`);
- the path search (`shortestPathBfs` with `recreatePath`);
- the Edmonds–Karp driver (`EdmondsKarp`).

Modules, one per part of the program:

| module | file | models |
|---|---|---|
| `FlowGraph` | `flow_graph.dfy` | vertex ids (`'s'`, `'t'`, numeric ids), edges, `createGraph`, the `find` lookups, net flow and flow sums |
| `Ids` | `ids.dfy` | `IdGenerator` as a class with a counter field, passed explicitly |
| `Trace` | `trace.dfy` | the generator's `yield`s as an event log, with a small automaton for the order the events come in |
| `Residual` | `residual.dfy` | `createResidualNetwork` as a loop that draws ids and logs one event per residual edge |
| `PathSearch` | `path_search.dfy` | `shortestPathBfs` as a loop over a queue plus per-vertex colour and `prev` state; `recreatePath` as a loop |
| `Augmenting` | `augment.dfy` | residual capacities, and the flow update along a path as a specification function (`Augmented`) with its lemmas |
| `RandomNetwork` | `random_network.dfy` | `getRndInteger` over a nondeterministic draw of `Math.random`; the generator's rejection loops |
| `MaxFlow` | `max_flow.dfy` | the network object whose edge flows change in place (`class FlowNetwork`), and `EdmondsKarp` as a loop of rounds |
| `MinCut` | `min_cut.dfy` | why the flow `EdmondsKarp` stops at is maximum: the vertices residual walks reach form a saturated cut |

What is proved:

- The main loop ends, because each round raises the net flow out of `'s'` by at least one, and that net flow is bounded by the capacity leaving `'s'`.
- On exit no augmenting path is left.
- When the initial flow is conserved, the final flow is a maximum flow.
- Flows stay within capacity, and only flows change.
- The search returns `[]` exactly when `'t'` is unreachable; otherwise it returns a shortest path that repeats no vertex.
- The log is a sequence of rounds, each `InitResidual`, `AddEdgeResidual`\*, `PathFound`, then one last build and one `Final` event, which is the last event.

The search frontier is first-in first-out: `queue.pop()` takes from the back and `queue.unshift` adds at the front (js/MaxFlow.js:103, 115). Vertices therefore leave the queue in the order they were discovered, and the model proves that the returned path is a shortest one.

## Model

| member | source | states |
|---|---|---|
| Ids.IdGenerator.constructor | js/MaxFlow.js:9-10 | the counter starts at 0 |
| Ids.IdGenerator.GetNextId | js/MaxFlow.js:12-14 | returns the counter's current value and advances it by exactly one (post-increment), so ids are never handed out twice |
| FlowGraph.Dedup | js/MaxFlow.js:19-23 | the key order of the `Map` filled by `set` for each vertex: distinct keys, exactly the listed vertices, and the list itself when it has no repeats |
| FlowGraph.Outgoing | js/MaxFlow.js:21 | the filter keeps exactly the edges of the list that leave `v`, and no more than the list has |
| FlowGraph.OutgoingAppend | js/MaxFlow.js:21 | the filter distributes over concatenation, so input order is kept |
| FlowGraph.OutgoingSingle | js/MaxFlow.js:21 | a one-edge list is kept exactly when its edge leaves `v` |
| FlowGraph.CreateGraph | js/MaxFlow.js:18-25 | `createGraph`: the edge list is returned unchanged, the keys are distinct, and they are the vertex list itself when it has no repeats |
| FlowGraph.CreateGraphFacts | js/MaxFlow.js:18-25 | every listed vertex, and only those, becomes a key, each once; a key maps to exactly the edges leaving it; the edge list is returned unchanged; the key order is the vertex order when the vertices are distinct |
| FlowGraph.FindTo | js/MaxFlow.js:131-132 | `find(edge => edge.to === v)` returns nothing exactly when no edge of the list ends at `v`; otherwise it returns an edge of the list that ends at `v` |
| FlowGraph.FindToFirst | js/MaxFlow.js:131-132 | the edge found is the first one that ends at `v` |
| FlowGraph.FindEdgeIndex | js/MaxFlow.js:139-140 | the position of a `u -> v` edge, or none exactly when the list has no `u -> v` edge |
| FlowGraph.FindEdgeIndexFirst | js/MaxFlow.js:139-140 | the position found is that of the first `u -> v` edge |
| FlowGraph.FindToOutgoing | js/MaxFlow.js:139-146 | looking `v` up among the connections of `u` finds the first `u -> v` edge of the whole edge list, because the two views share edge objects |
| FlowGraph.FindEdgeIndexSameShape | js/MaxFlow.js:139-146 | lookups depend on endpoints only, so changing flows never changes which edge a lookup finds |
| FlowGraph.NetFlowUpdate | js/MaxFlow.js:142-147 | changing one edge changes the net flow at a vertex by that edge's change of contribution and by nothing else |
| FlowGraph.NetFlowAtMostCapOut | js/MaxFlow.js:125-157 | with 0 <= flow <= cap everywhere, the net flow out of a vertex is at most the capacity leaving it (the bound behind termination) |
| FlowGraph.CapOutSameShape | js/MaxFlow.js:142-147 | flow updates do not change the capacity leaving a vertex |
| FlowGraph.SumFlowOutgoingIsNetFlow | js/MaxFlow.js:158-159 | when no flow enters `v`, the summed flow of the edges leaving `v` is the net flow out of `v` |
| FlowGraph.SumFlowOutgoing | js/MaxFlow.js:158-159 | summing the flows of the edges leaving `v`, taken from its adjacency list, counts each edge of the list that leaves `v` once |
| FlowGraph.FlowOutIsNetFlow | js/MaxFlow.js:158-159 | with no self-loops and no flow into `v`, the flow leaving `v` is its net flow |
| Trace.AddEdgeEvents | js/MaxFlow.js:70-82 | one `AddEdgeResidual` event per residual edge, carrying that edge, in creation order |
| Trace.RunAddEdges | js/MaxFlow.js:70-82 | `AddEdgeResidual` events keep a residual build in progress |
| Trace.RunResidualBuild | js/MaxFlow.js:69-82 | `InitResidual` followed by one event per residual edge is a well-formed residual build |
| Trace.RunDone | js/MaxFlow.js:160-161 | nothing may follow the final report |
| Trace.FinalOnlyAtEnd | js/MaxFlow.js:158-161 | a complete log has exactly one `Final` event, and it is the last one |
| Trace.RunNextRound | js/MaxFlow.js:151-155 | a `PathFound` report followed by the next residual build returns the log to the building phase |
| Trace.RunFinish | js/MaxFlow.js:160 | the `Final` report completes a log whose last residual build has finished |
| Residual.ResidualPrefix | js/MaxFlow.js:70-82 | at most two residual edges per original edge |
| Residual.ResidualPrefixStep | js/MaxFlow.js:70-82 | each original edge appends its residual edges after those of the edges before it |
| Residual.ResidualPrefixFacts | js/MaxFlow.js:72-78 | residual edges carry consecutive fresh ids and a positive remaining capacity |
| Residual.ResidualOrigin | js/MaxFlow.js:71-81 | every residual edge is either the spare capacity `cap - flow` of an edge with `flow < cap`, in its direction, or the flow of an edge with `flow > 0`, reversed |
| Residual.ResidualComplete | js/MaxFlow.js:71-81 | conversely, every edge with flow has its reversed cancel-flow edge, and every edge with spare capacity has its forward edge |
| Residual.ResidualHasCancel | js/MaxFlow.js:71-75 | every edge with flow has a reversed residual edge carrying that flow |
| Residual.ResidualHasForward | js/MaxFlow.js:77-81 | every edge with spare capacity has a forward residual edge carrying the spare capacity |
| Residual.ResidualEndpoints | js/MaxFlow.js:71-83 | residual edges join known, distinct vertices: the vertex set is unchanged |
| Residual.MakeResidualEdges | js/MaxFlow.js:71-81 | one loop iteration: the cancel-flow edge when `flow > 0`, then the spare-capacity edge when `flow < cap`, each taking the next id |
| Residual.CreateResidualNetwork | js/MaxFlow.js:67-84 | the ids drawn, the residual graph over the same keys, and the events `InitResidual(keys)` then one `AddEdgeResidual` per residual edge in creation order; the input graph is a value and is not changed |
| PathSearch.RecreatePath | js/MaxFlow.js:87-95 | following `prev` links back from `last` ends, and gives a path from the start to `last` whose `i`-th vertex has label `i` |
| PathSearch.PrependPrev | js/MaxFlow.js:90-93 | following one `prev` link lands on a vertex labelled one less that has an edge to the current first vertex |
| PathSearch.ClosedUnreachable | js/MaxFlow.js:102-119 | when the queue empties, every discovered vertex has had all its edges followed, so nothing undiscovered is reachable and `[]` is right |
| PathSearch.UnlabelledFar | js/MaxFlow.js:101-118 | while the queue holds labels of at least `m`, every path to an undiscovered vertex has more than m + 1 vertices |
| PathSearch.LoopStart | js/MaxFlow.js:97-101 | the first state, with every vertex white and only the start queued, satisfies the loop invariant |
| PathSearch.LoopFar | js/MaxFlow.js:102-103 | the vertex at the back of the queue carries the lowest label |
| PathSearch.PopLayered | js/MaxFlow.js:103 | after `pop` the queue still holds at most two neighbouring layers |
| PathSearch.ScanStart | js/MaxFlow.js:103-106 | popping the back and colouring it black starts a scan of its edges |
| PathSearch.ScanSkip | js/MaxFlow.js:112 | an edge to a vertex that is not white needs nothing done |
| PathSearch.LinkNew | js/MaxFlow.js:113-114 | linking a new vertex back to the current one extends the chain of `prev` links |
| PathSearch.LabelNew | js/MaxFlow.js:112-114 | colouring a white vertex gray and linking it back keeps the search state |
| PathSearch.DiscoverLayered | js/MaxFlow.js:115 | `unshift` adds the new vertex at the front, in the upper layer |
| PathSearch.ScanDiscover | js/MaxFlow.js:112-116 | one discovery keeps the scan state |
| PathSearch.ScanEnd | js/MaxFlow.js:106-117 | after all edges of the current vertex, the loop invariant holds again |
| PathSearch.ScanFound | js/MaxFlow.js:107-108 | an edge to the goal extends the `prev` chain to the goal |
| PathSearch.LabelsDistinct | js/MaxFlow.js:109 | the recreated path repeats no vertex |
| PathSearch.ScanEdges | js/MaxFlow.js:106-117 | scanning the edges of the popped vertex either returns a path of `lo + 2` vertices that repeats no vertex, or follows every edge and keeps the scan state |
| PathSearch.VisitEnd | js/MaxFlow.js:102-118 | after a scan, more vertices are labelled or the queue is shorter: the loop ends |
| PathSearch.VisitNext | js/MaxFlow.js:102-118 | one turn of the loop returns a shortest path without repeated vertices, or keeps the invariant and shrinks the measure |
| PathSearch.ShortestPathBfs | js/MaxFlow.js:86-120 | `[]` exactly when the goal is unreachable; otherwise a path from start to goal that repeats no vertex and has no more edges than any other |
| RandomNetwork.RandomUnit | js/MaxFlow.js:64 | `Math.random()` is some real in [0, 1) |
| RandomNetwork.FloorOfScaled | js/MaxFlow.js:64 | flooring a draw scaled by `k` lands in [0, k) for k > 0 and in [k, 0] otherwise |
| RandomNetwork.RndInteger | js/MaxFlow.js:63-65 | the half-open range [min, max); `min` for an empty range; a value in [max, min] for a reversed one |
| RandomNetwork.GetRndInteger | js/MaxFlow.js:63-65 | the same bounds for a fresh draw |
| RandomNetwork.FindJoining | js/MaxFlow.js:52-53 | the rejection lookup finds nothing exactly when no edge joins the pair in either direction; otherwise an edge that joins it |
| RandomNetwork.GeneratedVerticesDistinct | js/MaxFlow.js:32-37 | `'s'`, the fresh ids and `'t'` are all distinct |
| RandomNetwork.AcceptKeepsValid | js/MaxFlow.js:52-57 | accepting a pair of distinct known vertices that no edge joins keeps the network valid |
| RandomNetwork.AcceptKeepsGenerated | js/MaxFlow.js:56 | an accepted edge has a fresh id above all earlier ones, flow 0 and capacity in [1, 14] |
| RandomNetwork.MakeVertices | js/MaxFlow.js:32-37 | `'s'`, then `vCnt - 2` fresh ids in increasing order, then `'t'` |
| RandomNetwork.DrawPair | js/MaxFlow.js:47-50 | a pair that was accepted has two different known vertices |
| RandomNetwork.MakeEdges | js/MaxFlow.js:42-58 | exactly `eCnt` edges, no self-loop, at most one edge per vertex pair in either direction, each with flow 0, capacity in [1, 14] and a fresh increasing id |
| RandomNetwork.DrawEdgeCount | js/MaxFlow.js:30 | the edge count is 1 for two vertices and in [1, n(n-1)/2 - 1] otherwise |
| RandomNetwork.GenerateRandomFlowNetwork | js/MaxFlow.js:27-61 | a valid network built by `createGraph` over `'s'`, the fresh ids and `'t'`; `vCnt` vertices, or 3 to 11 when not given; the edges and edge count above |
| Augmenting.SingleJoin | js/MaxFlow.js:139-146 | in a valid network an edge joins no pair of vertices but its own |
| Augmenting.LookupJoining | js/MaxFlow.js:139-146 | in a valid network the forward lookup finds an edge's own position, and the reversed lookup finds nothing |
| Augmenting.ResidualEdgeCap | js/MaxFlow.js:71-81 | every residual edge carries the residual capacity of its pair, which is positive |
| Augmenting.ResidualCapEdge | js/MaxFlow.js:71-81 | every positive residual capacity has its residual edge |
| Augmenting.ResidualHasEdge | js/MaxFlow.js:67-84 | the residual network has a `u -> v` edge exactly when the residual capacity from `u` to `v` is positive |
| Augmenting.ResidualPathIsAugmenting | js/MaxFlow.js:123-124 | the paths from `'s'` to `'t'` in the residual network are exactly the augmenting paths |
| Augmenting.NoAugmentingPath | js/MaxFlow.js:124-125 | when the residual network has no path from `'s'` to `'t'`, no augmenting path exists |
| Augmenting.ResidualReady | js/MaxFlow.js:123-124 | the residual network of a valid network is one the search can run on |
| Augmenting.PairIndex | js/MaxFlow.js:139-147 | the edge a step updates joins the step's two vertices |
| Augmenting.LinkedSameShape | js/MaxFlow.js:139-147 | flow changes keep which edge each step finds |
| Augmenting.PushedEdgesJoin | js/MaxFlow.js:138-150 | the edges collected by the loop are one per step, each joining that step's two vertices |
| Augmenting.CapsLinked | js/MaxFlow.js:141-147 | when every step has residual capacity, every step has an edge in one direction or the other, so the second lookup never comes back empty |
| Augmenting.PairsDistinct | js/MaxFlow.js:138-150 | on a path without repeated vertices, two different steps never update the same edge |
| Augmenting.PushNetFlow | js/MaxFlow.js:142-147 | setting one edge's flow moves the net flow at its two ends only |
| Augmenting.AugmentedUnfold | js/MaxFlow.js:138-150 | the flows after step `n + 1` are those after step `n`, pushed once more |
| Augmenting.StepUntouched | js/MaxFlow.js:138-150 | the edge a step updates was left alone by the steps before it |
| Augmenting.StepBounds | js/MaxFlow.js:136-147 | a step's residual capacity keeps the new flow of its edge within 0 and the capacity |
| Augmenting.StepEdge | js/MaxFlow.js:139-148 | step `n` adds `delta` to the `u -> v` edge when one exists and otherwise takes `delta` off the `v -> u` edge; the edge was untouched before and its new flow is within capacity |
| Augmenting.StepIndex | js/MaxFlow.js:139-148 | the edge step `n` updates joins the step's two vertices, was left alone by the earlier steps, and runs along the step exactly when a `u -> v` edge exists |
| Augmenting.StepNetFlow | js/MaxFlow.js:142-147 | a step moves net flow into its first vertex and out of its second |
| Augmenting.NextUntouched | js/MaxFlow.js:138-150 | edges no step has reached keep their flows |
| Augmenting.NextNetFlow | js/MaxFlow.js:138-150 | after `n` steps, net flow has moved from `path[n]` to `path[0]` and nowhere else |
| Augmenting.NextIntoStart | js/MaxFlow.js:138-150 | no edge into `path[0]` gains flow |
| Augmenting.FlowUpdateKeeps | js/MaxFlow.js:142-147 | an update within capacity keeps the shape and all flows within capacity |
| Augmenting.PushState | js/MaxFlow.js:139-148 | one push keeps the state after `n` steps as the state after `n + 1` |
| Augmenting.AugmentStep | js/MaxFlow.js:138-150 | the same for the flows after `n` steps |
| Augmenting.PrefixStart | js/MaxFlow.js:138 | before any step the state is the starting one |
| Augmenting.AugmentPrefix | js/MaxFlow.js:138-150 | after the last step of the path: same shape, flows within capacity, untouched edges unchanged, net flow moved from the last vertex to `path[0]`, and no edge into `path[0]` gaining flow |
| Augmenting.PrefixFrom | js/MaxFlow.js:138-150 | the state after `n` steps, once reached, carries over to the state after the last step |
| Augmenting.ValidSameShape | js/MaxFlow.js:142-147 | changing only flows, within capacity, keeps a network valid |
| Augmenting.StepsAppliedUpdate | js/MaxFlow.js:139-148 | setting step `n`'s edge to its old flow plus the step's change extends the applied changes by one step |
| Augmenting.StepApplied | js/MaxFlow.js:139-148 | step `n` applies its change to its own edge and leaves the edges of the earlier steps alone |
| Augmenting.StepsStart | js/MaxFlow.js:138 | before any step no change has been applied |
| Augmenting.StepsNext | js/MaxFlow.js:138-150 | the changes of `n` steps plus step `n` are the changes of `n + 1` steps |
| Augmenting.StepsFrom | js/MaxFlow.js:138-150 | the remaining steps apply the remaining changes |
| Augmenting.AugmentSteps | js/MaxFlow.js:138-150 | after the whole path, each step's edge carries its old flow plus `delta` when it runs along the step and minus `delta` when it runs against it |
| Augmenting.AugmentUntouched | js/MaxFlow.js:138-150 | edges no step of the path joins keep their flows |
| Augmenting.AugmentFacts | js/MaxFlow.js:138-150 | augmenting along a path without repeated vertices keeps the network valid and its shape; net flow rises by `delta` at `path[0]`, falls by `delta` at the last vertex and stays put elsewhere; no edge into `path[0]` gains flow |
| MaxFlow.FlowNetwork.constructor | js/MaxFlow.js:18-25 | the object's graph view is `createGraph(vertices, edges)` |
| MaxFlow.FlowNetwork.Augment | js/MaxFlow.js:138-150 | the second loop of a round: the flows become those of the augmentation along the path, and the edges collected are each step's edge just after its update |
| MaxFlow.PushFlow | js/MaxFlow.js:139-148 | one iteration finds the `u -> v` edge, or else the `v -> u` edge, and updates its flow |
| MaxFlow.HasEdgeFinds | js/MaxFlow.js:131-132 | where an edge joins `u` to `v`, the lookup among `u`'s connections finds one |
| MaxFlow.PathResidualEdges | js/MaxFlow.js:130-135 | the first loop of a round: for each step, the first residual edge to the next vertex, and its capacity |
| MaxFlow.StepResidualCap | js/MaxFlow.js:131-134 | the residual edge found for a step carries that step's residual capacity, which is positive |
| MaxFlow.PathResidualCaps | js/MaxFlow.js:130-135 | all residual edges found along the path carry the positive residual capacities of their steps |
| MaxFlow.MinOf | js/MaxFlow.js:136 | `Math.min` of a non-empty list is a member no larger than any member |
| MaxFlow.MinFlowFits | js/MaxFlow.js:136 | `Math.min` of the capacities is the bottleneck: positive, no larger than any step's residual capacity, and equal to one of them |
| MaxFlow.ProgressTrans | js/MaxFlow.js:125-157 | progress over rounds composes |
| MaxFlow.AugmentProgress | js/MaxFlow.js:138-150 | augmenting along an `'s'`-to-`'t'` path keeps the network valid, changes only flows, keeps every other vertex's net flow, and raises the net flow out of `'s'` by exactly `delta` |
| MaxFlow.GraphKeysValid | js/MaxFlow.js:18-25 | the graph's keys have the same members as its vertex list, and the connections of `'s'` are the edges leaving `'s'` |
| MaxFlow.ValidNetworkKeys | js/MaxFlow.js:18-25 | a network valid over its graph's keys is valid over its vertex list |
| MaxFlow.ReportedIsNetFlow | js/MaxFlow.js:158-159 | when no flow entered `'s'` at the start, the reported sum is the net flow out of `'s'` |
| MaxFlow.AugmentRound | js/MaxFlow.js:126-154 | one round: `minFlow` is the bottleneck (at most every step's residual capacity and equal to one of them); the flows become the augmentation by it; the network stays valid; the net flow out of `'s'` rises by it; the `PathFound` event carries each step's updated edge and, for each step, the residual edge the lookup found |
| MaxFlow.PushRound | js/MaxFlow.js:126-150 | a round's push keeps the network valid and the progress since the start, and shrinks the room left on the edges out of `'s'` |
| MaxFlow.ParallelEdgesOverflow | js/MaxFlow.js:139-147 | with two parallel `'s' -> 't'` edges the round pushes the second edge's spare capacity onto the first, which is full, and exceeds its capacity |
| MaxFlow.NextPath | js/MaxFlow.js:155-156 | building the residual network and searching it gives a shortest `'s'`-to-`'t'` path, or `[]` exactly when there is none, together with the build's events |
| MaxFlow.RoundProgress | js/MaxFlow.js:125-157 | a round that raises the net flow out of `'s'` shrinks the room left on the edges out of `'s'`, which stays non-negative |
| MaxFlow.FirstSearch | js/MaxFlow.js:123-124 | the first build and search establish the loop invariant |
| MaxFlow.ConservedKept | js/MaxFlow.js:125-157 | rounds keep flow conservation |
| MaxFlow.NextBetween | js/MaxFlow.js:151-156 | the round's `PathFound` report followed by the next build's events, with the new search, is again a state between rounds |
| MaxFlow.Round | js/MaxFlow.js:125-157 | one pass of the main loop keeps the loop invariant and shrinks the termination measure |
| MaxFlow.Report | js/MaxFlow.js:158-161 | on exit: no augmenting path, the reported value is the summed flow out of `'s'`, and the `Final` event carrying it completes the log |
| MaxFlow.FinalFacts | js/MaxFlow.js:125-159 | once the search finds no path: no augmenting path is left, `connections['s']` is the list of edges leaving `'s'`, the network is still valid, the flow is maximum when the starting flow was conserved, and the summed flow out of `'s'` is its net flow when no flow entered `'s'` at the start |
| MaxFlow.EdmondsKarp | js/MaxFlow.js:122-162 | it ends with no augmenting path and a valid network; only flows change; every vertex but `'s'` and `'t'` keeps its net flow; the returned value is the summed flow out of `'s'`; the log is complete and ends with its only `Final` event; a conserved starting flow ends as a maximum flow |
| MinCut.CutFlowEmpty | js/MaxFlow.js:158-159 | nothing crosses the empty cut |
| MinCut.NetFlowJoin | js/MaxFlow.js:158-159 | adding a vertex to a set adds its own net flow to the flow out of the set |
| MinCut.SideNetFlowIsCutFlow | js/MaxFlow.js:158-159 | the net flow out of a set is the sum of its vertices' net flows |
| MinCut.SideNetFlowConserved | js/MaxFlow.js:158-159 | with conservation, a set holding `'s'` and not `'t'` has the net flow of `'s'` |
| MinCut.CutFlowAtMostCap | js/MaxFlow.js:158-159 | no feasible flow carries more across a cut than the capacity leaving it |
| MinCut.CutFlowSaturated | js/MaxFlow.js:158-159 | full leaving edges and empty entering edges carry exactly the cut's capacity |
| MinCut.CutCapSameShape | js/MaxFlow.js:158-159 | a cut's capacity depends on the edges, not their flows |
| MinCut.WalkExtend | js/MaxFlow.js:124-125 | a residual step extends a residual walk |
| MinCut.ReachableAmong | js/MaxFlow.js:124-125 | the members of a list that residual walks reach, each once |
| MinCut.SourceSide | js/MaxFlow.js:124-125 | the source side of the cut: exactly the vertices residual walks reach, each once |
| MinCut.LeavingFull | js/MaxFlow.js:124-125 | every edge leaving the source side is full |
| MinCut.EnteringEmpty | js/MaxFlow.js:124-125 | every edge entering the source side is empty |
| MinCut.SourceSideIsMinCut | js/MaxFlow.js:124-125 | with no augmenting path, the source side holds `'s'` and not `'t'`, and the flow across it equals its capacity |
| MinCut.ValueIsCutFlow | js/MaxFlow.js:158-159 | for a conserved flow, the net flow out of `'s'` is what crosses any cut separating `'s'` from `'t'` |
| MinCut.NoAugmentingPathIsMaximum | js/MaxFlow.js:155-161 | a conserved flow with no augmenting path is a maximum flow: no feasible, conserved flow on the same edges sends more out of `'s'` |

## Left out

- `js/Visual.js` is not part of this model. It covers rendering, DOM state, editing prompts, animation pacing and JSON cloning of the graph.
- The parsing of `flow/cap` edge labels is left out; every operation requires a valid network instead. Flows and capacities are integers, 0 <= flow <= cap, no self-loops, known endpoints, and at most one edge per vertex pair in either direction.
- `Math.random` becomes a nondeterministic choice of a real in [0, 1) (`RandomNetwork.RandomUnit`). The model treats that real as exact, not as a double.
- JavaScript numbers are modelled as unbounded integers; no overflow or precision loss is modelled.
- Generators and `yield*` are replaced by an event log that each operation returns.
- Events hold copies of edges as they were when reported. In the code, events hold references to edge objects that later rounds keep changing.
- `IdGenerator` is a single global counter in the code; the model passes one counter object to every operation that draws ids.
- `vStates` is a map keyed by vertex id; the string coercion of keys in the code is not modelled.
- The numeric values of the event-type constants are not modelled; events are datatype constructors.
- `createGraph` validates nothing. The network's connections are a view of its edge list because both share edge objects; the model computes them from the edges (`MaxFlow.FlowNetwork.Graph`).
- RandomNetwork.GenerateRandomFlowNetwork: its rejection loops end only with probability one, so it takes a fuel budget and returns `None` when the budget is spent. For the same reason `MakeEdges` and `DrawPair` report failure.
- RandomNetwork.GenerateRandomFlowNetwork: requires at least two vertices when a count is given; the case of 0 or 1 is not modelled. Every call passes the constant 6 (js/Visual.js:1, 19 and 321). With 0 or 1 the code still builds the vertex list `['s', 't']`, and `getRndInteger(1, 0)` at js/MaxFlow.js:30 gives an edge count of 0 for every draw except exactly 0.0. It then returns a network without edges; a draw of exactly 0.0 asks for one edge, and every vertex draw then picks `'s'`, so the loop at js/MaxFlow.js:49-50 never ends.
- RandomNetwork.GetRndInteger: a reversed range (`max < min`) is modelled for completeness; the code never calls it that way.
- PathSearch.ShortestPathBfs: requires the start and the goal to differ. With equal ones `recreatePath` would follow a `prev` link from the goal to itself forever; `EdmondsKarp` always searches from `'s'` to `'t'`.
- PathSearch.RecreatePath: takes the distance labels and the graph as ghost parameters, which the code does not have; they only carry the proof.
- MaxFlow.EdmondsKarp: requires a valid network, which the code assumes and does not check. Without one the capacity bound fails, as the finding below shows.
- MaxFlow.EdmondsKarp: the returned value equals the net flow out of `'s'` only when no flow entered `'s'` at the start. It is a maximum flow only when the starting flow is conserved.
- The branch of the augmentation loop that would crash on a missing edge (js/MaxFlow.js:145-147, when neither lookup finds an edge) is unreachable. `Augmenting.CapsLinked` proves it, so the model has no crash path.
- The polynomial bound on the number of rounds is not proved; only termination is.
- Edge counts and capacities follow the half-open `getRndInteger` (js/MaxFlow.js:63-65): the edge count is in [1, n(n-1)/2 - 1], or 1 for two vertices, and capacities are in [1, 14].

## Findings

| source | as written | input that shows it | evidently intended | confidence | as-written member | corrected member |
|---|---|---|---|---|---|---|
| js/MaxFlow.js:139-147 | each step of the path updates the first `u -> v` edge the lookup finds, whichever edge supplied the residual capacity | edges `s -> t` with flow 5 of capacity 5 and `s -> t` with flow 0 of capacity 3: the residual network offers 3 units along the second edge, and the round adds them to the first, giving flow 8 over capacity 5 | flows stay within capacity; this holds when the network has at most one edge per vertex pair in either direction, which the model requires of every network (the editor in js/Visual.js:147-154 rejects only reversed duplicates) | not executed | MaxFlow.ParallelEdgesOverflow | Augmenting.AugmentFacts |

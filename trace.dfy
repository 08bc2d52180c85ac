/** The steps the algorithm reports, in the order it reports them. The
    generator's `yield`s become values appended to an event log; the order the
    log must follow is a small automaton over those values. */
module Trace {
  import opened FlowGraph

  datatype Event =
    | InitResidual(vertices: seq<VId>)
    | AddEdgeResidual(edge: Edge)
    | PathFound(pathOriginal: seq<Edge>, pathResidual: seq<Edge>)
    | Final(edges: seq<Edge>, maxFlow: int)

  /** Start: a residual network is about to be built; Building: it is being
      built; Done: the final event has been emitted. */
  datatype Phase = Start | Building | Done

  function Step(p: Phase, e: Event): Option<Phase>
  {
    match (p, e)
    case (Start, InitResidual(_)) => Some(Building)
    case (Building, AddEdgeResidual(_)) => Some(Building)
    case (Building, PathFound(_, _)) => Some(Start)
    case (Building, Final(_, _)) => Some(Done)
    case _ => None
  }

  /** The phase reached after `evs`, or None if `evs` breaks the protocol. */
  function Run(p: Phase, evs: seq<Event>): Option<Phase>
    decreases |evs|
  {
    if evs == [] then Some(p)
    else
      match Step(p, evs[0])
      case None => None
      case Some(q) => Run(q, evs[1..])
  }

  /** A complete trace: rounds of InitResidual, AddEdgeResidual*, PathFound,
      then one last residual build and Final. */
  predicate Complete(evs: seq<Event>)
  {
    Run(Start, evs) == Some(Done)
  }

  /** The residual-build events of one round, one per residual edge. */
  function AddEdgeEvents(rs: seq<Edge>): (evs: seq<Event>)
    ensures |evs| == |rs|
    ensures forall k :: 0 <= k < |rs| ==> evs[k] == AddEdgeResidual(rs[k])
  {
    seq(|rs|, k requires 0 <= k < |rs| => AddEdgeResidual(rs[k]))
  }

  lemma {:induction false} RunAppend(p: Phase, a: seq<Event>, b: seq<Event>)
    ensures Run(p, a + b) == match Run(p, a) case None => None case Some(q) => Run(q, b)
    decreases |a|
  {
    if a == [] {
      assert a + b == b;
    } else {
      assert (a + b)[1..] == a[1..] + b;
      match Step(p, a[0])
      case None =>
      case Some(q) => RunAppend(q, a[1..], b);
    }
  }

  lemma AddEdgeEventsAppend(a: seq<Edge>, b: seq<Edge>)
    ensures AddEdgeEvents(a + b) == AddEdgeEvents(a) + AddEdgeEvents(b)
  {
  }

  /** Adding residual edges keeps the log in the Building phase. */
  lemma {:induction false} RunAddEdges(rs: seq<Edge>)
    ensures Run(Building, AddEdgeEvents(rs)) == Some(Building)
    decreases |rs|
  {
    if rs != [] {
      assert AddEdgeEvents(rs)[1..] == AddEdgeEvents(rs[1..]);
      RunAddEdges(rs[1..]);
    }
  }

  /** Reporting more residual edges extends the log of the build so far. */
  lemma ResidualBuildSnoc(vertices: seq<VId>, done: seq<Edge>, made: seq<Edge>)
    ensures [InitResidual(vertices)] + AddEdgeEvents(done) + AddEdgeEvents(made) ==
            [InitResidual(vertices)] + AddEdgeEvents(done + made)
  {
    AddEdgeEventsAppend(done, made);
    var init := [InitResidual(vertices)];
    assert (init + AddEdgeEvents(done)) + AddEdgeEvents(made) == init + (AddEdgeEvents(done) + AddEdgeEvents(made));
  }

  /** One residual build: InitResidual followed by one event per residual edge. */
  lemma RunResidualBuild(vertices: seq<VId>, rs: seq<Edge>)
    ensures Run(Start, [InitResidual(vertices)] + AddEdgeEvents(rs)) == Some(Building)
  {
    RunAppend(Start, [InitResidual(vertices)], AddEdgeEvents(rs));
    RunAddEdges(rs);
  }

  /** Nothing follows Done. */
  lemma {:induction false} RunDone(evs: seq<Event>)
    ensures Run(Done, evs) == if evs == [] then Some(Done) else None
  {
  }

  /** Finals only lead to Done, so a trace that ends in Done has exactly one
      Final, its last event. */
  lemma {:induction false} FinalOnlyAtEnd(p: Phase, evs: seq<Event>)
    requires Run(p, evs) == Some(Done)
    requires p != Done
    ensures |evs| > 0 && evs[|evs| - 1].Final?
    ensures forall i :: 0 <= i < |evs| - 1 ==> !evs[i].Final?
    decreases |evs|
  {
    var q := Step(p, evs[0]).value;
    if q == Done {
      RunDone(evs[1..]);
    } else {
      FinalOnlyAtEnd(q, evs[1..]);
      assert forall i :: 1 <= i < |evs| ==> evs[i] == evs[1..][i - 1];
    }
  }

  /** A round that found a path reports it and builds the next residual
      network: the log is back in the Building phase. */
  lemma RunNextRound(evs: seq<Event>, found: Event, vertices: seq<VId>, rs: seq<Edge>)
    requires Run(Start, evs) == Some(Building) && found.PathFound?
    ensures Run(Start, evs + [found] + ([InitResidual(vertices)] + AddEdgeEvents(rs))) == Some(Building)
  {
    RunAppend(Start, evs, [found]);
    RunAppend(Start, evs + [found], [InitResidual(vertices)] + AddEdgeEvents(rs));
    RunResidualBuild(vertices, rs);
  }

  /** The final report completes the log. */
  lemma RunFinish(evs: seq<Event>, edges: seq<Edge>, maxFlow: int)
    requires Run(Start, evs) == Some(Building)
    ensures Complete(evs + [Final(edges, maxFlow)])
  {
    RunAppend(Start, evs, [Final(edges, maxFlow)]);
  }
}

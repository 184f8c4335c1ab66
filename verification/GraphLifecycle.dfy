/** The hosted graph runtime: the seven-state lifecycle machine behind one lock.
  *
  * Every critical section of the source is one method of `GraphRuntime`, written with the same
  * sequence of checked transitions. `After` says in one table what each section amounts to, and
  * the run theorems below are about `After`. A section that raises leaves the state it had
  * reached, so an error is a verdict beside the new state.
  */
module GraphLifecycle {
  import opened Wrappers

  type JobId = string

  datatype Lifecycle = Uninitialized | Initializing | Ready | Rebuilding | Failed | ShuttingDown | Stopped

  /** The validated transition table. */
  function Successors(s: Lifecycle): set<Lifecycle> {
    match s
    case Uninitialized => {Initializing, Rebuilding, ShuttingDown}
    case Initializing => {Ready, Failed, ShuttingDown}
    case Ready => {Rebuilding, ShuttingDown}
    case Rebuilding => {Ready, Failed, ShuttingDown}
    case Failed => {Initializing, Rebuilding, ShuttingDown}
    case ShuttingDown => {Stopped}
    case Stopped => {Uninitialized}
  }

  /** The shared state guarded by the graph lock. */
  datatype Runtime<G> = Runtime(graph: Option<G>, lifecycle: Lifecycle, lastJob: Option<JobId>)

  /** What the startup providers do when asked: they raise, or return a graph. Either way the
    * startup path may already have recorded the job id it read from the job history. */
  datatype Startup<G> =
    | StartupRaised(job: Option<JobId>)
    | StartupLoaded(graph: Option<G>, job: Option<JobId>)

  /** The optional compare-and-set guard of a publication. */
  datatype Expected = Unset | Exactly(job: Option<JobId>)

  datatype Op<G> =
    | GetGraph(startup: Startup<G>)
    | Publish(newGraph: G, job: Option<JobId>, expected: Expected)
    | BeginRebuild
    | CompleteRebuild(succeeded: bool)
    | BeginShutdown

  datatype Verdict = Done | Declined | StartupFailed | NoGraph | IllegalMove

  predicate Shut(s: Lifecycle) {
    s == ShuttingDown || s == Stopped
  }

  function OrElse<T>(a: Option<T>, b: Option<T>): Option<T> {
    if a.Some? then a else b
  }

  function Recorded(job: Option<JobId>, last: Option<JobId>): Option<JobId> {
    if job.Some? && job.value != "" then job else last
  }

  predicate Mismatch(expected: Expected, last: Option<JobId>) {
    expected.Exactly? && expected.job != last
  }

  /** The net effect and verdict of one critical section. */
  function After<G>(r: Runtime<G>, op: Op<G>): (Runtime<G>, Verdict) {
    match op
    case GetGraph(startup) =>
      if r.graph.Some? then (r, Done)
      else if r.lifecycle == Ready || r.lifecycle == Rebuilding then (r, IllegalMove)
      else
        var last := OrElse(startup.job, r.lastJob);
        if startup.StartupRaised? then (Runtime(None, Failed, last), StartupFailed)
        else (Runtime(startup.graph, Ready, last), if startup.graph.Some? then Done else NoGraph)
    case Publish(g, job, expected) =>
      if Shut(r.lifecycle) || Mismatch(expected, r.lastJob) then (r, Declined)
      else
        (Runtime(Some(g), if r.lifecycle == Rebuilding then Rebuilding else Ready, Recorded(job, r.lastJob)), Done)
    case BeginRebuild =>
      if r.lifecycle == Initializing then (r, IllegalMove) else (r.(lifecycle := Rebuilding), Done)
    case CompleteRebuild(succeeded) =>
      if r.lifecycle != Rebuilding then (r, Declined)
      else (r.(lifecycle := if succeeded then Ready else Failed), Done)
    case BeginShutdown =>
      (r.(lifecycle := Stopped), Done)
  }

  /** The same table by target: where each state can be entered from. */
  lemma MovesByTarget(s: Lifecycle)
    ensures Uninitialized in Successors(s) <==> s == Stopped
    ensures Initializing in Successors(s) <==> s == Uninitialized || s == Failed
    ensures Ready in Successors(s) <==> s == Initializing || s == Rebuilding
    ensures Rebuilding in Successors(s) <==> s == Uninitialized || s == Ready || s == Failed
    ensures Failed in Successors(s) <==> s == Initializing || s == Rebuilding
    ensures ShuttingDown in Successors(s) <==> s != ShuttingDown && s != Stopped
    ensures Stopped in Successors(s) <==> s == ShuttingDown
  {
  }

  class GraphRuntime<G(==)> {
    var graph: Option<G>
    var lifecycle: Lifecycle
    var lastJob: Option<JobId>

    constructor ()
      ensures View() == Runtime(None, Uninitialized, None)
    {
      graph, lifecycle, lastJob := None, Uninitialized, None;
    }

    function View(): (r: Runtime<G>)
      reads this
    {
      Runtime(graph, lifecycle, lastJob)
    }

    /** The single place where the lifecycle changes; `ok` is false where the source raises. */
    method TransitionTo(next: Lifecycle) returns (ok: bool)
      modifies this`lifecycle
      ensures ok <==> next == old(lifecycle) || next in Successors(old(lifecycle))
      ensures lifecycle == if ok then next else old(lifecycle)
    {
      if lifecycle == next {
        return true;
      }
      if next !in Successors(lifecycle) {
        return false;
      }
      lifecycle := next;
      return true;
    }

    /** Completes a shutdown in progress by advancing to UNINITIALIZED; never refused. */
    method NormalizeShutdown()
      modifies this`lifecycle
      ensures lifecycle == if Shut(old(lifecycle)) then Uninitialized else old(lifecycle)
    {
      var ok := true;
      if lifecycle == ShuttingDown {
        ok := TransitionTo(Stopped);
      }
      if lifecycle == Stopped {
        ok := TransitionTo(Uninitialized);
      }
      assert ok;
    }

    method GetGraphWithStartupSource(startup: Startup<G>) returns (verdict: Verdict)
      modifies this
      ensures (View(), verdict) == After(old(View()), GetGraph(startup))
      ensures old(graph).Some? ==> View() == old(View()) && verdict == Done
      ensures old(graph).None? && (old(lifecycle) == Ready || old(lifecycle) == Rebuilding) ==>
        View() == old(View()) && verdict == IllegalMove
      ensures old(graph).None? && old(lifecycle) != Ready && old(lifecycle) != Rebuilding ==>
        && lastJob == (if startup.job.Some? then startup.job else old(lastJob))
        && (startup.StartupRaised? ==> graph == None && lifecycle == Failed && verdict == StartupFailed)
        && (startup.StartupLoaded? ==>
              graph == startup.graph && lifecycle == Ready && verdict == if graph.Some? then Done else NoGraph)
    {
      if graph.None? {
        NormalizeShutdown();
        var ok := TransitionTo(Initializing);
        if !ok {
          return IllegalMove;
        }
        if startup.job.Some? {
          lastJob := startup.job;
        }
        if startup.StartupRaised? {
          ok := TransitionTo(Failed);
          return StartupFailed;
        }
        graph := startup.graph;
        ok := TransitionTo(Ready);
      }
      return if graph.None? then NoGraph else Done;
    }

    method SynchronizeRuntimeGraph(g: G, job: Option<JobId>, expected: Expected) returns (verdict: Verdict)
      modifies this
      ensures (View(), verdict) == After(old(View()), Publish(g, job, expected))
      ensures
        if old(lifecycle) == ShuttingDown || old(lifecycle) == Stopped
           || (expected.Exactly? && expected.job != old(lastJob))
        then View() == old(View()) && verdict == Declined
        else
          && graph == Some(g) && verdict == Done
          && lifecycle == (if old(lifecycle) == Rebuilding then Rebuilding else Ready)
          && lastJob == if job.None? || job.value == "" then old(lastJob) else job
    {
      if lifecycle == ShuttingDown || lifecycle == Stopped {
        return Declined;
      }
      if expected.Exactly? && lastJob != expected.job {
        return Declined;
      }
      var preserveRebuild := lifecycle == Rebuilding;
      var ok := true;
      if lifecycle == Uninitialized || lifecycle == Failed {
        ok := TransitionTo(Initializing);
      }
      graph := Some(g);
      if job.Some? && job.value != "" {
        lastJob := job;
      }
      if !preserveRebuild {
        ok := TransitionTo(Ready);
      }
      return if ok then Done else IllegalMove;
    }

    method StartRebuild() returns (verdict: Verdict)
      modifies this
      ensures (View(), verdict) == After(old(View()), BeginRebuild)
      ensures graph == old(graph) && lastJob == old(lastJob)
      ensures
        if old(lifecycle) == Initializing then lifecycle == Initializing && verdict == IllegalMove
        else lifecycle == Rebuilding && verdict == Done
    {
      NormalizeShutdown();
      var ok := true;
      if lifecycle == Uninitialized || lifecycle == Failed {
        ok := TransitionTo(Initializing);
        ok := TransitionTo(Ready);
      }
      ok := TransitionTo(Rebuilding);
      return if ok then Done else IllegalMove;
    }

    method FinishRebuild(succeeded: bool) returns (verdict: Verdict)
      modifies this
      ensures (View(), verdict) == After(old(View()), CompleteRebuild(succeeded))
      ensures graph == old(graph) && lastJob == old(lastJob)
      ensures
        if old(lifecycle) != Rebuilding then lifecycle == old(lifecycle) && verdict == Declined
        else lifecycle == (if succeeded then Ready else Failed) && verdict == Done
    {
      if lifecycle != Rebuilding {
        return Declined;
      }
      var ok := TransitionTo(if succeeded then Ready else Failed);
      return if ok then Done else IllegalMove;
    }

    method Shutdown() returns (verdict: Verdict)
      modifies this
      ensures (View(), verdict) == After(old(View()), BeginShutdown)
      ensures graph == old(graph) && lastJob == old(lastJob) && lifecycle == Stopped && verdict == Done
    {
      if lifecycle == Stopped {
        return Done;
      }
      var ok := true;
      if lifecycle != ShuttingDown {
        ok := TransitionTo(ShuttingDown);
      }
      ok := TransitionTo(Stopped);
      return if ok then Done else IllegalMove;
    }
  }

  // ---- Whole runs ----

  /** What every reader that takes the lock may rely on: no transient state is visible, and a
    * READY or REBUILDING runtime holds a graph. */
  predicate Sound<G>(r: Runtime<G>) {
    && r.lifecycle != Initializing
    && r.lifecycle != ShuttingDown
    && (r.lifecycle == Ready || r.lifecycle == Rebuilding ==> r.graph.Some?)
  }

  predicate Failure(v: Verdict) {
    v == IllegalMove || v == NoGraph
  }

  /** The two caller obligations the code does not check itself: a rebuild begins with a graph
    * present, and a startup provider that returns, returns a graph. */
  predicate Admissible<G>(r: Runtime<G>, op: Op<G>) {
    match op
    case BeginRebuild => r.graph.Some?
    case GetGraph(StartupLoaded(g, _)) => r.graph.Some? || g.Some?
    case _ => true
  }

  lemma StepSafeExactlyWhenAdmissible<G>(r: Runtime<G>, op: Op<G>)
    requires Sound(r)
    ensures Sound(After(r, op).0) && !Failure(After(r, op).1) <==> Admissible(r, op)
  {
    match op
    case GetGraph(startup) =>
      match startup {
        case StartupRaised(_) =>
        case StartupLoaded(_, _) =>
      }
    case _ =>
  }

  predicate AllAdmissible<G>(r: Runtime<G>, ops: seq<Op<G>>)
    decreases |ops|
  {
    ops == [] || (Admissible(r, ops[0]) && AllAdmissible(After(r, ops[0]).0, ops[1..]))
  }

  predicate AllSafe<G>(r: Runtime<G>, ops: seq<Op<G>>)
    decreases |ops|
  {
    && Sound(r)
    && (ops == [] || (!Failure(After(r, ops[0]).1) && AllSafe(After(r, ops[0]).0, ops[1..])))
  }

  function Run<G>(r: Runtime<G>, ops: seq<Op<G>>): Runtime<G>
    decreases |ops|
  {
    if ops == [] then r else Run(After(r, ops[0]).0, ops[1..])
  }

  /** Every state of a run is sound, and no section fails, exactly when every operation met its
    * obligation. */
  lemma {:induction false} RunSafeExactlyWhenAdmissible<G>(r: Runtime<G>, ops: seq<Op<G>>)
    requires Sound(r)
    ensures AllSafe(r, ops) <==> AllAdmissible(r, ops)
    decreases |ops|
  {
    if ops != [] {
      StepSafeExactlyWhenAdmissible(r, ops[0]);
      var next := After(r, ops[0]).0;
      if Sound(next) {
        RunSafeExactlyWhenAdmissible(next, ops[1..]);
      }
    }
  }

  /** Operations that leave a stopped runtime alone: all but a new rebuild request, and a graph
    * request that finds no graph and so consults the startup providers again. */
  predicate KeepsStopped<G>(r: Runtime<G>, op: Op<G>) {
    !op.BeginRebuild? && (op.GetGraph? ==> r.graph.Some?)
  }

  /** Shutdown reaches STOPPED from every state, with a graph or without one, and then no
    * publication, late rebuild completion or second shutdown changes the runtime, nor does a graph
    * request that finds the graph. */
  lemma {:induction false} ShutdownIsFinal<G>(r: Runtime<G>, ops: seq<Op<G>>)
    requires forall i :: 0 <= i < |ops| ==> KeepsStopped(r, ops[i])
    ensures After(r, BeginShutdown) == (r.(lifecycle := Stopped), Done)
    ensures Run(r.(lifecycle := Stopped), ops) == r.(lifecycle := Stopped)
    decreases |ops|
  {
    if ops != [] {
      var s := r.(lifecycle := Stopped);
      assert KeepsStopped(r, ops[0]);
      assert After(s, ops[0]).0 == s;
      ShutdownIsFinal(r, ops[1..]);
    }
  }

  /** A rebuild requested before any graph exists and then rejected for contention leaves READY
    * without a graph; from there every graph request fails, whatever the providers would return,
    * until some publication succeeds. */
  lemma {:induction false} ContentionWithoutGraphWedges<G>(startup: Startup<G>, g: G)
    ensures
      var start := Runtime<G>.Runtime(None, Uninitialized, None);
      var wedged := Run(start, [BeginRebuild, CompleteRebuild(true)]);
      && wedged == Runtime<G>.Runtime(None, Ready, None)
      && After(wedged, GetGraph(startup)) == (wedged, IllegalMove)
      && After(wedged, Publish(g, None, Unset)).0.graph == Some(g)
  {
    var start := Runtime<G>.Runtime(None, Uninitialized, None);
    var ops: seq<Op<G>> := [BeginRebuild, CompleteRebuild(true)];
    assert ops[1..] == [CompleteRebuild(true)];
    assert ops[1..][1..] == [];
    var mid := After(start, ops[0]).0;
    assert Run(mid, ops[1..]) == Run(After(mid, ops[1..][0]).0, ops[1..][1..]);
  }
}

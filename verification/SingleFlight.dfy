/** The rebuild endpoint on one event loop: requests, the worker's future and its callbacks.
  *
  * Code between two suspension points of a request runs without interruption, so each such
  * segment is one step: the claim up to the shielded wait, the done callback, and the resumed
  * handler down to the release of the lock. The worker thread and every other user of the graph
  * runtime interleave with them. Request cancellation is not part of this model.
  */
module SingleFlight {
  import opened Wrappers
  import opened GraphLifecycle

  type RequestId = nat

  /** How the submitted work ended. */
  datatype Outcome = Succeeded | Contended | Broke

  /** The lifecycle and the loop's lock, which is all the segments below touch. */
  datatype Gate<G> = Gate(runtime: Runtime<G>, lockHeld: bool)

  predicate Busy<G>(g: Gate<G>) {
    g.runtime.lifecycle == Rebuilding || g.lockHeld
  }

  function Finish<G>(r: Runtime<G>, succeeded: bool): Runtime<G> {
    After(r, CompleteRebuild(succeeded)).0
  }

  /** Lock contention counts as success for the lifecycle: the graph is as good as before. */
  predicate LeavesReady(outcome: Outcome) {
    outcome != Broke
  }

  class RebuildEndpoint<G(==)> {
    const graphRuntime: GraphRuntime<G>
    var lockHeld: bool

    constructor (runtime: GraphRuntime<G>)
      ensures graphRuntime == runtime && !lockHeld
    {
      graphRuntime, lockHeld := runtime, false;
    }

    function View(): (g: Gate<G>)
      reads this, graphRuntime
    {
      Gate(graphRuntime.View(), lockHeld)
    }

    /** Claim, lock acquisition and submission; `submitted` is false where the executor refuses. */
    method Start(submitFails: bool) returns (accepted: bool, submitted: bool)
      modifies this, graphRuntime
      ensures accepted <==> old(graphRuntime.lifecycle) != Rebuilding && !old(lockHeld)
      ensures graphRuntime.graph == old(graphRuntime.graph) && graphRuntime.lastJob == old(graphRuntime.lastJob)
      ensures accepted && old(graphRuntime.lifecycle) != Initializing ==>
        && graphRuntime.lifecycle == (if submitFails then Failed else Rebuilding)
        && lockHeld == !submitFails
      ensures !accepted ==> View() == old(View()) && !submitted
      ensures accepted ==>
        var begun := After(old(View()).runtime, BeginRebuild).0;
        && submitted == !submitFails
        && View() == if submitFails then Gate(Finish(begun, false), false) else Gate(begun, true)
    {
      if graphRuntime.lifecycle == Rebuilding || lockHeld {
        return false, false;
      }
      var verdict := graphRuntime.StartRebuild();
      lockHeld := true;
      if submitFails {
        verdict := graphRuntime.FinishRebuild(false);
        verdict := graphRuntime.FinishRebuild(false);
        lockHeld := false;
        return true, false;
      }
      return true, true;
    }

    /** The future's done callback. */
    method OnDone(outcome: Outcome)
      modifies graphRuntime
      ensures View() == Gate(Finish(old(View()).runtime, LeavesReady(outcome)), old(lockHeld))
      ensures graphRuntime.graph == old(graphRuntime.graph) && graphRuntime.lastJob == old(graphRuntime.lastJob)
      ensures graphRuntime.lifecycle ==
        if old(graphRuntime.lifecycle) != Rebuilding then old(graphRuntime.lifecycle)
        else match outcome
          case Succeeded => Ready
          case Contended => Ready
          case Broke => Failed
    {
      var verdict := graphRuntime.FinishRebuild(outcome != Broke);
    }

    /** The resumed request: the except branches finalise again, and the finally block releases. */
    method Resume(outcome: Outcome)
      modifies this, graphRuntime
      ensures View() == Gate(
        if outcome == Succeeded then old(View()).runtime else Finish(old(View()).runtime, LeavesReady(outcome)),
        false)
      ensures graphRuntime.graph == old(graphRuntime.graph) && graphRuntime.lastJob == old(graphRuntime.lastJob)
      ensures graphRuntime.lifecycle ==
        if old(graphRuntime.lifecycle) != Rebuilding then old(graphRuntime.lifecycle)
        else match outcome
          case Succeeded => Rebuilding
          case Contended => Ready
          case Broke => Failed
    {
      var verdict := Done;
      if outcome == Contended {
        verdict := graphRuntime.FinishRebuild(true);
      } else if outcome == Broke {
        verdict := graphRuntime.FinishRebuild(false);
      }
      lockHeld := false;
    }
  }

  // ---- The step system ----

  datatype Flight = Running | Completed(outcome: Outcome) | Finalized(outcome: Outcome)

  /** What happened on behalf of one accepted request: the effective moves out of REBUILDING that
    * its finalisations made, whether a shutdown came before its callback, and how it ended. */
  datatype Record = Record(moves: seq<Lifecycle>, interrupted: bool, ended: Option<Outcome>)

  datatype Server<G> = Server(gate: Gate<G>, flights: map<RequestId, Flight>, records: map<RequestId, Record>)

  datatype Event<G> =
    | Request(id: RequestId, submitFails: bool)
    | WorkDone(id: RequestId, outcome: Outcome)
    | Callback(id: RequestId)
    | Resumed(id: RequestId)
    | Elsewhere(op: Op<G>)

  predicate Enabled<G>(s: Server<G>, e: Event<G>) {
    match e
    case Request(id, _) => id !in s.records
    case WorkDone(id, _) => id in s.flights && s.flights[id] == Running
    case Callback(id) => id in s.flights && s.flights[id].Completed? && id in s.records
    case Resumed(id) => id in s.flights && s.flights[id].Finalized? && id in s.records
    case Elsewhere(op) => op.GetGraph? || op.Publish? || op.BeginShutdown?
  }

  /** One call of mark_idle on behalf of `id`: recorded when it is what ends REBUILDING. */
  function MarkIdle<G>(s: Server<G>, id: RequestId, succeeded: bool): Server<G>
    requires id in s.records
  {
    var moved := Finish(s.gate.runtime, succeeded);
    if s.gate.runtime.lifecycle != Rebuilding then s
    else
      s.(gate := s.gate.(runtime := moved),
         records := s.records[id := s.records[id].(moves := s.records[id].moves + [moved.lifecycle])])
  }

  function Release<G>(s: Server<G>, id: RequestId, outcome: Outcome): Server<G>
    requires id in s.records
  {
    s.(gate := s.gate.(lockHeld := false), flights := s.flights - {id},
       records := s.records[id := s.records[id].(ended := Some(outcome))])
  }

  predicate Unfinalized<G>(s: Server<G>, id: RequestId) {
    id in s.flights && !s.flights[id].Finalized?
  }

  function Next<G>(s: Server<G>, e: Event<G>): Server<G>
    requires Enabled(s, e)
  {
    match e
    case Request(id, submitFails) =>
      if Busy(s.gate) then s
      else
        var begun := s.(gate := Gate(After(s.gate.runtime, BeginRebuild).0, true),
                        records := s.records[id := Record([], false, None)]);
        if submitFails then Release(MarkIdle(MarkIdle(begun, id, false), id, false), id, Broke)
        else begun.(flights := s.flights[id := Running])
    case WorkDone(id, outcome) => s.(flights := s.flights[id := Completed(outcome)])
    case Callback(id) =>
      var outcome := s.flights[id].outcome;
      MarkIdle(s, id, LeavesReady(outcome)).(flights := s.flights[id := Finalized(outcome)])
    case Resumed(id) =>
      var outcome := s.flights[id].outcome;
      Release(if outcome == Succeeded then s else MarkIdle(s, id, LeavesReady(outcome)), id, outcome)
    case Elsewhere(op) =>
      s.(gate := s.gate.(runtime := After(s.gate.runtime, op).0),
         records := map id | id in s.records ::
           if op.BeginShutdown? && Unfinalized(s, id) then s.records[id].(interrupted := true) else s.records[id])
  }

  /** What a request's finalisations should amount to. */
  function Due(record: Record, outcome: Outcome): seq<Lifecycle> {
    if record.interrupted then [] else [if LeavesReady(outcome) then Ready else Failed]
  }

  ghost predicate FlightConsistent<G>(s: Server<G>, id: RequestId)
    requires id in s.flights && id in s.records
  {
    && s.records[id].ended == None
    && (if s.flights[id].Finalized?
        then s.gate.runtime.lifecycle != Rebuilding && s.records[id].moves == Due(s.records[id], s.flights[id].outcome)
        else s.records[id].moves == [] && (s.records[id].interrupted <==> s.gate.runtime.lifecycle != Rebuilding))
  }

  ghost predicate Inv<G>(s: Server<G>) {
    && s.gate.runtime.lifecycle != Initializing
    && s.flights.Keys <= s.records.Keys
    && (forall a, b :: a in s.flights && b in s.flights ==> a == b)
    && (s.gate.lockHeld <==> s.flights != map[])
    && (s.flights == map[] ==> s.gate.runtime.lifecycle != Rebuilding)
    && (forall id :: id in s.flights ==> FlightConsistent(s, id))
    && (forall id :: id in s.records ==> (id in s.flights <==> s.records[id].ended == None))
    && (forall id :: id in s.records && s.records[id].ended.Some? ==>
          s.records[id].moves == Due(s.records[id], s.records[id].ended.value))
  }

  lemma MarkIdleKeeps<G>(s: Server<G>, id: RequestId, succeeded: bool)
    requires id in s.records
    ensures
      var t := MarkIdle(s, id, succeeded);
      && t.flights == s.flights && t.records.Keys == s.records.Keys && t.gate.lockHeld == s.gate.lockHeld
      && t.gate.runtime.lifecycle != Rebuilding
      && (forall other :: other in s.records && other != id ==> t.records[other] == s.records[other])
      && t.records[id] ==
         if s.gate.runtime.lifecycle == Rebuilding
         then s.records[id].(moves := s.records[id].moves + [if succeeded then Ready else Failed])
         else s.records[id]
  {
  }

  lemma RequestKeepsInvariant<G>(s: Server<G>, id: RequestId, submitFails: bool)
    requires Inv(s) && id !in s.records
    ensures Inv(Next(s, Request(id, submitFails)))
  {
    if !Busy(s.gate) {
      var begun := s.(gate := Gate(After(s.gate.runtime, BeginRebuild).0, true),
                      records := s.records[id := Record([], false, None)]);
      if submitFails {
        MarkIdleKeeps(begun, id, false);
        MarkIdleKeeps(MarkIdle(begun, id, false), id, false);
        var next := Next(s, Request(id, submitFails));
        assert next.flights == s.flights == map[];
        assert next.records[id] == Record([Failed], false, Some(Broke));
      } else {
        assert id in Next(s, Request(id, submitFails)).flights;
      }
    }
  }

  lemma FlightStepKeepsInvariant<G>(s: Server<G>, e: Event<G>)
    requires Inv(s) && Enabled(s, e) && !e.Request? && !e.Elsewhere?
    ensures Inv(Next(s, e))
  {
    assert e.id in s.flights && FlightConsistent(s, e.id);
    var next := Next(s, e);
    match e
    case WorkDone(id, outcome) =>
      assert id in next.flights;
    case Callback(id) =>
      CallbackKeepsInvariant(s, id);
    case Resumed(id) =>
      MarkIdleKeeps(s, id, LeavesReady(s.flights[id].outcome));
      assert next.flights == map[];
  }

  lemma CallbackKeepsInvariant<G>(s: Server<G>, id: RequestId)
    requires Inv(s) && Enabled(s, Callback(id))
    ensures Inv(Next(s, Callback(id)))
  {
    assert id in s.flights && FlightConsistent(s, id);
    MarkIdleKeeps(s, id, LeavesReady(s.flights[id].outcome));
    assert id in Next(s, Callback(id)).flights;
  }

  lemma ElsewhereKeepsInvariant<G>(s: Server<G>, op: Op<G>)
    requires Inv(s) && Enabled(s, Elsewhere(op))
    ensures Inv(Next(s, Elsewhere(op)))
  {
    var next := Next(s, Elsewhere(op));
    assert next.flights == s.flights && next.records.Keys == s.records.Keys;
    forall id | id in s.flights
      ensures FlightConsistent(next, id)
    {
      assert FlightConsistent(s, id);
    }
  }

  lemma StepKeepsInvariant<G>(s: Server<G>, e: Event<G>)
    requires Inv(s) && Enabled(s, e)
    ensures Inv(Next(s, e))
  {
    match e
    case Request(id, submitFails) => RequestKeepsInvariant(s, id, submitFails);
    case Elsewhere(op) => ElsewhereKeepsInvariant(s, op);
    case _ => FlightStepKeepsInvariant(s, e);
  }

  ghost predicate IsRun<G>(states: seq<Server<G>>, events: seq<Event<G>>) {
    && |states| == |events| + 1
    && forall i :: 0 <= i < |events| ==> Enabled(states[i], events[i]) && states[i + 1] == Next(states[i], events[i])
  }

  function Idle<G>(r: Runtime<G>): Server<G> {
    Server(Gate(r, false), map[], map[])
  }

  lemma {:induction false} RunsKeepInvariant<G>(states: seq<Server<G>>, events: seq<Event<G>>, i: nat)
    requires IsRun(states, events) && i <= |events|
    requires Inv(states[0])
    ensures Inv(states[i])
  {
    if i > 0 {
      RunsKeepInvariant(states, events, i - 1);
      assert Enabled(states[i - 1], events[i - 1]);
      StepKeepsInvariant(states[i - 1], events[i - 1]);
    }
  }

  /** In every run at most one request is between claim and release, a request arriving meanwhile
    * changes nothing, and every released request was finalised exactly once: to READY iff its
    * work succeeded or met lock contention, to FAILED otherwise, and not at all only when a
    * shutdown came first. */
  lemma SingleFlightAndOneFinalization<G>(states: seq<Server<G>>, events: seq<Event<G>>, i: nat)
    requires IsRun(states, events) && i <= |events|
    requires states[0] == Idle(states[0].gate.runtime)
    requires states[0].gate.runtime.lifecycle != Initializing && states[0].gate.runtime.lifecycle != Rebuilding
    ensures forall a, b :: a in states[i].flights && b in states[i].flights ==> a == b
    ensures forall id, f :: states[i].flights != map[] && id !in states[i].records ==>
      Next(states[i], Request(id, f)) == states[i]
    ensures forall id :: id in states[i].records && states[i].records[id].ended.Some? ==>
      var record := states[i].records[id];
      && (record.interrupted ==> record.moves == [])
      && (!record.interrupted && record.ended == Some(Succeeded) ==> record.moves == [Ready])
      && (!record.interrupted && record.ended == Some(Contended) ==> record.moves == [Ready])
      && (!record.interrupted && record.ended == Some(Broke) ==> record.moves == [Failed])
  {
    RunsKeepInvariant(states, events, i);
  }

  /** The lock check of the claim is needed: between the done callback and the resumed handler the
    * lifecycle already says idle, and only the lock still turns a new request away. */
  lemma LifecycleAloneWouldAdmit<G>(s: Server<G>, id: RequestId, other: RequestId)
    requires Inv(s) && id in s.flights && s.flights[id].Finalized? && other !in s.records
    ensures s.gate.runtime.lifecycle != Rebuilding && Next(s, Request(other, false)) == s
  {
    assert FlightConsistent(s, id);
  }
}

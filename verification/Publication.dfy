/** The guarded publication transaction: one domain session and one coordination session, which
  * may be the same object, held together until the domain commit.
  *
  * A script fixes which calls into the database raise and from which check on the heartbeat's two
  * flags are seen set; the flags are never cleared. `FirstError` reads the outcome off the ordered
  * list of points, and the methods are proved to stop at exactly that point with exactly the
  * durable state that follows.
  */
module Publication {
  import opened Wrappers
  import opened GraphLifecycle

  datatype Call =
    | OpenDomain | OpenCoordination | SetIsolation | GuardAtStart | Prepare | StageGraph
    | GuardPreSuccess | MarkSucceeded | PersistProjection | InsertPublication | GuardPreCommit
    | DomainCommit | CoordinationCommit | CoordinationRollback

  /** The four looks at the flags, in order. */
  datatype Point = Invoke(call: Call) | Check(index: nat)

  datatype Error = Raised(call: Call) | LockLost(index: nat) | Cancelled(index: nat) | RuntimeRejected

  datatype LockInputs = LockInputs(holder: Option<string>, ttl: Option<int>)

  /** `lostFrom` and `cancelledFrom` are the first checks that see the flag set. */
  datatype Script = Script(
    raises: set<Call>,
    lostFrom: Option<nat>,
    cancelledFrom: Option<nat>,
    lock: LockInputs,
    shared: bool)

  datatype Change<G> = LeaseRenewed | GraphStaged(graph: G) | JobSucceeded | ProjectionStored | Published

  predicate Seen(from: Option<nat>, index: nat) {
    from.Some? && from.value <= index
  }

  predicate IsGuard(c: Call) {
    c == GuardAtStart || c == GuardPreSuccess || c == GuardPreCommit
  }

  predicate Guarded(lock: LockInputs) {
    lock.holder.Some? && lock.ttl.Some?
  }

  predicate Mismatched(lock: LockInputs) {
    lock.holder.Some? != lock.ttl.Some?
  }

  /** Whether one call raises. A guard without lock inputs does nothing; with one input missing it
    * always raises; a shared coordination session is never opened or committed separately. */
  predicate Fails(s: Script, c: Call) {
    if IsGuard(c) then Mismatched(s.lock) || (Guarded(s.lock) && c in s.raises)
    else if c == OpenCoordination || c == CoordinationCommit || c == CoordinationRollback then !s.shared && c in s.raises
    else c in s.raises
  }

  function CheckError(s: Script, index: nat): Option<Error> {
    if Seen(s.lostFrom, index) then Some(LockLost(index))
    else if Seen(s.cancelledFrom, index) then Some(Cancelled(index))
    else None
  }

  function PointError(s: Script, p: Point): Option<Error> {
    match p
    case Invoke(c) => if Fails(s, c) then Some(Raised(c)) else None
    case Check(i) => CheckError(s, i)
  }

  function FirstError(s: Script, points: seq<Point>): Option<Error> {
    if points == [] then None
    else if PointError(s, points[0]).Some? then PointError(s, points[0])
    else FirstError(s, points[1..])
  }

  const BODY: seq<Point> :=
    [Invoke(GuardAtStart), Invoke(Prepare), Invoke(StageGraph), Invoke(GuardPreSuccess), Check(1),
     Invoke(MarkSucceeded), Invoke(PersistProjection), Invoke(InsertPublication), Invoke(GuardPreCommit), Check(2)]

  const OPENING: seq<Point> := [Check(0), Invoke(OpenDomain), Invoke(OpenCoordination), Invoke(SetIsolation)]

  const CLOSING: seq<Point> := [Check(3), Invoke(DomainCommit)]

  /** Every point that must pass before the publication is durable, in order. */
  const ORDER: seq<Point> := OPENING + BODY + CLOSING

  function Renewal<G>(lock: LockInputs): seq<Change<G>> {
    if Guarded(lock) then [LeaseRenewed] else []
  }

  class Database<G> {
    var durable: seq<Change<G>>
    var openSessions: int

    constructor ()
      ensures durable == [] && openSessions == 0
    {
      durable, openSessions := [], 0;
    }
  }

  class Session<G> {
    const db: Database<G>
    var pending: seq<Change<G>>

    constructor (db: Database<G>)
      modifies db
      ensures this.db == db && pending == []
      ensures db.openSessions == old(db.openSessions) + 1 && db.durable == old(db.durable)
    {
      this.db, pending := db, [];
      new;
      db.openSessions := db.openSessions + 1;
    }

    method Write(c: Change<G>)
      modifies this
      ensures pending == old(pending) + [c]
    {
      pending := pending + [c];
    }

    /** A commit that raises makes nothing durable. */
    method Commit(fails: bool) returns (raised: bool)
      modifies this, db
      ensures raised == fails && db.openSessions == old(db.openSessions)
      ensures db.durable == old(db.durable) + if fails then [] else old(pending)
    {
      if !fails {
        db.durable := db.durable + pending;
        pending := [];
      }
      raised := fails;
    }

    method Rollback()
      modifies this
      ensures pending == []
    {
      pending := [];
    }

    method Close()
      modifies this, db
      ensures db.openSessions == old(db.openSessions) - 1 && db.durable == old(db.durable)
    {
      pending := [];
      db.openSessions := db.openSessions - 1;
    }
  }

  /** One wake-up of the heartbeat thread. */
  datatype Beat = Healthy | RefreshRefused | RefreshRaised | HeartbeatRaised | CancelRequested

  /** The keeper loop until it is stopped. At most one flag is ever set, on the first wake-up that
    * is not healthy, and no later wake-up is served. */
  method HeartbeatKeeper(beats: seq<Beat>) returns (lost: bool, cancelled: bool, served: nat)
    ensures served <= |beats| && forall i :: 0 <= i < served ==> beats[i] == Healthy
    ensures !lost && !cancelled <==> served == |beats|
    ensures lost <==> served < |beats| && beats[served] != Healthy && beats[served] != CancelRequested
    ensures cancelled <==> served < |beats| && beats[served] == CancelRequested
  {
    lost, cancelled, served := false, false, 0;
    while served < |beats|
      invariant served <= |beats| && !lost && !cancelled
      invariant forall i :: 0 <= i < served ==> beats[i] == Healthy
    {
      match beats[served] {
        case Healthy =>
        case CancelRequested =>
          cancelled := true;
          return;
        case _ =>
          lost := true;
          return;
      }
      served := served + 1;
    }
  }

  /** Validates the lock inputs and renews the lease inside the coordination transaction. */
  method GuardPublicationLock<G>(coordination: Session<G>, s: Script, call: Call) returns (error: Option<Error>)
    requires IsGuard(call)
    modifies coordination
    ensures error == PointError(s, Invoke(call))
    ensures coordination.pending == old(coordination.pending) + if error.None? then Renewal(s.lock) else []
    ensures error == Some(Raised(call)) <==>
      s.lock.holder.Some? != s.lock.ttl.Some? || (s.lock.holder.Some? && call in s.raises)
    ensures error.None? && s.lock.holder.Some? ==> coordination.pending == old(coordination.pending) + [LeaseRenewed]
    ensures s.lock.holder.None? ==> coordination.pending == old(coordination.pending)
  {
    if (s.lock.holder == None) != (s.lock.ttl == None) {
      return Some(Raised(call));
    }
    if s.lock.holder == None || s.lock.ttl == None {
      return None;
    }
    if call in s.raises {
      return Some(Raised(call));
    }
    coordination.Write(LeaseRenewed);
    return None;
  }

  lemma {:induction false} FirstErrorCons(s: Script, p: Point, rest: seq<Point>)
    ensures FirstError(s, [p] + rest) == if PointError(s, p).Some? then PointError(s, p) else FirstError(s, rest)
  {
    assert ([p] + rest)[1..] == rest;
  }

  lemma {:induction false} FirstErrorAppend(s: Script, a: seq<Point>, b: seq<Point>)
    ensures FirstError(s, a + b) == if FirstError(s, a).Some? then FirstError(s, a) else FirstError(s, b)
  {
    if a == [] {
      assert a + b == b;
    } else {
      assert a + b == [a[0]] + (a[1..] + b);
      FirstErrorCons(s, a[0], a[1..] + b);
      FirstErrorAppend(s, a[1..], b);
    }
  }

  /** The body's first half, up to the pre-success check. */
  const STAGING: seq<Point> :=
    [Invoke(GuardAtStart), Invoke(Prepare), Invoke(StageGraph), Invoke(GuardPreSuccess), Check(1)]

  const FINALIZING: seq<Point> :=
    [Invoke(MarkSucceeded), Invoke(PersistProjection), Invoke(InsertPublication), Invoke(GuardPreCommit), Check(2)]

  lemma {:induction false} FiveErrors(s: Script, a: Point, b: Point, c: Point, d: Point, e: Point)
    ensures FirstError(s, [a, b, c, d, e]) ==
      if PointError(s, a).Some? then PointError(s, a)
      else if PointError(s, b).Some? then PointError(s, b)
      else if PointError(s, c).Some? then PointError(s, c)
      else if PointError(s, d).Some? then PointError(s, d)
      else PointError(s, e)
  {
    FirstErrorCons(s, a, [b, c, d, e]);
    FirstErrorCons(s, b, [c, d, e]);
    FirstErrorCons(s, c, [d, e]);
    FirstErrorCons(s, d, [e]);
    FirstErrorCons(s, e, []);
    assert [a] + [b, c, d, e] == [a, b, c, d, e] && [b] + [c, d, e] == [b, c, d, e];
    assert [c] + [d, e] == [c, d, e] && [d] + [e] == [d, e] && [e] + [] == [e];
  }

  method StagePublication<G>(domain: Session<G>, coordination: Session<G>, s: Script, g: G) returns (error: Option<Error>)
    requires s.shared <==> domain == coordination
    modifies domain, coordination
    ensures error == FirstError(s, STAGING)
    ensures error == None ==>
      if s.shared
      then domain.pending == old(domain.pending) + Renewal(s.lock) + [GraphStaged(g)] + Renewal(s.lock)
      else
        && domain.pending == old(domain.pending) + [GraphStaged(g)]
        && coordination.pending == old(coordination.pending) + Renewal(s.lock) + Renewal(s.lock)
  {
    FiveErrors(s, STAGING[0], STAGING[1], STAGING[2], STAGING[3], STAGING[4]);
    error := GuardPublicationLock(coordination, s, GuardAtStart);
    if error.Some? { return; }
    if Prepare in s.raises { return Some(Raised(Prepare)); }
    if StageGraph in s.raises { return Some(Raised(StageGraph)); }
    domain.Write(GraphStaged(g));
    error := GuardPublicationLock(coordination, s, GuardPreSuccess);
    if error.Some? { return; }
    return CheckError(s, 1);
  }

  method FinalizeProjection<G>(domain: Session<G>, coordination: Session<G>, s: Script) returns (error: Option<Error>)
    requires s.shared <==> domain == coordination
    modifies domain, coordination
    ensures error == FirstError(s, FINALIZING)
    ensures error == None ==>
      if s.shared
      then domain.pending == old(domain.pending) + [JobSucceeded, ProjectionStored, Published] + Renewal(s.lock)
      else
        && domain.pending == old(domain.pending) + [JobSucceeded, ProjectionStored, Published]
        && coordination.pending == old(coordination.pending) + Renewal(s.lock)
  {
    FiveErrors(s, FINALIZING[0], FINALIZING[1], FINALIZING[2], FINALIZING[3], FINALIZING[4]);
    if MarkSucceeded in s.raises { return Some(Raised(MarkSucceeded)); }
    domain.Write(JobSucceeded);
    if PersistProjection in s.raises { return Some(Raised(PersistProjection)); }
    domain.Write(ProjectionStored);
    if InsertPublication in s.raises { return Some(Raised(InsertPublication)); }
    domain.Write(Published);
    error := GuardPublicationLock(coordination, s, GuardPreCommit);
    if error.Some? { return; }
    return CheckError(s, 2);
  }

  /** The body, from empty sessions: what it leaves pending when it succeeds. */
  method RunBody<G>(domain: Session<G>, coordination: Session<G>, s: Script, g: G) returns (error: Option<Error>)
    requires s.shared <==> domain == coordination
    requires domain.pending == [] && coordination.pending == []
    modifies domain, coordination
    ensures error == if FirstError(s, STAGING).Some? then FirstError(s, STAGING) else FirstError(s, FINALIZING)
    ensures error == None ==>
      && s.lock.holder.Some? == s.lock.ttl.Some?
      && domain.pending ==
         (if s.shared && s.lock.holder.Some? then
            [LeaseRenewed, GraphStaged(g), LeaseRenewed, JobSucceeded, ProjectionStored, Published, LeaseRenewed]
          else [GraphStaged(g), JobSucceeded, ProjectionStored, Published])
      && (!s.shared ==>
            coordination.pending == if s.lock.holder.Some? then [LeaseRenewed, LeaseRenewed, LeaseRenewed] else [])
  {
    hide FirstError;
    error := StagePublication(domain, coordination, s, g);
    if error.None? {
      error := FinalizeProjection(domain, coordination, s);
    }
    if error.None? {
      GuardNeedsBoth(s);
    }
  }

  lemma {:induction false} GuardNeedsBoth(s: Script)
    requires FirstError(s, STAGING).None?
    ensures s.lock.holder.Some? == s.lock.ttl.Some?
  {
    FirstErrorCons(s, Invoke(GuardAtStart), STAGING[1..]);
    assert STAGING == [Invoke(GuardAtStart)] + STAGING[1..];
  }

  /** The lease renewal of a separate coordination database is durable. */
  predicate RenewalKept(s: Script) {
    !s.shared && CoordinationCommit !in s.raises
  }

  /** The lease commit failed after the domain commit, and so did rolling it back. */
  predicate LateFailureEscapes(s: Script) {
    Fails(s, CoordinationCommit) && Fails(s, CoordinationRollback)
  }

  /** Commits the domain after one last look at the flags, then a separate lease renewal. The
    * failure of the latter is swallowed unless its rollback raises as well. */
  method CommitPublication<G>(domain: Session<G>, coordination: Session<G>, s: Script) returns (error: Option<Error>)
    requires s.shared <==> domain == coordination
    requires s.shared <==> domain.db == coordination.db
    modifies domain, coordination, domain.db, coordination.db
    ensures
      var early := FirstError(s, CLOSING);
      && error == (if early.Some? then early else if LateFailureEscapes(s) then Some(Raised(CoordinationRollback)) else None)
      && domain.db.durable == old(domain.db.durable) + (if early.None? then old(domain.pending) else [])
      && (!s.shared ==>
            coordination.db.durable ==
            old(coordination.db.durable) + (if early.None? && RenewalKept(s) then old(coordination.pending) else []))
    ensures domain.db.openSessions == old(domain.db.openSessions)
    ensures coordination.db.openSessions == old(coordination.db.openSessions)
  {
    assert CLOSING == [Check(3)] + ([Invoke(DomainCommit)] + []);
    FirstErrorCons(s, Check(3), [Invoke(DomainCommit)] + []);
    FirstErrorCons(s, Invoke(DomainCommit), []);
    error := CheckError(s, 3);
    if error.Some? { return; }
    var raised := domain.Commit(DomainCommit in s.raises);
    if raised { return Some(Raised(DomainCommit)); }
    if coordination == domain { return; }
    raised := coordination.Commit(CoordinationCommit in s.raises);
    if raised {
      if CoordinationRollback in s.raises { return Some(Raised(CoordinationRollback)); }
      coordination.Rollback();
    }
  }

  /** The error handler and the finally block: both sessions lose what they did not commit. */
  method CloseSessions<G>(domain: Session<G>, coordination: Session<G>)
    requires domain == coordination || domain.db != coordination.db
    modifies domain, coordination, domain.db, coordination.db
    ensures domain.db.durable == old(domain.db.durable) && coordination.db.durable == old(coordination.db.durable)
    ensures domain.db.openSessions == old(domain.db.openSessions) - 1
    ensures coordination.db.openSessions == old(coordination.db.openSessions) - 1
  {
    domain.Rollback();
    if coordination != domain {
      coordination.Rollback();
      coordination.Close();
    }
    domain.Close();
  }

  // ---- When the publication is durable ----

  predicate NoneFails(s: Script, points: seq<Point>) {
    forall i :: 0 <= i < |points| && points[i].Invoke? ==> !Fails(s, points[i].call)
  }

  lemma {:induction false} NoErrorExactly(s: Script, points: seq<Point>)
    requires forall i :: 0 <= i < |points| && points[i].Check? ==> points[i].index <= 3
    ensures FirstError(s, points).None? ==> NoneFails(s, points)
    ensures NoneFails(s, points) && CheckError(s, 3).None? ==> FirstError(s, points).None?
    ensures FirstError(s, points).None? && Check(3) in points ==> CheckError(s, 3).None?
  {
    if points != [] {
      assert points == [points[0]] + points[1..];
      NoErrorExactly(s, points[1..]);
      if NoneFails(s, points) && CheckError(s, 3).None? {
        assert NoneFails(s, points[1..]);
      }
    }
  }

  /** No call up to the domain commit raises, the lock inputs are both given or both missing, and no
    * flag is seen by the last check before the commit. */
  predicate Commits(s: Script) {
    && OpenDomain !in s.raises && (s.shared || OpenCoordination !in s.raises) && SetIsolation !in s.raises
    && Prepare !in s.raises && StageGraph !in s.raises && MarkSucceeded !in s.raises
    && PersistProjection !in s.raises && InsertPublication !in s.raises && DomainCommit !in s.raises
    && s.lock.holder.Some? == s.lock.ttl.Some?
    && (s.lock.holder.Some? ==>
          GuardAtStart !in s.raises && GuardPreSuccess !in s.raises && GuardPreCommit !in s.raises)
    && (s.lostFrom.Some? ==> s.lostFrom.value > 3) && (s.cancelledFrom.Some? ==> s.cancelledFrom.value > 3)
  }

  /** Every point before the publication is durable, in the order of the source. */
  lemma OrderIsComplete()
    ensures ORDER == [
      Check(0), Invoke(OpenDomain), Invoke(OpenCoordination), Invoke(SetIsolation),
      Invoke(GuardAtStart), Invoke(Prepare), Invoke(StageGraph), Invoke(GuardPreSuccess), Check(1),
      Invoke(MarkSucceeded), Invoke(PersistProjection), Invoke(InsertPublication), Invoke(GuardPreCommit), Check(2),
      Check(3), Invoke(DomainCommit)]
    ensures ORDER == [Check(0)] + (OPENING[1..] + BODY + CLOSING)
  {
  }

  /** A lost lock is reported before a cancellation, each with the check that saw it. */
  lemma FlagReported(s: Script, i: nat)
    ensures s.lostFrom.Some? && s.lostFrom.value <= i ==> PointError(s, Check(i)) == Some(LockLost(i))
    ensures (s.lostFrom.Some? ==> i < s.lostFrom.value) && s.cancelledFrom.Some? && s.cancelledFrom.value <= i ==>
      PointError(s, Check(i)) == Some(Cancelled(i))
    ensures (s.lostFrom.Some? ==> i < s.lostFrom.value) && (s.cancelledFrom.Some? ==> i < s.cancelledFrom.value) ==>
      PointError(s, Check(i)) == None
  {
  }

  lemma CallsOfOrder(s: Script)
    ensures
      NoneFails(s, ORDER) <==>
      && !Fails(s, OpenDomain) && !Fails(s, OpenCoordination) && !Fails(s, SetIsolation) && !Fails(s, GuardAtStart)
      && !Fails(s, Prepare) && !Fails(s, StageGraph) && !Fails(s, GuardPreSuccess) && !Fails(s, MarkSucceeded)
      && !Fails(s, PersistProjection) && !Fails(s, InsertPublication) && !Fails(s, GuardPreCommit)
      && !Fails(s, DomainCommit)
  {
    hide Fails;
    assert ORDER[1] == Invoke(OpenDomain) && ORDER[2] == Invoke(OpenCoordination) && ORDER[3] == Invoke(SetIsolation);
    assert ORDER[4] == Invoke(GuardAtStart) && ORDER[5] == Invoke(Prepare) && ORDER[6] == Invoke(StageGraph);
    assert ORDER[7] == Invoke(GuardPreSuccess) && ORDER[9] == Invoke(MarkSucceeded);
    assert ORDER[10] == Invoke(PersistProjection) && ORDER[11] == Invoke(InsertPublication);
    assert ORDER[12] == Invoke(GuardPreCommit) && ORDER[15] == Invoke(DomainCommit);
  }

  lemma CommitsExactly(s: Script)
    ensures NoneFails(s, ORDER) && CheckError(s, 3).None? <==> Commits(s)
  {
    CallsOfOrder(s);
    hide NoneFails;
  }

  /** The commit is reached, and succeeds, exactly then, with the first check of the flags or without
    * it; whether the separate lease commit then fails plays no part. */
  lemma {:induction false} DurableExactlyWhen(s: Script)
    ensures FirstError(s, ORDER).None? <==> Commits(s)
    ensures FirstError(s, OPENING[1..] + BODY + CLOSING).None? <==> Commits(s)
  {
    OrderIsComplete();
    NoErrorExactly(s, ORDER);
    assert ORDER[14] == Check(3);
    CommitsExactly(s);
    FirstErrorCons(s, Check(0), OPENING[1..] + BODY + CLOSING);
    LaterPoints(s);
  }

  /** The flags are never cleared, so what passes the last check would have passed the first. */
  lemma {:induction false} LaterPoints(s: Script)
    ensures FirstError(s, OPENING[1..] + BODY + CLOSING).None? ==> CheckError(s, 0).None?
  {
    var points := OPENING[1..] + BODY + CLOSING;
    assert points[13] == Check(3);
    NoErrorExactly(s, points);
  }

  /** Runs the body in the two sessions and commits; both are closed on every path. */
  method PublicationTransaction<G>(domainDb: Database<G>, coordinationDb: Database<G>, s: Script, g: G)
    returns (error: Option<Error>)
    requires s.shared <==> domainDb == coordinationDb
    modifies domainDb, coordinationDb
    ensures error == Reported(s, FirstError(s, OPENING[1..] + BODY + CLOSING))
    ensures domainDb.durable == old(domainDb.durable) +
      if !Commits(s) then []
      else if s.shared && s.lock.holder.Some? then
        [LeaseRenewed, GraphStaged(g), LeaseRenewed, JobSucceeded, ProjectionStored, Published, LeaseRenewed]
      else [GraphStaged(g), JobSucceeded, ProjectionStored, Published]
    ensures !s.shared ==>
      coordinationDb.durable == old(coordinationDb.durable) +
        if Commits(s) && CoordinationCommit !in s.raises && s.lock.holder.Some?
        then [LeaseRenewed, LeaseRenewed, LeaseRenewed] else []
    ensures domainDb.openSessions == old(domainDb.openSessions)
    ensures coordinationDb.openSessions == old(coordinationDb.openSessions)
  {
    DurableExactlyWhen(s);
    hide FirstError, Commits;
    TransactionErrors(s);
    if OpenDomain in s.raises { return Some(Raised(OpenDomain)); }
    var domain := new Session(domainDb);
    var coordination := domain;
    if !s.shared {
      if OpenCoordination in s.raises {
        domain.Close();
        return Some(Raised(OpenCoordination));
      }
      coordination := new Session(coordinationDb);
    }
    error := if SetIsolation in s.raises then Some(Raised(SetIsolation)) else None;
    if error.None? {
      error := RunBody(domain, coordination, s, g);
    }
    if error.None? {
      error := CommitPublication(domain, coordination, s);
    }
    CloseSessions(domain, coordination);
  }

  /** What the caller of the transaction sees: its first error, or an escaped late failure. */
  function Reported(s: Script, early: Option<Error>): Option<Error> {
    if early.None? && LateFailureEscapes(s) then Some(Raised(CoordinationRollback)) else early
  }

  lemma {:induction false} TransactionErrors(s: Script)
    ensures FirstError(s, OPENING[1..] + BODY + CLOSING) ==
      if Fails(s, OpenDomain) then Some(Raised(OpenDomain))
      else if Fails(s, OpenCoordination) then Some(Raised(OpenCoordination))
      else if Fails(s, SetIsolation) then Some(Raised(SetIsolation))
      else if FirstError(s, STAGING).Some? then FirstError(s, STAGING)
      else if FirstError(s, FINALIZING).Some? then FirstError(s, FINALIZING)
      else FirstError(s, CLOSING)
  {
    var tail := STAGING + (FINALIZING + CLOSING);
    assert OPENING[1..] + BODY + CLOSING ==
      [Invoke(OpenDomain)] + ([Invoke(OpenCoordination)] + ([Invoke(SetIsolation)] + tail));
    FirstErrorCons(s, Invoke(OpenDomain), [Invoke(OpenCoordination)] + ([Invoke(SetIsolation)] + tail));
    FirstErrorCons(s, Invoke(OpenCoordination), [Invoke(SetIsolation)] + tail);
    FirstErrorCons(s, Invoke(SetIsolation), tail);
    FirstErrorAppend(s, STAGING, FINALIZING + CLOSING);
    FirstErrorAppend(s, FINALIZING, CLOSING);
  }

  /** The whole finalisation: first check, transaction, then the runtime publication of the very
    * graph that was made durable. A runtime that is shutting down rejects it after the commit. */
  method FinalizeRebuildSuccess<G(==)>(
    domainDb: Database<G>, coordinationDb: Database<G>, runtime: GraphRuntime<G>, s: Script, g: G, job: JobId)
    returns (error: Option<Error>)
    requires s.shared <==> domainDb == coordinationDb
    modifies domainDb, coordinationDb, runtime
    ensures
      var before, reported := old(runtime.View()), Reported(s, FirstError(s, ORDER));
      && error == (if reported.None? && Shut(before.lifecycle) then Some(RuntimeRejected) else reported)
      && runtime.View() == (if reported.None? then After(before, Publish(g, Some(job), Unset)).0 else before)
    ensures domainDb.openSessions == old(domainDb.openSessions)
    ensures coordinationDb.openSessions == old(coordinationDb.openSessions)
    ensures domainDb.durable == old(domainDb.durable) +
      if !Commits(s) then []
      else if s.shared && s.lock.holder.Some? then
        [LeaseRenewed, GraphStaged(g), LeaseRenewed, JobSucceeded, ProjectionStored, Published, LeaseRenewed]
      else [GraphStaged(g), JobSucceeded, ProjectionStored, Published]
    ensures !s.shared ==>
      coordinationDb.durable == old(coordinationDb.durable) +
        if Commits(s) && CoordinationCommit !in s.raises && s.lock.holder.Some?
        then [LeaseRenewed, LeaseRenewed, LeaseRenewed] else []
    ensures error == None ==> Commits(s) && runtime.graph == Some(g)
    ensures runtime.View() != old(runtime.View()) ==> Commits(s)
  {
    OrderIsComplete();
    FirstErrorCons(s, Check(0), OPENING[1..] + BODY + CLOSING);
    DurableExactlyWhen(s);
    hide FirstError, Commits, RenewalKept;
    error := CheckError(s, 0);
    if error.Some? { return; }
    error := PublicationTransaction(domainDb, coordinationDb, s, g);
    if error.Some? { return; }
    var verdict := runtime.SynchronizeRuntimeGraph(g, Some(job), Unset);
    if verdict != Done {
      error := Some(RuntimeRejected);
    }
  }

  /** No call before the runtime publication reports a rejection by the runtime. */
  lemma {:induction false} OnlyTheRuntimeRejects(s: Script, points: seq<Point>)
    ensures FirstError(s, points) != Some(RuntimeRejected)
  {
    if points != [] {
      OnlyTheRuntimeRejects(s, points[1..]);
    }
  }

  /** The pipeline's tail: the overlaid graph is made durable and published, and then the raw graph
    * is published over it. On success the runtime holds the raw graph. A runtime that is shutting
    * down rejects the publication, and stays as it was, although the overlaid graph is durable. */
  method RunPipelineTail<G(==)>(
    domainDb: Database<G>, coordinationDb: Database<G>, runtime: GraphRuntime<G>, s: Script,
    raw: G, overlaid: G, job: JobId)
    returns (error: Option<Error>)
    requires s.shared <==> domainDb == coordinationDb
    modifies domainDb, coordinationDb, runtime
    ensures
      var before, reported := old(runtime.View()), Reported(s, FirstError(s, ORDER));
      && error == (if reported.None? && Shut(before.lifecycle) then Some(RuntimeRejected) else reported)
      && (error == Some(RuntimeRejected) ==> Commits(s))
      && (error.Some? ==> runtime.View() == before)
      && (error.None? ==> Commits(s) && runtime.View() == After(before, Publish(raw, Some(job), Unset)).0)
    ensures domainDb.durable == old(domainDb.durable) +
      if !Commits(s) then []
      else if s.shared && s.lock.holder.Some? then
        [LeaseRenewed, GraphStaged(overlaid), LeaseRenewed, JobSucceeded, ProjectionStored, Published, LeaseRenewed]
      else [GraphStaged(overlaid), JobSucceeded, ProjectionStored, Published]
    ensures !s.shared ==>
      coordinationDb.durable == old(coordinationDb.durable) +
        if Commits(s) && CoordinationCommit !in s.raises && s.lock.holder.Some?
        then [LeaseRenewed, LeaseRenewed, LeaseRenewed] else []
    ensures error.None? ==> runtime.graph == Some(raw) && (runtime.graph == Some(overlaid) <==> raw == overlaid)
    ensures domainDb.openSessions == old(domainDb.openSessions)
    ensures coordinationDb.openSessions == old(coordinationDb.openSessions)
  {
    OnlyTheRuntimeRejects(s, ORDER);
    DurableExactlyWhen(s);
    hide FirstError, Commits, RenewalKept;
    error := FinalizeRebuildSuccess(domainDb, coordinationDb, runtime, s, overlaid, job);
    if error.Some? { return; }
    var verdict := runtime.SynchronizeRuntimeGraph(raw, Some(job), Unset);
  }

  /** A failing lease commit after the domain commit never changes what is durable in the domain,
    * and is reported exactly when rolling it back raises as well. */
  lemma {:induction false} LateCoordinationFailure(s: Script)
    requires !s.shared
    ensures
      var failing := s.(raises := s.raises + {CoordinationCommit});
      var quiet := s.(raises := s.raises - {CoordinationCommit});
      && FirstError(failing, ORDER) == FirstError(quiet, ORDER)
      && (Reported(failing, FirstError(failing, ORDER)) == Reported(quiet, FirstError(quiet, ORDER)) <==>
          FirstError(s, ORDER).Some? || CoordinationRollback !in s.raises)
  {
    var failing := s.(raises := s.raises + {CoordinationCommit});
    var quiet := s.(raises := s.raises - {CoordinationCommit});
    SameErrors(failing, quiet, ORDER);
    SameErrors(failing, s, ORDER);
  }

  lemma {:induction false} SameErrors(s: Script, t: Script, points: seq<Point>)
    requires forall i :: 0 <= i < |points| ==> PointError(s, points[i]) == PointError(t, points[i])
    ensures FirstError(s, points) == FirstError(t, points)
  {
    if points != [] {
      SameErrors(s, t, points[1..]);
    }
  }
}

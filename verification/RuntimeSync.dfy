/** One node's polling synchroniser and local rebuild publisher racing with other nodes' commits.
  *
  * A graph is named by its commit version: version v is the database after the first v
  * publications, and 0 is a graph that was never persisted. Each step is one critical section or
  * one database transaction; the runtime itself is the one of `GraphLifecycle`.
  */
module RuntimeSync {
  import opened Wrappers
  import opened GraphLifecycle

  type Version = nat

  /** Where `sync_with_latest_rebuild` stands between two of its sections. */
  datatype SyncLoop =
    | Idle
    | Started
    | Admitted
    | Queried(tip: Version)
    | Captured(tip: Version, expected: Option<JobId>)
    | Loaded(tip: Version, expected: Option<JobId>, graph: Version)

  /** Where the local rebuild pipeline stands. Both publications follow the durable commit. */
  datatype LocalRebuild =
    | NoRebuild
    | Waiting
    | Leased
    | Committed(version: Version)
    | PublishedOnce(version: Version)
    | Closing

  /** `commits[v - 1]` is the job that published version v; `seen` is the newest version this node
    * has read or written; `leaseLive` says that this node owns the distributed lease. */
  datatype World = World(
    commits: seq<JobId>,
    seen: Version,
    leaseLive: bool,
    runtime: Runtime<Version>,
    sync: SyncLoop,
    rebuild: LocalRebuild)

  datatype Step =
    | ForeignCommit(job: JobId)
    | LeaseLapse
    | SyncStart
    | SyncAdmit
    | SyncQuery(tip: Version)
    | SyncCapture
    | SyncLoad(graph: Version)
    | SyncPublish
    | SyncAbort
    | RebuildStart
    | LeaseAcquire
    | LocalCommit(job: JobId)
    | PublishFirst
    | PublishAgain
    | RebuildClose
    | RebuildEnd(succeeded: bool)
    | ShutDown

  function Tip(w: World): Version {
    |w.commits|
  }

  predicate Fresh(w: World, job: JobId) {
    job != "" && job !in w.commits
  }

  /** Commits need the lease; a load returns a committed version no older than anything this node
    * has read or written; a query may name any committed job. */
  predicate Enabled(w: World, step: Step) {
    match step
    case ForeignCommit(job) => !w.leaseLive && Fresh(w, job)
    case LeaseLapse => w.leaseLive
    case SyncStart => w.sync == Idle && w.runtime.lifecycle != Rebuilding
    case SyncAdmit => w.sync == Started && !Shut(w.runtime.lifecycle)
    case SyncQuery(tip) => w.sync == Admitted && 1 <= tip <= Tip(w)
    case SyncCapture => w.sync.Queried? && 1 <= w.sync.tip <= Tip(w)
    case SyncLoad(g) => w.sync.Captured? && w.seen <= g <= Tip(w)
    case SyncPublish => w.sync.Loaded? && 1 <= w.sync.tip <= Tip(w)
    case SyncAbort => true
    case RebuildStart => w.rebuild == NoRebuild
    case LeaseAcquire => w.rebuild == Waiting
    case LocalCommit(job) => w.rebuild == Leased && w.leaseLive && Fresh(w, job)
    case PublishFirst => w.rebuild.Committed? && 1 <= w.rebuild.version <= Tip(w)
    case PublishAgain => w.rebuild.PublishedOnce? && 1 <= w.rebuild.version <= Tip(w)
    case RebuildClose => w.rebuild != NoRebuild && w.rebuild != Closing
    case RebuildEnd(_) => w.rebuild == Closing
    case ShutDown => true
  }

  function Max(a: Version, b: Version): Version {
    if a < b then b else a
  }

  function Next(w: World, step: Step): World
    requires Enabled(w, step)
  {
    match step
    case ForeignCommit(job) => w.(commits := w.commits + [job])
    case LeaseLapse => w.(leaseLive := false)
    case SyncStart => w.(sync := Started)
    case SyncAdmit => w.(sync := Admitted)
    case SyncQuery(tip) => w.(sync := Queried(tip), seen := Max(w.seen, tip))
    case SyncCapture =>
      if Shut(w.runtime.lifecycle) || w.runtime.lastJob == Some(w.commits[w.sync.tip - 1]) then w.(sync := Idle)
      else w.(sync := Captured(w.sync.tip, w.runtime.lastJob))
    case SyncLoad(g) => w.(sync := Loaded(w.sync.tip, w.sync.expected, g), seen := g)
    case SyncPublish =>
      var publish := Publish(w.sync.graph, Some(w.commits[w.sync.tip - 1]), Exactly(w.sync.expected));
      w.(sync := Idle, runtime := After(w.runtime, publish).0)
    case SyncAbort => w.(sync := Idle)
    case RebuildStart => w.(rebuild := Waiting, runtime := After(w.runtime, BeginRebuild).0)
    case LeaseAcquire => w.(rebuild := Leased, leaseLive := true)
    case LocalCommit(job) =>
      w.(commits := w.commits + [job], rebuild := Committed(Tip(w) + 1), seen := Tip(w) + 1)
    case PublishFirst =>
      var v := w.rebuild.version;
      var (r, verdict) := After(w.runtime, Publish(v, Some(w.commits[v - 1]), Unset));
      if verdict == Done then w.(runtime := r, rebuild := PublishedOnce(v))
      else w.(rebuild := Closing, leaseLive := false)
    case PublishAgain =>
      var v := w.rebuild.version;
      w.(runtime := After(w.runtime, Publish(v, Some(w.commits[v - 1]), Unset)).0, rebuild := Closing,
         leaseLive := false)
    case RebuildClose => w.(rebuild := Closing, leaseLive := false)
    case RebuildEnd(succeeded) =>
      w.(rebuild := NoRebuild, runtime := After(w.runtime, CompleteRebuild(succeeded)).0)
    case ShutDown => w.(runtime := After(w.runtime, BeginShutdown).0)
  }

  /** The steps that replace the runtime graph, and by what: a local publication by its version and its
    * job unless the runtime is shut, the synchroniser's by the loaded graph and the queried job if,
    * besides, the marker is still what was captured. */
  lemma GraphChangesExactly(w: World, step: Step)
    requires Enabled(w, step)
    ensures
      var next := Next(w, step).runtime;
      if (step == PublishFirst || step == PublishAgain) && w.runtime.lifecycle !in {ShuttingDown, Stopped} then
        && next.graph == Some(w.rebuild.version)
        && (w.commits[w.rebuild.version - 1] != "" ==> next.lastJob == Some(w.commits[w.rebuild.version - 1]))
      else if step == SyncPublish && w.runtime.lifecycle !in {ShuttingDown, Stopped}
              && w.runtime.lastJob == w.sync.expected then
        && next.graph == Some(w.sync.graph)
        && (w.commits[w.sync.tip - 1] != "" ==> next.lastJob == Some(w.commits[w.sync.tip - 1]))
      else next.graph == w.runtime.graph && next.lastJob == w.runtime.lastJob
    ensures step.RebuildEnd? ==>
      Next(w, step).runtime.lifecycle ==
        if w.runtime.lifecycle != Rebuilding then w.runtime.lifecycle else if step.succeeded then Ready else Failed
    ensures step == RebuildStart && w.runtime.lifecycle != Initializing ==>
      Next(w, step).runtime.lifecycle == Rebuilding
    ensures step == ShutDown ==> Next(w, step).runtime.lifecycle == Stopped
  {
  }

  // ---- The invariant ----

  /** `job`, if any, names one of the first v commits. */
  predicate NotNewer(commits: seq<JobId>, job: Option<JobId>, v: Version) {
    v <= |commits| && (job.Some? ==> job.value in commits[..v])
  }

  ghost predicate DistinctJobs(commits: seq<JobId>) {
    && "" !in commits
    && (forall i, j :: 0 <= i < j < |commits| ==> commits[i] != commits[j])
  }

  predicate SyncConsistent(w: World) {
    match w.sync
    case Queried(tip) => 1 <= tip <= w.seen
    case Captured(tip, expected) => 1 <= tip <= w.seen && NotNewer(w.commits, expected, w.seen)
    case Loaded(tip, expected, g) =>
      && 1 <= tip <= g <= w.seen
      && NotNewer(w.commits, expected, g)
      && (w.runtime.lastJob == expected ==> w.runtime.graph.Some? && w.runtime.graph.value <= g)
    case _ => true
  }

  predicate InWindow(w: World) {
    w.rebuild.Committed? || w.rebuild.PublishedOnce?
  }

  function PendingJob(w: World): Option<JobId> {
    if InWindow(w) && 1 <= w.rebuild.version <= Tip(w) then Some(w.commits[w.rebuild.version - 1]) else None
  }

  /** The pair that a synchronisation captured will still match the marker at some moment before the
    * last local publication: now, or after the first local publication has set it. */
  predicate WillMatch(w: World, expected: Option<JobId>) {
    expected == w.runtime.lastJob || (w.rebuild.Committed? && expected == PendingJob(w))
  }

  /** In the window between the local durable commit and its last local publication, some
    * synchronisation can still load a newer graph and publish it before that publication. */
  predicate Exposed(w: World) {
    && InWindow(w) && !Shut(w.runtime.lifecycle)
    && (w.runtime.lifecycle != Rebuilding ||
        match w.sync
        case Idle => false
        case Started => true
        case Admitted => true
        case Queried(tip) =>
          || (1 <= tip <= Tip(w) && w.runtime.lastJob != Some(w.commits[tip - 1]))
          || (w.rebuild.Committed? && tip != w.rebuild.version)
        case Captured(_, expected) => WillMatch(w, expected)
        case Loaded(_, expected, g) => g > w.rebuild.version && WillMatch(w, expected))
  }

  /** While this node owns the lease, no one else can have committed after it. */
  predicate Held(w: World) {
    InWindow(w) && w.leaseLive && w.rebuild.version == Tip(w) == w.seen
  }

  /** A committed local graph that waits to be published is under the lease, or nothing can overtake it. */
  predicate WindowSafe(w: World) {
    InWindow(w) ==>
      && 1 <= w.rebuild.version <= w.seen
      && (Held(w) || !Exposed(w))
      && (Shut(w.runtime.lifecycle) || (w.runtime.graph.Some? && w.runtime.graph.value <= w.rebuild.version))
  }

  /** The runtime graph is a committed version that this node has seen, and it is no older than
    * the job recorded as last synchronised. */
  predicate Current(w: World) {
    && w.runtime.graph.Some?
    && w.runtime.graph.value <= w.seen <= Tip(w)
    && NotNewer(w.commits, w.runtime.lastJob, w.runtime.graph.value)
  }

  ghost predicate Inv(w: World) {
    DistinctJobs(w.commits) && Current(w) && SyncConsistent(w) && WindowSafe(w)
  }

  /** The discipline the lease is for: it does not lapse in an exposed window. */
  predicate Disciplined(w: World, step: Step) {
    step.LeaseLapse? ==> !Exposed(w)
  }

  lemma CommitExtends(commits: seq<JobId>, job: JobId, v: Version)
    requires v <= |commits|
    ensures (commits + [job])[..v] == commits[..v]
  {
  }

  predicate Kept(w: World, next: World) {
    && w.runtime.graph.Some? && next.runtime.graph.Some?
    && w.runtime.graph.value <= next.runtime.graph.value
  }

  lemma CommitKeepsWindow(w: World, step: Step)
    requires Inv(w) && Enabled(w, step) && (step.ForeignCommit? || step.LocalCommit?)
    ensures WindowSafe(Next(w, step))
  {
    hide DistinctJobs, NotNewer;
    if step.ForeignCommit? && InWindow(w) {
      assert !Exposed(w) && !Exposed(Next(w, step));
    }
  }

  lemma CommitKeepsSync(w: World, step: Step)
    requires Inv(w) && Enabled(w, step) && (step.ForeignCommit? || step.LocalCommit?)
    ensures SyncConsistent(Next(w, step))
  {
    hide DistinctJobs, WindowSafe;
    CommitExtends(w.commits, step.job, w.seen);
    if w.sync.Loaded? {
      CommitExtends(w.commits, step.job, w.sync.graph);
    }
  }

  lemma CommitKeepsInvariant(w: World, step: Step)
    requires Inv(w) && Enabled(w, step) && (step.ForeignCommit? || step.LocalCommit?)
    ensures Inv(Next(w, step)) && Kept(w, Next(w, step))
  {
    CommitKeepsWindow(w, step);
    CommitKeepsSync(w, step);
    hide WindowSafe, SyncConsistent;
    CommitExtends(w.commits, step.job, w.runtime.graph.value);
  }

  lemma PublicationKeepsWindow(w: World, step: Step)
    requires Inv(w) && Enabled(w, step) && (step == PublishFirst || step == PublishAgain)
    ensures WindowSafe(Next(w, step)) && Kept(w, Next(w, step))
  {
    hide DistinctJobs, NotNewer;
  }

  lemma PublicationKeepsInvariant(w: World, step: Step)
    requires Inv(w) && Enabled(w, step) && (step == PublishFirst || step == PublishAgain)
    ensures Inv(Next(w, step)) && Kept(w, Next(w, step))
  {
    PublicationKeepsWindow(w, step);
    hide Exposed;
    var v := w.rebuild.version;
    assert w.commits[v - 1] in w.commits[..v];
    if w.sync.Loaded? && w.sync.expected == Some(w.commits[v - 1]) {
      var k :| 0 <= k < w.sync.graph && w.commits[..w.sync.graph][k] == w.commits[v - 1];
      assert w.commits[k] == w.commits[v - 1];
    }
  }

  lemma SyncKeepsWindow(w: World, step: Step)
    requires Inv(w) && Enabled(w, step) && (step == SyncCapture || step.SyncLoad? || step == SyncPublish)
    ensures WindowSafe(Next(w, step))
  {
    hide DistinctJobs, NotNewer;
  }

  lemma SyncKeepsInvariant(w: World, step: Step)
    requires Inv(w) && Enabled(w, step) && (step == SyncCapture || step.SyncLoad? || step == SyncPublish)
    ensures Inv(Next(w, step)) && Kept(w, Next(w, step))
  {
    SyncKeepsWindow(w, step);
    hide WindowSafe, DistinctJobs;
    if step == SyncPublish {
      assert w.commits[w.sync.tip - 1] in w.commits[..w.sync.graph];
    }
  }

  lemma QuietStepKeepsInvariant(w: World, step: Step)
    requires Inv(w) && Enabled(w, step) && Disciplined(w, step)
    requires !step.ForeignCommit? && !step.LocalCommit? && !step.PublishFirst? && !step.PublishAgain?
    requires !step.SyncCapture? && !step.SyncLoad? && !step.SyncPublish?
    ensures Inv(Next(w, step)) && Kept(w, Next(w, step))
  {
  }

  /** One step keeps the invariant and never lowers the version of the runtime graph. */
  lemma StepKeepsInvariant(w: World, step: Step)
    requires Inv(w) && Enabled(w, step) && Disciplined(w, step)
    ensures Inv(Next(w, step)) && Kept(w, Next(w, step))
  {
    hide Inv, Kept, Enabled, Disciplined, Next;
    match step
    case ForeignCommit(_) => CommitKeepsInvariant(w, step);
    case LocalCommit(_) => CommitKeepsInvariant(w, step);
    case PublishFirst => PublicationKeepsInvariant(w, step);
    case PublishAgain => PublicationKeepsInvariant(w, step);
    case SyncCapture => SyncKeepsInvariant(w, step);
    case SyncLoad(_) => SyncKeepsInvariant(w, step);
    case SyncPublish => SyncKeepsInvariant(w, step);
    case _ => QuietStepKeepsInvariant(w, step);
  }

  // ---- Whole runs ----

  ghost predicate IsRun(worlds: seq<World>, steps: seq<Step>) {
    && |worlds| == |steps| + 1
    && forall i :: 0 <= i < |steps| ==>
         Enabled(worlds[i], steps[i]) && worlds[i + 1] == Next(worlds[i], steps[i])
  }

  /** In every interleaving the runtime graph's version never decreases and is never older than
    * the job named by the synchronisation marker. */
  lemma {:induction false} RunsNeverGoBack(worlds: seq<World>, steps: seq<Step>, i: nat, j: nat)
    requires IsRun(worlds, steps) && Inv(worlds[0])
    requires forall k :: 0 <= k < |steps| ==> Disciplined(worlds[k], steps[k])
    requires i <= j <= |steps|
    ensures Inv(worlds[i]) && Inv(worlds[j])
    ensures worlds[i].runtime.graph.value <= worlds[j].runtime.graph.value
    decreases j
  {
    hide Next, Enabled, Inv, Disciplined;
    if j > 0 {
      RunsNeverGoBack(worlds, steps, if i < j then i else j - 1, j - 1);
      assert Enabled(worlds[j - 1], steps[j - 1]);
      StepKeepsInvariant(worlds[j - 1], steps[j - 1]);
    }
  }

  /** A schedule of steps, and the world it leads to; None when some step is not enabled. */
  datatype Schedule = Stop | Then(step: Step, rest: Schedule)

  function Exec(w: World, schedule: Schedule): Option<World>
    decreases schedule
  {
    match schedule
    case Stop => Some(w)
    case Then(step, rest) => if Enabled(w, step) then Exec(Next(w, step), rest) else None
  }

  lemma {:induction false} ExecThen(w: World, step: Step, rest: Schedule, next: World)
    requires Enabled(w, step) && Next(w, step) == next
    ensures Exec(w, Then(step, rest)) == Exec(next, rest)
  {
  }

  /** One complete synchronisation with reads of the newest commit. */
  function FullSync(w: World): Schedule {
    Then(SyncStart, Then(SyncAdmit, Then(SyncQuery(Tip(w)), Then(SyncCapture, AfterCapture(w)))))
  }

  function AfterCapture(w: World): Schedule {
    if Tip(w) > 0 && w.runtime.lastJob == Some(w.commits[Tip(w) - 1]) then Stop
    else Then(SyncLoad(Tip(w)), Then(SyncPublish, Stop))
  }

  predicate Quiet(w: World) {
    w.sync == Idle && w.runtime.lifecycle != Rebuilding && !Shut(w.runtime.lifecycle) && Tip(w) > 0
  }

  lemma {:induction false} FullSyncResult(w: World)
    requires Quiet(w) && w.seen <= Tip(w)
    ensures
      var job := w.commits[Tip(w) - 1];
      Exec(w, FullSync(w)) ==
      Some(if w.runtime.lastJob == Some(job) then w.(seen := Tip(w))
           else w.(seen := Tip(w), runtime := After(w.runtime, Publish(Tip(w), Some(job), Unset)).0))
  {
    var t := Tip(w);
    var w1 := w.(sync := Started);
    var w2 := w.(sync := Admitted);
    var w3 := w.(sync := Queried(t), seen := t);
    var w4 := Next(w3, SyncCapture);
    ExecThen(w, SyncStart, Then(SyncAdmit, Then(SyncQuery(t), Then(SyncCapture, AfterCapture(w)))), w1);
    ExecThen(w1, SyncAdmit, Then(SyncQuery(t), Then(SyncCapture, AfterCapture(w))), w2);
    ExecThen(w2, SyncQuery(t), Then(SyncCapture, AfterCapture(w)), w3);
    ExecThen(w3, SyncCapture, AfterCapture(w), w4);
    if w.runtime.lastJob != Some(w.commits[t - 1]) {
      var w5 := Next(w4, SyncLoad(t));
      ExecThen(w4, SyncLoad(t), Then(SyncPublish, Stop), w5);
      ExecThen(w5, SyncPublish, Stop, Next(w5, SyncPublish));
    }
  }

  /** Once commits stop, one complete synchronisation outside a local rebuild or a shutdown leaves
    * the runtime at the newest commit, whatever the marker said. */
  lemma {:induction false} SyncConverges(w: World)
    requires Inv(w) && Quiet(w)
    ensures Exec(w, FullSync(w)).Some?
    ensures Exec(w, FullSync(w)).value.runtime.graph == Some(Tip(w))
    ensures Exec(w, FullSync(w)).value.runtime.lastJob == Some(w.commits[Tip(w) - 1])
  {
    FullSyncResult(w);
    var job := w.commits[Tip(w) - 1];
    if w.runtime.lastJob == Some(job) {
      var k :| 0 <= k < w.runtime.graph.value && w.commits[..w.runtime.graph.value][k] == job;
      assert w.commits[k] == job;
    }
  }

  // ---- What fails, and when ----

  /** The schedule is enabled and disciplined throughout, and one of its steps lowers the graph. */
  ghost predicate Lowers(w: World, schedule: Schedule)
    decreases schedule
  {
    match schedule
    case Stop => false
    case Then(step, rest) =>
      && Enabled(w, step) && Disciplined(w, step)
      && (!Kept(w, Next(w, step)) || Lowers(Next(w, step), rest))
  }

  ghost predicate CanBeLowered(w: World) {
    exists schedule :: Lowers(w, schedule)
  }

  lemma {:induction false} NeverLowered(w: World, schedule: Schedule)
    requires Inv(w)
    ensures !Lowers(w, schedule)
    decreases schedule
  {
    hide Inv, Enabled, Disciplined, Next, Kept;
    match schedule
    case Stop =>
    case Then(step, rest) =>
      if Enabled(w, step) && Disciplined(w, step) {
        StepKeepsInvariant(w, step);
        NeverLowered(Next(w, step), rest);
      }
  }

  lemma OneStepEarlier(w: World, step: Step)
    requires Enabled(w, step) && Disciplined(w, step)
    requires !Kept(w, Next(w, step)) || CanBeLowered(Next(w, step))
    ensures CanBeLowered(w)
  {
    hide Enabled, Disciplined, Next, Kept;
    if !Kept(w, Next(w, step)) {
      assert Lowers(w, Then(step, Stop));
    } else {
      var rest :| Lowers(Next(w, step), rest);
      assert Lowers(w, Then(step, rest));
    }
  }

  /** A job id that no commit has used: longer than all of them. */
  function LongJob(commits: seq<JobId>): (job: JobId)
    ensures job != "" && forall i :: 0 <= i < |commits| ==> |commits[i]| < |job|
  {
    if commits == [] then "x" else LongJob(commits[..|commits| - 1]) + commits[|commits| - 1] + "x"
  }

  /** The lease is gone in the window, and no one has committed yet. */
  ghost predicate Unguarded(w: World) {
    && InWindow(w) && !w.leaseLive && !Shut(w.runtime.lifecycle)
    && 1 <= w.rebuild.version == Tip(w) == w.seen
    && w.runtime.graph.Some? && w.runtime.graph.value <= w.rebuild.version
    && (w.runtime.lastJob.Some? ==> w.runtime.lastJob.value in w.commits)
    && DistinctJobs(w.commits)
  }

  /** Once the runtime has overtaken the waiting graph, the next local publication lowers it. */
  lemma LatePublicationLowers(w: World)
    requires InWindow(w) && !Shut(w.runtime.lifecycle) && 1 <= w.rebuild.version <= Tip(w)
    requires w.runtime.graph.Some? && w.runtime.graph.value > w.rebuild.version
    ensures CanBeLowered(w)
  {
    OneStepEarlier(w, if w.rebuild.Committed? then PublishFirst else PublishAgain);
  }

  lemma NewerLoadLowers(w: World)
    requires InWindow(w) && !Shut(w.runtime.lifecycle) && 1 <= w.rebuild.version <= Tip(w) && w.runtime.graph.Some?
    requires w.sync.Loaded? && 1 <= w.sync.tip <= Tip(w)
    requires w.sync.expected == w.runtime.lastJob && w.sync.graph > w.rebuild.version
    requires w.runtime.graph.value <= w.sync.graph
    ensures CanBeLowered(w)
  {
    LatePublicationLowers(Next(w, SyncPublish));
    OneStepEarlier(w, SyncPublish);
  }

  lemma MatchingCaptureLowers(w: World)
    requires Unguarded(w) && w.sync.Captured? && 1 <= w.sync.tip <= Tip(w) && w.sync.expected == w.runtime.lastJob
    ensures CanBeLowered(w)
  {
    var commit := ForeignCommit(LongJob(w.commits));
    var w1 := Next(w, commit);
    NewerLoadLowers(Next(w1, SyncLoad(Tip(w1))));
    OneStepEarlier(w1, SyncLoad(Tip(w1)));
    OneStepEarlier(w, commit);
  }

  lemma CaptureLowers(w: World)
    requires Unguarded(w) && w.sync.Captured? && 1 <= w.sync.tip <= Tip(w) && WillMatch(w, w.sync.expected)
    ensures CanBeLowered(w)
  {
    if w.sync.expected == w.runtime.lastJob {
      MatchingCaptureLowers(w);
    } else {
      assert w.commits[w.rebuild.version - 1] in w.commits;
      MatchingCaptureLowers(Next(w, PublishFirst));
      OneStepEarlier(w, PublishFirst);
    }
  }

  lemma QueryLowers(w: World)
    requires Unguarded(w) && w.sync.Queried? && 1 <= w.sync.tip <= Tip(w)
    requires w.runtime.lastJob != Some(w.commits[w.sync.tip - 1])
    ensures CanBeLowered(w)
  {
    MatchingCaptureLowers(Next(w, SyncCapture));
    OneStepEarlier(w, SyncCapture);
  }

  lemma EarlyQueryLowers(w: World)
    requires Unguarded(w) && w.sync.Queried? && 1 <= w.sync.tip <= Tip(w)
    requires w.rebuild.Committed? && w.sync.tip != w.rebuild.version
    ensures CanBeLowered(w)
  {
    assert w.commits[w.rebuild.version - 1] in w.commits;
    QueryLowers(Next(w, PublishFirst));
    OneStepEarlier(w, PublishFirst);
  }

  lemma AdmittedLowers(w: World)
    requires Unguarded(w) && w.sync == Admitted
    ensures CanBeLowered(w)
  {
    var commit := ForeignCommit(LongJob(w.commits));
    var w1 := Next(w, commit);
    var w2 := Next(w1, SyncQuery(Tip(w1)));
    var w3 := Next(w2, SyncCapture);
    assert w3.sync == Captured(Tip(w1), w.runtime.lastJob);
    NewerLoadLowers(Next(w3, SyncLoad(Tip(w1))));
    OneStepEarlier(w3, SyncLoad(Tip(w1)));
    OneStepEarlier(w2, SyncCapture);
    OneStepEarlier(w1, SyncQuery(Tip(w1)));
    OneStepEarlier(w, commit);
  }

  lemma StartedLowers(w: World)
    requires Unguarded(w) && w.sync == Started
    ensures CanBeLowered(w)
  {
    AdmittedLowers(Next(w, SyncAdmit));
    OneStepEarlier(w, SyncAdmit);
  }

  /** Outside REBUILDING a synchronisation can be started afresh. */
  lemma RestartLowers(w: World)
    requires Unguarded(w) && w.runtime.lifecycle != Rebuilding
    ensures CanBeLowered(w)
  {
    var w1 := Next(w, SyncAbort);
    StartedLowers(Next(w1, SyncStart));
    OneStepEarlier(w1, SyncStart);
    OneStepEarlier(w, SyncAbort);
  }

  lemma ExposedLowers(w: World)
    requires Unguarded(w) && Exposed(w) && SyncConsistent(w)
    ensures CanBeLowered(w)
  {
    hide CanBeLowered, DistinctJobs;
    if w.runtime.lifecycle != Rebuilding {
      RestartLowers(w);
    } else {
      match w.sync
      case Started => StartedLowers(w);
      case Admitted => AdmittedLowers(w);
      case Queried(tip) =>
        if w.runtime.lastJob != Some(w.commits[tip - 1]) {
          QueryLowers(w);
        } else {
          EarlyQueryLowers(w);
        }
      case Captured(_, _) => CaptureLowers(w);
      case _ =>
    }
  }

  /** A lapse of the lease in the window lets some disciplined continuation lower the runtime graph
    * exactly when the window is exposed at that moment. */
  lemma LapseLowersExactlyWhenExposed(w: World)
    requires Inv(w) && InWindow(w) && w.leaseLive
    ensures CanBeLowered(Next(w, LeaseLapse)) <==> Exposed(w)
  {
    var lapsed := Next(w, LeaseLapse);
    assert Exposed(lapsed) == Exposed(w);
    if Exposed(w) {
      ExposedLowers(lapsed);
    } else {
      forall schedule
        ensures !Lowers(lapsed, schedule)
      {
        NeverLowered(lapsed, schedule);
      }
    }
  }

  function Serving(commits: seq<JobId>, graph: Version, last: Option<JobId>): World {
    World(commits, |commits|, false, Runtime(Some(graph), Ready, last), Idle, NoRebuild)
  }

  /** A rebuild that starts after a synchronisation passed its checks, up to its durable commit. */
  function RebuildTo(job: JobId, rest: Schedule): Schedule {
    Then(RebuildStart, Then(LeaseAcquire, Then(LocalCommit(job), rest)))
  }

  lemma {:induction false} RebuildToResult(w: World, job: JobId, rest: Schedule)
    requires w.rebuild == NoRebuild && w.runtime.lifecycle == Ready && Fresh(w, job)
    ensures Exec(w, RebuildTo(job, rest)) ==
            Exec(w.(commits := w.commits + [job], seen := Tip(w) + 1, leaseLive := true,
                    runtime := w.runtime.(lifecycle := Rebuilding), rebuild := Committed(Tip(w) + 1)), rest)
  {
    var w1 := w.(rebuild := Waiting, runtime := w.runtime.(lifecycle := Rebuilding));
    var w2 := w1.(rebuild := Leased, leaseLive := true);
    ExecThen(w, RebuildStart, Then(LeaseAcquire, Then(LocalCommit(job), rest)), w1);
    ExecThen(w1, LeaseAcquire, Then(LocalCommit(job), rest), w2);
    ExecThen(w2, LocalCommit(job), rest, Next(w2, LocalCommit(job)));
  }

  /** An exposed window under the lease is reached from every serving node with at least one commit. */
  lemma {:induction false} WindowIsReachable(commits: seq<JobId>, job: JobId)
    requires DistinctJobs(commits) && commits != [] && job != "" && job !in commits
    ensures
      var start := Serving(commits, |commits|, Some(commits[|commits| - 1]));
      var w := Exec(start, Then(SyncStart, Then(SyncAdmit, RebuildTo(job, Stop))));
      && Inv(start)
      && w.Some? && w.value.rebuild == Committed(|commits| + 1) && w.value.sync == Admitted
      && w.value.runtime.lifecycle == Rebuilding && w.value.leaseLive && Exposed(w.value)
  {
    var s := Serving(commits, |commits|, Some(commits[|commits| - 1]));
    assert commits[..|commits|] == commits;
    var w1 := s.(sync := Started);
    var w2 := s.(sync := Admitted);
    ExecThen(s, SyncStart, Then(SyncAdmit, RebuildTo(job, Stop)), w1);
    ExecThen(w1, SyncAdmit, RebuildTo(job, Stop), w2);
    RebuildToResult(w2, job, Stop);
  }

  function FinishSync(v: Version): Schedule {
    Then(SyncCapture, Then(SyncLoad(v), Then(SyncPublish, Stop)))
  }

  /** A synchronisation that queried version t before version v was published locally rewrites the
    * marker to the older job, while the graph stays at v. */
  lemma {:induction false} LateCaptureRewritesMarker(w: World, t: Version, v: Version)
    requires w.sync == Queried(t) && 1 <= t < v == w.seen == Tip(w) && !Shut(w.runtime.lifecycle)
    requires w.runtime.lastJob == Some(w.commits[v - 1]) && w.commits[t - 1] != w.commits[v - 1]
    requires "" !in w.commits
    ensures
      var end := Exec(w, FinishSync(v));
      && end.Some? && end.value.runtime.graph == Some(v)
      && end.value.runtime.lastJob == Some(w.commits[t - 1])
  {
    var w1 := w.(sync := Captured(t, w.runtime.lastJob));
    var w2 := w.(sync := Loaded(t, w.runtime.lastJob, v));
    ExecThen(w, SyncCapture, Then(SyncLoad(v), Then(SyncPublish, Stop)), w1);
    ExecThen(w1, SyncLoad(v), Then(SyncPublish, Stop), w2);
    ExecThen(w2, SyncPublish, Stop, Next(w2, SyncPublish));
  }

  lemma {:induction false} SyncUpToQuery(w: World, tail: Schedule)
    requires Inv(w) && Quiet(w) && w.runtime.lifecycle == Ready
    ensures
      Exec(w, Then(SyncStart, Then(SyncAdmit, Then(SyncQuery(Tip(w)), tail)))) ==
      Exec(w.(sync := Queried(Tip(w)), seen := Tip(w)), tail)
  {
    hide WindowSafe, SyncConsistent, NotNewer;
    var t := Tip(w);
    var w1 := w.(sync := Started);
    var w2 := w.(sync := Admitted);
    ExecThen(w, SyncStart, Then(SyncAdmit, Then(SyncQuery(t), tail)), w1);
    ExecThen(w1, SyncAdmit, Then(SyncQuery(t), tail), w2);
    ExecThen(w2, SyncQuery(t), tail, w.(sync := Queried(t), seen := t));
  }

  /** Such a state is reached from every quiet node: the marker does step back, though the graph
    * never does. */
  lemma {:induction false} MarkerMayStepBack(w: World, job: JobId)
    requires Inv(w) && Quiet(w) && w.runtime.lifecycle == Ready && w.rebuild == NoRebuild && Fresh(w, job)
    ensures
      var v := Tip(w) + 1;
      var early := Then(SyncStart, Then(SyncAdmit, Then(SyncQuery(v - 1), RebuildTo(job, Then(PublishFirst, Stop)))));
      var mid := Exec(w, early);
      && mid.Some? && mid.value.runtime.lastJob == Some(job)
      && var end := Exec(mid.value, FinishSync(v));
      && end.Some? && end.value.runtime.graph == Some(v)
      && end.value.runtime.lastJob == Some(w.commits[v - 2])
  {
    hide WindowSafe, SyncConsistent, NotNewer;
    var t := Tip(w);
    var w3 := w.(sync := Queried(t), seen := t);
    SyncUpToQuery(w, RebuildTo(job, Then(PublishFirst, Stop)));
    RebuildToResult(w3, job, Then(PublishFirst, Stop));
    var w4 := w3.(commits := w.commits + [job], seen := t + 1, leaseLive := true,
                  runtime := w.runtime.(lifecycle := Rebuilding), rebuild := Committed(t + 1));
    assert w4.commits[t] == job && w4.commits[t - 1] == w.commits[t - 1];
    var w5 := w4.(runtime := Runtime(Some(t + 1), Rebuilding, Some(job)), rebuild := PublishedOnce(t + 1));
    ExecThen(w4, PublishFirst, Stop, w5);
    LateCaptureRewritesMarker(w5, t, t + 1);
  }

  // ---- When the marker steps back ----

  /** The version that a job published; 0 for no job. */
  function Position(commits: seq<JobId>, job: Option<JobId>): (v: Version)
    ensures v <= |commits|
    ensures v > 0 ==> Some(commits[v - 1]) == job
    ensures v == 0 ==> job.None? || job.value !in commits
  {
    if commits == [] then 0
    else if Some(commits[|commits| - 1]) == job then |commits|
    else
      assert commits == commits[..|commits| - 1] + [commits[|commits| - 1]];
      Position(commits[..|commits| - 1], job)
  }

  /** The version named by the synchronisation marker. */
  function Marker(w: World): Version {
    Position(w.commits, w.runtime.lastJob)
  }

  lemma {:induction false} PositionIsUnique(commits: seq<JobId>, v: Version)
    requires DistinctJobs(commits) && 1 <= v <= |commits|
    ensures Position(commits, Some(commits[v - 1])) == v
  {
    hide Position;
  }

  lemma {:induction false} PositionStays(commits: seq<JobId>, job: JobId, other: Option<JobId>)
    requires other != Some(job)
    ensures Position(commits + [job], other) == Position(commits, other)
  {
    assert (commits + [job])[..|commits|] == commits;
  }

  lemma {:induction false} PositionNotNewer(commits: seq<JobId>, job: Option<JobId>, v: Version)
    requires DistinctJobs(commits) && NotNewer(commits, job, v)
    ensures Position(commits, job) <= v
  {
    hide Position;
    if job.Some? {
      var k :| 0 <= k < v && commits[..v][k] == job.value;
      PositionIsUnique(commits, k + 1);
    }
  }

  /** An effective publication by the synchroniser whose captured marker is newer than the job it queried. */
  predicate StepsBack(w: World, step: Step) {
    && step == SyncPublish && w.sync.Loaded?
    && !Shut(w.runtime.lifecycle) && w.sync.expected == w.runtime.lastJob
    && w.sync.tip < Position(w.commits, w.sync.expected)
  }

  lemma {:induction false} LocalPublicationRaisesMarker(w: World, step: Step)
    requires Inv(w) && Enabled(w, step) && (step == PublishFirst || step == PublishAgain)
    ensures Marker(w) <= Marker(Next(w, step))
  {
    hide Exposed, SyncConsistent;
    var v := w.rebuild.version;
    PositionIsUnique(w.commits, v);
    PositionNotNewer(w.commits, w.runtime.lastJob, w.runtime.graph.value);
    hide Position;
    assert w.commits[v - 1] != "" by {
      assert w.commits[v - 1] in w.commits;
    }
  }

  lemma {:induction false} SyncMovesMarkerToTip(w: World)
    requires Inv(w) && Enabled(w, SyncPublish)
    ensures
      Marker(Next(w, SyncPublish)) ==
        if !Shut(w.runtime.lifecycle) && w.sync.expected == w.runtime.lastJob then w.sync.tip else Marker(w)
  {
    PositionIsUnique(w.commits, w.sync.tip);
    hide Position;
    assert w.commits[w.sync.tip - 1] != "" by {
      assert w.commits[w.sync.tip - 1] in w.commits;
    }
  }

  lemma {:induction false} CommitKeepsMarker(w: World, step: Step)
    requires Inv(w) && Enabled(w, step) && (step.ForeignCommit? || step.LocalCommit?)
    ensures Marker(Next(w, step)) == Marker(w)
  {
    PositionStays(w.commits, step.job, w.runtime.lastJob);
    hide Position;
  }

  /** A step lowers the marker exactly when it is such a publication; no lapse of the lease and no
    * other section does. */
  lemma {:induction false} MarkerLoweredExactlyWhen(w: World, step: Step)
    requires Inv(w) && Enabled(w, step)
    ensures Marker(Next(w, step)) < Marker(w) <==> StepsBack(w, step)
  {
    match step
    case PublishFirst => LocalPublicationRaisesMarker(w, step);
    case PublishAgain => LocalPublicationRaisesMarker(w, step);
    case SyncPublish => SyncMovesMarkerToTip(w);
    case ForeignCommit(_) => CommitKeepsMarker(w, step);
    case LocalCommit(_) => CommitKeepsMarker(w, step);
    case _ =>
  }

  ghost predicate MarkerNeverBack(worlds: seq<World>, n: nat)
    requires n < |worlds|
  {
    forall i, j :: 0 <= i <= j <= n ==> Marker(worlds[i]) <= Marker(worlds[j])
  }

  lemma OneMoreWorld(worlds: seq<World>, n: nat)
    requires 0 < n < |worlds|
    ensures MarkerNeverBack(worlds, n) <==> MarkerNeverBack(worlds, n - 1) && Marker(worlds[n - 1]) <= Marker(worlds[n])
  {
    hide Marker;
    if MarkerNeverBack(worlds, n - 1) && Marker(worlds[n - 1]) <= Marker(worlds[n]) {
      forall i | 0 <= i < n
        ensures Marker(worlds[i]) <= Marker(worlds[n])
      {
        assert Marker(worlds[i]) <= Marker(worlds[n - 1]);
      }
    }
  }

  /** In a run the marker never steps back exactly when no publication of the synchroniser takes
    * effect with a captured marker newer than the job it queried. */
  lemma {:induction false} RunMarkerNeverBackExactlyWhen(worlds: seq<World>, steps: seq<Step>, n: nat)
    requires IsRun(worlds, steps) && Inv(worlds[0]) && n <= |steps|
    requires forall k :: 0 <= k < |steps| ==> Disciplined(worlds[k], steps[k])
    ensures MarkerNeverBack(worlds, n) <==> forall k :: 0 <= k < n ==> !StepsBack(worlds[k], steps[k])
  {
    hide Next, Enabled, Inv, Disciplined, StepsBack, Marker;
    if n > 0 {
      RunMarkerNeverBackExactlyWhen(worlds, steps, n - 1);
      RunsNeverGoBack(worlds, steps, n - 1, n - 1);
      assert Enabled(worlds[n - 1], steps[n - 1]);
      MarkerLoweredExactlyWhen(worlds[n - 1], steps[n - 1]);
      OneMoreWorld(worlds, n);
    }
  }

  /** What the synchroniser holds was not stale when it captured the marker. */
  predicate CaptureFresh(w: World) {
    w.sync.Captured? || w.sync.Loaded? ==> Position(w.commits, w.sync.expected) <= w.sync.tip
  }

  /** The check can be made at the capture: if the marker read there is never newer than the job
    * queried before, no publication steps back. */
  lemma {:induction false} FreshCapturesSuffice(w: World, step: Step)
    requires Inv(w) && Enabled(w, step) && CaptureFresh(w)
    requires step == SyncCapture ==> Marker(w) <= w.sync.tip
    ensures CaptureFresh(Next(w, step)) && !StepsBack(w, step)
  {
    hide Position;
    if (step.ForeignCommit? || step.LocalCommit?) && (w.sync.Captured? || w.sync.Loaded?) {
      CommitKeepsCapture(w, step);
    }
  }

  lemma {:induction false} CommitKeepsCapture(w: World, step: Step)
    requires Inv(w) && Enabled(w, step) && (step.ForeignCommit? || step.LocalCommit?)
    requires w.sync.Captured? || w.sync.Loaded?
    ensures
      var next := Next(w, step);
      next.sync == w.sync && Position(next.commits, w.sync.expected) == Position(w.commits, w.sync.expected)
  {
    hide Position;
    PositionStays(w.commits, step.job, w.sync.expected);
  }

  /** Startup loads the graph at version `loaded` and only then reads the newest job, at `queried`. */
  function StartedUp(commits: seq<JobId>, loaded: Version, queried: Version): World
    requires 1 <= loaded <= queried <= |commits|
  {
    World(commits, queried, false, Runtime(Some(loaded), Ready, Some(commits[queried - 1])), Idle, NoRebuild)
  }

  /** `n` complete synchronisations one after the other, with no commits between them. */
  function SyncedTimes(w: World, n: nat): Option<World> {
    if n == 0 then Some(w)
    else
      var before := SyncedTimes(w, n - 1);
      if before.None? then None else Exec(before.value, FullSync(before.value))
  }

  /** Startup establishes the invariant exactly when no commit fell between its two reads. When one
    * did and commits then stop, every later complete synchronisation returns early, however many
    * there are, and the node keeps serving the old graph. */
  lemma {:induction false} StartupRace(commits: seq<JobId>, loaded: Version, queried: Version, n: nat)
    requires 1 <= loaded <= queried <= |commits| && DistinctJobs(commits)
    ensures Inv(StartedUp(commits, loaded, queried)) <==> loaded == queried
    ensures
      var w := StartedUp(commits, loaded, queried);
      queried == |commits| ==> SyncedTimes(w, n) == Some(w)
  {
    var w := StartedUp(commits, loaded, queried);
    assert commits[queried - 1] in commits[..loaded] <==> loaded == queried by {
      if loaded == queried {
        assert commits[..loaded][queried - 1] == commits[queried - 1];
      }
    }
    if queried == |commits| && n > 0 {
      StartupRace(commits, loaded, queried, n - 1);
      FullSyncResult(w);
    }
  }
}

/** Nodes publishing under one lease row, in a shared or a separate coordination database.
  *
  * A renewal inside a publication transaction updates the lease row and so keeps it locked until
  * that transaction ends; every other write to the row waits. Domain commits are logged with the
  * step of the transaction's first renewal, the step of the commit, and the holder of the row then.
  */
module LeaseFencing {
  import opened Wrappers

  type Node = nat

  datatype Transaction =
    | NoTransaction
    | Open
    | Holding(since: nat)
    | Orphaned(since: nat)
    | AwaitingLeaseCommit

  datatype Commit = Commit(node: Node, since: nat, at: nat, holder: Option<Node>)

  /** `expiry` is the committed expiry of the row and `renewed` the one written by the transaction
    * that holds the row lock. */
  datatype State = State(
    shared: bool,
    ttl: nat,
    now: nat,
    step: nat,
    holder: Option<Node>,
    expiry: nat,
    rowLock: Option<Node>,
    renewed: nat,
    transactions: map<Node, Transaction>,
    log: seq<Commit>)

  datatype Action =
    | Tick(seconds: nat)
    | Acquire(node: Node)
    | ReleaseLease(node: Node)
    | Begin(node: Node)
    | Renew(node: Node)
    | DomainCommit(node: Node)
    | LeaseCommit(node: Node, fails: bool)
    | Abort(node: Node)
    | CoordinationSessionLost(node: Node)

  function Of(s: State, n: Node): Transaction {
    if n in s.transactions then s.transactions[n] else NoTransaction
  }

  predicate Enabled(s: State, a: Action) {
    match a
    case Tick(_) => true
    case Acquire(_) => s.rowLock.None?
    case ReleaseLease(_) => s.rowLock.None?
    case Begin(n) => Of(s, n) == NoTransaction
    case Renew(n) => (Of(s, n) == Open && s.rowLock.None?) || (Of(s, n).Holding? && s.rowLock == Some(n))
    case DomainCommit(n) => Of(s, n).Holding? || Of(s, n).Orphaned?
    case LeaseCommit(n, _) => Of(s, n) == AwaitingLeaseCommit
    case Abort(n) => Of(s, n) != NoTransaction && Of(s, n) != AwaitingLeaseCommit
    case CoordinationSessionLost(n) => !s.shared && Of(s, n).Holding?
  }

  function Unlocked(s: State, n: Node): State {
    s.(rowLock := if s.rowLock == Some(n) then None else s.rowLock, transactions := s.transactions[n := NoTransaction])
  }

  /** The lease row as the renewing transaction sees it. */
  predicate OwnsLive(s: State, n: Node) {
    s.holder == Some(n) && s.now < if s.rowLock == Some(n) then s.renewed else s.expiry
  }

  function Effect(s: State, a: Action): State
    requires Enabled(s, a)
  {
    match a
    case Tick(seconds) => s.(now := s.now + seconds)
    case Acquire(n) =>
      if s.holder.None? || s.holder == Some(n) || s.expiry < s.now
      then s.(holder := Some(n), expiry := s.now + s.ttl) else s
    case ReleaseLease(n) => if s.holder == Some(n) then s.(holder := None) else s
    case Begin(n) => s.(transactions := s.transactions[n := Open])
    case Renew(n) =>
      if !OwnsLive(s, n) then Unlocked(s, n)
      else
        s.(rowLock := Some(n), renewed := s.now + s.ttl,
           transactions := s.transactions[n := if Of(s, n).Holding? then Of(s, n) else Holding(s.step)])
    case DomainCommit(n) =>
      var logged := s.(log := s.log + [Commit(n, Of(s, n).since, s.step, s.holder)]);
      if Of(s, n).Orphaned? then Unlocked(logged, n)
      else if s.shared then Unlocked(logged, n).(expiry := s.renewed)
      else logged.(transactions := s.transactions[n := AwaitingLeaseCommit])
    case LeaseCommit(n, fails) => if fails then Unlocked(s, n) else Unlocked(s, n).(expiry := s.renewed)
    case Abort(n) => Unlocked(s, n)
    case CoordinationSessionLost(n) =>
      Unlocked(s, n).(transactions := s.transactions[n := Orphaned(Of(s, n).since)])
  }

  function Next(s: State, a: Action): State
    requires Enabled(s, a)
  {
    Effect(s, a).(step := s.step + 1)
  }

  // ---- The lease itself ----

  /** The lease changes hands only when another node takes one that is free or expired, or when its
    * holder gives it up. */
  lemma HolderChangesExactly(s: State, a: Action)
    requires Enabled(s, a)
    ensures
      Next(s, a).holder != s.holder <==>
      || (a.Acquire? && s.holder != Some(a.node) && (s.holder == None || s.expiry < s.now))
      || (a.ReleaseLease? && s.holder == Some(a.node))
    ensures a.Acquire? && Next(s, a).holder != s.holder ==> Next(s, a).holder == Some(a.node)
  {
  }

  /** A renewal leaves its transaction in the window exactly when the node holds a lease that has not
    * run out, by what is committed or by its own renewal; otherwise the transaction ends. */
  lemma RenewalExactly(s: State, n: Node)
    requires Enabled(s, Renew(n))
    ensures
      Of(Next(s, Renew(n)), n).Holding? <==>
      s.holder == Some(n) && if s.rowLock == Some(n) then s.now < s.renewed else s.now < s.expiry
    ensures !Of(Next(s, Renew(n)), n).Holding? ==> Of(Next(s, Renew(n)), n) == NoTransaction
  {
  }

  // ---- Fencing ----

  /** Every logged commit was made by the holder of the row, and the windows from first renewal to
    * commit follow one another without overlap. */
  ghost predicate Fenced(log: seq<Commit>) {
    && (forall i :: 0 <= i < |log| ==> log[i].holder == Some(log[i].node) && log[i].since < log[i].at)
    && (forall i, j :: 0 <= i < j < |log| ==> log[i].at < log[j].since)
  }

  ghost predicate TransactionOk(s: State, n: Node) {
    match Of(s, n)
    case Holding(since) =>
      s.rowLock == Some(n) && since < s.step && forall i :: 0 <= i < |s.log| ==> s.log[i].at < since
    case AwaitingLeaseCommit => s.rowLock == Some(n)
    case Orphaned(_) => false
    case _ => true
  }

  ghost predicate Inv(s: State) {
    && Fenced(s.log)
    && (forall i :: 0 <= i < |s.log| ==> s.log[i].at < s.step)
    && (forall n :: n in s.transactions ==> TransactionOk(s, n))
    && (s.rowLock.Some? ==>
          s.holder == s.rowLock && (Of(s, s.rowLock.value).Holding? || Of(s, s.rowLock.value) == AwaitingLeaseCommit))
  }

  lemma TransactionStays(s: State, a: Action, n: Node)
    requires Inv(s) && Enabled(s, a) && !a.CoordinationSessionLost?
    ensures TransactionOk(Next(s, a), n)
  {
    assert TransactionOk(s, n);
  }

  lemma LogStaysFenced(s: State, a: Action)
    requires Inv(s) && Enabled(s, a) && !a.CoordinationSessionLost?
    ensures Fenced(Next(s, a).log)
    ensures forall i :: 0 <= i < |Next(s, a).log| ==> Next(s, a).log[i].at < s.step + 1
  {
    if a.DomainCommit? {
      assert TransactionOk(s, a.node);
    }
  }

  lemma StepKeepsInvariant(s: State, a: Action)
    requires Inv(s) && Enabled(s, a) && !a.CoordinationSessionLost?
    ensures Inv(Next(s, a))
  {
    LogStaysFenced(s, a);
    forall n
      ensures TransactionOk(Next(s, a), n)
    {
      TransactionStays(s, a, n);
    }
    hide Fenced, TransactionOk;
  }

  ghost predicate IsRun(states: seq<State>, actions: seq<Action>) {
    && |states| == |actions| + 1
    && forall i :: 0 <= i < |actions| ==> Enabled(states[i], actions[i]) && states[i + 1] == Next(states[i], actions[i])
  }

  function Initial(shared: bool, ttl: nat): State {
    State(shared, ttl, 0, 0, None, 0, None, 0, map[], [])
  }

  /** Publications are fenced in every run that never loses a coordination session inside a
    * window, for a shared and for a separate coordination database. */
  lemma {:induction false} PublicationsAreFenced(states: seq<State>, actions: seq<Action>, i: nat)
    requires IsRun(states, actions) && i <= |actions|
    requires states[0] == Initial(states[0].shared, states[0].ttl)
    requires forall k :: 0 <= k < |actions| ==> !actions[k].CoordinationSessionLost?
    ensures Inv(states[i]) && Fenced(states[i].log)
    ensures forall n, m :: Of(states[i], n).Holding? && Of(states[i], m).Holding? ==> n == m
  {
    if i > 0 {
      PublicationsAreFenced(states, actions, i - 1);
      assert Enabled(states[i - 1], actions[i - 1]);
      StepKeepsInvariant(states[i - 1], actions[i - 1]);
    }
    forall n, m | Of(states[i], n).Holding? && Of(states[i], m).Holding?
      ensures n == m
    {
      assert TransactionOk(states[i], n) && TransactionOk(states[i], m);
    }
  }

  /** A shared database has no separate session to lose, so there the premise always holds. */
  lemma SharedNeverLosesSession(s: State, n: Node)
    requires s.shared
    ensures !Enabled(s, CoordinationSessionLost(n))
  {
  }

  /** `log` adds a publication of m inside the window of a later commit of n, made while m held the row. */
  ghost predicate Overtaken(before: seq<Commit>, log: seq<Commit>, n: Node, m: Node) {
    && |log| == |before| + 2
    && log[|before|].node == m && log[|before| + 1].node == n && log[|before| + 1].holder == Some(m)
    && log[|before| + 1].since < log[|before|].since < log[|before|].at < log[|before| + 1].at
    && !Fenced(log)
  }

  lemma RunExtend(states: seq<State>, actions: seq<Action>, a: Action)
    requires IsRun(states, actions) && Enabled(states[|actions|], a)
    ensures IsRun(states + [Next(states[|actions|], a)], actions + [a])
  {
  }

  lemma {:induction false} Acquires(s: State, m: Node) returns (states: seq<State>, actions: seq<Action>)
    requires s.rowLock.None? && s.ttl > 0
    ensures IsRun(states, actions) && states[0] == s && |actions| == 2
    ensures
      states[2] == s.(now := s.now + s.expiry + 1, step := s.step + 2, holder := Some(m),
                      expiry := s.now + s.expiry + 1 + s.ttl)
  {
    var s1 := s.(now := s.now + s.expiry + 1, step := s.step + 1);
    RunExtend([s], [], Tick(s.expiry + 1));
    RunExtend([s] + [s1], [] + [Tick(s.expiry + 1)], Acquire(m));
    states, actions := [s] + [s1] + [Next(s1, Acquire(m))], [] + [Tick(s.expiry + 1)] + [Acquire(m)];
  }

  /** Once the row is unlocked, another node can take the lease and commit a publication. */
  lemma {:induction false} TakeOver(s: State, m: Node) returns (states: seq<State>, actions: seq<Action>)
    requires s.rowLock.None? && !s.shared && s.ttl > 0 && Of(s, m) == NoTransaction
    ensures IsRun(states, actions) && states[0] == s
    ensures
      var end := states[|actions|];
      && end.holder == Some(m) && end.step == s.step + 5
      && end.log == s.log + [Commit(m, s.step + 3, s.step + 4, Some(m))]
      && forall k :: k != m ==> Of(end, k) == Of(s, k)
  {
    states, actions := Acquires(s, m);
    var s2 := states[2];
    var s3 := s2.(transactions := s.transactions[m := Open], step := s.step + 3);
    var s4 := s3.(rowLock := Some(m), renewed := s2.now + s.ttl,
                  transactions := s3.transactions[m := Holding(s.step + 3)], step := s.step + 4);
    assert Next(s2, Begin(m)) == s3 && Next(s3, Renew(m)) == s4;
    RunExtend(states, actions, Begin(m));
    states, actions := states + [s3], actions + [Begin(m)];
    RunExtend(states, actions, Renew(m));
    states, actions := states + [s4], actions + [Renew(m)];
    RunExtend(states, actions, DomainCommit(m));
    states, actions := states + [Next(s4, DomainCommit(m))], actions + [DomainCommit(m)];
  }

  /** With a separate database the premise is needed: from every window, losing the coordination
    * session lets another node publish inside it, and the first node's commit still follows. */
  lemma {:induction false} LostSessionBreaksFence(s: State, n: Node, m: Node)
    requires Inv(s) && !s.shared && s.ttl > 0 && Of(s, n).Holding? && m != n && Of(s, m) == NoTransaction
    ensures exists states: seq<State>, actions: seq<Action> ::
      IsRun(states, actions) && states[0] == s && Overtaken(s.log, states[|actions|].log, n, m)
  {
    assert TransactionOk(s, n);
    var lost := Next(s, CoordinationSessionLost(n));
    var states, actions := TakeOver(lost, m);
    var end := states[|actions|];
    var since := Of(s, n).since;
    assert Of(end, n) == Orphaned(since);
    RunExtend(states, actions, DomainCommit(n));
    var after := Next(end, DomainCommit(n));
    assert after.log == s.log + [Commit(m, s.step + 4, s.step + 5, Some(m))] + [Commit(n, since, s.step + 6, Some(m))];
    assert after.log[|s.log| + 1].holder != Some(after.log[|s.log| + 1].node);
    RunPrepend(s, CoordinationSessionLost(n), states + [after], actions + [DomainCommit(n)]);
    var all, steps := [s] + (states + [after]), [CoordinationSessionLost(n)] + (actions + [DomainCommit(n)]);
    assert all[|steps|] == after;
  }

  lemma RunPrepend(s: State, a: Action, states: seq<State>, actions: seq<Action>)
    requires IsRun(states, actions) && Enabled(s, a) && states[0] == Next(s, a)
    ensures IsRun([s] + states, [a] + actions)
  {
  }
}

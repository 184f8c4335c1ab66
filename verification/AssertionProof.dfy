/** The validator of persisted assertion histories.
  *
  * `FirstFault` is the first check that a history fails, in the validator's order; the methods are
  * the validator's own, with the error list and the metadata counter they update. The theorems say
  * which histories pass and what a passing history guarantees about every entry into Accepted.
  */
module AssertionProof {
  import opened Wrappers

  /** A persisted lifecycle event. `sequence` is None where the stored value is not an integer. */
  datatype Event = Event(
    sequence: Option<int>,
    from: Option<string>,
    to: string,
    authority: string,
    actor: Option<string>)

  datatype Fault =
    | NoEvents
    | InvalidSequence
    | Unordered
    | InitialPredecessor
    | Discontinuous
    | NotExactlyOne
    | NotAfterProposal
    | NotFromProposed
    | ActorMissing
    | SameActor
    | InvalidEntry
    | EarlyReacceptance
    | ReacceptanceActor

  datatype Complaint = About(assertionId: string, fault: Fault) | ReconstructionFailed

  const DETERMINING: set<string> := {"determiner", "reviewer", "acceptor"}

  predicate IsProposal(e: Event) {
    e.to == "Proposed" && e.authority == "proposer"
  }

  predicate Accepts(e: Event) {
    e.from == Some("Proposed") && e.to == "Accepted"
  }

  predicate IsDetermination(e: Event) {
    Accepts(e) && e.authority in DETERMINING
  }

  predicate HasActor(e: Event) {
    e.actor.Some? && e.actor.value != ""
  }

  /** An entry into Accepted that the reacceptance check looks at. */
  predicate Reaccepts(e: Event) {
    e.to == "Accepted" && e.from != Some("Proposed")
  }

  predicate AllNumbered(events: seq<Event>) {
    forall i :: 0 <= i < |events| ==> events[i].sequence.Some?
  }

  /** Sorted and without duplicates. */
  predicate StrictlyOrdered(events: seq<Event>)
    requires AllNumbered(events)
  {
    && (forall i, j :: 0 <= i < j < |events| ==> events[i].sequence.value <= events[j].sequence.value)
    && (forall i, j :: 0 <= i < j < |events| ==> events[i].sequence != events[j].sequence)
  }

  predicate Continuous(events: seq<Event>) {
    forall i :: 0 < i < |events| ==> events[i].from == Some(events[i - 1].to)
  }

  function Select(events: seq<Event>, keep: Event -> bool): (r: seq<Event>)
    ensures forall e :: e in r ==> e in events && keep(e)
  {
    if events == [] then []
    else (if keep(events[0]) then [events[0]] else []) + Select(events[1..], keep)
  }

  predicate Later(a: Event, b: Event) {
    a.sequence.Some? && b.sequence.Some? && a.sequence.value < b.sequence.value
  }

  /** The relation between the proposal and the determination. */
  function PairFault(p: Event, d: Event): Option<Fault> {
    if !Later(p, d) then Some(NotAfterProposal)
    else if d.from != Some("Proposed") then Some(NotFromProposed)
    else if !HasActor(p) || !HasActor(d) then Some(ActorMissing)
    else if p.actor == d.actor then Some(SameActor)
    else None
  }

  function EntryFault(e: Event, p: Event, d: Event): Option<Fault> {
    if !Reaccepts(e) then None
    else if e.from != Some("Disputed") || e.authority != "acceptor" then Some(InvalidEntry)
    else if !Later(d, e) then Some(EarlyReacceptance)
    else if !HasActor(e) || e.actor == p.actor then Some(ReacceptanceActor)
    else None
  }

  function FirstEntryFault(events: seq<Event>, p: Event, d: Event): (f: Option<Fault>)
    ensures f.None? <==> forall i :: 0 <= i < |events| ==> EntryFault(events[i], p, d).None?
  {
    if events == [] then None
    else if EntryFault(events[0], p, d).Some? then EntryFault(events[0], p, d)
    else FirstEntryFault(events[1..], p, d)
  }

  function FirstFault(events: seq<Event>): Option<Fault> {
    if events == [] then Some(NoEvents)
    else if !AllNumbered(events) then Some(InvalidSequence)
    else if !StrictlyOrdered(events) then Some(Unordered)
    else if events[0].from.Some? then Some(InitialPredecessor)
    else if !Continuous(events) then Some(Discontinuous)
    else
      var proposed, determined := Select(events, IsProposal), Select(events, IsDetermination);
      if |proposed| != 1 || |determined| != 1 then Some(NotExactlyOne)
      else
        var pair := PairFault(proposed[0], determined[0]);
        if pair.Some? then pair else FirstEntryFault(events, proposed[0], determined[0])
  }

  // ---- The validator ----

  /** One row of the joined event query: the assertion it belongs to and the event. */
  datatype Row = Row(assertionId: string, event: Event)

  function Group(rows: seq<Row>, id: string): seq<Event> {
    if rows == [] then []
    else (if rows[0].assertionId == id then [rows[0].event] else []) + Group(rows[1..], id)
  }

  lemma {:induction false} GroupUnfolds(rows: seq<Row>, id: string)
    requires rows != []
    ensures Group(rows, id) == (if rows[0].assertionId == id then [rows[0].event] else []) + Group(rows[1..], id)
  {
  }

  lemma {:induction false} GroupSnoc(rows: seq<Row>, row: Row, id: string)
    ensures Group(rows + [row], id) == Group(rows, id) + (if row.assertionId == id then [row.event] else [])
  {
    var longer := rows + [row];
    if rows == [] {
      assert longer[1..] == [];
    } else {
      assert longer[0] == rows[0] && longer[1..] == rows[1..] + [row];
      GroupSnoc(rows[1..], row, id);
      GroupUnfolds(rows, id);
      GroupUnfolds(longer, id);
    }
  }

  function Faults(ids: seq<string>, rows: seq<Row>): seq<Complaint> {
    if ids == [] then []
    else
      var last := ids[|ids| - 1];
      var f := FirstFault(Group(rows, last));
      Faults(ids[..|ids| - 1], rows) + (if f.Some? then [About(last, f.value)] else [])
  }

  predicate Passes(rows: seq<Row>, id: string) {
    FirstFault(Group(rows, id)).None?
  }

  function CountPassing(ids: seq<string>, rows: seq<Row>): (n: nat)
    ensures n <= |ids|
    ensures n == |ids| <==> forall id :: id in ids ==> Passes(rows, id)
    ensures |Faults(ids, rows)| == |ids| - n
  {
    if ids == [] then 0
    else
      var front, last := ids[..|ids| - 1], ids[|ids| - 1];
      assert forall id :: id in ids <==> id in front || id == last;
      CountPassing(front, rows) + (if Passes(rows, last) then 1 else 0)
  }

  lemma {:induction false} OneMoreJudged(ids: seq<string>, rows: seq<Row>, i: nat)
    requires i < |ids|
    ensures
      var f := FirstFault(Group(rows, ids[i]));
      && Faults(ids[..i + 1], rows) == Faults(ids[..i], rows) + (if f.Some? then [About(ids[i], f.value)] else [])
      && CountPassing(ids[..i + 1], rows) == CountPassing(ids[..i], rows) + (if f.None? then 1 else 0)
  {
    hide FirstFault, Group;
    assert ids[..i + 1][..i] == ids[..i];
  }

  lemma {:induction false} NoneJudged(ids: seq<string>, rows: seq<Row>)
    requires ids == []
    ensures Faults(ids, rows) == [] && CountPassing(ids, rows) == 0
  {
  }

  lemma GroupOfNone()
    ensures forall id :: Group([], id) == []
  {
  }

  lemma OneMoreRow(rows: seq<Row>, i: nat, groups: map<string, seq<Event>>)
    requires i < |rows|
    requires forall id :: id in groups ==> groups[id] == Group(rows[..i], id)
    ensures
      forall id :: id in groups ==>
        Group(rows[..i + 1], id) == groups[id] + (if rows[i].assertionId == id then [rows[i].event] else [])
  {
    hide Group;
    forall id | id in groups
      ensures Group(rows[..i + 1], id) == groups[id] + (if rows[i].assertionId == id then [rows[i].event] else [])
    {
      assert rows[..i + 1] == rows[..i] + [rows[i]];
      GroupSnoc(rows[..i], rows[i], id);
    }
  }

  class ProofValidator {
    var errors: seq<Complaint>
    var reconstructed: nat

    constructor ()
      ensures errors == [] && reconstructed == 0
    {
      errors, reconstructed := [], 0;
    }

    method AddError(c: Complaint)
      modifies this`errors
      ensures errors == old(errors) + [c]
    {
      errors := errors + [c];
    }

    method ValidateAssertionSequences(id: string, events: seq<Event>) returns (ok: bool)
      modifies this`errors
      ensures ok <==> AllNumbered(events) && StrictlyOrdered(events)
      ensures ok <==>
        && (forall i :: 0 <= i < |events| ==> events[i].sequence.Some?)
        && (forall i, j :: 0 <= i < j < |events| ==> events[i].sequence.value < events[j].sequence.value)
      ensures errors == old(errors) +
        if ok then []
        else [About(id, if forall i :: 0 <= i < |events| ==> events[i].sequence.Some? then Unordered
                        else InvalidSequence)]
    {
      if !AllNumbered(events) {
        AddError(About(id, InvalidSequence));
        return false;
      }
      if !StrictlyOrdered(events) {
        AddError(About(id, Unordered));
        return false;
      }
      return true;
    }

    method ValidateAssertionStateChain(id: string, events: seq<Event>) returns (ok: bool)
      requires events != []
      modifies this`errors
      ensures ok <==> events[0].from.None? && Continuous(events)
      ensures errors == old(errors) +
        if ok then [] else [About(id, if events[0].from.Some? then InitialPredecessor else Discontinuous)]
    {
      if events[0].from.Some? {
        AddError(About(id, InitialPredecessor));
        return false;
      }
      for i := 1 to |events|
        invariant errors == old(errors)
        invariant forall j :: 0 < j < i ==> events[j].from == Some(events[j - 1].to)
      {
        if events[i].from != Some(events[i - 1].to) {
          AddError(About(id, Discontinuous));
          return false;
        }
      }
      return true;
    }

    method ValidateAssertionActorsAndStates(id: string, p: Event, d: Event) returns (ok: bool)
      requires p.sequence.Some? && d.sequence.Some?
      modifies this`errors
      ensures ok <==> PairFault(p, d).None?
      ensures errors == old(errors) + if ok then [] else [About(id, PairFault(p, d).value)]
      ensures ok <==>
        && p.sequence.value < d.sequence.value && d.from == Some("Proposed")
        && p.actor != None && p.actor != Some("") && d.actor != None && d.actor != Some("") && p.actor != d.actor
      ensures errors == old(errors) +
        if ok then []
        else [About(id, if p.sequence.value >= d.sequence.value then NotAfterProposal
                        else if d.from != Some("Proposed") then NotFromProposed
                        else if p.actor in {None, Some("")} || d.actor in {None, Some("")} then ActorMissing
                        else SameActor)]
    {
      if p.sequence.value >= d.sequence.value {
        AddError(About(id, NotAfterProposal));
        return false;
      }
      if d.from != Some("Proposed") {
        AddError(About(id, NotFromProposed));
        return false;
      }
      if !HasActor(p) || !HasActor(d) {
        AddError(About(id, ActorMissing));
        return false;
      }
      if p.actor == d.actor {
        AddError(About(id, SameActor));
        return false;
      }
      return true;
    }

    method ValidateReacceptanceEvents(id: string, events: seq<Event>, p: Event, d: Event) returns (ok: bool)
      requires AllNumbered(events) && d.sequence.Some?
      modifies this`errors
      ensures ok <==> FirstEntryFault(events, p, d).None?
      ensures errors == old(errors) + if ok then [] else [About(id, FirstEntryFault(events, p, d).value)]
      ensures ok <==>
        forall i :: 0 <= i < |events| && events[i].to == "Accepted" && events[i].from != Some("Proposed") ==>
          (&& events[i].from == Some("Disputed") && events[i].authority == "acceptor"
           && events[i].sequence.value > d.sequence.value
           && events[i].actor != None && events[i].actor != Some("") && events[i].actor != p.actor)
    {
      for i := 0 to |events|
        invariant errors == old(errors)
        invariant FirstEntryFault(events, p, d) == FirstEntryFault(events[i..], p, d)
      {
        assert events[i..][1..] == events[i + 1..];
        var e := events[i];
        if e.to != "Accepted" || e.from == Some("Proposed") {
          continue;
        }
        if e.from != Some("Disputed") || e.authority != "acceptor" {
          AddError(About(id, InvalidEntry));
          return false;
        }
        if e.sequence.value <= d.sequence.value {
          AddError(About(id, EarlyReacceptance));
          return false;
        }
        if !HasActor(e) || e.actor == p.actor {
          AddError(About(id, ReacceptanceActor));
          return false;
        }
      }
      return true;
    }

    method ValidateReconstructedAssertion(id: string, events: seq<Event>) returns (ok: bool)
      modifies this`errors
      ensures ok <==> FirstFault(events).None?
      ensures errors == old(errors) + if ok then [] else [About(id, FirstFault(events).value)]
    {
      if events == [] {
        AddError(About(id, NoEvents));
        return false;
      }
      ok := ValidateAssertionSequences(id, events);
      if !ok {
        return false;
      }
      ok := ValidateAssertionStateChain(id, events);
      if !ok {
        return false;
      }
      var proposed, determined := Select(events, IsProposal), Select(events, IsDetermination);
      if |proposed| != 1 || |determined| != 1 {
        AddError(About(id, NotExactlyOne));
        return false;
      }
      assert proposed[0] in events && determined[0] in events;
      ok := ValidateAssertionActorsAndStates(id, proposed[0], determined[0]);
      if ok {
        ok := ValidateReacceptanceEvents(id, events, proposed[0], determined[0]);
      }
    }

    /** `ids` are the projected assertions and `rows` the events the query returned for them, so
      * every row belongs to one of them. */
    method ProjectedAssertionHistoriesAreValid(ids: seq<string>, rows: seq<Row>) returns (ok: bool)
      requires forall row :: row in rows ==> row.assertionId in ids
      modifies this
      ensures ok <==> forall id :: id in ids ==> Passes(rows, id)
      ensures reconstructed == CountPassing(ids, rows)
      ensures errors == old(errors) + Faults(ids, rows) + if ok then [] else [ReconstructionFailed]
    {
      hide FirstFault, Group, Faults, CountPassing;
      reconstructed := 0;
      if ids == [] {
        NoneJudged(ids, rows);
        return true;
      }
      GroupOfNone();
      assert rows[..0] == [];
      var groups := map id | id in ids :: [];
      for i := 0 to |rows|
        invariant reconstructed == 0 && errors == old(errors)
        invariant groups.Keys == set id | id in ids
        invariant forall id :: id in groups ==> groups[id] == Group(rows[..i], id)
      {
        var row := rows[i];
        assert row in rows;
        OneMoreRow(rows, i, groups);
        groups := groups[row.assertionId := groups[row.assertionId] + [row.event]];
      }
      assert rows[..|rows|] == rows;
      NoneJudged(ids[..0], rows);
      var count: nat := 0;
      for i := 0 to |ids|
        invariant reconstructed == 0
        invariant count == CountPassing(ids[..i], rows)
        invariant errors == old(errors) + Faults(ids[..i], rows)
      {
        assert ids[i] in ids;
        OneMoreJudged(ids, rows, i);
        var passed := ValidateReconstructedAssertion(ids[i], groups[ids[i]]);
        if passed {
          count := count + 1;
        }
      }
      assert ids[..|ids|] == ids;
      reconstructed := count;
      if count != |ids| {
        AddError(ReconstructionFailed);
        return false;
      }
      return true;
    }
  }

  // ---- Which complaint is made ----

  /** The complaint about a history is that of the first check it fails, the checks being made in
    * this order: some event, numbers, their order, the initial state, continuity, one proposal and
    * one determination, then the pair and the reacceptances. */
  lemma {:induction false} ComplaintInOrder(events: seq<Event>)
    ensures FirstFault(events) == Some(NoEvents) <==> events == []
    ensures events != [] ==>
      (FirstFault(events) == Some(InvalidSequence) <==> exists i :: 0 <= i < |events| && events[i].sequence.None?)
    ensures events != [] && Numbered(events) ==>
      (FirstFault(events) == Some(Unordered) <==>
       exists i, j :: 0 <= i < j < |events| && events[i].sequence.value >= events[j].sequence.value)
    ensures events != [] && Increasing(events) ==>
      (FirstFault(events) == Some(InitialPredecessor) <==> events[0].from != None)
    ensures events != [] && Increasing(events) && events[0].from == None ==>
      (FirstFault(events) == Some(Discontinuous) <==>
       exists i :: 0 < i < |events| && events[i].from != Some(events[i - 1].to))
    ensures events != [] && Increasing(events) && events[0].from == None && Connected(events) ==>
      (FirstFault(events) == Some(NotExactlyOne) <==>
       |Select(events, Proposes)| != 1 || |Select(events, FirstAccepts)| != 1)
  {
    SelectAlike(events, IsProposal, Proposes);
    SelectAlike(events, IsDetermination, FirstAccepts);
    hide Select, PairFault;
    if FirstFault(events).Some? && |Select(events, IsProposal)| == 1 && |Select(events, IsDetermination)| == 1 {
      EntryFaultKinds(events, Select(events, IsProposal)[0], Select(events, IsDetermination)[0]);
      PairFaultKinds(Select(events, IsProposal)[0], Select(events, IsDetermination)[0]);
    }
  }

  predicate Proposes(e: Event) {
    e.to == "Proposed" && e.authority == "proposer"
  }

  predicate FirstAccepts(e: Event) {
    e.from == Some("Proposed") && e.to == "Accepted" && Determines(e.authority)
  }

  predicate Numbered(events: seq<Event>) {
    forall i :: 0 <= i < |events| ==> events[i].sequence.Some?
  }

  predicate Increasing(events: seq<Event>) {
    Numbered(events) && forall i, j :: 0 <= i < j < |events| ==> events[i].sequence.value < events[j].sequence.value
  }

  predicate Connected(events: seq<Event>) {
    forall i :: 0 < i < |events| ==> events[i].from == Some(events[i - 1].to)
  }

  lemma {:induction false} SelectAlike(events: seq<Event>, keep: Event -> bool, other: Event -> bool)
    requires forall e :: keep(e) == other(e)
    ensures Select(events, keep) == Select(events, other)
  {
    if events != [] {
      SelectAlike(events[1..], keep, other);
    }
  }

  predicate Late(f: Option<Fault>) {
    f.None? || f.value.NotAfterProposal? || f.value.NotFromProposed? || f.value.ActorMissing? || f.value.SameActor?
    || f.value.InvalidEntry? || f.value.EarlyReacceptance? || f.value.ReacceptanceActor?
  }

  lemma PairFaultKinds(p: Event, d: Event)
    ensures Late(PairFault(p, d))
  {
  }

  lemma {:induction false} EntryFaultKinds(events: seq<Event>, p: Event, d: Event)
    ensures Late(FirstEntryFault(events, p, d))
  {
    if events != [] {
      EntryFaultKinds(events[1..], p, d);
    }
  }

  // ---- Which histories pass ----

  /** A connected path with strictly increasing numbers, from no state, with one proposal at `p` and
    * one determination at `d` by two different actors, and only Disputed-to-Accepted reacceptances
    * after it, by acceptors other than the proposer. */
  predicate Certified(events: seq<Event>, p: nat, d: nat) {
    && p < d < |events|
    && (forall i :: 0 <= i < |events| ==> events[i].sequence.Some?)
    && (forall i, j :: 0 <= i < j < |events| ==> events[i].sequence.value < events[j].sequence.value)
    && events[0].from == None
    && (forall i :: 0 < i < |events| ==> events[i].from == Some(events[i - 1].to))
    && (forall i :: 0 <= i < |events| ==>
          (events[i].to == "Proposed" && events[i].authority == "proposer" <==> i == p))
    && (forall i :: 0 <= i < |events| ==>
          (events[i].from == Some("Proposed") && events[i].to == "Accepted" && Determines(events[i].authority)
           <==> i == d))
    && events[p].actor != None && events[p].actor != Some("")
    && events[d].actor != None && events[d].actor != Some("") && events[p].actor != events[d].actor
    && (forall i :: 0 <= i < |events| && events[i].to == "Accepted" && events[i].from != Some("Proposed") ==>
          i > d && Reacceptance(events, p, i))
  }

  predicate Determines(authority: string) {
    authority == "determiner" || authority == "reviewer" || authority == "acceptor"
  }

  predicate Reacceptance(events: seq<Event>, p: nat, i: nat)
    requires p < |events| && i < |events|
  {
    && events[i].from == Some("Disputed") && events[i].authority == "acceptor"
    && events[i].actor != None && events[i].actor != Some("") && events[i].actor != events[p].actor
  }

  predicate OnlyAt(events: seq<Event>, keep: Event -> bool, k: int) {
    forall i :: 0 <= i < |events| ==> (keep(events[i]) <==> i == k)
  }

  lemma {:induction false} SelectNone(events: seq<Event>, keep: Event -> bool)
    ensures Select(events, keep) == [] <==> forall i :: 0 <= i < |events| ==> !keep(events[i])
  {
    if events != [] {
      SelectNone(events[1..], keep);
      assert forall i :: 0 < i < |events| ==> events[i] == events[1..][i - 1];
      assert forall i :: 0 <= i < |events[1..]| ==> events[1..][i] == events[i + 1];
    }
  }

  /** A single selected event sits at a single position. */
  lemma {:induction false} SelectOne(events: seq<Event>, keep: Event -> bool) returns (k: nat)
    requires |Select(events, keep)| == 1
    ensures k < |events| && events[k] == Select(events, keep)[0] && OnlyAt(events, keep, k)
  {
    if keep(events[0]) {
      k := 0;
      SelectNone(events[1..], keep);
      assert forall i :: 0 < i < |events| ==> events[i] == events[1..][i - 1];
    } else {
      var rest := SelectOne(events[1..], keep);
      k := rest + 1;
      assert forall i :: 0 < i < |events| ==> events[i] == events[1..][i - 1];
    }
  }

  lemma {:induction false} OnlyAtSelectsOne(events: seq<Event>, keep: Event -> bool, k: nat)
    requires k < |events| && OnlyAt(events, keep, k)
    ensures Select(events, keep) == [events[k]]
  {
    assert forall i :: 0 <= i < |events[1..]| ==> events[1..][i] == events[i + 1];
    if k == 0 {
      SelectNone(events[1..], keep);
    } else {
      assert !keep(events[0]);
      OnlyAtSelectsOne(events[1..], keep, k - 1);
    }
  }

  lemma {:induction false} PassingParts(events: seq<Event>)
    requires FirstFault(events).None?
    ensures AllNumbered(events) && StrictlyOrdered(events) && events != [] && events[0].from.None? && Continuous(events)
    ensures |Select(events, IsProposal)| == 1 && |Select(events, IsDetermination)| == 1
    ensures
      var p, d := Select(events, IsProposal)[0], Select(events, IsDetermination)[0];
      PairFault(p, d).None? && FirstEntryFault(events, p, d).None?
  {
    hide Select, PairFault, FirstEntryFault, AllNumbered, StrictlyOrdered, Continuous;
  }

  lemma PassingIsCertified(events: seq<Event>) returns (p: nat, d: nat)
    requires FirstFault(events).None?
    ensures Certified(events, p, d)
  {
    hide Select, FirstFault, FirstEntryFault;
    PassingParts(events);
    p := SelectOne(events, IsProposal);
    d := SelectOne(events, IsDetermination);
    forall i | 0 <= i < |events| && Reaccepts(events[i])
      ensures i > d && Reacceptance(events, p, i)
    {
      assert EntryFault(events[i], events[p], events[d]).None?;
    }
  }

  /** What certification says about the single checks. */
  lemma CertifiedParts(events: seq<Event>, p: nat, d: nat)
    requires Certified(events, p, d)
    ensures AllNumbered(events) && StrictlyOrdered(events) && events[0].from.None? && Continuous(events)
    ensures OnlyAt(events, IsProposal, p) && OnlyAt(events, IsDetermination, d)
    ensures PairFault(events[p], events[d]).None?
  {
  }

  lemma CertifiedEntry(events: seq<Event>, p: nat, d: nat, i: nat)
    requires Certified(events, p, d) && i < |events|
    ensures EntryFault(events[i], events[p], events[d]).None?
  {
    if Reaccepts(events[i]) {
      assert i > d && Reacceptance(events, p, i);
    }
  }

  lemma CertifiedPasses(events: seq<Event>, p: nat, d: nat)
    requires Certified(events, p, d)
    ensures FirstFault(events).None?
  {
    CertifiedParts(events, p, d);
    OnlyAtSelectsOne(events, IsProposal, p);
    OnlyAtSelectsOne(events, IsDetermination, d);
    forall i | 0 <= i < |events|
      ensures EntryFault(events[i], events[p], events[d]).None?
    {
      CertifiedEntry(events, p, d, i);
    }
    hide Certified, Select, EntryFault, PairFault, AllNumbered, StrictlyOrdered, Continuous;
  }

  /** The validator accepts exactly the certified histories. */
  lemma PassesExactlyWhenCertified(events: seq<Event>)
    ensures FirstFault(events).None? <==> exists p: nat, d: nat :: Certified(events, p, d)
  {
    if FirstFault(events).None? {
      var p, d := PassingIsCertified(events);
    }
    if p: nat, d: nat :| Certified(events, p, d) {
      CertifiedPasses(events, p, d);
    }
  }

  // ---- Soundness ----

  /** An entry into Accepted is the determination or a later Disputed-to-Accepted by an acceptor,
    * and in both cases by a known actor who is not the proposer. */
  predicate GuardedEntry(events: seq<Event>, p: nat, d: nat, i: nat)
    requires p < |events| && d < |events| && i < |events|
  {
    events[i].to == "Accepted" ==>
      && (i == d || (i > d && events[i].from == Some("Disputed") && events[i].authority == "acceptor"))
      && events[i].actor != None && events[i].actor != Some("") && events[i].actor != events[p].actor
  }

  predicate Guarded(events: seq<Event>, p: nat, d: nat)
    requires p < |events| && d < |events|
  {
    forall i :: 0 <= i < |events| ==> GuardedEntry(events, p, d, i)
  }

  /** No event takes Proposed to Accepted on an authority the validator does not know. */
  predicate KnownAuthorities(events: seq<Event>) {
    forall i :: 0 <= i < |events| && events[i].from == Some("Proposed") && events[i].to == "Accepted" ==>
      Determines(events[i].authority)
  }

  /** An accepted history is sound exactly when its Proposed-to-Accepted events name known authorities:
    * neither selection nor the reacceptance check looks at one that does not. */
  lemma SoundExactlyWhenAuthoritiesKnown(events: seq<Event>, p: nat, d: nat)
    requires Certified(events, p, d)
    ensures Guarded(events, p, d) <==> KnownAuthorities(events)
  {
    if Guarded(events, p, d) {
      forall i | 0 <= i < |events| && Accepts(events[i])
        ensures events[i].authority in DETERMINING
      {
        assert GuardedEntry(events, p, d, i);
      }
    }
    if KnownAuthorities(events) {
      forall i | 0 <= i < |events|
        ensures GuardedEntry(events, p, d, i)
      {
        if Accepts(events[i]) {
          assert IsDetermination(events[i]);
        }
      }
    }
  }

  predicate Enters(e: Event, state: string) {
    e.to == state
  }

  predicate Leaves(e: Event, state: string) {
    e.from == Some(state)
  }

  /** On a connected path that starts from no state, a state left at two positions was entered at
    * the two positions before them. */
  lemma LeftTwiceWasEnteredTwice(events: seq<Event>, state: string, i: nat, j: nat)
    requires events != [] && events[0].from.None? && Continuous(events)
    requires i < j < |events| && Leaves(events[i], state) && Leaves(events[j], state)
    ensures 0 < i && Enters(events[i - 1], state) && Enters(events[j - 1], state)
  {
  }

  /** Soundness: when an accepted history enters Proposed only once, every entry into Accepted is
    * guarded. */
  lemma AcceptedOnceProposedIsSound(events: seq<Event>) returns (p: nat, d: nat)
    requires FirstFault(events).None?
    requires forall i, j :: 0 <= i < j < |events| ==> !(Enters(events[i], "Proposed") && Enters(events[j], "Proposed"))
    ensures Certified(events, p, d) && Guarded(events, p, d)
  {
    p, d := PassingIsCertified(events);
    forall i | 0 <= i < |events| && Accepts(events[i])
      ensures events[i].authority in DETERMINING
    {
      assert IsDetermination(events[d]);
      if i != d {
        LeftTwiceWasEnteredTwice(events, "Proposed", if i < d then i else d, if i < d then d else i);
        assert false;
      }
    }
    SoundExactlyWhenAuthoritiesKnown(events, p, d);
  }

  const SECOND_PROPOSAL: seq<Event> := [
    Event(Some(1), None, "Proposed", "proposer", Some("alice")),
    Event(Some(2), Some("Proposed"), "Accepted", "determiner", Some("bob")),
    Event(Some(3), Some("Accepted"), "Proposed", "reviewer", Some("carol")),
    Event(Some(4), Some("Proposed"), "Accepted", "proposer", Some("alice"))]

  lemma SecondProposalIsCertified()
    ensures Certified(SECOND_PROPOSAL, 0, 1)
  {
    assert |SECOND_PROPOSAL| == 4;
  }

  /** Entered twice, it may not be: this history passes although its last acceptance is the proposer's own. */
  lemma SecondProposalAcceptedByProposer()
    ensures SECOND_PROPOSAL[3].to == "Accepted" && SECOND_PROPOSAL[3].actor == SECOND_PROPOSAL[0].actor
    ensures FirstFault(SECOND_PROPOSAL).None? && Certified(SECOND_PROPOSAL, 0, 1) && !Guarded(SECOND_PROPOSAL, 0, 1)
  {
    SecondProposalIsCertified();
    CertifiedPasses(SECOND_PROPOSAL, 0, 1);
    hide FirstFault, Certified;
    assert !GuardedEntry(SECOND_PROPOSAL, 0, 1, 3);
  }
}

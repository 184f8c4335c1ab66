/** The generation-keyed snapshot cache: readers, slow loaders, publications and invalidations.
  *
  * A reader captures the generation under the generation lock, which an invalidation holds from
  * its increment until it returns; looking up, loading and storing happen outside that lock. Cache
  * entries carry, beside the snapshot, the step at which their load began and the number of
  * publications it saw, so that freshness can be stated. The persistence URL is fixed.
  */
module SnapshotCache {
  import opened Wrappers

  type ReaderId = nat

  datatype Publication = Publication(id: string, revision: string, body: string)

  /** What a load returns. */
  datatype Snapshot = Empty | Of(publication: Publication)

  datatype Key =
    | Unmanaged(graph: nat, generation: nat)
    | Bound(revision: string, publication: string, generation: nat)

  datatype Entry = Entry(snapshot: Snapshot, began: nat, saw: nat)

  datatype Phase =
    | Captured(generation: nat, at: nat)
    | Loading(key: Key, at: nat, began: nat)
    | Loaded(key: Key, at: nat, entry: Entry)
    | Returned(key: Key, at: nat, entry: Entry)

  /** `returnedAt[k]` is the step at which invalidation k returned and `sizes[k]` the number of
    * publications by then. */
  datatype State = State(
    step: nat,
    published: seq<Publication>,
    generation: nat,
    invalidating: bool,
    returnedAt: seq<nat>,
    sizes: seq<nat>,
    cache: map<Key, Entry>,
    readers: map<ReaderId, Phase>)

  datatype Action =
    | Publish(publication: Publication)
    | Bump
    | Clear(keys: set<Key>)
    | InvalidationReturns
    | Capture(reader: ReaderId)
    | Lookup(reader: ReaderId, key: Key)
    | Read(reader: ReaderId)
    | Store(reader: ReaderId)

  function Latest(published: seq<Publication>): Snapshot {
    if published == [] then Empty else Of(published[|published| - 1])
  }

  ghost predicate IsDirectLoad(published: seq<Publication>, revision: string, id: string, snapshot: Snapshot) {
    && snapshot.Of? && snapshot.publication in published
    && snapshot.publication.id == id && snapshot.publication.revision == revision
  }

  /** The position of a publication id, or the length when it is absent. */
  function Position(published: seq<Publication>, id: string): (n: nat)
    ensures n <= |published| && (n < |published| ==> published[n].id == id)
  {
    if published == [] || published[0].id == id then 0 else 1 + Position(published[1..], id)
  }

  /** A direct load; None where the source raises, and a raising load is not cached. */
  function Load(published: seq<Publication>, key: Key): Option<Snapshot> {
    match key
    case Unmanaged(_, _) => Some(Latest(published))
    case Bound(revision, id, _) =>
      var n := Position(published, id);
      if n < |published| && published[n].revision == revision then Some(Of(published[n])) else None
  }

  predicate Enabled(s: State, a: Action) {
    match a
    case Publish(p) => forall i :: 0 <= i < |s.published| ==> s.published[i].id != p.id
    case Bump => !s.invalidating
    case Clear(_) => true
    case InvalidationReturns => s.invalidating
    case Capture(r) => !s.invalidating && r !in s.readers
    case Lookup(r, key) => r in s.readers && s.readers[r].Captured? && key.generation == s.readers[r].generation
    case Read(r) => r in s.readers && s.readers[r].Loading?
    case Store(r) => r in s.readers && s.readers[r].Loaded?
  }

  function Effect(s: State, a: Action): State
    requires Enabled(s, a)
  {
    match a
    case Publish(p) => s.(published := s.published + [p])
    case Bump => s.(generation := s.generation + 1, invalidating := true)
    case Clear(keys) => s.(cache := s.cache - keys)
    case InvalidationReturns =>
      s.(invalidating := false, returnedAt := s.returnedAt + [s.step], sizes := s.sizes + [|s.published|])
    case Capture(r) => s.(readers := s.readers[r := Captured(s.generation, s.step)])
    case Lookup(r, key) =>
      var at := s.readers[r].at;
      s.(readers := s.readers[r := if key in s.cache then Returned(key, at, s.cache[key]) else Loading(key, at, s.step)])
    case Read(r) =>
      var (key, at, began) := (s.readers[r].key, s.readers[r].at, s.readers[r].began);
      var snapshot := Load(s.published, key);
      if snapshot.None? then s.(readers := s.readers - {r})
      else s.(readers := s.readers[r := Loaded(key, at, Entry(snapshot.value, began, |s.published|))])
    case Store(r) =>
      var (key, at, entry) := (s.readers[r].key, s.readers[r].at, s.readers[r].entry);
      s.(cache := if key in s.cache then s.cache else s.cache[key := entry],
         readers := s.readers[r := Returned(key, at, entry)])
  }

  function Next(s: State, a: Action): State
    requires Enabled(s, a)
  {
    Effect(s, a).(step := s.step + 1)
  }

  // ---- The invariant ----

  ghost predicate DistinctIds(published: seq<Publication>) {
    forall i, j :: 0 <= i < j < |published| ==> published[i].id != published[j].id
  }

  /** A load that began in generation g began after invalidation g - 1 had returned. */
  ghost predicate BeganIn(s: State, generation: nat, began: nat) {
    && generation <= |s.returnedAt| && began < s.step
    && (generation > 0 ==> s.returnedAt[generation - 1] < began)
  }

  ghost predicate EntryOk(s: State, key: Key, entry: Entry) {
    && |s.sizes| == |s.returnedAt|
    && BeganIn(s, key.generation, entry.began)
    && entry.saw <= |s.published|
    && (key.generation > 0 ==> s.sizes[key.generation - 1] <= entry.saw)
    && match key
       case Unmanaged(_, _) => entry.snapshot == Latest(s.published[..entry.saw])
       case Bound(revision, id, _) => IsDirectLoad(s.published, revision, id, entry.snapshot)
  }

  /** Invalidations that returned before the capture are covered by the captured generation. */
  ghost predicate CapturedOk(s: State, generation: nat, at: nat) {
    && generation <= |s.returnedAt| && at < s.step
    && (forall k :: 0 <= k < |s.returnedAt| && s.returnedAt[k] < at ==> k < generation)
    && (generation > 0 ==> s.returnedAt[generation - 1] < at)
  }

  ghost predicate PhaseOk(s: State, p: Phase) {
    match p
    case Captured(generation, at) => CapturedOk(s, generation, at)
    case Loading(key, at, began) =>
      CapturedOk(s, key.generation, at) && BeganIn(s, key.generation, began)
    case Loaded(key, at, entry) => CapturedOk(s, key.generation, at) && EntryOk(s, key, entry)
    case Returned(key, at, entry) => CapturedOk(s, key.generation, at) && EntryOk(s, key, entry)
  }

  ghost predicate Inv(s: State) {
    && DistinctIds(s.published)
    && |s.returnedAt| == |s.sizes|
    && s.generation == |s.returnedAt| + (if s.invalidating then 1 else 0)
    && (forall k :: 0 <= k < |s.returnedAt| ==> s.returnedAt[k] < s.step)
    && (forall j, k :: 0 <= j < k < |s.returnedAt| ==> s.returnedAt[j] < s.returnedAt[k])
    && (forall j, k :: 0 <= j < k < |s.sizes| ==> s.sizes[j] <= s.sizes[k])
    && (forall k :: 0 <= k < |s.sizes| ==> s.sizes[k] <= |s.published|)
    && (forall key :: key in s.cache ==> EntryOk(s, key, s.cache[key]))
    && (forall r :: r in s.readers ==> PhaseOk(s, s.readers[r]))
  }

  lemma EntryStays(s: State, a: Action, key: Key, entry: Entry)
    requires Inv(s) && Enabled(s, a) && EntryOk(s, key, entry)
    ensures EntryOk(Next(s, a), key, entry)
  {
    if a.Publish? {
      assert (s.published + [a.publication])[..entry.saw] == s.published[..entry.saw];
    }
  }

  lemma PhaseStays(s: State, a: Action, p: Phase)
    requires Inv(s) && Enabled(s, a) && PhaseOk(s, p)
    ensures PhaseOk(Next(s, a), p)
  {
    if p.Loaded? || p.Returned? {
      EntryStays(s, a, p.key, p.entry);
    }
  }

  lemma ReadIsDirect(s: State, r: ReaderId)
    requires Inv(s) && Enabled(s, Read(r)) && Load(s.published, s.readers[r].key).Some?
    ensures
      var p := s.readers[r];
      EntryOk(s, p.key, Entry(Load(s.published, p.key).value, p.began, |s.published|))
  {
    assert PhaseOk(s, s.readers[r]);
    assert s.published[..|s.published|] == s.published;
  }

  lemma CacheStays(s: State, a: Action, key: Key)
    requires Inv(s) && Enabled(s, a) && key in Next(s, a).cache
    ensures EntryOk(Next(s, a), key, Next(s, a).cache[key])
  {
    if key in s.cache {
      EntryStays(s, a, key, s.cache[key]);
    } else {
      assert a.Store? && PhaseOk(s, s.readers[a.reader]);
      EntryStays(s, a, key, s.readers[a.reader].entry);
    }
  }

  lemma ReaderStays(s: State, a: Action, r: ReaderId)
    requires Inv(s) && Enabled(s, a) && r in Next(s, a).readers
    ensures PhaseOk(Next(s, a), Next(s, a).readers[r])
  {
    if r in s.readers {
      assert PhaseOk(s, s.readers[r]);
      if Next(s, a).readers[r] == s.readers[r] {
        PhaseStays(s, a, s.readers[r]);
      } else {
        PhaseAdvances(s, a, r);
      }
    }
  }

  lemma PhaseAdvances(s: State, a: Action, r: ReaderId)
    requires Inv(s) && Enabled(s, a) && r in s.readers && r in Next(s, a).readers
    requires Next(s, a).readers[r] != s.readers[r]
    ensures PhaseOk(Next(s, a), Next(s, a).readers[r])
  {
    assert PhaseOk(s, s.readers[r]);
    if a.Read? || a.Store? {
      EntryArrives(s, a, r);
    } else if a.Lookup? {
      LookupAdvances(s, r, a.key);
    }
  }

  lemma EntryArrives(s: State, a: Action, r: ReaderId)
    requires Inv(s) && Enabled(s, a) && r in s.readers && r in Next(s, a).readers && (a == Read(r) || a == Store(r))
    ensures PhaseOk(Next(s, a), Next(s, a).readers[r])
  {
    assert PhaseOk(s, s.readers[r]);
    hide EntryOk, Load;
    if a.Read? {
      ReadIsDirect(s, r);
      EntryStays(s, a, s.readers[r].key, Next(s, a).readers[r].entry);
    } else {
      EntryStays(s, a, s.readers[r].key, s.readers[r].entry);
    }
  }

  lemma LookupAdvances(s: State, r: ReaderId, key: Key)
    requires Inv(s) && Enabled(s, Lookup(r, key)) && r in s.readers && r in Next(s, Lookup(r, key)).readers
    ensures PhaseOk(Next(s, Lookup(r, key)), Next(s, Lookup(r, key)).readers[r])
  {
    assert PhaseOk(s, s.readers[r]);
    hide EntryOk, Load;
    if key in s.cache {
      EntryStays(s, Lookup(r, key), key, s.cache[key]);
    }
  }

  lemma StepKeepsInvariant(s: State, a: Action)
    requires Inv(s) && Enabled(s, a)
    ensures Inv(Next(s, a))
  {
    var t := Next(s, a);
    forall key | key in t.cache
      ensures EntryOk(t, key, t.cache[key])
    {
      CacheStays(s, a, key);
    }
    forall r | r in t.readers
      ensures PhaseOk(t, t.readers[r])
    {
      ReaderStays(s, a, r);
    }
  }

  ghost predicate IsRun(states: seq<State>, actions: seq<Action>) {
    && |states| == |actions| + 1
    && forall i :: 0 <= i < |actions| ==> Enabled(states[i], actions[i]) && states[i + 1] == Next(states[i], actions[i])
  }

  function Initial(published: seq<Publication>): State {
    State(0, published, 0, false, [], [], map[], map[])
  }

  lemma {:induction false} RunsKeepInvariant(states: seq<State>, actions: seq<Action>, i: nat)
    requires IsRun(states, actions) && i <= |actions|
    requires states[0] == Initial(states[0].published) && DistinctIds(states[0].published)
    ensures Inv(states[i])
  {
    if i > 0 {
      RunsKeepInvariant(states, actions, i - 1);
      assert Enabled(states[i - 1], actions[i - 1]);
      StepKeepsInvariant(states[i - 1], actions[i - 1]);
    }
  }

  /** Freshness. A reader that captured its generation after invalidation k returned is never given
    * a snapshot whose load began before that return, however late a slow loader stores its result;
    * the load saw every publication made by then, and an unmanaged snapshot is the newest of
    * those it saw. */
  lemma ReadersAreFresh(states: seq<State>, actions: seq<Action>, i: nat, r: ReaderId, k: nat)
    requires IsRun(states, actions) && i <= |actions|
    requires states[0] == Initial(states[0].published) && DistinctIds(states[0].published)
    requires r in states[i].readers && states[i].readers[r].Returned?
    requires k < |states[i].returnedAt| && states[i].returnedAt[k] < states[i].readers[r].at
    ensures
      var entry := states[i].readers[r].entry;
      && states[i].returnedAt[k] < entry.began
      && k < |states[i].sizes| && states[i].sizes[k] <= entry.saw <= |states[i].published|
      && (states[i].readers[r].key.Unmanaged? ==>
            entry.snapshot == if entry.saw == 0 then Empty else Of(states[i].published[entry.saw - 1]))
      && (states[i].readers[r].key.Bound? ==>
            && entry.snapshot.Of? && entry.snapshot.publication in states[i].published
            && entry.snapshot.publication.id == states[i].readers[r].key.publication
            && entry.snapshot.publication.revision == states[i].readers[r].key.revision)
  {
    RunsKeepInvariant(states, actions, i);
    assert PhaseOk(states[i], states[i].readers[r]);
  }

  /** What a direct load is: the last publication, if any, for an unmanaged graph, and for a bound one
    * the publication with its id, provided that it has its revision. */
  lemma {:induction false} LoadExactly(published: seq<Publication>, key: Key, snapshot: Snapshot)
    requires DistinctIds(published)
    ensures key.Unmanaged? ==>
      (Load(published, key) == Some(snapshot) <==>
       if published == [] then snapshot == Empty else snapshot == Of(published[|published| - 1]))
    ensures key.Bound? ==>
      (Load(published, key) == Some(snapshot) <==>
       && snapshot.Of? && snapshot.publication in published
       && snapshot.publication.id == key.publication && snapshot.publication.revision == key.revision)
  {
    if key.Bound? && snapshot.Of? && snapshot.publication in published {
      PositionFinds(published, snapshot.publication);
    }
  }

  /** A cached bound snapshot equals a direct load of its immutable publication, now and after any
    * later publications. */
  lemma {:induction false} BoundSnapshotsAreExact(states: seq<State>, actions: seq<Action>, i: nat, key: Key)
    requires IsRun(states, actions) && i <= |actions|
    requires states[0] == Initial(states[0].published) && DistinctIds(states[0].published)
    requires key in states[i].cache && key.Bound?
    ensures Load(states[i].published, key) == Some(states[i].cache[key].snapshot)
    ensures
      var snapshot := states[i].cache[key].snapshot;
      && snapshot.Of? && snapshot.publication in states[i].published
      && snapshot.publication.id == key.publication && snapshot.publication.revision == key.revision
  {
    RunsKeepInvariant(states, actions, i);
    assert EntryOk(states[i], key, states[i].cache[key]);
    PositionFinds(states[i].published, states[i].cache[key].snapshot.publication);
  }

  lemma {:induction false} PositionFinds(published: seq<Publication>, p: Publication)
    requires DistinctIds(published) && p in published
    ensures Position(published, p.id) < |published| && published[Position(published, p.id)] == p
  {
    if published[0] != p {
      assert published[0].id != p.id by {
        var i :| 0 <= i < |published| && published[i] == p;
        assert published[0].id != published[i].id;
      }
      assert p in published[1..];
      PositionFinds(published[1..], p);
    }
  }
}

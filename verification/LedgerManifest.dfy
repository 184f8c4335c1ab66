/** The validated migration manifest: components, build profiles and their migration lists.
  *
  * Validation has already fixed every timestamp to fourteen digits, so the order of timestamp texts
  * is the order of the numbers they spell; they are modelled as those numbers.
  */
module LedgerManifest {
  import opened Sorting

  datatype Component = Auth | Graph | Coordination

  const COMPONENT_ORDER: seq<Component> := [Auth, Graph, Coordination]

  /** A build profile: one component, or the combined profile of all three. */
  datatype Profile = Single(component: Component) | Combined

  datatype MigrationEntry = MigrationEntry(component: Component, timestamp: nat, name: string)

  predicate Covers(p: Profile, c: Component) {
    p == Combined || p == Single(c)
  }

  predicate ByTimestamp(a: MigrationEntry, b: MigrationEntry) {
    a.timestamp <= b.timestamp
  }

  function Selected(migrations: seq<MigrationEntry>, p: Profile): (r: seq<MigrationEntry>)
    ensures forall m :: m in r <==> m in migrations && Covers(p, m.component)
  {
    if migrations == [] then []
    else (if Covers(p, migrations[0].component) then [migrations[0]] else []) + Selected(migrations[1..], p)
  }

  function MigrationsForProfile(migrations: seq<MigrationEntry>, p: Profile): (r: seq<MigrationEntry>)
    ensures forall m :: m in r <==> m in migrations && Covers(p, m.component)
  {
    var r := Sort(Selected(migrations, p), ByTimestamp);
    assert forall m :: m in r <==> m in multiset(Selected(migrations, p));
    r
  }

  /** The manifest's global order check: some migration, globally unique timestamps, and every
    * migration dated after every historical receipt. */
  predicate GloballyOrdered(migrations: seq<MigrationEntry>, receipts: seq<nat>) {
    && migrations != []
    && DistinctKeys(migrations, Timestamp)
    && (forall m, t :: m in migrations && t in receipts ==> t < m.timestamp)
  }

  predicate StrictlyDated(s: seq<MigrationEntry>) {
    forall i, j :: 0 <= i < j < |s| ==> s[i].timestamp < s[j].timestamp
  }

  function Timestamp(m: MigrationEntry): nat {
    m.timestamp
  }

  lemma {:induction false} SelectedStaysDistinct(migrations: seq<MigrationEntry>, p: Profile)
    requires DistinctKeys(migrations, Timestamp)
    ensures DistinctKeys(Selected(migrations, p), Timestamp)
  {
    if migrations != [] {
      var rest := migrations[1..];
      assert forall i :: 0 <= i < |rest| ==> rest[i] == migrations[i + 1];
      SelectedStaysDistinct(rest, p);
      forall m | m in Selected(rest, p)
        ensures m.timestamp != migrations[0].timestamp
      {
        var k :| 0 <= k < |rest| && rest[k] == m;
        assert migrations[k + 1] == m;
      }
    }
  }

  /** Every profile's list is strictly increasing in time. */
  lemma ProfileListIsStrict(migrations: seq<MigrationEntry>, receipts: seq<nat>, p: Profile)
    requires GloballyOrdered(migrations, receipts)
    ensures StrictlyDated(MigrationsForProfile(migrations, p))
  {
    var r := MigrationsForProfile(migrations, p);
    SelectedStaysDistinct(migrations, p);
    PermutationKeepsKeys(Selected(migrations, p), r, Timestamp);
    assert Ordered(r, ByTimestamp);
    forall i, j | 0 <= i < j < |r|
      ensures r[i].timestamp < r[j].timestamp
    {
      assert ByTimestamp(r[i], r[j]);
    }
  }

  lemma SomeMember(t: seq<MigrationEntry>)
    ensures t == [] || exists m :: m in t
  {
    assert t != [] ==> t[0] in t;
  }

  lemma {:induction false} StrictListsAreEqual(s: seq<MigrationEntry>, t: seq<MigrationEntry>)
    requires StrictlyDated(s) && StrictlyDated(t) && forall m :: m in s <==> m in t
    ensures s == t
  {
    SomeMember(t);
    if s != [] {
      assert s[0] in s && s[0] in t;
      assert t[0] in t && t[0] in s;
      var i :| 0 <= i < |t| && t[i] == s[0];
      var j :| 0 <= j < |s| && s[j] == t[0];
      assert i == 0;
      assert s == [s[0]] + s[1..] && t == [t[0]] + t[1..];
      forall m
        ensures m in s[1..] <==> m in t[1..]
      {
        assert m in s[1..] <==> m in s && m != s[0];
        assert m in t[1..] <==> m in t && m != t[0];
      }
      StrictListsAreEqual(s[1..], t[1..]);
    }
  }

  lemma {:induction false} SelectedStaysStrict(s: seq<MigrationEntry>, p: Profile)
    requires StrictlyDated(s)
    ensures StrictlyDated(Selected(s, p))
  {
    if s != [] {
      hide Selected;
      var kept := Selected(s[1..], p);
      SelectedStaysStrict(s[1..], p);
      FirstIsEarliest(s);
      StrictCons(s[0], kept);
      SelectedCons(s, p);
    }
  }

  lemma {:induction false} SelectedCons(s: seq<MigrationEntry>, p: Profile)
    requires s != []
    ensures Selected(s, p) == (if Covers(p, s[0].component) then [s[0]] else []) + Selected(s[1..], p)
  {
  }

  lemma FirstIsEarliest(s: seq<MigrationEntry>)
    requires s != [] && StrictlyDated(s)
    ensures forall m :: m in s[1..] ==> s[0].timestamp < m.timestamp
  {
    assert forall i :: 0 <= i < |s[1..]| ==> s[1..][i] == s[i + 1];
  }

  lemma StrictCons(first: MigrationEntry, rest: seq<MigrationEntry>)
    requires StrictlyDated(rest) && forall m :: m in rest ==> first.timestamp < m.timestamp
    ensures StrictlyDated([first] + rest) && [] + rest == rest
  {
    assert forall i :: 0 <= i < |rest| ==> rest[i] in rest;
  }

  /** Every profile's list is the combined list with the other components left out. */
  lemma {:induction false} ProfileListIsFilteredCombined(
    migrations: seq<MigrationEntry>, receipts: seq<nat>, p: Profile)
    requires GloballyOrdered(migrations, receipts)
    ensures MigrationsForProfile(migrations, p) == Selected(MigrationsForProfile(migrations, Combined), p)
  {
    ProfileListIsStrict(migrations, receipts, p);
    ProfileListIsStrict(migrations, receipts, Combined);
    SelectedStaysStrict(MigrationsForProfile(migrations, Combined), p);
    StrictListsAreEqual(MigrationsForProfile(migrations, p), Selected(MigrationsForProfile(migrations, Combined), p));
  }
}

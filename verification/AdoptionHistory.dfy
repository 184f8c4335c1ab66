/** Adopting a hosted database one migration marker at a time.
  *
  * The history that must be present before a marker is the reviewed provider receipts followed by
  * the canonical migrations before that marker. The results: the source's sort never moves a row,
  * adding a marker gives exactly the history expected of the next one, and a given history passes
  * for at most one marker.
  */
module AdoptionHistory {
  import opened LedgerManifest
  import opened Sorting
  import opened Wrappers

  /** One row of a provider migration history. */
  datatype Row = Row(timestamp: nat, name: string)

  datatype Lineage = Fresh | Hosted | UnknownLineage

  /** The parts of a manifest that adoption uses. */
  datatype Manifest = Manifest(migrations: seq<MigrationEntry>, receipts: seq<Row>)

  /** The ratified provider receipts of the hosted lineage; validation accepts no others. */
  const RECEIPTS: seq<Row> := [
    Row(20251019202442, "create_finance_dashboard_tables"),
    Row(20260723074054, "adr0007_public_deny_untrusted_roles"),
    Row(20260723074126, "adr0007_revoke_public_execute_helper"),
    Row(20260723092314, "adr0007_default_privileges_for_role_postgres"),
    Row(20260809112436, "cq_01_02_runtime_capability_contract"),
    Row(20260809115020, "grant_fardb_runtime_capabilities_to_login_roles")]

  function Stamps(rows: seq<Row>): (r: seq<nat>)
    ensures |r| == |rows| && forall i :: 0 <= i < |r| ==> r[i] == rows[i].timestamp
  {
    seq(|rows|, i requires 0 <= i < |rows| => rows[i].timestamp)
  }

  predicate RowsDated(rows: seq<Row>) {
    forall i, j :: 0 <= i < j < |rows| ==> rows[i].timestamp < rows[j].timestamp
  }

  /** A validated manifest: receipts in strict order, and migrations globally ordered after them. */
  predicate ValidManifest(m: Manifest) {
    RowsDated(m.receipts) && GloballyOrdered(m.migrations, Stamps(m.receipts))
  }

  lemma {:induction false} RatifiedReceiptsAreDated(migrations: seq<MigrationEntry>)
    ensures ValidManifest(Manifest(migrations, RECEIPTS)) <==> GloballyOrdered(migrations, Stamps(RECEIPTS))
  {
    assert |RECEIPTS| == 6;
    hide GloballyOrdered;
  }

  /** Tuples compare by timestamp and then by name. */
  predicate RowLe(a: Row, b: Row) {
    a.timestamp < b.timestamp || (a.timestamp == b.timestamp && Le(a.name, b.name))
  }

  lemma RowOrderLaws()
    ensures Preorder(RowLe)
  {
    LeIsTotalOrder();
  }

  function Identity(m: MigrationEntry): Row {
    Row(m.timestamp, m.name)
  }

  function Identities(s: seq<MigrationEntry>): (r: seq<Row>)
    ensures |r| == |s| && forall i :: 0 <= i < |r| ==> r[i] == Identity(s[i])
  {
    seq(|s|, i requires 0 <= i < |s| => Identity(s[i]))
  }

  /** Position of the first entry with this timestamp. */
  function IndexOf(s: seq<MigrationEntry>, timestamp: nat): (k: Option<nat>)
    ensures k.None? <==> forall i :: 0 <= i < |s| ==> s[i].timestamp != timestamp
    ensures k.Some? ==> k.value < |s| && s[k.value].timestamp == timestamp
  {
    if s == [] then None
    else if s[0].timestamp == timestamp then Some(0)
    else
      var rest := IndexOf(s[1..], timestamp);
      assert forall i :: 0 < i < |s| ==> s[i] == s[1..][i - 1];
      if rest.None? then None else Some(rest.value + 1)
  }

  function FreshHistory(s: seq<MigrationEntry>, marker: Option<nat>): Option<seq<Row>> {
    if marker.Some? then None else Some(Identities(s))
  }

  function HostedHistory(receipts: seq<Row>, s: seq<MigrationEntry>, marker: Option<nat>): Option<seq<Row>> {
    if marker.None? then None
    else
      var k := IndexOf(s, marker.value);
      if k.None? then None
      else
        RowOrderLaws();
        Some(Sort(receipts + Identities(s[..k.value]), RowLe))
  }

  /** The exact fresh history, or the strict prefix before one hosted marker. */
  function ExpectedHistory(m: Manifest, p: Profile, lineage: Lineage, marker: Option<nat>)
    : Option<seq<Row>>
  {
    var s := MigrationsForProfile(m.migrations, p);
    match lineage
    case Fresh => FreshHistory(s, marker)
    case Hosted => HostedHistory(m.receipts, s, marker)
    case UnknownLineage => None
  }

  datatype State = Passed | Drift | NotEvaluated(reason: Reason)

  datatype Reason = AdoptionMarkerInvalid | LineageNotAdopted | RequiredCheckNotEvaluated

  /** `actual` is what the history query returned, or None when it raised. */
  function HistoryCheck(
    m: Manifest, p: Profile, lineage: Lineage, marker: Option<nat>, actual: Option<seq<Row>>): State
  {
    var expected := ExpectedHistory(m, p, lineage, marker);
    if expected.None? then NotEvaluated(if marker.Some? then AdoptionMarkerInvalid else LineageNotAdopted)
    else if actual.None? then NotEvaluated(RequiredCheckNotEvaluated)
    else if actual == expected then Passed
    else Drift
  }

  // ---- The sort is a no-op ----

  /** Before marker number k of a profile, the expected history is the receipts followed by the first
    * k canonical migrations, in that order. */
  lemma {:induction false} HostedHistoryIsPrefix(m: Manifest, p: Profile, k: nat)
    requires ValidManifest(m) && k < |MigrationsForProfile(m.migrations, p)|
    ensures
      var s := MigrationsForProfile(m.migrations, p);
      ExpectedHistory(m, p, Hosted, Some(s[k].timestamp)) == Some(m.receipts + Identities(s[..k]))
  {
    hide MigrationsForProfile, Stamps, Sort, Le, StrictlyDated, Ordered;
    var s := MigrationsForProfile(m.migrations, p);
    ProfileListIsStrict(m.migrations, Stamps(m.receipts), p);
    MarkerPosition(s, k);
    assert forall i :: 0 <= i < |s| ==> s[i] in m.migrations;
    PrefixIsDated(m.receipts, s, k);
    RowOrderLaws();
    SortOfOrdered(m.receipts + Identities(s[..k]), RowLe);
  }

  lemma {:induction false} MarkerPosition(s: seq<MigrationEntry>, k: nat)
    requires StrictlyDated(s) && k < |s|
    ensures IndexOf(s, s[k].timestamp) == Some(k)
  {
  }

  lemma PrefixIsDated(receipts: seq<Row>, s: seq<MigrationEntry>, k: nat)
    requires RowsDated(receipts) && StrictlyDated(s) && k <= |s|
    requires forall i, t :: 0 <= i < |s| && t in Stamps(receipts) ==> t < s[i].timestamp
    ensures Ordered(receipts + Identities(s[..k]), RowLe)
  {
    assert forall i :: 0 <= i < |receipts| ==> receipts[i].timestamp == Stamps(receipts)[i];
    hide Stamps, Le;
    var rows := receipts + Identities(s[..k]);
    forall i, j | 0 <= i < j < |rows|
      ensures rows[i].timestamp < rows[j].timestamp
    {
      if j >= |receipts| {
        assert rows[j] == Identity(s[j - |receipts|]);
        if i < |receipts| {
          assert rows[i] == receipts[i] && Stamps(receipts)[i] in Stamps(receipts);
        } else {
          assert rows[i] == Identity(s[i - |receipts|]);
        }
      } else {
        assert rows[i] == receipts[i] && rows[j] == receipts[j];
      }
    }
  }

  /** Adopting marker k, that is, appending its row, gives the history expected before marker k + 1. */
  lemma {:induction false} AdoptionIsInductive(m: Manifest, p: Profile, k: nat)
    requires ValidManifest(m) && k + 1 < |MigrationsForProfile(m.migrations, p)|
    ensures
      var s := MigrationsForProfile(m.migrations, p);
      var before := ExpectedHistory(m, p, Hosted, Some(s[k].timestamp));
      var after := ExpectedHistory(m, p, Hosted, Some(s[k + 1].timestamp));
      before.Some? && after == Some(before.value + [Identity(s[k])])
  {
    hide MigrationsForProfile, ExpectedHistory, ValidManifest;
    var s := MigrationsForProfile(m.migrations, p);
    HostedHistoryIsPrefix(m, p, k);
    HostedHistoryIsPrefix(m, p, k + 1);
    var front := Identities(s[..k]);
    assert Identities(s[..k + 1]) == front + [Identity(s[k])];
    assert m.receipts + (front + [Identity(s[k])]) == m.receipts + front + [Identity(s[k])];
  }

  /** A hosted marker is evaluated exactly when it is the timestamp of a migration of the profile. */
  lemma {:induction false} MarkersAreProfileTimestamps(m: Manifest, p: Profile, marker: Option<nat>)
    ensures
      var s := MigrationsForProfile(m.migrations, p);
      ExpectedHistory(m, p, Hosted, marker).Some? <==>
      marker.Some? && exists k :: 0 <= k < |s| && s[k].timestamp == marker.value
  {
  }

  /** `rows` are these receipts and then the first `k` migrations, each by timestamp and name. */
  predicate ReceiptsThenMigrations(rows: seq<Row>, receipts: seq<Row>, s: seq<MigrationEntry>, k: nat)
    requires k <= |s|
  {
    && |rows| == |receipts| + k
    && (forall i :: 0 <= i < |receipts| ==> rows[i] == receipts[i])
    && (forall i :: 0 <= i < k ==> rows[|receipts| + i] == Row(s[i].timestamp, s[i].name))
  }

  lemma PrefixRows(rows: seq<Row>, receipts: seq<Row>, s: seq<MigrationEntry>, k: nat)
    requires k <= |s|
    ensures rows == receipts + Identities(s[..k]) <==> ReceiptsThenMigrations(rows, receipts, s, k)
  {
    var front := Identities(s[..k]);
    assert forall i :: 0 <= i < k ==> front[i] == Row(s[i].timestamp, s[i].name);
    if ReceiptsThenMigrations(rows, receipts, s, k) {
      forall i | 0 <= i < |rows|
        ensures rows[i] == (receipts + front)[i]
      {
        assert i >= |receipts| ==> rows[|receipts| + (i - |receipts|)] == front[i - |receipts|];
      }
    }
  }

  /** A history passes exactly when it is, for a fresh database, all migrations of the profile and no
    * marker is given, or, for a hosted one, the receipts and the migrations before the marker. */
  lemma {:induction false} HistoryPassesExactly(
    m: Manifest, p: Profile, lineage: Lineage, marker: Option<nat>, actual: Option<seq<Row>>)
    requires ValidManifest(m)
    ensures
      var s := MigrationsForProfile(m.migrations, p);
      HistoryCheck(m, p, lineage, marker, actual) == Passed <==>
      && actual.Some?
      && ((lineage == Fresh && marker == None && ReceiptsThenMigrations(actual.value, [], s, |s|))
          || (lineage == Hosted && marker.Some? &&
              exists k :: 0 <= k < |s| && s[k].timestamp == marker.value
                          && ReceiptsThenMigrations(actual.value, m.receipts, s, k)))
    ensures HistoryCheck(m, p, lineage, marker, actual) == NotEvaluated(AdoptionMarkerInvalid) <==>
      marker.Some? && (lineage != Hosted || MarksNothing(m, p, marker.value))
    ensures HistoryCheck(m, p, lineage, marker, actual) == NotEvaluated(LineageNotAdopted) <==>
      marker == None && lineage != Fresh
    ensures HistoryCheck(m, p, lineage, marker, actual) == NotEvaluated(RequiredCheckNotEvaluated) ==> actual == None
  {
    hide MigrationsForProfile, HostedHistory, ReceiptsThenMigrations, ValidManifest, Identities;
    var s := MigrationsForProfile(m.migrations, p);
    if lineage == Fresh && actual.Some? {
      assert s[..|s|] == s && [] + Identities(s) == Identities(s);
      PrefixRows(actual.value, [], s, |s|);
    }
    if lineage == Hosted {
      MarkersAreProfileTimestamps(m, p, marker);
      forall k | 0 <= k < |s| && marker == Some(s[k].timestamp)
        ensures ExpectedHistory(m, p, Hosted, marker) == Some(m.receipts + Identities(s[..k]))
        ensures actual.Some? ==>
          (actual.value == m.receipts + Identities(s[..k]) <==>
           ReceiptsThenMigrations(actual.value, m.receipts, s, k))
      {
        HostedHistoryIsPrefix(m, p, k);
        if actual.Some? {
          PrefixRows(actual.value, m.receipts, s, k);
        }
      }
    }
  }

  predicate MarksNothing(m: Manifest, p: Profile, marker: nat) {
    forall e :: e in MigrationsForProfile(m.migrations, p) ==> e.timestamp != marker
  }

  /** A history passes for at most one marker, whatever it contains. */
  lemma {:induction false} PassesForOneMarkerOnly(
    m: Manifest, p: Profile, lineage: Lineage, m1: Option<nat>, m2: Option<nat>, actual: seq<Row>)
    requires ValidManifest(m)
    requires HistoryCheck(m, p, lineage, m1, Some(actual)) == Passed
    requires HistoryCheck(m, p, lineage, m2, Some(actual)) == Passed
    ensures m1 == m2
  {
    hide MigrationsForProfile, ExpectedHistory, ValidManifest;
    if lineage == Hosted {
      var s := MigrationsForProfile(m.migrations, p);
      MarkersAreProfileTimestamps(m, p, m1);
      MarkersAreProfileTimestamps(m, p, m2);
      var k :| 0 <= k < |s| && s[k].timestamp == m1.value;
      var l :| 0 <= l < |s| && s[l].timestamp == m2.value;
      HostedHistoryIsPrefix(m, p, k);
      HostedHistoryIsPrefix(m, p, l);
      assert |actual| == |m.receipts| + k;
      assert |actual| == |m.receipts| + l;
    } else {
      OnlyHostedTakesMarkers(m, p, lineage, m1);
      OnlyHostedTakesMarkers(m, p, lineage, m2);
    }
  }

  lemma {:induction false} OnlyHostedTakesMarkers(m: Manifest, p: Profile, lineage: Lineage, marker: Option<nat>)
    requires lineage != Hosted
    ensures ExpectedHistory(m, p, lineage, marker).Some? ==> marker.None?
  {
    hide MigrationsForProfile;
  }

  // ---- Migration parity ----

  /** One row of the migration list of the command line tool; a side that is absent is blank. */
  datatype Listed = Listed(local: string, remote: string)

  predicate ListedLe(a: Listed, b: Listed) {
    if a.local == b.local then Le(a.remote, b.remote) else Le(a.local, b.local)
  }

  lemma ListedOrderLaws()
    ensures Preorder(ListedLe) && Antisymmetric(ListedLe)
  {
    LeIsTotalOrder();
  }

  /** How a timestamp is written; the digits are never blank and spell the number. */
  ghost predicate Spells(text: nat -> string) {
    && (forall t :: text(t) != "")
    && (forall t, u :: text(t) == text(u) ==> t == u)
  }

  function RemoteOnly(text: nat -> string, rows: seq<Row>): (r: seq<Listed>)
    ensures |r| == |rows| && forall i :: 0 <= i < |r| ==> r[i] == Listed("", text(rows[i].timestamp))
  {
    seq(|rows|, i requires 0 <= i < |rows| => Listed("", text(rows[i].timestamp)))
  }

  /** The list that should be seen: the expected history remotely, and the one permitted marker locally. */
  function ExpectedList(text: nat -> string, history: seq<Row>, marker: nat): seq<Listed> {
    RemoteOnly(text, history) + [Listed(text(marker), "")]
  }

  /** `actual` is None when the tool failed or printed something else than a list. */
  function MigrationParity(
    text: nat -> string, history: seq<Row>, marker: nat, actual: Option<seq<Listed>>): (State, nat)
  {
    ListedOrderLaws();
    if actual.None? then (NotEvaluated(RequiredCheckNotEvaluated), 0)
    else
      var expected := ExpectedList(text, history, marker);
      (if Sort(actual.value, ListedLe) == Sort(expected, ListedLe) then Passed else Drift, |actual.value|)
  }

  datatype PreflightError = PermitInvalid | RepositoryHeadMismatch

  /** The permit-bound parity evaluation with its gates, in the source's order. */
  function EvaluateMigrationParity(
    text: nat -> string, m: Manifest, p: Profile, lineage: Lineage, marker: nat,
    driftPassed: bool, authorityPassed: bool, headMatches: bool, actual: Option<seq<Listed>>)
    : Result<(State, nat), PreflightError>
  {
    var expected := ExpectedHistory(m, p, lineage, Some(marker));
    if expected.None? then Err(PermitInvalid)
    else if !driftPassed || !authorityPassed then Ok((NotEvaluated(RequiredCheckNotEvaluated), 0))
    else if !headMatches then Err(RepositoryHeadMismatch)
    else if IndexOf(MigrationsForProfile(m.migrations, p), marker).None? then Err(PermitInvalid)
    else Ok(MigrationParity(text, expected.value, marker, actual))
  }

  /** Parity passes exactly when every gate is open, the marker is migration number k of a hosted
    * profile, and the tool lists, in any order, the receipts and the first k migrations as remote
    * only and the marker as the only local row. */
  lemma {:induction false} ParityPassesExactly(
    text: nat -> string, m: Manifest, p: Profile, lineage: Lineage, marker: nat,
    driftPassed: bool, authorityPassed: bool, headMatches: bool, actual: seq<Listed>)
    requires ValidManifest(m)
    ensures
      var s := MigrationsForProfile(m.migrations, p);
      var r := EvaluateMigrationParity(
        text, m, p, lineage, marker, driftPassed, authorityPassed, headMatches, Some(actual));
      (r.Ok? && r.value.0 == Passed) <==>
      (lineage == Hosted && driftPassed && authorityPassed && headMatches &&
       exists k :: 0 <= k < |s| && ListsMarker(text, m.receipts, s, k, marker, actual))
  {
    hide MigrationsForProfile, ExpectedHistory, ValidManifest, Sort, IndexOf, MigrationParity, ListsMarker;
    var s := MigrationsForProfile(m.migrations, p);
    if lineage == Hosted {
      MarkersAreProfileTimestamps(m, p, Some(marker));
      forall k | 0 <= k < |s|
        ensures ListsMarker(text, m.receipts, s, k, marker, actual) ==> s[k].timestamp == marker
        ensures
          s[k].timestamp == marker ==>
            var history := m.receipts + Identities(s[..k]);
            && ExpectedHistory(m, p, Hosted, Some(marker)) == Some(history)
            && (MigrationParity(text, history, marker, Some(actual)).0 == Passed <==>
                ListsMarker(text, m.receipts, s, k, marker, actual))
      {
        HostedHistoryIsPrefix(m, p, k);
        ParityAtMarker(text, m.receipts, s, k, actual);
        ListedMarker(text, m.receipts, s, k, marker, actual);
      }
    } else {
      OnlyHostedTakesMarkers(m, p, lineage, Some(marker));
    }
  }

  /** What is reported when parity is not compared, in this order: a permit without a marker of the
    * hosted profile is invalid, a closed gate leaves parity unevaluated, another head is an error. */
  lemma {:induction false} ParityRefusals(
    text: nat -> string, m: Manifest, p: Profile, lineage: Lineage, marker: nat,
    driftPassed: bool, authorityPassed: bool, headMatches: bool, actual: Option<seq<Listed>>)
    requires ValidManifest(m)
    ensures
      var r := EvaluateMigrationParity(text, m, p, lineage, marker, driftPassed, authorityPassed, headMatches, actual);
      && (r == Err(PermitInvalid) <==> lineage != Hosted || MarksNothing(m, p, marker))
      && (r == Err(RepositoryHeadMismatch) <==>
            lineage == Hosted && !MarksNothing(m, p, marker) && driftPassed && authorityPassed && !headMatches)
      && (r.Ok? && (!driftPassed || !authorityPassed || actual == None) ==>
            r.value == (NotEvaluated(RequiredCheckNotEvaluated), 0))
      && (r.Ok? && driftPassed && authorityPassed && actual.Some? ==>
            r.value.1 == |actual.value| && (r.value.0 == Passed || r.value.0 == Drift))
  {
    hide MigrationsForProfile, HostedHistory, Sort, ListedLe, ExpectedList;
    MarkersAreProfileTimestamps(m, p, Some(marker));
    OnlyHostedTakesMarkers(m, p, if lineage == Hosted then Fresh else lineage, Some(marker));
  }

  lemma ParityAtMarker(text: nat -> string, receipts: seq<Row>, s: seq<MigrationEntry>, k: nat, actual: seq<Listed>)
    requires k < |s|
    ensures
      MigrationParity(text, receipts + Identities(s[..k]), s[k].timestamp, Some(actual)).0 == Passed <==>
      ListsMarker(text, receipts, s, k, s[k].timestamp, actual)
  {
    hide Sort, ListedLe;
    ListedOrderLaws();
    ListedParts(text, receipts, s, k, s[k].timestamp);
    hide ExpectedList;
    SortDecidesOrder(actual, ExpectedList(text, receipts + Identities(s[..k]), s[k].timestamp), ListedLe);
  }

  lemma {:induction false} ListedMarker(
    text: nat -> string, receipts: seq<Row>, s: seq<MigrationEntry>, k: nat, marker: nat, actual: seq<Listed>)
    requires k < |s|
    ensures ListsMarker(text, receipts, s, k, marker, actual) ==> s[k].timestamp == marker
  {
  }

  predicate ListsMarker(
    text: nat -> string, receipts: seq<Row>, s: seq<MigrationEntry>, k: nat, marker: nat, actual: seq<Listed>)
    requires k < |s|
  {
    && s[k].timestamp == marker
    && multiset(actual) ==
       multiset(seq(|receipts|, i requires 0 <= i < |receipts| => Listed("", text(receipts[i].timestamp))))
       + multiset(seq(k, i requires 0 <= i < k => Listed("", text(s[i].timestamp))))
       + multiset{Listed(text(marker), "")}
  }

  lemma ListedParts(text: nat -> string, receipts: seq<Row>, s: seq<MigrationEntry>, k: nat, marker: nat)
    requires k <= |s|
    ensures
      multiset(ExpectedList(text, receipts + Identities(s[..k]), marker)) ==
      multiset(seq(|receipts|, i requires 0 <= i < |receipts| => Listed("", text(receipts[i].timestamp))))
      + multiset(seq(k, i requires 0 <= i < k => Listed("", text(s[i].timestamp))))
      + multiset{Listed(text(marker), "")}
  {
    var x := seq(|receipts|, i requires 0 <= i < |receipts| => Listed("", text(receipts[i].timestamp)));
    var y := seq(k, i requires 0 <= i < k => Listed("", text(s[i].timestamp)));
    assert ExpectedList(text, receipts + Identities(s[..k]), marker) == x + y + [Listed(text(marker), "")];
  }

  /** One tool output cannot show parity for two markers. */
  lemma {:induction false} ParityNamesItsMarker(
    text: nat -> string, h1: seq<Row>, m1: nat, h2: seq<Row>, m2: nat, actual: seq<Listed>)
    requires Spells(text)
    requires MigrationParity(text, h1, m1, Some(actual)).0 == Passed
    requires MigrationParity(text, h2, m2, Some(actual)).0 == Passed
    ensures m1 == m2
  {
    hide Sort, ListedLe, ExpectedList, Spells;
    ListedOrderLaws();
    SortDecidesOrder(actual, ExpectedList(text, h1, m1), ListedLe);
    SortDecidesOrder(actual, ExpectedList(text, h2, m2), ListedLe);
    OneLocalRow(text, h1, m1, h2, m2);
  }

  lemma OneLocalRow(text: nat -> string, h1: seq<Row>, m1: nat, h2: seq<Row>, m2: nat)
    requires Spells(text) && multiset(ExpectedList(text, h1, m1)) == multiset(ExpectedList(text, h2, m2))
    ensures m1 == m2
  {
    var e1, e2 := ExpectedList(text, h1, m1), ExpectedList(text, h2, m2);
    assert e1[|h1|] in multiset(e1) && multiset(e1) == multiset(e2);
    var i :| 0 <= i < |e2| && e2[i] == e1[|h1|];
    assert forall j :: 0 <= j < |h2| ==> e2[j].local == "";
  }
}

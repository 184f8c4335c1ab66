/** Planning which migration profile is applied to which physical database.
  *
  * Logical targets that are bound to the same fingerprint are aliases of one physical target. The
  * main results: a plan that is produced partitions the required logical targets by fingerprint, and
  * every migration of a required component is selected by exactly one planned target.
  */
module LedgerPlan {
  import opened LedgerManifest
  import opened Sorting
  import opened Wrappers

  datatype Binding = Binding(
    target: Component,
    profile: Profile,
    lineage: string,
    executionClass: string,
    fingerprint: string,
    identity: string)

  type Bindings = map<Component, Binding>

  type Urls = map<Component, string>

  datatype PlanError = TargetIdentity | TargetProfileConflict

  datatype PlannedTarget = PlannedTarget(
    targets: seq<Component>,
    profile: Profile,
    lineage: string,
    executionClass: string,
    fingerprint: string,
    urls: seq<string>,
    identity: string)

  /** Position in the ratified order. */
  function Rank(c: Component): nat {
    match c
    case Auth => 0
    case Graph => 1
    case Coordination => 2
  }

  /** The configured logical targets, in the ratified order. */
  function Required(urls: Urls): (r: seq<Component>)
    ensures forall t :: t in r <==> t in urls
    ensures forall i, j :: 0 <= i < j < |r| ==> Rank(r[i]) < Rank(r[j])
  {
    var a := if Auth in urls then [Auth] else [];
    var g := if Graph in urls then [Graph] else [];
    var c := if Coordination in urls then [Coordination] else [];
    assert forall t :: t in urls ==> t == Auth || t == Graph || t == Coordination;
    assert forall t :: t in a + g + c <==> t in a || t in g || t in c;
    a + g + c
  }

  // ---- The binding index ----

  /** Some binding among the first `n` is for target `t`. */
  predicate Bound(bindings: seq<Binding>, n: nat, t: Component)
    requires n <= |bindings|
  {
    exists i :: 0 <= i < n && bindings[i].target == t
  }

  predicate DistinctTargets(bindings: seq<Binding>, n: nat)
    requires n <= |bindings|
  {
    forall i, j :: 0 <= i < j < n ==> bindings[i].target != bindings[j].target
  }

  predicate OneIdentityEach(bindings: seq<Binding>) {
    forall i, j :: 0 <= i < |bindings| && 0 <= j < |bindings| && bindings[i].fingerprint == bindings[j].fingerprint ==>
      bindings[i].identity == bindings[j].identity
  }

  predicate Indexable(bindings: seq<Binding>, required: seq<Component>) {
    && DistinctTargets(bindings, |bindings|)
    && (forall t :: t in required ==> Bound(bindings, |bindings|, t))
    && OneIdentityEach(bindings)
  }

  /** The first `n` bindings by target, a later one replacing an earlier one. */
  function IndexOf(bindings: seq<Binding>, n: nat): Bindings
    requires n <= |bindings|
  {
    if n == 0 then map[] else IndexOf(bindings, n - 1)[bindings[n - 1].target := bindings[n - 1]]
  }

  /** What such an index holds; a repeated target shows in its size. */
  ghost predicate Indexes(index: Bindings, bindings: seq<Binding>, n: nat)
    requires n <= |bindings|
  {
    && |index| <= n
    && (|index| == n <==> DistinctTargets(bindings, n))
    && (forall t :: t in index <==> Bound(bindings, n, t))
    && (DistinctTargets(bindings, n) ==>
          forall k :: 0 <= k < n ==> bindings[k].target in index && index[bindings[k].target] == bindings[k])
  }

  lemma {:induction false} OneMoreBinding(bindings: seq<Binding>, n: nat, index: Bindings)
    requires n < |bindings| && Indexes(index, bindings, n)
    ensures Indexes(index[bindings[n].target := bindings[n]], bindings, n + 1)
  {
    var b := bindings[n];
    var next := index[b.target := b];
    SizeAfter(index, b.target, b);
    DistinctOneMore(bindings, n);
    hide DistinctTargets, Bound;
    assert forall t :: t in next <==> t in index || t == b.target;
    if DistinctTargets(bindings, n + 1) {
      forall k | 0 <= k < n + 1
        ensures bindings[k].target in next && next[bindings[k].target] == bindings[k]
      {
        if k < n {
          assert Bound(bindings, n, bindings[k].target);
        }
      }
    }
  }

  lemma DistinctOneMore(bindings: seq<Binding>, n: nat)
    requires n < |bindings|
    ensures
      DistinctTargets(bindings, n + 1) <==> DistinctTargets(bindings, n) && !Bound(bindings, n, bindings[n].target)
    ensures forall t :: Bound(bindings, n + 1, t) <==> Bound(bindings, n, t) || t == bindings[n].target
    ensures forall k :: 0 <= k < n ==> Bound(bindings, n, bindings[k].target)
  {
  }

  lemma SizeAfter(index: Bindings, t: Component, b: Binding)
    ensures |index[t := b]| == |index| + (if t in index then 0 else 1)
  {
    var next := index[t := b];
    assert next.Keys == index.Keys + {t};
    assert |next| == |next.Keys| && |index| == |index.Keys|;
  }

  lemma {:induction false} IndexOfIndexes(bindings: seq<Binding>, n: nat)
    requires n <= |bindings|
    ensures Indexes(IndexOf(bindings, n), bindings, n)
  {
    hide Indexes, DistinctTargets, Bound;
    if n == 0 {
      NothingIndexed(bindings);
    } else {
      IndexOfIndexes(bindings, n - 1);
      OneMoreBinding(bindings, n - 1, IndexOf(bindings, n - 1));
    }
  }

  lemma NothingIndexed(bindings: seq<Binding>)
    ensures Indexes(map[], bindings, 0)
  {
  }

  predicate IdentitiesOf(identities: map<string, string>, bindings: seq<Binding>, n: nat)
    requires n <= |bindings|
  {
    && (forall k :: 0 <= k < n ==>
          bindings[k].fingerprint in identities && identities[bindings[k].fingerprint] == bindings[k].identity)
    && (forall f :: f in identities ==> exists k :: 0 <= k < n && bindings[k].fingerprint == f)
  }

  method BindingIndex(bindings: seq<Binding>, required: seq<Component>) returns (r: Result<Bindings, PlanError>)
    ensures r.Ok? <==> Indexable(bindings, required)
    ensures r.Ok? ==> r.value == IndexOf(bindings, |bindings|)
    ensures r.Err? ==> r.error == TargetIdentity
  {
    var index: Bindings := map[];
    for i := 0 to |bindings|
      invariant index == IndexOf(bindings, i)
    {
      index := index[bindings[i].target := bindings[i]];
    }
    IndexOfIndexes(bindings, |bindings|);
    if |index| != |bindings| || !(forall t :: t in required ==> t in index) {
      return Err(TargetIdentity);
    }
    var consistent := IdentitiesConsistent(bindings);
    return if consistent then Ok(index) else Err(TargetIdentity);
  }

  /** The second half of the index check: one identity for each fingerprint. */
  method IdentitiesConsistent(bindings: seq<Binding>) returns (ok: bool)
    ensures ok <==> OneIdentityEach(bindings)
  {
    var identities: map<string, string> := map[];
    for i := 0 to |bindings|
      invariant IdentitiesOf(identities, bindings, i)
    {
      var b := bindings[i];
      OneMoreIdentity(identities, bindings, i);
      if b.fingerprint !in identities {
        identities := identities[b.fingerprint := b.identity];
      } else if identities[b.fingerprint] != b.identity {
        IdentitiesClash(identities, bindings, i);
        return false;
      }
    }
    IdentitiesAgree(identities, bindings);
    return true;
  }

  lemma IdentitiesClash(identities: map<string, string>, bindings: seq<Binding>, n: nat)
    requires n < |bindings| && IdentitiesOf(identities, bindings, n)
    requires bindings[n].fingerprint in identities && identities[bindings[n].fingerprint] != bindings[n].identity
    ensures !OneIdentityEach(bindings)
  {
    var k :| 0 <= k < n && bindings[k].fingerprint == bindings[n].fingerprint;
    assert bindings[k].identity != bindings[n].identity;
  }

  lemma IdentitiesAgree(identities: map<string, string>, bindings: seq<Binding>)
    requires IdentitiesOf(identities, bindings, |bindings|)
    ensures OneIdentityEach(bindings)
  {
  }

  lemma OneMoreIdentity(identities: map<string, string>, bindings: seq<Binding>, n: nat)
    requires n < |bindings| && IdentitiesOf(identities, bindings, n)
    ensures
      var b := bindings[n];
      if b.fingerprint !in identities then IdentitiesOf(identities[b.fingerprint := b.identity], bindings, n + 1)
      else identities[b.fingerprint] == b.identity ==> IdentitiesOf(identities, bindings, n + 1)
  {
  }

  // ---- Grouping aliases ----

  predicate UsableUrl(spaces: set<char>, url: string) {
    url != "" && url[0] !in spaces && url[|url| - 1] !in spaces
  }

  predicate AllBound(required: seq<Component>, index: Bindings, urls: Urls) {
    forall i :: 0 <= i < |required| ==> required[i] in index && required[i] in urls
  }

  /** Every URL is usable, and one URL never stands for two fingerprints. */
  predicate UrlsConsistent(spaces: set<char>, required: seq<Component>, index: Bindings, urls: Urls)
    requires AllBound(required, index, urls)
  {
    && (forall i :: 0 <= i < |required| ==> UsableUrl(spaces, urls[required[i]]))
    && (forall i, j :: 0 <= i < |required| && 0 <= j < |required| && urls[required[i]] == urls[required[j]] ==>
          index[required[i]].fingerprint == index[required[j]].fingerprint)
  }

  predicate AllIndexed(required: seq<Component>, index: Bindings) {
    forall i :: 0 <= i < |required| ==> required[i] in index
  }

  /** The aliases of one fingerprint among the first `n` required targets. */
  function Aliases(required: seq<Component>, n: nat, index: Bindings, f: string): (r: seq<Binding>)
    requires n <= |required| && AllIndexed(required, index)
    ensures |r| <= n && forall k :: 0 <= k < |r| ==> r[k].fingerprint == f
  {
    if n == 0 then []
    else
      var last := index[required[n - 1]];
      Aliases(required, n - 1, index, f) + (if last.fingerprint == f then [last] else [])
  }

  predicate Seen(required: seq<Component>, n: nat, index: Bindings, f: string)
    requires n <= |required| && AllIndexed(required, index)
  {
    exists k :: 0 <= k < n && index[required[k]].fingerprint == f
  }

  predicate Distinct(order: seq<string>) {
    forall i, j :: 0 <= i < j < |order| ==> order[i] != order[j]
  }

  /** `order` lists the fingerprints of the first `n` targets and `grouped` holds their aliases. */
  ghost predicate Groups(
    order: seq<string>, grouped: map<string, seq<Binding>>, required: seq<Component>, n: nat, index: Bindings)
    requires n <= |required| && AllIndexed(required, index)
  {
    && Distinct(order)
    && (forall f :: f in order <==> Seen(required, n, index, f))
    && (forall f :: f in grouped <==> f in order)
    && (forall f :: f in grouped ==> grouped[f] == Aliases(required, n, index, f))
  }

  predicate UrlsSeen(
    spaces: set<char>, fingerprints: map<string, string>, required: seq<Component>, n: nat, index: Bindings, urls: Urls)
    requires n <= |required| && AllBound(required, index, urls)
  {
    && (forall k :: 0 <= k < n ==>
          && UsableUrl(spaces, urls[required[k]])
          && urls[required[k]] in fingerprints
          && fingerprints[urls[required[k]]] == index[required[k]].fingerprint)
    && (forall u :: u in fingerprints ==> exists k :: 0 <= k < n && urls[required[k]] == u)
  }

  lemma {:induction false} UnseenHasNoAliases(required: seq<Component>, n: nat, index: Bindings, f: string)
    requires n <= |required| && AllIndexed(required, index) && !Seen(required, n, index, f)
    ensures Aliases(required, n, index, f) == []
  {
    if n > 0 {
      UnseenHasNoAliases(required, n - 1, index, f);
    }
  }

  lemma OneMoreAlias(
    required: seq<Component>, n: nat, index: Bindings, order: seq<string>, grouped: map<string, seq<Binding>>)
    requires n < |required| && AllIndexed(required, index) && Groups(order, grouped, required, n, index)
    ensures
      var b := index[required[n]];
      var f := b.fingerprint;
      Groups(if f in grouped then order else order + [f],
             grouped[f := (if f in grouped then grouped[f] else []) + [b]], required, n + 1, index)
  {
    hide Seen, Aliases;
    var b := index[required[n]];
    var f := b.fingerprint;
    forall g
      ensures Seen(required, n + 1, index, g) <==> Seen(required, n, index, g) || g == f
      ensures Aliases(required, n + 1, index, g) == Aliases(required, n, index, g) + (if g == f then [b] else [])
    {
      AliasAfter(required, n, index, g);
    }
    if f !in grouped {
      UnseenHasNoAliases(required, n, index, f);
    }
    var order' := if f in grouped then order else order + [f];
    var grouped' := grouped[f := (if f in grouped then grouped[f] else []) + [b]];
    forall g | g in grouped'
      ensures grouped'[g] == Aliases(required, n + 1, index, g)
    {
      assert g != f ==> Aliases(required, n, index, g) + [] == Aliases(required, n, index, g);
    }
    assert f !in grouped ==> f !in order;
  }

  lemma AliasAfter(required: seq<Component>, n: nat, index: Bindings, g: string)
    requires n < |required| && AllIndexed(required, index)
    ensures
      var b := index[required[n]];
      && (Seen(required, n + 1, index, g) <==> Seen(required, n, index, g) || g == b.fingerprint)
      && Aliases(required, n + 1, index, g) ==
         Aliases(required, n, index, g) + (if g == b.fingerprint then [b] else [])
  {
    assert g == index[required[n]].fingerprint ==> Seen(required, n + 1, index, g);
  }

  method GroupRequiredBindings(spaces: set<char>, required: seq<Component>, index: Bindings, urls: Urls)
    returns (ok: bool, order: seq<string>, grouped: map<string, seq<Binding>>)
    requires AllBound(required, index, urls)
    ensures ok <==> UrlsConsistent(spaces, required, index, urls)
    ensures ok ==> Groups(order, grouped, required, |required|, index)
  {
    hide Groups, UsableUrl;
    order, grouped := [], map[];
    NothingGrouped(required, index);
    var fingerprints: map<string, string> := map[];
    for i := 0 to |required|
      invariant UrlsSeen(spaces, fingerprints, required, i, index, urls)
      invariant Groups(order, grouped, required, i, index)
    {
      var binding, url := index[required[i]], urls[required[i]];
      if !UsableUrl(spaces, url) {
        return false, [], map[];
      }
      if url !in fingerprints {
        fingerprints := fingerprints[url := binding.fingerprint];
      } else if fingerprints[url] != binding.fingerprint {
        var k :| 0 <= k < i && urls[required[k]] == url;
        assert index[required[k]].fingerprint != index[required[i]].fingerprint;
        return false, [], map[];
      }
      OneMoreAlias(required, i, index, order, grouped);
      var f := binding.fingerprint;
      var before := if f in grouped then grouped[f] else [];
      if f !in grouped {
        order := order + [f];
      }
      grouped := grouped[f := before + [binding]];
    }
    return true, order, grouped;
  }

  lemma NothingGrouped(required: seq<Component>, index: Bindings)
    requires AllIndexed(required, index)
    ensures Groups([], map[], required, 0, index)
  {
  }

  // ---- Planning one group ----

  predicate ByRank(a: Binding, b: Binding) {
    Rank(a.target) <= Rank(b.target)
  }

  function Targets(aliases: seq<Binding>): (r: seq<Component>)
    ensures |r| == |aliases| && forall i :: 0 <= i < |r| ==> r[i] == aliases[i].target
  {
    seq(|aliases|, i requires 0 <= i < |aliases| => aliases[i].target)
  }

  function InOrder(aliases: seq<Binding>): (r: seq<Binding>)
    ensures |r| == |aliases| && multiset(r) == multiset(aliases) && Ordered(r, ByRank)
  {
    Sort(aliases, ByRank)
  }

  predicate Agree(aliases: seq<Binding>) {
    forall i, j :: 0 <= i < j < |aliases| ==>
      aliases[i].lineage == aliases[j].lineage && aliases[i].executionClass == aliases[j].executionClass
  }

  /** One profile fits the group: combined for all three targets, or a target's own profile for it alone. */
  predicate ProfileFits(aliases: seq<Binding>) {
    || (&& Targets(InOrder(aliases)) == COMPONENT_ORDER
        && forall i :: 0 <= i < |aliases| ==> aliases[i].profile == Combined)
    || (|aliases| == 1 && aliases[0].profile == Single(aliases[0].target))
  }

  lemma SizeOneMeansEqual(values: seq<string>, all: set<string>)
    requires values != [] && all == set x | x in values
    ensures |all| == 1 <==> forall i, j :: 0 <= i < j < |values| ==> values[i] == values[j]
  {
    assert values[0] in all;
    if |all| == 1 {
      assert |all - {values[0]}| == 0;
      assert forall i :: 0 <= i < |values| ==> values[i] in all && values[i] !in all - {values[0]};
    }
    if forall i, j :: 0 <= i < j < |values| ==> values[i] == values[j] {
      assert forall i :: 0 <= i < |values| ==> values[i] == values[0];
      assert all == {values[0]};
    }
  }

  function Lineages(aliases: seq<Binding>): (r: seq<string>)
    ensures |r| == |aliases| && forall i :: 0 <= i < |r| ==> r[i] == aliases[i].lineage
  {
    seq(|aliases|, i requires 0 <= i < |aliases| => aliases[i].lineage)
  }

  function ExecutionClasses(aliases: seq<Binding>): (r: seq<string>)
    ensures |r| == |aliases| && forall i :: 0 <= i < |r| ==> r[i] == aliases[i].executionClass
  {
    seq(|aliases|, i requires 0 <= i < |aliases| => aliases[i].executionClass)
  }

  method ProfileForAliases(aliases: seq<Binding>) returns (r: Result<Profile, PlanError>)
    requires aliases != []
    ensures r.Ok? <==> Agree(aliases) && ProfileFits(aliases)
    ensures r.Ok? ==> r.value == aliases[0].profile
    ensures r.Err? ==> r.error == TargetProfileConflict
  {
    hide InOrder;
    var targets := Targets(InOrder(aliases));
    var profiles := set b | b in aliases :: b.profile;
    var lineages := set x | x in Lineages(aliases);
    var classes := set x | x in ExecutionClasses(aliases);
    SizeOneMeansEqual(Lineages(aliases), lineages);
    SizeOneMeansEqual(ExecutionClasses(aliases), classes);
    if |lineages| != 1 || |classes| != 1 {
      return Err(TargetProfileConflict);
    }
    assert aliases[0].profile in profiles;
    if profiles == {Combined} {
      assert forall i :: 0 <= i < |aliases| ==> aliases[i].profile in profiles;
      if targets != COMPONENT_ORDER {
        return Err(TargetProfileConflict);
      }
      return Ok(Combined);
    }
    assert (forall i :: 0 <= i < |aliases| ==> aliases[i].profile == Combined) ==> profiles == {Combined};
    if |aliases| == 1 && aliases[0].profile == Single(aliases[0].target) {
      return Ok(aliases[0].profile);
    }
    return Err(TargetProfileConflict);
  }

  predicate OneIdentity(aliases: seq<Binding>) {
    forall i, j :: 0 <= i < |aliases| && 0 <= j < |aliases| ==> aliases[i].identity == aliases[j].identity
  }

  predicate Plannable(aliases: seq<Binding>) {
    Agree(aliases) && ProfileFits(aliases) && OneIdentity(aliases)
  }

  predicate UrlsKnown(aliases: seq<Binding>, urls: Urls) {
    forall i :: 0 <= i < |aliases| ==> aliases[i].target in urls
  }

  function Planned(fingerprint: string, aliases: seq<Binding>, urls: Urls): PlannedTarget
    requires aliases != [] && UrlsKnown(aliases, urls)
  {
    var sorted := InOrder(aliases);
    SortedUrlsKnown(aliases, urls);
    PlannedTarget(
      Targets(sorted), sorted[0].profile, sorted[0].lineage, sorted[0].executionClass, fingerprint,
      seq(|sorted|, i requires 0 <= i < |sorted| => urls[sorted[i].target]), sorted[0].identity)
  }

  lemma SortedUrlsKnown(aliases: seq<Binding>, urls: Urls)
    requires UrlsKnown(aliases, urls)
    ensures UrlsKnown(InOrder(aliases), urls)
  {
    forall i | 0 <= i < |aliases|
      ensures InOrder(aliases)[i].target in urls
    {
      assert InOrder(aliases)[i] in multiset(aliases);
    }
  }

  method PlanGroup(fingerprint: string, aliases: seq<Binding>, urls: Urls) returns (r: Result<PlannedTarget, PlanError>)
    requires aliases != [] && UrlsKnown(aliases, urls)
    ensures r.Ok? <==> Plannable(aliases)
    ensures r.Ok? ==> r.value == Planned(fingerprint, aliases, urls)
    ensures r.Err? ==>
      r.error == if Agree(aliases) && ProfileFits(aliases) then TargetIdentity else TargetProfileConflict
  {
    var profile := ProfileForAliases(aliases);
    if profile.Err? {
      return Err(profile.error);
    }
    var sorted := InOrder(aliases);
    SortedUrlsKnown(aliases, urls);
    hide InOrder;
    assert forall b :: b in aliases <==> b in multiset(aliases);
    assert forall b :: b in sorted <==> b in multiset(aliases);
    if exists b :: b in aliases && b.identity != sorted[0].identity {
      assert sorted[0] in aliases;
      return Err(TargetIdentity);
    }
    assert forall i :: 0 <= i < |aliases| ==> aliases[i] in aliases;
    assert sorted[0] in aliases && aliases[0] in sorted;
    return Ok(PlannedTarget(
      Targets(sorted), profile.value, sorted[0].lineage, sorted[0].executionClass, fingerprint,
      seq(|sorted|, i requires 0 <= i < |sorted| => urls[sorted[i].target]), sorted[0].identity));
  }

  // ---- The plan ----

  function FirstRank(p: PlannedTarget): nat {
    if p.targets == [] then 0 else Rank(p.targets[0])
  }

  predicate ByFirstTarget(a: PlannedTarget, b: PlannedTarget) {
    FirstRank(a) <= FirstRank(b)
  }

  /** Every required target is identified: it has a binding and a usable URL, and neither a
    * fingerprint nor a URL stands for two databases. */
  predicate Identified(spaces: set<char>, bindings: seq<Binding>, urls: Urls) {
    var required, index := Required(urls), IndexOf(bindings, |bindings|);
    && required != []
    && Indexable(bindings, required)
    && AllBound(required, index, urls)
    && UrlsConsistent(spaces, required, index, urls)
  }

  /** When a plan exists. */
  ghost predicate Resolvable(spaces: set<char>, bindings: seq<Binding>, urls: Urls) {
    && Identified(spaces, bindings, urls)
    && AllPlannable(Required(urls), IndexOf(bindings, |bindings|))
  }

  ghost predicate OneIdentityPerGroup(required: seq<Component>, index: Bindings)
    requires AllIndexed(required, index)
  {
    forall f :: OneIdentity(Aliases(required, |required|, index, f))
  }

  /** A planned target stands for the aliases of its fingerprint. */
  predicate StandsFor(p: PlannedTarget, required: seq<Component>, index: Bindings, urls: Urls)
    requires AllBound(required, index, urls)
  {
    var aliases := Aliases(required, |required|, index, p.fingerprint);
    aliases != [] && UrlsKnown(aliases, urls) && p == Planned(p.fingerprint, aliases, urls)
  }

  function Fingerprint(p: PlannedTarget): string {
    p.fingerprint
  }

  /** One planned target for each fingerprint in use, in the ratified order of their first targets. */
  ghost predicate IsPlan(plan: seq<PlannedTarget>, required: seq<Component>, index: Bindings, urls: Urls)
    requires AllBound(required, index, urls)
  {
    Unsorted(plan, required, index, urls) && Ordered(plan, ByFirstTarget)
  }

  lemma {:induction false} AliasesAreKnown(required: seq<Component>, n: nat, index: Bindings, urls: Urls, f: string)
    requires n <= |required| && AllBound(required, index, urls)
    requires forall t :: t in index ==> index[t].target == t
    ensures UrlsKnown(Aliases(required, n, index, f), urls)
  {
    if n > 0 {
      AliasesAreKnown(required, n - 1, index, urls, f);
    }
  }

  lemma {:induction false} SeenHasAliases(required: seq<Component>, n: nat, index: Bindings, f: string)
    requires n <= |required| && AllIndexed(required, index) && Seen(required, n, index, f)
    ensures Aliases(required, n, index, f) != []
  {
    if index[required[n - 1]].fingerprint != f {
      SeenHasAliases(required, n - 1, index, f);
    }
  }

  lemma {:induction false} IndexKeepsTargets(bindings: seq<Binding>, n: nat)
    requires n <= |bindings|
    ensures forall t :: t in IndexOf(bindings, n) ==> IndexOf(bindings, n)[t].target == t
  {
    if n > 0 {
      IndexKeepsTargets(bindings, n - 1);
    }
  }

  lemma {:induction false} IndexHoldsBindings(bindings: seq<Binding>, n: nat)
    requires n <= |bindings|
    ensures forall t :: t in IndexOf(bindings, n) ==> IndexOf(bindings, n)[t] in bindings
  {
    if n > 0 {
      IndexHoldsBindings(bindings, n - 1);
    }
  }

  lemma {:induction false} AliasesAreBindings(
    required: seq<Component>, n: nat, index: Bindings, f: string, bindings: seq<Binding>)
    requires n <= |required| && AllIndexed(required, index)
    requires forall t :: t in index ==> index[t] in bindings
    ensures forall b :: b in Aliases(required, n, index, f) ==> b in bindings
  {
    if n > 0 {
      AliasesAreBindings(required, n - 1, index, f, bindings);
    }
  }

  /** The index check leaves no group with two identities, so the check of a single group for them
    * never refuses: what refuses a plan there is the profile. */
  lemma {:induction false} GroupsHaveOneIdentity(required: seq<Component>, bindings: seq<Binding>)
    requires OneIdentityEach(bindings) && AllIndexed(required, IndexOf(bindings, |bindings|))
    ensures OneIdentityPerGroup(required, IndexOf(bindings, |bindings|))
  {
    var index := IndexOf(bindings, |bindings|);
    IndexHoldsBindings(bindings, |bindings|);
    hide IndexOf;
    forall f
      ensures OneIdentity(Aliases(required, |required|, index, f))
    {
      AliasesAreBindings(required, |required|, index, f, bindings);
      OneFingerprintOneIdentity(Aliases(required, |required|, index, f), bindings, f);
    }
  }

  lemma OneFingerprintOneIdentity(aliases: seq<Binding>, bindings: seq<Binding>, f: string)
    requires OneIdentityEach(bindings) && forall b :: b in aliases ==> b in bindings
    requires forall k :: 0 <= k < |aliases| ==> aliases[k].fingerprint == f
    ensures OneIdentity(aliases)
  {
    forall i, j | 0 <= i < |aliases| && 0 <= j < |aliases|
      ensures aliases[i].identity == aliases[j].identity
    {
      assert aliases[i] in aliases && aliases[j] in aliases;
    }
  }

  /** What the index check leaves to be decided. */
  lemma {:induction false} IndexedBindings(spaces: set<char>, bindings: seq<Binding>, urls: Urls)
    requires Required(urls) != [] && Indexable(bindings, Required(urls))
    ensures
      var required, index := Required(urls), IndexOf(bindings, |bindings|);
      && AllBound(required, index, urls)
      && (forall t :: t in index ==> index[t].target == t)
      && OneIdentityPerGroup(required, index)
      && (Identified(spaces, bindings, urls) <==> UrlsConsistent(spaces, required, index, urls))
  {
    hide OneIdentityPerGroup, Aliases, UrlsConsistent;
    IndexOfIndexes(bindings, |bindings|);
    IndexKeepsTargets(bindings, |bindings|);
    GroupsHaveOneIdentity(Required(urls), bindings);
  }

  /** What planning returns: a plan exactly when one exists, and the identity error exactly when some
    * required target is not identified. */
  ghost predicate PlanSpec(
    spaces: set<char>, bindings: seq<Binding>, urls: Urls, r: Result<seq<PlannedTarget>, PlanError>)
  {
    && (r.Ok? <==> Resolvable(spaces, bindings, urls))
    && (r.Ok? ==> IsPlan(r.value, Required(urls), IndexOf(bindings, |bindings|), urls))
    && (r.Err? ==> r.error == if Identified(spaces, bindings, urls) then TargetProfileConflict else TargetIdentity)
  }

  lemma {:induction false} NotIdentified(spaces: set<char>, bindings: seq<Binding>, urls: Urls)
    requires !Identified(spaces, bindings, urls)
    ensures PlanSpec(spaces, bindings, urls, Err(TargetIdentity))
  {
    hide Identified, AllPlannable, IndexOf, Required, IsPlan;
  }

  lemma {:induction false} NothingToIndex(spaces: set<char>, bindings: seq<Binding>, urls: Urls)
    requires Required(urls) == [] || !Indexable(bindings, Required(urls))
    ensures !Identified(spaces, bindings, urls)
  {
    hide Indexable, UrlsConsistent, IndexOf, Required;
  }

  lemma {:induction false} SomeGroupUnplannable(spaces: set<char>, bindings: seq<Binding>, urls: Urls)
    requires Identified(spaces, bindings, urls) && !AllPlannable(Required(urls), IndexOf(bindings, |bindings|))
    ensures PlanSpec(spaces, bindings, urls, Err(TargetProfileConflict))
  {
    hide AllPlannable, IndexOf, Required, IsPlan, Indexable, UrlsConsistent;
  }

  lemma {:induction false} AllPlanned(
    spaces: set<char>, bindings: seq<Binding>, urls: Urls, plan: seq<PlannedTarget>)
    requires Identified(spaces, bindings, urls) && AllPlannable(Required(urls), IndexOf(bindings, |bindings|))
    requires IsPlan(plan, Required(urls), IndexOf(bindings, |bindings|), urls)
    ensures PlanSpec(spaces, bindings, urls, Ok(plan))
  {
    hide AllPlannable, IndexOf, Required, IsPlan, Indexable, UrlsConsistent;
  }

  method ResolveTargetPlan(spaces: set<char>, bindings: seq<Binding>, urls: Urls)
    returns (r: Result<seq<PlannedTarget>, PlanError>)
    ensures PlanSpec(spaces, bindings, urls, r)
  {
    hide PlanSpec, Identified, OneIdentityPerGroup, AllPlannable, IndexOf, Groups, UrlsConsistent, Indexable, Unsorted;
    hide IsPlan, Required;
    var required := Required(urls);
    if required == [] {
      NothingToIndex(spaces, bindings, urls);
      NotIdentified(spaces, bindings, urls);
      return Err(TargetIdentity);
    }
    var indexed := BindingIndex(bindings, required);
    if indexed.Err? {
      NothingToIndex(spaces, bindings, urls);
      NotIdentified(spaces, bindings, urls);
      return Err(indexed.error);
    }
    var index := indexed.value;
    IndexedBindings(spaces, bindings, urls);
    var ok, order, grouped := GroupRequiredBindings(spaces, required, index, urls);
    if !ok {
      NotIdentified(spaces, bindings, urls);
      return Err(TargetIdentity);
    }
    var planned := PlanGroups(required, index, urls, order, grouped);
    if planned.Err? {
      SomeGroupUnplannable(spaces, bindings, urls);
      return Err(planned.error);
    }
    PlanComplete(required, index, urls, planned.value);
    AllPlanned(spaces, bindings, urls, Sort(planned.value, ByFirstTarget));
    return Ok(Sort(planned.value, ByFirstTarget));
  }

  lemma {:induction false} UnplannableGroup(required: seq<Component>, index: Bindings, f: string)
    requires AllIndexed(required, index)
    ensures
      var aliases := Aliases(required, |required|, index, f);
      OneIdentityPerGroup(required, index) && !Plannable(aliases) ==> !(Agree(aliases) && ProfileFits(aliases))
  {
    hide Agree, ProfileFits, OneIdentity;
  }

  /** The planned targets in the order of the groups. */
  ghost predicate PlansEach(
    planned: seq<PlannedTarget>, order: seq<string>, n: nat, required: seq<Component>, index: Bindings, urls: Urls)
    requires n <= |order| && AllBound(required, index, urls)
  {
    |planned| == n && forall k :: 0 <= k < n ==> PlannedFor(planned[k], order[k], required, index, urls)
  }

  method PlanGroups(
    required: seq<Component>, index: Bindings, urls: Urls, order: seq<string>, grouped: map<string, seq<Binding>>)
    returns (r: Result<seq<PlannedTarget>, PlanError>)
    requires AllBound(required, index, urls) && (forall t :: t in index ==> index[t].target == t)
    requires Groups(order, grouped, required, |required|, index)
    ensures r.Ok? <==> AllPlannable(required, index)
    ensures r.Ok? ==> Unsorted(r.value, required, index, urls)
    ensures r.Err? && OneIdentityPerGroup(required, index) ==> r.error == TargetProfileConflict
  {
    hide OneIdentityPerGroup, Groups, PlannedFor, Plannable, Planned, AllPlannable, UrlsKnown, Aliases, Seen;
    var planned: seq<PlannedTarget> := [];
    for i := 0 to |order|
      invariant PlansEach(planned, order, i, required, index, urls)
    {
      GroupReady(required, index, urls, order, grouped, order[i]);
      var p := PlanGroup(order[i], grouped[order[i]], urls);
      if p.Err? {
        UnplannableGroup(required, index, order[i]);
        return Err(p.error);
      }
      planned := planned + [p.value];
    }
    PlannedEach(required, index, urls, order, grouped, planned);
    return Ok(planned);
  }

  predicate Unplannable(required: seq<Component>, index: Bindings, f: string)
    requires AllIndexed(required, index)
  {
    Seen(required, |required|, index, f) && !Plannable(Aliases(required, |required|, index, f))
  }

  ghost predicate AllPlannable(required: seq<Component>, index: Bindings)
    requires AllIndexed(required, index)
  {
    forall f :: !Unplannable(required, index, f)
  }

  ghost predicate Unsorted(plan: seq<PlannedTarget>, required: seq<Component>, index: Bindings, urls: Urls)
    requires AllBound(required, index, urls)
  {
    && (forall p :: p in plan ==> StandsFor(p, required, index, urls))
    && (forall f :: Seen(required, |required|, index, f) ==> exists p :: p in plan && p.fingerprint == f)
    && DistinctKeys(plan, Fingerprint)
  }

  predicate PlannedFor(p: PlannedTarget, f: string, required: seq<Component>, index: Bindings, urls: Urls)
    requires AllBound(required, index, urls)
  {
    p.fingerprint == f && StandsFor(p, required, index, urls) && Plannable(Aliases(required, |required|, index, f))
  }

  lemma {:induction false} GroupReady(
    required: seq<Component>, index: Bindings, urls: Urls, order: seq<string>, grouped: map<string, seq<Binding>>,
    f: string)
    requires AllBound(required, index, urls) && (forall t :: t in index ==> index[t].target == t)
    requires Groups(order, grouped, required, |required|, index) && f in order
    ensures f in grouped && grouped[f] == Aliases(required, |required|, index, f)
    ensures grouped[f] != [] && UrlsKnown(grouped[f], urls) && Seen(required, |required|, index, f)
    ensures
      if Plannable(grouped[f]) then PlannedFor(Planned(f, grouped[f], urls), f, required, index, urls)
      else !AllPlannable(required, index)
  {
    hide Plannable;
    SeenHasAliases(required, |required|, index, f);
    AliasesAreKnown(required, |required|, index, urls, f);
    assert Plannable(grouped[f]) || Unplannable(required, index, f);
  }

  lemma PlannedEach(
    required: seq<Component>, index: Bindings, urls: Urls, order: seq<string>, grouped: map<string, seq<Binding>>,
    planned: seq<PlannedTarget>)
    requires AllBound(required, index, urls) && Groups(order, grouped, required, |required|, index)
    requires PlansEach(planned, order, |order|, required, index, urls)
    ensures Unsorted(planned, required, index, urls) && AllPlannable(required, index)
  {
    hide StandsFor, Plannable, Seen, Aliases;
    forall f | Seen(required, |required|, index, f)
      ensures Plannable(Aliases(required, |required|, index, f))
      ensures exists p :: p in planned && p.fingerprint == f
    {
      var k :| 0 <= k < |order| && order[k] == f;
      assert PlannedFor(planned[k], order[k], required, index, urls) && planned[k] in planned;
    }
    forall p | p in planned
      ensures StandsFor(p, required, index, urls)
    {
      var k :| 0 <= k < |planned| && planned[k] == p;
      assert PlannedFor(planned[k], order[k], required, index, urls);
    }
    assert forall k :: 0 <= k < |order| ==> PlannedFor(planned[k], order[k], required, index, urls);
  }

  lemma {:induction false} PlanComplete(
    required: seq<Component>, index: Bindings, urls: Urls, planned: seq<PlannedTarget>)
    requires AllBound(required, index, urls) && Unsorted(planned, required, index, urls)
    ensures IsPlan(Sort(planned, ByFirstTarget), required, index, urls)
  {
    hide StandsFor, Seen;
    var plan := Sort(planned, ByFirstTarget);
    hide Sort;
    PermutationKeepsKeys(planned, plan, Fingerprint);
  }

  // ---- What a plan guarantees ----

  lemma {:induction false} AliasMembers(required: seq<Component>, n: nat, index: Bindings, f: string, b: Binding)
    requires n <= |required| && AllIndexed(required, index)
    ensures
      b in Aliases(required, n, index, f) <==>
      b.fingerprint == f && exists k :: 0 <= k < n && index[required[k]] == b
  {
    if n > 0 {
      AliasMembers(required, n - 1, index, f, b);
    }
  }

  lemma InOrderMembers(aliases: seq<Binding>, t: Component)
    ensures t in Targets(InOrder(aliases)) <==> exists b :: b in aliases && b.target == t
  {
    var sorted := InOrder(aliases);
    hide InOrder, Targets;
    assert forall b :: b in aliases <==> b in multiset(aliases);
    assert forall b :: b in sorted <==> b in multiset(sorted);
    if b :| b in aliases && b.target == t {
      var k :| 0 <= k < |sorted| && sorted[k] == b;
      assert Targets(sorted)[k] == t;
    }
    if t in Targets(sorted) {
      var k :| 0 <= k < |sorted| && Targets(sorted)[k] == t;
      assert sorted[k] in sorted;
    }
  }

  /** The index of a plan that exists. */
  ghost predicate PlanInput(required: seq<Component>, index: Bindings, urls: Urls) {
    && AllBound(required, index, urls)
    && (forall t :: t in required <==> t in urls)
    && (forall t :: t in index ==> index[t].target == t)
  }

  lemma TargetsOfPlanned(required: seq<Component>, index: Bindings, urls: Urls, p: PlannedTarget, t: Component)
    requires PlanInput(required, index, urls) && StandsFor(p, required, index, urls)
    ensures t in p.targets <==> t in urls && index[t].fingerprint == p.fingerprint
  {
    var aliases := Aliases(required, |required|, index, p.fingerprint);
    InOrderMembers(aliases, t);
    hide Aliases, InOrder;
    if t in urls {
      var k :| 0 <= k < |required| && required[k] == t;
      AliasMembers(required, |required|, index, p.fingerprint, index[t]);
    }
    if b :| b in aliases && b.target == t {
      AliasMembers(required, |required|, index, p.fingerprint, b);
    }
  }

  /** The planned targets partition the required logical targets, two of them being together exactly
    * when they are bound to the same fingerprint. */
  lemma PlanPartitionsTargets(required: seq<Component>, index: Bindings, urls: Urls, plan: seq<PlannedTarget>)
    requires PlanInput(required, index, urls) && IsPlan(plan, required, index, urls)
    ensures forall t :: t in urls <==> exists p :: p in plan && t in p.targets
    ensures forall p, q, t :: p in plan && q in plan && t in p.targets && t in q.targets ==> p == q
    ensures forall t, u :: t in urls && u in urls ==>
      (index[t].fingerprint == index[u].fingerprint <==> exists p :: p in plan && t in p.targets && u in p.targets)
  {
    hide StandsFor, Seen;
    forall p, t | p in plan
      ensures t in p.targets <==> t in urls && index[t].fingerprint == p.fingerprint
    {
      TargetsOfPlanned(required, index, urls, p, t);
    }
    forall t | t in urls
      ensures exists p :: p in plan && p.fingerprint == index[t].fingerprint
    {
      RequiredIsSeen(required, index, t);
    }
    forall p, q, t | p in plan && q in plan && t in p.targets && t in q.targets
      ensures p == q
    {
      TargetsOfPlanned(required, index, urls, p, t);
      TargetsOfPlanned(required, index, urls, q, t);
      SameFingerprintSamePlanned(plan, p, q);
    }
    forall t, u | t in urls && u in urls && index[t].fingerprint == index[u].fingerprint
      ensures exists p :: p in plan && t in p.targets && u in p.targets
    {
      var p :| p in plan && p.fingerprint == index[t].fingerprint;
      assert t in p.targets && u in p.targets;
    }
  }

  lemma SameFingerprintSamePlanned(plan: seq<PlannedTarget>, p: PlannedTarget, q: PlannedTarget)
    requires DistinctKeys(plan, Fingerprint) && p in plan && q in plan && p.fingerprint == q.fingerprint
    ensures p == q
  {
    var k :| 0 <= k < |plan| && plan[k] == p;
    var l :| 0 <= l < |plan| && plan[l] == q;
    assert Fingerprint(plan[k]) == Fingerprint(plan[l]);
  }

  lemma RequiredIsSeen(required: seq<Component>, index: Bindings, t: Component)
    requires AllIndexed(required, index) && t in required
    ensures Seen(required, |required|, index, index[t].fingerprint)
  {
  }

  /** A planned target's profile covers exactly its logical targets. */
  lemma {:induction false} ProfileCoversItsTargets(
    required: seq<Component>, index: Bindings, urls: Urls, p: PlannedTarget, c: Component)
    requires AllBound(required, index, urls) && StandsFor(p, required, index, urls)
    requires Plannable(Aliases(required, |required|, index, p.fingerprint))
    ensures Covers(p.profile, c) <==> c in p.targets
  {
    var aliases := Aliases(required, |required|, index, p.fingerprint);
    var sorted := InOrder(aliases);
    hide Aliases, InOrder;
    assert sorted[0] in multiset(aliases) && aliases[0] in multiset(sorted);
    if Targets(sorted) == COMPONENT_ORDER && p.profile == Combined {
      assert c == COMPONENT_ORDER[Rank(c)];
    } else {
      assert p.targets == [sorted[0].target];
    }
  }

  predicate Alike(b: Binding, p: PlannedTarget) {
    b.lineage == p.lineage && b.executionClass == p.executionClass && b.identity == p.identity
  }

  lemma PlannedIsAlike(f: string, aliases: seq<Binding>, urls: Urls)
    requires aliases != [] && UrlsKnown(aliases, urls) && Plannable(aliases)
    ensures forall b :: b in aliases ==> Alike(b, Planned(f, aliases, urls))
  {
    var first := InOrder(aliases)[0];
    assert first in multiset(aliases);
    hide InOrder;
    var k :| 0 <= k < |aliases| && aliases[k] == first;
    assert forall i :: 0 <= i < |aliases| ==> Alike(aliases[i], Planned(f, aliases, urls));
  }

  lemma PlannedHasOwnUrls(f: string, aliases: seq<Binding>, urls: Urls)
    requires aliases != [] && UrlsKnown(aliases, urls) && ProfileFits(aliases)
    ensures
      var p := Planned(f, aliases, urls);
      && |p.urls| == |p.targets|
      && (forall i :: 0 <= i < |p.urls| ==> p.targets[i] in urls && p.urls[i] == urls[p.targets[i]])
      && (forall i, j :: 0 <= i < j < |p.targets| ==> Rank(p.targets[i]) < Rank(p.targets[j]))
  {
    SortedUrlsKnown(aliases, urls);
    hide InOrder;
    var targets := Targets(InOrder(aliases));
    assert |targets| == 1 || targets == COMPONENT_ORDER;
  }

  /** A planned target speaks for all of its aliases: its targets are in the ratified order, each URL is
    * its target's, and lineage, execution class and identity are those of every alias. */
  lemma {:induction false} PlannedSpeaksForItsAliases(
    required: seq<Component>, index: Bindings, urls: Urls, p: PlannedTarget)
    requires PlanInput(required, index, urls) && StandsFor(p, required, index, urls)
    requires Plannable(Aliases(required, |required|, index, p.fingerprint))
    ensures |p.urls| == |p.targets|
    ensures forall i :: 0 <= i < |p.urls| ==> p.targets[i] in urls && p.urls[i] == urls[p.targets[i]]
    ensures forall i, j :: 0 <= i < j < |p.targets| ==> Rank(p.targets[i]) < Rank(p.targets[j])
    ensures forall t :: t in urls && index[t].fingerprint == p.fingerprint ==> Alike(index[t], p)
  {
    hide Aliases, Planned, Plannable, ProfileFits;
    var aliases := Aliases(required, |required|, index, p.fingerprint);
    PlannableFits(aliases);
    PlannedHasOwnUrls(p.fingerprint, aliases, urls);
    PlannedIsAlike(p.fingerprint, aliases, urls);
    forall t | t in urls && index[t].fingerprint == p.fingerprint
      ensures Alike(index[t], p)
    {
      var k :| 0 <= k < |required| && required[k] == t;
      AliasMembers(required, |required|, index, p.fingerprint, index[t]);
    }
  }

  lemma PlannableFits(aliases: seq<Binding>)
    requires Plannable(aliases)
    ensures ProfileFits(aliases)
  {
  }

  /** Every migration of a required component is selected by exactly one planned target, and a
    * migration of any other component by none; each planned list is strictly increasing in time. */
  lemma {:induction false} EachMigrationOnce(
    spaces: set<char>, bindings: seq<Binding>, urls: Urls, plan: seq<PlannedTarget>,
    migrations: seq<MigrationEntry>, receipts: seq<nat>, m: MigrationEntry)
    requires Resolvable(spaces, bindings, urls)
    requires IsPlan(plan, Required(urls), IndexOf(bindings, |bindings|), urls)
    requires GloballyOrdered(migrations, receipts) && m in migrations
    ensures
      m.component in urls <==> exists p :: p in plan && m in MigrationsForProfile(migrations, p.profile)
    ensures
      forall p, q ::
        (&& p in plan && q in plan
         && m in MigrationsForProfile(migrations, p.profile) && m in MigrationsForProfile(migrations, q.profile))
        ==> p == q
    ensures forall p :: p in plan ==> StrictlyDated(MigrationsForProfile(migrations, p.profile))
  {
    var required, index := Required(urls), IndexOf(bindings, |bindings|);
    IndexKeepsTargets(bindings, |bindings|);
    hide IndexOf, Required, StandsFor, Plannable, MigrationsForProfile, Seen;
    assert PlanInput(required, index, urls);
    PlanPartitionsTargets(required, index, urls, plan);
    forall p | p in plan
      ensures m in MigrationsForProfile(migrations, p.profile) <==> m.component in p.targets
      ensures StrictlyDated(MigrationsForProfile(migrations, p.profile))
    {
      ProfileListIsStrict(migrations, receipts, p.profile);
      PlannedIsPlannable(required, index, urls, p);
      ProfileCoversItsTargets(required, index, urls, p, m.component);
    }
  }

  lemma {:induction false} PlannedIsPlannable(required: seq<Component>, index: Bindings, urls: Urls, p: PlannedTarget)
    requires AllBound(required, index, urls) && StandsFor(p, required, index, urls) && AllPlannable(required, index)
    ensures Plannable(Aliases(required, |required|, index, p.fingerprint))
  {
    var f := p.fingerprint;
    hide Plannable;
    assert !Unplannable(required, index, f);
    if !Seen(required, |required|, index, f) {
      UnseenHasNoAliases(required, |required|, index, f);
    }
  }

  // ---- Applying the plan ----

  datatype ApplyError = ApplyError(completed: seq<Profile>, failed: Profile)

  function Profiles(plan: seq<PlannedTarget>): (r: seq<Profile>)
    ensures |r| == |plan| && forall i :: 0 <= i < |r| ==> r[i] == plan[i].profile
  {
    seq(|plan|, i requires 0 <= i < |plan| => plan[i].profile)
  }

  /** The databases an operator writes to. `applied` are the targets whose profile was applied
    * completely; `failing` decides which application raises. */
  class Operator {
    var applied: seq<PlannedTarget>

    constructor ()
      ensures applied == []
    {
      applied := [];
    }

    method ApplyProfile(target: PlannedTarget, failing: PlannedTarget -> bool) returns (ok: bool)
      modifies this
      ensures ok <==> !failing(target)
      ensures applied == old(applied) + if ok then [target] else []
    {
      ok := !failing(target);
      if ok {
        applied := applied + [target];
      }
    }

    /** What is reported after a failure is what was applied: the plan up to the first failure. */
    method ApplyPlan(plan: seq<PlannedTarget>, failing: PlannedTarget -> bool) returns (error: Option<ApplyError>)
      requires applied == []
      modifies this
      ensures applied <= plan && forall p :: p in applied ==> !failing(p)
      ensures error.None? <==> applied == plan
      ensures error.Some? ==>
        && |applied| < |plan| && failing(plan[|applied|])
        && error.value == ApplyError(Profiles(applied), plan[|applied|].profile)
    {
      var completed: seq<Profile> := [];
      for i := 0 to |plan|
        invariant applied == plan[..i] && completed == Profiles(applied)
        invariant forall p :: p in applied ==> !failing(p)
      {
        var ok := ApplyProfile(plan[i], failing);
        if !ok {
          return Some(ApplyError(completed, plan[i].profile));
        }
        assert plan[..i + 1] == plan[..i] + [plan[i]];
        completed := completed + [plan[i].profile];
      }
      return None;
    }
  }
}

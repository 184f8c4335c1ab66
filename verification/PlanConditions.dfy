/** When a target plan exists and what it says, in terms of the bindings and the URLs alone.
  *
  * The planner goes through an index, groups and profiles; nothing here does.
  */
module PlanConditions {
  import opened LedgerManifest
  import opened LedgerPlan
  import opened Sorting
  import opened Wrappers

  /** A binding of a configured target. */
  ghost predicate Needed(bindings: seq<Binding>, urls: Urls, b: Binding) {
    b in bindings && b.target in urls
  }

  /** A configured target is bound, as part of a combined profile, to the same fingerprint. */
  ghost predicate CombinedWith(bindings: seq<Binding>, urls: Urls, fingerprint: string, t: Component) {
    exists c :: c in bindings && c.target in urls && c.target == t && c.fingerprint == fingerprint
                && c.profile == Combined
  }

  ghost predicate Alone(bindings: seq<Binding>, urls: Urls, b: Binding) {
    forall c :: Needed(bindings, urls, c) && c.fingerprint == b.fingerprint ==> c == b
  }

  /** The bindings identify every configured target and no two databases. */
  ghost predicate Identify(spaces: set<char>, bindings: seq<Binding>, urls: Urls) {
    && urls != map[]
    && (forall i, j :: 0 <= i < j < |bindings| ==> bindings[i].target != bindings[j].target)
    && (forall t :: t in urls ==> exists b :: b in bindings && b.target == t)
    && (forall b, c :: b in bindings && c in bindings && b.fingerprint == c.fingerprint ==> b.identity == c.identity)
    && (forall t :: t in urls ==> urls[t] != "" && urls[t][0] !in spaces && urls[t][|urls[t]| - 1] !in spaces)
    && (forall b, c :: Needed(bindings, urls, b) && Needed(bindings, urls, c) && urls[b.target] == urls[c.target] ==>
          b.fingerprint == c.fingerprint)
  }

  /** Aliases agree, and are all three targets of a combined profile or one target on its own. */
  ghost predicate Fit(bindings: seq<Binding>, urls: Urls) {
    && (forall b, c :: Needed(bindings, urls, b) && Needed(bindings, urls, c) && b.fingerprint == c.fingerprint ==>
          b.lineage == c.lineage && b.executionClass == c.executionClass)
    && (forall b :: Needed(bindings, urls, b) ==>
          || (&& b.profile == Combined
              && CombinedWith(bindings, urls, b.fingerprint, Auth) && CombinedWith(bindings, urls, b.fingerprint, Graph)
              && CombinedWith(bindings, urls, b.fingerprint, Coordination))
          || (b.profile == Single(b.target) && Alone(bindings, urls, b)))
  }

  // ---- The index ----

  lemma {:induction false} IndexIsTheBindings(bindings: seq<Binding>)
    requires DistinctTargets(bindings, |bindings|)
    ensures forall b :: b in bindings ==> b.target in IndexOf(bindings, |bindings|)
    ensures forall b :: b in bindings ==> IndexOf(bindings, |bindings|)[b.target] == b
    ensures forall t :: t in IndexOf(bindings, |bindings|) ==>
      IndexOf(bindings, |bindings|)[t] in bindings && IndexOf(bindings, |bindings|)[t].target == t
  {
    IndexOfIndexes(bindings, |bindings|);
    IndexHoldsBindings(bindings, |bindings|);
    IndexKeepsTargets(bindings, |bindings|);
  }

  lemma {:induction false} BoundMeansBinding(bindings: seq<Binding>, t: Component)
    ensures Bound(bindings, |bindings|, t) <==> exists b :: b in bindings && b.target == t
  {
    if b :| b in bindings && b.target == t {
      var i :| 0 <= i < |bindings| && bindings[i] == b;
    }
    if Bound(bindings, |bindings|, t) {
      var i :| 0 <= i < |bindings| && bindings[i].target == t;
      assert bindings[i] in bindings;
    }
  }

  lemma {:induction false} OneIdentityMeans(bindings: seq<Binding>)
    ensures
      OneIdentityEach(bindings) <==>
      forall b, c :: b in bindings && c in bindings && b.fingerprint == c.fingerprint ==> b.identity == c.identity
  {
    if forall b, c :: b in bindings && c in bindings && b.fingerprint == c.fingerprint ==> b.identity == c.identity {
      forall i, j | 0 <= i < |bindings| && 0 <= j < |bindings| && bindings[i].fingerprint == bindings[j].fingerprint
        ensures bindings[i].identity == bindings[j].identity
      {
        assert bindings[i] in bindings && bindings[j] in bindings;
      }
    }
  }

  lemma {:induction false} UrlsMean(spaces: set<char>, bindings: seq<Binding>, urls: Urls)
    requires DistinctTargets(bindings, |bindings|)
    requires AllBound(Required(urls), IndexOf(bindings, |bindings|), urls)
    ensures
      UrlsConsistent(spaces, Required(urls), IndexOf(bindings, |bindings|), urls) <==>
      && (forall t :: t in urls ==> urls[t] != "" && urls[t][0] !in spaces && urls[t][|urls[t]| - 1] !in spaces)
      && (forall b, c :: Needed(bindings, urls, b) && Needed(bindings, urls, c) && urls[b.target] == urls[c.target] ==>
            b.fingerprint == c.fingerprint)
  {
    IndexIsTheBindings(bindings);
    var required, index := Required(urls), IndexOf(bindings, |bindings|);
    hide IndexOf, Required;
    if UrlsConsistent(spaces, required, index, urls) {
      forall t | t in urls
        ensures UsableUrl(spaces, urls[t])
      {
        var i :| 0 <= i < |required| && required[i] == t;
      }
      forall b, c | Needed(bindings, urls, b) && Needed(bindings, urls, c) && urls[b.target] == urls[c.target]
        ensures b.fingerprint == c.fingerprint
      {
        var i :| 0 <= i < |required| && required[i] == b.target;
        var j :| 0 <= j < |required| && required[j] == c.target;
        assert index[required[i]].fingerprint == index[required[j]].fingerprint;
      }
    }
    forall i | 0 <= i < |required|
      ensures required[i] in urls && Needed(bindings, urls, index[required[i]])
    {
      assert required[i] in required;
    }
  }

  lemma {:induction false} IdentifiedMeans(spaces: set<char>, bindings: seq<Binding>, urls: Urls)
    ensures Identified(spaces, bindings, urls) <==> Identify(spaces, bindings, urls)
  {
    var required := Required(urls);
    SomeRequired(urls);
    OneIdentityMeans(bindings);
    forall t
      ensures Bound(bindings, |bindings|, t) <==> exists b :: b in bindings && b.target == t
    {
      BoundMeansBinding(bindings, t);
    }
    hide Required, OneIdentityEach, Bound, UrlsConsistent, IndexOf;
    if required != [] && Indexable(bindings, required) {
      IndexedBindings(spaces, bindings, urls);
      UrlsMean(spaces, bindings, urls);
    }
  }

  lemma {:induction false} SomeRequired(urls: Urls)
    ensures Required(urls) == [] <==> urls == map[]
  {
    if t :| t in urls {
      assert t in Required(urls);
    } else {
      assert urls == map[];
    }
    if Required(urls) != [] {
      assert Required(urls)[0] in Required(urls);
    }
  }

  // ---- The groups ----

  /** The members of a group are the needed bindings of its fingerprint, each once. */
  lemma {:induction false} GroupMembers(bindings: seq<Binding>, urls: Urls, f: string)
    requires DistinctTargets(bindings, |bindings|)
    requires AllBound(Required(urls), IndexOf(bindings, |bindings|), urls)
    ensures
      var aliases := Aliases(Required(urls), |Required(urls)|, IndexOf(bindings, |bindings|), f);
      && (forall b :: b in aliases <==> Needed(bindings, urls, b) && b.fingerprint == f)
      && (forall i, j :: 0 <= i < j < |aliases| ==> Rank(aliases[i].target) < Rank(aliases[j].target))
  {
    IndexIsTheBindings(bindings);
    var required, index := Required(urls), IndexOf(bindings, |bindings|);
    hide IndexOf, Required;
    forall b
      ensures b in Aliases(required, |required|, index, f) <==> Needed(bindings, urls, b) && b.fingerprint == f
    {
      AliasMembers(required, |required|, index, f, b);
      if Needed(bindings, urls, b) {
        var k :| 0 <= k < |required| && required[k] == b.target;
        assert index[required[k]] == b;
      }
      if k :| 0 <= k < |required| && index[required[k]] == b {
        assert required[k] in required;
      }
    }
    AliasesAscend(required, |required|, index, f, Aliases(required, |required|, index, f));
  }

  lemma {:induction false} AliasesAscend(
    required: seq<Component>, n: nat, index: Bindings, f: string, a: seq<Binding>)
    requires n <= |required| && AllIndexed(required, index) && (forall t :: t in index ==> index[t].target == t)
    requires forall i, j :: 0 <= i < j < |required| ==> Rank(required[i]) < Rank(required[j])
    requires a == Aliases(required, n, index, f)
    ensures forall i :: 0 <= i < |a| ==> exists k :: 0 <= k < n && required[k] == a[i].target
    ensures forall i, j :: 0 <= i < j < |a| ==> Rank(a[i].target) < Rank(a[j].target)
  {
    if n > 0 {
      var front := Aliases(required, n - 1, index, f);
      AliasesAscend(required, n - 1, index, f, front);
      hide Aliases;
      forall i | 0 <= i < |front|
        ensures Rank(front[i].target) < Rank(required[n - 1])
      {
        var k :| 0 <= k < n - 1 && required[k] == front[i].target;
      }
      assert required[n - 1] == index[required[n - 1]].target;
      assert forall i :: 0 <= i < |front| ==> a[i] == front[i];
      assert |a| > |front| ==> |a| == |front| + 1 && a[|front|].target == required[n - 1];
    }
  }

  /** An ascending group is left in place by the sort. */
  lemma {:induction false} AscendingIsInOrder(a: seq<Binding>)
    requires forall i, j :: 0 <= i < j < |a| ==> Rank(a[i].target) < Rank(a[j].target)
    ensures InOrder(a) == a
  {
    SortOfOrdered(a, ByRank);
  }

  /** An ascending group is all three targets exactly when each of them is in it. */
  lemma {:induction false} AllThree(a: seq<Binding>)
    requires forall i, j :: 0 <= i < j < |a| ==> Rank(a[i].target) < Rank(a[j].target)
    ensures Targets(a) == COMPONENT_ORDER <==> HasTarget(a, Auth) && HasTarget(a, Graph) && HasTarget(a, Coordination)
  {
    if Targets(a) == COMPONENT_ORDER {
      assert Targets(a)[0] == Auth && Targets(a)[1] == Graph && Targets(a)[2] == Coordination;
      assert a[0].target == Auth && a[1].target == Graph && a[2].target == Coordination;
    }
    if HasTarget(a, Auth) && HasTarget(a, Graph) && HasTarget(a, Coordination) {
      var i :| 0 <= i < |a| && a[i].target == Auth;
      var j :| 0 <= j < |a| && a[j].target == Graph;
      var k :| 0 <= k < |a| && a[k].target == Coordination;
      RankAtLeast(a, i);
      RankAtLeast(a, j);
      RankAtLeast(a, k);
      RankAtLeast(a, |a| - 1);
    }
  }

  lemma {:induction false} RankAtLeast(a: seq<Binding>, i: nat)
    requires i < |a| && forall i, j :: 0 <= i < j < |a| ==> Rank(a[i].target) < Rank(a[j].target)
    ensures Rank(a[i].target) >= i
  {
    if i > 0 {
      RankAtLeast(a, i - 1);
    }
  }

  predicate HasTarget(a: seq<Binding>, t: Component) {
    exists i :: 0 <= i < |a| && a[i].target == t
  }

  /** The conditions on the group of one fingerprint. */
  ghost predicate FitsIn(bindings: seq<Binding>, urls: Urls, b: Binding) {
    && (forall c :: Needed(bindings, urls, c) && c.fingerprint == b.fingerprint ==>
          b.lineage == c.lineage && b.executionClass == c.executionClass)
    && (|| (&& b.profile == Combined
            && CombinedWith(bindings, urls, b.fingerprint, Auth) && CombinedWith(bindings, urls, b.fingerprint, Graph)
            && CombinedWith(bindings, urls, b.fingerprint, Coordination))
        || (b.profile == Single(b.target) && Alone(bindings, urls, b)))
  }

  ghost predicate GroupOf(a: seq<Binding>, bindings: seq<Binding>, urls: Urls, f: string) {
    && (forall b :: b in a <==> Needed(bindings, urls, b) && b.fingerprint == f)
    && (forall i, j :: 0 <= i < j < |a| ==> Rank(a[i].target) < Rank(a[j].target))
  }

  lemma {:induction false} OneOfEachTarget(a: seq<Binding>, b: Binding, c: Binding)
    requires forall i, j :: 0 <= i < j < |a| ==> Rank(a[i].target) < Rank(a[j].target)
    requires b in a && c in a && b.target == c.target
    ensures b == c
  {
    var i :| 0 <= i < |a| && a[i] == b;
    var j :| 0 <= j < |a| && a[j] == c;
  }

  lemma {:induction false} CombinedMeans(a: seq<Binding>, bindings: seq<Binding>, urls: Urls, f: string)
    requires GroupOf(a, bindings, urls, f)
    ensures
      Targets(InOrder(a)) == COMPONENT_ORDER && (forall i :: 0 <= i < |a| ==> a[i].profile == Combined) <==>
      && (forall b :: b in a ==> b.profile == Combined)
      && CombinedWith(bindings, urls, f, Auth) && CombinedWith(bindings, urls, f, Graph)
      && CombinedWith(bindings, urls, f, Coordination)
  {
    AscendingIsInOrder(a);
    AllThree(a);
    hide InOrder, Targets;
    forall t: Component | forall b :: b in a ==> b.profile == Combined
      ensures HasTarget(a, t) <==> CombinedWith(bindings, urls, f, t)
    {
      if HasTarget(a, t) {
        var i :| 0 <= i < |a| && a[i].target == t;
        assert a[i] in a && Needed(bindings, urls, a[i]);
      }
      if CombinedWith(bindings, urls, f, t) {
        var c :| c in bindings && c.target in urls && c.target == t && c.fingerprint == f && c.profile == Combined;
        assert Needed(bindings, urls, c) && c in a;
      }
    }
  }

  lemma {:induction false} AloneMeans(a: seq<Binding>, bindings: seq<Binding>, urls: Urls, f: string, b: Binding)
    requires GroupOf(a, bindings, urls, f) && b in a
    ensures |a| == 1 <==> Alone(bindings, urls, b)
  {
    var i :| 0 <= i < |a| && a[i] == b;
    if |a| > 1 {
      var j := if i == 0 then 1 else 0;
      assert Rank(a[j].target) != Rank(a[i].target);
      assert a[j] in a && Needed(bindings, urls, a[j]) && a[j] != b;
    }
    if |a| == 1 {
      assert forall c :: c in a ==> c == b;
    }
  }

  lemma {:induction false} ProfileFitsMeans(a: seq<Binding>, bindings: seq<Binding>, urls: Urls, f: string)
    requires GroupOf(a, bindings, urls, f) && a != []
    ensures
      ProfileFits(a) <==>
      forall b :: b in a ==>
        || (&& b.profile == Combined
            && CombinedWith(bindings, urls, f, Auth) && CombinedWith(bindings, urls, f, Graph)
            && CombinedWith(bindings, urls, f, Coordination))
        || (b.profile == Single(b.target) && Alone(bindings, urls, b))
  {
    CombinedMeans(a, bindings, urls, f);
    hide InOrder, Targets, CombinedWith;
    forall b | b in a
      ensures |a| == 1 <==> Alone(bindings, urls, b)
    {
      AloneMeans(a, bindings, urls, f, b);
    }
    hide Alone;
    assert a[0] in a;
    assert forall i :: 0 <= i < |a| ==> a[i] in a;
  }

  lemma {:induction false} AgreeMeans(a: seq<Binding>)
    ensures Agree(a) <==>
      forall b, c :: b in a && c in a ==> b.lineage == c.lineage && b.executionClass == c.executionClass
  {
    if Agree(a) {
      forall b, c | b in a && c in a
        ensures b.lineage == c.lineage && b.executionClass == c.executionClass
      {
        var i :| 0 <= i < |a| && a[i] == b;
        var j :| 0 <= j < |a| && a[j] == c;
        if i < j {
          assert a[i].lineage == a[j].lineage;
        } else if j < i {
          assert a[j].lineage == a[i].lineage;
        }
      }
    }
    assert forall i :: 0 <= i < |a| ==> a[i] in a;
  }

  lemma {:induction false} PlannableMeans(a: seq<Binding>, bindings: seq<Binding>, urls: Urls, f: string)
    requires GroupOf(a, bindings, urls, f) && a != [] && OneIdentity(a)
    ensures Plannable(a) <==> forall b :: b in a ==> FitsIn(bindings, urls, b)
  {
    AgreeMeans(a);
    ProfileFitsMeans(a, bindings, urls, f);
    hide Agree, ProfileFits, OneIdentity, CombinedWith, Alone;
  }

  lemma {:induction false} AllPlannableMeans(bindings: seq<Binding>, urls: Urls)
    requires DistinctTargets(bindings, |bindings|)
    requires AllBound(Required(urls), IndexOf(bindings, |bindings|), urls)
    requires OneIdentityPerGroup(Required(urls), IndexOf(bindings, |bindings|))
    ensures AllPlannable(Required(urls), IndexOf(bindings, |bindings|)) <==> Fit(bindings, urls)
  {
    var required, index := Required(urls), IndexOf(bindings, |bindings|);
    forall f
      ensures GroupOf(Aliases(required, |required|, index, f), bindings, urls, f)
      ensures Aliases(required, |required|, index, f) != [] ==>
        (Plannable(Aliases(required, |required|, index, f)) <==>
         forall b :: Needed(bindings, urls, b) && b.fingerprint == f ==> FitsIn(bindings, urls, b))
      ensures Seen(required, |required|, index, f) <==> Aliases(required, |required|, index, f) != []
    {
      var a := Aliases(required, |required|, index, f);
      GroupMembers(bindings, urls, f);
      hide IndexOf, Required, Aliases, FitsIn, Plannable;
      if a != [] {
        assert OneIdentity(a);
        PlannableMeans(a, bindings, urls, f);
      }
      if Seen(required, |required|, index, f) {
        SeenHasAliases(required, |required|, index, f);
      } else {
        UnseenHasNoAliases(required, |required|, index, f);
      }
    }
    hide IndexOf, Required, Aliases, Plannable, Seen, FitsIn;
    FitMeans(bindings, urls);
    if forall b :: Needed(bindings, urls, b) ==> FitsIn(bindings, urls, b) {
      assert forall f :: !Unplannable(required, index, f);
    }
    if AllPlannable(required, index) {
      forall b | Needed(bindings, urls, b)
        ensures FitsIn(bindings, urls, b)
      {
        var a := Aliases(required, |required|, index, b.fingerprint);
        assert b in a && !Unplannable(required, index, b.fingerprint);
      }
    }
  }

  lemma {:induction false} FitMeans(bindings: seq<Binding>, urls: Urls)
    ensures Fit(bindings, urls) <==> forall b :: Needed(bindings, urls, b) ==> FitsIn(bindings, urls, b)
  {
    hide CombinedWith, Alone, Needed;
  }

  // ---- Results ----

  /** A plan exists exactly when the bindings identify every configured target and fit. */
  lemma {:induction false} PlanExistsExactly(spaces: set<char>, bindings: seq<Binding>, urls: Urls)
    ensures Resolvable(spaces, bindings, urls) <==> Identify(spaces, bindings, urls) && Fit(bindings, urls)
    ensures Identified(spaces, bindings, urls) <==> Identify(spaces, bindings, urls)
  {
    IdentifiedMeans(spaces, bindings, urls);
    hide Identify, UrlsConsistent;
    if Identified(spaces, bindings, urls) {
      GroupsHaveOneIdentity(Required(urls), bindings);
      AllPlannableMeans(bindings, urls);
    }
  }

  /** Every needed binding is in the planned target of its fingerprint, which has its lineage, class,
    * identity and profile, and lists the needed targets of that fingerprint in ratified order, each
    * with its own URL. */
  lemma {:induction false} PlanSaysBindings(
    spaces: set<char>, bindings: seq<Binding>, urls: Urls, plan: seq<PlannedTarget>, p: PlannedTarget)
    requires Resolvable(spaces, bindings, urls) && p in plan
    requires IsPlan(plan, Required(urls), IndexOf(bindings, |bindings|), urls)
    ensures forall t :: t in p.targets <==>
      exists b :: b in bindings && b.target in urls && b.target == t && b.fingerprint == p.fingerprint
    ensures forall i, j :: 0 <= i < j < |p.targets| ==> Rank(p.targets[i]) < Rank(p.targets[j])
    ensures |p.urls| == |p.targets|
    ensures forall i :: 0 <= i < |p.urls| ==> p.targets[i] in urls && p.urls[i] == urls[p.targets[i]]
    ensures forall b :: Needed(bindings, urls, b) && b.fingerprint == p.fingerprint ==>
      b.lineage == p.lineage && b.executionClass == p.executionClass && b.identity == p.identity && b.profile == p.profile
  {
    var required, index := Required(urls), IndexOf(bindings, |bindings|);
    IndexIsTheBindings(bindings);
    hide IndexOf, Required;
    assert StandsFor(p, required, index, urls);
    PlannedIsPlannable(required, index, urls, p);
    hide AllPlannable, UrlsConsistent;
    PlannedSpeaksForItsAliases(required, index, urls, p);
    hide StandsFor, Plannable;
    forall t
      ensures t in p.targets <==> t in urls && index[t].fingerprint == p.fingerprint
    {
      TargetsOfPlanned(required, index, urls, p, t);
    }
    forall b | Needed(bindings, urls, b) && b.fingerprint == p.fingerprint
      ensures b.profile == p.profile && Alike(index[b.target], p)
    {
      SameProfile(spaces, bindings, urls, p, b);
    }
  }

  lemma {:induction false} SameProfile(
    spaces: set<char>, bindings: seq<Binding>, urls: Urls, p: PlannedTarget, b: Binding)
    requires Resolvable(spaces, bindings, urls)
    requires StandsFor(p, Required(urls), IndexOf(bindings, |bindings|), urls)
    requires Needed(bindings, urls, b) && b.fingerprint == p.fingerprint
    requires Plannable(Aliases(Required(urls), |Required(urls)|, IndexOf(bindings, |bindings|), p.fingerprint))
    ensures b.profile == p.profile
  {
    var a := Aliases(Required(urls), |Required(urls)|, IndexOf(bindings, |bindings|), p.fingerprint);
    GroupMembers(bindings, urls, p.fingerprint);
    hide IndexOf, Required, Aliases, Plannable, Planned, Identified, AllPlannable;
    ProfileOfGroup(a, p.fingerprint, urls, b);
  }

  lemma {:induction false} ProfileOfGroup(a: seq<Binding>, f: string, urls: Urls, b: Binding)
    requires forall i, j :: 0 <= i < j < |a| ==> Rank(a[i].target) < Rank(a[j].target)
    requires b in a && Plannable(a) && UrlsKnown(a, urls)
    ensures b.profile == Planned(f, a, urls).profile
  {
    AscendingIsInOrder(a);
    hide InOrder, Targets;
    var k :| 0 <= k < |a| && a[k] == b;
  }
}

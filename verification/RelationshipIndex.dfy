/** The governed relationship index of one published revision, and its use for visualisation.
  *
  * Each (edge id, edge) pair contributes one entry per runtime key it governs. The two maps are
  * built edge by edge with conflict detection; the specification speaks of the contributions only.
  */
module RelationshipIndex {
  import opened Wrappers

  datatype Key = Key(source: string, target: string, edgeType: string)

  datatype Edge = Edge(source: string, target: string, edgeType: string, direction: string, assertion: string)

  datatype Orientation = Canonical | Reverse

  datatype Metadata = Metadata(assertion: string, revision: string, scopeRef: string)

  datatype Binding = Binding(edgeId: string, orientation: Orientation, metadata: Metadata)

  datatype Snapshot = Snapshot(publication: Option<string>, index: map<Key, Metadata>, bindings: map<Key, Binding>)

  /** What the scope checks consult: the predicate that owns each assertion, the governed predicate
    * ids, and the edge type registered for each predicate. */
  datatype Scopes = Scopes(owners: map<string, string>, governed: set<string>, edgeTypes: map<string, string>)

  datatype ValidationError =
    | LengthMismatch
    | MissingAssertions
    | OutOfScope(assertion: string)
    | ConflictingProvenance(key: Key)
    | DuplicateBinding(key: Key)

  // ---- Scope checks ----

  function ScopeRef(edge: Edge, scopes: Scopes): Result<string, ValidationError> {
    if edge.assertion !in scopes.owners then Err(OutOfScope(edge.assertion))
    else
      var predicateId := scopes.owners[edge.assertion];
      if predicateId !in scopes.governed || predicateId !in scopes.edgeTypes
         || scopes.edgeTypes[predicateId] != edge.edgeType
      then Err(OutOfScope(edge.assertion))
      else Ok(predicateId)
  }

  const CHUNK: nat := 400

  /** Looks up the owner of every assertion, at most CHUNK ids to a query; `table` is the durable
    * assertion table, and a query returns exactly its rows for the ids asked. */
  method AssertionPredicatesForEdges(ids: seq<string>, table: map<string, string>)
    returns (r: Result<map<string, string>, ValidationError>)
    ensures r.Ok? <==> forall id :: id in ids ==> id in table
    ensures r.Ok? ==> r.value == map id | id in ids && id in table :: table[id]
    ensures r.Err? ==> r.error == MissingAssertions
  {
    var owners: map<string, string> := map[];
    var start := 0;
    while start < |ids|
      invariant 0 <= start
      invariant owners == map id | id in ids[..if start < |ids| then start else |ids|] && id in table :: table[id]
      decreases |ids| - start
    {
      var stop := if start + CHUNK < |ids| then start + CHUNK else |ids|;
      var rows := map id | id in ids[start..stop] && id in table :: table[id];
      assert ids[..stop] == ids[..start] + ids[start..stop];
      owners := owners + rows;
      start := start + CHUNK;
    }
    assert ids[..|ids|] == ids;
    if exists id :: id in ids && id !in owners {
      return Err(MissingAssertions);
    }
    return Ok(owners);
  }

  // ---- Contributions ----

  datatype Contribution = Contribution(key: Key, edgeId: string, orientation: Orientation, assertion: string)

  function Forward(edgeId: string, e: Edge): Contribution {
    Contribution(Key(e.source, e.target, e.edgeType), edgeId, Canonical, e.assertion)
  }

  function Backward(edgeId: string, e: Edge): Contribution {
    Contribution(Key(e.target, e.source, e.edgeType), edgeId, Reverse, e.assertion)
  }

  function Contributions(edgeId: string, e: Edge): set<Contribution> {
    {Forward(edgeId, e)} + if e.direction == "bidirectional" then {Backward(edgeId, e)} else {}
  }

  ghost function All(ids: seq<string>, edges: seq<Edge>): set<Contribution>
    requires |ids| == |edges|
  {
    set i, c | 0 <= i < |ids| && c in Contributions(ids[i], edges[i]) :: c
  }

  /** Each key receives one contribution. */
  ghost predicate Consistent(cs: set<Contribution>) {
    forall c, d :: c in cs && d in cs && c.key == d.key ==> c == d
  }

  function MetadataFor(assertion: string, revision: string, scopes: Scopes): Metadata {
    Metadata(assertion, revision, if assertion in scopes.owners then scopes.owners[assertion] else "")
  }

  ghost predicate Holds(index: map<Key, Metadata>, bindings: map<Key, Binding>, c: Contribution,
                        revision: string, scopes: Scopes)
  {
    var metadata := MetadataFor(c.assertion, revision, scopes);
    && c.key in index && index[c.key] == metadata
    && c.key in bindings && bindings[c.key] == Binding(c.edgeId, c.orientation, metadata)
  }

  ghost predicate Contributed(cs: set<Contribution>, k: Key) {
    exists c :: c in cs && c.key == k
  }

  /** Both maps hold exactly the contributed keys, with the contributed values. */
  ghost predicate Represents(index: map<Key, Metadata>, bindings: map<Key, Binding>, cs: set<Contribution>,
                             revision: string, scopes: Scopes)
  {
    && index.Keys == bindings.Keys
    && (forall k :: k in index ==> Contributed(cs, k))
    && (forall c :: c in cs ==> Holds(index, bindings, c, revision, scopes))
  }

  lemma ConsistentWithOneMore(cs: set<Contribution>, c: Contribution)
    requires Consistent(cs)
    ensures Consistent(cs + {c}) <==> forall d :: d in cs && d.key == c.key ==> d == c
  {
    if Consistent(cs + {c}) {
      forall d | d in cs && d.key == c.key
        ensures d == c
      {
        assert d in cs + {c} && c in cs + {c};
      }
    }
  }

  /** With consistent contributions so far, the two comparisons of the code decide consistency. */
  lemma ComparisonsDecide(index: map<Key, Metadata>, bindings: map<Key, Binding>, cs: set<Contribution>,
                          c: Contribution, revision: string, scopes: Scopes)
    requires Consistent(cs) && Represents(index, bindings, cs, revision, scopes)
    ensures Consistent(cs + {c}) <==>
      (c.key in index ==>
         index[c.key].assertion == c.assertion && bindings[c.key].edgeId == c.edgeId
         && bindings[c.key].orientation == c.orientation)
  {
    ConsistentWithOneMore(cs, c);
    if c.key in index {
      assert Contributed(cs, c.key);
      var d :| d in cs && d.key == c.key;
      assert Holds(index, bindings, d, revision, scopes);
    } else {
      assert forall d :: d in cs ==> Holds(index, bindings, d, revision, scopes);
    }
  }

  lemma RepresentsOneMore(index: map<Key, Metadata>, bindings: map<Key, Binding>, cs: set<Contribution>,
                          c: Contribution, revision: string, scopes: Scopes)
    requires Consistent(cs + {c}) && Represents(index, bindings, cs, revision, scopes)
    ensures
      var metadata := MetadataFor(c.assertion, revision, scopes);
      Represents(index[c.key := metadata], bindings[c.key := Binding(c.edgeId, c.orientation, metadata)],
                 cs + {c}, revision, scopes)
  {
    var metadata := MetadataFor(c.assertion, revision, scopes);
    var index', bindings' := index[c.key := metadata], bindings[c.key := Binding(c.edgeId, c.orientation, metadata)];
    forall k | k in index'
      ensures Contributed(cs + {c}, k)
    {
      if k == c.key {
        assert c in cs + {c};
      } else {
        assert Contributed(cs, k);
        var d :| d in cs && d.key == k;
        assert d in cs + {c};
      }
    }
    forall d | d in cs + {c}
      ensures Holds(index', bindings', d, revision, scopes)
    {
      if d.key == c.key {
        assert c in cs + {c};
      } else {
        assert Holds(index, bindings, d, revision, scopes);
      }
    }
  }

  // ---- What an edge means ----

  /** The key from `source` to `target` carries this edge: both maps have the metadata of its
    * assertion and its owner, and the binding names it with this orientation. */
  predicate Carries(index: map<Key, Metadata>, bindings: map<Key, Binding>, source: string, target: string,
                    edgeId: string, orientation: Orientation, e: Edge, revision: string, scopes: Scopes)
  {
    var key := Key(source, target, e.edgeType);
    && key in index && key in bindings && e.assertion in scopes.owners
    && index[key] == Metadata(e.assertion, revision, scopes.owners[e.assertion])
    && bindings[key] == Binding(edgeId, orientation, Metadata(e.assertion, revision, scopes.owners[e.assertion]))
  }

  /** An edge is carried from its source to its target as canonical and, if it is bidirectional, from
    * its target to its source as reverse. */
  predicate CarriesEdge(index: map<Key, Metadata>, bindings: map<Key, Binding>, edgeId: string, e: Edge,
                        revision: string, scopes: Scopes)
  {
    && Carries(index, bindings, e.source, e.target, edgeId, Canonical, e, revision, scopes)
    && (e.direction == "bidirectional" ==>
          Carries(index, bindings, e.target, e.source, edgeId, Reverse, e, revision, scopes))
  }

  predicate Runs(e: Edge, k: Key) {
    && e.edgeType == k.edgeType
    && (|| (e.source == k.source && e.target == k.target)
        || (e.direction == "bidirectional" && e.source == k.target && e.target == k.source))
  }

  /** Exactly the keys that some edge runs along are in the maps, and every edge is carried. */
  ghost predicate CarriesExactly(index: map<Key, Metadata>, bindings: map<Key, Binding>, ids: seq<string>,
                                 edges: seq<Edge>, revision: string, scopes: Scopes)
    requires |ids| == |edges|
  {
    && (forall k :: k in index <==> exists i :: 0 <= i < |edges| && Runs(edges[i], k))
    && (forall k :: k in bindings <==> k in index)
    && (forall i :: 0 <= i < |edges| ==> CarriesEdge(index, bindings, ids[i], edges[i], revision, scopes))
  }

  /** No two pairs claim one key differently; in particular none claims a key that another one's
    * reverse direction claims. */
  ghost predicate Compatible(ids: seq<string>, edges: seq<Edge>)
    requires |ids| == |edges|
  {
    forall i, j :: 0 <= i < |edges| && 0 <= j < |edges| && edges[i].edgeType == edges[j].edgeType ==>
      && (edges[i].source == edges[j].source && edges[i].target == edges[j].target ==>
            ids[i] == ids[j] && edges[i].assertion == edges[j].assertion)
      && (edges[i].source == edges[j].target && edges[i].target == edges[j].source ==>
            edges[j].direction != "bidirectional")
  }

  /** The predicate that owns the edge's assertion is governed and registered for its type. */
  predicate Governed(e: Edge, scopes: Scopes) {
    && e.assertion in scopes.owners
    && scopes.owners[e.assertion] in scopes.governed
    && scopes.owners[e.assertion] in scopes.edgeTypes
    && scopes.edgeTypes[scopes.owners[e.assertion]] == e.edgeType
  }

  lemma RunsAlongContributions(ids: seq<string>, edges: seq<Edge>, k: Key)
    requires |ids| == |edges|
    ensures Contributed(All(ids, edges), k) <==> exists i :: 0 <= i < |edges| && Runs(edges[i], k)
  {
    if i :| 0 <= i < |edges| && Runs(edges[i], k) {
      var e := edges[i];
      var c := if e.source == k.source && e.target == k.target then Forward(ids[i], e) else Backward(ids[i], e);
      assert c in Contributions(ids[i], e) && c in All(ids, edges) && c.key == k;
    }
    if Contributed(All(ids, edges), k) {
      var c :| c in All(ids, edges) && c.key == k;
      var i :| 0 <= i < |ids| && c in Contributions(ids[i], edges[i]);
      assert Runs(edges[i], k);
    }
  }

  lemma EdgeIsCarried(index: map<Key, Metadata>, bindings: map<Key, Binding>, cs: set<Contribution>, edgeId: string,
                      e: Edge, revision: string, scopes: Scopes)
    requires Represents(index, bindings, cs, revision, scopes) && Contributions(edgeId, e) <= cs
    requires e.assertion in scopes.owners
    ensures CarriesEdge(index, bindings, edgeId, e, revision, scopes)
  {
    assert Forward(edgeId, e) in Contributions(edgeId, e);
    assert Holds(index, bindings, Forward(edgeId, e), revision, scopes);
    if e.direction == "bidirectional" {
      assert Backward(edgeId, e) in Contributions(edgeId, e);
      assert Holds(index, bindings, Backward(edgeId, e), revision, scopes);
    }
  }

  /** What the maps hold for their contributions is what the edges say. */
  lemma RepresentsCarries(index: map<Key, Metadata>, bindings: map<Key, Binding>, ids: seq<string>, edges: seq<Edge>,
                          revision: string, scopes: Scopes)
    requires |ids| == |edges| && InScope(edges, scopes)
    requires Represents(index, bindings, All(ids, edges), revision, scopes)
    ensures CarriesExactly(index, bindings, ids, edges, revision, scopes)
  {
    hide Runs, CarriesEdge, Contributions, Holds;
    forall k
      ensures k in index <==> exists i :: 0 <= i < |edges| && Runs(edges[i], k)
    {
      RunsAlongContributions(ids, edges, k);
      if Contributed(All(ids, edges), k) {
        var c :| c in All(ids, edges) && c.key == k;
        HeldKey(index, bindings, c, revision, scopes);
      }
    }
    forall i | 0 <= i < |edges|
      ensures CarriesEdge(index, bindings, ids[i], edges[i], revision, scopes)
    {
      assert ScopeRef(edges[i], scopes).Ok?;
      assert Contributions(ids[i], edges[i]) <= All(ids, edges);
      EdgeIsCarried(index, bindings, All(ids, edges), ids[i], edges[i], revision, scopes);
    }
  }

  lemma HeldKey(index: map<Key, Metadata>, bindings: map<Key, Binding>, c: Contribution, revision: string,
                scopes: Scopes)
    requires Holds(index, bindings, c, revision, scopes)
    ensures c.key in index
  {
  }

  /** One key receives one contribution exactly when the pairs are compatible. */
  lemma ConsistentExactlyWhenCompatible(ids: seq<string>, edges: seq<Edge>)
    requires |ids| == |edges|
    ensures Consistent(All(ids, edges)) <==> Compatible(ids, edges)
  {
    if Consistent(All(ids, edges)) {
      forall i, j | 0 <= i < |edges| && 0 <= j < |edges| && edges[i].edgeType == edges[j].edgeType
        ensures edges[i].source == edges[j].source && edges[i].target == edges[j].target ==>
          ids[i] == ids[j] && edges[i].assertion == edges[j].assertion
        ensures edges[i].source == edges[j].target && edges[i].target == edges[j].source ==>
          edges[j].direction != "bidirectional"
      {
        assert Forward(ids[i], edges[i]) in All(ids, edges) by {
          assert Forward(ids[i], edges[i]) in Contributions(ids[i], edges[i]);
        }
        assert Forward(ids[j], edges[j]) in All(ids, edges) by {
          assert Forward(ids[j], edges[j]) in Contributions(ids[j], edges[j]);
        }
        if edges[j].direction == "bidirectional" {
          assert Backward(ids[j], edges[j]) in Contributions(ids[j], edges[j]);
          assert Backward(ids[j], edges[j]) in All(ids, edges);
        }
      }
    }
    if Compatible(ids, edges) {
      forall c, d | c in All(ids, edges) && d in All(ids, edges) && c.key == d.key
        ensures c == d
      {
        var i :| 0 <= i < |ids| && c in Contributions(ids[i], edges[i]);
        var j :| 0 <= j < |ids| && d in Contributions(ids[j], edges[j]);
        assert edges[i].edgeType == edges[j].edgeType;
      }
    }
  }

  lemma ScopeIsGovernance(edges: seq<Edge>, scopes: Scopes)
    ensures InScope(edges, scopes) <==> forall i :: 0 <= i < |edges| ==> Governed(edges[i], scopes)
  {
    assert forall i :: 0 <= i < |edges| ==> (ScopeRef(edges[i], scopes).Ok? <==> Governed(edges[i], scopes));
  }

  class GovernedIndex {
    const revision: string
    const scopes: Scopes
    var index: map<Key, Metadata>
    var bindings: map<Key, Binding>
    ghost var contributed: set<Contribution>

    ghost predicate Valid()
      reads this
    {
      Consistent(contributed) && Represents(index, bindings, contributed, revision, scopes)
    }

    constructor (revision: string, scopes: Scopes)
      ensures Valid() && contributed == {} && this.revision == revision && this.scopes == scopes
    {
      this.revision, this.scopes := revision, scopes;
      index, bindings, contributed := map[], map[], {};
    }

    /** One governed key: provenance is compared before the binding is. */
    method AddKey(c: Contribution) returns (error: Option<ValidationError>)
      requires Valid()
      modifies this
      ensures error.None? <==> Consistent(old(contributed) + {c})
      ensures error.None? ==> Valid() && contributed == old(contributed) + {c}
      ensures error.Some? ==> c.key in old(index)
      ensures error.Some? ==>
        error.value == if old(index)[c.key].assertion != c.assertion then ConflictingProvenance(c.key)
                       else DuplicateBinding(c.key)
    {
      ComparisonsDecide(index, bindings, contributed, c, revision, scopes);
      var metadata := MetadataFor(c.assertion, revision, scopes);
      if c.key in index && index[c.key].assertion != metadata.assertion {
        return Some(ConflictingProvenance(c.key));
      }
      ghost var index0 := index;
      index := index[c.key := metadata];
      if c.key in bindings && (bindings[c.key].edgeId != c.edgeId || bindings[c.key].orientation != c.orientation) {
        return Some(DuplicateBinding(c.key));
      }
      RepresentsOneMore(index0, bindings, contributed, c, revision, scopes);
      bindings := bindings[c.key := Binding(c.edgeId, c.orientation, metadata)];
      contributed := contributed + {c};
      return None;
    }

    method AddGovernedEdge(edgeId: string, edge: Edge) returns (error: Option<ValidationError>)
      requires Valid()
      modifies this
      ensures error.None? <==> Consistent(old(contributed) + Contributions(edgeId, edge))
      ensures error.None? ==> Valid() && contributed == old(contributed) + Contributions(edgeId, edge)
      ensures error.None? && edge.assertion in scopes.owners ==>
        CarriesEdge(index, bindings, edgeId, edge, revision, scopes)
      ensures error.Some? ==> error.value.ConflictingProvenance? || error.value.DuplicateBinding?
    {
      ghost var both := contributed + Contributions(edgeId, edge);
      ConsistentSubset(contributed + {Forward(edgeId, edge)}, both);
      error := AddKey(Forward(edgeId, edge));
      if error.Some? {
        return;
      }
      if edge.direction == "bidirectional" {
        assert contributed + {Backward(edgeId, edge)} == both;
        error := AddKey(Backward(edgeId, edge));
        if error.Some? {
          return;
        }
      }
      if edge.assertion in scopes.owners {
        EdgeIsCarried(index, bindings, contributed, edgeId, edge, revision, scopes);
      }
    }
  }

  lemma ConsistentSubset(a: set<Contribution>, b: set<Contribution>)
    requires a <= b
    ensures Consistent(b) ==> Consistent(a)
  {
  }

  ghost predicate InScope(edges: seq<Edge>, scopes: Scopes) {
    forall i :: 0 <= i < |edges| ==> ScopeRef(edges[i], scopes).Ok?
  }

  /** What one build returns for its input. */
  ghost predicate BuildSpec(ids: seq<string>, edges: seq<Edge>, revision: string, publication: string, scopes: Scopes,
                            r: Result<Snapshot, ValidationError>)
  {
    && (r.Ok? <==> |ids| == |edges| && InScope(edges, scopes) && Consistent(All(ids, edges)))
    && (r.Ok? ==>
          && r.value.publication == Some(publication)
          && Represents(r.value.index, r.value.bindings, All(ids, edges), revision, scopes))
    && (r.Err? && r.error == LengthMismatch <==> |ids| != |edges|)
  }

  lemma AllGrows(ids: seq<string>, edges: seq<Edge>, i: nat)
    requires |ids| == |edges| && i < |ids|
    ensures All(ids[..i + 1], edges[..i + 1]) == All(ids[..i], edges[..i]) + Contributions(ids[i], edges[i])
    ensures All(ids[..i + 1], edges[..i + 1]) <= All(ids, edges)
  {
  }

  lemma RejectedPrefix(ids: seq<string>, edges: seq<Edge>, i: nat)
    requires |ids| == |edges| && i < |ids|
    requires !Consistent(All(ids[..i], edges[..i]) + Contributions(ids[i], edges[i]))
    ensures !Consistent(All(ids, edges))
  {
    AllGrows(ids, edges, i);
    ConsistentSubset(All(ids[..i + 1], edges[..i + 1]), All(ids, edges));
  }

  method AddAll(builder: GovernedIndex, ids: seq<string>, edges: seq<Edge>) returns (error: Option<ValidationError>)
    requires |ids| == |edges| && builder.Valid() && builder.contributed == {}
    modifies builder
    ensures error.None? <==> InScope(edges, builder.scopes) && Consistent(All(ids, edges))
    ensures error.None? ==> builder.Valid() && builder.contributed == All(ids, edges)
    ensures error.None? ==>
      CarriesExactly(builder.index, builder.bindings, ids, edges, builder.revision, builder.scopes)
    ensures error.Some? ==> error.value != LengthMismatch
  {
    hide CarriesEdge, Runs, CarriesExactly;
    var i := 0;
    while i < |ids|
      invariant 0 <= i <= |ids| && builder.Valid()
      invariant InScope(edges[..i], builder.scopes)
      invariant builder.contributed == All(ids[..i], edges[..i])
    {
      var scope := ScopeRef(edges[i], builder.scopes);
      if scope.Err? {
        return Some(scope.error);
      }
      error := builder.AddGovernedEdge(ids[i], edges[i]);
      if error.Some? {
        RejectedPrefix(ids, edges, i);
        return;
      }
      AllGrows(ids, edges, i);
      i := i + 1;
    }
    assert ids[..i] == ids && edges[..i] == edges;
    RepresentsCarries(builder.index, builder.bindings, ids, edges, builder.revision, builder.scopes);
    return None;
  }

  method PublishedRelationshipSnapshot(ids: seq<string>, edges: seq<Edge>, revision: string, publication: string,
                                       scopes: Scopes)
    returns (r: Result<Snapshot, ValidationError>)
    ensures BuildSpec(ids, edges, revision, publication, scopes, r)
    ensures r.Ok? <==>
      |ids| == |edges| && (forall i :: 0 <= i < |edges| ==> Governed(edges[i], scopes)) && Compatible(ids, edges)
    ensures r.Ok? ==> CarriesExactly(r.value.index, r.value.bindings, ids, edges, revision, scopes)
  {
    if |ids| == |edges| {
      ConsistentExactlyWhenCompatible(ids, edges);
      ScopeIsGovernance(edges, scopes);
    }
    hide Compatible, CarriesExactly, Governed;
    if |ids| != |edges| {
      return Err(LengthMismatch);
    }
    var builder := new GovernedIndex(revision, scopes);
    var error := AddAll(builder, ids, edges);
    if error.Some? {
      return Err(error.value);
    }
    return Ok(Snapshot(Some(publication), builder.index, builder.bindings));
  }

  // ---- The maps are a function of the edge set ----

  ghost predicate Paired(ids: seq<string>, edges: seq<Edge>, id: string, e: Edge)
    requires |ids| == |edges|
  {
    exists i :: 0 <= i < |ids| && ids[i] == id && edges[i] == e
  }

  ghost predicate SamePairs(ids: seq<string>, edges: seq<Edge>, ids': seq<string>, edges': seq<Edge>)
    requires |ids| == |edges| && |ids'| == |edges'|
  {
    forall id, e :: Paired(ids, edges, id, e) ==> Paired(ids', edges', id, e)
  }

  lemma SamePairsContribute(ids: seq<string>, edges: seq<Edge>, ids': seq<string>, edges': seq<Edge>, scopes: Scopes)
    requires |ids| == |edges| && |ids'| == |edges'| && SamePairs(ids, edges, ids', edges')
    ensures All(ids, edges) <= All(ids', edges')
    ensures InScope(edges', scopes) ==> InScope(edges, scopes)
  {
    forall c | c in All(ids, edges)
      ensures c in All(ids', edges')
    {
      var i :| 0 <= i < |ids| && c in Contributions(ids[i], edges[i]);
      assert Paired(ids, edges, ids[i], edges[i]);
    }
    forall i | 0 <= i < |edges| && InScope(edges', scopes)
      ensures ScopeRef(edges[i], scopes).Ok?
    {
      assert Paired(ids, edges, ids[i], edges[i]);
    }
  }

  /** Two inputs that pair the same ids with the same edges, in any order and with any repetition,
    * succeed together and give the same snapshot. */
  lemma BuildIgnoresOrder(ids: seq<string>, edges: seq<Edge>, ids': seq<string>, edges': seq<Edge>,
                          revision: string, publication: string, scopes: Scopes,
                          r: Result<Snapshot, ValidationError>, r': Result<Snapshot, ValidationError>)
    requires |ids| == |edges| && |ids'| == |edges'|
    requires SamePairs(ids, edges, ids', edges') && SamePairs(ids', edges', ids, edges)
    requires BuildSpec(ids, edges, revision, publication, scopes, r)
    requires BuildSpec(ids', edges', revision, publication, scopes, r')
    ensures r.Ok? <==> r'.Ok?
    ensures r.Ok? ==> r.value == r'.value
  {
    SamePairsContribute(ids, edges, ids', edges', scopes);
    SamePairsContribute(ids', edges', ids, edges, scopes);
    assert All(ids, edges) == All(ids', edges');
    if r.Ok? {
      RepresentsUnique(r.value, r'.value, All(ids, edges), revision, scopes);
    }
  }

  lemma RepresentsUnique(s: Snapshot, s': Snapshot, cs: set<Contribution>, revision: string, scopes: Scopes)
    requires Represents(s.index, s.bindings, cs, revision, scopes)
    requires Represents(s'.index, s'.bindings, cs, revision, scopes)
    ensures s.index == s'.index && s.bindings == s'.bindings
  {
    forall k
      ensures k in s.index <==> k in s'.index
      ensures k in s.index ==> s.index[k] == s'.index[k] && s.bindings[k] == s'.bindings[k]
    {
      if k in s.index || k in s'.index {
        assert Contributed(cs, k);
        var c :| c in cs && c.key == k;
        assert Holds(s.index, s.bindings, c, revision, scopes) && Holds(s'.index, s'.bindings, c, revision, scopes);
      }
    }
  }

  // ---- Visualisation ----

  function OrientationText(o: Orientation): string {
    if o == Canonical then "canonical" else "reverse"
  }

  function PublishedEdgeId(publication: string, b: Binding): string {
    "published:" + publication + ":edge:" + b.edgeId + ":" + OrientationText(b.orientation)
  }

  datatype VisualizationEdge = VisualizationEdge(governance: Option<Metadata>, edgeId: string)

  datatype VisualizationError = InconsistentPublication

  /** `legacy` is the identifier an ungoverned edge gets from a hash of its key. */
  function BuildVisualizationEdge(k: Key, s: Snapshot, legacy: string): Result<VisualizationEdge, VisualizationError> {
    if k !in s.index then Ok(VisualizationEdge(None, legacy))
    else if s.publication.None? || k !in s.bindings then Err(InconsistentPublication)
    else Ok(VisualizationEdge(Some(s.index[k]), PublishedEdgeId(s.publication.value, s.bindings[k])))
  }

  lemma PublishedEdgeIdInjective(publication: string, a: Binding, b: Binding)
    ensures PublishedEdgeId(publication, a) == PublishedEdgeId(publication, b) <==>
            a.edgeId == b.edgeId && a.orientation == b.orientation
  {
    var p := "published:" + publication + ":edge:";
    var x, y := PublishedEdgeId(publication, a), PublishedEdgeId(publication, b);
    if x == y {
      assert x[|x| - 1] == if a.orientation == Canonical then 'l' else 'e';
      assert y[|y| - 1] == if b.orientation == Canonical then 'l' else 'e';
      var tail := |":" + OrientationText(a.orientation)|;
      assert a.edgeId == x[|p|..|x| - tail];
      assert b.edgeId == y[|p|..|y| - tail];
    }
  }

  /** What is shown along the `i`-th edge of a built snapshot, and against it if it is bidirectional. */
  lemma BuiltSnapshotShowsEdge(ids: seq<string>, edges: seq<Edge>, revision: string, publication: string,
                               scopes: Scopes, s: Snapshot, legacy: string, i: nat)
    requires |ids| == |edges| && i < |edges|
    requires CarriesExactly(s.index, s.bindings, ids, edges, revision, scopes) && s.publication == Some(publication)
    ensures edges[i].assertion in scopes.owners
    ensures
      var e := edges[i];
      var metadata := Metadata(e.assertion, revision, scopes.owners[e.assertion]);
      && BuildVisualizationEdge(Key(e.source, e.target, e.edgeType), s, legacy) ==
         Ok(VisualizationEdge(Some(metadata), "published:" + publication + ":edge:" + ids[i] + ":" + "canonical"))
      && (e.direction == "bidirectional" ==>
            BuildVisualizationEdge(Key(e.target, e.source, e.edgeType), s, legacy) ==
            Ok(VisualizationEdge(Some(metadata), "published:" + publication + ":edge:" + ids[i] + ":" + "reverse")))
  {
    assert CarriesEdge(s.index, s.bindings, ids[i], edges[i], revision, scopes);
    hide CarriesExactly;
  }

  /** Where no edge runs, the legacy identifier is shown. */
  lemma BuiltSnapshotShowsLegacy(ids: seq<string>, edges: seq<Edge>, revision: string, scopes: Scopes, s: Snapshot,
                                 legacy: string, k: Key)
    requires |ids| == |edges| && CarriesExactly(s.index, s.bindings, ids, edges, revision, scopes)
    requires forall i :: 0 <= i < |edges| ==> !Runs(edges[i], k)
    ensures BuildVisualizationEdge(k, s, legacy) == Ok(VisualizationEdge(None, legacy))
  {
    hide Runs, CarriesEdge;
    assert k !in s.index;
  }

  /** A snapshot that was built never reaches the inconsistency branch, and shows the metadata of
    * exactly the governed keys. */
  lemma BuiltSnapshotIsConsistent(ids: seq<string>, edges: seq<Edge>, revision: string, publication: string,
                                  scopes: Scopes, r: Result<Snapshot, ValidationError>, k: Key, legacy: string)
    requires BuildSpec(ids, edges, revision, publication, scopes, r) && r.Ok?
    ensures BuildVisualizationEdge(k, r.value, legacy).Ok?
    ensures BuildVisualizationEdge(k, r.value, legacy).value.governance.Some? <==> Contributed(All(ids, edges), k)
  {
    if Contributed(All(ids, edges), k) {
      var c :| c in All(ids, edges) && c.key == k;
      assert Holds(r.value.index, r.value.bindings, c, revision, scopes);
    }
  }

  /** No edge id contributes two keys in one orientation. */
  ghost predicate OneKeyPerIdAndOrientation(cs: set<Contribution>) {
    forall c, d :: c in cs && d in cs && c.edgeId == d.edgeId && c.orientation == d.orientation ==> c.key == d.key
  }

  ghost predicate DistinctEdgeIds(publication: string, s: Snapshot)
    requires s.index.Keys == s.bindings.Keys
  {
    forall j, k :: j in s.index && k in s.index && j != k ==>
      PublishedEdgeId(publication, s.bindings[j]) != PublishedEdgeId(publication, s.bindings[k])
  }

  /** Distinct governed keys get distinct edge identifiers exactly then. */
  lemma EdgeIdsDistinctExactlyWhen(publication: string, s: Snapshot, cs: set<Contribution>, revision: string,
                                   scopes: Scopes)
    requires Represents(s.index, s.bindings, cs, revision, scopes)
    ensures DistinctEdgeIds(publication, s) <==> OneKeyPerIdAndOrientation(cs)
  {
    if OneKeyPerIdAndOrientation(cs) {
      forall j, k | j in s.index && k in s.index && j != k
        ensures PublishedEdgeId(publication, s.bindings[j]) != PublishedEdgeId(publication, s.bindings[k])
      {
        PublishedEdgeIdInjective(publication, s.bindings[j], s.bindings[k]);
        assert Contributed(cs, j) && Contributed(cs, k);
        var c :| c in cs && c.key == j;
        var d :| d in cs && d.key == k;
        assert Holds(s.index, s.bindings, c, revision, scopes) && Holds(s.index, s.bindings, d, revision, scopes);
      }
    }
    if DistinctEdgeIds(publication, s) {
      forall c, d | c in cs && d in cs && c.edgeId == d.edgeId && c.orientation == d.orientation
        ensures c.key == d.key
      {
        assert Holds(s.index, s.bindings, c, revision, scopes) && Holds(s.index, s.bindings, d, revision, scopes);
        PublishedEdgeIdInjective(publication, s.bindings[c.key], s.bindings[d.key]);
      }
    }
  }

  /** With distinct edge ids that condition holds. */
  lemma DistinctIdsSuffice(ids: seq<string>, edges: seq<Edge>)
    requires |ids| == |edges| && forall i, j :: 0 <= i < j < |ids| ==> ids[i] != ids[j]
    ensures OneKeyPerIdAndOrientation(All(ids, edges))
  {
    forall c, d | c in All(ids, edges) && d in All(ids, edges) && c.edgeId == d.edgeId && c.orientation == d.orientation
      ensures c.key == d.key
    {
      var i :| 0 <= i < |ids| && c in Contributions(ids[i], edges[i]);
      var j :| 0 <= j < |ids| && d in Contributions(ids[j], edges[j]);
      assert i == j;
    }
  }
}

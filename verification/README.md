# Verified model of graph publication, governed projections and the migration ledger

The repository coordinates graph rebuilds across processes, publishes governed relationship
projections, and validates PostgreSQL ledgers and catalogs. This project models the parts of it that
carry hard guarantees, in the same branches and the same order of checks as the code, and proves
them for all inputs and all runs.

- `GraphLifecycle`: the seven-state lifecycle machine behind the graph lock, one method per critical
  section.
- `RuntimeSync`: one node's polling synchroniser and local rebuild publisher interleaved with the
  lease-serialised commits of other nodes. A graph is named by its commit version.
- `SingleFlight`: the rebuild endpoint on one event loop, with its done callback, except branches and
  finally block.
- `Publication`: the two-session publication transaction with its heartbeat flags, under failures of
  any call.
- `LeaseFencing`: several nodes publishing under one lease row, in a shared or a separate
  coordination database.
- `RelationshipIndex` and `SnapshotCache`: the governed index built edge by edge with conflict
  detection, its use by the visualisation, and the generation-keyed cache in front of it.
- `SqlNormalizer`, `SqlGuard` (over `TextSearch`): two hand-written SQL scanners. `SqlGrammar` says
  without them what a quoted token and a normal form are, and `NormalizerGrammar` and `GuardGrammar`
  prove the scanners against it and against the fragments of a migration text.
- `CatalogCanonical`: the canonical form of catalog documents and ACL items (over `Sorting`).
- `LedgerManifest`, `LedgerPlan`, `PlanConditions`, `AdoptionHistory`: migration lists, alias grouping
  into a plan, what a plan says in terms of bindings and URLs alone, and the adoption of a hosted
  database one marker at a time.
- `DigestEncoding` (over `Utf8`): the length-prefixed bytes that are hashed, and the canonical
  identity values among them.
- `AssertionProof`: a validator of event histories.
- `Manifest`, `ManifestLayout`: a fixer with the separate checker of its output, and the lines,
  headings and blocks that they read and write.
- `BraceScanner` (over `BraceGrammar`): a scanner for the outermost brace blocks of a text, against a
  grammar of blocks that knows nothing of the scanner.

Calls into code that is not modelled are given minimal contracts. `renew_owned_lock` succeeds only
for the live owner and keeps the lease row locked until its transaction ends;
`load_graph` returns a committed version at least as new as any version this node has read or
written; job ids are unique and not empty; a history or catalog query returns its rows or raises.
Whitespace, letters, control characters, Unicode normalisation and the whitespace characters that
end a line are parameters with the laws of the host language that the proofs use (no quote, `$`,
backslash or hash sign is whitespace). Where a
scanner is a loop in the source, it is a method here, proved against a recursive specification over
the rest of the text; the results are about that specification.

Some plausible invariants are false of the code. Each has a lemma with the failing behaviour and,
where there is one, the exact condition under which the property holds.

- `last_synced_job_id` can step back to an older job, although the graph never does
  (`RuntimeSync.MarkerMayStepBack`). It does so exactly in the runs where the synchroniser publishes
  under a captured marker that is newer than the job it queried
  (`RuntimeSync.RunMarkerNeverBackExactlyWhen`).
- If the lease lapses between the local durable commit and its last local publication, the runtime
  graph can fall back to an older version: exactly when, at that moment, a synchronisation can still
  load a newer graph and publish it first (`RuntimeSync.LapseLowersExactlyWhenExposed`).
- Startup loads the graph before it reads the job id; a commit between the two leaves the node on the
  old graph for good once commits stop (`RuntimeSync.StartupRace`).
- A rebuild requested without a graph and rejected for contention leaves READY without a graph, and
  then every graph request fails (`GraphLifecycle.ContentionWithoutGraphWedges`).
- After the overlaid graph was made durable and published, the pipeline publishes the raw graph over
  it (line 1056 of `api/routers/graph_admin.py`), so on success the runtime holds the raw graph; a
  runtime that is shutting down keeps what it had, although the publication is durable
  (`Publication.RunPipelineTail`).
- A lease-renewal commit that fails after the domain commit is swallowed as documented, except when
  rolling it back raises too (`Publication.LateCoordinationFailure`).
- With a separate coordination database, losing the coordination session inside a publication lets
  another node publish inside the same window (`LeaseFencing.LostSessionBreaksFence`).
- The history validator accepts a second Proposed-to-Accepted event on an authority it does not know,
  even by the proposer (`AssertionProof.SecondProposalAcceptedByProposer`).
- A well-nested comment appended to a text that ends in an open line comment can add tokens
  (`SqlGuard.CommentsAtTheEndExactly`).

## Model

| member | source | states |
|---|---|---|
| GraphLifecycle.GraphRuntime.TransitionTo | api/graph_lifecycle.py:137-146 | a move is refused exactly when the table does not list it and it is not the current state; a refused move changes nothing |
| GraphLifecycle.MovesByTarget | api/graph_lifecycle.py:93-134 | the table by target: from which states each state can be entered |
| GraphLifecycle.GraphRuntime.NormalizeShutdown | api/graph_lifecycle.py:149-159 | a shutdown in progress or complete becomes UNINITIALIZED and is never refused |
| GraphLifecycle.GraphRuntime.GetGraphWithStartupSource | api/graph_lifecycle.py:245-288 | new state and verdict of a graph request, with the startup providers raising, returning a graph or returning none |
| GraphLifecycle.GraphRuntime.SynchronizeRuntimeGraph | api/graph_lifecycle.py:307-349 | new state and verdict of a compare-and-set publication; declined when shut down or when the expected job differs |
| GraphLifecycle.GraphRuntime.StartRebuild | api/graph_lifecycle.py:406-419 | new state and verdict of the start of a rebuild from every lifecycle state |
| GraphLifecycle.GraphRuntime.FinishRebuild | api/graph_lifecycle.py:422-448 | a completion has an effect only while REBUILDING |
| GraphLifecycle.GraphRuntime.Shutdown | api/graph_lifecycle.py:451-458 | shutdown reaches STOPPED from every state |
| GraphLifecycle.StepSafeExactlyWhenAdmissible | api/graph_lifecycle.py:93-177 | from a sound state, a section ends in a sound state without an illegal move or a missing graph if and only if its caller met its obligation |
| GraphLifecycle.RunSafeExactlyWhenAdmissible | api/graph_lifecycle.py:245-458 | in a whole run INITIALIZING is never visible, READY and REBUILDING imply a graph and no illegal move is attempted, if and only if every operation met its obligation |
| GraphLifecycle.ShutdownIsFinal | api/graph_lifecycle.py:451-458 | from every state, with a graph or without one, shutdown reaches STOPPED, and then no publication, late completion, second shutdown or read of a present graph changes the runtime |
| GraphLifecycle.ContentionWithoutGraphWedges | api/routers/graph_admin.py:159-161 | a rebuild begun without a graph and cleared after contention leaves READY without a graph, where every graph request fails |
| RuntimeSync.CommitKeepsInvariant | api/routers/graph_admin.py:1232-1306 | commits by this node or another keep the runtime graph at a seen commit no older than its marker |
| RuntimeSync.PublicationKeepsInvariant | api/routers/graph_admin.py:1731-1806 | both local publications keep it, under the lease or in a window that nothing can overtake, and never lower the version |
| RuntimeSync.SyncKeepsInvariant | api/graph_lifecycle.py:681-765 | every section of the synchroniser keeps it and never lowers the version |
| RuntimeSync.StepKeepsInvariant | api/graph_lifecycle.py:307-349 | every step of the interleaving, but for a lapse of the lease in an exposed window, keeps the invariant and never lowers the runtime graph's version |
| RuntimeSync.RunsNeverGoBack | api/graph_lifecycle.py:681-765 | in every interleaving without a lapse in an exposed window the commit version of the runtime graph never decreases and is never older than the job named by the marker |
| RuntimeSync.FullSyncResult | api/graph_lifecycle.py:706-755 | the exact outcome of one complete synchronisation that reads the newest commit |
| RuntimeSync.SyncConverges | api/graph_lifecycle.py:681-765 | once commits stop, one complete synchronisation outside a rebuild or shutdown leaves the runtime at the newest commit, whatever the marker said |
| RuntimeSync.NeverLowered | api/routers/graph_admin.py:1039-1057 | from every state of the invariant no disciplined schedule lowers the runtime graph |
| RuntimeSync.LapseLowersExactlyWhenExposed | api/routers/graph_admin.py:1039-1057 | after a lapse in the window some continuation lowers the runtime graph if and only if, at the lapse, the runtime is not shut and a synchronisation can still publish a newer graph before the last local publication |
| RuntimeSync.WindowIsReachable | api/routers/graph_admin.py:1232-1306 | an exposed window under the lease is reached from every serving node with a commit |
| RuntimeSync.GraphChangesExactly | api/graph_lifecycle.py:307-349 | which steps replace the runtime graph and its job, by what and under which condition, and where a rebuild and a shutdown leave the lifecycle |
| RuntimeSync.LateCaptureRewritesMarker | api/graph_lifecycle.py:706-755 | a synchronisation that queried before a local publication and captures the marker after it rewrites the marker to the older job |
| RuntimeSync.MarkerMayStepBack | api/graph_lifecycle.py:706-755 | that state is reached from every quiet node, so the marker does step back while the graph does not |
| RuntimeSync.MarkerLoweredExactlyWhen | api/graph_lifecycle.py:728-755 | a step lowers the marker if and only if it is a publication of the synchroniser that takes effect with a captured marker newer than the job it queried |
| RuntimeSync.RunMarkerNeverBackExactlyWhen | api/graph_lifecycle.py:706-755 | in a run the marker never steps back if and only if no such publication occurs |
| RuntimeSync.FreshCapturesSuffice | api/graph_lifecycle.py:706-722 | if the marker read at each capture is no newer than the queried job, no publication steps back |
| RuntimeSync.StartupRace | api/graph_lifecycle.py:629-678 | startup establishes the invariant if and only if no commit fell between its two reads; otherwise, once commits stop, every later complete synchronisation returns early, however many there are |
| SingleFlight.RebuildEndpoint.Start | api/routers/graph_admin.py:541-630 | claim, locking and submission, and what is undone when the executor refuses |
| SingleFlight.RebuildEndpoint.OnDone | api/routers/graph_admin.py:672-733 | a callback ends REBUILDING in READY after success or contention and in FAILED otherwise, and does nothing outside REBUILDING |
| SingleFlight.RebuildEndpoint.Resume | api/routers/graph_admin.py:541-630 | the except branches end REBUILDING in READY after contention and in FAILED after another error, and the lock is released in every case |
| SingleFlight.RequestKeepsInvariant | api/routers/graph_admin.py:222-228 | a request arriving at any time keeps one flight and its due finalisations |
| SingleFlight.FlightStepKeepsInvariant | api/routers/graph_admin.py:633-736 | the callback and the resumed handler keep them although both finalise |
| SingleFlight.ElsewhereKeepsInvariant | api/graph_lifecycle.py:307-458 | so does every other user of the runtime, shutdown included |
| SingleFlight.StepKeepsInvariant | api/routers/graph_admin.py:541-736 | every step keeps the invariant |
| SingleFlight.RunsKeepInvariant | api/routers/graph_admin.py:541-736 | so does every run |
| SingleFlight.SingleFlightAndOneFinalization | api/routers/graph_admin.py:541-736 | at most one request is between claim and release, and each released request was finalised once, to READY after success or contention and to FAILED otherwise, unless a shutdown came first |
| SingleFlight.LifecycleAloneWouldAdmit | api/routers/graph_admin.py:222-228 | between callback and resumed handler only the loop's lock turns a new request away |
| Publication.HeartbeatKeeper | api/routers/graph_admin.py:749-847 | at most one flag is set, on the first unhealthy wake-up, and no later wake-up is served |
| Publication.GuardPublicationLock | api/routers/graph_admin.py:1717-1728 | missing or partial lock inputs, failed renewal, and the renewal written on success |
| Publication.StagePublication | api/routers/graph_admin.py:1747-1781 | the body up to the pre-success check stops at the first failing point with the writes made so far |
| Publication.FinalizeProjection | api/routers/graph_admin.py:1782-1799 | the rest of the body, likewise |
| Publication.CommitPublication | api/routers/graph_admin.py:1644-1684 | order of the last check, the domain commit and the lease commit, and what each failure leaves durable |
| Publication.CloseSessions | api/routers/graph_admin.py:1687-1698 | both sessions lose what they did not commit |
| Publication.PublicationTransaction | api/routers/graph_admin.py:1625-1656 | if and only if every call up to the domain commit succeeds and no flag is seen, the domain gains the staged graph, the success mark, the projection and the publication in this order, with the renewals among them in a shared database and in the separate one otherwise; the reported error for every script of failures |
| Publication.FinalizeRebuildSuccess | api/routers/graph_admin.py:1731-1806 | the same for the whole finalisation; the runtime receives the very graph that was made durable, or nothing |
| Publication.RunPipelineTail | api/routers/graph_admin.py:1039-1057 | the same for the overlaid graph; on success the runtime ends with the raw one, and a rejected publication is durable while the runtime keeps its graph |
| Publication.TransactionErrors | api/routers/graph_admin.py:1625-1656 | the error of the transaction is the first failing point of the documented order |
| Publication.DurableExactlyWhen | api/routers/graph_admin.py:1644-1691 | the commit is reached and succeeds if and only if every call up to it succeeds, the lock inputs are both given or both missing, and neither flag is set by the final check |
| Publication.OrderIsComplete | api/routers/graph_admin.py:1625-1799 | the calls and checks up to the domain commit, one by one in the order of the source |
| Publication.FlagReported | api/routers/graph_admin.py:896-901 | a check reports a lost lock before a cancellation, and nothing if neither flag is set |
| Publication.LateCoordinationFailure | api/routers/graph_admin.py:1673-1691 | a failing lease commit changes nothing durable in the domain and is reported exactly when its rollback raises too |
| LeaseFencing.TransactionStays | api/routers/graph_admin.py:1701-1714 | an open renewed transaction keeps the lease row through every step of the others |
| LeaseFencing.LogStaysFenced | api/routers/graph_admin.py:1673-1684 | a domain commit extends the ordered log of windows |
| LeaseFencing.StepKeepsInvariant | src/data/repository.py:87-191 | acquisition, renewal, release and expiry keep the invariant |
| LeaseFencing.HolderChangesExactly | src/data/repository.py:87-191 | the lease changes hands only when it is free or expired and another node takes it, or when its holder releases it |
| LeaseFencing.RenewalExactly | src/data/repository.py:212-226 | a renewal succeeds if and only if the node holds a lease that has not run out |
| LeaseFencing.PublicationsAreFenced | api/routers/graph_admin.py:1625-1656 | in every run each commit was made by the then owner and windows from first renewal to commit do not overlap, for both database layouts |
| LeaseFencing.SharedNeverLosesSession | api/routers/graph_admin.py:1659-1670 | a shared database always meets the premise |
| LeaseFencing.TakeOver | src/data/repository.py:87-191 | once the row is unlocked and expired another node can take it and publish |
| LeaseFencing.LostSessionBreaksFence | api/routers/graph_admin.py:1659-1684 | with a separate database the premise is needed |
| RelationshipIndex.AssertionPredicatesForEdges | api/services/relationship_index.py:188-215 | the chunked lookup returns the owner of every assertion asked for, or the missing-assertion error exactly when one has none |
| RelationshipIndex.ComparisonsDecide | api/services/relationship_index.py:250-288 | the two comparisons of the code decide whether one more contribution is consistent |
| RelationshipIndex.RepresentsOneMore | api/services/relationship_index.py:250-288 | the two dictionary writes make the maps represent exactly one more contribution |
| RelationshipIndex.GovernedIndex.AddKey | api/services/relationship_index.py:250-288 | a key is added, or refused exactly when it is inconsistent, leaving the maps alone |
| RelationshipIndex.GovernedIndex.AddGovernedEdge | api/services/relationship_index.py:250-288 | an edge is carried from source to target and, if bidirectional, back, with its id, orientation and metadata, or is refused exactly on a conflict |
| RelationshipIndex.AddAll | api/services/relationship_index.py:291-325 | the loop succeeds exactly when all contributions are consistent and scopes pass, and then the maps carry exactly the edges |
| RelationshipIndex.PublishedRelationshipSnapshot | api/services/relationship_index.py:291-325 | a build succeeds if and only if the lists match, every edge is governed and no two pairs claim one key differently; then the keys are exactly those that some edge runs along, each with that edge's id, orientation, assertion, revision and owner |
| RelationshipIndex.ConsistentExactlyWhenCompatible | api/services/relationship_index.py:250-288 | one key receives one contribution if and only if no two pairs claim one key differently |
| RelationshipIndex.RepresentsCarries | api/services/relationship_index.py:250-288 | maps built from the contributions carry exactly the edges |
| RelationshipIndex.BuildIgnoresOrder | api/services/relationship_index.py:291-325 | the same pairs in any order and with any repetition succeed together and give the same snapshot |
| RelationshipIndex.RepresentsUnique | api/services/relationship_index.py:291-325 | the maps are a function of the contributions |
| RelationshipIndex.PublishedEdgeIdInjective | api/routers/visualization.py:87-117 | published edge identifiers determine edge id and orientation |
| RelationshipIndex.BuiltSnapshotIsConsistent | api/routers/visualization.py:87-117 | on a built snapshot the inconsistency branch is unreachable |
| RelationshipIndex.BuiltSnapshotShowsEdge | api/routers/visualization.py:87-117 | along an edge, and against it if bidirectional, the metadata and the published identifier of that edge are shown |
| RelationshipIndex.BuiltSnapshotShowsLegacy | api/routers/visualization.py:87-117 | where no edge runs the legacy identifier is shown |
| RelationshipIndex.EdgeIdsDistinctExactlyWhen | api/routers/visualization.py:87-117 | distinct governed keys get distinct identifiers if and only if no edge id contributes two keys in one orientation |
| RelationshipIndex.DistinctIdsSuffice | api/services/relationship_index.py:291-325 | distinct edge ids meet that condition |
| SnapshotCache.ReadIsDirect | api/services/relationship_index.py:420-457 | what a loader reads is a direct load at the step it read |
| SnapshotCache.CacheStays | api/services/relationship_index.py:523-538 | cached entries keep their properties through every step, slow stores included |
| SnapshotCache.ReaderStays | api/services/relationship_index.py:560-593 | so does what a reader has in hand |
| SnapshotCache.StepKeepsInvariant | api/services/relationship_index.py:560-617 | every step keeps the cache invariant |
| SnapshotCache.RunsKeepInvariant | api/services/relationship_index.py:560-617 | so does every run |
| SnapshotCache.ReadersAreFresh | api/services/relationship_index.py:560-617 | a reader that captures its generation after an invalidation returned never receives a snapshot whose load began before that return; an unmanaged one is the last publication the load saw |
| SnapshotCache.BoundSnapshotsAreExact | api/services/relationship_index.py:532-538 | a cached bound snapshot equals a direct load of its publication, now and later |
| SnapshotCache.LoadExactly | api/services/relationship_index.py:420-490 | a direct load is the last publication for an unmanaged graph, and for a bound one the publication with its id and revision |
| SqlNormalizer.StringTokenEnd | scripts/postgresql_drift.py:223-235 | end of a string or identifier token, none when unterminated |
| SqlNormalizer.DollarTagEnd | scripts/postgresql_drift.py:238-248 | end of an opening dollar delimiter, none when malformed |
| SqlNormalizer.DollarTokenEnd | scripts/postgresql_drift.py:238-251 | end of a dollar-quoted body, none when unterminated |
| SqlNormalizer.QuotedTokenEnd | scripts/postgresql_drift.py:254-262 | end of whichever quoted token starts here |
| SqlNormalizer.NormalizeSqlText | scripts/postgresql_drift.py:265-286 | the loop prints the lexing of its input |
| NormalizerGrammar.QuotedExactly | scripts/postgresql_drift.py:223-262 | a quoted token of some length is found if and only if the text starts with a string constant, a delimited name, an E-string or a dollar body of that length that the next character does not continue |
| NormalizerGrammar.InsideExactly | scripts/postgresql_drift.py:223-235 | a string ends at the first quote that is neither doubled nor escaped |
| NormalizerGrammar.FindIsFirst | scripts/postgresql_drift.py:250-251 | a search finds the first occurrence, and finds one whenever there is one |
| NormalizerGrammar.EveryTextReads | scripts/postgresql_drift.py:265-286 | every text is a row of quoted tokens, blanks and signs |
| NormalizerGrammar.NormalFormIsCollapsed | scripts/postgresql_drift.py:265-286 | the normal form is that row with every run of blanks between two items turned into one space |
| NormalizerGrammar.QuotedTokensAreCopied | scripts/postgresql_drift.py:265-286 | every quoted token stands verbatim in the normal form |
| SqlNormalizer.SqueezeKeepsStrings | scripts/postgresql_drift.py:223-235 | whether a string is terminated does not depend on whitespace runs |
| SqlNormalizer.SqueezeKeepsQuoted | scripts/postgresql_drift.py:254-262 | nor does whether any quoted token is |
| SqlNormalizer.StringStable | scripts/postgresql_drift.py:223-235 | a complete string token does not look past the character after it |
| SqlNormalizer.DollarStable | scripts/postgresql_drift.py:238-251 | a complete dollar-quoted body does not look past its end |
| SqlNormalizer.QuotedStable | scripts/postgresql_drift.py:254-262 | a complete quoted token is read again as it was when what follows is printed |
| SqlNormalizer.LexOfTail | scripts/postgresql_drift.py:265-286 | lexing what the printer emits gives back the tokens it was given |
| SqlNormalizer.NormalizePrintsTokens | scripts/postgresql_drift.py:265-286 | the normalised text has the fragments and gaps of the original, unterminated quotes and malformed tags included |
| SqlNormalizer.NormalizeSeparatesTokens | scripts/postgresql_drift.py:265-286 | two texts normalise equally if and only if they have the same fragments and gaps; normalising is idempotent |
| SqlNormalizer.WhitespaceRunsDoNotMatter | scripts/postgresql_drift.py:265-286 | replacing a whitespace run between tokens by any other leaves the normal form unchanged |
| SqlNormalizer.OuterWhitespaceDoesNotMatter | scripts/postgresql_drift.py:265-286 | leading and trailing whitespace goes away |
| SqlGuard.SkipQuotedValue | scripts/postgresql_ledger.py:370-383 | end of a quoted value, with doubled quotes and backslash escapes |
| SqlGuard.SkipBlockComment | scripts/postgresql_ledger.py:386-401 | end of a nested block comment |
| SqlGuard.ReadGuardWord | scripts/postgresql_ledger.py:416-424 | an ASCII word and its upper-case token |
| SqlGuard.NextGuardToken | scripts/postgresql_ledger.py:427-446 | the next piece, its token, or the refusal of an unterminated piece |
| SqlGuard.SqlGuardTokens | scripts/postgresql_ledger.py:449-457 | all tokens of a text, or the refusal |
| GuardGrammar.TokensExactly | scripts/postgresql_ledger.py:427-457 | a text has these tokens if and only if it consists of comments, quoted values and names, dollar values, keywords and marks that spell them; otherwise it is refused |
| GuardGrammar.KeywordYieldsCapitals | scripts/postgresql_ledger.py:416-424 | a word with no word character behind it yields its capitals, then the tokens of what follows |
| GuardGrammar.CaseDoesNotMatter | scripts/postgresql_ledger.py:416-457 | the case of letters outside quoted and dollar values changes neither tokens nor verdict |
| GuardGrammar.VerdictExactly | scripts/postgresql_ledger.py:460-492 | a text is accepted if and only if its fragments spell an opened and a closed transaction and nothing forbidden |
| GuardGrammar.ForbiddenWordsAreRefused | scripts/postgresql_ledger.py:475-492 | two keywords that spell a forbidden pair in any case, with no token between them, have the text refused |
| SqlGuard.UnquoteIsPlain | scripts/postgresql_ledger.py:438-440 | a quoted identifier is the authority schema exactly when it is written out plainly |
| SqlGuard.BodyClosesOneLevel | scripts/postgresql_ledger.py:386-401 | the depth counter reads one nested body and then stands one level up |
| SqlGuard.LevelsCloseInTurn | scripts/postgresql_ledger.py:386-401 | closing n + 1 levels closes one and then n |
| SqlGuard.CounterAcceptsExactlyTheGrammar | scripts/postgresql_ledger.py:386-401 | the depth counter accepts exactly the nested-comment grammar, and ends where the body ends |
| SqlGuard.GrammarIsUnambiguous | scripts/postgresql_ledger.py:386-401 | a text is the rendering of at most one nested body |
| SqlGuard.NextStable | scripts/postgresql_ledger.py:427-446 | a complete piece is read unchanged when the text behind it is cut and a comment follows |
| SqlGuard.CommentsDoNotMatter | scripts/postgresql_ledger.py:427-457 | a well-nested comment between two pieces leaves the tokens, or the refusal, unchanged |
| SqlGuard.CommentsKeepVerdict | scripts/postgresql_ledger.py:466-492 | hence it leaves the guard's verdict unchanged |
| SqlGuard.OpenLineLeaks | scripts/postgresql_ledger.py:427-432 | behind an open line comment, a comment with a newline adds a token |
| SqlGuard.CommentsAtTheEndExactly | scripts/postgresql_ledger.py:427-457 | at the end of a text every such comment is harmless if and only if no line comment is open |
| CatalogCanonical.AclWithoutGrantor | scripts/postgresql_drift.py:204-220 | the item up to the slash before the grantor |
| CatalogCanonical.GrantorGoesOnce | scripts/postgresql_drift.py:204-220 | removing the grantor twice is removing it once |
| CatalogCanonical.GrantorIsRemoved | scripts/postgresql_drift.py:204-220 | an item with a bare or quoted grantee keeps grantee and privileges, whatever the grantor |
| CatalogCanonical.GrantorIsFirstSlash | scripts/postgresql_drift.py:204-220 | the scan stops at the first slash outside quotes behind an equals sign outside quotes |
| CatalogCanonical.GrantorIsCutThere | scripts/postgresql_drift.py:204-220 | an item is cut at that slash, and left alone if it has none |
| CatalogCanonical.SortedForgetsOrder | scripts/postgresql_drift.py:197-200 | sorting an all-string array forgets exactly its order |
| CatalogCanonical.CanonicalArrayIsAscending | scripts/postgresql_drift.py:196-200 | the canonical form of an all-string array is the ascending array of its strings, by code points |
| Sorting.LeExactly | scripts/postgresql_drift.py:196-200 | a text precedes another if and only if it is a prefix or smaller at the first difference |
| CatalogCanonical.AclIsNormalized | scripts/postgresql_drift.py:189-193 | an ACL list is normalised after its grantors are removed |
| CatalogCanonical.CanonicalFormDecidesSame | scripts/postgresql_drift.py:183-201 | two documents have one canonical form if and only if they differ only in the order of all-string arrays and in grantors and order of ACL lists |
| CatalogCanonical.NormalizedIsSame | scripts/postgresql_drift.py:183-201 | a document and its canonical form are the same catalog |
| CatalogCanonical.CanonicalFormIsIdempotent | scripts/postgresql_drift.py:183-201 | canonicalisation is idempotent on every nested document |
| CatalogCanonical.CanonicalFormIsCompositional | scripts/postgresql_drift.py:183-201 | replacing one value at any depth outside the ACL lists keeps the canonical form of the document if and only if it keeps that of the value |
| CatalogCanonical.OrderDoesNotMatter | scripts/postgresql_drift.py:183-201 | two all-string arrays can be exchanged at any depth if and only if one permutes the other |
| CatalogCanonical.OrderAndGrantorsDoNotMatter | scripts/postgresql_drift.py:183-220 | two ACL lists can be exchanged at any depth if and only if, without grantors, one permutes the other |
| LedgerManifest.ProfileListIsStrict | scripts/postgresql_ledger.py:716-728 | on a globally ordered manifest every profile list is strictly increasing in time |
| LedgerManifest.ProfileListIsFilteredCombined | scripts/postgresql_ledger.py:185-191 | each profile list is the combined list with the other components left out |
| LedgerPlan.Required | scripts/postgresql_ledger.py:855-862 | the configured targets, each once, in the ratified order |
| LedgerPlan.BindingIndex | scripts/postgresql_ledger.py:865-878 | an index exactly when targets are distinct, required targets are bound and no fingerprint has two identities |
| LedgerPlan.IdentitiesConsistent | scripts/postgresql_ledger.py:873-877 | the second loop of that check |
| LedgerPlan.GroupRequiredBindings | scripts/postgresql_ledger.py:881-898 | groups hold exactly the aliases of each fingerprint in target order; refused exactly when a URL is unusable or stands for two fingerprints |
| LedgerPlan.ProfileForAliases | scripts/postgresql_ledger.py:901-918 | a group has a profile exactly when lineage and class agree and it is combined for all three targets or a single target's own |
| LedgerPlan.PlanGroup | scripts/postgresql_ledger.py:921-941 | the planned target of a group, and which error refuses one |
| LedgerPlan.GroupsHaveOneIdentity | scripts/postgresql_ledger.py:865-878 | after the index check every group has one identity, so the later check of a group never refuses |
| LedgerPlan.PlanGroups | scripts/postgresql_ledger.py:944-955 | all groups are planned exactly when each can be; with one identity per group the error is the profile conflict |
| LedgerPlan.ResolveTargetPlan | scripts/postgresql_ledger.py:944-955 | when a plan exists, that it has one target per fingerprint in ratified order, and which error refuses one: the profile conflict if every required target is identified, the identity error otherwise |
| PlanConditions.PlanExistsExactly | scripts/postgresql_ledger.py:855-955 | a plan exists if and only if the bindings identify every configured target and no two databases, URLs are usable and consistent, and aliases agree and form a combined profile of all three targets or one target on its own |
| PlanConditions.PlanSaysBindings | scripts/postgresql_ledger.py:921-955 | each planned target has the configured targets of its fingerprint in ratified order with their URLs, and the lineage, class, identity and profile of every binding of it |
| LedgerPlan.PlanPartitionsTargets | scripts/postgresql_ledger.py:944-955 | planned targets partition the required targets, two being together if and only if they share a fingerprint |
| LedgerPlan.ProfileCoversItsTargets | scripts/postgresql_ledger.py:901-918 | a planned profile covers exactly the components of its logical targets |
| LedgerPlan.PlannedSpeaksForItsAliases | scripts/postgresql_ledger.py:901-941 | a planned target lists its targets in the ratified order with their own URLs, and has the lineage, class and identity of every alias |
| LedgerPlan.EachMigrationOnce | scripts/postgresql_ledger.py:185-191 | each migration of a required component is selected by exactly one planned target, others by none, in strictly increasing lists |
| LedgerPlan.Operator.ApplyPlan | scripts/migrate_database.py:160-173 | after a failure the reported completed profiles are those of the plan's prefix that was applied, and the failed one is next |
| AdoptionHistory.RatifiedReceiptsAreDated | scripts/postgresql_ledger.py:67-110 | the ratified receipts are strictly ordered, as the history results require |
| AdoptionHistory.HostedHistoryIsPrefix | scripts/postgresql_drift.py:671-687 | before marker k the expected history is the receipts followed by the first k migrations; the sort moves nothing |
| AdoptionHistory.AdoptionIsInductive | scripts/postgresql_drift.py:690-702 | appending marker k gives the history expected of marker k + 1 |
| AdoptionHistory.MarkersAreProfileTimestamps | scripts/postgresql_drift.py:671-687 | a hosted marker is evaluated exactly when it is a timestamp of the profile |
| AdoptionHistory.PassesForOneMarkerOnly | scripts/postgresql_drift.py:705-725 | a given history passes for at most one marker |
| AdoptionHistory.HistoryPassesExactly | scripts/postgresql_drift.py:661-725 | a history passes if and only if it is all migrations of a fresh profile, or the receipts and the migrations before a hosted marker; and when it is not evaluated |
| AdoptionHistory.ParityPassesExactly | scripts/postgresql_preflight.py:865-895 | parity passes if and only if every gate is open and the tool lists, in any order, receipts and earlier migrations remotely and the marker alone locally |
| AdoptionHistory.ParityRefusals | scripts/postgresql_preflight.py:865-895 | which refusal is reported, in the order of the gates |
| AdoptionHistory.ParityNamesItsMarker | scripts/postgresql_preflight.py:806-811 | one tool output cannot show parity for two markers |
| DigestEncoding.ValueOfBigEndian | scripts/postgresql_ledger.py:236-241 | a packed length is recovered from its eight bytes |
| DigestEncoding.BigEndianOfValue | scripts/postgresql_ledger.py:236-241 | every eight bytes are the packing of their value |
| DigestEncoding.FeedItems | scripts/postgresql_ledger.py:237-242 | the bytes fed to the hash by the loop, or the failure of a length that does not fit |
| DigestEncoding.ProviderStatementsDigest | scripts/postgresql_ledger.py:231-243 | the preimage of the provider digest |
| DigestEncoding.CanonicalIdentityValue | scripts/postgresql_ledger.py:246-259 | which inputs are accepted, and the normalised text of an accepted one |
| DigestEncoding.TargetFingerprint | scripts/postgresql_ledger.py:262-285 | the identity error exactly when some input is not acceptable; otherwise the name, a zero byte and the three normalised texts in this order, each behind its length |
| DigestEncoding.FingerprintsIdentify | scripts/postgresql_ledger.py:246-285 | two accepted identities have the same preimage if and only if their normalised texts agree |
| DigestEncoding.StatementTextsAreDistinct | scripts/postgresql_ledger.py:231-243 | different lists of statement texts have different preimages |
| Utf8.DecodesExactly | scripts/postgresql_ledger.py:240 | strict UTF-8 bytes decode to the encoded text, and nothing else decodes |
| Utf8.EncodingIsInjective | scripts/postgresql_ledger.py:254-258 | different texts have different bytes, and encoding raises exactly on surrogates |
| Utf8.EncodesByTheTable | scripts/postgresql_ledger.py:254-258 | which bytes write a code point, by the table of the standard |
| DigestEncoding.DecodesExactlyItems | scripts/postgresql_ledger.py:237-242 | the decoder accepts exactly the encodings and returns what was encoded |
| DigestEncoding.ProviderDecodesExactly | scripts/postgresql_ledger.py:231-243 | so for whole provider preimages |
| DigestEncoding.FingerprintDecodesExactly | scripts/postgresql_ledger.py:275-285 | so for whole fingerprint preimages |
| DigestEncoding.PreimagesAreDistinct | scripts/postgresql_ledger.py:231-243 | different statement lists have different preimages, none of which is a fingerprint preimage |
| DigestEncoding.FingerprintsAreDistinct | scripts/postgresql_ledger.py:275-285 | different canonical identities have different preimages |
| DigestEncoding.ItemsFitExactly | scripts/postgresql_ledger.py:237-242 | an encoding exists exactly when every length is below the 64-bit limit |
| DigestEncoding.PackedIsLength | scripts/postgresql_ledger.py:236-241 | eight bytes, most significant first |
| DigestEncoding.ProviderLayout | scripts/postgresql_ledger.py:231-243 | the name, a zero byte, the count and the statements, each behind its length |
| DigestEncoding.FingerprintLayout | scripts/postgresql_ledger.py:275-285 | the name, a zero byte and the three values in order, each behind its length |
| AssertionProof.ProofValidator.ValidateAssertionSequences | scripts/check_relationship_assertion_proof.py:854-863 | verdict and complaint of the sequence check |
| AssertionProof.ProofValidator.ValidateAssertionStateChain | scripts/check_relationship_assertion_proof.py:865-880 | verdict and complaint of the chain check |
| AssertionProof.ProofValidator.ValidateAssertionActorsAndStates | scripts/check_relationship_assertion_proof.py:882-896 | verdict and complaint about proposal and determination |
| AssertionProof.ProofValidator.ValidateReacceptanceEvents | scripts/check_relationship_assertion_proof.py:916-936 | verdict and first complaint about later entries into Accepted |
| AssertionProof.ProofValidator.ValidateReconstructedAssertion | scripts/check_relationship_assertion_proof.py:938-961 | verdict, and exactly one complaint, that of the first failing check |
| AssertionProof.ProofValidator.ProjectedAssertionHistoriesAreValid | scripts/check_relationship_assertion_proof.py:963-1011 | true if and only if every projected assertion's order-preserved event group passes; the count and the complaints in order |
| AssertionProof.PassesExactlyWhenCertified | scripts/check_relationship_assertion_proof.py:938-961 | a history passes if and only if it is a connected, strictly numbered path with one proposal, one determination by another actor, and later reacceptances by acceptors |
| AssertionProof.ComplaintInOrder | scripts/check_relationship_assertion_proof.py:938-961 | which complaint a failing history gets, in the order of the checks |
| AssertionProof.SoundExactlyWhenAuthoritiesKnown | scripts/check_relationship_assertion_proof.py:898-936 | in a passing history every entry into Accepted is guarded if and only if no Proposed-to-Accepted event names an unknown authority |
| AssertionProof.LeftTwiceWasEnteredTwice | scripts/check_relationship_assertion_proof.py:865-880 | on a connected path a state left twice was entered twice |
| AssertionProof.AcceptedOnceProposedIsSound | scripts/check_relationship_assertion_proof.py:854-961 | a passing history that enters Proposed once has only guarded entries into Accepted, never by the proposer |
| AssertionProof.SecondProposalAcceptedByProposer | scripts/check_relationship_assertion_proof.py:898-936 | a passing history whose last acceptance is the proposer's own |
| Manifest.ParseManifest | scripts/deduplicate_manifest.py:62-107 | preamble and sections of a text |
| ManifestLayout.HeadingExactly | scripts/deduplicate_manifest.py:24-40 | a heading is whitespace, two hash signs, whitespace and a trimmed text, and nothing else is |
| ManifestLayout.LinesAreCut | scripts/deduplicate_manifest.py:80 | lines with their ends are the text, and without them hold no line end |
| ManifestLayout.ParsedExactly | scripts/deduplicate_manifest.py:62-107 | parsing takes the lines apart at exactly the heading lines |
| Manifest.DeduplicateSections | scripts/deduplicate_manifest.py:110-132 | the last section of each heading, in order |
| Manifest.KeepsLastOccurrences | scripts/deduplicate_manifest.py:110-132 | exactly the sections at the last positions of the headings are kept, in the order of those positions |
| Manifest.KeptHeadingsDiffer | scripts/deduplicate_manifest.py:110-132 | no heading is kept twice |
| Manifest.ReconstructManifest | scripts/deduplicate_manifest.py:135-165 | the printed text |
| ManifestLayout.PrintedLayout | scripts/deduplicate_manifest.py:135-165 | the trimmed preamble and the blocks, one blank line between two, and a newline at the end; nothing for nothing |
| Manifest.FixManifest | scripts/deduplicate_manifest.py:62-165 | parse, deduplicate and print |
| ManifestLayout.FixedLayout | scripts/deduplicate_manifest.py:62-165 | lines taken apart at the headings, the last section of each heading kept, written in that layout |
| Manifest.HeadingIsGood | scripts/deduplicate_manifest.py:27-40 | a recognised heading prints as a line that is recognised as the same heading |
| Manifest.SpaceKeepsHeading | scripts/deduplicate_manifest.py:27-40 | trailing whitespace never hides a heading |
| Manifest.FixedParsesBack | scripts/deduplicate_manifest.py:62-165 | for every text the written text parses to the same deduplicated headings, with bodies and preamble equal up to trailing whitespace |
| Manifest.CollectHeadings | scripts/validate_manifest.py:17-36 | line numbers of every heading the checker sees |
| ManifestLayout.CheckerHeadingExactly | scripts/validate_manifest.py:29-34 | the checker's headings are exactly the lines of its form |
| ManifestLayout.OccurrencesExactly | scripts/validate_manifest.py:17-36 | the numbers of exactly the lines with a heading, ascending |
| Manifest.CheckerAgrees | scripts/validate_manifest.py:29-34 | what the checker takes for a heading is the same heading for the fixer |
| Manifest.EndsDoNotMatter | scripts/validate_manifest.py:112-115 | kept line ends make no difference to the checker |
| Manifest.CheckerAcceptsFixed | scripts/validate_manifest.py:112-115 | the checker finds no heading twice in what the fixer writes |
| BraceScanner.JsonScanState.AdvanceJsonScan | scripts/verify_staging_promotion.py:71-99 | state and completed span after one character |
| BraceScanner.ExtractBalancedJsonObjects | scripts/verify_staging_promotion.py:102-110 | the blocks of the completed spans |
| BraceGrammar.EveryTextDecomposes | scripts/verify_staging_promotion.py:71-110 | every text is a row of plain characters, string literals and blocks, perhaps followed by an unclosed rest |
| BraceGrammar.DecompositionIsUnique | scripts/verify_staging_promotion.py:71-110 | in one way only |
| BraceGrammar.BodyIsUnique | scripts/verify_staging_promotion.py:86-97 | a brace is matched by one closing brace at most |
| BraceScanner.SpansAreExactlyTheBlocks | scripts/verify_staging_promotion.py:71-110 | at an outermost brace a span is one the scanner completes if and only if its text is the rendering of a block, with strings and escapes read as such |
| BraceScanner.SpanExistsExactlyWhenClosed | scripts/verify_staging_promotion.py:71-110 | an outermost brace yields a span if and only if some block starts there |
| BraceScanner.ReturnsExactlyTheBlocks | scripts/verify_staging_promotion.py:102-110 | the scanner returns exactly the top-level blocks of the text, in order |
| BraceScanner.ReturnsExactlyTheSpans | scripts/verify_staging_promotion.py:71-110 | the scanner returns exactly the spans from an outermost brace to the first return of the depth to zero |
| BraceScanner.SpansAreOrdered | scripts/verify_staging_promotion.py:102-110 | spans come in order and do not overlap |
| BraceScanner.ConcatenationSplits | scripts/verify_staging_promotion.py:102-110 | a concatenation splits wherever the scanner is back in its initial state |
| BraceScanner.BlockScansAlone | scripts/verify_staging_promotion.py:102-110 | scanning a returned block alone returns exactly that block |

## Left out

- `set_graph`, `reset_graph`, `set_graph_factory` and the raw `transition_runtime_lifecycle_state`: they bypass the guarded sections on purpose, and the run results do not cover them.
- Cancellation of a rebuild request: it breaks the link between lifecycle state and running work, so `SingleFlight` excludes it.
- Startup metadata and the graph factory field of the runtime: no modelled decision reads them.
- A change of the governance persistence URL, and caches of other processes: the generation scheme is local to one process and one URL.
- Repository, lock, projection and reconciliation internals under `src/`: only the contracts named above are used.
- Exceptions raised by rollback and close on error paths other than the late coordination rollback: they replace the reported error but make nothing durable.
- Isolation levels and retries inside the database: a commit is one atomic step.
- Hash functions: only their preimages are modelled.
- Unicode normalisation, whitespace and control characters: they are parameters of `DigestEncoding.TargetFingerprint`, whose inputs normalise to the same text by design.
- DigestEncoding.ProviderStatementsDigest: takes the UTF-8 bytes of its statements, so the errors for a statement that is not a text or not encodable are not modelled.
- GraphLifecycle.GraphRuntime.GetGraphWithStartupSource: the startup providers are an input, so their own logic and the fallback graph are not modelled.
- Unknown profile, target and lineage names in bindings: parsing rejects them before the modelled code sees them, so they are excluded by type.
- LedgerPlan.BindingIndex: binding documents are modelled after parsing; envelope checks, file handling and JSON duplicates are not part of this model.
- The host language's rendering of non-text ACL entries: it is a parameter of `CatalogCanonical.Normalize`.
- JSON serialisation of canonical documents: the serialiser sorts keys, so the order of fields is kept as it is here.
- File reading and writing, digests of migration files, and the command line tool: operating system behaviour.
- Idempotence of the manifest fixer: it is not promised by the scripts.
- Asset pagination, latency averages, retry backoff, readiness checks and node positions: they would only add easy members.
- Logging, metrics, authentication, HTTP mapping of errors and frontend code: thin wrappers without state of their own.

# Groundwork: verified model of access, audit and ingestion

A Dafny model of the parts of Groundwork that decide what an agent may read and what is recorded
about it, with proofs of what those parts are for.

- **Permission graph and compilation** (`AclGraph`, `Tuples`, `Compilation`). The nested-group search,
  folder inheritance, and the compilation of a source snapshot into relation tuples. The checker over
  compiled tuples is characterised for every snapshot.
- **Synchronisation** (`Sync`, `Watch`, `WatchService`). Full reconciliation with partial failures and
  retries, drift detection, and watch mode as a state machine in which source changes, the sending of
  their events, retries and full syncs interleave.
- **Identity** (`Principal`, `PrincipalCache`, `CacheRaces`, `Canonical`, `Provisioning`,
  `DirectoryMeaning`, `SharedPrincipals`). Alias resolution, its TTL cache whole and with its critical sections apart,
  renaming of a snapshot to canonical principals, directory provisioning from Microsoft Graph, what
  its snapshot grants told from the directory, and when two user keys become one principal.
- **Query engine** (`Fanout`, `FilterOutcomes`, `Engine`, `EndToEnd`, `Breakers`, `RateLimit`,
  `RateRaces`). The concurrent ACL filter with its deadline, fail-closed execution, reranking, citations
  against the snapshot, the two circuit breakers, and the rate limiter over whole runs, readings and
  entries apart.
- **Audit ledger** (`Digest`, `Ledger`, `TableTampering`, `AuditQuery`). The hash chain, its verifier,
  tampering with the table, interleaved writes and keyset pagination.
- **Ingestion** (`Tokenizer`, `Paragraphing`, `Windowing`, `Chunker`, `Documents`, `DualIndex`,
  `IngestedChunks`). Paragraphs and tokens, overlapping chunks, the two-index writer with rollback and
  retry, and what the indexes hold afterwards.

`Text`, `Sequences` and `Wrappers` hold what the modules share. `dafny verify dfyconfig.toml` checks
everything.

Where the code changes state the model does too: classes with fields for the stores, caches, breakers,
collectors and writers, methods with loops for the loops. Each method is proved against a function of
the values involved, and the theorems are about those functions. Interleavings (watch mode, the
fan-out, ledger writes, attempts) are sequences of steps of a state machine, and the theorems hold for
every such sequence. SHA-256 is an injective function, minted principal ids and clock readings are
parameters, and time is nondecreasing where a theorem says so.

## What the proofs found

- A viewer id ending in `#member` is read as a group. Exactly when such an id does not stand beside a
  genuine grant to that group does the meaning of a snapshot depend on what its groups contain
  (`Compilation.PreservedForAllGroupsIff`).
- A watched source sends its events after releasing its lock and drops them when the channel is full.
  Events sent in the other order than the changes lose a membership (`Watch.SwappedSendsLose`), and a
  dropped revocation can come back after a full sync (`Watch.DroppedRevocationReturns`). The invariant
  survives a source step if and only if the step is faithful (`Watch.SourceStepKeepsIff`).
- A cached principal can be stored after the upsert that outdated it (`CacheRaces.LateStoreIsStale`).
  A record is current exactly when the upserts since its lookup left its answer undisturbed; with no
  upsert under way, those are the ones between its lookup and its store
  (`CacheRaces.RecordIsCurrentIff`).
- Directory users that share a user key: an object id that was not known before resolves only if some
  identity with it is the first of its key (`Provisioning.OidResolvesIffFirstOfItsKey`). Two keys become
  one principal exactly when shared aliases lead both back to one origin
  (`SharedPrincipals.OnePrincipalIffOneOrigin`).
- On a timeout the filter decides the rest by position, so a candidate can be decided twice and another
  not at all (`Fanout.TimeoutDecidesTwice`); exactly when is `Fanout.TimeoutDecidesEachOnceIff`.
- With a maximum above 2^62 nanoseconds the retry delay can overflow and fall back to the base
  (`Sync.BackoffDoublesIff`).
- The chain verifier cannot see rows deleted from either end, a rewritten last row, or changed
  attribution (`Ledger.SubsequenceCleanIff`, `Ledger.ReforgedRow`, `Ledger.AttributionIsNotChained`).
- The rate limiter allows up to 2*rpm-1 requests in a minute while they enter in the order of their
  clock readings. It reads the clock before it takes the lock, and once requests may enter 2 ns or more,
  but less than a minute, behind the latest reading the limit is 3*rpm-2
  (`RateRaces.InterleavingsKeepBound`). Both are reached (`RateRaces.InterleavingReachesBound`).
- A document whose last paragraph fills a chunk has its tail indexed twice
  (`Windowing.LastWindowRepeatsIff`), and `dedupe` never removes anything.
- A chunk whose lexical upsert fails stays in the vector index (`DualIndex.LastLexicalFailureStays`),
  and both a rollback and a failed write lose what an overwritten key held before
  (`DualIndex.RollbackRestoresIff`, `DualIndex.RecordLostIff`).

## Model

| member | source | states |
|---|---|---|
| `AclGraph.MemberOf` | services/query-runtime/internal/aclsync/fga.go:112-130 | For every tuple set, cyclic nesting included, and every map order, the shared-`seen` search terminates; true means the user is in a group reachable from `group`, false means the groups newly marked form an explored set closed under nesting edges with no direct membership in it |
| `AclGraph.MemberOfFresh` | services/query-runtime/internal/aclsync/fga.go:112-130 | Called with an empty `seen`, the search answers exactly whether the user is a direct member of a group reachable through nesting |
| `AclGraph.ExploredFromEmptyRefutes` | services/query-runtime/internal/aclsync/fga.go:112-130 | An explored set that started from nothing rules out every path to a membership |
| `AclGraph.ClosedKeepsPath` | services/query-runtime/internal/aclsync/fga.go:112-130 | A set closed under nesting edges cannot be left along any path |
| `AclGraph.ViewerFolder` | services/query-runtime/internal/aclsync/fga.go:132-145 | A folder admits a user exactly when it lists the user or a userset the user is a member of |
| `AclGraph.ViewerDocument` | services/query-runtime/internal/aclsync/fga.go:147-168 | A document admits a user directly, through a listed userset, or through a parent folder that admits the user, and in no other way |
| `AclGraph.MemoryFGA.Check` | services/query-runtime/internal/aclsync/fga.go:84-103 | The checker's answer for one tenant is the relation's meaning over that tenant's tuples, and false for any other relation |
| `AclGraph.MemoryFGA.CanAccess` | services/query-runtime/internal/aclsync/fga.go:105-110 | A chunk is accessible exactly when it belongs to the asking tenant, is not soft-deleted, nothing is blank and the user may view its document |
| `AclGraph.MemoryFGA.WriteTuples` | services/query-runtime/internal/aclsync/fga.go:59-67 | A write adds exactly the given tuples to the tenant and leaves every other tenant alone |
| `AclGraph.MemoryFGA.DeleteTuples` | services/query-runtime/internal/aclsync/fga.go:69-77 | A delete removes exactly the given tuples from the tenant and leaves every other tenant alone |
| `AclGraph.MemoryFGA.ListTuples` | services/query-runtime/internal/aclsync/fga.go:48-57 | The listing holds every stored tuple of the tenant once, in an arbitrary order |
| `Tuples.PermissionSetToTuples` | services/query-runtime/internal/aclsync/tuples.go:29-63 | The compiled list has no duplicates and is, as a set, the tuples the snapshot's groups, folders and documents call for |
| `Tuples.DedupeTuples` | services/query-runtime/internal/aclsync/tuples.go:65-75 | Deduplication keeps every tuple, keeps none twice, and changes nothing when there was nothing to remove |
| `Tuples.RefsInjective` | services/query-runtime/internal/aclsync/tuples.go:13-17 | Each reference builder is injective |
| `Tuples.RefKindsDiffer` | services/query-runtime/internal/aclsync/tuples.go:13-17 | References of different kinds never coincide where the compiler relies on it |
| `Compilation.CheckerReadsSnapshot` | services/query-runtime/internal/aclsync/fga.go:84-168 | For every snapshot, user and document the checker, over the compiled tuples, admits exactly whom the snapshot grants and, besides them, the members of the groups that viewer ids ending in `#member` are misread as |
| `Compilation.CompilationPreservesMeaning` | services/query-runtime/internal/aclsync/tuples.go:29-63 | Compilation preserves meaning for every snapshot in which each viewer id ending in `#member` stands beside a genuine grant to the group it is misread as |
| `Compilation.NoMemberSuffixIsUnambiguous` | services/query-runtime/internal/aclsync/fga.go:137-152 | Snapshots whose viewer ids do not end in `#member` satisfy that condition |
| `Compilation.PreservedForAllGroupsIff` | services/query-runtime/internal/aclsync/fga.go:132-168 | Viewer lists keep their meaning whatever the groups contain if and only if that condition holds |
| `Compilation.AmbiguityLeaks` | services/query-runtime/internal/aclsync/fga.go:137-152 | When the condition fails, some groups make the checker admit a user the snapshot does not grant |
| `Compilation.MemberSuffixLeaks` | services/query-runtime/internal/aclsync/fga.go:152-160 | A concrete snapshot, one document listing the viewer `x#member`, whose meaning is lost for some groups |
| `Compilation.MemberIsInGroup` | services/query-runtime/internal/aclsync/tuples.go:31-38 | Membership by reachability over compiled tuples is membership through nested groups of the snapshot |
| `Principal.AliasKeyInjective` | services/query-runtime/internal/runtime/principal.go:120-122 | For tenants and namespaces free of the unit separator, equal alias keys mean equal tenant, namespace and value |
| `Principal.MemoryPrincipalResolver.Resolve` | services/query-runtime/internal/runtime/principal.go:124-138 | The answer is the principal of the first verified assertion with a live alias; with none it is unresolved, and nothing is created |
| `Principal.OneReadingIsEnough` | services/query-runtime/internal/runtime/principal.go:124-138 | Reading the clock anew for each alias gives the answer of one of the readings, since the clock does not go back |
| `Principal.MemoryPrincipalResolver.UpsertAliases` | services/query-runtime/internal/runtime/principal.go:140-150 | The alias store afterwards is the one obtained by binding each non-blank alias in order |
| `Principal.UpsertedAt` | services/query-runtime/internal/runtime/principal.go:140-150 | After an upsert a key holds the new principal exactly if a non-blank entry names it, and what it held before otherwise |
| `Principal.CanonicalizeIdentity` | services/query-runtime/internal/runtime/principal.go:77-89 | The raw id is used exactly when canonical identity is off, there is no resolver, or the identity is unverified; otherwise the resolved principal, or an error and no user: unresolved when no alias answers, failed when the resolver fails |
| `PrincipalCache.SameKeySameQuestion` | services/query-runtime/internal/runtime/principal.go:280-287 | For identity-derived assertions with separator-free values, equal cache keys mean the same tenant and the same list of verified assertions |
| `PrincipalCache.SamePartsSameClaims` | services/query-runtime/internal/runtime/principal.go:91-99 | The sorted parts of a cache key determine the verified assertions they were built from |
| `PrincipalCache.CachingResolver.Resolve` | services/query-runtime/internal/runtime/principal.go:252-269 | A hit gives the answer of an actual earlier call that asked the same question, stored since the last upsert and less than one TTL ago, in asked <= stored <= now order; it equals the uncached answer at that moment if and only if that answer still stands; a miss asks the inner resolver and stores only what it found |
| `PrincipalCache.CachingResolver.UpsertAliases` | services/query-runtime/internal/runtime/principal.go:271-278 | An upsert through the cache changes the inner store as the inner upsert does and empties the cache |
| `PrincipalCache.AnswerStandsIff` | services/query-runtime/internal/runtime/principal.go:124-138 | A question asked again later has the same answer if and only if the alias that gave it still lives or the next live alias names the same principal |
| `CacheRaces.AnswerSurvivesIff` | services/query-runtime/internal/runtime/principal.go:124-150 | After any sequence of upserts a question is answered by a given principal if and only if the first of its aliases that lives, as the upserts bound it anew or else as it was, names that principal |
| `CacheRaces.UndisturbedIff` | services/query-runtime/internal/runtime/principal.go:124-150 | For upserts of live aliases to other principals, that is so if and only if none of them names an alias of the question up to the one that answered |
| `CacheRaces.StepKeeps` | services/query-runtime/internal/runtime/principal.go:252-278 | With lookup and store, and alias change and cache clear, as separate steps in any interleaving, every step keeps account of the upserts since each lookup; once no upsert is under way these are the ones that came before its store |
| `CacheRaces.RecordIsCurrentIff` | services/query-runtime/internal/runtime/principal.go:252-278 | In every reachable state a cached principal is the one the present aliases give to its question if and only if the upserts since its lookup left it undisturbed; with no upsert under way those are exactly the upserts between lookup and store |
| `CacheRaces.HitAgreesIff` | services/query-runtime/internal/runtime/principal.go:252-278 | In every reachable state, whatever is under way and however late a record was stored, a hit at any later moment gives what an uncached question gets if and only if the first of its aliases that lives then, as the upserts since the lookup left it, names the cached principal; with no upsert since the lookup, exactly if the answer still stands |
| `CacheRaces.LateStoreIsStale` | services/query-runtime/internal/runtime/principal.go:252-278 | The run that goes wrong: lookup, upsert, clear, store; nothing is under way any more and the cache names the old principal for a whole TTL |
| `Canonical.SnapshotBuilder.Rewrite` | services/query-runtime/internal/aclsync/msgraph/canonical.go:98-117 | Rewriting in place leaves the snapshot with every user renamed by the map and with groups, folders, documents and nesting otherwise unchanged |
| `Canonical.RewrittenKeeps` | services/query-runtime/internal/aclsync/msgraph/canonical.go:90-117 | Every user reference that has a principal is replaced by it in its place and every other is kept; tenant, ids, nested groups, group viewers, parent folders and the order of all lists stay as they were |
| `Canonical.RewritePreservesGrants` | services/query-runtime/internal/aclsync/msgraph/canonical.go:90-117 | After the rewrite a principal may view a document exactly when some user renamed to it could before, through groups, folders and direct grants alike |
| `Canonical.RewrittenCheckerReads` | services/query-runtime/internal/aclsync/msgraph/canonical.go:90-117 | For every snapshot and renaming, the checker over the rewritten tuples admits exactly those renamed from a user the snapshot grants or a renamed viewer id is misread to admit |
| `Canonical.RewritePreservesAnswers` | services/query-runtime/internal/aclsync/msgraph/canonical.go:90-117 | The same over the compiled tuples, as the checker answers, whenever no viewer id is misread as a group, or only beside a genuine grant to that group, before and after the rewrite |
| `Canonical.MembershipKept` | services/query-runtime/internal/aclsync/msgraph/canonical.go:98-105 | A principal is in a group after the rewrite exactly when a user renamed to it was, through any nesting |
| `Provisioning.Canonicalizer.Bind` | services/query-runtime/internal/aclsync/msgraph/canonical.go:59-85 | One observation binds the user key to the principal found through the directory assertions, or to the minted one, and upserts the record's aliases |
| `Provisioning.BindingsNeverChange` | services/query-runtime/internal/aclsync/msgraph/canonical.go:59-85 | Over any sequence of observations an entra:id binding, once made, never changes |
| `Provisioning.KeysNeverChange` | services/query-runtime/internal/aclsync/msgraph/canonical.go:59-85 | Over any sequence of observations a user key once bound keeps its principal |
| `Provisioning.TokenMatchesTuples` | services/query-runtime/internal/aclsync/msgraph/canonical.go:59-97 | Whatever the alias store held before, a token with the object id of the first record of its user key resolves, at any later time, to the principal written into that user's tuples |
| `Provisioning.OidResolvesIffFirstOfItsKey` | services/query-runtime/internal/aclsync/msgraph/canonical.go:59-85 | For every list of identities, repeated ones included, and every alias store: an object id resolves afterwards if and only if some identity that carries it is the first of its user key, or its alias was live before |
| `Provisioning.DirectoryOidResolvesIff` | services/query-runtime/internal/aclsync/msgraph/connector.go:51-140 | The same for a directory user after a whole snapshot, whose identities repeat users that are group members; in particular every user that is the first of its key resolves |
| `SharedPrincipals.KeyGetsOrigin` | services/query-runtime/internal/aclsync/msgraph/canonical.go:59-85 | A bound user key's principal is found by following its record back: to the last record that wrote the first of its aliases any record wrote, and so on, until an alias live before or a record none of whose aliases was known, for which it was minted |
| `SharedPrincipals.OnePrincipalIffOneOrigin` | services/query-runtime/internal/aclsync/msgraph/canonical.go:59-85 | With freshly minted ids two user keys get one principal if and only if they are followed back to the same origin |
| `SharedPrincipals.NewcomerIsMinted` | services/query-runtime/internal/aclsync/msgraph/canonical.go:59-85 | A record none of whose aliases an earlier record wrote or was live before gets a principal of its own |
| `Provisioning.MapUsers` | services/query-runtime/internal/aclsync/msgraph/mapping.go:30-46 | User keys and the object-id index come out in directory order, later users overwriting earlier ones in the index |
| `Provisioning.MapMembers` | services/query-runtime/internal/aclsync/msgraph/mapping.go:49-59 | A group's members split into user keys and nested groups, in order, with the identities to observe |
| `Provisioning.MapGrantees` | services/query-runtime/internal/aclsync/msgraph/mapping.go:74-91 | Read grants map to viewer users and groups; a user's key comes from the index, or from the grant itself when the index has none |
| `Provisioning.Snapshot` | services/query-runtime/internal/aclsync/msgraph/connector.go:51-140 | The snapshot succeeds exactly when the directory can be read in full; identities are observed in order before the rewrite; the result is the raw snapshot, which SnapshotGrants tells from the directory, renamed by the bound keys when canonical |
| `DirectoryMeaning.SnapshotGrants` | services/query-runtime/internal/aclsync/msgraph/mapping.go:30-91 | For every complete directory the raw snapshot grants a document to a user key exactly when a document item has, by itself or through the folder item named by its parent id, a read permission naming that user or a group the user belongs to through members and nested groups |
| `DirectoryMeaning.SnapshotUsers` | services/query-runtime/internal/aclsync/msgraph/mapping.go:30-46 | The raw snapshot carries the tenant asked for and one user for each directory user, in order, named by its mail, else its principal name, else its id |
| `DirectoryMeaning.IdentitiesAreNamed` | services/query-runtime/internal/aclsync/msgraph/connector.go:61-140 | The identities observed are the directory users first and in order, and in all exactly the users, the groups' user members and the grantees of read permissions that are no directory users |
| `DirectoryMeaning.EveryoneIsBound` | services/query-runtime/internal/aclsync/msgraph/connector.go:61-140 | Everyone the directory names by any of these has a principal bound to the user key after a canonical snapshot |
| `DirectoryMeaning.AssertionsTell` | services/query-runtime/internal/aclsync/msgraph/canonical.go:24-44 | What is asserted of a record: its object id, mail and principal name where not blank, the object id first |
| `Provisioning.TokenViewsWhatItsKeysViewed` | services/query-runtime/internal/aclsync/msgraph/connector.go:61-121 | A directory user's token becomes a principal that may view, over the canonical snapshot's tuples, exactly the documents that the raw snapshot grants to some user key bound to that principal, or that a renamed viewer id is misread to admit it to; where no viewer id is misread, exactly those the checker admitted such a key to |
| `Sync.SyncToOpenFGA` | services/query-runtime/internal/aclsync/sync.go:59-112 | It succeeds exactly when snapshot and listing are read and each of the two calls that is needed is answered in full; at every outcome the store lies between have-and-desired and have-or-desired; on success it equals the desired set, or is unchanged when that set is empty and destructive deletes are off; read failures change nothing |
| `Sync.Push` | services/query-runtime/internal/aclsync/sync.go:84-112 | Writing what is missing, then deleting what is extra, succeeds exactly when the calls needed are answered in full, reaches the target and reports the exact counts; a failure leaves the store in between |
| `Sync.Difference` | services/query-runtime/internal/aclsync/sync.go:177-185 | The difference of two tuple sets, whatever the map order |
| `Sync.TupleSet` | services/query-runtime/internal/aclsync/sync.go:168-175 | The set of a list of tuples |
| `Sync.Reconcile` | services/query-runtime/internal/aclsync/service.go:138-155 | No attempt answered in full is passed by, so a script with one completes; whatever partial effects failed attempts left, a completed sync matches the snapshot it read, and while the source stands still every point of the retries lies between start and target |
| `Sync.BetweenTransitive` | services/query-runtime/internal/aclsync/sync.go:84-112 | What successive attempts leave stays between the original store and the desired set, with no progress lost |
| `Sync.BackoffDelay` | services/query-runtime/internal/aclsync/service.go:221-234 | In 64-bit nanoseconds, wrap-around included, for every positive base and maximum: the delay lies in the upper half of what the doubling loop ends with, capped at the maximum, or of the base where the loop has wrapped around to zero or below, and is never drawn from nothing |
| `Sync.BackoffDoublesIff` | services/query-runtime/internal/aclsync/service.go:221-234 | What the loop ends with is base times two to the attempt minus one, capped at the maximum, for every attempt if and only if no doubling below the maximum overflows; so it is when the maximum is at most 2^62 or not above the base |
| `Sync.DetectDrift` | services/query-runtime/internal/aclsync/sync.go:116-166 | The report lists exactly the missing tuples, the extra tuples, the source documents with no stored tuple and the stored documents the source lacks |
| `Sync.DriftAfterSync` | services/query-runtime/internal/aclsync/sync.go:116-166 | Right after a completed sync the report is empty but for exactly the documents with no folder and no viewers |
| `Sync.NoDriftIff` | services/query-runtime/internal/aclsync/sync.go:32-34 | There is no drift if and only if the store equals the source's tuples and no document is without folder and viewers |
| `Watch.AddedTuples` | services/query-runtime/internal/aclsync/mock.go:125-135 | Adding a member to an existing group adds exactly one membership tuple; to a missing group, none |
| `Watch.RemovedTuples` | services/query-runtime/internal/aclsync/mock.go:106-123 | Revoking a member removes exactly that membership tuple |
| `Watch.EffectMeans` | services/query-runtime/internal/aclsync/service.go:237-247 | What each kind of event adds to or removes from the store |
| `Watch.FaithfulMeaning` | services/query-runtime/internal/aclsync/mock.go:106-154 | A change of the source is faithful exactly when the source's tuples change as its event says |
| `Watch.SourceStepKeepsIff` | services/query-runtime/internal/aclsync/mock.go:106-154 | Changing the source and sending an event are separate steps; each keeps the invariant if and only if it is faithful: a change when its group exists, a sending when it is in turn for its membership or, with the channel full, when what is dropped no longer matters |
| `Watch.SendKeepsIff` | services/query-runtime/internal/aclsync/mock.go:149-154 | Sending any one of the unsent events, in whatever order callers get to it, keeps the invariant if and only if it is faithful |
| `Watch.InOrderIsFaithful` | services/query-runtime/internal/aclsync/mock.go:120-133 | While the channel has room, sending events about one membership in the order of its changes is faithful |
| `Watch.StepKeeps` | services/query-runtime/internal/aclsync/service.go:117-134 | Every faithful step of source or service, retries and partial syncs included, keeps: replaying what is queued and what is still to be sent on the store gives the source |
| `Watch.IncrementalAgreesWithFull` | services/query-runtime/internal/aclsync/service.go:88-180 | In every state of every faithful run after a completed sync, also between a change and the sending of its event, replaying what is pending gives the source's tuples; once drained, the incremental path equals a full sync |
| `Watch.SwappedSendsLose` | services/query-runtime/internal/aclsync/mock.go:106-135 | The run in which two callers revoke and add a membership and send their events the other way round: the group exists, nothing is dropped, all is drained, and the store lacks a membership the source has |
| `Watch.ReplayDecides` | services/query-runtime/internal/aclsync/service.go:159-180 | Whether the pending events decide about a tuple, and how, does not depend on the store they are replayed on |
| `Watch.QuietSyncRecovers` | services/query-runtime/internal/aclsync/service.go:129-130 | After lost events a full sync restores the invariant if nothing was pending when its snapshot was read and nothing changed since |
| `Watch.DroppedRevocationReturns` | services/query-runtime/internal/aclsync/mock.go:149-154 | The run in which the channel is full, a revocation is dropped, a full sync removes its tuple, and the stale grant at the head of the channel brings it back |
| `Watch.FullChannelOfGrants` | services/query-runtime/internal/aclsync/mock.go:149-154 | A faithful run from a fresh start to a synced state whose channel is full of that grant |
| `WatchService.MockConnector.Emit` | services/query-runtime/internal/aclsync/mock.go:149-154 | Sending appends the event, or drops it when the channel is full; the source stays as it is |
| `WatchService.MockConnector.AddGroupMember` | services/query-runtime/internal/aclsync/mock.go:125-135 | With no other caller in between: the source changes by the member and the event is queued, or dropped when the channel is full |
| `WatchService.MockConnector.RevokeGroupMember` | services/query-runtime/internal/aclsync/mock.go:106-123 | With no other caller in between: the source loses the member from every group of that id and the event is queued, or dropped when the channel is full |
| `WatchService.ChangeToTuples` | services/query-runtime/internal/aclsync/service.go:237-247 | Each change maps to its writes and deletes; unknown kinds to none |
| `WatchService.Service.Happen` | services/query-runtime/internal/aclsync/mock.go:106-154 | One thing a caller does at the source, under the lock or after it, is the corresponding step of the state machine, and keeps the invariant if it is faithful |
| `WatchService.Service.ApplyChange` | services/query-runtime/internal/aclsync/service.go:159-180 | While callers go on at the source, a change is applied entirely or not at all however often it is retried, and has been applied when the retry loop reports success; the invariant is kept throughout |
| `WatchService.Service.SyncOnce` | services/query-runtime/internal/aclsync/sync.go:59-112 | A full sync during which the source moves on after its snapshot was read keeps the invariant, at success, partial failure and refusal alike |
| `WatchService.Service.Resync` | services/query-runtime/internal/aclsync/service.go:138-155 | Attempts are made in order until one completes; one that nothing fails in completes; then the store holds the tuples of the snapshot that attempt read, unless the guard held, whatever callers do at the source meanwhile |
| `WatchService.Service.Run` | services/query-runtime/internal/aclsync/service.go:88-135 | The initial sync completes when an attempt gets through and then, unless guarded, has synced the store with the snapshot read; without it or watch mode nothing more is done; with the source quiet from then on, as many change turns that go through as there are events drain the channel and leave the store equal to the source; over any script, with source steps before, between and inside attempts, faithful steps keep the invariant, and adding to existing groups, sending in order and no more steps than the channel holds is faithful |
| `WatchService.Service.Turn` | services/query-runtime/internal/aclsync/service.go:117-134 | A change turn takes the oldest event of the channel and, when an attempt gets through, changes the store by exactly that event; a sync turn leaves the store at the snapshot read; a drift turn changes nothing; each keeps the invariant under faithful source steps |
| `EngineBreaker.AdmitsExactly` | services/query-runtime/internal/engine/circuit_breaker.go:30-57 | Over any trace a request is admitted if and only if fewer failures than the limit were reported since the last success, or the open timeout has passed since the last failure |
| `EngineBreaker.FieldsMean` | services/query-runtime/internal/engine/circuit_breaker.go:42-57 | The failure count is the failures since the last success, and the breaker is closed exactly when that is below the limit |
| `EngineBreaker.CircuitBreaker.Allow` | services/query-runtime/internal/engine/circuit_breaker.go:30-40 | Allow changes the breaker and answers as the trace semantics say |
| `EngineBreaker.CircuitBreaker.Serve` | services/query-runtime/internal/engine/circuit_breaker.go:30-57 | Any events of other callers leave the breaker where the trace semantics say |
| `RuntimeBreaker.AdmitsExactly` | services/query-runtime/internal/runtime/circuit_breaker.go:45-97 | Over any trace a request is admitted if and only if the failures since the last success are below the limit, or the open timeout has passed and fewer than HalfOpenLimit probes passed since the last report |
| `RuntimeBreaker.FieldsMean` | services/query-runtime/internal/runtime/circuit_breaker.go:45-97 | Position, consecutive failures, opening time and probes in flight in terms of the trace of events |
| `RuntimeBreaker.ProbesBounded` | services/query-runtime/internal/runtime/circuit_breaker.go:45-64 | Once tripped, at most HalfOpenLimit probes pass until something is reported |
| `RuntimeBreaker.CircuitBreaker.Allow` | services/query-runtime/internal/runtime/circuit_breaker.go:45-64 | Allow changes the breaker and answers as the trace semantics say |
| `RateLimit.RateLimiter.Allow` | services/query-runtime/internal/runtime/ratelimit.go:32-49 | One call steps the key's window, answers accordingly, and leaves every other key's window alone |
| `RateLimit.KeysAreIndependent` | services/query-runtime/internal/runtime/ratelimit.go:32-49 | A key's window and its allowed requests are those of the run restricted to that key |
| `RateLimit.MinuteBound` | services/query-runtime/internal/runtime/ratelimit.go:32-49 | However late requests enter behind the readings of others, by at most d, a closed minute holds no more allowed requests of a key than all but one of a budget for each window that can meet it, and one more: 2*rpm-1 for d up to 1 ns, 3*rpm-2 for d below a minute |
| `RateLimit.LessThanTwiceTheBudget` | services/query-runtime/internal/runtime/ratelimit.go:32-49 | While the requests of a key enter in the order of their clock readings, any closed one-minute interval contains at most 2*rpm-1 allowed requests of it, for a positive budget rpm |
| `RateLimit.BoundIsReached` | services/query-runtime/internal/runtime/ratelimit.go:32-49 | For every budget and every delay d some list of readings, none more than d behind an earlier one, reaches that bound |
| `RateLimit.RefusedIffSpent` | services/query-runtime/internal/runtime/ratelimit.go:32-49 | Whatever the readings and the order of entry, a request is refused if and only if some request that entered before opened a window whose reset no reading has passed since, and the whole budget passed since |
| `RateLimit.RefusalMeansBudgetSpent` | services/query-runtime/internal/runtime/ratelimit.go:32-49 | A refusal means the whole budget was allowed, to requests that entered before, with readings in the preceding minute give or take the delay d; exactly in the preceding minute when requests enter in order |
| `RateRaces.HappensIffBehind` | services/query-runtime/internal/runtime/ratelimit.go:32-49 | With reading the clock and entering the lock as separate steps, the lists of requests that enter, each at most d after its reading, are exactly those in which none is more than d behind an earlier one |
| `RateRaces.InterleavingsKeepBound` | services/query-runtime/internal/runtime/ratelimit.go:32-49 | In every interleaving of readings and entries, entries at most d late, the bound for d holds of every closed minute: 2*rpm-1 in order, 3*rpm-2 less than a minute late |
| `RateRaces.InterleavingReachesBound` | services/query-runtime/internal/runtime/ratelimit.go:32-49 | For every budget and every d some interleaving reaches that bound |
| `RateRaces.RefusalInAnyInterleaving` | services/query-runtime/internal/runtime/ratelimit.go:32-49 | In every interleaving a refusal means the budget was spent by requests that entered before, within a minute give or take d |
| `RateRaces.RefusedWithNothingBefore` | services/query-runtime/internal/runtime/ratelimit.go:32-49 | The run in which the later of two readings enters first: the earlier one is refused with nothing allowed in the minute before it |
| `Digest.DigestInjective` | services/query-runtime/internal/engine/trace.go:86-115 | With an injective hash and fields free of the separator, equal digests mean equal content in all 23 digested fields |
| `Digest.DigestIsFaithful` | services/query-runtime/internal/engine/trace.go:86-115 | The digest over the 23 joined fields has the property the chain theorems ask of a digest: it tells contents apart and ignores attribution and the stored digest |
| `Ledger.VerifyChain` | services/query-runtime/internal/engine/trace.go:324-347 | The loop reports exactly the digest mismatches and broken links, in order, the first entry's link unchecked |
| `Ledger.NoProblemsIffClean` | services/query-runtime/internal/engine/trace.go:324-347 | Nothing is reported if and only if every digest matches its entry and every entry after the first links to the one before |
| `Ledger.SameEndSameChain` | services/query-runtime/internal/engine/trace.go:324-347 | Two clean chains that end in the same digest agree on every digested field entry by entry from the end, so the shorter is a suffix of the longer |
| `Ledger.AlteredRowIsReported` | services/query-runtime/internal/engine/trace.go:324-347 | Altering a digested field yields exactly a digest mismatch at that row, and a broken link there only if the altered field is the link |
| `Ledger.ReforgedRow` | services/query-runtime/internal/engine/trace.go:324-347 | Rewriting a row with its digest yields exactly one broken link at its successor; on the last row, nothing |
| `Ledger.DeletedRow` | services/query-runtime/internal/engine/trace.go:324-347 | Deleting an interior row yields exactly one broken link at its successor; deleting the first or last row yields nothing |
| `Ledger.SubsequenceCleanIff` | services/query-runtime/internal/engine/trace.go:324-347 | Whatever rows are deleted from a clean chain, what remains is clean if and only if it is one contiguous piece |
| `TableTampering.DeletedFromTable` | services/query-runtime/internal/engine/trace.go:324-421 | Deleting a stored row, wherever it stands in the table, yields exactly one broken link in its tenant's loaded chain, at its successor, or nothing if it was loaded first or last |
| `TableTampering.AlteredInTable` | services/query-runtime/internal/engine/trace.go:324-421 | Altering any digested field of a stored row, time and tenant included: the exact report of the chain it now loads into, which moved it if the time changed, and of the chain it left if the tenant changed; every other chain loads as before |
| `TableTampering.MovedReport` | services/query-runtime/internal/engine/trace.go:324-347 | When a row of an intact chain stands altered at another place, the verifier reports exactly its mismatch and broken links at its place, at its new successor and at its old one, each under the condition stated |
| `TableTampering.InsertedReport` | services/query-runtime/internal/engine/trace.go:324-347 | An altered entry put into a clean chain yields exactly its own problems and its successor's |
| `Ledger.AttributionIsNotChained` | services/query-runtime/internal/engine/trace.go:60-115 | Rewriting agent attribution leaves the chain clean |
| `Ledger.AuditLog.Write` | services/query-runtime/internal/engine/trace.go:122-309 | A write appends one row that keeps the entry submitted in every field but its time, cut to the microsecond, its link, to the digest of the tenant's latest row, and its digest; the decisions are stored as a blob and as one normalised row each, in order; under new trace ids the two copies go on agreeing |
| `Ledger.SealedKeeps` | services/query-runtime/internal/engine/trace.go:122-256 | What the row sealed for an entry keeps of it, whatever the table holds |
| `Ledger.LastIsLatest` | services/query-runtime/internal/engine/trace.go:169-184 | The last of a tenant's rows is one no row of the tenant is later than, by time and then id; there is one exactly if the tenant has a row |
| `Ledger.AuditLog.SelectLatest` | services/query-runtime/internal/engine/trace.go:169-184 | The latest row is the last of the tenant's rows in (timestamp, id) order |
| `Ledger.WriteKeepsCleanIff` | services/query-runtime/internal/engine/trace.go:169-184 | A write with a new trace id keeps its tenant's chain clean if and only if its row sorts last |
| `Ledger.EveryTableLoadsClean` | services/query-runtime/internal/engine/trace.go:122-184 | For any interleaving of writes by any tenants, if each tenant's stored times strictly increase, every tenant's loaded chain verifies clean |
| `AuditQuery.ListAuditEntries` | services/query-runtime/internal/engine/audit_query.go:58-168 | A page shows the first rows, 50 by default and at most 200, of the tenant's matching rows below the cursor, with the place of the last as next cursor exactly when there are more; a blank tenant is refused |
| `AuditQuery.QueryListsMatches` | services/query-runtime/internal/engine/audit_query.go:65-119 | The listed rows are the tenant's matching rows, each once, newest first |
| `AuditQuery.ListedUnlessItFails` | services/query-runtime/internal/engine/audit_query.go:65-119 | Criterion by criterion: a row of the tenant is listed unless it fails a criterion that is set, times lying in [from, until), or does not come before the cursor |
| `AuditQuery.PagesPartitionTheStart` | services/query-runtime/internal/engine/audit_query.go:121-167 | Page k holds exactly rows k*limit up to (k+1)*limit of the starting list, whatever newer rows arrive between pages |
| `AuditQuery.FollowingCursorsVisitsAll` | services/query-runtime/internal/engine/audit_query.go:121-167 | Following cursors visits every matching row of the starting ledger once, newest first, and stops after exactly the number of pages that holds them |
| `AuditQuery.AppendGrowsUpward` | services/query-runtime/internal/engine/trace.go:169-184 | Appending a row that sorts last is growth the pagination theorems allow between pages |
| `Fanout.Collector.TakeResult` | services/query-runtime/internal/engine/engine.go:238-262 | Taking one result updates permitted, blocked, counters and decisions as the collector's step function says |
| `Fanout.Collector.GiveUp` | services/query-runtime/internal/engine/engine.go:263-277 | On the deadline the rest is blocked and decided by position |
| `Fanout.StepKeeps` | services/query-runtime/internal/engine/engine.go:199-277 | Every step of workers, collector and deadline keeps the fan-out invariant |
| `Fanout.EveryExitKeepsContract` | services/query-runtime/internal/engine/engine.go:172-286 | On every exit of every interleaving: permitted is a sub-multiset of the candidates, each inside tenant and region with a true answer; permitted, blocked by ACL and blocked by region add up to the candidates and to the decisions; no more are counted as blocked by region than are out of tenant or region; at most 10 checks run at once |
| `Fanout.FinishedAgreesWithSequential` | services/query-runtime/internal/engine/engine.go:199-262 | A run that finishes before the deadline permits, as a multiset, exactly what the sequential filter permits; blocked by region are exactly the candidates out of tenant or region, blocked by ACL exactly those inside that the checker did not allow |
| `Fanout.TimeoutDecidesEachOnceIff` | services/query-runtime/internal/engine/engine.go:199-277 | In every timed-out state of every run it is exact which candidate each decision is about, and every candidate is decided exactly once if and only if the results received are those of the first candidates; otherwise one is decided twice and one never |
| `Fanout.TimeoutDecidesTwice` | services/query-runtime/internal/engine/engine.go:263-277 | The run with two candidates in which the second is decided twice and the first never |
| `Fanout.CanFinish` | services/query-runtime/internal/engine/engine.go:199-277 | Nothing blocks for good: from every reachable running state some continuation without the deadline finishes, whatever the checker answers |
| `FilterOutcomes.StepHears` | services/query-runtime/internal/engine/engine.go:199-277 | Every step keeps: each result and each decision gives its candidate's own outcome, reason and error, or fails one inside after the deadline |
| `FilterOutcomes.ErrorsAreCounted` | services/query-runtime/internal/engine/engine.go:219-280 | Finished before the deadline, the filter has counted exactly the candidates in tenant and region on which the checker failed; finished after it, at least those; having given up, at least one error |
| `FilterOutcomes.FinishedDecides` | services/query-runtime/internal/engine/engine.go:199-262 | Finished before the deadline, there is one decision about each candidate, with that chunk's ids, region and scope, allowed exactly when in tenant and region and granted, and the reason of its own outcome |
| `FilterOutcomes.TimeoutDecides` | services/query-runtime/internal/engine/engine.go:199-277 | Having given up, there is one decision for each result received, which allows only what was granted, and one refusal for each position past them |
| `FilterOutcomes.FinishedSorts` | services/query-runtime/internal/engine/engine.go:238-262 | Finished before the deadline, the two lists hold exactly the granted and the other candidates in tenant and region, each once, and the counters their numbers |
| `FilterOutcomes.AnyOrderFinishes` | services/query-runtime/internal/engine/engine.go:199-262 | The results can arrive in every order whatever, the deadline not passing, and the filter then finishes with them received in that order |
| `FilterOutcomes.TenAtOnce` | services/query-runtime/internal/engine/engine.go:196-215 | Any ten candidates inside tenant and region can be with the checker at once: the bound of EveryExitKeepsContract is reached |
| `Engine.Rerank` | services/query-runtime/internal/engine/engine.go:475-485 | The result is `limit` candidates in descending score times freshness, no candidate left out having more than one kept |
| `Engine.FirstBlockedReason` | services/query-runtime/internal/engine/engine.go:438-448 | The reason of the first decision that is not allowed, `denied` when it gives none, `no_results` when all are allowed |
| `Engine.FilterRunExists` | services/query-runtime/internal/engine/engine.go:172-286 | Whatever was retrieved and whatever the checker answers, there is a complete run of the filter for the query |
| `Engine.AuditRowMeaning` | services/query-runtime/internal/engine/engine.go:371-434 | The audit row copies trace id, tenant, user, region, counts, failure stage, error code, mode and decisions; it says allowed exactly when nothing failed and something was returned, denied exactly when nothing failed and nothing was; its reason is the error code or the first refusal; it counts everything as blocked only on failure; it names the canonical principal exactly when the query ran as one |
| `Engine.UsedExtendsTrace` | services/query-runtime/internal/engine/circuit_breaker.go:30-57 | A guarded call extends its breaker's trace by the events of other calls, its own request and, if let through, its report; it is let through exactly when fewer failures than the limit were reported since the last success or the timeout has passed |
| `Engine.ToCitations` | services/query-runtime/internal/engine/engine.go:498-514 | One citation per candidate, in order, with its document, chunk, hash, page, offset, text, score and freshness |
| `Engine.Engine.Retrieve` | services/query-runtime/internal/engine/engine.go:148-170 | With the circuit open retrieval is refused unasked; otherwise the backend's answer is returned and reported to the breaker, whatever other calls do to it before and meanwhile |
| `Engine.Engine.FilterChunks` | services/query-runtime/internal/engine/engine.go:172-286 | The filter's contract holds on every exit, the open circuit included; the breaker is told of a failure when the filter gave up or the checker failed on some candidate in tenant and region, and of success when it finished in time and failed on none, whatever other calls do to the breaker before and meanwhile |
| `Engine.Engine.WriteAudit` | services/query-runtime/internal/engine/engine.go:288-317 | The row is stored, after the rows of other calls, exactly when the audit breaker admits the write and the table keeps it; success is reported exactly when both hold without an error |
| `Engine.Engine.FailClosed` | services/query-runtime/internal/engine/engine.go:319-344 | A failed query has no citations, confidence 0, a trace of its request with its stage, code and one refusal; it is audited except at the audit stage |
| `Engine.Engine.Assemble` | services/query-runtime/internal/engine/engine.go:89-126 | What may be shown is what was permitted, in shadow mode also what the ACL blocked inside the boundary; the seven most relevant of it are kept; the trace names the request, the mode and the counts and splits the ACL blocks into enforced and observed ones; in enforce mode the kept are the lesser of 7 and retrieved minus blocked |
| `Engine.Engine.Conclude` | services/query-runtime/internal/engine/engine.go:127-146 | An answer, quoting what is shown in order with the confidence of its first, is given exactly when the audit write of its own trace is confirmed; otherwise the query fails at the audit stage with no citations |
| `Engine.Engine.Refuse` | services/query-runtime/internal/engine/engine.go:70-78 | A query with a blank tenant, user or region, or an engine without backend or ACL, is refused before anything is asked, with the stage and code of the first of these that holds |
| `Engine.Engine.Fetch` | services/query-runtime/internal/engine/engine.go:70-83 | Candidates when the request is complete, retrieval admitted and successful, else the stage and code of what went wrong; what the retrieval breaker learns |
| `Engine.Engine.Execute` | services/query-runtime/internal/engine/engine.go:63-146 | With other calls using the breakers and the audit table in between: answers if and only if nothing stands in the way, quoting the seven most relevant of what the filter lets show, and otherwise fails with its stage and code and no citations; at most one audit row per call, of this tenant, user and region, filing the trace returned or that of the answer withheld; what both breakers learn; CandidatesAllowed is the number of citations, in enforce mode the lesser of 7 and Retrieved minus Blocked; each citation is of a retrieved chunk in tenant and region, ACL-allowed outside shadow mode |
| `EndToEnd.AskAll` | services/query-runtime/internal/aclsync/fga.go:105-110 | Asking the checker about every candidate gives answers from the tenant's tuples, errors aside |
| `EndToEnd.CitedIsGranted` | services/query-runtime/internal/engine/engine.go:199-262 | What an enforcing engine cites over a synchronised store is of a document the snapshot grants the user, or admits by a misread viewer id, in tenant and region and not deleted |
| `EndToEnd.PermittedIffGranted` | services/query-runtime/internal/engine/engine.go:199-262 | With the checker up, a filter that finishes permits exactly the retrieved candidates in tenant and region, not deleted, whose documents the snapshot admits the user to |
| `EndToEnd.Query` | services/query-runtime/internal/engine/engine.go:63-146 | Every citation of a query in enforce mode is of a document the snapshot grants, whatever fails on the way, when no viewer id of the snapshot is misread |
| `Tokenizer.TokensOfCut` | services/ingestion/groundwork_ingestion/chunker.py:68-69 | Counting by maximal non-space runs is additive wherever no run spans the cut |
| `Tokenizer.TokensOfJoined` | services/ingestion/groundwork_ingestion/chunker.py:28-32 | Joining paragraphs by a blank line neither splits, merges nor reorders tokens |
| `Tokenizer.ParagraphsKeepTokens` | services/ingestion/groundwork_ingestion/chunker.py:16-18 | Splitting a body at blank lines, stripping and dropping empty pieces keeps every token in order and adds none |
| `Paragraphing.CutAtBlankLines` | services/ingestion/groundwork_ingestion/chunker.py:16-18 | The paragraphs of every body are the stretches of it that start and end in text and hold no blank line, in order, with white space and a blank line between any two and only white space outside them |
| `Windowing.TailStartIff` | services/ingestion/groundwork_ingestion/chunker.py:72-80 | The overlap is the one shortest run of last paragraphs that holds the wanted tokens, all of them if none does, and never empty |
| `Windowing.WindowsCover` | services/ingestion/groundwork_ingestion/chunker.py:25-45 | The windows are runs of whole paragraphs, the first from the first, the last to the last; each next one starts with exactly the overlap, was opened because the one before was full, and exceeds the maximum only when it adds at most one paragraph, and adds another only while it holds fewer tokens than the minimum |
| `Windowing.NeighboursOverlap` | services/ingestion/groundwork_ingestion/chunker.py:25-45 | Starts and ends never move back and neighbours share a paragraph |
| `Windowing.EveryParagraphIsCovered` | services/ingestion/groundwork_ingestion/chunker.py:25-45 | Every paragraph is in some window |
| `Windowing.LastWindowRepeatsIff` | services/ingestion/groundwork_ingestion/chunker.py:37-45 | The last chunk adds no paragraph to the one before if and only if the last paragraph filled a chunk |
| `Windowing.SingleParagraphWindows` | services/ingestion/groundwork_ingestion/chunker.py:37-45 | A one-paragraph document becomes two equal windows exactly when it has at least the minimum number of tokens |
| `Windowing.RereadIsFlat` | services/ingestion/groundwork_ingestion/chunker.py:25-45 | Reading the windows one after the other, each without what it shares with the one before, gives back everything the paragraphs hold |
| `Chunker.TailOverlap` | services/ingestion/groundwork_ingestion/chunker.py:72-80 | The loop selects exactly the overlap |
| `Chunker.JoinedCount` | services/ingestion/groundwork_ingestion/chunker.py:32-42 | The count kept by addition is the count of the joined text |
| `Chunker.Flush` | services/ingestion/groundwork_ingestion/chunker.py:28-32 | Flushing gives the joined text out at the present offset and keeps the overlap with its recounted tokens |
| `Chunker.Dedupe` | services/ingestion/groundwork_ingestion/chunker.py:88-96 | The loop gives the deduplicated list that DedupeKeepsFirsts characterises |
| `Chunker.DedupeKeepsFirsts` | services/ingestion/groundwork_ingestion/chunker.py:88-96 | Of any list, duplicates included, exactly the first chunk of each id is kept, in order, and no id is lost |
| `Chunker.ChunkParagraphs` | services/ingestion/groundwork_ingestion/chunker.py:15-47 | The loop gives out exactly the texts of the windows, each placed at the total length of the texts before it, then removes duplicate ids |
| `Chunker.OffsetsRise` | services/ingestion/groundwork_ingestion/chunker.py:28-45 | Non-empty texts get strictly increasing offsets |
| `Chunker.PreimageTellsOffset` | services/ingestion/groundwork_ingestion/models.py:79-81 | Within one document the hashed text determines the offset |
| `Chunker.PlacesAreDistinct` | services/ingestion/groundwork_ingestion/models.py:79-81 | With a collision-free id hash no two chunks of a document share an id |
| `Documents.ChunkDocument` | services/ingestion/groundwork_ingestion/chunker.py:15-47 | The same with the tokens and paragraphs of a text body |
| `Documents.PlainIsAdditive` | services/ingestion/groundwork_ingestion/chunker.py:32-42 | For every list of paragraphs the token count of the joined text is the sum of the paragraphs' counts |
| `Documents.DedupeRemovesNothing` | services/ingestion/groundwork_ingestion/chunker.py:47-51 | `dedupe` removes nothing: a document has as many chunks as windows, the repeated last one included |
| `Documents.ChunksReassemble` | services/ingestion/groundwork_ingestion/chunker.py:15-47 | The tokens of the body can be read back from the chunks, none lost, added or moved; only a blank body has no chunk |
| `IngestedChunks.ChunksSay` | services/ingestion/groundwork_ingestion/chunker.py:49-66 | Chunk i is the paragraphs of window i with a blank line between any two, placed where the chunk before ends, with the document's tenant, region, id and scope, and the ids of its place and text |
| `IngestedChunks.ChunkTextsReassemble` | services/ingestion/groundwork_ingestion/chunker.py:15-47 | The tokens of the body can be read back from the texts of the chunks; only a blank body has none |
| `DualIndex.InMemoryIndex.Upsert` | services/ingestion/groundwork_ingestion/indexes.py:34-38 | An upsert replaces the record of the chunk's tenant and id; one that raises may or may not have done so |
| `DualIndex.AtomicDualIndexWriter.Rollback` | services/ingestion/groundwork_ingestion/indexes.py:164-168 | Rollback removes the keys of everything written from both indexes and forgets them |
| `DualIndex.AtomicDualIndexWriter.Write` | services/ingestion/groundwork_ingestion/indexes.py:154-162 | A write succeeds exactly when no call raises and then both indexes hold every chunk; otherwise everything written before the error is erased and the interrupted chunk is not |
| `DualIndex.SucceedsIff` | services/ingestion/groundwork_ingestion/indexes.py:154-168 | A write meets no error if and only if neither index raises on any of the chunks |
| `DualIndex.AtomicDualIndexWriter.WriteWithRetry` | services/ingestion/groundwork_ingestion/retry.py:11-21 | Success exactly when one of the attempts gets through, leaving what a first-try success leaves; otherwise what the failed attempts leave |
| `DualIndex.SuccessForgetsFailures` | services/ingestion/groundwork_ingestion/indexes.py:154-168 | A write that succeeds after any number of failed ones, whatever they left, leaves both indexes as a first-try success would |
| `DualIndex.RollbackRestoresIff` | services/ingestion/groundwork_ingestion/pipeline.py:53-61 | Rolling back a complete write restores both indexes if and only if no chunk's key was in use before |
| `DualIndex.FailuresLeave` | services/ingestion/groundwork_ingestion/indexes.py:154-168 | Whatever the indexes held and whatever the faults were, raising calls that took effect included: when every attempt fails, each index shows at each key exactly what the last attempt that touched it made of it, erased, left with the interrupted chunk, or untouched |
| `DualIndex.SurplusIff` | services/ingestion/groundwork_ingestion/indexes.py:154-168 | A key is then in the vector index alone if and only if it was before and stayed untouched, or it is a leftover chunk's and the lexical index does not hold it from earlier |
| `DualIndex.RecordLostIff` | services/ingestion/groundwork_ingestion/indexes.py:154-168 | A record in use before is lost from both indexes if and only if the last attempt to touch its key had got past its chunk |
| `DualIndex.LeftoverWasInterrupted` | services/ingestion/groundwork_ingestion/indexes.py:157-162 | A leftover chunk is one at which some attempt was interrupted after the vector index took it and before the lexical one did |
| `DualIndex.FailureRestoresIff` | services/ingestion/groundwork_ingestion/indexes.py:157-162 | Failing for good restores both indexes if and only if each key was untouched, erased where not in use, or left with the very record it had |
| `DualIndex.LastLexicalFailureStays` | services/ingestion/groundwork_ingestion/indexes.py:157-162 | A last attempt whose lexical upsert fails without effect leaves its chunk in the vector index; if its key was not in use, nothing is restored |
| `DualIndex.RetryWithBackoff` | services/ingestion/groundwork_ingestion/retry.py:11-21 | Success if and only if one of the attempts succeeds |
| `DualIndex.MinFreshness` | services/ingestion/groundwork_ingestion/pipeline.py:62-68 | The least of the scores, 0 when there is none |
| `DualIndex.Ingest` | services/ingestion/groundwork_ingestion/pipeline.py:43-68 | Each way an ingestion can end, residency, chunking, embedding, mismatched vectors, write and grant, exactly when it ends so; what both indexes hold afterwards; on success the document's identity, its chunk count and the least freshness of its chunks |
| `DualIndex.ChunksAreDistinct` | services/ingestion/groundwork_ingestion/chunker.py:15-51 | The chunks of a document have distinct ids |
| `DualIndex.IngestedCount` | services/ingestion/groundwork_ingestion/pipeline.py:52-68 | From empty indexes a complete write of chunks with distinct ids leaves in each index one record per chunk, under exactly the chunks' keys |
| `IngestedChunks.IngestedHolds` | services/ingestion/groundwork_ingestion/pipeline.py:43-52 | After a complete ingestion both indexes hold every chunk of the document under its tenant and id, with its text, hash, place and scope, the vector index with the vector embedded for it |
| `IngestedChunks.OtherKeysStay` | services/ingestion/groundwork_ingestion/indexes.py:34-38 | Writing chunks leaves the records of all other keys as they were |

## Left out

- HTTP servers, MCP transport, the OpenFGA, Qdrant, Elasticsearch and Graph clients, SQL text and drivers: a sink is a set of tuples whose calls may fail partway, an index a map whose calls may raise, the audit table a list of rows with an atomic per-tenant append.
- SHA-256, random identifiers, JWT verification and password hashing: injective or fresh values, or an identity already verified.
- The text form of a page cursor: the (timestamp, id) pair itself.
- Metrics, logging, latency fields, answers' prose, environment configuration, readiness probes and command-line tools.
- Console, Java SDK, bank demo, seeders, the migrations checker, leak reports, the residency table, document parsing, GitHub mapping, the computation of embeddings, retrieval scoring and the freshness formula.
- AclGraph.MemoryFGA.WriteTuples: the mutex around the tuple map; each call is one step.
- WatchService.Service.Run: the choice among ready channels is the caller's script; inside an attempt the source steps come together, before the change is tried or after the snapshot was read, since they commute with the sink's calls.
- WatchService.MockConnector.RevokeGroupMember: RemoveDocument, which emits nothing, is a silent source change in Watch; the document-level reads of the connector are not modelled.
- Watch.IncrementalAgreesWithFull: for runs whose source steps are faithful; SourceStepKeepsIff says exactly which are, and SwappedSendsLose and DroppedRevocationReturns are runs that are not.
- Sync.SyncToOpenFGA: the sink holds one tenant's tuples.
- Sync.Reconcile: attempts form a finite script that ends with cancellation; waiting between them is BackoffDelay.
- Provisioning.Snapshot: role strings are read as a flag that says whether a permission grants read; Graph paging and delta polling are not modelled.
- Principal.MemoryPrincipalResolver.Resolve: the Postgres resolver, which answers the same question in SQL, is not modelled.
- PrincipalCache.CachingResolver.Resolve: runs as one step on a nondecreasing clock; CacheRaces takes its critical sections apart.
- PrincipalCache.SameKeySameQuestion: for values free of the separators the key is built with.
- Canonical.RewritePreservesAnswers: for snapshots whose viewer ids the checker does not misread; RewrittenCheckerReads says what it answers for all.
- Fanout.EveryExitKeepsContract: an ACL answer is yes, no or an error, fixed per candidate for the call; reasons of errors are not classified.
- Engine.Rerank: scores are real numbers, and candidates of equal weight keep one order of the many the library sort may give.
- SharedPrincipals.OnePrincipalIffOneOrigin: minted ids are new, of each other and of the principals known before.
- Engine.Engine.Execute: what other calls do to the breakers and the audit table comes in the places between this call's own steps, as given with the call; the three breakers exist from the start and not on first use; error messages, query hash and agent attribution are not on the row; the ledger row the audit writer stores is modelled in Ledger.
- Ledger.AuditLog.Write: the JSON text of the decisions blob and the ids of the normalised rows; the transaction commits.
- RateLimit.MinuteBound: for a budget that does not change during the run, as are the other results about runs; Allow itself is modelled for any.
- RateLimit.LessThanTwiceTheBudget: for requests of the key that enter in the order of their readings; MinuteBound covers the others.
- Chunker.ChunkParagraphs: token counter and joiner are parameters, fixed to the real ones in Documents; metadata prefix, page, owner tags, data subjects and freshness are not on the chunk.
- Chunker.PlacesAreDistinct: the 20 hexadecimal digits an id keeps of its hash are taken to be collision-free.
- DualIndex.Ingest: deletes succeed; whether the region is allowed, the outcome of each attempt at chunking, embedding and granting, and the freshness of each chunk are parameters; waiting between attempts is not modelled.

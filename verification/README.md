# Octopool: model and proofs

Octopool relays reads to GitHub for several clients. This project models the parts of it that have to
agree with something simpler: the protocols between Workers, Durable Objects and the database, the
caches, and the transformations of queries, pages, policies and listings. Each part is a specification
on values, the code as a class or a loop where the original updates state, a proof that the two are the
same, and theorems about the specification. What each operation does is also stated without its
specification, on rows, entries, times and texts alone (the modules named `...Rules`, `...Steps`,
`...Operations` and `...Fences`).

| modules, one in each file | part |
|---|---|
| `BackendAdmission`, `LeaseHolder`, `BackendWork`, `LeaseProtocol`, `LeaseInvariants`, `LeaseTheorems` | permits for backend work: the table, the holder, and any number of holders with messages that are lost, late or repeated |
| `PublicationChain`, `PublicationChainTheorems`, `PublicationQueue`, `WaiterMemory`, `PublicationWaiters`, `PublicationProtocol`, `PublicationInvariants`, `PublicationTheorems`, `PublicationOperations` | the per-resource queue, the waiter groups with their timers, and both beside the owner table |
| `FillSegments`, `OwnedCacheFill`, `OwnedFillProtocol`, `OwnedFillInvariants`, `OwnedFillSteps`, `OwnedFillTheorems`, `CoalesceRounds`, `CoalesceRules`, `CacheCoalesce` | the owner of a publication under every interleaving, and the loop that acquires owners |
| `ProofTable`, `PublicRepoGuard`, `EvidenceRules`, `EvidenceRuns` | the evidence that a repository is public |
| `ConfigCacheModel`, `ConfigCacheInvariants`, `ConfigCacheTheorems`, `ConfigCacheSteps`, `ConfigCacheFences`, `ConfigCache`, `PolicySegments`, `PolicyCoordinator`, `PolicyUse`, `PolicyRegister`, `PolicyInvariants`, `PolicyTheorems`, `PolicyRefusals` | a cache with fenced publication, and a revision-checked policy |
| `GraphQLTokens`, `GraphQLReads`, `GraphQLLocality`, `GraphQLRootLists`, `GraphQLStripping`, `GraphQLReader`, `JsonStrings`, `GraphQLSplice` | taking `viewer { login }` out of a query and putting the answer back |
| `GraphQLDocuments`, `GraphQLFragments`, `GraphQLEligible`, `GraphQLRules` | expanding the fragments of a document, and what may be relayed |
| `Pagination`, `PaginationRules`, `Cutting`, `LinkHeaders`, `LinkRules`, `MergedArrays`, `MergedArrayRules`, `RunLists`, `RunListRules`, `RunListRelay`, `RunJobs`, `RunJobRules` | reads that are put together from pages, or cut from wider ones |
| `StrictJson`, `JsonSound`, `JsonComplete`, `JsonRoundTrip`, `JsonParser`, `RewriteMaterial`, `MaterialRules`, `StringRewrites`, `StringRewriteRules` | the policy parser, the search for rule material, and rewriting |
| `GitRefs`, `GitListings`, `GitRefMaps`, `MessagePack` | listings of Git refs |
| `IdentityTables`, `IdentityRules`, `IdentityScheduler` | the choice of an identity |

## Conventions

- A protocol is a state machine whose steps are the pieces of code between two awaits and the statements
  of the database. A run is any sequence of steps; where a run is given by its actions, an action that is
  not enabled does nothing, so every sequence of actions is a run.
- There is one clock that never goes back. A remote call takes effect at some time after it is sent, or
  never; its answer may come late or not at all.
- Each statement of `sql/queries` is modelled as an operation on a table with the conditions written in
  its text. Where the text leaves a choice (ties, which sixteen expired rows are dropped), any choice is
  allowed.
- What comes from outside (`JSON.parse` on one string, `Number`, a regular expression, an upstream) is a
  function or a script that the theorem quantifies over.

## What turned out

- Every policy that is served was the primary's content less than a minute before
  (`PolicyTheorems.ServedIsCurrent`), but the code does not ensure that alone: it tests the age of a kept
  snapshot and of nothing it has just loaded. It holds exactly because the platform resets an object whose
  gate stays closed for thirty seconds, and would with any limit below a minute and no other
  (`PolicyTheorems.CurrentExactlyByTheGateLimit`).
- A publisher can be started after its owner's completion was sent: when `publish` was called while an
  earlier `complete` waited for the same renewal, which then succeeds; or when `publish` was called between
  the settling of that renewal and its reaction and a `complete` that does not have to wait comes before
  it. In no other case (`OwnedFillTheorems.StartsAfterCompletionExactly`, with the runs
  `PublisherMayFollowCompletion` and `PublisherMayFollowDirectCompletion`).
- A follower can be told to retry while its owner's lease is live: when a renewal was committed and its
  call rejected, the timer is not armed again. In no other case
  (`PublicationTheorems.RetryPrecedesTheLeaseExactly`, with the run `RetryMayPrecedeTheLease`).
- The evidence floor is tested with "at least"; that later evidence is strictly later follows from ids
  being issued once (`EvidenceRuns.EvidenceFloor`), and would not without it
  (`PublicRepoGuard.FloorNeedsUniqueIds`).

## Model

| member | source | states |
|---|---|---|
| BackendAdmission.BackendAdmission.Acquire | src/backend-admission.ts:21-45 | The call throws on a limit below one without effect. Otherwise, after draining, it answers yes exactly when the id then owns an unexpired row of this client, and inserts a row only while the client has fewer live rows than the limit. |
| BackendAdmission.BackendAdmission.Renew | src/backend-admission.ts:47-54 | Only an unexpired row inside its deadline is extended, by thirty seconds from now, never shortened and never past the deadline. |
| BackendAdmission.BackendAdmission.Release | src/backend-admission.ts:56-58 | After it the id has no row, and every other id has the row it had. |
| BackendAdmission.BackendAdmission.Drain | sql/queries/admission.sql:15-18 | At most 64 rows go, all expired, none later than an expired row that stays. |
| BackendAdmission.AcquireKeepsCapacity | src/backend-admission.ts:21-45 | If the limits passed for a client are at most L, an acquisition never takes its live permits above L. |
| BackendAdmission.AcquiredRows | src/backend-admission.ts:25-43 | Of an id without a row: it is granted exactly while the client has fewer live rows than the limit, and then has a row of thirty seconds with a deadline of a minute; no other row changes, but for those drained. |
| BackendAdmission.ReleaseMakesRoom | src/backend-admission.ts:25-58 | For a client at its limit, the release of a live permit lets exactly one more id in. |
| BackendAdmission.RenewKeepsLive | src/backend-admission.ts:47-54 | A renewal makes no permit live that was not. |
| BackendWork.BackendWork.Enter | src/backend-work.ts:107-118 | The first entry, and only that one, sets the deadline and the first expiry and sends an acquisition; a later one only checks. |
| BackendWork.BackendWork.Acknowledged | src/backend-work.ts:119-135 | A grant gives authority only if the check still passes when it arrives; an acquisition that outlived its request releases. |
| BackendWork.BackendWork.Failed | src/backend-work.ts:137-166 | A typed error or a second failure is final; any other first failure leads to one more attempt with the same permit. |
| BackendWork.BackendWork.RenewalAnswered | src/backend-work.ts:194-206 | Authority is extended from the start of the renewal, never from its answer, and never past the deadline. |
| BackendWork.BackendWork.Close | src/backend-work.ts:233-251 | The end of a request stops it and releases what it began to acquire. |
| LeaseInvariants.SegmentOk | src/backend-work.ts:86-206 | Every piece of the holder's code keeps its fields consistent, never undoes an entry, a deadline, a closing or an abort, and sends only messages it may send. |
| LeaseInvariants.AuthorityBacked | src/backend-work.ts:114-206 | Whenever authority is taken or extended, the table then holds a permit that lasts at least as long. |
| LeaseTheorems.AuthorityHasPermit | src/backend-work.ts:86-112 | At every instant of every run, a holder that has entered and would pass its check owns a live permit of its own client that outlasts its local expiry. |
| LeaseTheorems.LeaseSafety | src/backend-work.ts:86-135 | At every instant of every run, with lost, repeated and late messages, at most L holders of a client have entered and would pass their check, if L bounds every limit passed for it. |
| LeaseTheorems.HardDeadline | src/backend-work.ts:114-135 | No renewal, retry or late grant carries authority to a minute after the first entry. |
| LeaseTheorems.AnswersGiveAuthority | src/backend-work.ts:114-206 | A grant that is acknowledged in time gives authority at once, and an acknowledged renewal carries it to thirty seconds after it was sent, or to the deadline. |
| LeaseTheorems.ClosedWorkIsReleased | src/backend-work.ts:233-251 | In every run, a holder that closed after it began to acquire has sent its release. |
| LeaseTheorems.LateAcquisitionsRelease | src/backend-work.ts:130-135 | An acquisition that ends after its request has closed, however it ends, releases. |
| LeaseTheorems.ReleaseIsServed | src/backend-admission.ts:56-58 | A release that is served removes its holder's row and no other, and frees one place of the client if the row was live. |
| PublicationChainTheorems.OperationsNeverOverlap | src/pool-coordinator.ts:185-204 | In every run, an operation of a resource runs only when all that entered before it are over; at most one runs at a time. |
| PublicationChainTheorems.ChainIsFifoLock | src/pool-coordinator.ts:185-204 | The chain of promises is a first-in first-out lock: entering appends, starting needs the head, finishing removes the head, and other resources are not touched. |
| PublicationChainTheorems.MapHoldsTheTail | src/pool-coordinator.ts:189-203 | The map holds a resource exactly while an operation of it is not over, and then its last ticket. |
| PublicationChainTheorems.HeadMayStart | src/pool-coordinator.ts:189-203 | There is no deadlock: the oldest operation that is not over runs or may start. |
| PublicationChainTheorems.QueueDrains | src/pool-coordinator.ts:185-204 | From every run, starting and finishing the head leaves the rest of the queue. |
| PublicationQueue.PublicationQueue.Enter | src/pool-coordinator.ts:189-194 | The code before the await is the entering step. |
| PublicationQueue.PublicationQueue.Finish | src/pool-coordinator.ts:198-203 | The code in `finally` is the finishing step: the map entry goes only if nobody has entered since. |
| WaiterMemory.WokenSound | src/pool-coordinator.ts:219-225 | A wake-up keeps every group attended or resolved once, leaks no timer and unmaps the resource. |
| WaiterMemory.ScheduledSound | src/pool-coordinator.ts:206-217 | A group that gets a timer, new or again, is attended by it and by no other. |
| WaiterMemory.JoinedSound | src/pool-coordinator.ts:109-122 | A follower of a new owner wakes the old group once and is attended from the start. |
| WaiterMemory.ExpiryWakesExactlyItsGroup | src/pool-coordinator.ts:208-215 | The callback of the current timer of a mapped group resolves it; a stale callback resolves nobody. |
| PublicationWaiters.PublicationWaiters.Join | src/pool-coordinator.ts:109-122 | The follower awaits a mapped group of the current owner. |
| PublicationWaiters.PublicationWaiters.AfterRenewal | src/pool-coordinator.ts:135-139 | A renewal re-arms the timer of its own owner's group only. |
| PublicationWaiters.PublicationWaiters.AfterCompletion | src/pool-coordinator.ts:168-181 | A completion wakes its own owner's group only, with the outcome if it was accepted and to retry if not. |
| PublicationWaiters.PublicationWaiters.Expiry | src/pool-coordinator.ts:209-214 | The queued callback is the expiry step. |
| PublicationTheorems.NoWakeUpIsLost | src/pool-coordinator.ts:96-225 | In every run, each group ever created is mapped with an armed timer or a queued callback that is its current one, or was resolved exactly once. |
| PublicationTheorems.RetryPrecedesTheLeaseExactly | src/pool-coordinator.ts:125-141 | In every run, a follower is told to retry while its owner holds a live lease exactly when the owner still has its row and a renewal took effect that was not acknowledged, since the follower's timer was last armed and less than a lease ago. |
| PublicationTheorems.RetryOnlyAfterTheLease | src/pool-coordinator.ts:96-225 | As long as the renewals of an owner that took effect were acknowledged, a follower is told to retry only when that owner no longer holds a live lease. |
| PublicationTheorems.RetryMayPrecedeTheLease | src/pool-coordinator.ts:125-141 | A run in which it is told so before: the renewal commits, its call rejects, and the timer is not armed again. |
| PublicationTheorems.OutcomesComeFromTheOwner | src/pool-coordinator.ts:143-183 | A follower is told of an outcome only if its own owner reported that outcome while its row was live. |
| PublicationTheorems.CompletionReachesFollowers | src/pool-coordinator.ts:166-181 | A live completion resolves the followers of its owner at once, with its outcome and id. |
| PublicationOperations.CompletionActsOnTheRow | src/pool-coordinator.ts:143-183 | In every run, a completion of the owner's live row removes it and tells its followers just that outcome; of an expired row, one that revokes removes it and its followers retry, and any other changes nothing; nor does one of no row of the owner. |
| PublicationOperations.RenewalActsOnTheRow | src/pool-coordinator.ts:129-141 | In every run, a renewal of the owner's live row makes the lease last eight seconds from now, no less than it did, and gives the followers a new timer and no answer; otherwise nothing changes. |
| PublicationOperations.AcquisitionTakesTheRow | src/pool-coordinator.ts:96-108 | In every run, where no live row is, an acquisition takes the row under a new id for eight seconds, and whoever followed an earlier owner retries. |
| PublicationOperations.AcquisitionFollowsTheRow | src/pool-coordinator.ts:96-127 | In every run, where one is, a caller is turned away, or waits with a timer in the group of the owner that is found. |
| PublicationOperations.DriftActsOnTheRow | sql/queries/publication.sql:1-48 | A statement that takes effect after its call was given up does that to the row, and nothing to the followers. |
| OwnedCacheFill.OwnedCacheFill.Renew | src/cache-fill.ts:100-108 | An inactive owner gets no renewal; a renewal in flight is shared; otherwise one is begun and the timer is off. |
| OwnedCacheFill.OwnedCacheFill.React | src/cache-fill.ts:119-128 | A failed renewal ends the owner; a successful one arms the next timer if it is still active. |
| OwnedCacheFill.OwnedCacheFill.Complete | src/cache-fill.ts:131-142 | A completion is refused, waits for the renewal in flight, or is sent by an owner that is no longer active. |
| OwnedFillTheorems.OneCompletionAndNothingAfter | src/cache-fill.ts:100-149 | Under every interleaving at most one completion is sent, and no renewal after it. |
| OwnedFillTheorems.PublishersFollowTheirRenewal | src/cache-fill.ts:151-173 | A publisher starts only after the very renewal that its own `publish` awaited was sent and confirmed, confirmed after that call unless it had settled by then. |
| OwnedFillTheorems.OwnersStayAlive | src/cache-fill.ts:80-130 | An active owner has either a timer or exactly one renewal in flight; an inactive one has no timer. |
| OwnedFillTheorems.StartsAfterCompletionExactly | src/cache-fill.ts:131-173 | When a publication goes on, its publisher starts exactly if the renewal succeeded and work is still permitted; and then a completion has been sent exactly if one was waiting for the renewal when `publish` was called, or if the renewal had settled then and one that did not wait has been sent since. |
| OwnedFillTheorems.PublisherFollowsCompletionExactly | src/cache-fill.ts:131-173 | The same of whole runs: the call of a publisher that has started tells whether a completion was sent before it. |
| OwnedFillTheorems.PublisherMayFollowCompletion | src/cache-fill.ts:131-173 | A run in which a publisher starts after the completion: `complete` waits for a renewal and `publish` is called behind it. |
| OwnedFillTheorems.PublisherMayFollowDirectCompletion | src/cache-fill.ts:131-173 | A run in which it does though no completion was waiting: `publish` is called after the renewal settled and before its reaction, `complete` after it. |
| CoalesceRounds.OwnershipIsSettledOrReturned | src/cache-coalesce.ts:44-84 | Every ownership that was granted is settled or left to run out, exactly once, unless it is the one returned, which is neither; a result is never an owner and a body. |
| CoalesceRounds.LeftExactlyWhenLost | src/cache-fill.ts:40-70 | The account misses no grant and invents none; an ownership is left to run out exactly if the reply that granted it was lost, or its owner had lost it before it could report. |
| CoalesceRounds.BodiesAreAccepted | src/cache-coalesce.ts:44-84 | A body that is returned was read and accepted; a request for a fresh one returns none. |
| CoalesceRounds.SettlementsAreTruthful | src/cache-coalesce.ts:48-60 | A completion that is no failure names the cache of the body that was reused. |
| CoalesceRules.ResultExactly | src/cache-coalesce.ts:44-84 | The loop comes to a result exactly when the first round that ends the request ends it so: with the ownership that was granted and not overtaken, with a body that was read in the cache that the answer names and accepted, or with an error; and waits on exactly while no round does. |
| CacheCoalesce.AcquireOwnedCacheFill | src/cache-fill.ts:40-70 | A lost reply is retried once; a grant to a request that may no longer work is failed. |
| CacheCoalesce.CoalesceGitHubCacheMiss | src/cache-coalesce.ts:15-85 | The loop is the specification, for any script of answers. |
| ProofTable.ProofsAreTruthful | src/public-repos.ts:353-418 | In every run, with statements and copies that take effect late or never, every proof in the table or the edge cache tells what the holder of its publication id saw, and what was seen is never changed. |
| ProofTable.RowsOnlyAdvance | sql/queries/d1.sql:478-495 | Over any run, rows dropped and written late included, the id in the table only grows, and a later row of the same id tells the same. |
| ProofTable.TableActs | sql/queries/d1.sql:478-495 | A grant is of a new id; a store replaces a row exactly if it is the live owner's, unexpired and over a smaller id; what is written or copied to the edge is read there. |
| PublicRepoGuard.EnsurePublicGitHubRepo | src/public-repos.ts:57-120 | The loop is the specification, with the evidence floor as the greatest id observed under. |
| EvidenceRuns.EvidenceFloor | src/public-repos.ts:57-120 | In every run of the loop inside any run of the table, whatever other holders do in between: once a request has itself seen the repository not public under an id, it succeeds only on a public proof or a probe under a greater id, whichever exit it takes. |
| EvidenceRuns.RunsAreHonest | src/public-repos.ts:57-138 | The answers that such a run gives to the loop agree with what the request has seen, and granted ids grow. |
| PublicRepoGuard.FloorOfHonestAnswers | src/public-repos.ts:57-120 | The same of any script of answers that agree with what the request has seen. |
| PublicRepoGuard.FloorNeedsUniqueIds | src/public-repos.ts:129-137 | Without ids issued once, a proof under the request's own id would be believed. |
| EvidenceRules.ResultExactly | src/public-repos.ts:57-120 | The loop comes to a result exactly when it comes to a round that ends so: which proofs, by their times, ids and content, make a request succeed, which deny it, and which are no answer, for followers, owners and after the probe. |
| EvidenceRules.EvidenceIsCurrent | src/public-repos.ts:524-535 | A proof that a request succeeds by was read in its last round, was then public and unexpired, and was checked no more than five seconds before what it has to cover: the request's start, or the cached body. |
| EvidenceRules.CurrentEvidenceSuffices | src/public-repos.ts:62-74 | A follower that reads such a proof, under no lower id than it was told of or has seen, succeeds by it. |
| EvidenceRuns.LaterEvidenceIsBelieved | src/public-repos.ts:57-120 | A run in which a request that saw the repository private succeeds by a later holder's proof. |
| ConfigCacheTheorems.LookupIsFenced | src/config-cache.ts:29-74 | In every run, a lookup is answered with a load of its key created less than thirty seconds before, after every earlier clear and every earlier effective invalidation of that key. |
| ConfigCacheTheorems.LoadsOnlyProgress | src/config-cache.ts:42-69 | A load keeps its key, its creation and its value, so that what is joined is what is delivered. |
| ConfigCacheTheorems.BoundedStore | src/config-cache.ts:56-72 | The store and each pending map never exceed 256 entries. |
| ConfigCacheTheorems.PublishedIsServed | src/config-cache.ts:51-63 | A load that passes the fences answers every lookup of its key for the rest of its lifetime, and displaces no other entry while there is room. |
| ConfigCacheTheorems.BegunIsJoined | src/config-cache.ts:36-41 | A second lookup in the same request joins the load that the first began. |
| ConfigCacheFences.ClearedLoadsAreNeverServed | src/config-cache.ts:87-90 | If a step of a run is a clear, no later lookup is answered from a load that existed before it. |
| ConfigCacheFences.InvalidatedLoadsAreNeverServed | src/config-cache.ts:78-84 | If a step is an invalidation of the value that is held, no later lookup of that key is. |
| ConfigCacheFences.StaleInvalidationChangesNothing | src/config-cache.ts:78-84 | If it is one of another value, every lookup is answered as before. |
| ConfigCacheSteps.LookupActs | src/config-cache.ts:29-42 | An entry that has not expired answers; else a load of the same request that is neither thirty seconds old nor fenced off; else a new load is begun and is the request's. |
| ConfigCacheSteps.SettlingActs | src/config-cache.ts:47-63 | A load is published exactly if nothing has fenced it off; it expires thirty seconds after its lookup, displaces others only from a full store, and is delivered to whoever joined it in any case. |
| ConfigCacheSteps.LoadingActs | src/config-cache.ts:42-70 | Beginning, failing and finishing a load touch that load, and the request's map only if it still names it. |
| ConfigCacheSteps.FencingActs | src/config-cache.ts:78-90 | An invalidation removes the entry of its key exactly if it holds the value, a clear removes all, and either fences all loads off. |
| ConfigCache.ConfigCache.Lookup | src/config-cache.ts:29-74 | The code is the lookup step. |
| ConfigCache.ConfigCache.Settle | src/config-cache.ts:47-63 | The code is the settling step, eviction included. |
| ConfigCache.ConfigCache.InvalidateConfigValue | src/config-cache.ts:78-84 | Only an entry that still holds the value is removed, and then late loads are fenced off. |
| ConfigCache.ConfigCache.ClearConfigCache | src/config-cache.ts:87-90 | The store is empty and late loads are fenced off. |
| PolicyCoordinator.PolicyCoordinator.Fetch | src/policy-coordinator.ts:48-67 | A read is answered from a fresh snapshot; any other request enters the gate, refreshing first if the snapshot is not fresh. |
| PolicyCoordinator.PolicyCoordinator.Replace | src/policy-coordinator.ts:100-123 | A stale revision or an oversized policy is refused; otherwise the snapshot is dropped before the write is sent. |
| PolicyCoordinator.PolicyCoordinator.Written | src/policy-coordinator.ts:124-138 | An acknowledged write installs exactly the policy it wrote, aged from before it was sent. |
| PolicyTheorems.ServedRevisionsNeverDecrease | src/policy-coordinator.ts:48-145 | In every run, with lost and late acknowledgements and restarts, the revisions that are served never decrease. |
| PolicyTheorems.AcceptedPutIsOneTransition | src/policy-coordinator.ts:100-144 | For every PUT answered as accepted there is exactly one version it installed: on top of the revision that PUT expected, with the next revision and that PUT's rules; and that is the policy the answer reports. |
| PolicyTheorems.ServedIsCurrent | src/policy-coordinator.ts:48-145 | In every run under the platform's limit on the gate, whatever is served by a read or an accepted PUT was the primary's content less than a minute before. |
| PolicyTheorems.CurrentExactlyByTheGateLimit | src/policy-coordinator.ts:56-98 | If the gate may stay closed for a given time at most, everything served is that current in all runs exactly when that time is less than a minute. |
| PolicyRefusals.RefusedPutInstallsNothing | src/policy-coordinator.ts:100-144 | A PUT answered with a conflict or as invalid has installed no version and never will, whatever is lost or late. |
| PolicyUse.AcceptedPutIsServed | src/policy-coordinator.ts:100-138 | With a fresh snapshot, a PUT from its revision is sent on, from another refused; once acknowledged it is what reads get. |
| PolicyUse.AcceptedPutIsServedAfterRefresh | src/policy-coordinator.ts:59-138 | Without one, the PUT refreshes first and is judged by the row read; once acknowledged it is what reads get for a minute from when it was sent. |
| PolicyUse.ReadsAreServed | src/policy-coordinator.ts:48-66 | A read is answered from a snapshot under a minute old, and otherwise from the row, which is kept. |
| PolicyUse.OversizedIsInvalid | src/policy-coordinator.ts:100-113 | A policy that is too large is refused once its revision is right, and what was loaded is kept. |
| PolicyUse.LossesKeepNothing | src/policy-coordinator.ts:115-144 | After a write that found another revision, or a lost answer, nothing is kept, and the caller is told of a conflict or that the policy is unavailable. |
| GraphQLTokens.Scan | cmd/octopool/gh_graphql_read.go:25-57 | The loop yields the tokens of the text, at most 4000 of them, or fails. |
| GraphQLTokens.TokenRunStops | cmd/octopool/gh_graphql_read.go:20 | A token that was matched in a text is matched whole in front of a space or of nothing. |
| GraphQLTokens.JoinLexes | cmd/octopool/gh_graphql_read.go:230 | Tokens joined with spaces are read back as just those tokens. |
| GraphQLLocality.FirstRootLocal | cmd/octopool/gh_graphql_read.go:110-203 | A root field is recognised from its own tokens alone, whatever follows that cannot continue it. |
| GraphQLRootLists.RootsSound | cmd/octopool/gh_graphql_read.go:110-203 | The tokens of an accepted root list are those of its roots, each canonical, with one repository and at most one viewer. |
| GraphQLRootLists.RootsComplete | cmd/octopool/gh_graphql_read.go:110-203 | Any such list of roots is accepted as that list. |
| GraphQLStripping.StrippedReads | cmd/octopool/gh_graphql_read.go:224-232 | The query without its viewer is accepted again, with the same header and fragments and the same other roots. |
| GraphQLReader.Reader.Skip | cmd/octopool/gh_graphql_read.go:65-89 | The index moves past a balanced bracket pair of depth at most twelve, exactly when there is one. |
| GraphQLReader.Reader.Arguments | cmd/octopool/gh_graphql_read.go:138-176 | The arguments are an owner and a name, each once, from text or a variable, and neither a path. |
| GraphQLReader.Reader.Roots | cmd/octopool/gh_graphql_read.go:105-203 | The loop accepts exactly the root lists of the specification, and remembers the keys and the viewer's extent. |
| GraphQLReader.RepositoryGraphQLRead | cmd/octopool/gh_graphql_read.go:59-234 | Exactly the reads of the specification are accepted; a viewer is taken out of the query and remembered; a request that is turned down is left as it was. |
| GraphQLSplice.SpliceViewer | cmd/octopool/gh_graphql_viewer.go:118-185 | The two loops compute the specified response or fail where it fails: repeated members, data that is no object, an unexpected or unrequested field; and under the viewer's key stands an object with just the login. |
| GraphQLSplice.StripPreservesMeaning | cmd/octopool/gh_graphql_viewer.go:118-185 | For every accepted query with a viewer, every server and every login, however the server writes it: splicing into the answer to the query as sent gives the answer to the query as written, with the same members in the same order and text, dropped roots and lost data included, but for the viewer, which names the same login in both. |
| GraphQLSplice.SpliceAddsOnlyTheLogin | cmd/octopool/gh_graphql_viewer.go:147-184 | Whatever came back, a splice that succeeds adds an object that reads as just the login, changes no other value, and leaves only fields that were asked for. |
| GraphQLSplice.LoginIsNamed | cmd/octopool/gh_graphql_viewer.go:152-153 | For every login, the text that is put in is read as an object with the one member `login` and that login as its string. |
| JsonStrings.LiteralIsRead | cmd/octopool/gh_graphql_viewer.go:152 | Any text, escaped as the encoder does, is one string literal and is decoded to that text. |
| JsonStrings.OneMemberIsRead | cmd/octopool/gh_graphql_viewer.go:152-153 | An object of one such name and one such text is read as just that. |
| GraphQLDocuments.ExpandsExactlyWhenAcyclic | src/graphql-read.ts:83-106 | The operation and every fragment can be inlined exactly when all spread fragments are defined and no path of spreads closes. |
| GraphQLDocuments.PathExpands | src/graphql-read.ts:98-102 | Along a path of spreads the stack is the path, so that no fragment comes twice. |
| GraphQLFragments.Walker.Walk | src/graphql-read.ts:81-104 | The walk ends on every document and accepts exactly the sets whose expansion exists, is at most twelve deep and within 4000 nodes; then it has counted them and collected the root fields of the inlined set. |
| GraphQLEligible.WalkFragments | src/graphql-read.ts:106 | Unused fragments are held to the same limits and add no roots. |
| GraphQLEligible.ReadRoots | src/graphql-read.ts:107-139 | The roots are accepted exactly when one is a repository and all but `__typename` read that one. |
| GraphQLEligible.ParseGraphQLRead | src/graphql-read.ts:31-147 | A document is accepted exactly when it is eligible: one query, nothing forbidden, no cycle, bounded when inlined, one repository at the root. |
| GraphQLRules.AcceptedExactly | src/graphql-read.ts:52-147 | Eligible is exactly: one query of the name asked for, fragments of different names, nothing forbidden at any depth in used or unused parts, no undefined or circular spread, depths up to twelve and 4000 selections in all, and at the root with all fragments in place nothing but `__typename` and reads of the one repository. |
| GraphQLRules.AllowedExactly | src/graphql-read.ts:65-83 | A selection set passes exactly if every selection in it, at any depth, is harmless. |
| GraphQLRules.ReadsExactly | src/graphql-read.ts:109-138 | A field reads a repository exactly if its two arguments, as texts or variables, are names that give it in lower case. |
| GraphQLRules.SelectionMeasures | src/graphql-read.ts:86-104 | A field counts once and is the root, its set is one deeper; a fragment counts once, is no deeper, and has the roots of what stands in it. |
| Pagination.RelayPaginatedGHAPI | cmd/octopool/gh_api_pagination.go:35-147 | The loop is the specification and makes at most ten fetches. |
| Pagination.TurnIsSound | cmd/octopool/gh_api_pagination.go:64-143 | A page that is taken for the last ends the collection; after any other, the next request starts where it ends. |
| Pagination.SuccessIsComplete | cmd/octopool/gh_api_pagination.go:21-147 | Against a fixed collection, a successful read writes exactly the items from the start page to the end, in order and once each, with links, without, or mixed. |
| Pagination.SucceedsExactlyWhenItFits | cmd/octopool/gh_api_pagination.go:113-146 | Of plain lists without links, it succeeds exactly when they end within ten pages. |
| Pagination.PreparedMeans | cmd/octopool/gh_api_pagination.go:21-33 | A page size that is left out or too large is a hundred, a page that is left out is the first, and anything else is as given. |
| Pagination.UnnumberedIsWhole | cmd/octopool/gh_api_pagination.go:21-147 | A read that names no page, and succeeds, writes the whole collection. |
| PaginationRules.LinkedReadExactly | cmd/octopool/gh_api_pagination.go:80-112 | Where every page has a link, just those pages are written that the links lead through to a last one within ten, empty ones included. |
| PaginationRules.SuitesAreWhole | cmd/octopool/gh_api_pagination.go:62-84 | Whatever the upstream does meanwhile, the check runs of a suite are written only with one total on every page, and as many as it says. |
| PaginationRules.CountedReadExactly | cmd/octopool/gh_api_pagination.go:62-147 | Lists with a total, and the check runs of a suite with links or without, succeed exactly when they end within ten pages, without a probe past a full last page. |
| PaginationRules.EndsWithoutPages | cmd/octopool/gh_api_pagination.go:53-143 | At which responses nothing is written, and whether that is an error, the upstream's refusal, or a read that is left to the native tool. |
| PaginationRules.ProbesLeaveNoTrace | cmd/octopool/gh_api_pagination.go:133-138 | Without links, an empty page is written only if it is the first. |
| LinkHeaders.SplitRelayLinkHeader | cmd/octopool/gh_api_pagination.go:188-224 | The scan with flags cuts a header at the commas that are outside angle brackets and quotes. |
| LinkHeaders.SplitGivesBackEntries | cmd/octopool/gh_api_pagination.go:188-224 | Splitting a header gives back the entries it was joined from, whatever commas they hold. |
| LinkRules.WrittenEntriesAreSplit | cmd/octopool/gh_api_pagination.go:188-224 | A header that lists entries of targets in angle brackets, quoted strings with escapes and plain text is split into just those entries, whatever commas, brackets and quotes stand inside. |
| MergedArrays.MergedArrayPages | cmd/octopool/gh_api_pagination.go:420-441 | Pages are merged exactly when all are arrays. |
| MergedArrays.MergingConcatenates | cmd/octopool/gh_api_pagination.go:415-441 | The merged text is one array whose elements are those of the pages, in order. |
| MergedArrayRules.PagesAreMerged | cmd/octopool/gh_api_pagination.go:415-441 | Of pages of any JSON values, the merged text is an array whose elements are just those values as written, page after page. |
| RunLists.ServedEqualsDirectRead | src/run-list-superset.ts:63-137 | A view that is not underfilled serves from the cached start of the list what filtering and limiting the whole list would give. |
| RunLists.ExactEqualsDirectRead | src/run-list-superset.ts:50-61 | The exact request's answer is served as that same list. |
| RunLists.ProjectionIsTheSmallPage | src/run-list-superset.ts:146-165 | The page of a hundred cut to 25 is underfilled exactly when the page of 25 is, and otherwise serves the direct read. |
| RunLists.ProjectionCommutes | src/run-list-superset.ts:146-165 | Filtering the cut page gives the start of what filtering the whole page gives. |
| RunListRules.ServedArePicked | src/run-list-superset.ts:102-137 | What is served are the first runs of the list with that branch and with that status as status or conclusion, none skipped, up to the limit. |
| RunListRules.ViewExactly | src/run-list-superset.ts:63-100 | Which requests have a superset, what it filters for, how many runs are wanted, and whether a page of 25 or a hundred is cached. |
| RunListRules.ExactPageMeans | src/run-list-superset.ts:50-61 | The exact request asks for the client's page size, else its limit, else thirty: never fewer than are wanted. |
| RunListRules.ProjectedExactly | src/run-list-superset.ts:146-165 | A page of a hundred stands for one of 25 exactly if it has as many, or has all there are and says so. |
| RunListRelay.ActiveRelay.SwitchRelayCacheKey | src/relay.ts:1155-1168 | Changing the key settles the fill of the old one; the same key changes nothing. |
| RunListRelay.ActiveRelay.ExecuteRelay | src/relay.ts:1208-1230 | The relay restarts at most once, exactly on an underfilled page, and then serves the exact answer. |
| RunListRelay.Relay | src/relay.ts:2217-2228 | End to end, the list that is served is the direct read's, after one restart at most. |
| RunJobs.CompleteRunJobsSuperset | src/run-jobs-superset.ts:293-365 | For any pages: the result is the first page unchanged, or the merge of pages that all agree, or an error for a page that could not be reached; which of them is decided by the first page that disagrees, ends the links or cannot be reached. |
| RunJobs.OnlyWholeAggregatesPass | src/run-jobs-superset.ts:263-279 | A merge holds as many jobs as every page reported and counts as complete; a first page that needed a merge counts as incomplete. |
| RunJobs.AggregateIsTheList | src/run-jobs-superset.ts:293-365 | Of a fixed list of at most 300 jobs, completing the first page never fails and gives the list with its length. |
| RunJobs.CutEqualsUpstreamPage | src/run-jobs-superset.ts:248-396 | Of such a list, the view of any page and size cut from what completing gives is upstream's own page, with its total. |
| RunJobs.PagesCoverTheList | src/run-jobs-superset.ts:215-396 | Of such a list, the pages of any one size that the views cut, one after another, are the list, each job once. |
| RunJobRules.CompletionExactly | src/run-jobs-superset.ts:293-365 | For any pages: which first pages need more, which later page is asked for and out of reach so that it is an error, and when all fit and are joined in order. |
| RunJobRules.CompleteMeans | src/run-jobs-superset.ts:263-279 | An answer counts as complete exactly if its total is its number of jobs, at most 300, and no link points on. |
| RunJobRules.ViewExactly | src/run-jobs-superset.ts:215-261 | Which pages and sizes have a view, and where it is cut. |
| JsonSound.SoundValue | src/string-rewrite-json.ts:37-87 | What is read was a printing of the tree read, followed by the rest, with no key twice and no value too deep. |
| JsonComplete.CompleteValue | src/string-rewrite-json.ts:37-87 | Any printing of such a tree is read as that tree, whatever follows that cannot extend a number. |
| JsonRoundTrip.PrintingsAreRead | src/string-rewrite-json.ts:15-92 | Any text of a value with distinct keys, at most eight deep, with any white space, is read as that value. |
| JsonRoundTrip.AcceptedIsPrinting | src/string-rewrite-json.ts:15-92 | Every accepted text is such a text, and its value has no key twice at any level. |
| JsonRoundTrip.RoundTrip | src/string-rewrite-json.ts:15-92 | Every such value can be written, and is read back. |
| JsonParser.JsonParser.String | src/string-rewrite-json.ts:23-36 | The scan finds the closing quote and decodes the literal, or fails. |
| JsonParser.JsonParser.Value | src/string-rewrite-json.ts:37-87 | The moving position reads what the grammar reads, and ends on every text. |
| JsonParser.ParseStringRewriteJSON | src/string-rewrite-json.ts:15-92 | The parser is the grammar's reading of the whole text. |
| RewriteMaterial.MoveAll | src/string-rewrite-material.ts:22-57 | One character moves every live candidate, and every one that it closes is parsed. |
| RewriteMaterial.ContainsRuleMaterial | src/string-rewrite-material.ts:15-66 | The one pass finds material exactly when some opening brace, scanned on its own to its first balance, is a rule object with a listed pattern, or there are more than 4096 opening braces. |
| MaterialRules.MaterialExactly | src/string-rewrite-material.ts:12-66 | There is a rule object in a text exactly if some part that begins with a brace is read by the policy parser as an object of a listed pattern and a replacement, in either order, whatever stands around it and in it. |
| StringRewrites.ApplyRule | src/string-rewrites.ts:129-156 | A pass with chunks, counts and limits is the plain replacement, or a denial exactly where the limits or a bad match deny. |
| StringRewrites.RewriteString | src/string-rewrites.ts:123-163 | The whole is denied or returned exactly as specified. |
| StringRewrites.RewritingIsSettled | src/string-rewrites.ts:123-163 | What is returned is the plain left-to-right replacement by each rule in turn, within the limit, with no match and no rule material, and rewriting it again returns it. |
| StringRewriteRules.RewrittenExactly | src/string-rewrites.ts:123-163 | A text is rewritten exactly if it and every stage are within a mebibyte, each rule's matches, found one after another, hold something and do not go back, and are no more in all than that, and neither the text nor the result holds rule material or, the result, a match; the stages weave the replacements between what was not matched. |
| GitRefs.ParseGitUploadPackAdvertisement | src/github-git.ts:6-67 | The loop with its phases is the specification. |
| GitListings.ListingsAreRead | src/github-git.ts:6-67 | A service packet, a flush, ref packets and a final flush are read as the refs collected from them, or refused for a repeated or malformed one. |
| GitListings.AcceptedIsListing | src/github-git.ts:6-67 | Whatever is accepted is such a listing, to its last byte. |
| GitListings.NoProperPrefix | src/github-git.ts:27-34 | No accepted listing is accepted when it is cut short or continued. |
| GitRefMaps.PrintedRefsAreRead | src/github-git.ts:47-64 | Any ref map that is not empty, printed with capabilities on the first line only, is read back with its ids in lower case. |
| MessagePack.PackedIsUnpacked | src/github-git.ts:163-174 | A name packed for a node id is unpacked again, with whatever follows left over. |
| MessagePack.PackedIsShortest | src/github-git.ts:163-174 | A name has its length in five bits of one byte if it fits there, else in the two bytes after 0xda, and is not packed if it fits in neither. |
| IdentityScheduler.IdentityScheduler.SelectIdentity | src/pool-coordinator.ts:281-335 | A usable lease is kept; otherwise the first candidate with the greatest score among the eligible is chosen and leased for ten seconds; otherwise none. |
| IdentityScheduler.BestCandidate | src/pool-coordinator.ts:306-325 | The loop finds the greatest score, the earliest of equals, or that nobody is eligible. |
| IdentityScheduler.IdentityScheduler.RecordResult | src/pool-coordinator.ts:337-375 | A newer window replaces the quota, the same window keeps the least, an older one is ignored; a cooldown is only made longer. |
| IdentityTables.OnlyEligibleAreChosen | src/pool-coordinator.ts:281-335 | None is chosen exactly when no candidate is eligible; whoever is chosen is an eligible candidate. |
| IdentityTables.SelectionsAreSticky | src/pool-coordinator.ts:285-304 | In every run, within ten seconds of a choice the route's selections stay with it while it remains an eligible candidate. |
| IdentityTables.PausesAreKept | src/pool-coordinator.ts:337-429 | In every run, an identity that was asked to pause is chosen for no request in that scope until the pause is over. |
| IdentityTables.UsedUpQuotaIsKept | src/pool-coordinator.ts:337-358 | In every run, an identity whose quota was seen used up is not chosen for the resource before the window ends, unless a later window is known. |
| IdentityRules.SelectionMeans | src/pool-coordinator.ts:281-335 | A usable lease is kept for the seconds that are told; else the candidate is chosen that is not paused, has quota left and outranks every other such by what is left and its weight, the earlier of equals; else none. |
| IdentityRules.RecordingMeans | src/pool-coordinator.ts:337-375 | Which quota an observation replaces, lowers or leaves, and which pause it asks for and for how long; nothing else is touched. |
| IdentityRules.WhoMustRestIsNotChosen | src/pool-coordinator.ts:505-525 | In every run, after an answer that asks for rest, under the key and until the instant that its status, its limits and its wait give, the identity is chosen for no request in that scope. |
| IdentityRules.FailureMeans | src/pool-coordinator.ts:377-393 | A credential that could not be used rests everything of its identity for two minutes at least. |

## Left out

- Hashing, signing, tokens, sessions, login, dashboards, HTML pages and route tables: no state of their own to reason about.
- The network, streams, storage engines and the edge cache: replaced by scripts, functions and tables as said above.
- `executeRelay` as a whole: only the restart on the exact run list, with one page for each of the two requests; that the upstream filters an exact request as the view does is assumed.
- The legacy fill calls of the coordinator (`acquireCacheFill` and its waiters): a simpler form of the waiter groups that are modelled.
- Restarts of the coordinator object: they reject its waiters, which is not a wake-up of the modelled kind.
- `gitRefResponse`, `gitRefNodeID`, `relayNextLink`, `validatePatternSubset`, `validateVariables`, `projectEquivalentRunJobs`: each is settled by reading its body.
- The checks of the public repository guard before its loop (a fresh negative proof, a covering proof): they end the request before it has observed anything.
- The bytes of a spliced response: members and their texts are modelled, not the white space between them.
- The limit of 16384 bytes that the Worker sets again on the query as sent: a joined query may be longer than the one it came from, and is then refused there.
- The `graphql` parser and printer: documents are modelled as syntax trees.
- RE2 and JavaScript regular expressions: each pattern of the modelled code is written out, and user patterns are functions.
- Lone surrogates and the difference between UTF-16 units and characters: texts are sequences of characters. Payloads of Git packets are taken byte for byte, with ASCII white space.
- The order in which JavaScript lists keys that look like integers: members keep the order of the text.
- An error of the string rewrite policy while a page of jobs is fetched: it is passed on and ends the request.
- BackendAdmission.BackendAdmission.Drain: ties between rows that expire at the same instant may be broken in any way.
- PublicationTheorems.NoWakeUpIsLost: that an armed timer eventually fires is left to the platform.
- PublicRepoGuard.EnsurePublicGitHubRepo: an endless loop is a script without an end; the theorems are about every finite script.
- Pagination.SuccessIsComplete: assumes that pages without links are full up to the last, and that lists with a total have pages of equal size.
- RunLists.ServedEqualsDirectRead: assumes that every element of the upstream list is an object, as runs are; an unfiltered view drops any other.
- GraphQLSplice.StripPreservesMeaning: a server answers each root field from the header, the fragments and the field alone, and the errors beside `data` do not depend on the viewer.

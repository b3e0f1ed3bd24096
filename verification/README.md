# Verified model of the Anumate registry and its guards

This project models, in Dafny, the parts of the Anumate code base whose correctness is a matter of
protocol or algorithm rather than of configuration, and proves what they guarantee. In the
components modelled, a method that changes state is a method on a class here, proved against a
specification function; the theorems are about those functions, over all inputs, all runs or all
interleavings.

| files | component |
|---|---|
| `StepGraphs`, `DepthFirst`, `StepValidator` | step-dependency validation: the recursive three-colour search |
| `RegistryModels`, `CapsuleRepository`, `CapsuleRegistry` | the capsule registry: tables with constraints, transactions, repository, service |
| `RegistryContent`, `RegistryRuns`, `AuditTrail`, `RegistryReads`, `RegistryRetries`, `RegistryEtags` | whole runs of the registry: invariant, audit, content, retries, conditional updates |
| `RegistryAnswers` | the answer to every request, error by error, and what it leaves in the rows |
| `TenantIsolation` | what operations of one tenant leave as it is for another |
| `Publishing`, `CapsuleHistories`, `CommitOrder` | concurrent publishers, step by step: everything in order, one capsule in order, the tables consistent |
| `TakenIds`, `SharedKeys`, `VersionLimit`, `PublisherReads`, `PublisherAnswers` | what interleaving does to ids taken again, shared keys, the version limit, the text read back, and the answers from a key |
| `CapsuleListing` | pagination and visibility |
| `UniversalNewlines`, `WormStore`, `WormUri` | write-once content files and their URIs |
| `RateLimiter` | the sliding-window script |
| `ReplayGuard`, `CapabilityTokens` | replay guard and token verification |
| `CircuitBreaker` | the HTTP circuit breaker |
| `IdempotentCalls` | the idempotency decorator |
| `Sequences`, `Wrappers` | shared helpers |

## Findings

Some expected properties do not hold of the code as it stands. Each is proved here with the exact
condition under which it does hold.

- Content files are written and read in text mode, which turns every carriage return into a line
  feed on reading. Storing a text with a carriage return a second time is therefore reported as a
  hash collision, blob and write-once file disagree exactly when the blob holds one
  (`FallbackAgreesIff`), and retries of such a publish or create fail
  (`PublishRetryAnsweredIff`, `CreateRetryAnsweredIff`; a run in `RetryRefusedExample`).
- The hash is of the parsed document, so a second text of the same document that is accepted can be
  read back with the first one's line endings (`SubmittedTextReadBack`, `ForeignLineEndings`). Under
  interleaving this can happen even to the text that was stored first (`PublishedTextReadBack`,
  `OvertakenExample`).
- A retried publish is refused once the version limit is reached, because the limit is checked
  before the idempotency key (`PublishRetryAnsweredIff`, `LimitBeforeKeyExample`). A retried create
  answers with the latest version, which is the first exactly when nothing was published since
  (`CreateReplayReturnsLatest`, `CreateReplayExample`).
- A deleted capsule keeps its name: the lookup lets a create through, the unique index refuses it
  (`CreateOutcome`, `DeletedNameStaysTaken`, `DeletedNameExample`).
- The rate limiter counts distinct seconds; it bounds requests only for limits of at most one
  (`RequestsBoundedIffLimitAtMostOne`, `BurstAdmitted`).
- The idempotency decorator never returns or stores the function's result; a call ends in an
  exception exactly when it ran the function, and every other one finds the value that was there
  before or the marker (`HowCallsEnd`).
- A token can be accepted twice if the clock crosses its expiry inside the second verification
  (`ReplayAcceptedIffGuardReadsLate`, `CrossingExpiryReplays`).
- Ids of deleted capsules may be taken again, but not any id at any time. The tables stay consistent
  through an interleaving exactly when every commit that goes through still finds what its publisher
  goes by: the tenant, the latest version it loaded, and that the content is new (`ConsistentIff`).
  What publishers in flight go by, from the service's lookup on, stays true exactly when no create
  takes the id of one of them unless the two are compatible (`InOrderIff`). Before the repository's
  lookup that means: another tenant, which the lookup will notice, or version 1 was loaded. After it:
  the same tenant, version 1 was loaded, and the content was not yet looked for or is another one.
  After an incompatible create the publisher can leave a version of another tenant in the capsule, a
  gap in its numbers, or the same content twice (`TakeOverIff`, `OtherTenantBreaks`,
  `LaterVersionBreaks`, `BetweenLookupsBreaks`, `SameContentBreaks`); it does whenever it goes on alone
  and is not refused for another reason (`TakenIdIff`).
- Publishers that share an idempotency key can both make a version, because the key is recorded
  only after the commit: exactly when they publish to different capsules, or different contents to
  one with room for two more versions (`SharedKeyIff`, `SharedKeyExample`).
- The write-once provider's documentation offers `file://./_worm` as a local directory; by the URL
  rules the code uses the dot is the authority and the path is the absolute `/_worm`
  (`DocumentedBucketIsAbsolute`), while `file://_worm` has no path and is the working directory itself
  (`HostOnlyBucketIsWorkingDirectory`). A `file:` URL stores in the working directory or relative to
  it exactly when it has an authority and no slash after that before a query or fragment, or has no
  authority and what follows the scheme does not start with a slash (`WorkingDirectoryIff`).

## Reading the model

Times, generated ids and etags, the outcome of a wrapped function and the verdict of a signature
check are parameters. The content hash is an unspecified function of the text (two texts may share
a hash). The idempotency provider is a map. The circuit breaker uses a `time` module that its file
does not import; the intended clock is modelled. File semantics are those of a POSIX system.

A registry run (`RegistryRuns.Run`) takes each service operation as atomic; `Publishing` splits a
publish into loading and limit check, write-once store, key lookup (followed, for a known key, by the
lookup of its version), second lookup of the capsule, hash lookup, blob lookup, commit and key record, each its own step, with any number of publishers.
Each publisher has a session of its own, which hands back an object it has loaded as it was loaded.
So a publisher goes by the latest version and the status of its first lookup, and the second one only
finds out whether the tenant still has the row; everything else is read from the committed tables.
`Sound` and `Invariant` are the invariants of the two; `InOrderAt` is that of one capsule, whatever
befalls the others.

## Model

| member | source | states |
|---|---|---|
| StepGraphs.OrderableIsAcyclic | services/registry/validation.py:169-200 | A graph with a complete topological order has no cycle, self-dependencies included |
| StepGraphs.BackEdgeClosesCycle | services/registry/validation.py:190-191 | An edge back into the recursion stack closes a real cycle |
| StepGraphs.SameEdgesSameVerdict | services/registry/validation.py:169-200 | Whether a graph can be ordered depends only on which edges there are |
| DepthFirst.EnterKeeps | services/registry/validation.py:183-184 | Entering a node keeps the colours, the no-node-twice cost bound and the depth bound |
| DepthFirst.ExamineKeeps | services/registry/validation.py:186-187 | Looking at a list entry never looked at before keeps all of them |
| DepthFirst.FinishKeeps | services/registry/validation.py:193-194 | A fully explored node may be finished: the finished nodes stay in dependency order and closed under edges |
| DepthFirst.EverythingFinished | services/registry/validation.py:196-200 | Once every step is entered and no call is in progress, the finishing order is a complete topological order and every list entry was examined once |
| DepthFirst.DepthFirstSearch.Dfs | services/registry/validation.py:182-194 | The recursive search terminates (fewer unvisited nodes at each call); it reports a cycle only if there is one, and otherwise finishes the node, restores the stack and stays within the cost bound |
| StepValidator.GraphHoldsEveryStep | services/registry/validation.py:171-177 | With unique names the dictionary holds each step's own list |
| StepValidator.BuildGraph | services/registry/validation.py:171-177 | The loop builds the dictionary in which a later step of a name replaces an earlier one |
| StepValidator.CheckCircularDependencies | services/registry/validation.py:169-200 | For every step list at all: raises if and only if the graph has a cycle, if and only if no complete topological order exists; otherwise the finishing order is one, each node was entered once and each entry examined once |
| StepValidator.SearchIsLinear | services/registry/validation.py:182-200 | At most one entry per node and one look per listed dependency |
| StepValidator.ValidateStepDependencies | services/registry/validation.py:152-167 | Accepts exactly the lists with known dependencies and an order; names the first unknown dependency in list order; recursion is never deeper than the number of steps |
| StepValidator.ValidateSteps | services/registry/validation.py:62-115 | Accepts exactly 1 to 100 steps that all have name and tool and have distinct names |
| StepValidator.ValidateStepList | services/registry/validation.py:250-255 | Accepts exactly the lists of 1 to 100 steps with name and tool, unique names, and an order that has every step once and everything a step mentions, as a string or in a list, before it; otherwise gives the one error that what was written calls for |
| StepValidator.PromisedIff | services/registry/validation.py:96-200 | What is promised of the written list is what the checks decide about the dictionary built from it |
| StepValidator.AnswerIsUnique | services/registry/validation.py:96-200 | A written list determines its answer: verdict, first failing step, first unknown dependency |
| StepValidator.MentionsListed | services/registry/validation.py:158-160 | A dependency is listed exactly when it is the string given or in the list given |
| StepValidator.SpellingDoesNotMatter | services/registry/validation.py:159-175 | Writing a dependency as a string or as a list of one changes neither verdict nor error |
| StepValidator.VerdictIgnoresOrder | services/registry/validation.py:152-200 | The verdict is the same for any two lists with the same names and dependencies, in whatever order and form |
| StepValidator.ReorderedStepsSameVerdict | services/registry/validation.py:152-200 | Permuting the steps never changes the verdict |
| RateLimiter.SlidingWindow.Check | packages/anumate-infrastructure/anumate_infrastructure/redis_manager.py:197-219 | The script's commands in order do what the specification function says, reply included |
| RateLimiter.ReplyIs | packages/anumate-infrastructure/anumate_infrastructure/redis_manager.py:203-218 | The reply in full: allowed, count and reset time from the live members later than now - window |
| RateLimiter.SlidingWindow.RemoveRangeByScore | packages/anumate-infrastructure/anumate_infrastructure/redis_manager.py:204 | The purge keeps exactly the members later than the cutoff |
| RateLimiter.EvaluateTracks | packages/anumate-infrastructure/anumate_infrastructure/redis_manager.py:203-218 | One script run answers as the never-purged log does and stays its image for every later window |
| RateLimiter.RunTracksLog | packages/anumate-infrastructure/anumate_infrastructure/redis_manager.py:203-218 | Over any run with a non-decreasing clock the expiring, purged set answers as the log does |
| RateLimiter.ExpireIsInvisible | packages/anumate-infrastructure/anumate_infrastructure/redis_manager.py:212 | Dropping the EXPIRE changes no reply of any run: verdict, count or reset time |
| RateLimiter.StoredSetIsTheWindow | packages/anumate-infrastructure/anumate_infrastructure/redis_manager.py:203-218 | After each request the stored set equals the admitted seconds later than now - window |
| RateLimiter.RefusedIff | packages/anumate-infrastructure/anumate_infrastructure/redis_manager.py:207-218 | A request is refused exactly when at least limit distinct admitted seconds are later than now - window |
| RateLimiter.WindowBound | packages/anumate-infrastructure/anumate_infrastructure/redis_manager.py:196-220 | Any interval (end - window, end], at any time, has at most limit distinct seconds with an admission |
| RateLimiter.RequestsBoundedIffLimitAtMostOne | packages/anumate-infrastructure/anumate_infrastructure/redis_manager.py:185-214 | The limit bounds requests, and not only seconds, in every run exactly when it is at most one |
| RateLimiter.BurstAdmitted | packages/anumate-infrastructure/anumate_infrastructure/redis_manager.py:209-214 | With a limit of two or more a burst of any length inside one second is admitted whole |
| RateLimiter.CountOvershoots | packages/anumate-infrastructure/anumate_infrastructure/redis_manager.py:213 | The reported count is the stored set's size exactly when the current second was not yet a member |
| ReplayGuard.InMemoryReplayGuard.CheckAndSet | packages/anumate-capability-tokens/anumate_capability_tokens/__init__.py:33-43 | The purge loop and the check do what the specification function says |
| ReplayGuard.CheckRemembers | packages/anumate-capability-tokens/anumate_capability_tokens/__init__.py:33-43 | One call answers as the full history does and keeps blocking exactly what it blocks |
| ReplayGuard.PurgingIsInvisible | packages/anumate-capability-tokens/anumate_capability_tokens/__init__.py:33-43 | Over any run with a non-decreasing clock a call is accepted iff no earlier accepted call for its id has time + ttl later than now |
| CapabilityTokens.VerifyCapabilityTokenRaw | packages/anumate-capability-tokens/anumate_capability_tokens/__init__.py:187-226 | The checks in order, with their three clock readings, do what the specification function says |
| CapabilityTokens.VerdictIs | packages/anumate-capability-tokens/anumate_capability_tokens/__init__.py:207-226 | The verdict case by case: forged, over for the decoder or the ttl, still blocked by the guard, or the payload |
| CapabilityTokens.ReplayAcceptedIffGuardReadsLate | packages/anumate-capability-tokens/anumate_capability_tokens/__init__.py:207-226 | A replay that passes the signature and expiry checks is accepted iff the guard reads its clock at or after the stored expiry |
| CapabilityTokens.StoredExpiryCoversToken | packages/anumate-capability-tokens/anumate_capability_tokens/__init__.py:42-219 | The stored expiry is never before the token's exp |
| CapabilityTokens.AcceptedAtMostOnce | packages/anumate-capability-tokens/anumate_capability_tokens/__init__.py:187-226 | At most one acceptance of a token when the clock never runs backwards and a ttl reading before exp is followed by a guard reading before exp (section 4.1.4 of RFC 7519) |
| CapabilityTokens.CrossingExpiryReplays | packages/anumate-capability-tokens/anumate_capability_tokens/__init__.py:219-224 | A run in which the clock crosses exp inside the second verification and the token is accepted twice |
| CapabilityTokens.IssuedTokenLifetime | packages/anumate-capability-tokens/anumate_capability_tokens/__init__.py:118-221 | An issued token is accepted only less than 300 seconds after issue |
| CapabilityTokens.IssuedAsAsked | packages/anumate-capability-tokens/anumate_capability_tokens/__init__.py:118-128 | More than 300 seconds are refused; an issued token carries id, tenant and the whole seconds asked for |
| CapabilityTokens.IssuedIsValid | packages/anumate-capability-tokens/anumate_capability_tokens/__init__.py:118-256 | An issued token, presented in time and for the first time, is valid for its tenant and no other |
| CapabilityTokens.WrongTenantSpendsToken | packages/anumate-capability-tokens/anumate_capability_tokens/__init__.py:244-251 | Presenting a token under the wrong tenant uses it up for the right one |
| CircuitBreaker.CircuitBreaker.Invoke | packages/anumate-http/anumate_http/__init__.py:14-32 | The method's updates of count, state and time are the specification function's |
| CircuitBreaker.StateIsHistory | packages/anumate-http/anumate_http/__init__.py:14-32 | failure_count is the number of trailing failed invocations; open iff that reaches the threshold (below one acts as one), else closed, never half-open |
| CircuitBreaker.RejectedIff | packages/anumate-http/anumate_http/__init__.py:15-19 | A call is rejected exactly when enough failures came last and the last ended no longer than the timeout ago |
| CircuitBreaker.AnswerIsTheFunctions | packages/anumate-http/anumate_http/__init__.py:21-32 | A call that is not rejected returns exactly when the function succeeds and raises otherwise |
| CircuitBreaker.EveryProbeWaits | packages/anumate-http/anumate_http/__init__.py:15-18 | In every run, an invocation that comes after enough failures in a row starts more than the recovery timeout after the last one ended |
| CircuitBreaker.ProbesAreFarApart | packages/anumate-http/anumate_http/__init__.py:15-31 | In any failing stretch of any run, the n-th invocation after the failure that trips the breaker starts more than n timeouts after that failure ended |
| CircuitBreaker.FailingStretchBound | packages/anumate-http/anumate_http/__init__.py:15-31 | A failing stretch anywhere in any run has fewer than threshold + D / recovery_timeout invocations, D measured from the tripping failure, however many calls arrive |
| IdempotentCalls.InMemoryIdempotencyStorage.Set | packages/anumate-idempotency/anumate_idempotency/__init__.py:41-44 | Inserts or refuses, never overwrites |
| IdempotentCalls.Wrapper | packages/anumate-idempotency/anumate_idempotency/__init__.py:53-62 | The wrapper run alone: refused calls find the stored value, the claimant always ends in an exception |
| IdempotentCalls.StepsAgreeWithWrapper | packages/anumate-idempotency/anumate_idempotency/__init__.py:53-62 | A call left alone goes through its atomic steps to the wrapper's outcome |
| IdempotentCalls.StepKeepsInvariant | packages/anumate-idempotency/anumate_idempotency/__init__.py:29-62 | Every step of every call keeps the claims exclusive and the store insert-only |
| IdempotentCalls.AtMostOneRunPerKey | packages/anumate-idempotency/anumate_idempotency/__init__.py:53-62 | In every interleaving the wrapped function starts at most once per key, and never for a key already stored |
| IdempotentCalls.StoredValuesNeverChange | packages/anumate-idempotency/anumate_idempotency/__init__.py:29-44 | A stored value never changes |
| IdempotentCalls.RefusedCallFinds | packages/anumate-idempotency/anumate_idempotency/__init__.py:57-58 | A caller that lost always finds a value |
| IdempotentCalls.HowCallsEnd | packages/anumate-idempotency/anumate_idempotency/__init__.py:55-62 | A call ends in an exception exactly when it ran the function; every other one ends with the value stored before or the marker; no call returns the function's result and none is stored |
| IdempotentCalls.RanIff | packages/anumate-idempotency/anumate_idempotency/__init__.py:53-62 | The calls that started the function are exactly those that claimed their key and went on |
| UniversalNewlines.ReadBackIsExact | services/capsule-registry/worm_store.py:91-164 | Text survives text-mode writing and reading exactly when it has no carriage return |
| UniversalNewlines.LineEndings | services/capsule-registry/worm_store.py:91-164 | Each of the three line endings is read as one line feed, and plain text as it is |
| WormStore.WormStorage.StoreContent | services/capsule-registry/worm_store.py:72-123 | Compare or write through a temporary file and rename: the new file store is the specification function's and the temporary file is gone |
| WormStore.WormStorage.RetrieveContent | services/capsule-registry/worm_store.py:152-164 | Gives what text mode reads from the file, or nothing |
| WormStore.DistinctFiles | services/capsule-registry/worm_store.py:75-106 | Distinct (tenant, hash) pairs have distinct files, and no content file is a temporary file |
| WormStore.PathOfHash | services/capsule-registry/worm_store.py:75-85 | Content lies below its tenant, in directories named by the first and the next two characters of its hash |
| WormStore.WriteOnce | services/capsule-registry/worm_store.py:87-98 | Whatever is stored later, a stored file keeps its text and no other pair's file appears |
| WormStore.StoreThenRetrieve | services/capsule-registry/worm_store.py:87-164 | What comes back is the text up to line endings, and exactly the text iff it has no carriage return |
| WormStore.StoringAgain | services/capsule-registry/worm_store.py:87-98 | Storing the same text again succeeds, as the idempotent operation, exactly when it has no carriage return |
| WormUri.ParseInvertsGenerate | services/capsule-registry/worm_store.py:189-226 | parse_uri inverts _generate_uri for every file: bucket without query or fragment that URL parsing accepts, as the constructor makes sure, trailing slashes included |
| WormUri.StillParses | services/capsule-registry/worm_store.py:28-205 | A bucket whose URL is accepted has generated URIs that are accepted |
| WormUri.RoundTripsIff | services/capsule-registry/worm_store.py:189-226 | For such buckets the round trip works for all tenants and hashes exactly when the bucket has neither a query nor a fragment |
| WormUri.DropYamlInverts | services/capsule-registry/worm_store.py:224 | Removing every .yaml from the file name gives back the hash |
| WormUri.DropYamlEach | services/capsule-registry/worm_store.py:224 | Every .yaml in the name is removed, wherever it stands |
| WormUri.FourOrNothing | services/capsule-registry/worm_store.py:214-226 | The fourth component from the end and the last are taken; a URI with three components is refused |
| WormUri.NoiseIsDropped | services/capsule-registry/worm_store.py:217 | Empty and dot components make no difference |
| WormUri.WorkingDirectoryIff | services/capsule-registry/worm_store.py:25-32 | The storage directory of a file URL is the working directory or relative to it exactly when there is an authority and no slash after it before a query or fragment, or no authority and no slash at the start |
| WormUri.AuthorityMeansAbsolute | services/capsule-registry/worm_store.py:29-31 | After an authority the path is what follows, absolute or empty |
| WormUri.DocumentedBucketIsAbsolute | services/capsule-registry/worm_store.py:20-31 | The documented example bucket is the directory /_worm at the root |
| WormUri.HostOnlyBucketIsWorkingDirectory | services/capsule-registry/worm_store.py:25-32 | file://_worm has an empty path, so its directory is the working directory |
| RegistryModels.Session.Commit | services/capsule-registry/models.py:75-193 | A transaction applies all pending changes against keys, foreign keys and checks, or none |
| CapsuleRepository.CreateCommits | services/capsule-registry/repo.py:80-127 | The create transaction goes through exactly when id and name are free and the blob is acceptable, and then makes exactly the four changes |
| CapsuleRepository.CreateOutcome | services/capsule-registry/repo.py:73-144 | Under an unused key a create succeeds exactly when no constraint refuses it; it is a conflict exactly when an active capsule has the name, and an integrity failure otherwise |
| CapsuleRepository.DeletedNameStaysTaken | services/capsule-registry/repo.py:73-79 | When a capsule has the name, creating it again is a conflict or, if that capsule is deleted, an integrity failure |
| CapsuleRepository.DeletedNameExample | services/capsule-registry/repo.py:73-294 | Creating, deleting and creating again under the same name ends in an integrity failure |
| CapsuleRepository.PublishCommits | services/capsule-registry/repo.py:194-245 | When the next number is free the publish transaction goes through exactly when the blob is acceptable |
| CapsuleRepository.PublishRowsApply | services/capsule-registry/repo.py:208-245 | What committing a publisher's rows does to tables that have changed since it read them |
| CapsuleRepository.CreatedIsConsistent | services/capsule-registry/repo.py:80-127 | A create keeps numbering, distinct hashes, backing blobs and unique names |
| CapsuleRepository.PublishedIsConsistent | services/capsule-registry/repo.py:194-245 | A publish keeps numbering, distinct hashes, backing blobs and unique names |
| CapsuleRepository.DeleteKeepsConsistent | services/capsule-registry/repo.py:316-339 | A hard delete with its cascade keeps them too |
| CapsuleRepository.Repository.StoreBlob | services/capsule-registry/repo.py:453-468 | Adds a blob row only if the tenant has none for the hash |
| CapsuleRepository.Repository.Create | services/capsule-registry/repo.py:28-144 | Replay, conflict, refusal by a constraint or commit of all rows, ending in the specification function's tables and idempotency record |
| CapsuleRepository.Repository.Publish | services/capsule-registry/repo.py:146-262 | Replay, not found, conflict, refusal or commit of the next version, ending in the specification function's tables and record |
| CapsuleRepository.Repository.UpdateStatus | services/capsule-registry/repo.py:264-314 | Etag comparison, status and new etag, audit entry |
| CapsuleRepository.Repository.HardDeleteCapsule | services/capsule-registry/repo.py:316-343 | Removes the capsule, its versions and its audit entries; blobs stay |
| CapsuleRegistry.RegistryService.CreateCapsule | services/capsule-registry/service.py:43-124 | Permission, size, validation, write-once store and repository, in that order |
| CapsuleRegistry.RegistryService.PublishVersion | services/capsule-registry/service.py:126-218 | Permission, existence, version limit, size, validation, write-once store and repository, in that order |
| CapsuleRegistry.RegistryService.GetCapsuleVersion | services/capsule-registry/service.py:350-401 | Access check, version, blob or write-once fallback, empty text as not found |
| CapsuleRegistry.RegistryService.UpdateCapsuleStatus | services/capsule-registry/service.py:444-493 | Permission and access before the conditional update |
| CapsuleRegistry.RegistryService.DeleteCapsule | services/capsule-registry/service.py:495-521 | Permission and existence before the hard delete |
| RegistryRuns.StepIsChange | services/capsule-registry/service.py:43-530 | Every service operation changes the tables by nothing or by exactly one possible transition |
| RegistryRuns.StepKeepsSound | services/capsule-registry/service.py:80-196 | Every operation keeps tables consistent, audit faithful, blobs in step with files and versions within the limit |
| RegistryRuns.RunKeepsSound | services/capsule-registry/service.py:43-530 | Every run of operations keeps all of that |
| AuditTrail.CreatedIsFaithful | services/capsule-registry/repo.py:111-125 | After a create every capsule's audit entries still reproduce it |
| AuditTrail.PublishedIsFaithful | services/capsule-registry/repo.py:224-243 | After a publish every capsule's audit entries still reproduce it |
| AuditTrail.StatusSetIsFaithful | services/capsule-registry/repo.py:287-307 | After a change of status every capsule's audit entries still reproduce it |
| AuditTrail.RemovalIsFaithful | services/capsule-registry/repo.py:325-338 | A hard delete leaves every other capsule's entries reproducing it |
| RegistryRuns.AuditReproducesEveryCapsule | services/capsule-registry/repo.py:111-307 | After any run from empty, a live capsule's entries alone give its status, latest version and all hashes; one entry makes each version, and latest - 1 are publishes |
| RegistryReads.ReadsComeFromBlobs | services/capsule-registry/service.py:369-385 | Reading any version of an accessible capsule succeeds from its blob; the fallback never answers |
| RegistryReads.FallbackAgreesIff | services/capsule-registry/service.py:369-379 | Blob and write-once fallback agree up to line endings, and exactly iff the blob has no carriage return |
| RegistryReads.MadeVersionText | services/capsule-registry/repo.py:453-468 | Right after a publish or create the blob is the submitted text, exactly iff no blob with a carriage return was there for the content |
| RegistryReads.SubmittedTextReadBack | services/capsule-registry/service.py:80-379 | While the capsule is live readers get the submitted text up to line endings, and exactly iff no blob with a carriage return was stored for the content before |
| RegistryReads.ForeignLineEndings | services/capsule-registry/service.py:369-379 | A run of two creates from the empty registry after which a reader gets another capsule's line endings |
| RegistryAnswers.CreateAnswers | services/capsule-registry/service.py:43-124 | A create under an unused key, answer by answer: permission, size, validation, write-once store, active name, id and name and blob, or the receipt of version 1 |
| RegistryAnswers.CreateReplayAnswers | services/capsule-registry/repo.py:51-66 | A create under a used key: not found without the capsule it names, otherwise its latest version |
| RegistryAnswers.CreatedAsAsked | services/capsule-registry/repo.py:80-127 | A create leaves the capsule asked for, with its tenant, name, owner and visibility, its first version, one audit entry by the caller, and the rest as it was |
| RegistryAnswers.CreatedForGood | services/capsule-registry/repo.py:80-127 | Tenant, name, owner and visibility stay those of the create while the capsule is live |
| RegistryAnswers.PublishOutcome | services/capsule-registry/repo.py:180-262 | Under an unused key a publish succeeds exactly when the capsule is there, active, without the content, and the blob acceptable; it is a conflict exactly when the capsule is deleted or has the content |
| RegistryAnswers.PublishAnswers | services/capsule-registry/service.py:126-218 | A publish under an unused key through the service, answer by answer |
| RegistryAnswers.PublishReplayAnswers | services/capsule-registry/repo.py:165-178 | A publish under a used key: the version with the number remembered, if the capsule has it |
| RegistryAnswers.PublishedAsAsked | services/capsule-registry/repo.py:194-245 | A publish leaves the next version, its number and a new etag on the capsule, one audit entry by the caller, and the rest as it was |
| RegistryAnswers.EffectsBesideRows | services/capsule-registry/service.py:83-196 | A create or publish records its key and adds its blob exactly when it makes a version, and stores its file exactly when it gets past permission, capsule, limit, size and validation |
| RegistryAnswers.PublishesActiveOnly | services/capsule-registry/repo.py:188-192 | A version is made only of an active capsule of the caller's tenant below the limit |
| RegistryAnswers.NoVersionWhileDeleted | services/capsule-registry/repo.py:188-192 | Between its deletion and its restoration a capsule stays deleted and gets no version, in any run |
| RegistryAnswers.ReadAnswers | services/capsule-registry/service.py:350-401 | A read in any state: who may see the capsule, which version, blob before file, and not found otherwise |
| RegistryAnswers.ReadableIff | services/capsule-registry/service.py:549-559 | On a sound registry a read succeeds exactly for existing versions of capsules of the reader's tenant that are public there, the reader's own, or read by an admin |
| RegistryAnswers.PrivateStaysPrivate | services/capsule-registry/service.py:549-559 | After any run, a capsule created private is read by its owner and its tenant's admins only |
| RegistryAnswers.StatusAnswers | services/capsule-registry/service.py:444-493 | A status change answer by answer, and exactly the row fields and the audit entry it leaves |
| RegistryAnswers.RemovalAnswers | services/capsule-registry/service.py:495-521 | A hard deletion answer by answer, and that nothing but the capsule, its versions and its audit entries goes |
| RegistryAnswers.SizeOfText | services/capsule-registry/service.py:67-71 | The size checked is the number of UTF-8 bytes (section 3 of RFC 3629) |
| TenantIsolation.StepIsolates | services/capsule-registry/service.py:43-530 | Whatever an operation of one tenant does, another tenant's capsules, versions, blobs and files stay as they are |
| TenantIsolation.OthersNeverChangeReads | services/capsule-registry/service.py:350-401 | No run of other tenants' operations changes what a tenant's users read |
| RegistryRetries.KnownKeyChangesNoTable | services/capsule-registry/repo.py:51-178 | A request under a used key changes no table and no record |
| RegistryRetries.KeyMakesAtMostOnce | services/capsule-registry/repo.py:51-256 | Over any run each key makes at most one version, whatever operations share it |
| RegistryRetries.ReplaysNeverCrash | services/capsule-registry/service.py:117-119 | A replay always finds the version record that the service dereferences |
| RegistryRetries.PublishReplayReturnsOriginal | services/capsule-registry/repo.py:165-178 | A publish replay returns the original record however many versions were published since |
| RegistryRetries.CreateReplayReturnsLatest | services/capsule-registry/repo.py:51-66 | A create replay returns the latest version, number 1 + publishes since: the original exactly when there were none |
| RegistryRetries.CreateReplayExample | services/capsule-registry/repo.py:51-66 | Create, publish, and the retried create is answered with version 2 |
| RegistryRetries.LatestCountsPublishes | services/capsule-registry/repo.py:194-245 | A live capsule's latest version grows by exactly the publishes of the run |
| RegistryRetries.PublishRetryAnsweredIff | services/capsule-registry/service.py:150-182 | The service answers a retried publish, with the original, exactly when the capsule is below the version limit and the text has no carriage return |
| RegistryRetries.LimitBeforeKeyExample | services/capsule-registry/service.py:150-155 | With room for two versions: create, publish, and the retried publish is a conflict |
| RegistryRetries.CreateRetryAnsweredIff | services/capsule-registry/service.py:83-106 | The service answers a retried create exactly when the text has no carriage return |
| RegistryRetries.RetryRefusedExample | services/capsule-registry/worm_store.py:87-98 | Creating with a carriage return and retrying ends in a storage failure |
| RegistryEtags.EtagMeansUnmodified | services/capsule-registry/repo.py:224-292 | A capsule still has the etag read earlier exactly when no publish, status change or deletion of it has committed since |
| RegistryEtags.ConditionalUpdateIff | services/capsule-registry/repo.py:264-310 | A status update with an etag read earlier succeeds exactly when nothing has modified the capsule since (section 13.1.1 of RFC 9110) |
| Publishing.CommitSucceedsIff | services/capsule-registry/models.py:119 | The unique index as optimistic lock: a publisher's commit goes through exactly when the latest version is the one it loaded and its blob is still needed |
| Publishing.SecondLookupFits | services/capsule-registry/repo.py:180-186 | The second lookup finding the tenant's row makes the tenant certain; the number stays the one loaded first |
| Publishing.CommitIsAtomicPublish | services/capsule-registry/repo.py:180-245 | A commit that goes through does exactly what one atomic publish would do |
| Publishing.CommitIsNewContent | services/capsule-registry/repo.py:198-207 | The content of a commit that goes through is new to the capsule at that moment, so an atomic publish would not have refused it |
| Publishing.StoreStepKeeps | services/capsule-registry/service.py:180-185 | A publisher's write to the write-once store, taken or refused, keeps blobs and files in step and everybody's knowledge true |
| Publishing.AfterCommitKeeps | services/capsule-registry/repo.py:208-245 | A commit that goes through keeps the tables consistent, the audit faithful, blobs and files in step, and what all other publishers have read true |
| Publishing.CreateKeepsIff | services/capsule-registry/repo.py:69-127 | A create that goes through keeps all of that exactly when it is compatible with every publisher on the id it takes that is between the service's lookup and its commit |
| Publishing.StepKeepsIff | services/capsule-registry/repo.py:51-339 | Any step of a publisher, status update, create or deletion keeps all of that exactly when it is not such an incompatible create |
| Publishing.InOrderIff | services/capsule-registry/repo.py:51-339 | An interleaving is in order after each of its steps exactly when none of its creates is incompatible with a publisher in flight |
| Publishing.EveryInterleavingIsConsistent | services/capsule-registry/service.py:143-202 | In every interleaving versions stay exactly 1..latest with distinct hashes, the audit reproduces every capsule, and blobs fit their files, if no create takes an id that a publisher holds between the service's lookup and its commit |
| CapsuleHistories.StepKeepsOrder | services/capsule-registry/repo.py:51-339 | Whatever any action does, incompatible creates on other ids included, a capsule whose id it does not create keeps its rows in order and its publishers informed |
| CapsuleHistories.EveryCapsuleStaysInOrder | services/capsule-registry/repo.py:180-262 | In every interleaving at all, a capsule whose id no create takes has versions exactly 1..latest, of its tenant, with distinct hashes |
| CapsuleHistories.AtMostOnePublisherSucceeds | services/capsule-registry/repo.py:180-262 | Of all concurrent publishers of one content to one capsule, retries included, at most one makes a version, unless a create takes that id |
| CommitOrder.StepConsistentIff | services/capsule-registry/repo.py:51-339 | An action keeps consistent tables consistent exactly when it is not a commit that goes through although what its publisher read no longer holds |
| CommitOrder.ConsistentIff | services/capsule-registry/repo.py:51-339 | In any interleaving the tables are consistent after each step exactly when every commit that goes through finds tenant, latest version and absence of the content as read |
| TakenIds.CommitConsistentIff | services/capsule-registry/repo.py:194-245 | A commit that goes through leaves the tables consistent exactly when tenant, latest version and absence of the content are still as the publisher read them |
| TakenIds.TakenIdIff | services/capsule-registry/repo.py:69-262 | When a create takes the id of a publisher anywhere between the service's lookup and its commit, and that goes on alone, the tables stay consistent exactly when the create is compatible with it or it is refused for another reason |
| TakenIds.TakeOverIff | services/capsule-registry/repo.py:69-339 | After a take-over tenants agree exactly when the tenants were the same, numbers have no gap exactly when version 1 had been read, contents are distinct exactly when the new one is different |
| TakenIds.SameContentBreaks | services/capsule-registry/repo.py:196-245 | A run from one capsule and one publisher to a capsule with the same content twice |
| TakenIds.OtherTenantBreaks | services/capsule-registry/repo.py:181-245 | A run to a capsule with another tenant's version |
| TakenIds.LaterVersionBreaks | services/capsule-registry/repo.py:194-245 | A run to a capsule with versions 1 and 3 only |
| TakenIds.BetweenLookupsBreaks | services/capsule-registry/service.py:143-196 | A run in which the id is taken between a publisher's two lookups and the tables end up inconsistent |
| SharedKeys.SharedKeyIff | services/capsule-registry/repo.py:165-256 | Two publishers that could each publish under one unused key can both make a version exactly when they publish to different capsules, or different contents to one with room for two more versions |
| SharedKeys.SharedKeyExample | services/capsule-registry/repo.py:165-256 | One capsule and two publishers with one key that can both make a version, and cannot when there is room for one |
| VersionLimit.NumberIsCarried | services/capsule-registry/service.py:143-202 | The version number that is compared with the limit is the one that the publisher carries to its commit |
| VersionLimit.LimitHolds | services/capsule-registry/service.py:150-155 | In every interleaving at all, creates included, no capsule and no version goes past the limit or, if that is larger, the version the capsule started with |
| VersionLimit.TwoNeedRoom | services/capsule-registry/service.py:150-155 | Two publishers of one capsule that both make a version had room for two when the run started, even if the capsule is deleted on the way |
| VersionLimit.OneContentOneVersion | services/capsule-registry/repo.py:194-245 | Publishers of one content make at most one version of a capsule between them, however many they are |
| PublisherReads.StepKeepsContent | services/capsule-registry/worm_store.py:87-110 | Any action, in whatever state the other tables are, keeps blobs and files in step and every publisher past its store step in possession of its file |
| PublisherReads.PublishedTextReadBack | services/capsule-registry/service.py:180-379 | Whenever in an interleaving a publisher commits, and whatever follows, readers get its text up to line endings, and exactly iff no blob was there or it agrees on having a carriage return |
| PublisherReads.OvertakenExample | services/capsule-registry/service.py:180-202 | A run in which the publisher that stored a document first commits after another text of it became the blob |
| PublisherAnswers.AloneAsTheService | services/capsule-registry/service.py:126-218 | A publisher left alone ends with the tables, results, files and answer of the service's publish |
| PublisherAnswers.NewResultsAreCommitted | services/capsule-registry/repo.py:247-256 | In every interleaving a new result under a key names the capsule and the number that a publisher with that key committed, as the ledger has it while no create takes the id |
| PublisherAnswers.ReplaysGoByTheKey | services/capsule-registry/repo.py:165-178 | In every interleaving a replay goes by the number of a result that was there at the start or that a publisher with its key committed |
| CapsuleListing.ListCapsules | services/capsule-registry/service.py:261-325 | Permission, a page cut from the selected rows, then the visibility filter; totals as reported |
| CapsuleListing.PagesMakeUpFullList | services/capsule-registry/service.py:293-315 | Pages 1 to total_pages one after the other are exactly the visible selected capsules in order |
| CapsuleListing.PageShows | services/capsule-registry/repo.py:400-411 | Page p shows the visible ones of the selected rows (p - 1) * size to p * size |
| CapsuleListing.PagesAreJustEnough | services/capsule-registry/service.py:315 | The reported number of pages is the least with room for all selected rows |
| CapsuleListing.LaterPagesAreEmpty | services/capsule-registry/repo.py:400-411 | Every later page is empty |
| CapsuleListing.TotalsAddUp | services/capsule-registry/service.py:322 | total_items counts the page only; the pages' sum counts all visible capsules |
| CapsuleListing.FullListIsExact | services/capsule-registry/service.py:549-559 | The full list has exactly the rows of the tenant and status asked for that the search finds, that are recent enough, and that are public, the caller's own or listed for an admin, as often as the table has them |

## Left out

- YAML parsing, canonical JSON, SHA-256, field patterns and step fields that are not strings: the parsed step list and a validation function from text to hash are given.
- A `depends_on` that is explicitly null: iterating over it raises a type error in the original; the model has absent, one name, or a list.
- Tags, creation times, signatures and the stored uri of capsules and versions: they are carried along unread. Descriptions and update times appear only in listing, where the text search is a given predicate.
- CapsuleRegistry.RegistryService.CreateCapsule: signing the hash and publishing the event are left out; the signature is carried along unread and events go to another system.
- CapsuleRegistry.RegistryService.PublishVersion: signing the hash and publishing the event are left out, for the same reasons.
- CapsuleRegistry.RegistryService.GetCapsuleVersion: the optional redaction of the text before it is returned is left out.
- CapsuleRegistry.RegistryService.UpdateCapsuleStatus: publishing the event is left out.
- CapsuleRegistry.RegistryService.DeleteCapsule: publishing the event is left out.
- StepValidator.ValidateStepList: size, YAML, the remaining schema and the canonical hash of a complete validation are left out; the parsed step list is given.
- Linting, HTTP routes, tracing and settings.
- Sessions: a publisher keeps the latest version and the status from its first lookup of the capsule, and nothing else; the capsule's tenant is compared by each lookup with the committed row. Sessions shared between publishers, and transactions that read a snapshot instead of what is committed, are left out.
- Permission, size and validation come before a publisher's first interleaved step; they read no table.
- Publishing.CreateStep: a create is one atomic step among concurrent publishers, because only publishing is split; its own name lookup and commit do not interleave.
- Status updates that interleave with each other inside one update, and two writers inside one file write: both are atomic here.
- A process that stops between commit and the idempotency record, except as an interleaving in which a publisher never takes its last step.
- I/O failures of the write-once store: only its collision error is modelled.
- WormUri.ParseInvertsGenerate: does not model that URL parsing first deletes tab, carriage return and line feed, nor a `file` scheme spelled with capitals; buckets are taken without them. Which authorities URL parsing accepts is an arbitrary predicate.
- RateLimiter.ExpireIsInvisible: takes the clock of the caller and that of the store to be the same; with skew an early expiry could admit more.
- ReplayGuard.PurgingIsInvisible: times are real numbers, so floating-point rounding of time + ttl is not modelled.
- The legacy token functions without a ttl check, and `token_generator.py`.
- CircuitBreaker.StateIsHistory: calls do not overlap, and a wrapped function ends by returning or by an ordinary exception; an exit such as a keyboard interrupt passes the original's handler by.
- IdempotentCalls.AtMostOneRunPerKey: the check and the insert of the in-memory storage are one step, as they are for the Redis storage; threads that interleave inside that `set` are not modelled.
- `services/registry/{repo,service,worm_store}.py`, a second registry; the modelled one is `services/capsule-registry`.

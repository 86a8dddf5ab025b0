# ShadowMesh: a verified model of the gateway and node engines

ShadowMesh serves content addressed by BLAKE3 hash over a peer-to-peer network. Its gateway and its node
runner each contain a number of small stateful engines. This project models them in Dafny and proves what
they promise over whole runs:

- **Peer-to-peer event loop** (`P2pEventLoop`, `P2pResolver`, `Fragments`): five maps of callers waiting for
  a reply. Every reply handle is accounted for in every interleaving; what arrives intact reaches its caller,
  and what a caller gets as content is the content, end to end (`P2pDelivery`).
- **Verified store** (`ContentStore`): a node files remote content only after all of it hashes to the name
  asked for, and keeps it that way.
- **Rate limiter** (`RateLimit`): a fixed window plus a refilling bucket with truncating, wrapping
  arithmetic; an account of every admission bounds any run.
- **Allocator, indexes and caches** (`ProcessManager`, `ProcessHealth`, `Cache`, `KvStore`, `ApiKeys`,
  `Signaling`): each refines, or is kept inverse to, something simpler.
- **Circuit breaker and node selection** (`CircuitBreaker`, `NodeHealth`, `StableSort`): the breaker one call
  at a time and with its atomic steps interleaved, and the four selection strategies built on it.
- **Text and routes** (`HtmlRewrite`, `Text`, `RouteManifest`): multi-pass replacements that amount to one
  pass, and matching by specificity.

`Common` and `Crypto` hold what these share. Engines that the source updates in place are classes whose
methods are proved against functions on values; runs of these functions carry the lemmas. Instants are
explicit arguments. BLAKE3, SHA-256, the digest of a name, upper case, and lower case outside ASCII are
uninterpreted functions; where a result needs an absence of collisions it says so, or offers the collision
as the alternative.

## Where the code differs from what one would expect

- The half-open breaker is described as admitting limited requests; it admits every request until one
  reports back (`CircuitBreakers.HalfOpenAdmitsEveryRequest`).
- With concurrent calls the breaker can end up closed with its limit already counted, or half-open at the
  instant of a fresh failure, when a failure report that began earlier finishes late (`LateFailureOvercounts`,
  `LateFailureLeavesTrialEarly`). Which steps do this, and that no others do, is `SettledThroughoutExactlyWhen`
  and `TrialSoundThroughoutExactlyWhen`. No trial ever begins too early (`TrialsAreDue`).
- A failure report reads the clock before it takes the lock, so the failure on record need not be the latest
  (`RecordSetBackAllowsEarly`, `LatestThroughoutExactlyWhen`).
- Without Redis an API key stops validating 30 s after its creation or last rotation, while a lookup by id
  still shows it as enabled (`ApiKeys.StoreIsOneTable`).
- A failed spawn loses its port for good, and so does one that replaces a process
  (`ProcessManager.SpawnLeaksExactlyWhen`, `ExhaustionIsFinal`). Requested restarts ignore the maximum.
- A caller building a circuit is left waiting by an error response, and by the step to a further hop
  (`P2pEventLoop.OnlyResponseSettlesOrStrands`, `StrandedForever`). As every circuit has a further hop, no
  build ever completes (`NoBuildEverCompletes`); nothing in the gateway sends the two commands that lemma
  keeps off unfinished circuits. So with relaying on, resolving either times out, although a direct fetch might
  succeed, or comes down to the direct fetches (`P2pResolver.RelayingNeverHelps`, `ExtendedCircuitRunsOutOfTime`).
- The gateway's resolver accepts any manifest for a content id, so a peer can serve something else
  (`P2pResolver.AnyManifestIsAccepted`); what a fetch does return is `FetchReturnsExactlyWhen`.
- Rewriting a page twice inserts a prefix such as /{cid}/ or /{name}/ twice
  (`HtmlRewrite.RewritingTwiceDoublesThePrefix`).
- Reads and cleanups of the key-value store can be noticed: an expired entry fills its namespace until
  something removes it (`KvStore.ReadingExpiredKeyMakesRoom`, `GoUnnoticedExactlyWhen`), and a deletion tells
  whether it is still there (`DeletionNoticesReading`).
- A client that is away long enough can find its bucket empty, since the 32-bit refill product wraps
  (`RateLimit.LongAbsenceIsObservable`, `LongWaitIsRefused`). With the default burst of 50 the product first
  wraps after about 24 hours.
- Announcing a second id over one connection leaves an orphan that nothing removes
  (`Signaling.SecondAnnounceLeavesOrphan`, `OrphanStays`).
- The largest burst that cannot overflow under the cleanup schedule is 23861
  (`RateLimit.BurstFitsScheduleExactlyWhen`).
- The advertised retry time can be one tick too short for a client without a burst allowance.
- Storing a fragment under a name already taken counts its size again (`ContentStore.UploadCountsExactlyWhen`).
- Range 0 to 65535 has 65536 ports, of which saturation leaves out the last (`ProcessManager.PortCount`).
- A comment in the rewriter says that absolute paths are left alone when a base tag is present; the loop
  rewrites them in any case, and so does the model.

## Model

| member | source | states |
|---|---|---|
| `P2pEventLoop.EventLoop.HandleCommand` | gateway/src/p2p.rs:1450-1768 | a command leaves the loop in exactly the state the step relation gives, including the handle it overwrites under a reused key |
| `P2pEventLoop.EventLoop.HandleBuildCircuit` | gateway/src/p2p.rs:1614-1678 | a circuit build is refused when relaying is off, with fewer than two peers, or when the client cannot build; otherwise its caller waits and one cell is tracked |
| `P2pEventLoop.EventLoop.HandleFetchViaCircuit` | gateway/src/p2p.rs:1700-1766 | a relayed fetch waits under its circuit and tracks one cell to the entry node, or is refused |
| `P2pEventLoop.EventLoop.ForwardCell` | gateway/src/p2p.rs:857-960 | a relayed cell is forwarded under a tracked request that remembers where the answer goes |
| `P2pEventLoop.EventLoop.HandleContentResponse` | gateway/src/p2p.rs:1000-1142 | a response frees its request and has the one effect its pending entry calls for |
| `P2pEventLoop.EventLoop.ReplyToPending` | gateway/src/p2p.rs:1069-1142 | fragment and manifest callers get the reply their request and the response determine; nobody else is answered |
| `P2pEventLoop.EventLoop.ResolvePending` | gateway/src/p2p.rs:1335-1363 | an error answers fragment and manifest callers and nobody else |
| `P2pEventLoop.EventLoop.HandleRelayCellResponse` | gateway/src/p2p.rs:1149-1330 | a relay cell settles a build, advances it by a hop, or settles a fetch |
| `P2pEventLoop.EventLoop.HandleOutboundFailure` | gateway/src/p2p.rs:573-604 | a failed request is removed and its fragment or manifest caller told so |
| `P2pEventLoop.EventLoop.HandleNameRecord` | gateway/src/p2p.rs:1366-1447 | the outcome of a name lookup goes to some waiting name with the record's digest, if there is one |
| `P2pEventLoop.EventLoop.HandleContentRecord` | gateway/src/p2p.rs:1393-1441 | the outcome of a provider lookup goes to the caller waiting for the content |
| `P2pEventLoop.EventLoop.CleanUp` | gateway/src/p2p.rs:248-256 | a cleanup tick discards exactly the waiting entries of the first three maps whose receiver is gone |
| `P2pEventLoop.StepKeepsInv` | gateway/src/p2p.rs:148-296 | every possible event keeps every reply handle in exactly one place and every answered fragment verified |
| `P2pEventLoop.EveryHandleIsAccountedFor` | gateway/src/p2p.rs:148-296 | over every interleaving, a handle some command brought waits in one slot, or was answered once, or was discarded by an event, and never two of these; no other handle is ever answered |
| `P2pEventLoop.RunIssues` | gateway/src/p2p.rs:1450-1768 | the handles a run leaves on record are exactly those its commands brought |
| `P2pEventLoop.DroppedExactlyWhenDiscarded` | gateway/src/p2p.rs:248-256 | over any run a handle ends up dropped exactly when some event discards it where it waits |
| `P2pEventLoop.FragmentDataIsVerified` | gateway/src/p2p.rs:1069-1096 | in every run, data sent on the channel of a fragment command hashes to the fragment that command names |
| `P2pEventLoop.StepFate` | gateway/src/p2p.rs:148-296 | what one event may do to a handle already issued: nothing, answer it, or drop it |
| `P2pEventLoop.OutcomesAreFinal` | gateway/src/p2p.rs:1335-1363 | no later event answers or drops a handle a second time |
| `P2pEventLoop.FetchIsAnswered` | gateway/src/p2p.rs:1000-1142 | any response or failure for a tracked fragment or manifest request frees its slot and answers its caller once; which reply that is says `FragmentIsDelivered` and `ManifestIsDelivered` |
| `P2pDelivery.FragmentIsDelivered` | gateway/src/p2p.rs:1066-1142 | over any run, the first report on a fragment command whose caller stays tells that caller the data exactly when they hash to the fragment the command names, and otherwise a peer error; not-found, any other response and a failed connection each have their own answer |
| `P2pDelivery.ManifestIsDelivered` | gateway/src/p2p.rs:1066-1142 | the same for a manifest command, which gets the manifest as it came |
| `P2pDelivery.AnsweredExactlyWhenSettled` | gateway/src/p2p.rs:300-1447 | one event answers a waiting caller exactly when it settles the slot where it waits: the report on its request, the outcome of its lookup, or a cell on its circuit that ends the build or relays an answer |
| `P2pDelivery.RepliedExactlyWhenSettled` | gateway/src/p2p.rs:148-296 | over every interleaving a caller is replied to exactly when its command is refused at once or some event settles the slot where it waits |
| `P2pDelivery.WaitingCallerIsTold` | gateway/src/p2p.rs:1149-1447 | what callers of lookups, circuit builds and relayed fetches are told by the event that settles them |
| `P2pDelivery.ExtendingCountsHop` | gateway/src/p2p.rs:1175-1225 | a cell that asks to extend a circuit counts one more hop, answers nobody and leaves no request tracked |
| `P2pDelivery.ForwardedAnswerGoesBack` | gateway/src/p2p.rs:1018-1053 | over any run, the first report on a cell passed on for a peer leads to one tracked cell back to that peer, or to nothing |
| `P2pEventLoop.DroppedExactlyWhen` | gateway/src/p2p.rs:248-256 | a waiting handle is discarded unanswered exactly by a command that overwrites its slot or a tick that finds its receiver gone |
| `P2pEventLoop.StrandedForever` | gateway/src/p2p.rs:1200-1204 | a build whose caller waits with no tracked cell on its circuit waits through every run without a further command for the circuit |
| `P2pEventLoop.OnlyResponseSettlesOrStrands` | gateway/src/p2p.rs:1351-1355 | the outcome of a circuit's only tracked cell settles the build, or strands it; errors, failures and a hop to extend strand it |
| `P2pEventLoop.StrandedFetchForever` | gateway/src/p2p.rs:1264-1330 | a relayed fetch whose caller waits with no tracked cell on its circuit waits through every run without a further command for the circuit |
| `P2pEventLoop.OnlyResponseSettlesOrStrandsFetch` | gateway/src/p2p.rs:1351-1355 | the outcome of a circuit's only tracked cell settles its fetch, or strands it; everything but a relayed answer strands it |
| `P2pEventLoop.NoBuildEverCompletes` | gateway/src/p2p.rs:1176-1262 | with fresh circuit numbers, no cell sent over an unfinished circuit, and completion only at the last hop, no caller is ever told that its circuit is ready |
| `P2pResolver.FetchFromPeer` | gateway/src/p2p_resolver.rs:190-232 | the fetch succeeds exactly when the manifest and every fragment arrive, and returns them in manifest order |
| `P2pResolver.AssembledExactlyWhen` | gateway/src/p2p_resolver.rs:211-226 | the assembled bytes are the concatenation of the fragments in order |
| `P2pResolver.FetchReturnsTheContent` | gateway/src/p2p_resolver.rs:190-232 | given the manifest made for some data, a fetch that succeeds returns exactly that data, whatever the peer sends, or exhibits a hash collision |
| `P2pResolver.FetchReturnsExactlyWhen` | gateway/src/p2p_resolver.rs:190-232 | with fragments verified, a successful fetch returns given data exactly when the manifest names the parts of some way to cut it up, or exhibits a hash collision |
| `P2pResolver.AnyManifestIsAccepted` | gateway/src/p2p_resolver.rs:190-232 | a peer that serves other content, with its own manifest, has it accepted |
| `P2pResolver.ContentSurvivesTheNetwork` | gateway/src/p2p_resolver.rs:190-232 | the same end to end over any run of the event loop that contains the fragment commands |
| `P2pDelivery.IntactContentArrives` | gateway/src/p2p_resolver.rs:190-232 | and a content that arrives intact is delivered: when the manifest command and each fragment command of a run are answered with the manifest of some data and its chunks, the fetch returns that data |
| `P2pResolver.ResolveContent` | gateway/src/p2p_resolver.rs:45-124 | the result is the first success among the attempts through a circuit and then directly, or the last failure, or a timeout while the circuit is awaited |
| `P2pResolver.ResolvedExactlyWhen` | gateway/src/p2p_resolver.rs:45-124 | unless it stalls on a circuit, resolving succeeds exactly when some attempt does, with the first success; otherwise it reports the last failure |
| `P2pResolver.RelayingNeverHelps` | gateway/src/p2p_resolver.rs:126-188 | over regular runs of the event loop relaying contributes nothing: resolving times out or comes down to the direct fetches |
| `P2pResolver.ExtendedCircuitRunsOutOfTime` | gateway/src/p2p_resolver.rs:29-43 | once the outcome of a circuit's first cell leaves its build waiting, resolving ends only by the timeout, and the direct fetches are never made |
| `P2pResolver.ResolveViaCircuit` | gateway/src/p2p_resolver.rs:126-188 | the attempts through a circuit are made in provider order and stop at the first success |
| `P2pResolver.FirstSuccessIsTheContent` | gateway/src/p2p_resolver.rs:45-124 | with honest manifests, what the resolver returns is the content |
| `Fragments.FragmentContent` | protocol/src/fragments.rs:32-55 | the manifest lists the hash of each chunk in order, ceil(n / chunk size) of them, and the hash of the whole |
| `Fragments.ChunksPartition` | protocol/src/fragments.rs:36-43 | the chunks concatenate to the content, are never empty, and all but the last are full |
| `Fragments.ReassembleFragments` | protocol/src/fragments.rs:69-75 | the payloads are joined in the order of a stable sort by index |
| `Fragments.ReassemblyUndoesFragmentation` | protocol/src/fragments.rs:32-81 | any permutation of a content's numbered fragments reassembles to the content, and every fragment verifies |
| `ContentStore.Node.StoreFragment` | node-runner/src/storage.rs:174-239 | a fragment is stored and counted if it fits and has a valid name |
| `ContentStore.Node.UploadContent` | node-runner/src/api.rs:500-624 | an upload is stored under its own hash, within the cap, whole or not at all |
| `ContentStore.Node.FetchRemoteContent` | node-runner/src/api.rs:694-935 | the checks, caps and outcomes of a fetch in the source's order, each failure with its own outcome |
| `ContentStore.Node.FetchFragments` | node-runner/src/api.rs:794-890 | fragments are collected in manifest order under the per-fragment and the running cap, with the first failure, and the hasher is fed exactly their concatenation |
| `ContentStore.Node.DownloadContent` | node-runner/src/api.rs:626-690 | a download sends the fragments of the content in order, or fails when one is missing |
| `ContentStore.FetchStaysSound` | node-runner/src/api.rs:794-931 | a fetch files content exactly when it reports so; what it files arrived within the caps, hashes to a hex digest asked for, and is what a download returns |
| `ContentStore.FetchChangesOnlyWhenVerified` | node-runner/src/api.rs:794-931 | a fetch that changes anything in the store, rejected or not, has before received all of the content within the caps and, for a hex digest, found that it hashes to it |
| `ContentStore.EveryFragmentWasVerified` | node-runner/src/api.rs:794-931 | over any run of uploads and fetches, trusting nobody, every stored fragment was uploaded or belongs to a content that had been verified as a whole |
| `ContentStore.EveryContentWasVerified` | node-runner/src/api.rs:794-931 | the same for everything filed |
| `ContentStore.UploadStaysSound` | node-runner/src/api.rs:500-624 | an upload keeps every stored content intact and downloads as uploaded |
| `ContentStore.RunStaysSound` | node-runner/src/api.rs:626-935 | over any run of uploads and fetches, every stored hex digest downloads to bytes with that digest |
| `ContentStore.LaterDownloadsHashToTheCid` | node-runner/src/api.rs:626-686 | after a successful fetch of a hex digest, every later download yields bytes with that digest |
| `ContentStore.UploadIsStoredExactlyWhen` | node-runner/src/api.rs:500-624 | an upload is stored exactly when it is not empty, at most 100 MiB, under a usable name and fits the capacity; what that changes, and that nothing changes otherwise |
| `ContentStore.FetchIsStoredExactlyWhen` | node-runner/src/api.rs:694-940 | a fetch is stored exactly when the content is not there yet, the peer serves all of it within the caps and under the digest asked for, all fragment names are usable and all of it fits the capacity |
| `ContentStore.CollectedExactlyWhen` | node-runner/src/api.rs:694-940 | fragments are collected exactly when each arrives with at most 4 MiB and all have at most 100 MiB |
| `ContentStore.UsageStaysWithinCapacity` | node-runner/src/storage.rs:174-239 | over any run the usage counted never exceeds the capacity |
| `ContentStore.UsageCoversWhatIsHeld` | node-runner/src/storage.rs:174-239 | nor falls below the bytes held |
| `ContentStore.UploadCountsExactlyWhen` | node-runner/src/storage.rs:174-239 | an upload is counted exactly unless it replaces a fragment of the same name that is not empty: then both count |
| `RateLimit.RateLimiter.CheckLimit` | gateway/src/rate_limit.rs:125-169 | one request refills, resets, charges and answers as the entry specification says, and touches no other client |
| `RateLimit.RateLimiter.CleanupOldEntries` | gateway/src/rate_limit.rs:172-179 | exactly the entries whose window opened 120 s ago or earlier are removed |
| `RateLimit.RefillIsBounded` | gateway/src/rate_limit.rs:139-149 | a refill never exceeds burst tokens per second, truncation and 32-bit wrap included |
| `RateLimit.ChargeKeepsBalance` | gateway/src/rate_limit.rs:125-169 | each request keeps the account of window resets, quota admissions and burst spending balanced |
| `RateLimit.AdmissionIsCharged` | gateway/src/rate_limit.rs:125-169 | each admission is charged once, to the quota or to the bucket |
| `RateLimit.AdmissionsAreBounded` | gateway/src/rate_limit.rs:125-169 | over any run of length T a client gets at most max_requests * (1 + T / (W + 1)) + burst + T * burst / 1000 admissions; with cleanups, for windows W below 119.001 s |
| `RateLimit.BoundHoldsExactlyWhen` | gateway/src/rate_limit.rs:125-179 | over all runs, cleanups included, the bound holds exactly for windows below 119.001 s |
| `RateLimit.BoundFailsFrom119001Millis` | gateway/src/rate_limit.rs:172-179 | from there on a run with one cleanup exceeds it |
| `RateLimit.StaleActsFreshExactlyWhen` | gateway/src/rate_limit.rs:172-179 | with a window under 120 s, a stale entry answers like a new client exactly when its bucket has filled up |
| `RateLimit.StaleIsToldApartExactlyWhen` | gateway/src/rate_limit.rs:125-179 | and exactly then no number of requests at that instant can tell the two apart |
| `RateLimit.StaleIsFilled` | gateway/src/rate_limit.rs:139-149 | with a window of at most 119 s it has filled up unless the refill product since the last request overflows 32 bits |
| `RateLimit.CleanupIsUnobservable` | gateway/src/rate_limit.rs:172-179 | with a window under 120 s, the run with cleanups and the run without make the same decisions, provided every request that would find its entry stale would find its bucket filled |
| `RateLimit.CleanupIsUnobservableExactlyWhen` | gateway/src/rate_limit.rs:172-179 | over all such runs, exactly for windows under 120 s |
| `RateLimit.ShortGapsHideCleanupsExactlyWhen` | gateway/src/rate_limit.rs:139-179 | over all runs in which no client is away so long that its refill product overflows, exactly for windows of at most 119 s |
| `RateLimit.OpenWindowIsForgotten` | gateway/src/rate_limit.rs:172-179 | without a bucket and with any window from 120 s on, a cleanup forgets a window that has not run out, whatever the quota |
| `RateLimit.LongAbsenceIsObservable` | gateway/src/rate_limit.rs:139-149 | with any quota, window and positive burst, a client that has used up both and is away for 2^32 ms is told apart after a cleanup |
| `RateLimit.NeverObservableExactlyWhen` | gateway/src/rate_limit.rs:139-149 | over all runs, however long clients stay away, cleaning up can never be observed exactly when the burst is zero and the window is under 120 s |
| `RateLimit.CleanupIsObservableBeyond119Seconds` | gateway/src/rate_limit.rs:172-179 | with any window over 119 s, a cleanup after such gaps admits a request that would have been refused |
| `RateLimit.ScheduledCleanupPreventsOverflow` | gateway/src/rate_limit.rs:139-149 | with a cleanup every minute the elapsed time stays below 180 s and the 32-bit refill product fits for bursts up to 23861 |
| `RateLimit.LargerBurstOverflows` | gateway/src/rate_limit.rs:139-149 | every larger burst overflows on one run that keeps the schedule |
| `RateLimit.BurstFitsScheduleExactlyWhen` | gateway/src/rate_limit.rs:139-149 | over all runs on the schedule the refill product fits exactly for bursts up to 23861 |
| `RateLimit.RetryAfterIsHonoured` | gateway/src/rate_limit.rs:151-169 | a refused client that waits the advertised time is admitted exactly when a token arrives, or its window has been exceeded and grants a quota; with a burst allowance a token arrives unless the refill product overflows |
| `RateLimit.LongWaitIsRefused` | gateway/src/rate_limit.rs:139-149 | a client with a burst allowance is refused again after a wait of 2^32 ms |
| `RateLimit.RetryAfterMayFallShort` | gateway/src/rate_limit.rs:151-169 | without a burst allowance, waiting exactly the advertised time can be refused again |
| `RateLimit.RetryAfterMeetsTheWindow` | gateway/src/rate_limit.rs:151-169 | over any run, cleanups included, the time advertised with a refusal is over within a second of the end of the window, counted from the request that opened it; for a window of whole seconds never before that end, and less than a second after it unless the floor of one second applies |
| `RateLimit.QuotaIsGranted` | gateway/src/rate_limit.rs:151-169 | over any run a request is refused only once its window has used up the quota |
| `ProcessManager.PortCount` | gateway/src/process_manager.rs:88-95 | the number of slots, with 16-bit saturation; no slot lies beyond port 65535 |
| `ProcessManager.FirstFree` | gateway/src/process_manager.rs:97-105 | the slot found is free and all before it are taken |
| `ProcessManager.PortAllocator.Allocate` | gateway/src/process_manager.rs:97-105 | the least free port is claimed, or nothing changes when there is none |
| `ProcessManager.PortAllocator.Release` | gateway/src/process_manager.rs:107-115 | a port in range is freed; others are ignored |
| `ProcessManager.Manager.SpawnProcess` | gateway/src/process_manager.rs:137-270 | each outcome of a spawn leaves slots, table and leaked ports in the specified state |
| `ProcessManager.Manager.StopProcess` | gateway/src/process_manager.rs:272-320 | a stop removes the process and frees its port |
| `ProcessManager.Manager.RestartProcess` | gateway/src/process_manager.rs:346-369 | a restart is a stop and a spawn that carries the restart count over |
| `ProcessManager.Manager.CheckProcess` | gateway/src/process_manager.rs:400-456 | the health loop's decision: unhealthy at three failures, restart at five within the maximum, stop over the memory limit |
| `ProcessManager.Manager.ShutdownAll` | gateway/src/process_manager.rs:461-468 | afterwards the table is empty and only leaked ports are taken |
| `ProcessManager.PortsAreConserved` | gateway/src/process_manager.rs:137-369 | over any run, live processes have distinct allocated ports in range, nothing else is allocated but leaked ports, and the table respects its cap |
| `ProcessManager.AutomaticRestartsAreBounded` | gateway/src/process_manager.rs:428-456 | the health loop alone never takes a restart count past the maximum |
| `ProcessManager.RequestedRestartsAreNot` | gateway/src/process_manager.rs:346-369 | a requested restart can |
| `ProcessManager.RestartsExceededExactlyWhen` | gateway/src/process_manager.rs:346-456 | a step takes a count past the maximum exactly when it is a successful requested restart of a process that has used up its restarts |
| `ProcessManager.RestartsStayWithinExactlyWhen` | gateway/src/process_manager.rs:346-456 | the same over any run |
| `ProcessManager.SpawnLeaksExactlyWhen` | gateway/src/process_manager.rs:137-270 | a spawn loses a port exactly when it fails between claiming one and entering the process, or replaces a process still in the table |
| `ProcessManager.LeaksAreForever` | gateway/src/process_manager.rs:107-115 | no operation gets a lost port back |
| `ProcessManager.ExhaustionIsFinal` | gateway/src/process_manager.rs:97-105 | once every port is lost, no spawn ever succeeds again |
| `ProcessHealth.SpawnSucceedsExactlyWhen` | gateway/src/process_manager.rs:137-270 | a spawn succeeds exactly when the table has room, a port is free and the child becomes healthy; the process is then fresh, on a port that was free |
| `ProcessHealth.FailuresAreStreak` | gateway/src/process_manager.rs:371-459 | over any operations that leave a fresh process running, its failures on record are the probes in a row that did not reach it, and it is unhealthy exactly from the third on |
| `ProcessHealth.ProbeDecides` | gateway/src/process_manager.rs:371-459 | after any of them, one more probe removes a process over its memory limit and frees its port, makes a reached one healthy, and restarts one not reached exactly from the fifth such probe on while restarts are left |
| `ProcessHealth.EveryCountIsStreak` | gateway/src/process_manager.rs:371-459 | over any run of the manager, the failures and health of every process are what the probes since it was last fresh make them |
| `Cache.ContentCache.GetContent` | gateway/src/cache.rs:54-65 | a lookup answers with an unexpired entry and marks it used |
| `Cache.ContentCache.SetWithTtl` | gateway/src/cache.rs:72-107 | a put prunes expired entries, evicts a least recently used one when full, and stores the new one |
| `Cache.ContentCache.FindLeastRecent` | gateway/src/cache.rs:87-95 | the victim was last used no later than any other entry |
| `Cache.ContentCache.RemoveContent` | gateway/src/cache.rs:110-114 | a removal takes out that entry only |
| `Cache.ContentCache.ClearExpiredEntries` | gateway/src/cache.rs:117-121 | exactly the unexpired entries stay |
| `Cache.HitsAndMisses` | gateway/src/cache.rs:54-65 | a hit is what the unbounded map holds; a miss of an unexpired key means at least max_entries - 1 other keys were touched since |
| `Cache.PutKeepsInv` | gateway/src/cache.rs:72-107 | an insertion keeps the cache a fair part of the unbounded map, within its cap |
| `Cache.CacheRefinesUnboundedMap` | gateway/src/cache.rs:54-157 | the same after any run from an empty cache |
| `Cache.EvictsExactlyWhenFull` | gateway/src/cache.rs:72-108 | an insertion evicts exactly when the entries still good fill the cache by themselves, and then a least recently used one of them; all others that are good stay |
| `Cache.ContentLastsExactly` | gateway/src/cache.rs:18-108 | content put and not replaced since is answered up to and including the end of its time to live, unless enough other keys were touched, and never after |
| `KvStore.Store.GetValue` | gateway/src/kv_store.rs:54-63 | a lookup answers with an unexpired value and removes an expired one |
| `KvStore.Store.PutValue` | gateway/src/kv_store.rs:65-134 | value size, namespace and key limits in this order; an update is never refused for the key limit |
| `KvStore.Store.DeleteKey` | gateway/src/kv_store.rs:136-153 | a deletion removes the key and says whether it was there, expired or not |
| `KvStore.Store.List` | gateway/src/kv_store.rs:155-166 | the unexpired keys with the prefix |
| `KvStore.Store.CleanupExpired` | gateway/src/kv_store.rs:174-191 | exactly the expired entries are removed, and no namespace |
| `KvStore.StoreRefinesTimedMap` | gateway/src/kv_store.rs:54-191 | after any run, a lookup returns the last successful, undeleted, unexpired put, listing lists exactly the keys a lookup answers, and the caps hold |
| `KvStore.ValueLastsExactly` | gateway/src/kv_store.rs:21-134 | an accepted put is answered until overwritten or deleted, up to and including the end of its time to live, and not after |
| `KvStore.ReadsAndCleanupsGoUnnoticed` | gateway/src/kv_store.rs:54-191 | leaving all reads and cleanups out of a run changes the answer to no put, and no later lookup or listing, provided that without them no put is refused for the sake of an expired entry; nor the answer to a deletion, if none finds an expired entry |
| `KvStore.GoUnnoticedExactlyWhen` | gateway/src/kv_store.rs:54-191 | given the puts and deletions of a run, no reads and cleanups between them can change the answer to a put exactly when none of them alone is refused so, and to a deletion either exactly when, moreover, none finds an expired entry |
| `KvStore.RunKeepsRefinement` | gateway/src/kv_store.rs:54-191 | every operation keeps the store a refinement of the timed map, within its caps |
| `KvStore.RefusedPutCreatesNamespaceExactlyWhen` | gateway/src/kv_store.rs:65-110 | a refused put leaves a trace exactly when the namespace is new and no keys are allowed |
| `KvStore.ReadingExpiredKeyMakesRoom` | gateway/src/kv_store.rs:54-110 | otherwise it can: reading an expired entry makes room for a put that would have been refused |
| `KvStore.DeletionNoticesReading` | gateway/src/kv_store.rs:54-153 | a deletion tells whether an expired key is still there, and so notices a read that has removed it |
| `Signaling.Server.HandleAnnounce` | gateway/src/signaling.rs:236-273 | an announcement is refused at the peer limit, known peer or not; otherwise all three maps change together |
| `Signaling.Server.RelayToPeer` | gateway/src/signaling.rs:368-387 | a relay succeeds exactly for a registered peer and reaches the mapped connection if that is open |
| `Signaling.Server.HandleDisconnect` | gateway/src/signaling.rs:409-428 | a connection goes, with the peer it last announced |
| `Signaling.Server.CleanUpStale` | gateway/src/signaling.rs:450-469 | disconnecting the stale connections one by one, in any order, removes them and the peers they announced, and nothing else |
| `Signaling.Server.HandleHeartbeat` | gateway/src/signaling.rs:354-365 | a heartbeat refreshes the named peer, whoever sends it |
| `Signaling.RunKeepsInv` | gateway/src/signaling.rs:236-469 | in every reachable state both peer maps have the same keys, at most max_peers, and agree on the connection |
| `Signaling.StepKeepsInverseExactlyWhen` | gateway/src/signaling.rs:236-273 | connections and peers stay inverse exactly when the event opens an unused id, or announces over an open connection its only peer, held by no other connection |
| `Signaling.InverseThroughoutExactlyWhen` | gateway/src/signaling.rs:236-469 | the same for whole runs |
| `Signaling.RelayReachesTheAnnouncer` | gateway/src/signaling.rs:368-387 | after an orderly run a relay reaches exactly the open connection that announced the peer |
| `Signaling.OpenExactlyWhenHeard` | gateway/src/signaling.rs:109-469 | after any run a connection is open exactly when it was opened and has neither closed nor been silent for longer than the session timeout when a cleanup came |
| `Signaling.AnnouncedExactlyWhenRoom` | gateway/src/signaling.rs:236-273 | an announcement is on record exactly when there was room for it, or it was so before |
| `Signaling.HeartbeatLasts` | gateway/src/signaling.rs:354-365 | a heartbeat stays on record until the peer goes, announces again or sends another |
| `Signaling.DisconnectLeavesNoTrace` | gateway/src/signaling.rs:409-469 | after an orderly run, dropping a connection leaves what the other connections' events alone would have left, provided it decides no other announcement's verdict |
| `Signaling.AnnouncementLeavesNoTraceExactlyWhen` | gateway/src/signaling.rs:236-273 | for one announcement, exactly under that condition, or when it would change nothing |
| `Signaling.LastPlaceLeavesTrace` | gateway/src/signaling.rs:244-252 | a connection that holds the last place does leave a trace: the peer turned away because of it |
| `Signaling.SecondAnnounceLeavesOrphan` | gateway/src/signaling.rs:236-273 | a second id announced over one connection leaves the first behind when the connection closes |
| `Signaling.OrphanStays` | gateway/src/signaling.rs:409-469 | neither disconnects nor cleanups ever remove such an orphan |
| `Signaling.FullOfOrphansIsFinal` | gateway/src/signaling.rs:244-252 | a registry full of orphans accepts no announcement ever again |
| `CircuitBreakers.CircuitBreaker.AllowRequest` | gateway/src/circuit_breaker.rs:88-118 | closed and half-open admit; open admits from the reset timeout on and turns half-open |
| `CircuitBreakers.CircuitBreaker.RecordSuccess` | gateway/src/circuit_breaker.rs:121-142 | a success closes a half-open breaker, resets the count of a closed one, and is ignored by an open one |
| `CircuitBreakers.CircuitBreaker.RecordFailure` | gateway/src/circuit_breaker.rs:145-167 | a failure is counted and stamped in every state and opens a closed breaker at the threshold, a half-open one at once |
| `CircuitBreakers.CircuitBreaker.ForceClose` | gateway/src/circuit_breaker.rs:201-209 | the breaker is closed with a count of zero; the failure time stays |
| `CircuitBreakers.CountIsStreak` | gateway/src/circuit_breaker.rs:88-179 | after any run, a closed breaker's count is the failures since the last success or forced close, below the limit, and the failure time is that of the latest failure |
| `CircuitBreakers.OpensExactlyAtLimit` | gateway/src/circuit_breaker.rs:145-179 | a closed breaker opens exactly at the failure that completes the limit |
| `CircuitBreakers.StaysClosedExactlyWhen` | gateway/src/circuit_breaker.rs:121-179 | over any run the breaker never opens exactly when no streak reaches the limit |
| `CircuitBreakers.RefusedExactlyWhen` | gateway/src/circuit_breaker.rs:88-118 | after any run a request is refused exactly when the breaker is open and the timeout since the latest failure has not passed |
| `CircuitBreakers.OpenRefusesUntilTimeout` | gateway/src/circuit_breaker.rs:88-167 | an open breaker stays open and refuses through any premature requests, successes and failures; each failure restarts the timeout |
| `CircuitBreakers.HalfOpenAdmitsEveryRequest` | gateway/src/circuit_breaker.rs:88-118 | half-open admits any number of requests until one reports back |
| `CircuitBreakers.AloneIsSequential` | gateway/src/circuit_breaker.rs:88-209 | the atomic steps of an uninterrupted call amount to the sequential operation; only a failure report waits at its stamp while another thread holds the read lock |
| `CircuitBreakers.RunStaysSound` | gateway/src/circuit_breaker.rs:145-179 | under every interleaving of atomic steps, a breaker that is not closed has a failure time on record |
| `CircuitBreakers.OpenCanAlwaysBeLeft` | gateway/src/circuit_breaker.rs:88-118 | so an open breaker can always be left: any idle thread that asks after the timeout passes and makes it half-open |
| `CircuitBreakers.ConcurrentFailuresOpenExactlyAtLimit` | gateway/src/circuit_breaker.rs:145-179 | however concurrent failure reports interleave, once they have finished the breaker is open exactly when the limit was reached |
| `CircuitBreakers.LateFailureOvercounts` | gateway/src/circuit_breaker.rs:145-167 | with successes in between, a late failure can leave a closed breaker at its limit |
| `CircuitBreakers.RunKeepsProbesDue` | gateway/src/circuit_breaker.rs:88-167 | under every interleaving, a thread about to set the breaker half-open may do so by the clock, because it holds the read lock of the failure time until it has |
| `CircuitBreakers.TrialsAreDue` | gateway/src/circuit_breaker.rs:88-167 | so no thread ever sets half-open before the timeout since the failure on record |
| `CircuitBreakers.LateFailureLeavesTrialEarly` | gateway/src/circuit_breaker.rs:88-167 | a failure report that began before the trial can leave the breaker half-open at the very instant of the failure |
| `CircuitBreakers.TrialStaysSoundExactlyWhen` | gateway/src/circuit_breaker.rs:88-167 | a step keeps a half-open breaker free of failures younger than the timeout, or about to be opened, exactly when it records no such failure of a report that will not open it while nobody else will |
| `CircuitBreakers.TrialSoundThroughoutExactlyWhen` | gateway/src/circuit_breaker.rs:88-167 | the same for whole interleavings |
| `CircuitBreakers.RestingTrialIsDueExactlyWhen` | gateway/src/circuit_breaker.rs:88-167 | at rest, the timeout since the failure on record has passed for a half-open breaker exactly when its trial is sound, and so it has after every interleaving without such a step |
| `CircuitBreakers.RecordSetBackAllowsEarly` | gateway/src/circuit_breaker.rs:145-150 | two reports that write their times out of order can leave the earlier one on record, and a request passes too early |
| `CircuitBreakers.LatestThroughoutExactlyWhen` | gateway/src/circuit_breaker.rs:145-150 | over whole interleavings the failure on record is the latest one exactly when no report writes a time older than the one on record |
| `CircuitBreakers.RefusesForLatestExactlyWhen` | gateway/src/circuit_breaker.rs:88-150 | after any interleaving an open breaker refuses exactly until the timeout since the latest failure, exactly when that failure is on record or its timeout has passed already |
| `CircuitBreakers.SettledExactlyWhen` | gateway/src/circuit_breaker.rs:121-179 | a closed breaker at its limit stays about to be opened or reset exactly when the step is no late failure that completes the limit |
| `CircuitBreakers.SettledThroughoutExactlyWhen` | gateway/src/circuit_breaker.rs:121-179 | the same for whole interleavings |
| `CircuitBreakers.RestIsBelowLimitExactlyWhen` | gateway/src/circuit_breaker.rs:121-179 | at rest, a closed breaker is below its limit exactly when it is settled |
| `CircuitBreakers.CountersStayCurrentExactlyWhen` | gateway/src/circuit_breaker.rs:88-179 | whoever saw the breaker open before counting still finds it open exactly when no step leaves the open state under such a thread |
| `CircuitBreakers.ClosedAtRestIsBelowLimit` | gateway/src/circuit_breaker.rs:121-179 | in an interleaving without such a step a closed breaker is below its limit at rest |
| `NodeHealth.Tracker.EnsureNodes` | gateway/src/node_health.rs:126-136 | every configured URL gets an entry; existing ones are kept |
| `NodeHealth.Tracker.AvailableUrls` | gateway/src/node_health.rs:147-152 | the configured URLs whose breakers admit, in order; asking may turn breakers half-open |
| `NodeHealth.Tracker.SelectNodes` | gateway/src/node_health.rs:140-207 | the selection of the configured strategy, and what asking and counting change |
| `NodeHealth.SelectionHoldsTheAdmitted` | gateway/src/node_health.rs:140-207 | every strategy returns exactly the configured URLs whose breakers admit, each as often as configured |
| `NodeHealth.LatencyOrder` | gateway/src/node_health.rs:171-188 | known latencies first, ascending; ties, and the unknown among themselves, in configured order |
| `NodeHealth.WeightOrder` | gateway/src/node_health.rs:190-206 | scores descending; ties in configured order |
| `NodeHealth.WeightedByMerit` | gateway/src/node_health.rs:61-87 | the weighted order in terms of latency and time since the last success alone: a node is placed before another whenever seven times its lead in latency exceeds three times the lead of the other in recency, and where neither holds the configured order stays |
| `NodeHealth.LatencyLeadDecides` | gateway/src/node_health.rs:61-87 | a lead of three sevenths in latency is never lost to recency |
| `NodeHealth.SelectionsFollowPicks` | gateway/src/node_health.rs:154-169 | over any run of calls, with outcomes recorded in between, that finds the same nodes available, the k-th call returns the rotation that starts at the k-th pick |
| `NodeHealth.RotationIsFairExactlyWhen` | gateway/src/node_health.rs:154-169 | over n consecutive calls that find the same n nodes available, none comes first twice, exactly when the counter does not wrap in between or n divides its range |
| `NodeHealth.EachComesFirst` | gateway/src/node_health.rs:154-169 | and each does come first |
| `NodeHealth.AverageStaysInRange` | gateway/src/node_health.rs:43-52 | the average stays within the range of its samples |
| `NodeHealth.AverageForgets` | gateway/src/node_health.rs:43-52 | after n more samples of one value, nine tenths to the power of n is left of the distance to it |
| `NodeHealth.UnknownExactlyWhen` | gateway/src/node_health.rs:43-52 | it reads as unknown exactly when every sample was zero |
| `NodeHealth.ScoreIsMonotone` | gateway/src/node_health.rs:65-87 | a node that is no slower, no longer idle and no less admitted never scores lower; unknown latency counts as a second, no success as 140 s |
| `NodeHealth.ScoreRange` | gateway/src/node_health.rs:65-87 | every score lies between 0 and 1, and is 0 exactly for a refused node |
| `NodeHealth.NodesAreIndependent` | gateway/src/node_health.rs:210-227 | over any run each node's breaker, average and last success are what that node's own outcomes make of them |
| `NodeHealth.LeftOutExactlyWhen` | gateway/src/node_health.rs:140-207 | after any run a configured node is missing from a selection exactly when its breaker is open and the timeout since its own latest failure has not passed |
| `StableSort.SortSorts` | gateway/src/node_health.rs:183-187 | a stable sort orders, loses nothing, and leaves ties in their order |
| `StableSort.ArrangementIsUnique` | gateway/src/node_health.rs:183-187 | order and ties determine the arrangement |
| `ApiKeys.ApiKeyManager.CreateKey` | gateway/src/api_keys.rs:242-285 | the limiter decides; an admitted key is entered in both maps |
| `ApiKeys.ApiKeyManager.ValidateKey` | gateway/src/api_keys.rs:323-362 | the key under the hash, if cached less than 30 s ago, enabled and unexpired |
| `ApiKeys.ApiKeyManager.RevokeKey` | gateway/src/api_keys.rs:386-396 | a known key is disabled where it is |
| `ApiKeys.ApiKeyManager.DeleteKey` | gateway/src/api_keys.rs:399-420 | the key leaves both maps; success is reported in any case |
| `ApiKeys.ApiKeyManager.RotateKey` | gateway/src/api_keys.rs:423-451 | the entry moves to the new hash with its metadata, enabled flag included |
| `ApiKeys.RunKeepsMirror` | gateway/src/api_keys.rs:142-187 | with fresh ids and hashes the two maps stay inverse, with no orphan, and hold what one table from ids would |
| `ApiKeys.StoreIsOneTable` | gateway/src/api_keys.rs:323-362 | after any run, lookups and validation answer from that table; validation exactly for the current hash of an enabled, unexpired key set less than 30 s ago |
| `ApiKeys.RetiringKills` | gateway/src/api_keys.rs:386-451 | revoking, deleting or rotating a key kills the hash it had |
| `ApiKeys.DeadKeysStayDead` | gateway/src/api_keys.rs:323-362 | such a hash never validates in any later state |
| `ApiKeys.RetiredNeverValidates` | gateway/src/api_keys.rs:323-451 | in any run from the empty store, the hash a key had when it was revoked, deleted or rotated never validates afterwards |
| `ApiKeys.RotationDoesNotRevive` | gateway/src/api_keys.rs:423-451 | rotating a revoked key leaves it revoked under the new hash |
| `ApiKeys.DeletionUndoesCreation` | gateway/src/api_keys.rs:142-176 | deleting a key takes the store back to what it was before its creation |
| `ApiKeys.ElevenCreationsSpanAMinute` | gateway/src/api_keys.rs:248-259 | in any run, eleven consecutive admitted creations span more than 60 s; the deque is sorted and at most ten long |
| `ApiKeys.AdmittedExactlyWhen` | gateway/src/api_keys.rs:248-259 | a creation is admitted exactly when fewer than ten were admitted in the last 60 s |
| `ApiKeys.KeyIsGoodExactlyWhen` | gateway/src/api_keys.rs:44-79 | over any run, a key created with so many days to live and not revoked or deleted validates under the raw key it last got exactly for thirty seconds from then on, up to and including the instant those days are over, with the metadata it was created with |
| `HtmlRewrite.RewriteAssetPaths` | gateway/src/lib.rs:653-665 | the loop over the three attributes, three replacements each, equals one left-to-right pass on input without the guard |
| `HtmlRewrite.ThreePassesAreGuarded` | gateway/src/lib.rs:657-664 | what the three replacements for one attribute do on every input, guard tokens included |
| `HtmlRewrite.ThreePassesAreOneExactlyWhen` | gateway/src/lib.rs:657-664 | they equal the single pass exactly when input holds no guard token, nor an inserted prefix |
| `HtmlRewrite.PassesMerge` | gateway/src/lib.rs:654-665 | single passes for several attributes merge into one |
| `HtmlRewrite.PassKeepsGuardOut` | gateway/src/lib.rs:654-665 | a pass never writes the guard |
| `HtmlRewrite.RewritingTwiceExactlyWhen` | gateway/src/lib.rs:653-665 | for a plain prefix, a second pass changes nothing exactly when the prefix lies under /ipfs/, is a lone slash, or is never inserted |
| `HtmlRewrite.RewritingTwiceDoublesThePrefix` | gateway/src/main.rs:1206 | a prefix such as /c/ is inserted twice by two passes |
| `Text.EscapingIsCharacterwise` | gateway/src/lib.rs:101-107 | the five whole-string replacements, in their order, escape each character once |
| `Text.EscapingIsUndone` | gateway/src/lib.rs:101-107 | decoding the entities gives back the text |
| `Text.EscapingRemovesMarkup` | gateway/src/lib.rs:101-107 | no angle bracket or quotation mark is left |
| `Text.EscapingTwiceExactlyWhen` | gateway/src/lib.rs:101-107 | escaping again leaves the text alone exactly when there was nothing to escape |
| `Text.SanitizedIsLabel` | gateway/src/lib.rs:671-686 | any name becomes a label of 1 to 40 lower-case letters, digits and hyphens, with no hyphen at either end |
| `Text.SanitizingIsIdempotent` | gateway/src/lib.rs:671-686 | sanitizing twice is sanitizing once |
| `Text.LabelsAreKept` | gateway/src/lib.rs:671-686 | a label is left as it is |
| `RouteManifest.MatchRoute` | gateway/src/route_manifest.rs:63-86 | the earliest method-accepting route of the highest class; none exactly when no route scores |
| `RouteManifest.InsertionTakesOverExactlyWhen` | gateway/src/route_manifest.rs:63-86 | a route added anywhere takes over exactly when it is of a higher class, or the same class and earlier |
| `RouteManifest.InsertionWhereNoneMatched` | gateway/src/route_manifest.rs:63-86 | where none matched, exactly when it matches |
| `RouteManifest.TrailingSlashesDoNotMatter` | gateway/src/route_manifest.rs:63-92 | trailing slashes on path or pattern change no score |
| `RouteManifest.ScoreOfSegments` | gateway/src/route_manifest.rs:88-126 | for patterns and paths written as segments, the root included, which relation gives which class |
| `RouteManifest.SegmentsUndoJoin` | gateway/src/route_manifest.rs:98-99 | splitting a joined path gives back its segments |
| `RouteManifest.DoubledSlashMatchesAsParameter` | gateway/src/route_manifest.rs:94-123 | a literal route with an empty segment at the front or between two segments matches in the class of parameters |

## Left out

- AdmissionsAreBounded: for windows from 119.001 s on only runs without cleanups are covered, because there a cleanup hands out a full bucket before it is earned and the bound is no longer true (`BoundFailsFrom119001Millis`).
- CleanupIsUnobservable: runs in which a request would find its entry stale and its bucket not filled are left out, because there a cleanup can be noticed (`StaleIsToldApartExactlyWhen`, `LongAbsenceIsObservable`).
- CheckLimit: one reading of the clock stands for the two that a client's first request makes, and the request count does not wrap.
- ScheduledCleanupPreventsOverflow: cleanups run within each minute; how late the runtime may start one is not modelled.
- SpawnProcess: operations on one process do not overlap, so the table check and the insertion are one step; starting, waiting for and probing a child are inputs.
- CheckProcess: a process locked by somebody else is skipped by the source; here every check gets its lock.
- PortsAreConserved: overlapping operations on one content id are not covered, as the source does not serialise them.
- HandleCommand: announcing, publishing and reporting censorship keep no reply handle and are left out; peer-id parsing and path policy are an input.
- HandleBuildCircuit: what the relay client makes of a handshake or a cell is an input, and so is sending: a request always gets a number.
- HandleRelayCellResponse: a step to a further hop always uses up a request number; the source sends nothing when the client cannot make the cell.
- ResolveContent: the overall timeout strikes only while a circuit is awaited; that it may also cut slow fetches short, and which error texts accompany a failure, is left out.
- FirstSuccessIsTheContent: honest manifests are an assumption, because the gateway does not check that a manifest belongs to the content id (`AnyManifestIsAccepted`).
- NoBuildEverCompletes: that the relay client calls a circuit complete only at its last hop is an assumption, because the client is an input here.
- LaterDownloadsHashToTheCid: assumes no two byte strings seen share a digest and that each fetched fragment hashes to its name; deletion, garbage collection and disk errors are left out.
- ReassemblyUndoesFragmentation: contents of 2^32 chunks and more are left out, as fragment indices have 32 bits.
- SetWithTtl: entries last used at the same instant may be evicted in any order, as the map's iteration order is not determined.
- StoreRefinesTimedMap: writing through to Redis is left out.
- CleanUpStale: finding the stale connections and dropping them is one step here; the source lets messages come in between.
- DisconnectLeavesNoTrace: runs in which the connection decides whether another announcement is refused at the peer limit are left out, because it then does leave a trace (`LastPlaceLeavesTrace`).
- ReadsAndCleanupsGoUnnoticed: runs in which a put is refused for the sake of an expired entry are left out, because there a cleanup can be noticed, and for the answers of deletions runs in which one finds an expired entry (`GoUnnoticedExactlyWhen`).
- AllowRequest: the sequential model reads the clock once per call; the interleaved one gives each reading its own.
- OpenCanAlwaysBeLeft: only writers wait for the lock of the failure time; that a lock may also make a reader wait behind a waiting writer is left out, as it only removes interleavings.
- SelectNodes: all breakers are asked at one instant, and rounding and not-a-number of floating point are left out.
- StoreIsOneTable: Redis, and with it re-validation after 30 s, is left out; overlapping rotations of one key are left out.
- RewriteAssetPaths: insertion of a base tag, the content-type check and lossy decoding of the page come before the loop and are left out.
- SanitizedIsLabel: outside ASCII the lower-case mapping is uninterpreted, and does not look at neighbouring characters; what it yields there becomes hyphens unless it is ASCII.
- HTTP handlers, WebSocket transport, TLS, metrics, audit log, telemetry, configuration and the dashboard: plumbing or flat data.
- Peer discovery over signaling: a filter over the registry that would only add an easy member.
- The relay protocol, adaptive routing and naming of the protocol crate: inputs here.
- Parsing and validation of the route manifest: field checks.

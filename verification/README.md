# Simple asset streaming: a verified model of the streaming subsystem

`UAssetStreamingSubsystem` is a reference-counted asset streamer for Unreal
Engine 4 with delayed eviction. Callers request one asset or a list of assets
and get back a request guid. They release the request later with that guid.
The subsystem keeps three tables:

- `RegisteredAssets`: request guid to the ordered array of (asset, handle)
  pairs streamed under it.
- `AssetRequestCount`: asset path to the number of requests claiming it.
- `KeepAlive`: asset path to the first handle obtained for it since the
  asset was last unloaded. This handle keeps the asset loaded until the
  subsystem decides to unload it.

Releasing a request works through its pairs from last to first:

- Each count is decremented; a count that reaches zero is removed.
- Every handle that is not the asset's keep-alive handle is cancelled.
- The request is removed.
- The pairs whose count reached zero are handed to an unload timer.

When the timer fires, the final unload pass runs over the batch:

- A candidate claimed again in the meantime is skipped.
- Otherwise its keep-alive entry is dropped and all of its active handles are
  cancelled.

## Layers

- `AssetHandlePairs` (asset_handle_pair.dfy): the pair struct, its
  constructors, and its asset-only equality.
- `EngineModel` (engine_model.dfy): the engine services the subsystem uses.
  - A guid counter, where 0 is the invalid guid.
  - A streamable manager: handle `h` is the h-th load requested, and a set
    records which handles are still active.
- `StreamingTables` (streaming_tables.dfy): the subsystem's state as a value
  `Tables`, with one pure function per operation (`StreamAsset`,
  `RequestStreaming`, `RequestSingle`, `Release`, `FinalUnload`, `FireNext`).
- `AssetStreaming` (asset_streaming_subsystem.dfy): the subsystem as a class
  whose fields are the tables, updated in place.
  - Every method ensures that the new state (and what it returns) is the
    corresponding `StreamingTables` function applied to the old state.
  - The release loop and the final unload loop are `while`/`for` loops over
    the arrays. They are proved against loop functions (`ReleaseLoops`,
    `UnloadLoops`), which are in turn proved equal to the table functions.
- `StreamingInvariants` (streaming_invariants.dfy): the cross-table
  invariant `Consistent` and lemmas showing that every operation keeps it.
  - Every counted asset has a count of at least 1 and a keep-alive entry.
  - Every registered pair names a counted asset and a handle issued for it.
  - A count is at least the number of live requests holding the asset.
  - Registered ids are valid, and every pending batch names only non-null
    assets.
- `StreamingProperties` (streaming_properties.dfy): promises beyond the
  invariant.
  - Counts equal the number of holders while no request names an asset twice.
  - A request raises counts by the multiplicity of each asset in the list.
  - A release never cancels a keep-alive handle.
  - A release schedules exactly the pairs whose count reached zero.
- `StreamingScenarios` (streaming_scenarios.dfy): call sequences worked out
  from a fresh subsystem.
  - A release, a re-claim and a second release before the first timer fires
    queue two batches for the same asset. The first pass removes the asset's
    keep-alive entry, so when the second pass reaches the asset, the lookup at
    AssetStreamingSubsystem.cpp:281 finds no entry. The invariant holds
    throughout. The model therefore states the key's presence as the
    precondition `UnloadSafe` of the pass, and the scenario shows that
    precondition failing.
  - A request that lists one asset twice registers one pair but counts the
    asset twice, so its release can never bring the count to zero.
- `KeepAliveHandles` (keep_alive.dfy): a second invariant, `KeepAliveActive`.
  Every keep-alive entry holds a handle that has not been cancelled, from the
  stream that first loads the asset until the final unload pass drops the
  entry. Each operation is proved to keep it.
- `UnloadSafety` (unload_safety.dfy): when the oldest timer may fire.
  - `OldestBatchSafe`: the oldest pending batch names each asset once and meets
    `UnloadSafe`.
  - Requests and releases keep it, so a request, its release and then that
    release's own timer always meet the precondition of the pass.
  - A pass keeps it when it unloads none of the assets the next batch would
    unload. The scenario above is the case where it does.
- `ReleaseAsWritten` (release_as_written.dfy): the release loop exactly as
  written, with the pair held by reference (see "## Findings").

## Model

| member | source | states |
|---|---|---|
| AssetHandlePairs.DefaultPair | Source/SimpleAssetStreaming/Public/AssetHandlePair.h:16-19 | the default pair has a null asset and a null handle |
| AssetHandlePairs.MakePair | Source/SimpleAssetStreaming/Public/AssetHandlePair.h:21-24 | the constructor keeps exactly the asset and handle given; the pair differs from the default pair iff one of them is non-null |
| AssetHandlePairs.PairEqualsIgnoresHandle | Source/SimpleAssetStreaming/Public/AssetHandlePair.h:26-29 | two pairs of the same asset compare equal whatever their handles, though they are distinct values |
| AssetHandlePairs.PairEqualsIsEquivalence | Source/SimpleAssetStreaming/Public/AssetHandlePair.h:28 | pair equality is reflexive, symmetric and transitive |
| AssetHandlePairs.ContainsPair | Source/SimpleAssetStreaming/Private/AssetStreamingSubsystem.cpp:206 | the array's membership test holds iff some element has the same asset as the probe |
| AssetHandlePairs.ContainsPairByPath | Source/SimpleAssetStreaming/Private/AssetStreamingSubsystem.cpp:206 | for a non-null asset, membership by pair equality is membership of its path among the array's paths |
| EngineModel.EmptyLoader | Source/SimpleAssetStreaming/Public/AssetStreamingSubsystem.h:51 | a fresh streamable manager has no active handle for any asset |
| EngineModel.AsyncLoadIssues | Source/SimpleAssetStreaming/Private/AssetStreamingSubsystem.cpp:184 | a load request issues a handle never issued before, for the requested path; older handles keep their paths; only that path gains an active handle |
| EngineModel.CancelHandle | Source/SimpleAssetStreaming/Private/AssetStreamingSubsystem.cpp:133 | cancelling a handle removes it from every path's active handles and changes nothing else |
| EngineModel.CancelAll | Source/SimpleAssetStreaming/Private/AssetStreamingSubsystem.cpp:289-292 | cancelling a set of handles removes exactly those from every path's active handles |
| EngineModel.CancelIsIdempotent | Source/SimpleAssetStreaming/Private/AssetStreamingSubsystem.cpp:133 | cancelling a handle twice is the same as cancelling it once |
| StreamingTables.InitialTables | Source/SimpleAssetStreaming/Public/AssetStreamingSubsystem.h:50-56 | a fresh subsystem has empty registry, counts and keep-alive tables and no pending batch |
| StreamingTables.Increment | Source/SimpleAssetStreaming/Private/AssetStreamingSubsystem.cpp:223-236 | the asset's count becomes its old count plus one (absent counts as 0, so a new entry is 1); every other count is unchanged |
| StreamingTables.Register | Source/SimpleAssetStreaming/Private/AssetStreamingSubsystem.cpp:200-221 | the pair is appended to the id's array or becomes a one-element array; if the array already holds a pair for the asset, the registry is unchanged; other ids are untouched; arrays stay free of repeated assets |
| StreamingTables.StreamAsset | Source/SimpleAssetStreaming/Private/AssetStreamingSubsystem.cpp:176-198 | the asset's count goes up by exactly one and no other count moves; the keep-alive table gains the path only if absent, and then holds the handle of this very load; existing keep-alive handles are never overwritten; the id holds the asset afterwards |
| StreamingTables.StreamAllKeeps | Source/SimpleAssetStreaming/Private/AssetStreamingSubsystem.cpp:72-75 | streaming a list keeps every existing keep-alive handle, registers the id when the list is non-empty, and leaves pending batches and the guid counter alone |
| StreamingTables.RequestStreaming | Source/SimpleAssetStreaming/Private/AssetStreamingSubsystem.cpp:57-79 | an empty list returns false with an invalid id and an unchanged state; otherwise the call returns true with a valid id newer than every id issued before |
| StreamingTables.RequestStreamingTables | Source/SimpleAssetStreaming/Private/AssetStreamingSubsystem.cpp:68-75 | unfolding lemma: a non-empty request streams every element in order under the next guid, which it returns |
| StreamingTables.RequestStreamingRegisters | Source/SimpleAssetStreaming/Private/AssetStreamingSubsystem.cpp:68-78 | after a successful request, the returned id is registered and is the newest guid |
| StreamingTables.RequestSingle | Source/SimpleAssetStreaming/Private/AssetStreamingSubsystem.cpp:81-90 | the single-asset request returns true with a fresh valid id under which the asset is registered |
| StreamingTables.Decremented | Source/SimpleAssetStreaming/Private/AssetStreamingSubsystem.cpp:112-127 | every path of the released pairs drops by one and loses its entry instead of reaching 0; every other count is unchanged |
| StreamingTables.ZeroCandidates | Source/SimpleAssetStreaming/Private/AssetStreamingSubsystem.cpp:124-127 | the batch left in the local array is exactly the released pairs whose count was at most 1, in order, with no repeated asset |
| StreamingTables.ZeroCandidatesAppend | Source/SimpleAssetStreaming/Private/AssetStreamingSubsystem.cpp:124-127 | the batch of a concatenation is the batch of the first part followed by the batch of the second, so the candidates keep the request's order |
| StreamingTables.ZeroCandidatesSingle | Source/SimpleAssetStreaming/Private/AssetStreamingSubsystem.cpp:124-127 | a single pair stays in the batch iff its count was at most 1 |
| StreamingTables.RedundantHandles | Source/SimpleAssetStreaming/Private/AssetStreamingSubsystem.cpp:129-138 | a handle is cancelled by a release iff it belongs to a released pair and differs from that asset's keep-alive handle |
| StreamingTables.ScheduleUnloading | Source/SimpleAssetStreaming/Private/AssetStreamingSubsystem.cpp:246-260 | an empty batch is ignored; otherwise exactly one batch is appended to the pending timers and nothing else changes |
| StreamingTables.Release | Source/SimpleAssetStreaming/Private/AssetStreamingSubsystem.cpp:92-159 | the caller's id is invalid afterwards on every path; the call succeeds iff the id is valid and registered; a refused call changes nothing; a successful one removes exactly that id; the keep-alive table is never touched |
| StreamingTables.FinalUnload | Source/SimpleAssetStreaming/Private/AssetStreamingSubsystem.cpp:262-303 | a pass removes exactly the keep-alive entries of the unclaimed candidates and leaves those assets with no active handle; other assets keep their handles; counts and registry are untouched; the reported count is the number of unclaimed assets that still had an active handle |
| StreamingTables.FinalUnloadSnoc | Source/SimpleAssetStreaming/Private/AssetStreamingSubsystem.cpp:268-300 | a pass over one more candidate is the earlier pass followed by that candidate's step, which the earlier candidates left safe to run |
| StreamingTables.FinalUnloadStep | Source/SimpleAssetStreaming/Private/AssetStreamingSubsystem.cpp:268-300 | the next candidate's step extends the effect of the pass over the candidates before it |
| StreamingTables.UnloadUnclaimedStep | Source/SimpleAssetStreaming/Private/AssetStreamingSubsystem.cpp:280-295 | unloading one more unclaimed asset removes its keep-alive entry, cancels its handles, leaves other assets' handles alone, and counts it iff it had an active handle |
| StreamingTables.ActiveHandlesDisjoint | Source/SimpleAssetStreaming/Private/AssetStreamingSubsystem.cpp:287 | the active handles found for one asset never include another asset's handles |
| StreamingTables.FireNext | Source/SimpleAssetStreaming/Private/AssetStreamingSubsystem.cpp:254-259 | the oldest timer fires: its batch leaves the queue and the pass leaves counts and registry unchanged |
| StreamingInvariants.InitialIsConsistent | Source/SimpleAssetStreaming/Public/AssetStreamingSubsystem.h:50-56 | a fresh subsystem satisfies the invariant, and its counts are exact |
| StreamingInvariants.HeldIsCounted | Source/SimpleAssetStreaming/Public/AssetStreamingSubsystem.h:167-171 | an asset held by a live request has a count entry |
| StreamingInvariants.ConsistentAllowsRelease | Source/SimpleAssetStreaming/Private/AssetStreamingSubsystem.cpp:118-130 | under the invariant, every check of the release loop holds for any registered request: counted, non-null asset, non-null handle, keep-alive entry present |
| StreamingInvariants.HoldersAfterRegister | Source/SimpleAssetStreaming/Private/AssetStreamingSubsystem.cpp:204-219 | registering adds the id to the asset's holders exactly when the id did not hold the asset yet |
| StreamingInvariants.HoldersAfterRemove | Source/SimpleAssetStreaming/Private/AssetStreamingSubsystem.cpp:142 | removing a request removes it, and only it, from the holders of every asset |
| StreamingInvariants.StreamAssetFields | Source/SimpleAssetStreaming/Private/AssetStreamingSubsystem.cpp:184-197 | unfolding lemma: streaming an asset loads it, registers the new pair, increments its count, and adds the new handle as keep-alive only when the asset has none |
| StreamingInvariants.StreamAssetKeepsClaims | Source/SimpleAssetStreaming/Private/AssetStreamingSubsystem.cpp:187 | streaming keeps every registered pair well formed and every array free of repeated assets |
| StreamingInvariants.StreamAssetKeepsCounts | Source/SimpleAssetStreaming/Private/AssetStreamingSubsystem.cpp:196-197 | streaming keeps every count positive, at least its number of holders, and backed by a keep-alive entry |
| StreamingInvariants.StreamAssetCountAt | Source/SimpleAssetStreaming/Private/AssetStreamingSubsystem.cpp:196-197 | after streaming, any one count is positive and covers its holders |
| StreamingInvariants.StreamAssetKeepsKeepAlive | Source/SimpleAssetStreaming/Private/AssetStreamingSubsystem.cpp:189-194 | every keep-alive handle stays a handle issued for its asset |
| StreamingInvariants.StreamAssetPreservesConsistent | Source/SimpleAssetStreaming/Private/AssetStreamingSubsystem.cpp:176-198 | streaming an asset under an issued id keeps the invariant |
| StreamingInvariants.StreamAllPreservesConsistent | Source/SimpleAssetStreaming/Private/AssetStreamingSubsystem.cpp:72-75 | streaming a list keeps the invariant |
| StreamingInvariants.NewGuidPreservesConsistent | Source/SimpleAssetStreaming/Private/AssetStreamingSubsystem.cpp:69 | moving the guid counter forward keeps the invariant |
| StreamingInvariants.StreamUnderNewGuidPreservesConsistent | Source/SimpleAssetStreaming/Private/AssetStreamingSubsystem.cpp:68-75 | a fresh guid followed by streaming a list keeps the invariant |
| StreamingInvariants.RequestStreamingPreservesConsistent | Source/SimpleAssetStreaming/Private/AssetStreamingSubsystem.cpp:57-79 | requesting a list keeps the invariant |
| StreamingInvariants.RequestSinglePreservesConsistent | Source/SimpleAssetStreaming/Private/AssetStreamingSubsystem.cpp:81-90 | requesting a single asset keeps the invariant |
| StreamingInvariants.RequestSingleTables | Source/SimpleAssetStreaming/Private/AssetStreamingSubsystem.cpp:86-87 | unfolding lemma: a single request streams its asset under the next guid |
| StreamingInvariants.ReleaseFields | Source/SimpleAssetStreaming/Private/AssetStreamingSubsystem.cpp:109-158 | unfolding lemma: a successful release decrements the counts, removes the id, cancels the redundant handles, keeps keep-alive and guid, and queues the zero-count batch iff it is non-empty |
| StreamingInvariants.ReleaseKeepsCounts | Source/SimpleAssetStreaming/Private/AssetStreamingSubsystem.cpp:122-127 | after a release every count is still positive, covers its holders and has a keep-alive entry |
| StreamingInvariants.OtherHolderKeepsCount | Source/SimpleAssetStreaming/Private/AssetStreamingSubsystem.cpp:122-127 | an asset another live request holds keeps its count entry when this request is released |
| StreamingInvariants.ReleaseKeepsClaims | Source/SimpleAssetStreaming/Private/AssetStreamingSubsystem.cpp:142 | the pairs of the remaining requests stay well formed after a release |
| StreamingInvariants.ReleaseKeepsPending | Source/SimpleAssetStreaming/Private/AssetStreamingSubsystem.cpp:144-153 | every pending batch stays non-empty and free of null assets after a release |
| StreamingInvariants.ReleasePreservesConsistent | Source/SimpleAssetStreaming/Private/AssetStreamingSubsystem.cpp:92-159 | under the invariant any release may run, and on every path it keeps the invariant |
| StreamingInvariants.FireNextPreservesConsistent | Source/SimpleAssetStreaming/Private/AssetStreamingSubsystem.cpp:262-303 | a final unload pass keeps the invariant and keeps exact counts exact |
| StreamingProperties.StreamAssetKeepsExactCounts | Source/SimpleAssetStreaming/Public/AssetStreamingSubsystem.h:170-171 | streaming an asset its request does not hold yet keeps every count equal to its number of holders, and adds the asset to the request |
| StreamingProperties.StreamAssetCountExactAt | Source/SimpleAssetStreaming/Public/AssetStreamingSubsystem.h:170-171 | in that case any one count equals its number of holders |
| StreamingProperties.StreamAllKeepsExactCounts | Source/SimpleAssetStreaming/Private/AssetStreamingSubsystem.cpp:72-75 | streaming a list with no repeated asset under a new id keeps counts exact and registers exactly the list's assets |
| StreamingProperties.RequestStreamingKeepsExactCounts | Source/SimpleAssetStreaming/Public/AssetStreamingSubsystem.h:170-171 | a request with no repeated asset keeps counts equal to the number of holding requests and registers exactly its assets under the returned id |
| StreamingProperties.RequestSingleIsSingletonRequest | Source/SimpleAssetStreaming/Private/AssetStreamingSubsystem.cpp:81-90 | the single-asset overload behaves exactly as the list overload on a one-element list |
| StreamingProperties.ReleaseKeepsExactCounts | Source/SimpleAssetStreaming/Private/AssetStreamingSubsystem.cpp:92-159 | a release keeps counts equal to the number of holding requests |
| StreamingProperties.ReleaseCountExactAt | Source/SimpleAssetStreaming/Private/AssetStreamingSubsystem.cpp:122-127 | after a release any remaining count equals its number of holders |
| StreamingProperties.StreamAllCounts | Source/SimpleAssetStreaming/Private/AssetStreamingSubsystem.cpp:72-75 | streaming a list raises each asset's count by the number of times the list names it |
| StreamingProperties.StreamAssetCountOf | Source/SimpleAssetStreaming/Private/AssetStreamingSubsystem.cpp:196-197 | streaming one asset raises its count by one and no other |
| StreamingProperties.RequestStreamingCounts | Source/SimpleAssetStreaming/Private/AssetStreamingSubsystem.cpp:57-79 | a request raises each asset's count by its multiplicity in the list, duplicates included |
| StreamingProperties.ReleaseNeverCancelsKeepAlive | Source/SimpleAssetStreaming/Private/AssetStreamingSubsystem.cpp:129-138 | under the invariant, a release leaves a pair's handle active iff it was active and is its asset's keep-alive handle; no keep-alive handle is ever cancelled by a release |
| StreamingProperties.ReleaseCancelsRedundantOnly | Source/SimpleAssetStreaming/Private/AssetStreamingSubsystem.cpp:129-138 | the same, for any request whose pairs are well formed and whose keep-alive handles were issued for their assets |
| StreamingProperties.KeepAliveNotRedundant | Source/SimpleAssetStreaming/Private/AssetStreamingSubsystem.cpp:129-138 | a keep-alive handle is never among the handles a release cancels |
| StreamingProperties.ZeroedPathsLeaveCounts | Source/SimpleAssetStreaming/Private/AssetStreamingSubsystem.cpp:124-127 | the paths whose count entry a release removes are exactly the paths of the zero-count batch, and the batch is exactly the released pairs whose count entry is gone |
| StreamingProperties.ReleaseSchedulesZeroed | Source/SimpleAssetStreaming/Private/AssetStreamingSubsystem.cpp:144-153 | a release schedules one batch, only when it is non-empty; the batch is exactly the released pairs whose asset lost its count, with no repeated asset |
| StreamingScenarios.FirstRequest | Source/SimpleAssetStreaming/Private/AssetStreamingSubsystem.cpp:81-90 | the first request on a fresh subsystem gets id 1 and handle 0, which becomes the keep-alive handle |
| StreamingScenarios.ReleaseSoleClaim | Source/SimpleAssetStreaming/Private/AssetStreamingSubsystem.cpp:92-159 | releasing the only claim of an asset empties registry and counts and schedules the pair for unloading |
| StreamingScenarios.FirstRelease | Source/SimpleAssetStreaming/Private/AssetStreamingSubsystem.cpp:92-159 | releasing that first request queues the asset's pair and keeps the keep-alive handle |
| StreamingScenarios.ClaimAgain | Source/SimpleAssetStreaming/Private/AssetStreamingSubsystem.cpp:81-90 | claiming the asset again during the delay issues id 2 and handle 1 and keeps handle 0 as keep-alive |
| StreamingScenarios.SecondRelease | Source/SimpleAssetStreaming/Private/AssetStreamingSubsystem.cpp:92-159 | releasing the second request cancels handle 1 and queues a second batch |
| StreamingScenarios.PassOverFirstBatch | Source/SimpleAssetStreaming/Private/AssetStreamingSubsystem.cpp:262-303 | the first pass unloads the asset and reports one unloaded asset |
| StreamingScenarios.PassAfterReclaim | Source/SimpleAssetStreaming/Private/AssetStreamingSubsystem.cpp:275-276 | a pass over an asset claimed again skips it and reports nothing unloaded |
| StreamingScenarios.ReclaimDuringDelaySurvivesUnload | Source/SimpleAssetStreaming/Private/AssetStreamingSubsystem.cpp:275-276 | an asset released and claimed again before its timer fires keeps its keep-alive entry and both handles through the pass |
| StreamingScenarios.ReleaseTwiceBeforeUnloadBreaksSecondPass | Source/SimpleAssetStreaming/Private/AssetStreamingSubsystem.cpp:280-282 | release, re-claim and release before the first timer fires: the invariant holds, but the second pass reaches an unclaimed asset with no keep-alive entry to index |
| StreamingScenarios.SecondBatchIsUnsafe | Source/SimpleAssetStreaming/Private/AssetStreamingSubsystem.cpp:281 | in that state the invariant holds and the second batch fails the precondition of the pass |
| StreamingScenarios.RequestSameAssetTwice | Source/SimpleAssetStreaming/Private/AssetStreamingSubsystem.cpp:204-210 | a request listing one asset twice on a fresh subsystem succeeds with id 1 |
| StreamingScenarios.DuplicateInOneRequestLeaks | Source/SimpleAssetStreaming/Private/AssetStreamingSubsystem.cpp:204-210 | such a request registers one pair but counts the asset twice; its release leaves a count of 1 with no holder, schedules nothing, and leaves the second load's handle active |
| KeepAliveHandles.InitialKeepAliveActive | Source/SimpleAssetStreaming/Public/AssetStreamingSubsystem.h:173-174 | a fresh subsystem has no keep-alive entry, so every keep-alive handle is active |
| KeepAliveHandles.StreamAssetKeepsAlive | Source/SimpleAssetStreaming/Private/AssetStreamingSubsystem.cpp:189-194 | streaming keeps every keep-alive handle active, including a new one, which is the load just issued |
| KeepAliveHandles.StreamAllKeepsAlive | Source/SimpleAssetStreaming/Private/AssetStreamingSubsystem.cpp:72-75 | streaming a list keeps every keep-alive handle active |
| KeepAliveHandles.RequestStreamingKeepsAlive | Source/SimpleAssetStreaming/Private/AssetStreamingSubsystem.cpp:57-79 | a list request keeps every keep-alive handle active |
| KeepAliveHandles.RequestSingleKeepsAlive | Source/SimpleAssetStreaming/Private/AssetStreamingSubsystem.cpp:81-90 | a single request keeps every keep-alive handle active |
| KeepAliveHandles.ReleaseKeepsAlive | Source/SimpleAssetStreaming/Private/AssetStreamingSubsystem.cpp:129-138 | under the invariant, a release on any of its paths keeps every keep-alive handle active |
| KeepAliveHandles.FireNextKeepsAlive | Source/SimpleAssetStreaming/Private/AssetStreamingSubsystem.cpp:275-295 | a final unload pass keeps active the keep-alive handle of every asset it does not unload; the assets it unloads lose their entry |
| UnloadSafety.StreamAssetKeepsOldestSafe | Source/SimpleAssetStreaming/Private/AssetStreamingSubsystem.cpp:176-198 | streaming an asset keeps the oldest pending batch safe to pass over: it changes no batch, only raises counts and only adds keep-alive entries |
| UnloadSafety.StreamAllKeepsOldestSafe | Source/SimpleAssetStreaming/Private/AssetStreamingSubsystem.cpp:72-75 | streaming a list keeps the oldest pending batch safe |
| UnloadSafety.RequestStreamingKeepsOldestSafe | Source/SimpleAssetStreaming/Private/AssetStreamingSubsystem.cpp:57-79 | a list request keeps the oldest pending batch safe |
| UnloadSafety.RequestSingleKeepsOldestSafe | Source/SimpleAssetStreaming/Private/AssetStreamingSubsystem.cpp:81-90 | a single request keeps the oldest pending batch safe |
| UnloadSafety.ReleaseBehindQueueKeepsOldestSafe | Source/SimpleAssetStreaming/Private/AssetStreamingSubsystem.cpp:122-127 | behind a non-empty queue, a release only lowers counts, and every asset it uncounts keeps its keep-alive entry, so the oldest batch stays safe |
| UnloadSafety.ReleaseIntoEmptyQueueIsSafe | Source/SimpleAssetStreaming/Private/AssetStreamingSubsystem.cpp:141-152 | into an empty queue, a release queues at most one batch, and that batch names distinct assets, each uncounted and still kept alive, so its pass may run |
| UnloadSafety.ReleaseKeepsOldestSafe | Source/SimpleAssetStreaming/Private/AssetStreamingSubsystem.cpp:92-159 | under the invariant, a release on any of its paths may run and keeps the oldest pending batch safe |
| UnloadSafety.FireNextKeepsOldestSafe | Source/SimpleAssetStreaming/Private/AssetStreamingSubsystem.cpp:273-282 | a pass leaves the next batch safe when that batch was safe and the pass unloads none of its assets |
| UnloadSafety.RequestReleaseFireIsSafe | Source/SimpleAssetStreaming/Private/AssetStreamingSubsystem.cpp:246-303 | from a consistent subsystem with no pending timer: a request, then its release, may run; the release succeeds iff the request listed assets; at most one batch is queued, the pass over it may run, and the queue is empty afterwards |
| ReleaseLoops.ReleaseLoopMeetsSpec | Source/SimpleAssetStreaming/Private/AssetStreamingSubsystem.cpp:112-139 | the reverse release loop run on a releasable request computes the zero-count batch, the decremented counts and the loader with exactly the redundant handles cancelled |
| ReleaseLoops.ReleaseLoopFrom | Source/SimpleAssetStreaming/Private/AssetStreamingSubsystem.cpp:112-139 | from any index, on the state the pairs above it leave behind, the loop ends in the state the whole request leaves behind |
| ReleaseLoops.ReleaseLoopStep | Source/SimpleAssetStreaming/Private/AssetStreamingSubsystem.cpp:114-138 | one iteration moves the state of the walked suffix one pair down |
| ReleaseLoops.ReleaseLoopUnfold | Source/SimpleAssetStreaming/Private/AssetStreamingSubsystem.cpp:118-120 | wherever the loop does not stop, the checks of the current pair hold and the loop continues from the state after it |
| ReleaseLoops.ReleaseCountStep | Source/SimpleAssetStreaming/Private/AssetStreamingSubsystem.cpp:122-127 | a pair's count is still the original one when the loop reaches it, and the decrement extends the walked suffix |
| ReleaseLoops.ReleaseArrayStep | Source/SimpleAssetStreaming/Private/AssetStreamingSubsystem.cpp:124-127 | a still-claimed pair leaves the local array; a pair whose count reaches zero stays |
| ReleaseLoops.ReleaseCancelStep | Source/SimpleAssetStreaming/Private/AssetStreamingSubsystem.cpp:129-138 | the pair's handle is cancelled on top of the walked suffix iff it is not its asset's keep-alive handle |
| UnloadLoops.UnloadLoopMeetsSpec | Source/SimpleAssetStreaming/Private/AssetStreamingSubsystem.cpp:267-300 | on a batch that is safe to unload, the forward loop runs to the end and computes the pass `FinalUnload` |
| UnloadLoops.UnloadLoopFrom | Source/SimpleAssetStreaming/Private/AssetStreamingSubsystem.cpp:267-300 | from any candidate of a safe batch, the loop completes the pass |
| AssetStreaming.AssetStreamingSubsystem.constructor | Source/SimpleAssetStreaming/Public/AssetStreamingSubsystem.h:50-56 | a fresh subsystem has delay 5 seconds and empty tables, and satisfies both invariants |
| AssetStreaming.AssetStreamingSubsystem.Initialize | Source/SimpleAssetStreaming/Private/AssetStreamingSubsystem.cpp:37-50 | a negative delay becomes 5 seconds, any other delay is kept, and the delay is non-negative afterwards |
| AssetStreaming.AssetStreamingSubsystem.NewGuid | Source/SimpleAssetStreaming/Private/AssetStreamingSubsystem.cpp:69 | each new guid is one past the last one issued |
| AssetStreaming.AssetStreamingSubsystem.RequestAssetStreaming | Source/SimpleAssetStreaming/Private/AssetStreamingSubsystem.cpp:57-79 | the method's result and new state are exactly `RequestStreaming` of the old state, and the delay is untouched |
| AssetStreaming.AssetStreamingSubsystem.RequestSingleAssetStreaming | Source/SimpleAssetStreaming/Private/AssetStreamingSubsystem.cpp:81-90 | the method's result and new state are exactly `RequestSingle` of the old state, and the delay is untouched |
| AssetStreaming.AssetStreamingSubsystem.StreamAsset | Source/SimpleAssetStreaming/Private/AssetStreamingSubsystem.cpp:176-198 | the new state is `StreamingTables.StreamAsset` of the old one |
| AssetStreaming.AssetStreamingSubsystem.RegisterAssetToId | Source/SimpleAssetStreaming/Private/AssetStreamingSubsystem.cpp:200-221 | the registry becomes `Register` of the old registry and the new pair |
| AssetStreaming.AssetStreamingSubsystem.IncrementAssetReference | Source/SimpleAssetStreaming/Private/AssetStreamingSubsystem.cpp:223-236 | the counts become `Increment` of the old counts |
| AssetStreaming.AssetStreamingSubsystem.ReleaseAssets | Source/SimpleAssetStreaming/Private/AssetStreamingSubsystem.cpp:92-159 | the method's result, returned id and new state are exactly `Release` of the old state |
| AssetStreaming.AssetStreamingSubsystem.ReleaseClaims | Source/SimpleAssetStreaming/Private/AssetStreamingSubsystem.cpp:109-139 | the release loop returns the zero-count batch, leaves the decremented counts and cancels exactly the redundant handles |
| AssetStreaming.AssetStreamingSubsystem.ReleaseLoopOver | Source/SimpleAssetStreaming/Private/AssetStreamingSubsystem.cpp:112-139 | the reverse `while` loop computes `ReleaseLoops.ReleaseLoop` of the starting state |
| AssetStreaming.AssetStreamingSubsystem.ScheduleAssetUnloading | Source/SimpleAssetStreaming/Private/AssetStreamingSubsystem.cpp:246-260 | the new state is `ScheduleUnloading` of the old one: an empty batch is ignored, any other one is queued |
| AssetStreaming.AssetStreamingSubsystem.FireNextUnload | Source/SimpleAssetStreaming/Private/AssetStreamingSubsystem.cpp:254-259 | the oldest timer fires: the new state and the reported count are exactly `FireNext` of the old state |
| AssetStreaming.AssetStreamingSubsystem.FinalUnloadAssets | Source/SimpleAssetStreaming/Private/AssetStreamingSubsystem.cpp:262-303 | the forward `for` loop computes `UnloadLoops.UnloadLoop` of the starting state, and so the pass `FinalUnload` |
| AssetStreaming.AssetStreamingSubsystem.CancelHandles | Source/SimpleAssetStreaming/Private/AssetStreamingSubsystem.cpp:286-295 | cancelling the handles one at a time ends with exactly that set cancelled |
| ReleaseAsWritten.ReleaseLoopAsWritten | Source/SimpleAssetStreaming/Private/AssetStreamingSubsystem.cpp:112-139 | the loop with the pair read through the reference after removal; cancellations only accumulate and the local array only shrinks |
| ReleaseAsWritten.StaleHandleCancelsKeepAlive | Source/SimpleAssetStreaming/Private/AssetStreamingSubsystem.cpp:114-134 | on the example below, the loop as written cancels B's keep-alive handle 2 and never cancels the redundant handle 1 |
| ReleaseAsWritten.CopiedPairCancelsRedundant | Source/SimpleAssetStreaming/Private/AssetStreamingSubsystem.cpp:114-134 | on the same example, the corrected loop cancels handle 1 and keeps both keep-alive handles 0 and 2 active |

Each method of `AssetStreaming.AssetStreamingSubsystem` is tied to its table
function by an equality. Every lemma about `Release`, `RequestStreaming`,
`RequestSingle` and `FireNext` therefore holds of the object's state after
the call. This includes keeping `Consistent`, exact counts, and never
cancelling a keep-alive handle.

## Left out

- The streamable manager is reduced to handle allocation, cancellation and
  the set of active handles per asset.
  - Load priority, residency and the manage-handle flag are not modelled.
  - Load completion callbacks are not modelled.
  - `GetActiveHandles` is modelled as returning every active handle of the
    path.
- `HandleAssetLoaded` and the `IAssetStreamingCallback` parameter of the
  request methods are left out: they are an asynchronous completion path into
  engine code.
- The timer manager and `GetWorld()` are replaced by a queue of pending
  batches.
  - Timers fire oldest first, through `FireNextUnload`.
  - There is no clock, so the delay only has its sign modelled.
- `UnloadDelaySeconds` is a `real`; single-precision float arithmetic is not
  modelled.
- `FGuid::NewGuid` is a counter (0 is the invalid guid), so fresh guids never
  collide; random guid generation is not modelled.
- The singleton `Instance`, `Deinitialize`, `CheckThis` and the
  `if (!this)` test are left out; they concern object lifetime, not the
  tables.
- The `K2_` Blueprint wrappers only forward to the modelled methods.
  `UE_LOG` output is left out.
- Counts are unbounded integers: `int32` overflow after 2^31-1 claims is not
  modelled.
- The `checkf` assertions and the map lookups that require their key are
  stated as preconditions rather than modelled as crashes.
  - `StreamAsset` and `RequestAssetStreaming` require non-null assets.
  - `ReleaseAssets` requires `ReleasableClaims` on the request it releases.
    `StreamingInvariants.ConsistentAllowsRelease` shows the invariant always
    provides this.
  - `FireNextUnload` requires `UnloadSafe` of the oldest batch. Requests and
    releases keep the oldest batch safe (`UnloadSafety`), but a pass can bring
    an unsafe batch to the front; see
    `StreamingScenarios.ReleaseTwiceBeforeUnloadBreaksSecondPass`.
- The out-parameter guids passed by reference become a returned guid.
- AssetStreaming.AssetStreamingSubsystem.RequestAssetStreaming: like every
  other method, it does not restate `Valid()` in its ensures. Keeping the
  invariants is proved once, on the table function it equals
  (`StreamingInvariants.*PreservesConsistent`, `KeepAliveHandles.*KeepsAlive`).
- AssetStreaming.AssetStreamingSubsystem.ReleaseLoopOver: it is specified
  for inputs on which `ReleaseLoops.ReleaseLoop` is defined. On other inputs
  a check of the source fails mid-loop, and that is not modelled.
- AssetStreaming.AssetStreamingSubsystem.FinalUnloadAssets: it is specified
  for batches on which `UnloadLoops.UnloadLoop` is defined. On other batches
  the source indexes a missing keep-alive key or unloads a null asset, and
  that is not modelled.
- The crash at AssetStreamingSubsystem.cpp:281 on a batch queued twice for one
  asset is exhibited, not corrected.
  - The model keeps the source's requirement that the key be present.
  - No corrected pass is proposed, because the source gives no intended
    behaviour for the second batch.

## Findings

| source | as written | input that shows it | evidently intended | confidence | as-written member | corrected member |
|---|---|---|---|---|---|---|
| Source/SimpleAssetStreaming/Private/AssetStreamingSubsystem.cpp:114-133 | `Pair` is a reference into the local array. When the asset is still claimed, line 125 removes that element, and lines 130 and 133 then compare and cancel the handle of whatever element has moved into that slot (or read past the end of the array). | Another request holds A with keep-alive handle 0. A request streamed [A, B] with handles 1 and 2, and 2 is B's keep-alive handle. Releasing that request as written cancels handle 2, B's keep-alive handle, and leaves the redundant handle 1 active. | Compare and cancel the pair's own handle: cancel handle 1, keep handles 0 and 2 active. For every request, the corrected loop is proved equal to `StreamingTables.Release` (`ReleaseLoops.ReleaseLoopMeetsSpec`), which never cancels a keep-alive handle (`StreamingProperties.ReleaseNeverCancelsKeepAlive`). | high; not executed | ReleaseAsWritten.StaleHandleCancelsKeepAlive | ReleaseAsWritten.CopiedPairCancelsRedundant |

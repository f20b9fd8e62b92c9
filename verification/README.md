# Verification of the price and explorer pipelines

A Dafny model of the parts of the indexer whose correctness is hardest to see from the code, with
machine-checked proofs. `dafny verify dfyconfig.toml` checks everything.

| files | what they model |
|---|---|
| `PathTypes`, `PathSearchSpec`, `PathSearchProofs`, `PathSearchWork`, `PathSearchRun`, `PathMeaning`, `PathSearch`, `StableSort` | the worklist search for price paths and its capped, evicting observation lists |
| `WeightedMedian` | the two weighted medians |
| `UniswapV3`, `UniswapV3Pool` | the concentrated-liquidity tracker, the pool it follows, and the re-seed at startup |
| `RowBuffers`, `RawIngestion`, `RawDurability`, `RawTransact`, `RawDatabase` | the raw pipeline's buffering, checkpoint and range protocol under crashes |
| `Publication`, `PublicationProofs`, `PublicationDatabase` | the price pipeline's insert-once, blocks-last and deferred publication protocol under crashes |
| `BalanceReconcile`, `ReconcileProofs`, `BalanceSweep` | the diff-only balance sweep |
| `KeyedLists`, `KeyOrder`, `CompositionCache`, `CompositionRuns` | the pool composition cache against the chain |
| `HubHops`, `DecimalStrings`, `VolumeRows`, `TradeVolumes`, `VolumeMeaning` | volume booking |
| `EvmLogs`, `EvmEncoding` | the EVM event decoder and the encoding it inverts |
| `AtokenBalances` | the batched ERC-20 and aToken balance read |
| `PoolThrottle` | the push throttle of the explorer UI |
| `WorkerPool`, `AccountState`, `AccountStateProofs` | the account-state capture and its worker pool |

Code that updates state in place is a class or a method with loops, proved equal to a specification
function; the theorems are about those functions, and where a small definition decides what a result
means, a second, independent statement of it is proved to agree (`PathMeaning`, `VolumeMeaning`,
`BalanceSweep`, `RawTransact`, and sections of the other files). A crash, a scheduler or a timer is a
sequence of steps, and the theorems quantify over all of them. Edges of the price graph carry arbitrary price and
liquidity functions; token and dollar amounts are unbounded integers, as `bigint` is.

## Findings

Places where the code does not do what a reader might expect, each with the exact condition:

- Height 0 stands for "no checkpoint", and a run without `--from-block` asks for the chain's head of
  the moment each time it finds none. So an unbounded raw run that is asked for block 0 checkpoints
  past block 0 without having delivered it, and a follower that dies before its first checkpoint and
  restarts at a later head checkpoints past blocks that were delivered and lost
  (`RawDurability.GenesisIsSkipped`, `RawDurability.FollowerSkipsHead`). Starting a process is safe
  exactly when no block ever asked for is missing below the first one it will be given
  (`RawDurability.LaunchIsSafeIff`), always once a checkpoint exists; a configuration is safe in
  every history exactly when it names its first block, and block 0 only with a last one
  (`RawDurability.SafeConfigurations`). The price pipeline has the same two failures, and is safe in
  every history exactly when it names its first block or asks for block 0 alone
  (`PublicationProofs.LaunchIsSafeIff`, `PublicationProofs.SafeConfigurations`).
- A range is completed once per process, not once for ever, for the flag lives in memory: over a
  whole history it is completed at most once exactly when no worker that found it completed lived to
  finalise it again (`RawDurability.CompletedOnceIff`, `RawDurability.RestartCompletesAgain`).
- Replaying an Initialize-only anchor into a tracker that already advanced keeps the old liquidity,
  and going back behind a pool's first event replays nothing at all. The re-seed is right exactly
  when the anchor block holds a Swap or the tracker held no liquidity; without rows at or below the
  height, exactly when the tracker held nothing (`UniswapV3Pool.AdvancedReseedIsExactIff`). The block
  loop then folds the replayed blocks on top, which doubles the liquidity of a pool initialised in
  them until its next Swap (`UniswapV3Pool.ReplayDoublesLiquidity`).
- A trade list still holds a foldable pair after the hub-hop fold, and folding again changes it,
  exactly when three trades in a row are linked (`HubHops.LeftoverIffDoubleLink`,
  `HubHops.IdempotentIff`).
- Folding a block's events a second time keeps what each list holds but may change its order; the
  cache stays exactly as it was if and only if every key that the events remove and add again stands
  behind every key they never remove (`CompositionRuns.RefoldAgrees`,
  `CompositionRuns.RefoldIsSameIff`, `CompositionRuns.RefoldReorders`).
- A pool push of head 0 inside an open, empty window is lost; every other push is answered within a
  window (`PoolThrottle.PushIsAnswered`, `PoolThrottle.OtherPushesAreLost`).

## Model

| member | source | states |
|---|---|---|
| WeightedMedian.SelectMedian | src/price/graph.ts:365-391 | answers nothing only for no observations, else a value of the list with less than half the weight (floored at 1 each) strictly below it and at least half up to it; the fallback after the loop is unreachable |
| WeightedMedian.SelectMedianPath | src/price/graph.ts:393-423 | the same for path observations, ordered by price, then hops, then falling liquidity |
| WeightedMedian.MedianMinimisesDeviation | src/price/graph.ts:381-388 | a lower median's value minimises the weighted sum of absolute deviations over all integers |
| WeightedMedian.MajorityHoldsMedian | src/price/graph.ts:381-388 | an interval holding more than half of the weight contains it |
| WeightedMedian.SelectedValueIsRobust | src/price/graph.ts:365-391 | both for what the first median selects |
| WeightedMedian.SelectedPathIsRobust | src/price/graph.ts:393-423 | both for the price the path median selects |
| WeightedMedian.SelectedValueIsOrderFree | src/price/graph.ts:365-391 | permuting the observations does not change the selected value |
| WeightedMedian.SelectedTripleIsOrderFree | src/price/graph.ts:393-423 | nor the selected price, hop count and liquidity |
| PathSearchSpec.PruningIsFiltering | src/price/graph.ts:547-561 | a whole path is admissible exactly when its prefix is and its last edge passes the inner loop's guards: pruning prefixes is filtering paths |
| PathMeaning.WalkMeans | src/price/graph.ts:547-571 | what a route composes to, edge by edge: the price is the seed's run through every edge's price function, the hop count the number of XYK, stableswap and Uniswap edges, the liquidity the least of 10^48 and every edge's depth at the prices on its two sides, the path the assets visited |
| PathMeaning.AdmissibleMeans | src/price/graph.ts:547-561 | the paths the search admits are exactly the simple routes of the graph from a seed that visit no priced asset, are nowhere priced at zero, cross at most `maxHops` pools and are as deep as the dollar threshold times 10^18 |
| PathMeaning.GoodKeyIff | src/price/graph.ts:563-571 | a (price, hops, path) key is admissible if and only if such a route has that price at its end, that many pools and those assets |
| PathSearchSpec.OfferFacts | src/price/graph.ts:500-540 | an offered observation leaves distinct keys, at most `cap` of them, loses no key unless the list is full, and every stored record is the offered one or descends from one stored before with no less liquidity |
| PathSearchSpec.OfferStreams | src/price/graph.ts:519-539 | while nothing merges, cutting after every offer equals ranking everything offered and cutting once |
| PathSearchSpec.EvictedIsNeverBetter | src/price/graph.ts:519-539 | what the cut removes is not deeper than anything it keeps, at the same depth crosses no fewer pools, and then is not cheaper |
| PathSearchProofs.VisitKeepsInv | src/price/graph.ts:547-573 | one accepted edge keeps the search's invariant on queue and lists |
| PathSearchProofs.ExhaustedSearchIsExact | src/price/graph.ts:542-574 | an exhausted queue with no list at its cap records exactly the admissible keys |
| PathSearchRun.StepDecreases | src/price/graph.ts:542-574 | taking one entry off the queue decreases the work left, so the search ends on every finite graph, wrapper cycles and re-inserted keys included |
| PathSearchRun.SearchKeeps | src/price/graph.ts:542-574 | the invariant holds of the final queue and lists |
| PathSearchRun.SearchIsSound | src/price/graph.ts:477-574 | for every cap, each stored observation has the end price, the number of pools and the assets of a good route in the sense of PathMeaning.AdmissibleMeans, and no less than its bottleneck; keys are distinct and lists hold at most the cap, 64 unless configured and never less than 1 |
| PathSearchRun.SearchIsExact | src/price/graph.ts:477-574 | when every asset's list stays below the cap or has room for all its admissible keys, the recorded (path, price, hops) keys are exactly those of the good routes to that asset |
| PathSearchRun.SearchTallies | src/price/graph.ts:500-574 | in a list below its cap every stored depth is the sum of the depths of all offers with its key, and every offer is a good route at its true bottleneck |
| PathSearchRun.SearchStreamsTopK | src/price/graph.ts:519-574 | without merges each list is the top `cap` of everything offered to it, and everything offered is a good route |
| PathSearch.ObservationBook.AddObservation | src/price/graph.ts:500-540 | the mutable lists and key maps, whose records are shared, follow the specification of an offer: a known key is deepened where it stands, a new one ranked and the list cut |
| PathSearch.ExpandEntry | src/price/graph.ts:544-573 | the inner loop over one entry's edges, on the mutable book and queue |
| PathSearch.ResolveByWeightedMedian | src/price/graph.ts:477-596 | the result covers the recorded and seed assets; seeds keep their price at hop 0; any other price is the median of its list, weighted by depth and at least 1, and the end price of a good route |
| UniswapV3.VirtualProductIsBounded | src/price/uniswapV3.ts:241-247 | rounded virtual reserves are positive and their product is at most the square of the liquidity |
| UniswapV3.VirtualReservesAre | src/price/uniswapV3.ts:241-247 | reserve 0 is L·2^96/P and reserve 1 is L·P/2^96, each bracketed by the floor, and there are none exactly when price or liquidity is not positive or a reserve would be 0 |
| UniswapV3.EdgeIs | src/price/uniswapV3.ts:478-492 | the same of the edge a pool's state offers, with 2^96 written out |
| UniswapV3.ReservesFollowPrice | src/price/uniswapV3.ts:241-247 | at fixed liquidity a higher price never raises reserve 0 and never lowers reserve 1 |
| UniswapV3.TrackedPool.ApplyPoolEvent | src/price/uniswapV3.ts:259-282 | updates the state record as the fold does and reports a change exactly for an Initialize, a Swap, or a non-zero Mint or Burn around the current tick |
| UniswapV3.PoolTracker.ProcessEvents | src/price/uniswapV3.ts:430-459 | folds a block's logs into all pools, counts the swaps of known pools, reports a change exactly when some log moved a pool known at that moment, and without one no edge changed |
| UniswapV3.KnownPoolFoldsAlone | src/price/uniswapV3.ts:430-459 | a known pool's state is the fold of its own events, whatever the others do |
| UniswapV3.NewPoolStartsEmpty | src/price/uniswapV3.ts:416-438 | a pool is tracked from its first creation on, from the empty state |
| UniswapV3Pool.TrackerFollowsPool | src/price/uniswapV3.ts:259-282 | after every run of an abstract pool with positions, tracked price, tick and liquidity are the pool's own, liquidity being that of the positions in range |
| UniswapV3Pool.BurnsNeverSaturate | src/price/uniswapV3.ts:274-277 | no burn of such a run meets the saturating branch |
| UniswapV3Pool.FreshReseedIsExact | src/price/uniswapV3.ts:505-563 | replaying from the newest anchor block into a fresh tracker equals folding the whole history, at every height |
| UniswapV3Pool.SwapReseedIsExact | src/price/uniswapV3.ts:505-563 | with a Swap in the anchor block it does so into any tracker state |
| UniswapV3Pool.AdvancedReseedIsExactIff | src/price/uniswapV3.ts:505-563 | into a tracker already advanced it does so if and only if the anchor block holds a Swap or the tracker held no liquidity, and, without rows at or below the height, if and only if the tracker held nothing |
| UniswapV3Pool.ReplayDoublesLiquidity | src/indexer.ts:514-526 | going back behind a pool's initialisation and folding its blocks again doubles the liquidity of every history without a Swap |
| UniswapV3Pool.FirstMintCountsTwice | src/indexer.ts:514-526 | the smallest such history |
| UniswapV3Pool.ReseedFollowsPool | src/price/uniswapV3.ts:505-563 | a tracker restarted at any height holds the abstract pool's state there |
| RawDatabase.RawStore.FlushAll | src/raw/store.ts:164-175 | empties every table's buffer and inserts its chunks, table by table |
| RowBuffers.ChunksAreGreedy | src/store/batch.ts:7-38 | the chunks are the rows in order, each as long as it may be: none takes a row it is full for, and only such a row closes it |
| RawDatabase.RawDatabase.TransactBatch | src/raw/database.ts:42-89 | buffers, decides, and on a trigger writes all rows, then the checkpoint, then the range, as the specification does |
| RawDatabase.RawDatabase.ConnectTo | src/raw/database.ts:34-40 | resumes at the saved head, or before block 0 for a new genesis range; a finished range worker only finalises |
| RawDatabase.RawDatabase.FinalizeRange | src/raw/database.ts:98-107 | completes the range unless this process already did |
| RawDurability.HistoryIsSafe | src/raw/database.ts:34-107 | in every history of processes crashing between any two inserts, each asked for a block of its own: checkpoints never fall, each covers only blocks already on disk from the block on where the process began that saved the first, and a completed range is on disk and checkpointed at its end or above |
| RawDurability.ResumeSkipsNothing | src/raw/database.ts:34-40 | a process that finds a checkpoint is given the first block not known to be on disk: every one before it, from that base on, is |
| RawDurability.LaunchIsSafeIff | src/raw/indexer.ts:385-437 | starting one more process keeps every checkpoint over all blocks ever asked for, whatever happens to it, if and only if none of them is missing on disk below the first block it will be given |
| RawDurability.CheckpointedLaunchIsSafe | src/raw/indexer.ts:385-390 | with a checkpoint none is ever missing |
| RawDurability.SafeConfigurations | src/raw/indexer.ts:385-437 | the checkpoints of a configuration cover all blocks asked for in every history if and only if it names its first block, and block 0 only with a last one |
| RawDurability.FollowerSkipsHead | src/raw/indexer.ts:391-402 | the failing history of a follower: it dies before its first checkpoint and starts again at a later head |
| RawDurability.GenesisIsSkipped | src/raw/indexer.ts:391-405 | the failing history of an unbounded run that is asked for block 0 |
| RawDurability.FreshRunBeginsAtStartIff | src/raw/database.ts:124-133 | without a checkpoint a run begins at the block it was asked for if and only if that is not block 0 of an unbounded run |
| RawDurability.CompletedOncePerLife | src/raw/database.ts:80-107 | a process completes its range at most once, and has done so as soon as a batch reached its end |
| RawDurability.CompletedOnceIff | src/raw/database.ts:98-107 | in every history a range is completed at most once if and only if no process that was started on a disk with a completed range lived to complete it again |
| RawDurability.RestartCompletesAgain | src/raw/indexer.ts:439-451 | a history of every range worker with two completions: one batch to the end of the range, then a restart |
| RawDurability.UnflushedIsSmall | src/raw/flushPolicy.ts:71-78 | after a transact that did not flush, block, row and time limits all hold |
| RawDurability.PendingBlocksAreUnsaved | src/raw/database.ts:54-78 | the buffered blocks are exactly those above the last saved head, or since the process began |
| RawTransact.FlushesIff | src/raw/database.ts:54-67 | a transact flushes if and only if the head is the chain's, the range's end is reached, the blocks buffered and delivered, some table's rows or the time since the last flush meet their limit |
| RawTransact.FlushWritesAll | src/raw/database.ts:68-89 | a flush writes exactly the rows that waited and the delivered head as checkpoint, completes the range at its end unless this process did, empties every buffer and restarts the clock |
| RawTransact.FlushesInOrder | src/raw/store.ts:164-175 | it inserts the buffers one after the other, each from its first row to its last |
| RawTransact.WaitingWritesNothing | src/raw/database.ts:54-67 | any other transact writes nothing, appends the delivered rows to their tables' buffers and leaves clock and range alone |
| PublicationDatabase.Store.InsertChunk | src/store/clickhouseStore.ts:219-288 | one insert of distinct keys, without those a probe finds in a probed table, or none |
| PublicationDatabase.Store.FlushAll | src/store/clickhouseStore.ts:394-406 | inserts every batch with `blocks` last, or stages everything when publication is deferred |
| PublicationDatabase.Store.PublishDeferred | src/store/clickhouseStore.ts:353-382 | publishes the staged lists in the same order and clears them |
| PublicationDatabase.Database.TransactBatch | src/db/database.ts:50-69 | flushes and checkpoints, or stages and publishes once the publication block is reached |
| PublicationDatabase.Database.PublishDeferred | src/db/database.ts:71-85 | publishes what is staged, then saves the pending checkpoint |
| PublicationDatabase.Database.ConnectTo | src/db/database.ts:29-48 | resumes at the checkpoint, or before block 0 for a genesis run |
| PublicationProofs.HistoryIsSafe | src/db/database.ts:50-85 | in every history with crashes, also while publishing, each process asked for a block of its own: no key of prices, trade volumes, runtime upgrades or blocks is inserted twice, a visible block row means all its other rows are visible, and a checkpoint covers only complete blocks from the block on where the process began that saved the first |
| PublicationProofs.LaunchIsSafeIff | src/indexer.ts:432-465 | starting one more process keeps every checkpoint over all blocks ever asked for, whatever happens to it, if and only if none of them is missing below the first block it will be given, or it will be given none |
| PublicationProofs.SafeConfigurations | src/indexer.ts:432-465 | the checkpoints of a configuration cover all blocks asked for in every history if and only if it names its first block or asks for block 0 alone |
| PublicationProofs.GenesisIsSkipped | src/indexer.ts:432-449 | the failing history of a run without a first block and without a head |
| PublicationProofs.FollowerSkipsHead | src/indexer.ts:438-446 | the failing history of a follower that starts again at a later head |
| PublicationProofs.FreshRunBeginsAtStart | src/db/database.ts:29-48 | without a checkpoint a run begins at the block it was asked for if and only if it names it, or follows a head above 0 |
| PublicationProofs.VisibleBlockIsComplete | src/store/clickhouseStore.ts:384-406 | at any moment of such a history a visible block has its prices, volumes, assets, upgrades and error names visible |
| PublicationProofs.DeferredUntilReached | src/db/database.ts:57-65 | a deferred run writes nothing until a batch reaches the publication block, and has published exactly when one did |
| PublicationProofs.PublishingBatchPublishesAll | src/db/database.ts:57-85 | every batch of an undeferred run, and the first of a deferred one that reaches the publication block, makes every block delivered so far durable and checkpoints its head |
| PublicationProofs.ReplacedTablesAreRewritten | src/store/clickhouseStore.ts:290-345 | assets and error names are written whenever they are staged, whatever is on disk |
| PublicationProofs.NothingIsInvented | src/store/clickhouseStore.ts:219-406 | in every history a row on disk is a row of its own block and table |
| BalanceReconcile.BalanceReconciler.Filter | src/raw/balanceReconcile.ts:74-96 | returns the rows that differ, extends `seen`, and counts each row under one verdict |
| BalanceReconcile.BalanceReconciler.AbsentPairs | src/raw/balanceReconcile.ts:103-117 | names, in the projection's order, the pairs that BalanceSweep.AbsentPairsAre describes, and notes an example of each while there is room |
| ReconcileProofs.KeyRoundTrips | src/raw/balanceReconcile.ts:56-58 | a pair survives its key and the split at the last bar if and only if the asset id holds no bar |
| ReconcileProofs.SignatureTellsBalances | src/raw/balanceReconcile.ts:52-54 | equal signatures mean equal balances, a missing field counting as empty |
| ReconcileProofs.CountsAddUp | src/raw/balanceReconcile.ts:76-96 | compared = unchanged + superseded + changed + missing, and changed + missing counts the kept rows |
| ReconcileProofs.PagesConcatenate | src/raw/balanceReconcile.ts:74-96 | filtering page by page equals filtering all pages at once |
| BalanceSweep.Sweep | src/scripts/snapshot-balances.ts:147-192 | a whole pass writes one row per diff it counts, counts every row under its own kind, and leaves every pair reading as storage does if its map was read and it was not observed above the anchor, and as before otherwise |
| BalanceSweep.AbsentPairsAre | src/raw/balanceReconcile.ts:103-117 | for any account and asset without a bar, the pair is named absent if and only if it is projected with another text than that of three zeros, not above the anchor, unseen, and native accounts were read when the asset is "0", token accounts otherwise |
| BalanceSweep.KeptIff | src/raw/balanceReconcile.ts:74-96 | a row is kept if and only if its pair is not projected above the anchor and the projection holds another text than its total, free and reserved joined by bars |
| BalanceSweep.CountsByKind | src/raw/balanceReconcile.ts:76-96 | superseded, unchanged, missing and changed rise by the rows of exactly their own kind |
| BalanceSweep.ExamplesAre | src/raw/balanceReconcile.ts:123-135 | the examples are the first diffs there is room for, missing where the projection has no such pair and changed otherwise, with what both sides hold |
| BalanceSweep.SweepConverges | src/scripts/snapshot-balances.ts:147-192 | after a sweep with its own scope, a pair of a map that was read and not observed above the anchor reads as storage does, zero or absent where storage has none |
| BalanceSweep.SweepKeepsOutOfScope | src/scripts/snapshot-balances.ts:147-192 | a pair of a map that was not read is untouched |
| ReconcileProofs.WrittenIffDifferent | src/raw/balanceReconcile.ts:74-117 | a pair in scope is written if and only if it was not observed above the anchor and the projection differs from storage |
| ReconcileProofs.PassConverges | src/raw/balanceReconcile.ts:74-117 | after a pass every pair in scope not observed above the anchor reads as storage does, and a superseded one as before |
| ReconcileProofs.OutOfScopeIsKept | src/raw/balanceReconcile.ts:110-111 | a pair outside the maps that were read is untouched |
| ReconcileProofs.SecondPassIsClean | src/raw/balanceReconcile.ts:74-121 | a second pass over the same storage finds nothing changed, missing or absent |
| CompositionCache.PoolCompositionCache.ProcessEvents | src/pool/compositionCache.ts:76-196 | folds a block's events into the cached lists and reports the Omnipool, XYK or stableswap family changed exactly when one of its events occurs, cached or not |
| CompositionCache.PoolCompositionCache.InvalidateAll | src/pool/compositionCache.ts:203-211 | forgets every list, keeping which storages were ever readable |
| CompositionCache.PoolCompositionCache.GetOmnipoolAssets | src/pool/compositionCache.ts:217-233 | reads storage only for an empty list, and fails once a storage that worked is unreadable |
| CompositionRuns.RunBlock | src/indexer.ts:624-642 | the block loop's order of invalidation, fold and reads |
| CompositionRuns.RunAgrees | src/pool/compositionCache.ts:76-289 | after every block of every run in which the chain's assets, pools and fees move as each event reports or in invalidating blocks, each cached list is the chain's composition with every key once |
| CompositionRuns.ChainSettles | src/pool/compositionCache.ts:85-192 | applying a block's events to the chain's composition a second time changes nothing |
| CompositionRuns.RefoldAgrees | src/pool/compositionCache.ts:76-196 | folding events a cache already reflects keeps it in agreement |
| CompositionRuns.BootstrapAgrees | src/pool/compositionCache.ts:217-289 | a list read from storage that lists every held key once is the chain's composition |
| CompositionRuns.BootstrapKeepsOrder | src/pool/compositionCache.ts:217-289 | a list read from storage has one entry, ramp included, for each pair with a value, in storage order |
| CompositionRuns.RampsFollowEvents | src/pool/compositionCache.ts:139-177 | every cached ramp is flat from its pool's creation and then as its last AmplificationChanging event says |
| CompositionRuns.RefoldIsSameIff | src/pool/compositionCache.ts:76-196 | folding a block's events a second time leaves the cache exactly as it was if and only if in each list every key they remove and add again stands behind every key they never remove |
| CompositionRuns.RefoldReorders | src/pool/compositionCache.ts:88-105 | a cache and three events whose second fold swaps two assets |
| KeyOrder.AgainPartitions | src/pool/compositionCache.ts:88-187 | the operations once more move every key they drop and put again behind all others and keep the order within both groups |
| KeyOrder.AgainIsSameIff | src/pool/compositionCache.ts:88-187 | the list, order and entries included, is the same once more if and only if those keys already stand behind all others |
| KeyedLists.StepAgrees | src/pool/compositionCache.ts:88-187 | push, replace, filter and in-place update keep a list in step with the map it stands for |
| KeyedLists.AgainSettles | src/pool/compositionCache.ts:88-187 | a sequence of such operations is idempotent on the map when a later patch overrides an earlier one |
| HubHops.FoldOmnipoolHubHops | src/blocks/hubHops.ts:46-62 | the index loop returns the left-to-right fold |
| HubHops.FoldConserves | src/blocks/hubHops.ts:46-62 | per trader, input and output totals of every asset are kept, the hub, asset 1, losing exactly what the folded hops carried |
| HubHops.FoldKeepsOrder | src/blocks/hubHops.ts:46-62 | the list is split in order into singles, returned unchanged, and adjacent pairs of Omnipool hops, out of the hub asset 1 and into it by one named trader, returned as one trade with the first's inputs and the second's outputs; no single forms such a pair with its successor |
| HubHops.LeftoverIffDoubleLink | src/blocks/hubHops.ts:46-62 | a foldable pair is left if and only if the input has two consecutive links |
| HubHops.IdempotentIff | src/blocks/hubHops.ts:46-62 | folding again changes nothing if and only if it has none |
| HubHops.NoHubToHubNoDoubleLink | src/blocks/hubHops.ts:33-37 | no hop with the hub on both sides: nothing is left to fold |
| HubHops.HubToHubRefolds | src/blocks/hubHops.ts:33-62 | three hub-to-hub hops fold to a list that folds again |
| DecimalStrings.DecimalRoundTrip | src/blocks/volumeMath.ts:3-18 | parsing a printed Decimal128 returns the integer, for every integer |
| DecimalStrings.PrintedDecimal | src/blocks/volumeMath.ts:12-18 | the printed text: a minus only for negative numbers, the whole part without needless zeros, a point and twelve places |
| DecimalStrings.DecimalDenotes | src/blocks/volumeMath.ts:3-10 | a text with whole part and fraction denotes their value in units of 10^-12, negated behind a minus: a shorter fraction counts ten times more for each missing place, a longer one loses its last places |
| DecimalStrings.BigIntRoundTrip | src/blocks/volumeMath.ts:20-22 | so does parsing a printed integer |
| DecimalStrings.SumDenotes | src/blocks/volumeMath.ts:20-26 | the text of a sum denotes the sum, and fails exactly when an operand is not a number |
| DecimalStrings.VolumeSumsAssociate | src/blocks/volumeMath.ts:20-26 | both string sums are commutative and associative |
| VolumeRows.SumVolumeFieldsDenotes | src/blocks/volumeMath.ts:35-42 | adding the four text fields adds the amounts they denote |
| VolumeRows.FieldsAddUp | src/blocks/volumeMath.ts:20-42 | field by field, token texts add as integers and dollar texts as decimals, a missing one counting as zero |
| VolumeRows.AggregateRows | src/blocks/volumeMath.ts:44-68 | the map-filling loop returns one row per key, in the order keys first occur |
| VolumeRows.AggregateConserves | src/blocks/volumeMath.ts:44-68 | every summed quantity is conserved over any choice of keys |
| VolumeRows.AggregateIsSum | src/blocks/volumeMath.ts:44-68 | keys are distinct and a key's row sums that key's rows |
| VolumeRows.AggregateFlags | src/blocks/volumeMath.ts:55-64 | a key has a row exactly when it occurs, passive exactly when all its rows are |
| VolumeRows.AggregateIsOrderFree | src/blocks/volumeMath.ts:44-68 | permuting the rows does not change any key's row |
| TradeVolumes.IsCanonicalSelfConversion | src/blocks/extractVolume.ts:118-136 | a leg is one exactly when the other side holds a different original of its canonical asset |
| TradeVolumes.TradeToVolumeRows | src/blocks/extractVolume.ts:327-372 | the loop returns the candle rows that VolumeMeaning.CandleRowsAre describes |
| VolumeMeaning.CandleRowsAre | src/blocks/extractVolume.ts:338-371 | per asset, without the legs that face another original of it, the rows sell the sum of the inputs' amounts and dollars and buy that of the outputs |
| TradeVolumes.AccountSideVolumeRows | src/blocks/extractVolume.ts:805-871 | the rows filled in place are the side's legs summed per asset, which VolumeMeaning.SideRowsSum describes |
| VolumeMeaning.SideRowsSum | src/blocks/extractVolume.ts:805-871 | the side's account sold the inputs and bought the outputs, a mirrored side the other way round; no other account appears |
| VolumeMeaning.SideRowsAre | src/blocks/extractVolume.ts:805-871 | every row of a side is its account's, counts one trade, and is passive exactly when mirrored |
| TradeVolumes.TradeToAccountVolumeRows | src/blocks/extractVolume.ts:875-898 | the account rows that VolumeMeaning.AccountRowsAre describes |
| VolumeMeaning.AccountRowsAre | src/blocks/extractVolume.ts:875-898 | an account is credited as trader unless it is a pot, and the other way round as counterparty unless it is a pot or the trader |
| TradeVolumes.ExtractTradeVolume | src/blocks/extractVolume.ts:906-922 | all trades' account rows, aggregated |
| VolumeMeaning.BlockVolumesAre | src/blocks/extractVolume.ts:906-922 | the row of an account and asset carries the sum of what the block's trades are due to it |
| TradeVolumes.SideMatchesCandle | src/blocks/extractVolume.ts:805-871 | a side's rows carry the trade's candle volumes, a mirrored side's with buys and sells swapped |
| TradeVolumes.ReadersAgree | src/blocks/extractVolume.ts:779-898 | per asset, candle buys and sells in tokens and dollars equal those of the principal rows plus the trades nobody is credited for |
| TradeVolumes.CounterpartiesMirror | src/blocks/extractVolume.ts:875-898 | counterparties bought what their trades sold and sold what they bought |
| EvmLogs.DecodeEvmLog | src/raw/evmLogs.ts:506-592 | the loop over topic and data indices decodes the arguments in order, stopping at the first missing one |
| EvmLogs.MalformedIff | src/raw/evmLogs.ts:534-582 | a log of a configured event is malformed if and only if an indexed topic or a head word is missing or cut short |
| EvmLogs.UndecodedIff | src/raw/evmLogs.ts:506-532 | a log is left undecoded if and only if it has no topic or its first is not configured |
| EvmLogs.MalformedArgs | src/raw/evmLogs.ts:534-582 | a malformed log shows no argument when topics are lacking, otherwise exactly what it would decode to were its event cut before the first missing input |
| EvmLogs.DynamicIff | src/raw/evmLogs.ts:436-449 | a dynamic value is read if and only if its offset is a multiple of 32 and a safe integer and the data holds a safe length and that many bytes there; it is those bytes |
| EvmEncoding.StaticRoundTrip | src/raw/evmLogs.ts:411-470 | a static word decodes to the value the Solidity Contract ABI Specification ("Formal Specification of the Encoding") encodes, two's-complement int256 included |
| EvmEncoding.DynamicRoundTrip | src/raw/evmLogs.ts:436-449 | a dynamic value's tail is found through its offset word and read back by its length |
| EvmEncoding.DecodeInvertsEncode | src/raw/evmLogs.ts:506-592 | decoding the specification's encoding of an event gives its arguments back, for every mix of indexed static, static and dynamic inputs |
| AtokenBalances.ReadErc20BalancesForHolders | src/evm/balances.ts:167-258 | every result of the one batch is what AtokenBalances.BalanceAtIs describes; it fails exactly when some asset has a contract and the storage is unreadable |
| AtokenBalances.BalanceAtIs | src/evm/balances.ts:167-258 | a plain token's word; an aToken's scaled balance, the low 128 bits of its state word, times the income of the reserve whose words 1, 3 and 4 are read and name this contract, over one ray, a half rounding up; 0 without contract, reserve, block time or index |
| AtokenBalances.IncomeIs | src/evm/balances.ts:93-106 | on words taken apart into rate, index and 40-bit update time, the income is the index times one ray plus rate and elapsed time over 31 536 000 rounded down, over 10^27 with a half rounding up; none exactly for index 0 |
| AtokenBalances.IncomeAfterYears | src/evm/balances.ts:104-105 | after k whole years it is the rounded product of one ray plus k rates and the index |
| AtokenBalances.IncomeIsClose | src/evm/balances.ts:104-105 | at any time it is off the unrounded income by at most the two roundings |
| AtokenBalances.LayOut | src/evm/balances.ts:193-206 | one key per query and three per distinct reserve, at the recorded offsets |
| AtokenBalances.RayMulRounds | src/evm/balances.ts:104-121 | the half-up product by one ray is the identity and is off by at most half a ray |
| AtokenBalances.IncomeGrows | src/evm/balances.ts:93-106 | normalized income starts at the stored index and never falls with time |
| AtokenBalances.BalanceGrows | src/evm/balances.ts:93-121 | for fixed storage no holder's balance falls with block time |
| AtokenBalances.BalanceCoversIndex | src/evm/balances.ts:93-121 | nor is it ever below its value at the stored index |
| PoolThrottle.PoolThrottle.PushHead | explorer-ui/src/live.ts:108-112 | dispatches at once when idle, else collapses to the largest head |
| PoolThrottle.PoolThrottle.OnTimer | explorer-ui/src/live.ts:97-106 | dispatches what collapsed and re-arms, or goes idle |
| PoolThrottle.TimerHolds | explorer-ui/src/live.ts:91-119 | in every timed run a collapsed head has an armed timer, at most one window ahead |
| PoolThrottle.DispatchesAreSpaced | explorer-ui/src/live.ts:91-119 | dispatches with no reset between them are at least one window apart |
| PoolThrottle.PushIsAnswered | explorer-ui/src/live.ts:91-119 | a push of a positive head, or to an idle or already holding throttle, is followed within a window by a dispatch of at least its head, unless a reset comes first |
| PoolThrottle.OtherPushesAreLost | explorer-ui/src/live.ts:97-111 | any other push is forgotten when the timer fires |
| PoolThrottle.DispatchIsLargestPush | explorer-ui/src/live.ts:97-111 | a dispatch is the head just pushed, or at a timer the largest head pushed since the last dispatch or reset |
| WorkerPool.ClaimsAreExact | src/raw/accountState.ts:315-323 | in every interleaving each claimed item is with one worker or done, once, and at most `width` are in flight |
| WorkerPool.FinishedIsComplete | src/raw/accountState.ts:315-323 | when all workers have left, every item is done exactly once |
| WorkerPool.PoolTerminates | src/raw/accountState.ts:315-323 | an interleaving takes at most two steps an item and one a worker |
| AccountState.FindDelegationTargets | src/raw/accountState.ts:344-371 | adds delegation targets in place and collects the delegators whose lookup failed |
| AccountState.Capture | src/raw/accountState.ts:386-440 | pushes rows and warnings kind by kind and sorts the rows |
| AccountStateProofs.ExactlyOneOutcome | src/raw/accountState.ts:379-440 | each stored kind and each target asking for it gets exactly one row or one warning; nothing else appears |
| AccountStateProofs.UnresolvedIsWithheld | src/raw/accountState.ts:393-397 | an unresolved delegator's votes get one warning and no row |
| AccountStateProofs.RowsCarryTheirReads | src/raw/accountState.ts:392-440 | each captured row holds what the read of its own kind and account answered, or the fallback, with its own target's triggers |
| AccountStateProofs.OrderDoesNotShow | src/raw/accountState.ts:414-440 | the sorted rows do not depend on the order in which workers finish |
| AccountStateProofs.EveryScheduleFinishes | src/raw/accountState.ts:420-428 | every finished interleaving of the eight workers is such an order |
| AccountStateProofs.DelegationTargetsAreAsked | src/raw/accountState.ts:344-371 | every delegation target of an undelegating account is asked for its votes, or that account is reported unresolved; nothing named is dropped |
| AccountStateProofs.ExpansionIs | src/raw/accountState.ts:344-371 | for every account, what is read of it after the lookups is what the block names it for and, if an undelegating account had delegated to it, its votes under the undelegation's name; targets come in the order of accounts |
| AccountStateProofs.NamedAccountsMakeACapture | src/raw/accountState.ts:379-440 | the accounts a block names always meet what these results assume |

## Left out

- `resolvePrices`, `buildGraph`, `bfsResolvePrices`, `computeLpNavPrices` and the stableswap spot
  price: the search is proved for any graph they could build.
- PathSearchRun.SearchIsExact: speaks of keys; depths are those of PathSearchRun.SearchTallies, a sum
  over what was offered. A parallel edge found after a prefix was queued deepens the stored record, not
  the queued copy, so that sum is not one over all admissible routes.
- Pool token metadata and token resolution of the tracker, and the decoding of its logs: a pool is an
  address with a state.
- UniswapV3Pool.FreshReseedIsExact: stated for one pool's rows; the loader runs one query for all
  pools, and pools do not disturb each other (UniswapV3.KnownPoolFoldsAlone).
- Whatever fetches the blocks below a follower's first one, and `--detect-gaps`: a block counts as
  missing when the pipeline that was asked for it has not stored it.
- The validation a range undergoes when it is finalised, the marks for running and failed ranges, and
  the extra byte cap of balance inserts: a chunk closes whenever an arbitrary predicate says so.
- RawDurability.HistoryIsSafe: the command line stays the same over restarts, a failing insert is a
  crash, and rows that replace themselves on their
  key are never lost by the database.
- PublicationProofs.HistoryIsSafe: the command line stays the same over restarts, and rows are
  identified with their keys, since a replay reproduces them.
- PublicationDatabase.Store.InsertChunk: a price row without a valid timestamp makes the code throw
  before the insert; here that is one more crash of the history. The query text of the probes is not
  modelled.
- BalanceReconcile.BalanceReconciler.Filter: the log line a pass prints is not modelled; the columns
  of a row beside total, free and reserved are not compared by the code either.
- CompositionRuns.RunAgrees: claims pools, assets and fees. Amplification ramps are followed through
  the events (CompositionRuns.RampsFollowEvents) but not compared with the chain's, because creation
  events do not state the block a ramp starts at. Entries are values in a
  list, so a caller that keeps the returned list and mutates it is not captured.
- CompositionCache.PoolCompositionCache.ProcessEvents: event arguments are well typed; the validators
  that throw on others end the process, and the cache with it.
- `decodeBlockTrades` and the venue decoders: the volume readers are proved for any list of trades.
- TradeVolumes.ReadersAgree: a leg's dollar volume is an arbitrary function of the leg;
  VolumeRows.SumVolumeFieldsDenotes connects amounts and texts.
- `mergePriceAndVolumeRows`: it only joins aggregated volumes to price rows.
- EvmEncoding.DecodeInvertsEncode: a string is the bytes it was made from, since the decoder rewrites
  empty strings and strings ending in NUL on purpose; encodings are below 2^53 bytes. Hashing of event
  signatures is a table from the first topic to the event.
- Hashing of EVM storage keys: distinct addresses, slots and words have distinct keys.
- Lateness of JavaScript timers, and the accumulation of heads while a tab is hidden.
- AccountState.Capture: accounts and kinds are numbers in their sort order; which events and calls name
  an account, and the JSON of a row, are not modelled.
- `src/raw/lmFarmEntries.ts` and the balance row builder of `src/raw/balance.ts`: the same pattern of
  reads, rows and warnings as the account-state capture.
- The run loop of `src/indexer.ts` beyond the order of its cache calls, all ClickHouse queries, RPC,
  storage codecs and UI components.

# DeFi state mirror: a Dafny model

The system mirrors on-chain DeFi state in hand-rolled indexed structures and streams it to clients as per-block
diffs. This project models the parts that carry its hard guarantees and proves them for every input, every run or
every interleaving. `dafny verify dfyconfig.toml` checks the whole project.

## What is proved

**Token-pool graph** (`TokenPoolGraph`, `GraphCompaction`, `TokenPoolsRuns`, `TokenPoolsRegistry`). An index-linked
multigraph with lazy deletion, orphaned edges, revived edges and a seven-step compaction that renumbers everything.
Its meaning is a plain set of triples (token, token, pool). Every operation refines that set, `compact` leaves it
unchanged and leaves nothing over, the relation stays symmetric, and dead edges stay below the counter and the
counter below the threshold in every run. The class methods, loop for loop, are proved equal to the value functions
those theorems are about.

**Tick indexer** (`TickLists`, `TickProtocol`, `TickIndexer`, `TickBitmap`, `FreshnessWindow`). Sorted tick lists
edited by binary search refine finite maps. The block loop, the initializer, the resyncer and clients interleave at
lock boundaries, one critical section per step, and each method of the class takes its step of that protocol. What a
resync does to a pool is known exactly, whatever happened since its snapshot: without a re-added pool it never
overwrites a list that a block touched, and corrects every other pool, wherever swap-and-pop has moved it. Which pools
a run loses is known exactly too. Bitmap decoding, bitmap comparison, the requested word range and the freshness window
are exact.

**Uniswap V2 arithmetic** (`ConstantProduct`, over `Arithmetic`). Splitting a trade never beats making it at once;
no run of swaps lowers the product of the reserves; the quoted input is sufficient and tight; all with floor
division at every step and whatever the reused scratch fields held before. The constant-product rule is that of
section 3.2.1 of the Uniswap v2 Core whitepaper.

**Replication** (`KeyedDiff`, `TokenRegistry`, `PoolRegistry`, `V2Replication`, `V3Replication`, `StateStream`,
`Replication`). The differs compare only some fields. For any two views the round trip succeeds if and only if the
entries taken as unchanged agree in the fields that were not compared, and the token and pool registries keep that over
whole runs: IDs are never reissued and static fields never change. Registry history, the differs and patchers of all
five schemas, `buildState` and the state stream are joined into one theorem, `Replication.EngineStreamReplays`.

**Registries in step** (`PoolSystems`, `ManagerRuns`, `RegistryManager`). The filtered batch registration equals
registering one pool after another; both lock-free cached views are always fresh; every pool on a live edge is
registered, in every sequential run.

`Indexing` and `Outcome` hold what the registries share: slices with inverse lookup maps, swap-and-pop, renumbering,
and result types.

## Where the code departs from what it promises

- *No pool is lost* does not hold of the tick indexer. A pool that is integrated, removed and added again before the
  initializer clears its queue is deleted from the queue by that clearing (protocols/uniswap-v3/ticks/indexer.go:337-349).
  `TickProtocol.PoolCanBeLost` gives the run for every pool; `TickProtocol.LostExactlyByLateAdd` shows that clearing
  keeps every wanted pool if and only if no accepted `Add` in that window named a pool of the batch being cleared, and
  `TickProtocol.LossesExactly` says, for every run, which pools are lost at every moment.
- A pool removed and added again between a resync's snapshot and its apply carries stamp zero again, and the guard of
  protocols/uniswap-v3/ticks/indexer.go:803 cannot tell it from the snapshot's pool. It can miss the correction
  (`TickProtocol.ReaddedPoolKeepsStaleList`); worse, if a block touched it before the removal, a fetch older than that
  block can roll its fresh list back (`TickProtocol.TouchedPoolRolledBack`). `TickProtocol.CorrectedExactly` states,
  for every window, exactly when a resync does what it is for; `ResyncKeepsFresherData` is the case without such a
  re-integration.
- On an empty input reserve the V2 calculator quotes zero and still accepts the deposit, so a second trade can be
  paid. `ConstantProduct.SplitLawExact` states exactly when the split law holds on non-negative reserves.
- The differs alone do not round-trip on unrelated views (`TokenRegistry.UnrelatedViewsCanDiverge`). The exact
  conditions are the `RoundTripExact` lemmas of `TokenRegistry`, `PoolRegistry`, `V2Replication` and `V3Replication`.
- A single registration reports `ErrTokenNotFound`; a batch reports a pre-flight message that names the token. The
  model keeps the two wordings apart (`TokenNotFound`, `MissingToken`), and positions agree.
- The batch's error for a pool that "was not registered but returned no error"
  (protocols/pool-registry/registry_manager.go:180-184) can never be reported: issued IDs are positive.

## Assumptions

- V2: the fee is at most 10000 basis points, strictly less where an input is quoted; reserves are positive and the two
  tokens differ, except in `SplitLawExact`.
- Tick indexer: pool IDs and addresses are one-to-one; block numbers strictly increase (block/subscriber/arbitrum/subscriber.go:223); fetched
  lists do not repeat a tick index, as bitmap decoding gives them.
- Engine: protocol errors carry non-empty messages, and each protocol keeps its schema. The V2 and V3 views of
  consecutive states agree in their static fields wherever their dynamic fields agree, which is what those round trips
  need and no more.
- IDs, protocol counters below their stated limit, and edge counts do not wrap around.
- Fetches, clocks, token lookups, the two logarithmic deltas of the freshness window and the order in which Go ranges
  over a map are parameters or arbitrary choices.

## Model

| member | source | states |
|---|---|---|
| `TokenPoolGraph.LinkNamesRefines` | protocols/pool-registry/token_pools_registry.go:117-160 | Adding an edge, new, existing or revived, keeps the graph well-formed, adds exactly one triple and never adds a dead edge |
| `TokenPoolGraph.AddRefines` | protocols/pool-registry/token_pools_registry.go:163-172 | Adding a pool unions the clique over its tokens, both ways, repeated tokens included |
| `TokenPoolGraph.RemovePoolRefines` | protocols/pool-registry/token_pools_registry.go:176-211 | Removing a pool subtracts exactly its triples; dead edges grow by exactly the edges it empties |
| `TokenPoolGraph.RemoveTokenRefines` | protocols/pool-registry/token_pools_registry.go:214-242 | Removing a token subtracts exactly the triples it occurs in, orphaning its edges; dead edges are accounted for |
| `TokenPoolGraph.RemovalKeepsNames` | protocols/pool-registry/token_pools_registry.go:176-242 | Until compaction, removals keep names and targets; only a removed token gives up its edge list |
| `GraphCompaction.CompactRefines` | protocols/pool-registry/token_pools_registry.go:245-344 | Compaction leaves the set of triples unchanged, keeps well-formedness and leaves no empty edge, unreferenced token or unreferenced pool |
| `TokenPoolsRuns.ClearedRefines` | protocols/pool-registry/token_pools_registry.go:199-210 | The counter grows by the emptied edges; above the threshold the graph is compacted and the counter zero, otherwise the graph is left as it is; bound and triples kept |
| `TokenPoolsRuns.ApplyRefines` | protocols/pool-registry/token_pools_registry.go:163-242 | Each operation with its hidden compaction refines the plain set operation and re-establishes the bounds |
| `TokenPoolsRuns.RunRefines` | protocols/pool-registry/token_pools_registry.go:32-242 | Every run from empty means the fold of its operations over a set, is symmetric, and keeps dead edges at most the counter and the counter at most the given threshold, or 1000 if that is not positive |
| `TokenPoolsRegistry.CompactEdges` | protocols/pool-registry/token_pools_registry.go:250-262 | Step 1 keeps exactly the edges with pools, in order, with an exact old-to-new map |
| `TokenPoolsRegistry.CollectUsedTokens` | protocols/pool-registry/token_pools_registry.go:264-278 | Step 2 collects exactly the targets and owners of kept edges |
| `TokenPoolsRegistry.CollectUsedPools` | protocols/pool-registry/token_pools_registry.go:279-283 | Step 2 collects exactly the pools on kept edges |
| `TokenPoolsRegistry.CompactNames` | protocols/pool-registry/token_pools_registry.go:285-309 | Steps 3 and 4 keep the used names in order with exact inverse maps |
| `TokenPoolsRegistry.Remap` | protocols/pool-registry/token_pools_registry.go:311-319 | Step 5 overwrites each number in place by its rank among the kept ones |
| `TokenPoolsRegistry.RebuildAdjacency` | protocols/pool-registry/token_pools_registry.go:321-333 | Step 6 gives every kept token its kept edges under their new numbers |
| `TokenPoolsRegistry.CompactSlices` | protocols/pool-registry/token_pools_registry.go:245-344 | The loops together compute the renumbering `CompactRefines` is about, and both lookup maps are exact inverses |
| `TokenPoolsRegistry.FilterPool` | protocols/pool-registry/token_pools_registry.go:187-196 | One edge's list without the pool, and whether anything went |
| `TokenPoolsRegistry.TokenPoolsRegistry.constructor` | protocols/pool-registry/token_pools_registry.go:32-46 | Empty slices, counter zero, the given threshold, or 1000 if that is not positive |
| `TokenPoolsRegistry.TokenPoolsRegistry.AddEdge` | protocols/pool-registry/token_pools_registry.go:117-160 | The slices and maps after the call are the value-level edge addition; the counter is untouched, also on revival |
| `TokenPoolsRegistry.TokenPoolsRegistry.Add` | protocols/pool-registry/token_pools_registry.go:163-172 | The registry moves by the value-level step and stays settled |
| `TokenPoolsRegistry.TokenPoolsRegistry.RemovePool` | protocols/pool-registry/token_pools_registry.go:176-211 | The registry moves by the value-level step, compaction included, and stays settled |
| `TokenPoolsRegistry.TokenPoolsRegistry.RemoveToken` | protocols/pool-registry/token_pools_registry.go:214-242 | The registry moves by the value-level step, compaction included, and stays settled |
| `TokenPoolsRegistry.TokenPoolsRegistry.CompactInPlace` | protocols/pool-registry/token_pools_registry.go:245-344 | With its early return, compaction of the fields is the value-level compaction, index maps exact |
| `TokenPoolsRegistry.TokenPoolsRegistry.PoolsForToken` | protocols/pool-registry/token_pools_registry.go:346-381 | Exactly the pools on triples from the token, without duplicates |
| `ConstantProduct.Calculator.GetAmountOut` | protocols/uniswap-v2/math/calculator.go:149-182 | The result depends only on the arguments, never on stale scratch fields; every error case |
| `ConstantProduct.Calculator.GetAmountIn` | protocols/uniswap-v2/math/calculator.go:185-221 | The result depends only on the arguments, never on stale scratch fields; every error case |
| `ConstantProduct.Calculator.SimulateSwap` | protocols/uniswap-v2/math/calculator.go:224-249 | The result and the new pool depend only on the arguments, never on stale scratch fields |
| `ConstantProduct.QuoteIsMaximal` | protocols/uniswap-v2/math/calculator.go:149-182 | An output is payable exactly when what stays behind still covers the fee-adjusted product, in basis points of 10000 |
| `ConstantProduct.QueriesRefuse` | protocols/uniswap-v2/math/calculator.go:149-221 | Missing and negative amounts and foreign tokens are refused in that order; an empty reserve quotes zero and cannot be bought from |
| `ConstantProduct.SimulateConserves` | protocols/uniswap-v2/math/calculator.go:224-249 | A swap fails as its quote does, and otherwise moves exactly the two amounts between the reserves and changes nothing else |
| `ConstantProduct.SplitNeverBeatsWhole` | protocols/uniswap-v2/math/calculator.go:149-182 | For all amounts, two trades in a row pay at most what one trade of the sum pays |
| `ConstantProduct.SplitLawExact` | protocols/uniswap-v2/math/calculator.go:167-169 | On non-negative reserves the split law holds for all amounts iff the input reserve is positive, or the output reserve is at most one, or the fee is total |
| `ConstantProduct.SplitFailsWhen` | protocols/uniswap-v2/math/calculator.go:167-169 | The failing trade on an empty input reserve |
| `ConstantProduct.AmountInSufficientAndTight` | protocols/uniswap-v2/math/calculator.go:185-221 | The quoted input yields at least the wanted output, and no sufficient input is smaller by more than one |
| `ConstantProduct.AmountInExactly` | protocols/uniswap-v2/math/calculator.go:185-221 | An input is quoted iff the output is below the reserve and the fee is not total, with the error otherwise; it is one more than the exact floor price |
| `ConstantProduct.RunKeepsProduct` | protocols/uniswap-v2/math/calculator.go:224-249 | Over any run of swaps, accepted or rejected, the product never falls and reserves stay positive |
| `ConstantProduct.NoFreeLunch` | protocols/uniswap-v2/math/calculator.go:224-249 | A run of swaps that lowers one reserve raises the other, strictly |
| `ConstantProduct.RoundTripLoses` | protocols/uniswap-v2/math/calculator.go:224-249 | Swapping there and straight back never returns more than was put in |
| `TickLists.Search` | protocols/uniswap-v3/ticks/indexer.go:586-588 | Binary search finds the boundary of a monotone predicate |
| `TickLists.SearchIndex` | protocols/uniswap-v3/ticks/indexer.go:586-588 | The first position whose tick index is at least the bound |
| `TickLists.UpsertTick` | protocols/uniswap-v3/ticks/indexer.go:586-612 | Search and splice equal the list edit |
| `TickLists.UpsertAll` | protocols/uniswap-v3/ticks/indexer.go:582-613 | A pool's updates in order equal the fold of list edits |
| `TickLists.ApplyTickRefines` | protocols/uniswap-v3/ticks/indexer.go:586-612 | On sorted lists one edit is one map update: zero removes, non-zero replaces, positive inserts; order is kept |
| `TickLists.ApplyTickExactly` | protocols/uniswap-v3/ticks/indexer.go:586-612 | One update removes, sets or leaves its own index and changes no other |
| `TickLists.ApplyAllRefines` | protocols/uniswap-v3/ticks/indexer.go:582-613 | Any batch, repeats included, is the fold of map updates; sortedness and positive liquidity are kept |
| `TickLists.SortedIsUnique` | protocols/uniswap-v3/ticks/indexer.go:763-767 | With distinct indexes the sorted list is strict and unique, so any sort gives it |
| `TickLists.SameTicks` | protocols/uniswap-v3/ticks/indexer.go:832-844 | Field-by-field comparison decides equality of lists |
| `TickProtocol.BlockRefinesMaps` | protocols/uniswap-v3/ticks/indexer.go:575-615 | A block batch refines every tracked pool's tick map, stamps exactly the touched pools, keeps spacing and bitmap, and leaves untracked pools alone |
| `TickProtocol.RunSound` | protocols/uniswap-v3/ticks/indexer.go:310-355 | In every interleaving lists stay sorted and stamps never pass the newest block |
| `TickProtocol.IntegrateExactly` | protocols/uniswap-v3/ticks/indexer.go:690-727 | Tracked pools are left alone; the others start from their own fetch, sorted, with stamp zero |
| `TickProtocol.WindowStamps` | protocols/uniswap-v3/ticks/indexer.go:798-807 | Between snapshot and apply a still-tracked pool was touched and its stamp moved on, or was integrated afresh with stamp zero, or is exactly as seen |
| `TickProtocol.ResyncExactly` | protocols/uniswap-v3/ticks/indexer.go:784-826 | What resync-apply does to each pool after any window: touched pools are left alone; any other fetched pool ends with the fetched list iff it was not re-integrated, held that list already, or passes the stale stamp |
| `TickProtocol.CorrectedExactly` | protocols/uniswap-v3/ticks/indexer.go:798-825 | A resync keeps block-touched lists and corrects the others iff the pool was touched after its latest integration, or not re-integrated, or already holds the fetched list, or the stale stamp decides right |
| `TickProtocol.ResyncKeepsFresherData` | protocols/uniswap-v3/ticks/indexer.go:737-826 | Resync-apply leaves block-touched pools alone and gives every other fetched, still-tracked pool exactly the fetched sorted list |
| `TickProtocol.ReaddedPoolKeepsStaleList` | protocols/uniswap-v3/ticks/indexer.go:798-825 | A pool re-integrated inside the window and untouched misses the correction whenever the fetch equals the snapshot but not the re-added list |
| `TickProtocol.TouchedPoolRolledBack` | protocols/uniswap-v3/ticks/indexer.go:798-825 | A pool touched by a block and then re-integrated is overwritten by an older fetch whenever its snapshot stamp was zero and the fetch differs from the snapshot |
| `TickProtocol.ReaddTaken` | protocols/uniswap-v3/ticks/indexer.go:852-905 | Such an untouched window exists from any idle state with an empty queue |
| `TickProtocol.TouchedReaddTaken` | protocols/uniswap-v3/ticks/indexer.go:852-905 | Such a touched window exists from any idle state with an empty queue |
| `TickProtocol.CalmRunLosesNothing` | protocols/uniswap-v3/ticks/indexer.go:317-349 | In every run without a late add, the wanted pools are exactly the queued and tracked ones outside the clearing window, and none is lost |
| `TickProtocol.ClearingWindow` | protocols/uniswap-v3/ticks/indexer.go:334-349 | What queue, tracked and wanted pools satisfy while a clearing is due |
| `TickProtocol.LostExactlyByLateAdd` | protocols/uniswap-v3/ticks/indexer.go:337-349 | Clearing keeps every wanted pool iff no accepted add named a pool of the batch being cleared |
| `TickProtocol.LossesExactly` | protocols/uniswap-v3/ticks/indexer.go:317-349 | In every run the lost pools are exactly those added late before a clearing and not added again since, and the next clearing loses exactly the late additions |
| `TickProtocol.PoolCanBeLost` | protocols/uniswap-v3/ticks/indexer.go:337-349 | For every pool there is a run that loses it |
| `TickIndexer.PoppedRefines` | protocols/uniswap-v3/ticks/indexer.go:877-901 | Swap-and-pop of six slices and two maps removes exactly one pool and keeps all invariants |
| `TickIndexer.AppendedRefines` | protocols/uniswap-v3/ticks/indexer.go:706-720 | Appending to six slices and two maps adds exactly one pool and keeps all invariants |
| `TickIndexer.RewrittenRefines` | protocols/uniswap-v3/ticks/indexer.go:821-823 | Rewriting one slot changes exactly that pool, whatever slot it sits in |
| `TickIndexer.FetchedOfExactly` | protocols/uniswap-v3/ticks/indexer.go:690-704 | A batch stands for exactly the pools whose fetch succeeded, each with its own spacing, bitmap and ticks |
| `TickIndexer.SlicesExactly` | protocols/uniswap-v3/ticks/indexer.go:784-810 | Snapshot and fetches are matched position by position |
| `TickIndexer.TickIndexer.constructor` | protocols/uniswap-v3/ticks/indexer.go:196-270 | Starts in the protocol's start state |
| `TickIndexer.TickIndexer.Add` | protocols/uniswap-v3/ticks/indexer.go:852-866 | Queues an untracked pool and reports a tracked one; takes the protocol's `Add` step |
| `TickIndexer.TickIndexer.Remove` | protocols/uniswap-v3/ticks/indexer.go:869-905 | Removes exactly the pool or reports it missing, slices parallel and maps exact inverses; takes the protocol's `Remove` step |
| `TickIndexer.TickIndexer.Get` | protocols/uniswap-v3/ticks/indexer.go:932-949 | The pool's own list, or not found, whatever slot it sits in |
| `TickIndexer.TickIndexer.ApplyTickUpdates` | protocols/uniswap-v3/ticks/indexer.go:575-615 | Takes the protocol's `Block` step |
| `TickIndexer.TickIndexer.CopyPending` | protocols/uniswap-v3/ticks/indexer.go:318-328 | Every queued pool once, with its address and spacing; the batch of the protocol's `TakeBatch` step |
| `TickIndexer.TickIndexer.Integrate` | protocols/uniswap-v3/ticks/indexer.go:690-727 | Takes the protocol's `Integrate` step and reports exactly the pools whose fetch succeeded, those the protocol will clear |
| `TickIndexer.TickIndexer.ClearPending` | protocols/uniswap-v3/ticks/indexer.go:338-349 | Drops exactly the reported IDs from the queue, whatever it holds by then; takes the protocol's `Clear` step |
| `TickIndexer.TickIndexer.SnapshotForResync` | protocols/uniswap-v3/ticks/indexer.go:737-752 | The snapshot remembers every tracked pool's list and stamp |
| `TickIndexer.TickIndexer.ApplyResync` | protocols/uniswap-v3/ticks/indexer.go:784-826 | Takes the protocol's `Resync` step, though slots may have moved |
| `TickBitmap.TicksFromBitmap` | protocols/uniswap-v3/ticks/math.go:92-130 | Exactly spacing*(256*word+bit) over the set bits, strictly ascending |
| `TickBitmap.BitIsDigit` | protocols/uniswap-v3/ticks/math.go:111-111 | A flag is the binary digit of its weight |
| `TickBitmap.XorBit` | protocols/uniswap-v3/ticks/math.go:66-66 | A bit of the exclusive-or is set iff the bits differ |
| `TickBitmap.DiffBitmaps` | protocols/uniswap-v3/ticks/math.go:35-88 | The two set differences of the decoded lists, without duplicates |
| `TickBitmap.EveryTickRequested` | protocols/uniswap-v3/ticks/math.go:19-31 | Each aligned tick has one (word, bit), inside the requested range, and the range fits sixteen bits |
| `TickBitmap.RangeTight` | protocols/uniswap-v3/ticks/math.go:19-31 | Both ends of the requested range hold an aligned tick, so no word is requested in vain; a spacing that is not positive is refused |
| `TickBitmap.WordPositions` | protocols/uniswap-v3/contracts/bitmap.go:53-59 | The whole word range, ascending |
| `TickBitmap.Batches` | protocols/uniswap-v3/contracts/bitmap.go:73-78 | Batches concatenate to the list; all but the last are full and none is empty |
| `FreshnessWindow.SnapsOutward` | protocols/uniswap-v3/ticks/freshness.go:112-138 | The snapped bounds are the nearest multiples on either side, for negative ticks too |
| `FreshnessWindow.BandIsSlice` | protocols/uniswap-v3/ticks/freshness.go:54-71 | On a sorted list the ticks within the bounds are the slice between two binary searches |
| `FreshnessWindow.Select` | protocols/uniswap-v3/ticks/freshness.go:21-72 | In order, exactly the ticks between the snapped bounds; the neighbours at zero percent; nothing at zero spacing |
| `FreshnessWindow.NearestTicks` | protocols/uniswap-v3/ticks/freshness.go:33-52 | The current tick alone if it is initialized, otherwise exactly the nearest tick on each side, ascending |
| `FreshnessWindow.WindowCoversBand` | protocols/uniswap-v3/ticks/freshness.go:74-110 | The window holds every tick of the unsnapped band and none a full spacing or more outside it |
| `KeyedDiff.PatchedDiff` | protocols/erc20-token-system/patcher.go:6-36 | Patching any replica with the old IDs yields the new IDs: the new entry wherever the differ saw a change, the replica's own entry elsewhere |
| `KeyedDiff.DiffBy` | protocols/erc20-token-system/differ.go:17-67 | The differ the token and V2 systems share: additions, updates and deletions by ID, leaving alone exactly the shared entries the comparison takes as unchanged |
| `KeyedDiff.DiffListsExactly` | protocols/erc20-token-system/differ.go:17-67 | Each ID is listed at most once, exactly where it belongs, with its new data |
| `KeyedDiff.Patch` | protocols/erc20-token-system/patcher.go:6-36 | The patcher the token, V2 and V3 systems share: lists exactly the patched map, each ID once |
| `KeyedDiff.PatchPrecedence` | protocols/erc20-token-system/patcher.go:6-36 | For any diff an addition wins over an update, an update over a deletion, and the rest stays |
| `KeyedDiff.RoundTripExactly` | protocols/erc20-token-system/patcher.go:6-36 | Patching the old map gives the new one iff the entries left alone are equal |
| `TokenRegistry.AddedRefines` | protocols/erc20-token-system/token.go:118-139 | Adds exactly one token under a never-issued ID; a known address changes nothing, and an address is known iff some token has it |
| `TokenRegistry.DeletedRefines` | protocols/erc20-token-system/token.go:142-175 | Swap-and-pop removes exactly the token and keeps every map |
| `TokenRegistry.UpdatedRefines` | protocols/erc20-token-system/token.go:178-186 | Changes the fee and gas of exactly one token |
| `TokenRegistry.ApplyMeans` | protocols/erc20-token-system/token.go:118-186 | Each operation on the ID-keyed map of tokens and the ID counter |
| `TokenRegistry.RunEvolves` | protocols/erc20-token-system/token.go:118-186 | Over any run an ID once issued is never reissued and its static fields never change |
| `TokenRegistry.Differ` | protocols/erc20-token-system/differ.go:17-67 | Additions, updates and deletions by ID, where unchanged means equal fee and gas |
| `TokenRegistry.DiffExactly` | protocols/erc20-token-system/differ.go:34-60 | A token is sent as an update exactly when its fee or gas moved |
| `TokenRegistry.ReplicaFollowsRun` | protocols/erc20-token-system/differ.go:34-60 | For an earlier and a later view of one run, patching the earlier by the diff gives the later |
| `TokenRegistry.RoundTripExact` | protocols/erc20-token-system/differ.go:34-60 | Over any two views the round trip succeeds iff tokens whose fee and gas agree are equal |
| `TokenRegistry.UnrelatedViewsCanDiverge` | protocols/erc20-token-system/differ.go:34-60 | Over any two views the round trip fails whenever some shared token keeps fee and gas but changes a static field |
| `TokenRegistry.TokenRegistry.AddToken` | protocols/erc20-token-system/token.go:118-139 | The new columns, the ID and the duplicate error; invariants kept |
| `TokenRegistry.TokenRegistry.DeleteToken` | protocols/erc20-token-system/token.go:142-175 | The new columns and the not-found error; invariants kept |
| `TokenRegistry.TokenRegistry.UpdateToken` | protocols/erc20-token-system/token.go:178-186 | The new columns and the not-found error; invariants kept |
| `TokenRegistry.TokenRegistry.GetTokenByAddress` | protocols/erc20-token-system/token.go:207-222 | Finds the one token with the address, or there is none |
| `TokenRegistry.TokenRegistry.View` | protocols/erc20-token-system/token.go:225-240 | Lists exactly the contents, each ID once |
| `PoolRegistry.RegisteredRefines` | protocols/pool-registry/pool_registry.go:122-134 | Fails exactly when a new name meets an exhausted code space; otherwise the name and its code are inverse |
| `PoolRegistry.AddedRefines` | protocols/pool-registry/pool_registry.go:138-163 | PoolBlocked iff the key is blocked, ProtocolOverflow iff key and name are new and 65535 codes are used; a known key changes nothing; otherwise one pool under a never-issued ID and the given name; the block list is kept |
| `PoolRegistry.DeletedRefines` | protocols/pool-registry/pool_registry.go:165-192 | Swap-and-pop removes exactly the pool, keeps every map and the dictionary |
| `PoolRegistry.BlockRefuses` | protocols/pool-registry/pool_registry.go:194-196 | Blocking touches nothing else, and the key is then refused whatever the protocol |
| `PoolRegistry.UnblockAdmits` | protocols/pool-registry/pool_registry.go:198-200 | Unblocking touches nothing else, and the key is then never refused as blocked |
| `PoolRegistry.ApplyMeans` | protocols/pool-registry/pool_registry.go:138-200 | Each operation on the ID-keyed map of pools, the ID counter and the block list |
| `PoolRegistry.RunEvolves` | protocols/pool-registry/pool_registry.go:138-192 | Over any run IDs are never reissued, a pool's key and protocol never change, and a code keeps its protocol name |
| `PoolRegistry.Differ` | protocols/pool-registry/pool_registry_differ.go:28-85 | Pools by ID only, and the changed and vanished protocol names |
| `PoolRegistry.DiffExactly` | protocols/pool-registry/pool_registry_differ.go:28-85 | Pools are listed by ID only, names exactly when new, changed or vanished |
| `PoolRegistry.Patcher` | protocols/pool-registry/pool_registry_patcher.go:9-56 | Lists exactly the patched pools, and the patched dictionary |
| `PoolRegistry.ReplicaFollowsRun` | protocols/pool-registry/pool_registry_differ.go:46-77 | For an earlier and a later view of one run, patching gives the later view, though pools are never compared |
| `PoolRegistry.RoundTripExact` | protocols/pool-registry/pool_registry_differ.go:28-85 | Over any two views the dictionary always follows, and the pools follow iff every shared pool is equal in both |
| `PoolRegistry.PoolRegistry.RegisterProtocol` | protocols/pool-registry/pool_registry.go:122-134 | The new dictionary and the overflow error |
| `PoolRegistry.PoolRegistry.AddPool` | protocols/pool-registry/pool_registry.go:138-163 | The new fields and result of the value-level addition; invariants kept |
| `PoolRegistry.PoolRegistry.DeletePool` | protocols/pool-registry/pool_registry.go:165-192 | The new fields and result of the value-level deletion; invariants kept |
| `V3Replication.PoolChanged` | protocols/uniswap-v3/differ.go:21-70 | With distinct tick indexes, false exactly when fee, tick, price and liquidity agree and both lists hold the same entries in any order |
| `V3Replication.Differ` | protocols/uniswap-v3/differ.go:75-124 | Additions, updates and deletions by ID; a shared pool is left out only if nothing dynamic differs, and always then if its tick indexes are distinct |
| `V3Replication.DiffExactly` | protocols/uniswap-v3/differ.go:75-124 | With distinct tick indexes a pool is sent as an update exactly when fee, tick, price, liquidity or its ticks moved |
| `V3Replication.RoundTrip` | protocols/uniswap-v3/patcher.go:45-74 | With tokens and spacing fixed per ID, patching gives the new view up to tick order |
| `V3Replication.RoundTripExactly` | protocols/uniswap-v3/differ.go:75-124 | Patching any replica of the old view gives the new view, up to tick order, iff the pools taken as unchanged agree in tokens and spacing |
| `V3Replication.RoundTripExact` | protocols/uniswap-v3/differ.go:75-124 | With distinct tick indexes: iff pools that agree dynamically agree in tokens and spacing |
| `V2Replication.Differ` | protocols/uniswap-v2/differ.go:18-69 | Additions, updates and deletions by ID, where unchanged means equal reserves |
| `V2Replication.DiffExactly` | protocols/uniswap-v2/differ.go:18-69 | A pool is sent as an update exactly when a reserve moved |
| `V2Replication.RoundTripExact` | protocols/uniswap-v2/differ.go:18-69 | The round trip succeeds iff pools whose reserves agree agree in tokens, type and fee |
| `StateStream.BuildState` | engine/engine.go:409-500 | Every configured protocol once: data, schema and meta of a healthy view; the view's error, an empty schema or lagging behind the block as an error without data; chain, block and time |
| `StateStream.BuiltHasSchemas` | engine/engine.go:409-500 | An error-free state carries every protocol under its fixed schema, and block-aware ones have reached the block |
| `StateStream.DiffStates` | differ/differ.go:61-104 | Succeeds iff no entry has an error and every new protocol was there before, has a differ and diffs; blocks, time and each entry of the diff |
| `StateStream.PatchExactly` | patcher/patcher.go:64-125 | A diff applies iff the block matches and every entry has a patcher, the same schema and patches; each entry it mentions takes the diff's meta and the patched data |
| `StateStream.PatchState` | patcher/patcher.go:64-125 | Succeeds exactly then; takes the diff's time and block, keeps the chain and carries over every protocol the diff does not mention |
| `StateStream.PatchFollows` | patcher/patcher.go:64-125 | One diff takes any equivalent replica to the next state |
| `StateStream.ReplayReachesState` | patcher/patcher.go:64-125 | Folding the patches over a stream never fails and ends at the last state, timestamps aside |
| `Replication.TokensRoundTrip` | protocols/erc20-token-system/differ.go:34-60 | Token views of any two moments of one run meet the stream's round-trip condition |
| `Replication.PoolsRoundTrip` | protocols/pool-registry/pool_registry_differ.go:46-77 | Pool views of any two moments of one run meet it |
| `Replication.LinksRoundTrip` | protocols/pool-registry/token_pools_registry_differ.go:25-32 | Graph views travel whole and meet it without any condition |
| `Replication.V2RoundTrip` | protocols/uniswap-v2/differ.go:18-69 | V2 views whose static fields are kept meet it |
| `Replication.V3RoundTrip` | protocols/uniswap-v3/differ.go:75-124 | V3 views whose static fields are kept meet it |
| `Replication.EngineStreamReplays` | differ/differ.go:61-104 | For error-free states that `buildState` makes from what the protocols return, over all five schemas: replaying the consecutive diffs never fails and ends with the last state's chain, block and entries |
| `PoolSystems.AddAllIssued` | protocols/pool-registry/registry_manager.go:180-184 | No successful addition of a batch has ID zero, so the consistency error is never reported |
| `PoolSystems.PoolSystem.AddPool` | protocols/pool-registry/pool_system.go:56-66 | The registry's step; the cached view is fresh also on error |
| `PoolSystems.PoolSystem.AddPools` | protocols/pool-registry/pool_system.go:69-105 | The fold of single additions, IDs and errors at their positions, nil errors iff none; the cached view is fresh also when nothing changed |
| `PoolSystems.PoolSystem.DeletePool` | protocols/pool-registry/pool_system.go:108-118 | The registry's step; the cached view is fresh also on error |
| `PoolSystems.PoolSystem.DeletePools` | protocols/pool-registry/pool_system.go:121-150 | The fold of single deletions, errors at their positions; the cached view is fresh |
| `PoolSystems.PoolSystem.AddToBlockList` | protocols/pool-registry/pool_system.go:153-158 | The key is blocked, every other key and field is as before; the cached view is fresh |
| `PoolSystems.PoolSystem.RemoveFromBlockList` | protocols/pool-registry/pool_system.go:174-179 | The key is not blocked, every other key and field is as before; the cached view is fresh |
| `PoolSystems.PoolSystem.View` | protocols/pool-registry/pool_system.go:205-223 | What a lock-free reader sees is a fresh view of the registry |
| `PoolSystems.TokenPoolSystem.AddPool` | protocols/pool-registry/token_pools_system.go:50-56 | The graph's step; the cached view is fresh |
| `PoolSystems.TokenPoolSystem.AddPools` | protocols/pool-registry/token_pools_system.go:61-80 | The fold of single links; the cached view is fresh, also for an empty batch |
| `PoolSystems.TokenPoolSystem.RemovePool` | protocols/pool-registry/token_pools_system.go:83-89 | The graph's step; the cached view is fresh |
| `PoolSystems.TokenPoolSystem.RemovePools` | protocols/pool-registry/token_pools_system.go:92-105 | The fold of single removals; the cached view is fresh |
| `PoolSystems.TokenPoolSystem.RemoveToken` | protocols/pool-registry/token_pools_system.go:108-114 | The graph's step; the cached view is fresh |
| `PoolSystems.TokenPoolSystem.View` | protocols/pool-registry/token_pools_system.go:141-180 | What a lock-free reader sees is a fresh view of the graph |
| `ManagerRuns.RegisterOneKeeps` | protocols/pool-registry/registry_manager.go:41-75 | One registration, accepted or not, keeps every pool on a live edge registered |
| `ManagerRuns.RegisterOneRefines` | protocols/pool-registry/registry_manager.go:41-75 | A missing token or a blocked key changes nothing, with its own error; otherwise the pool is registered under its key and exactly the clique of its token IDs is linked |
| `ManagerRuns.BatchIsFold` | protocols/pool-registry/registry_manager.go:127-201 | Filtering, adding all keys and then linking all pools reaches the state, IDs and errors of registering one after another |
| `ManagerRuns.DeleteOneKeeps` | protocols/pool-registry/registry_manager.go:210-217 | One deletion keeps every pool on a live edge registered |
| `ManagerRuns.DeleteOneRefines` | protocols/pool-registry/registry_manager.go:210-217 | A deletion takes exactly the pool and its triples, and fails iff the pool is unknown |
| `ManagerRuns.DeleteManyKeeps` | protocols/pool-registry/registry_manager.go:220-225 | A batch deletion, graph first, keeps it too, unknown and repeated IDs included |
| `ManagerRuns.DeleteAllResults` | protocols/pool-registry/pool_system.go:121-150 | A position of a batch deletion fails iff its pool is unknown or was deleted at an earlier position |
| `ManagerRuns.DeleteManyRefines` | protocols/pool-registry/registry_manager.go:220-225 | A batch deletion takes exactly the listed pools and their triples |
| `ManagerRuns.ApplyMeans` | protocols/pool-registry/registry_manager.go:41-225 | Each operation of a run on registered pools, triples and block list |
| `ManagerRuns.Run` | protocols/pool-registry/registry_manager.go:41-225 | Every sequential run from empty systems ends in consistent, settled registries in step |
| `ManagerRuns.LivePoolsRegistered` | protocols/pool-registry/registry_manager.go:41-225 | In every such run a pool on a live edge is in the pool registry |
| `RegistryManager.Filter` | protocols/pool-registry/registry_manager.go:133-148 | The positions whose tokens all exist, in order, and an error naming the first missing token at every other |
| `RegistryManager.Scatter` | protocols/pool-registry/registry_manager.go:161-196 | Errors and successes land at their original positions, and exactly the successes are linked, in order |
| `RegistryManager.ScatteredAgrees` | protocols/pool-registry/registry_manager.go:203-206 | The reply agrees position for position with the one-at-a-time results |
| `RegistryManager.NoneViable` | protocols/pool-registry/registry_manager.go:151-156 | The early return loses nothing: the state is the fold's and so is the reply |
| `RegistryManager.RegistryManager.constructor` | protocols/pool-registry/registry_manager.go:28-38 | Empty systems in step |
| `RegistryManager.RegistryManager.RegisterPool` | protocols/pool-registry/registry_manager.go:41-75 | The value-level registration over the three systems; caches fresh, every live pool registered |
| `RegistryManager.RegistryManager.RegisterPools` | protocols/pool-registry/registry_manager.go:80-207 | Equals folding single registrations: same registry, graph and IDs, errors at exactly the same positions |
| `RegistryManager.RegistryManager.DeletePool` | protocols/pool-registry/registry_manager.go:210-217 | Takes exactly the pool from the registry and its triples from the graph, or reports it missing; caches fresh, every live pool registered |
| `RegistryManager.RegistryManager.DeletePools` | protocols/pool-registry/registry_manager.go:220-225 | Takes exactly the listed pools and their triples, with the errors of the batch; caches fresh, every live pool registered |

## Left out

- Slices and maps the code edits in place are sequences and maps that methods reassign: aliasing between a returned
  copy and a registry, and nil versus empty, are not modelled.
- Critical sections are atomic steps; locks, goroutine scheduling inside a section, logging and metrics are not modelled.
- Fetching and the remapping of partial fetch failures in `initializePools` (steps 1 to 4) are the outcome parameter of
  `TickIndexer.Integrate`; log parsing and `handleNewBlock` up to the call of `applyTickUpdates` are left out, so nothing
  is claimed about the block path removing burned ticks.
- The batch's two loops that carry back errors and then successes are one pass in `RegistryManager.Scatter`.
- `beforeRegisterPoolFunc`, panics on slices of different lengths, and the exact texts of errors.
- Registries restored from views: the bound on dead edges and the never-reissued IDs are claims about runs from empty.
- Uniswap V2 and V3 registries (the same swap-and-pop shape), hence whether their runs keep static fields per ID; and
  the simple lookups by ID.
- The deep copies of the graph's patcher, which are the values themselves; the batch forms of the block list;
  `RemoveTokens`.
- Uniswap V3 swap mathematics, spot prices and exchange rates (floating point), and the floating-point logarithms of the
  freshness window.
- Per-subscriber ordering in the engine, configuration, providers, clients, block subscribers and the fork harness.
- Fees on transfer are real numbers; NaN is not modelled.

# A verified model of the Substrate client's chain bookkeeping

The Substrate client keeps a growing tree of blocks with a best head and a finalized block, and around it many
structures that have to agree with that tree: the number index, stored bodies, the leaf set, header and state caches,
the canonical hash tries (CHTs) of a light node, storage notifications, and the guarded state of block import.
This project models those parts in Dafny and proves what they promise, over all inputs and over all runs.

Each part has the same shape. A value describes the state and functions describe what one operation does to it.
Lemmas show what every operation keeps, and a theorem over runs (`IsRun`) shows what therefore holds in every reachable
state. Where the code updates objects in place, a class or a loop is proved to do exactly what the functions say.
Protocols between threads (off-chain compare-and-set, the header cache) are state machines whose steps are the sections
that run atomically.

| file | part of the client |
|---|---|
| `ChainTree.dfy` | the block tree, ancestry, tree routes and the walk that computes them |
| `LruMap.dfy`, `StateCache.dfy`, `StateCacheRuns.dfy`, `StateCacheLists.dfy`, `StateCachePrecision.dfy`, `StateCacheObjects.dfy` | the shared state cache |
| `Keys.dfy`, `Database.dfy`, `Node.dfy`, `NodeRuns.dfy`, `Backend.dfy` | the full node's database, number index, finality and body pruning |
| `HeaderCache.dfy` | readers and importers around the header cache |
| `Cht.dfy`, `Light.dfy`, `LightRuns.dfy`, `LightObjects.dfy` | CHT arithmetic and light storage |
| `Leaves.dfy` | the leaf set |
| `Offchain.dfy` | off-chain compare-and-set |
| `ChangesTries.dfy` | anchored changes-trie roots, the list of configurations and digest pruning |
| `Notifications.dfy`, `NotificationObjects.dfy` | storage notifications |
| `Authorship.dfy` | block building and proposing |
| `GrandpaImport.dfy` | GRANDPA block import and its guards |

Assumptions of the run theorems. A run starts from genesis alone; every imported block has a fresh hash and a number one
above its parent's; one operation moves the head at most once; a commit carries the block's full changes and its real
parent. On a full node a successful operation finalizes its own chain: it imports a final block, or the last block it
finalizes is an ancestor of where its head goes (`NodeRuns.Sound`). On a light node heads move only to descendants of the
finalized block and finality advances along the best chain (`LightRuns.Allowed`); the code only warns when a head move
retracts a finalized block there.
Numbers are unbounded except where the code converts them to 32 bits, which is an error path of the model. Hashes are
256-bit integers; a block's hash is given, and two blocks never share one. Clocks, the runtime, the transaction
pool, the operations of the authority set and header lookups that can fail are parameters.

Some properties do not hold of the code as it stands. For each of them the model has an input that shows it and the exact
condition, on what is known before the call.

* A finalized block need not stay on the best chain: one operation can finalize a block beside its head
  (`NodeRuns.SideBlockCanBeFinalized`). It is on the best chain afterwards if and only if the operation finalizes its own
  chain (`NodeRuns.FinalityOnHead`).
* Body pruning looks for the bodies to remove in the index from before the operation. Finalizing a branch together with
  the head move onto it, as the client does, removes a body of the retracted branch and leaves one on the finalized chain
  (`NodeRuns.WrongBranchCanBePruned`). The stored bodies stay those the window promises if and only if the stored
  bodies that leave the window are on the old best chain exactly when they are on the finalized chain
  (`NodeRuns.CommitKeepsBodies`), for instance when all finalized blocks were on the old best chain
  (`NodeRuns.BestChainPrunesRightly`).
* `undo_import` does not give the leaf set back: it files the displaced parent at the height of its child. The set of
  hashes comes back, the set itself never does (`Leaves.UndoneImportMisfiles`).
* An anchored changes-trie lookup can fail although the block is known (`ChangesTries.KnownAncestorCanBeMissed`). It
  succeeds if and only if the height is final or the anchor is no higher than the best block
  (`ChangesTries.RootIsAncestor`).
* Digest pruning can leave the tries of a block behind, below the end up to which it claims none exist: the first range of
  a configuration begins after the block the configuration is valid from (`ChangesTries.BlockCanBeLeftBehind`). A call
  leaves nothing behind if and only if no configuration with digests begins right after a range that it removes and before
  another one (`ChangesTries.NothingLeftBehind`). The metadata in memory also moves on when the transaction is dropped;
  `ChangesTries.DroppedRangesAreLost` says which ranges no later call comes back to.

Where comments and code disagree the model follows the code. `FinalizationDisplaced::merge` is said to ignore
duplicate heights, but the map it appends wins; `Leaves.UndoRestores` shows that there are never any.

## Model

| member | source | states |
|---|---|---|
| `ChainTree.CommonAncestorIsLowest` | primitives/blockchain/src/header_metadata.rs:96-145 | every block on both chains is on the chain of their common ancestor |
| `ChainTree.RouteSplitsChains` | primitives/blockchain/src/header_metadata.rs:179-206 | retracted blocks are exactly those on the old chain and not on the new one, enacted blocks exactly the reverse |
| `ChainTree.TreeRoute` | primitives/blockchain/src/header_metadata.rs:96-145 | the three loops answer exactly when every header on the route can be read, and then with the route |
| `LruMaps.EvictKeepsLongestSuffix` | client/db/src/storage_cache.rs:127-136 | eviction keeps the longest run of youngest entries that fits the limit; one entry more would not fit |
| `LruMaps.PutMembers` | client/db/src/storage_cache.rs:107-125 | after inserting, the map holds the new binding and all bindings of other keys, and each key once |
| `LruMaps.AddedMembers` | client/db/src/storage_cache.rs:107-137 | after an add the size is within the limit and no old binding of the key is left |
| `LruMaps.RefreshedMembers` | client/db/src/storage_cache.rs:139-146 | a read reorders entries but changes neither the bindings nor the size |
| `LruMaps.SizeIsBytes` | client/db/src/storage_cache.rs:70-95 | the estimate of an entry is the number of bytes of its key, with the child trie's, and its value |
| `LruMaps.LookupExact` | client/db/src/storage_cache.rs:139-146 | a binding is found exactly when it is held, and nothing is found exactly when no entry has the key |
| `LruMaps.PutOrder` | client/db/src/storage_cache.rs:107-125 | a new key becomes the youngest entry; a known key keeps its place, and no other entry moves |
| `LruMaps.RefreshedOrder` | client/db/src/storage_cache.rs:139-146 | a key that is read becomes the youngest entry and the others keep their order; an unknown key changes nothing |
| `LruMaps.OldestGoesFirst` | client/db/src/storage_cache.rs:127-136 | entries leave in order of age: whatever is kept, everything younger is kept |
| `LruMaps.ReadLastGoesLast` | client/db/src/storage_cache.rs:127-146 | as long as eviction leaves anything, it leaves the entry that was read last |
| `LruMaps.WithoutAllOrder` | client/db/src/storage_cache.rs:176-215 | dropping changed keys keeps the order of the other entries |
| `LruMaps.AddedAllServes` | client/db/src/storage_cache.rs:390-395 | when everything fits, a batch of adds is found in full and what it does not mention is found as before |
| `LruMaps.LRUMap.Remove` | client/db/src/storage_cache.rs:98-105 | exactly the key's entry goes and the running size stays the sum of the entries |
| `LruMaps.LRUMap.Add` | client/db/src/storage_cache.rs:107-137 | the entries become the specified ones and the running size is their sum, within the limit |
| `LruMaps.LRUMap.Get` | client/db/src/storage_cache.rs:139-146 | returns the binding and makes it the youngest |
| `LruMaps.LRUMap.Clear` | client/db/src/storage_cache.rs:150-153 | nothing is left and the size is zero |
| `LruMaps.SharedLimitsFit` | client/db/src/storage_cache.rs:232-252 | for every child ratio up to one the two limits together fit the configured size |
| `LruMaps.SharedLimitsShare` | client/db/src/storage_cache.rs:232-252 | the child limit is the ratio's share of the size rounded down, the top limit the share of the rest, or zero for a ratio above one |
| `StateCache.UntouchedKeepsValue` | client/db/src/storage_cache.rs:475-530 | a key that no block between two blocks of a chain changed has one value at both |
| `StateCache.AllowedSound` | client/db/src/storage_cache.rs:477-530 | when the scan allows a key, the best block and the reader's block have the same value for it |
| `StateCache.SharedValueSound` | client/db/src/storage_cache.rs:537-566 | a value served from the shared cache is the reader's block's own value |
| `StateCache.SyncedSound` | client/db/src/storage_cache.rs:168-224 | synchronizing along the route to a new head leaves a cache that is correct for the new head |
| `StateCachePrecision.AllowedExact` | client/db/src/storage_cache.rs:496-529 | a value may be used exactly when the reader's line of recorded blocks meets the best chain before any recorded change of the key |
| `StateCachePrecision.HeadReadsAreServed` | client/db/src/storage_cache.rs:477-566 | while the head is the newest recorded block, every cached value serves reads at the head |
| `StateCachePrecision.CachedIsServed` | client/db/src/storage_cache.rs:477-566 | while the head is the newest recorded block, a read at the head gets exactly the value held for a top-level or child key |
| `StateCachePrecision.UsedExact` | client/db/src/storage_cache.rs:139-146 | a value that is read becomes the youngest of its own map; the other map and the records stay |
| `StateCachePrecision.SyncedExact` | client/db/src/storage_cache.rs:176-223 | a reorganization along recorded blocks drops exactly the keys those blocks changed; along an unrecorded block it drops everything |
| `StateCacheRuns.RecordedClosed` | client/db/src/storage_cache.rs:402-448 | recording a block keeps every canonical block above a recorded canonical one in the list before it |
| `StateCacheRuns.CommitSound` | client/db/src/storage_cache.rs:332-450 | a commit keeps the cache correct, whether the block becomes the head, reorganizes the chain, or neither |
| `StateCacheRuns.NextKeepsInv` | client/db/src/storage_cache.rs:907-925 | commits, head switches, reads, opening and dropping states keep the invariant |
| `StateCacheRuns.ReadsAreCoherent` | client/db/src/storage_cache.rs:537-627 | in every run every read returns the value that its block has for the key, the fold of changes from genesis |
| `StateCacheRuns.ModificationsExact` | client/db/src/storage_cache.rs:352-448 | in every run the list of recent blocks has at most 12 entries, is sorted, is flagged exactly for the best chain and is upward closed |
| `StateCacheLists.RecordedExact` | client/db/src/storage_cache.rs:402-448 | recording gives up the last record of a full list of twelve and no other; the rest keeps its order around the new record, which stands behind equal or higher numbers and before lower ones |
| `StateCacheLists.RecommitRoutes` | client/db/src/storage_cache.rs:352-376 | the committed block counts as enacted or retracted exactly when it is recorded with the other flag; other blocks count as given |
| `StateCacheLists.CommitOnHead` | client/db/src/storage_cache.rs:332-448 | a best commit on top of the head puts its record first and loses at most the oldest record |
| `StateCacheLists.GrowthIsRecorded` | client/db/src/storage_cache.rs:402-448 | over any stretch of a run in which the chain grows at its head, the list is the newest committed blocks, newest first, and behind them what was listed before, twelve in all |
| `StateCacheLists.NewestTwelve` | client/db/src/storage_cache.rs:402-448 | in every run that grows at its head from genesis on, the list is exactly the newest twelve committed blocks |
| `StateCacheLists.DropServes` | client/db/src/storage_cache.rs:907-925 | dropping a state at the best block makes all its values readable from the cache if they fit; at another block nothing changes |
| `StateCacheLists.CommitServes` | client/db/src/storage_cache.rs:332-450 | after a best commit the cache answers with the block's changes, then the state's own values, then what the synchronization kept, if they fit; any other commit adds no value |
| `StateCacheLists.NoParentOnlySyncs` | client/db/src/storage_cache.rs:376-405 | a state without a parent only synchronizes the cache: it leaves no value and no record |
| `StateCacheObjects.Cache.constructor` | client/db/src/storage_cache.rs:232-252 | a new cache is empty, and for a child ratio up to one its two limits fit the configured size |
| `StateCacheObjects.Cache.UsedStorageCacheSize` | client/db/src/storage_cache.rs:158-161 | the size of both value maps, never above the two limits and so never above the configured size |
| `StateCacheObjects.Cache.Mark` | client/db/src/storage_cache.rs:178-215 | one of the two loops: flags the blocks and drops their keys, or reports an unknown block |
| `StateCacheObjects.Cache.Sync` | client/db/src/storage_cache.rs:168-224 | the cache becomes the synchronized one |
| `StateCacheObjects.Cache.SyncCache` | client/db/src/storage_cache.rs:332-450 | the cache becomes the one specified for local values, changes and commit, whose records and readable values `StateCacheLists` states |
| `StateCacheObjects.Cache.IsAllowed` | client/db/src/storage_cache.rs:477-530 | the scan computes the specified decision |
| `StateCacheObjects.CachingState.Storage` | client/db/src/storage_cache.rs:537-627 | answers from the local cache, then the shared one if allowed, then the backend or its failure, and updates exactly the one it should |
| `Keys.BigEndianRoundTrip` | client/db/src/utils.rs:100-112 | big-endian encoding decodes back |
| `Keys.NumberDecodes` | client/db/src/utils.rs:100-136 | the number decodes back from a number key and from any lookup key |
| `Keys.NumberKeysDiffer` | client/db/src/utils.rs:100-112 | number keys are injective |
| `Keys.LongKeysDiffer` | client/db/src/utils.rs:115-124 | lookup keys are injective in number and hash |
| `Keys.KeysSeparate` | client/db/src/utils.rs:100-189 | no number key is a hash key, and all key kinds are injective |
| `Keys.KeyShapes` | client/db/src/utils.rs:100-124 | a number has a key exactly when it fits 32 bits, and the parts of each key stand at fixed places |
| `Keys.ShortKeysHaveNoNumber` | client/db/src/utils.rs:127-136 | a number is read from the first four bytes of a key, and from no shorter key |
| `Keys.NumberKeysInOrder` | client/db/src/utils.rs:100-112 | number keys sort like their numbers |
| `Keys.ChtKeysDiffer` | client/db/src/light.rs:682-686 | CHT keys are injective in kind and number |
| `Database.RemoveNumber` | client/db/src/utils.rs:139-146 | appends a change that removes exactly that number from the index the transaction stands for |
| `Database.InsertNumber` | client/db/src/utils.rs:162-175 | appends a change that sets exactly that number |
| `Database.InsertBlock` | client/db/src/lib.rs:1285-1302 | files a new block so that the columns hold it by hash, with header and body, and nothing else changes |
| `Database.RemoveBodyAt` | client/db/src/utils.rs:335-350 | removes exactly one block's body |
| `NodeState.UnindexedAt` | client/db/src/lib.rs:1126-1138 | removing a list of blocks from the index leaves the other heights as they were |
| `NodeState.RouteReindexes` | client/db/src/lib.rs:1122-1149 | removing the retracted and writing the enacted numbers turns the path to one head into the path to the other |
| `NodeState.MovedHeadExact` | client/db/src/lib.rs:1109-1162 | after a head move the index is the path to the new head |
| `NodeState.CommitKeepsNode` | client/db/src/lib.rs:1253-1561 | after every successful operation the number index is exactly the path from the best block to genesis and known blocks are unchanged |
| `NodeState.StatusAgreesWithIndex` | client/db/src/lib.rs:488-497 | comparing a number with the best number agrees with the lookup and the lookup finds the best block's ancestor |
| `NodeRuns.NewlyIsPath` | client/db/src/lib.rs:1164-1213 | what an operation finalizes is the parent-linked path from the old finalized block to the new one |
| `NodeRuns.FinalizedIsNotRetracted` | client/db/src/lib.rs:1124-1138 | a successful operation never moves the head off the block finalized before it began |
| `NodeRuns.CommitSucceeds` | client/db/src/lib.rs:1253-1505 | an operation succeeds exactly when it finalizes children one after the other and moves the head to descendants of the finalized block |
| `NodeRuns.CommitEnds` | client/db/src/lib.rs:1253-1561 | the pending block is final afterwards exactly when it is marked final and brings its state, else the last listed block is; the head is the block it is set to, else a pending block marked best or final, else the old one |
| `NodeRuns.HeadRefusal` | client/db/src/lib.rs:1109-1149 | which error refuses a head move: unknown target, target off the finalized chain, or a number beyond 32 bits, each exactly then |
| `NodeRuns.FinalizeRefusal` | client/db/src/lib.rs:1164-1213 | the first listed block that is unknown or no child of the one before decides the error |
| `NodeRuns.ResolveByHash` | client/db/src/utils.rs:191-207 | a hash resolves to itself exactly when its block is known |
| `NodeRuns.KeepCount` | client/db/src/lib.rs:1615-1622 | the number of kept bodies is the configured one, but at least one |
| `NodeRuns.FinalityOnHead` | client/db/src/lib.rs:1253-1511 | after a successful operation the finalized block is on the best chain if and only if the operation imports a final block or its last finalized block is an ancestor of where its head goes |
| `NodeRuns.SideBlockCanBeFinalized` | client/db/src/lib.rs:1261-1278 | there is a state and an operation that finalizes a block beside the best chain |
| `NodeRuns.PrunedOnce` | client/db/src/lib.rs:1615-1665 | one call removes exactly the body of the old best chain at the height that leaves the window |
| `NodeRuns.CommitPrunes` | client/db/src/lib.rs:1261-1442 | a successful operation stores all bodies there were and the one it brings, except those of the old best chain that leave the window |
| `NodeRuns.CommitKeepsBodies` | client/db/src/lib.rs:1615-1665 | the stored bodies stay exactly those the window promises if and only if those that leave it are on the old best chain exactly when they are on the finalized chain |
| `NodeRuns.BestChainPrunesRightly` | client/db/src/lib.rs:1615-1665 | finalizing blocks of the old best chain, and perhaps the new block, meets that condition |
| `NodeRuns.WrongBranchCanBePruned` | client/db/src/lib.rs:1615-1637 | finalizing a branch with the head move onto it removes the body of a retracted block and keeps one that should go |
| `NodeRuns.FinalityNeverReverts` | client/db/src/lib.rs:1121-1180 | in every run whose operations finalize their own chains, head moves onto them included, everything ever finalized is one path up from genesis and is still on the best chain |
| `NodeRuns.BodiesExactlyWhen` | client/db/src/lib.rs:1615-1665 | the bodies are exact throughout a run if and only if every operation of it meets the condition |
| `NodeRuns.BodiesOverRuns` | client/db/src/lib.rs:1615-1665 | in every such run a given canonical body is stored exactly when it is less than max(keep, 1) below the finalized block |
| `Backend.Uncanonicalize` | client/db/src/lib.rs:1124-1138 | the retracting loop refuses exactly when the finalized block is retracted and otherwise removes the retracted numbers |
| `Backend.Canonicalize` | client/db/src/lib.rs:1140-1149 | the enacting loop writes the enacted numbers |
| `Backend.SetHeadWithTransaction` | client/db/src/lib.rs:1109-1162 | the transaction stands for the moved head, with the route's blocks, or the error is the specified one |
| `Backend.PruneBlocks` | client/db/src/lib.rs:1615-1665 | the transaction gives up the specified body |
| `Backend.FinalizeBlocks` | client/db/src/lib.rs:1261-1278 | the loop over the finalized blocks computes the specified progress or error |
| `Backend.ImportPending` | client/db/src/lib.rs:1280-1484 | importing the pending block computes the specified state or error, whose head and finalized block `NodeRuns.CommitEnds` states |
| `Backend.MoveToHead` | client/db/src/lib.rs:1486-1511 | setting an explicit head computes the specified index or error |
| `Backend.Prepare` | client/db/src/lib.rs:1253-1511 | the whole transaction stands for the state after the operation, or the error is the specified one |
| `Backend.FinalMeta` | client/db/src/lib.rs:420-442 | the updates after the commit leave best and finalized block as specified |
| `Backend.Write` | client/db/src/lib.rs:1253-1561 | the committed columns hold exactly the tree, index and bodies of the state after the operation |
| `Backend.Backend.constructor` | client/db/src/lib.rs:1285-1302 | opens on columns that hold the genesis block alone, the start of every run |
| `Backend.Backend.StatusOfNumber` | client/db/src/lib.rs:488-497 | comparing with the best number says whether the database has a header at that height |
| `Backend.Backend.HeaderOfNumber` | client/db/src/utils.rs:352-369 | a lookup by number finds the best block's ancestor at that height, nothing above the head, and an error beyond 32 bits |
| `Backend.Backend.TryCommitOperation` | client/db/src/lib.rs:1253-1561 | the operation takes effect as specified and ends as `NodeRuns.CommitEnds` states, or columns and meta data are unchanged |
| `HeaderCache.CachedMembers` | client/db/src/lib.rs:382-391 | the new entry is in the cache, the rest was there before, and there are at most eight |
| `HeaderCache.WithoutCuts` | client/db/src/lib.rs:382-391 | removing an entry by hash cuts out that entry and moves nothing else |
| `HeaderCache.CachedOrder` | client/db/src/lib.rs:382-391 | the new entry is the youngest, and of the others exactly the youngest seven stay, in their order |
| `HeaderCache.RefreshedOrder` | client/db/src/lib.rs:458-465 | an entry that is found becomes the youngest and the others keep their order |
| `HeaderCache.CacheHeader` | client/db/src/lib.rs:382-391 | the loop leaves the eight newest entries |
| `HeaderCache.NextKeepsInv` | client/db/src/lib.rs:458-474 | in every interleaving of readers and importers a negative entry is cached only while the import has not ended |
| `HeaderCache.AnswersAreCurrent` | client/db/src/lib.rs:1513-1532 | once an import has ended every later lookup returns the header, whatever was cached before |
| `HeaderCache.AnswersAreStored` | client/db/src/lib.rs:458-474 | in every interleaving a header that is returned is the one in the database |
| `HeaderCache.CacheIsBounded` | client/db/src/lib.rs:382-391 | the cache holds at most eight headers at every moment |
| `Cht.BlockInItsCht` | client/api/src/cht.rs:307-324 | a block belongs to a CHT exactly when it lies between its start and end numbers |
| `Cht.RangesTile` | client/api/src/cht.rs:307-315 | the first range begins above genesis, each has the CHT size, and the next begins right after it |
| `Cht.BuildRequiredAt` | client/api/src/cht.rs:51-66 | a CHT is due exactly at the first block of the next-but-one range |
| `Cht.ChtCountStep` | client/api/src/cht.rs:69-79 | one more final block adds exactly the CHT that is due, or none |
| `Cht.MaxChtAt` | client/api/src/cht.rs:69-79 | the newest CHT is exactly the one two ranges below the range of the final block |
| `Cht.NextCht` | client/api/src/cht.rs:51-79 | the CHT that is due starts right above the covered blocks and ends below the final one |
| `Cht.CollectedExact` | client/api/src/cht.rs:269-304 | the entries are complete and in order exactly when no hash is missing |
| `Cht.BuildPairs` | client/api/src/cht.rs:269-304 | the loop collects the specified entries or fails at the first missing hash |
| `Cht.ForEachChtGroup` | client/api/src/cht.rs:210-266 | consecutive blocks of one CHT are handed over together, in order and once; ordered blocks are all handed over |
| `Light.EveryBlockOnce` | client/db/src/light.rs:301-389 | every canonical block above genesis is stored or in a CHT with its canonical hash, never both |
| `Light.ChtRootsReadable` | client/db/src/light.rs:392-414 | reading a CHT root finds one exactly for the blocks not stored any more |
| `LightRuns.RouteStillStored` | client/db/src/light.rs:249-298 | every header on a route to a descendant of the finalized block is still stored |
| `LightRuns.HeaderChtComplete` | client/db/src/light.rs:320-341 | the header CHT that is due never lacks a hash |
| `LightRuns.FinalizationSucceeds` | client/db/src/light.rs:301-389 | finalizing the next block fails exactly when a changes-trie CHT is due and lacks a root |
| `LightRuns.FinalizedKeeps` | client/db/src/light.rs:301-389 | noting a final block keeps coverage exact |
| `LightRuns.ImportKeeps` | client/db/src/light.rs:453-550 | importing a header keeps coverage exact and fails only for the stated reasons |
| `LightRuns.HeadSetKeeps` | client/db/src/light.rs:552-573 | setting the head keeps coverage exact |
| `LightRuns.FinalizeKeeps` | client/db/src/light.rs:575-613 | finalizing a header keeps coverage exact |
| `LightRuns.NotedRefusal` | client/db/src/light.rs:301-318 | a block is refused as out of sequence exactly when its parent is not the finalized block, and as too large exactly when its number then exceeds 32 bits |
| `LightRuns.NotedChanges` | client/db/src/light.rs:343-366 | a changes-trie CHT is written exactly when one is due and the header has a changes trie root, from the roots of its range, and no other one changes |
| `LightRuns.FinalizeEnds` | client/db/src/light.rs:575-613 | the finalized block is the resolved one, a child of the one before; head and tree stay and changes-trie CHTs are written exactly when due |
| `LightRuns.HeadEnds` | client/db/src/light.rs:552-573 | the head is the resolved block, and nothing but the head and the index changes |
| `LightRuns.ImportEnds` | client/db/src/light.rs:453-550 | the header is stored under its hash; it is the head exactly when marked best or final, and the finalized block exactly when marked final; unless it is final no other header or CHT changes |
| `LightRuns.CoverageIsExact` | client/db/src/light.rs:301-389 | in every run with heads above the finalized block and finality along the best chain, coverage is exact, the stored CHTs are exactly those up to the newest, and genesis is stored |
| `LightObjects.LightStorage.MoveHead` | client/db/src/light.rs:249-298 | computes the specified index or error |
| `LightObjects.LightStorage.NoteFinalized` | client/db/src/light.rs:301-366 | computes the CHTs to write or the error |
| `LightObjects.LightStorage.PruneReplaced` | client/db/src/light.rs:368-385 | the loop removes exactly the headers and numbers that the new CHT replaces |
| `LightObjects.LightStorage.ImportHeader` | client/db/src/light.rs:453-550 | the storage becomes the specified one, which ends as `LightRuns.ImportEnds` states, or is unchanged with the specified error |
| `LightObjects.LightStorage.SetHead` | client/db/src/light.rs:552-573 | the storage becomes the specified one, which ends as `LightRuns.HeadEnds` states, or is unchanged with the specified error |
| `LightObjects.LightStorage.FinalizeHeader` | client/db/src/light.rs:575-613 | the storage becomes the specified one, which ends as `LightRuns.FinalizeEnds` states, or is unchanged with the specified error |
| `LightObjects.LightStorage.HeaderChtRoot` | client/db/src/light.rs:664-670 | reads the specified CHT root |
| `Leaves.LeavesExact` | client/api/src/leaves.rs:108-156 | after any history the set is exactly the imported blocks without a child that no later finalization displaced, each once and at its height |
| `Leaves.UndoRestores` | client/api/src/leaves.rs:52-57 | merged displaced records never overlap, and undoing them restores the set exactly |
| `Leaves.RemainingAllExact` | client/api/src/leaves.rs:141-156 | what remains after finalizations is exactly the heights at or above all of them |
| `Leaves.LeavesInOrder` | client/api/src/leaves.rs:241-274 | after any history the leaves of each height stand in the order of their import |
| `Leaves.UndoneImportMisfiles` | client/api/src/leaves.rs:288-292 | undoing an import restores the hashes but never the set, because the parent is filed one height too high |
| `Leaves.RevertedExact` | client/api/src/leaves.rs:170-200 | after a revert the leaves are those not above the target, and the target |
| `Leaves.LeafSet.RemoveLeaf` | client/api/src/leaves.rs:249-274 | removes the hash, and the height with its last hash, and says whether it was there |
| `Leaves.LeafSet.Import` | client/api/src/leaves.rs:108-133 | the block replaces its parent, which is returned when it was a leaf |
| `Leaves.LeafSet.FinalizeHeight` | client/api/src/leaves.rs:141-156 | splits off and returns exactly the leaves below the height |
| `Leaves.LeafSet.UndoFinalization` | client/api/src/leaves.rs:295-297 | adds the displaced leaves back |
| `Leaves.LeafSet.UndoImport` | client/api/src/leaves.rs:288-292 | removes the block and files the parent at the block's height |
| `Leaves.LeafSet.Revert` | client/api/src/leaves.rs:170-200 | the set becomes the reverted one, and the assertion that every listed leaf is still there holds |
| `Offchain.CountIsOne` | client/db/src/offchain.rs:110-118 | after dropping its clone a call finds a reference count of one exactly when no other call works on its key |
| `Offchain.MutualExclusion` | client/db/src/offchain.rs:94-108 | two calls on one key are never both between locking and unlocking |
| `Offchain.LocksAreShared` | client/db/src/offchain.rs:86-120 | in every interleaving calls have one mutex exactly when they have one key, and the table is empty when no call is in flight |
| `Offchain.NoDeadlock` | client/db/src/offchain.rs:86-120 | while a call is in flight some call can take its next step |
| `Offchain.WritesAreGuarded` | client/db/src/offchain.rs:100-108 | a write happens only while the stored value is the expected one |
| `Offchain.Linearizable` | client/db/src/offchain.rs:86-120 | every interleaving has the database and the answers of running the calls one at a time, each between its beginning and its end |
| `Offchain.BegunIsStart` | client/db/src/offchain.rs:86-97 | the recorded beginning of a call is what had taken effect when it began, and its arguments stay its own |
| `Offchain.KeysUnderPrefix` | client/db/src/offchain.rs:124-126 | a stored key begins with its prefix, and under one prefix two keys are equal exactly when the items are |
| `ChangesTries.WalkIsAncestor` | client/db/src/changes_tries_storage.rs:513-524 | the parent walk finds the ancestor at the height |
| `ChangesTries.FinalizedHeight` | client/db/src/changes_tries_storage.rs:492-494 | at a finalized height the number index gives the anchor's ancestor |
| `ChangesTries.CanonicalAnchor` | client/db/src/changes_tries_storage.rs:499-508 | under a canonical anchor the number index gives the anchor's ancestor |
| `ChangesTries.WalkBack` | client/db/src/changes_tries_storage.rs:513-524 | the loop computes the parent walk and terminates |
| `ChangesTries.RootIsAncestor` | client/db/src/changes_tries_storage.rs:478-540 | both fast paths and the walk give the anchor's ancestor, and the lookup succeeds exactly for final heights or anchors no higher than the best block |
| `ChangesTries.KnownAncestorCanBeMissed` | client/db/src/changes_tries_storage.rs:499-505 | under an anchor higher than the best block the lookup of a known ancestor fails |
| `ChangesTries.Root` | client/db/src/changes_tries_storage.rs:478-540 | returns the changes trie root of the block looked up, which is the anchor's ancestor, or the error of the lookup |
| `ChangesTries.MaxIntervalIsHighest` | primitives/core/src/changes_trie.rs:86-100 | the interval is the power of the highest configured level that fits 32 bits |
| `ChangesTries.MaxDigestInterval` | primitives/core/src/changes_trie.rs:86-100 | the loop finds it, or one when digests are off |
| `ChangesTries.RangeCovers` | primitives/core/src/changes_trie.rs:142-183 | the range has the interval's length, is aligned to the first block and covers the asked block |
| `ChangesTries.BestStraddles` | client/db/src/cache/list_entry.rs:81-117 | the entry found for a block is valid at it, and the next entry of the list, if any, begins above it and is the entry's neighbour |
| `ChangesTries.SearchBestBefore` | client/db/src/cache/list_entry.rs:81-117 | the loop back in time computes that search and terminates |
| `ChangesTries.BestIsYoungest` | client/db/src/cache/list_entry.rs:81-117 | the entry found is on the list, and no entry of the list that is valid at the block is younger |
| `ChangesTries.ConfigurationReaches` | client/db/src/changes_tries_storage.rs:376-402 | the configuration found for a start counts from it or earlier and is still valid there, also when it is looked up at the new block's parent |
| `ChangesTries.FinalBlocksShareHistory` | client/db/src/cache/list_cache.rs:162-210 | below the cache's last final block all lookups search one list, so configurations never get older along the chain |
| `ChangesTries.ConfigurationFound` | client/db/src/cache/list_cache.rs:162-210 | a lookup returns the value and first block of the youngest entry valid at the block, on the finalized list or the fork's list |
| `ChangesTries.ConfigurationSource` | client/db/src/changes_tries_storage.rs:366-402 | the configuration for a start comes from the new block if it sets one, from its parent if not, and for other starts from the block of the best chain at that height |
| `ChangesTries.NextRangeReaches` | client/db/src/changes_tries_storage.rs:403-415 | the next range is not empty and reaches the asked start, which is why the loop ends |
| `ChangesTries.NextRangeExact` | client/db/src/changes_tries_storage.rs:403-415 | the next range is aligned to and has the length of the highest level's interval, cut at the end of the configuration; it is the asked block alone without digests, none without tries, and an error exactly when the configuration is not found |
| `ChangesTries.NextRangeBegins` | client/db/src/changes_tries_storage.rs:403-415 | the next range leaves out the asked start if and only if a configuration with digests begins there, and then begins right after it |
| `ChangesTries.PruningSafe` | client/db/src/changes_tries_storage.rs:328-424 | nothing within the kept blocks is removed, ranges come in order, what is left is young enough and the pruned end only rises |
| `ChangesTries.PruningFollows` | client/db/src/changes_tries_storage.rs:328-424 | the removed ranges begin with the oldest one and follow one another, the kept range follows them, and a failure is that of the next range |
| `ChangesTries.PruningGaps` | client/db/src/changes_tries_storage.rs:328-424 | consecutive removed ranges, and the one kept after them, touch exactly where no configuration with digests begins between them |
| `ChangesTries.NothingLeftBehind` | client/db/src/changes_tries_storage.rs:105-114 | every block from the oldest range up to the pruned end is in a removed range if and only if no configuration with digests begins right after a removed range and before another |
| `ChangesTries.TouchingLeavesNothing` | client/db/src/changes_tries_storage.rs:328-424 | ranges that touch leave nothing behind, whichever lists the configurations come from |
| `ChangesTries.BlockCanBeLeftBehind` | client/db/src/changes_tries_storage.rs:105-114 | a call that removes block 1 and blocks 3 to 4 and leaves block 2 behind below the pruned end 4 |
| `ChangesTries.PrunedEndNeverDecreases` | client/db/src/changes_tries_storage.rs:328-424 | over rising finalizations the pruned end in memory never goes down and every range a call set out to remove is at or below it |
| `ChangesTries.DroppedRangesAreLost` | client/db/src/changes_tries_storage.rs:354-424 | when a call's transaction is dropped, later calls come back to no range of it, except that the next call removes the last range of a call that failed |
| `ChangesTries.DbChangesTrieStorage.Prune` | client/db/src/changes_tries_storage.rs:328-424 | the loop terminates with the specified metadata and removals, and an archive node removes nothing |
| `Notifications.KeptLosesNothing` | client/api/src/notifications.rs:43-84 | pruning the shared changes takes nothing from any subscriber's view |
| `Notifications.FilteredExact` | client/api/src/notifications.rs:53-60 | a list of changes is seen as one item for each change asked for, in order, with its key and value |
| `Notifications.ChildItemsExact` | client/api/src/notifications.rs:61-82 | child items stand storage by storage in order, and storages not asked for are left out |
| `Notifications.IterExact` | client/api/src/notifications.rs:43-84 | a subscriber sees the selected top-level changes item by item, then those of the child storages it asked for, and nothing else |
| `Notifications.SubscribersComplete` | client/api/src/notifications.rs:176-214 | exactly those with something to see in a list of changes are its subscribers |
| `Notifications.SharedEventLosesNothing` | client/api/src/notifications.rs:160-257 | through the shared event a subscriber sees what its filters select from all changes; one not notified would see nothing |
| `Notifications.ListenKeepsValid` | client/api/src/notifications.rs:344-385 | listening keeps the index a mirror of all filters |
| `Notifications.WishIsAsked` | client/api/src/notifications.rs:317-385 | what is recorded for a subscriber is what was asked: the listed keys or all, for the top level and for each listed child storage |
| `Notifications.TriggerRemoves` | client/api/src/notifications.rs:216-257 | triggering removes exactly the closed sinks, and those only when there is something to send |
| `Notifications.RemoveKeepsValid` | client/api/src/notifications.rs:287-315 | removing a subscriber keeps the index a mirror of all filters |
| `Notifications.SubscribersSeeEverything` | client/api/src/notifications.rs:160-257 | over any stretch of any history a remaining subscriber received exactly what its filters select, in order |
| `NotificationObjects.ListenFrom` | client/api/src/notifications.rs:317-341 | adds the subscriber to the keys or the wildcards |
| `NotificationObjects.RemoveSubscriberFrom` | client/api/src/notifications.rs:259-285 | removes it, and keys nobody listens to |
| `NotificationObjects.Collect` | client/api/src/notifications.rs:180-191 | the loop collects the kept changes and their subscribers |
| `NotificationObjects.CollectChildren` | client/api/src/notifications.rs:192-214 | the same for child storages |
| `NotificationObjects.StorageNotifications.Listen` | client/api/src/notifications.rs:344-385 | the registry becomes the specified one |
| `NotificationObjects.StorageNotifications.RemoveSubscriber` | client/api/src/notifications.rs:287-315 | the registry becomes the specified one |
| `NotificationObjects.StorageNotifications.Trigger` | client/api/src/notifications.rs:160-257 | the event goes to the open subscribers concerned and exactly the closed ones leave |
| `Authorship.OnlyMandatoryAborts` | client/basic-authorship/src/basic_authorship.rs:261-281 | the inherents fail exactly when a mandatory one fails where it is pushed |
| `Authorship.InherentsReplay` | client/basic-authorship/src/basic_authorship.rs:261-281 | the block holds exactly the inherents that apply where they stand, in order, and they replay to the builder's state |
| `Authorship.PoolReplays` | client/basic-authorship/src/basic_authorship.rs:284-347 | behind them it holds exactly the pushed transactions that apply where they stand, in pool order, and the whole block replays to the builder's state |
| `Authorship.AtMostNineFull` | client/basic-authorship/src/basic_authorship.rs:321-332 | at most nine pushes find the block full, whatever the pool and the runtime |
| `Authorship.InvalidExact` | client/basic-authorship/src/basic_authorship.rs:333-347 | a transaction is reported invalid exactly when it failed otherwise before any skip |
| `Authorship.AttemptedExact` | client/basic-authorship/src/basic_authorship.rs:305-332 | a transaction is pushed exactly when the deadline had not passed up to it and at most eight pushes before it found the block full |
| `Authorship.StoppedExact` | client/basic-authorship/src/basic_authorship.rs:305-332 | the loop ends early exactly when the deadline passed or nine pushes found the block full |
| `Authorship.BlockBuilder.Push` | client/block-builder/src/lib.rs:164-184 | applies the extrinsic or leaves no trace |
| `Authorship.BlockBuilder.CreateInherents` | client/block-builder/src/lib.rs:229-243 | returns the inherents and leaves no trace |
| `Authorship.PushInherents` | client/basic-authorship/src/basic_authorship.rs:261-281 | the loop builds the specified draft, whose inherents `Authorship.InherentsReplay` states, or aborts |
| `Authorship.PushPool` | client/basic-authorship/src/basic_authorship.rs:284-347 | the loop builds the specified draft and report |
| `Authorship.Propose` | client/basic-authorship/src/basic_authorship.rs:245-349 | the block is exactly the inherents and then the pushed transactions that apply where they stand, its replay succeeds with the same state, and there is none for the stated reasons |
| `GrandpaImport.CheckNewChange` | client/finality-grandpa/src/import.rs:225-257 | a hard fork decides, then a forced change, then a scheduled one; the change carries the announced authorities and delay at the block itself |
| `GrandpaImport.MakingExact` | client/finality-grandpa/src/import.rs:259-417 | the exact failures; a forced set starts at the lower of median and finalized block with the client's hash there and the replacement's id and authorities; a standard change applies only when nothing was forced; the voter pauses exactly for a change of kind best |
| `GrandpaImport.AuxExact` | client/finality-grandpa/src/import.rs:392-410 | the new set is written exactly when something changed, and a voter state with it exactly for a forced set |
| `GrandpaImport.InnerGuard.SetOld` | client/finality-grandpa/src/import.rs:281-286 | only the first old set counts |
| `GrandpaImport.InnerGuard.Consume` | client/finality-grandpa/src/import.rs:288-299 | gives the old set and the lock away, or releases the lock |
| `GrandpaImport.InnerGuard.Drop` | client/finality-grandpa/src/import.rs:302-308 | puts the old set back and releases the lock |
| `GrandpaImport.PendingSetChanges.Drop` | client/finality-grandpa/src/import.rs:175-181 | puts the old set back and releases the lock |
| `GrandpaImport.PendingSetChanges.Defuse` | client/finality-grandpa/src/import.rs:168-172 | keeps the new set and releases the lock |
| `GrandpaImport.MakeAuthoritiesChanges` | client/finality-grandpa/src/import.rs:259-417 | any failure leaves the set as it was; a success changes it as `GrandpaImport.MakingExact` states and keeps the lock exactly when something must be written |
| `GrandpaImport.ImportBlock` | client/finality-grandpa/src/import.rs:432-556 | every exit other than imported leaves the set and the voter alone and passes the refusal on; after an import the set is the forced replacement or else the announced one, the voter pauses exactly for a change of kind best, and is told of a new set exactly when one was forced |
| `GrandpaImport.MemoryIsDisk` | client/finality-grandpa/src/import.rs:392-417 | over any sequence of imports, refusals and failures the set in memory is the set on disk |

## Left out

- `lru_hashes` and `storage_hash`: the cache does not drop hashes of enacted or retracted keys, so coherence covers values only.
- StateCacheObjects.Cache.constructor: leaves out the third map, `lru_hashes`.
- StateCacheObjects.Cache.Sync: leaves out the clearing of `lru_hashes`.
- StateCacheObjects.Cache.SyncCache: leaves out what is drained into and removed from `lru_hashes`.
- Heap capacity in `estimate_size`: sizes are functions of content.
- `Backend::revert`: it neither synchronizes the shared cache nor removes the number of the reverted block, so runs do not include it.
- The genesis import and the empty-database branches of the head move: runs start from genesis.
- `StorageChain` bodies, where two blocks may share transactions.
- The META column, on-disk finalized block and failure atomicity of the in-memory leaf set during an operation.
- Integration of the leaf set into the full node's operation: it is proved over its own histories.
- The header-metadata cache and `lowest_common_ancestor`.
- Backend.SetHeadWithTransaction: leaves out the best-block entry of the META column and the empty-database branch.
- Backend.PruneBlocks: leaves out `StorageChain` bodies.
- Backend.FinalizeBlocks: leaves out state canonicalization, leaves, changes tries and justifications with their errors.
- Backend.ImportPending: leaves out the state commit, leaves, children and changes tries with their errors.
- Backend.Prepare: leaves out auxiliary, off-chain, state and META writes.
- Backend.Write: describes the lookup, header and body columns only.
- Backend: the byte layout of columns other than key lookup, headers and bodies, and re-commits of a known block.
- LightStorage: its columns are maps over numbers and hashes instead of byte keys, and a CHT root is represented by the entries it is computed from.
- LightRuns.CoverageIsExact: says nothing about changes-trie CHTs; `LightRuns.FinalizeEnds` and `LightRuns.ImportEnds` say when one is written and with which entries, operation by operation.
- `LeafSet::count`, which counts heights, the pending vectors, which are only written and cleared, and the order of `hashes`.
- Backend.Backend.TryCommitOperation: covers operations whose pending block is a new child of a known block and that move the head at most once.
- LightObjects.LightStorage.ImportHeader: covers new children of known blocks.
- Leaves.LeafSet.Revert: starts from a set that holds each leaf once, which every history of imports and finalizations keeps.
- Offchain: plain `set` and `remove` running beside `compare_and_set`, and a failing database commit, which the code only logs.
- ChangesTries.NothingLeftBehind: assumes that the configuration lists searched along the finalized chain belong to one history, which is proved for blocks the configuration cache knows as final; `ChangesTries.TouchingLeavesNothing` needs no such thing.
- ChangesTries.ConfigurationReaches: for blocks above the configuration cache's last final block the choice of the list among the cache's forks is a parameter, and a stored value that does not decode is left out.
- ChangesTries.PruningGaps: is about one call; tries between a period without them and the block at which pruning resumes are not followed over calls.
- Changes-trie commit, the build cache, and inserting into, finalizing and reverting the configuration cache.
- Notifications: metrics, and listening twice to one child storage in a single call.
- Authorship: block size evaluation, proofs, and waiting for the pool, whose answer is the given list.
- GrandpaImport: the internals of the authority set, finalization by justifications and its effect on the set, and concurrent changes while no lock is held.
- The in-memory backend, state database pruning, trie roots and proofs, signatures, SCALE codecs, the Wasm executor, networking, command line and chain specifications.

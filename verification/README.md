# A verified model of the PIVX node's data structures

PIVX is a full node descended from Bitcoin and Dash. This project models, in Dafny, the
in-memory structures and algorithms the node's correctness rests on, and proves what they
promise. Each component has a specification on plain values and, where the node's code works
in place, a class or methods whose loops are proved to compute that specification.

| component | files |
|---|---|
| Layered cache of unspent outputs, Sapling anchors and nullifiers | `CoinsView`, `CoinsRuns`, `CoinsCache` |
| Selection of transaction packages for a block | `PackageSelection`, `SelectionRuns`, `SelectionExamples`, `BlockAssembler` |
| Address manager and its stream format | `AddrTables`, `AddrOps`, `AddrEffects`, `AddrChance`, `AddrMan`, `AddrSerialize`, `AddrForeign`, `AddrSurvivors` |
| Parallel check queue | `CheckQueue`, `CheckNotify` |
| Cuckoo cache of verified signatures | `CuckooSpec`, `CuckooLife`, `CuckooCache` |
| Database transactions and their merging iterator | `DbTransaction` |
| Integers of 32-bit limbs, compact difficulty form | `Powers`, `ArithUint`, `Compact` |
| Block tree with skip pointers, active chain | `Chain` |
| Bech32, Base58, rolling Bloom filter | `Bech32`, `Bech32Remainder`, `Gf1024`, `Bech32Errors`, `Base58`, `KnownStrings`, `RollingBloom` |
| Sizes and sums of sets and maps, optional values | `Totals`, `Options` |

The main results are about every run, not about single calls:

- A stack of caches acts as one plain map per level under any legal run, and undoing blocks
  restores the Sapling state with flushes in between. No unspendable output ever gets in.
- A block is validly ordered and final whatever the selection loop does, and no entry of the
  mempool is overlooked. Its caps hold unless a turn leaks and the loop ends unless a turn stalls;
  both are said exactly, with mempools for which they happen and two kinds of mempools for which
  they do not.
- The address manager passes its own consistency check after any run, and survives being
  written and read back; for streams it did not write it is said exactly when the check passes and
  which entries are kept. What each operation does to the tables is said in full: who is let in,
  who is displaced, who waits, and that nothing else changes.
- Whatever the interleaving, `Wait` tells the truth about exactly the checks of its round, and
  it always returns; no wake-up is lost.
- The cuckoo cache keeps its elements in place and its epoch bounded on every run, and loses
  only what was discardable while there is room. The rolling filter finds exactly what the keys of
  its last three generations mark, so all recent keys. Stacked database transactions act as plain
  maps, iterated over in the order of the bytes of their keys.
- The Bech32 checksum finds every change of up to three values within its window of 1023, proved
  from the roots of its generator in the field of 1024 elements.
- Limb arithmetic, the compact form, skip pointers, checksums and buffer estimates are proved
  against their simple mathematical meaning, for every width, height and length.

`dafny verify dfyconfig.toml` checks the whole project.

## Model

| member | source | states |
|---|---|---|
| `CoinsView.GetCoinReadsView` | src/coins.cpp:67-93 | Fetching through any number of caches returns exactly the coin of the logical view (absent when spent), and fills the caches without changing any level's view or soundness |
| `CoinsView.GetAnchorReadsView` | src/coins.cpp:420-442 | Reading an anchor through the stack returns the view's tree for that root or nothing, and leaves every view as it was |
| `CoinsView.GetNullifierReadsView` | src/coins.cpp:444-456 | Reading a nullifier tells membership in the view's set, and caching the answer changes no view |
| `CoinsView.GetBestBlockReadsView` | src/coins.cpp:174-179 | The lazily loaded best block is the view's, and loading it changes no view |
| `CoinsView.GetBestAnchorReadsView` | src/coins.cpp:559-563 | The same for the best Sapling anchor |
| `CoinsView.UncacheKeepsView` | src/coins.cpp:322-329 | Dropping an unmodified entry changes no view at any level |
| `CoinsView.FlushNeverThrows` | src/coins.cpp:266-272 | In a sound stack no entry meets the condition of the "FRESH flag misapplied" throw |
| `CoinsView.MergeCoinsView` | src/coins.cpp:247-297 | Merging the child's dirty coins keeps the parent's flags truthful and gives the parent, over its base, the child's view |
| `CoinsView.MergeAnchorsView` | src/coins.cpp:187-217 | The same for anchors, given that a root determines its tree |
| `CoinsView.MergeNullifiersView` | src/coins.cpp:219-239 | The same for nullifiers |
| `CoinsView.BatchWriteTakesViewIff` | src/coins.cpp:241-306 | A flush keeps the parent sound, and makes its view equal to the child's if and only if each hash was loaded or the parent showed that of its own base |
| `CoinsView.WriteToDisk` | src/txdb.cpp:76-143 | Writing the last cache to the database makes the stored state equal to the cache's view, with the empty tree always readable |
| `CoinsView.WriteAnchorsView` | src/sapling/sapling_txdb.cpp:56-77 | Anchors written to the database, with the empty root never stored, read back as the cache's overlay |
| `CoinsRuns.AddCoinSafeIff` | src/coins.cpp:95-115 | Adding without possible_overwrite neither throws nor misapplies FRESH if and only if the view has no unspent coin at that outpoint |
| `CoinsRuns.AddCoinView` | src/coins.cpp:95-115 | A permitted add puts exactly that coin into the view, or nothing for an output that is kept out, keeps soundness and does not throw |
| `CoinsRuns.AddCoinKeepsOut` | src/coins.cpp:95-115 | An unspendable output or a zerocoin mint changes nothing; any other coin, where nothing is in its way, is in the view afterwards, as it was given |
| `CoinsRuns.AddThenSpend` | src/coins.cpp:95-148 | Adding where the cache has nothing and spending before any flush leaves no trace: the fresh entry is erased |
| `CoinsRuns.SpendCoinView` | src/coins.cpp:134-148 | Spending takes exactly that coin out of the view and leaves the views below alone, whether the entry is erased or kept as a tombstone |
| `CoinsRuns.PushAnchorView` | src/coins.cpp:458-498 | Pushing a tree makes it visible and best, or changes nothing when it is best already |
| `CoinsRuns.PopAnchorView` | src/coins.cpp:509-546 | Popping hides the current anchor and makes the given root best, or changes nothing; the stack stays sound if and only if it is not the empty root that goes |
| `CoinsRuns.EmptyRootComesBackIff` | src/coins.cpp:509-546 | On every sound stack, of any depth, a popped empty root is back in the view after flushing the top n levels in turn if and only if they are all of them: it stays hidden until the pop reaches the database, which always knows it |
| `CoinsRuns.MarkNullifiersView` | src/coins.cpp:548-557 | Setting or unsetting nullifiers adds or removes exactly the named ones |
| `CoinsRuns.WriteRefines` | src/coins.cpp:95-148 | Every permitted write does to the top view what it does to one plain map, and nothing to the views below |
| `CoinsRuns.WriteMeans` | src/coins.cpp:95-557 | What the view shows after each kind of write, key by key, and that everything the write does not name is as it was |
| `CoinsRuns.RunStoresSpendableOnly` | src/coins.cpp:95-115 | From a database without unspendable outputs and zerocoin mints, no level shows one after any legal run |
| `CoinsRuns.FlushAt` | src/coins.cpp:308-320 | A flush at any level leaves that level's view unchanged and makes the next lower view equal to it |
| `CoinsRuns.RunRefines` | src/coins.cpp:67-329 | Over every legal run of reads, writes, uncachings, flushes and new or retired caches, each level acts as one plain map and nothing throws |
| `CoinsRuns.FlushKeepsViewIff` | src/coins.cpp:302-320 | A flush of any sound cache leaves it sound; it keeps the whole view, and gives it to the base, if and only if neither hash is lost to the raw copy |
| `CoinsRuns.FlushLosesHashes` | src/coins.cpp:302-304 | A stack reached by a legal run whose flush sets the best block back from 7 to 5 and the best anchor from 8 to 6 |
| `CoinsRuns.DisconnectsUndoConnects` | src/coins.cpp:458-557 | Connecting blocks with new roots and nullifiers and disconnecting them in reverse restores the plain view exactly |
| `CoinsRuns.UndoRestoresSapling` | src/coins.cpp:420-563 | The same on the stack of caches, with reads, coin writes, uncachings and flushes interleaved: best anchor, anchors and nullifiers come back |
| `CoinsCache.CoinsViewCache.FetchCoin` | src/coins.cpp:67-83 | Finds the coin iff the view-level fetch does, caches it, marks a spent one fresh; the usage count stays exact |
| `CoinsCache.CoinsViewCache.GetCoin` | src/coins.cpp:85-93 | The coin and the new state are those of the view-level read |
| `CoinsCache.CoinsViewCache.HaveCoin` | src/coins.cpp:162-166 | True exactly for an unspent coin of the view-level read |
| `CoinsCache.CoinsViewCache.AddCoin` | src/coins.cpp:95-115 | Ignores exactly the outputs that cannot be spent and the zerocoin mints. Throws exactly when an unspent entry would be replaced without permission. Otherwise the coin is in the cache as given, dirty. The usage count stays exact if and only if nothing was thrown or the coin found has an empty script |
| `CoinsCache.DriftingCache` | src/coins.cpp:101-109 | A cache whose usage count is too low after the same coin was added twice |
| `CoinsCache.CoinsViewCache.SpendCoin` | src/coins.cpp:134-148 | The state is that of the view-level spend and the coin moved out is the one that was there |
| `CoinsCache.CoinsViewCache.Uncache` | src/coins.cpp:322-329 | Drops the entry if and only if it carries no flag, and no other; the usage count stays exact |
| `CoinsCache.CoinsViewCache.GetBestBlock` | src/coins.cpp:174-179 | Result and state are those of the view-level read |
| `CoinsCache.CoinsViewCache.SetBestBlock` | src/coins.cpp:181-184 | Sets this level's hash and nothing else |
| `CoinsCache.CoinsViewCache.GetBestAnchor` | src/coins.cpp:559-563 | Result and state are those of the view-level read |
| `CoinsCache.CoinsViewCache.GetSaplingAnchorAt` | src/coins.cpp:420-442 | Result and state are those of the view-level read, negative answers not cached |
| `CoinsCache.CoinsViewCache.GetNullifier` | src/coins.cpp:444-456 | Result and state are those of the view-level read, negative answers cached |
| `CoinsCache.CoinsViewCache.PushAnchor` | src/coins.cpp:458-498 | The state is that of the view-level push; the usage count stays exact because a root determines its tree |
| `CoinsCache.CoinsViewCache.PopAnchor` | src/coins.cpp:509-546 | The state is that of the view-level pop; the source's assert that the current anchor can be read is the precondition |
| `CoinsCache.CoinsViewCache.SetNullifiers` | src/coins.cpp:548-557 | The loop marks exactly the named nullifiers |
| `CoinsCache.CoinsViewCache.TakeCoins` | src/coins.cpp:247-297 | The loop over the child's coins, in any order, merges them as specified; it throws exactly when some entry is misapplied |
| `CoinsCache.CoinsViewCache.TakeAnchors` | src/coins.cpp:187-217 | The loop over the child's anchors merges them as specified, in any order |
| `CoinsCache.CoinsViewCache.TakeNullifiers` | src/coins.cpp:219-239 | The loop over the child's nullifiers merges them as specified, in any order |
| `CoinsCache.CoinsViewCache.BatchWrite` | src/coins.cpp:241-306 | All three merges and the raw copy of both hashes; keeps the usage count exact |
| `CoinsCache.CoinsViewCache.Flush` | src/coins.cpp:308-320 | Hands everything to the base and empties this cache but for its hashes; the database's assert on the block hash is the precondition |
| `PackageSelection.ConsiderIsValid` | src/blockassembler.cpp:455-479 | Whatever package is considered, cut short or not: each transaction at most once, after all its ancestors, the side table disjoint from the block, counters exact, shielded size within its cap |
| `PackageSelection.AncestorComesEarlier` | src/blockassembler.h:89-96 | Sorted by ancestor count, an ancestor in the package stands before its descendant |
| `PackageSelection.MinusCoversIff` | src/blockassembler.cpp:298-320 | When the totals of a whole package are taken off a record although only part of it was added, the record still covers if and only if it had room for the refused part |
| `PackageSelection.ExactAbsorbsIff` | src/blockassembler.cpp:298-320 | A record that is exact has that room if and only if the refused ancestors have no size and no signature operations |
| `PackageSelection.ConsiderIsFaithfulIff` | src/blockassembler.cpp:455-479 | Considering a package keeps every record at or above what is unselected if and only if every transaction that depends on it has room for the part that was refused |
| `PackageSelection.ConsiderIsFaithful` | src/blockassembler.cpp:455-479 | In particular when nothing outside the package depends on the refused part |
| `PackageSelection.ConsiderIsListed` | src/blockassembler.cpp:298-320 | Across a package added whole, every transaction with ancestors in the block has a record or has failed |
| `PackageSelection.MinusDoesNotWrap` | src/blockassembler.cpp:311-313 | The unsigned subtractions of the side table do not wrap around when covered |
| `PackageSelection.TestedTotalsCover` | src/blockassembler.cpp:413-420 | The totals that are tested, recorded or cached, cover the package that will be added |
| `PackageSelection.ConsiderIsWithinLimits` | src/blockassembler.cpp:259-266 | A package that passed the test with totals that cover it leaves the block below its size and signature-operation caps |
| `PackageSelection.AddedWholeIff` | src/blockassembler.cpp:459-476 | A package is added whole if and only if it needs no shielded space, or there is enough of it outside maintenance |
| `PackageSelection.RoomForAll` | src/blockassembler.cpp:461-472 | If all shielded transactions of the mempool fit what is left of the reserved space together, no package is ever cut |
| `SelectionRuns.RunIsSound` | src/blockassembler.cpp:360-481 | On every run of the loop, cut packages included, the block is validly ordered, without repeats, of final transactions only and within the shielded cap, counting what earlier blocks left |
| `SelectionRuns.PassesIff` | src/blockassembler.cpp:427-453 | A package passes exactly when the two totals, recorded or cached, fit below the caps in the widths of the source, and its own transaction and every ancestor still to be added is final |
| `SelectionRuns.NothingIsOverlooked` | src/blockassembler.cpp:370-481 | When a run is over, each entry of the mempool is in the block or was, at some turn, taken and refused by the tests or cut: none is skipped |
| `SelectionRuns.StepIsFaithfulIff` | src/blockassembler.cpp:370-481 | A turn keeps the side table from understating if and only if it does not leak: no affected record lacks room for what was refused |
| `SelectionRuns.RunIsWithinLimits` | src/blockassembler.cpp:360-481 | Both caps hold after every run in which no turn but the last leaks |
| `SelectionRuns.RunIsListed` | src/blockassembler.cpp:360-481 | While no package is cut, every transaction with ancestors in the block has a record or has failed |
| `SelectionRuns.StepLowersIff` | src/blockassembler.cpp:370-481 | A turn lowers the measure of the loop (room left, entries left, table size) if and only if it is not that a record of the side table passes both tests and its first transaction is refused |
| `SelectionRuns.RunIsShort` | src/blockassembler.cpp:370-481 | A run in which no turn stalls is no longer than the measure at its start |
| `SelectionRuns.StallStays` | src/blockassembler.cpp:427-480 | A stalling turn leaves block, counters and its own record as they were, so the same test and package come again, whatever happens to other records |
| `SelectionRuns.StalledForEver` | src/blockassembler.cpp:370-481 | From every state in which a record is stuck there are runs of every length on which the block stays the same |
| `SelectionRuns.BlocksShareTheCap` | src/blockassembler.cpp:150-161 | Over any number of blocks from one assembler, each going on with the shielded size the one before left, all their shielded transactions together keep the cap meant for each |
| `SelectionRuns.HarmlessRun` | src/blockassembler.cpp:360-481 | With space left for all shielded transactions, or shielded transactions without relatives in the mempool, every run is within both caps and bounded in length |
| `SelectionExamples.CutBreaksTheLimit` | src/blockassembler.cpp:459-479 | A valid mempool and a run from the start after which the block has 2300 bytes with a limit of 2000, because a package was cut |
| `SelectionExamples.LoopDoesNotEnd` | src/blockassembler.cpp:459-480 | A valid mempool with runs from the start of every length: a shielded child of a selected parent is taken and refused again and again |
| `BlockAssembler.BlockAssembler.OnlyUnconfirmed` | src/blockassembler.cpp:246-257 | Leaves exactly the entries that are not in the block |
| `BlockAssembler.BlockAssembler.TestPackageFinality` | src/blockassembler.cpp:270-277 | True exactly when every transaction of the package is final |
| `BlockAssembler.BlockAssembler.SortForBlock` | src/blockassembler.cpp:339-348 | A permutation of the package by increasing ancestor count |
| `BlockAssembler.BlockAssembler.AddToBlock` | src/blockassembler.cpp:279-296 | Appends the transaction and counts its size and signature operations |
| `BlockAssembler.BlockAssembler.UpdatePackagesForAdded` | src/blockassembler.cpp:298-320 | Takes the totals of all added ancestors off every descendant outside the package, recording it first if needed |
| `BlockAssembler.BlockAssembler.AddPackage` | src/blockassembler.cpp:459-476 | Adds the sorted package up to the first shielded transaction that is refused |
| `BlockAssembler.BlockAssembler.TryPackage` | src/blockassembler.cpp:427-479 | One turn: rejected and unchanged exactly when a total does not fit below its cap or a transaction still to be added is not final, else the sorted package is considered |
| `BlockAssembler.BlockAssembler.NextTurn` | src/blockassembler.cpp:373-479 | The body of the loop is an enabled step of the run, and reports whether it stalled |
| `BlockAssembler.BlockAssembler.AddPackageTxs` | src/blockassembler.cpp:360-481 | From whatever shielded size earlier blocks left, the loop follows a run. The block is validly ordered and final; both caps hold unless a turn before the last leaked; it ends within the bound unless a turn stalled; neither happens for the two kinds of mempools named above. Unless it is ended early, each entry is in the block or was refused |
| `AddrOps.MakeTriedIsConsistent` | src/addrman.cpp:144-190 | Moving an entry to the tried table, evicting its holder back to the new table, keeps all conditions of Check_ |
| `AddrOps.EvictIsConsistent` | src/addrman.cpp:162-184 | Sending the holder of a tried cell back to the new table, over whatever was there, keeps all conditions of Check_ while the entry to be made tried is still loose |
| `AddrOps.NewEntryHasCell` | src/addrman.cpp:221-236 | An entry that is not tried sits in some new bucket: the bail-out of Good_ is never taken |
| `AddrOps.GoodIsOk` | src/addrman.cpp:192-256 | Good_ keeps the conditions of Check_, frees no tried cell, and makes a known address tried unless it must wait for a collision |
| `AddrOps.AddIsOk` | src/addrman.cpp:258-329 | Add_ keeps the conditions of Check_ and reports true exactly for a routable address that was unknown; one that is not routable changes nothing |
| `AddrOps.ShuffleIsOk` | src/addrman.cpp:477-496 | Drawing addresses permutes the random order and nothing else |
| `AddrOps.ResolveIsOk` | src/addrman.cpp:536-593 | Resolving collisions in any order keeps the conditions of Check_ and adds no collision |
| `AddrOps.CollisionHasHolder` | src/addrman.cpp:595-620 | The entry a waiting one would replace exists and is tried, so the unchecked index is valid |
| `AddrOps.SelectFinds` | src/addrman.cpp:353-398 | A table is non-empty exactly when its counter is positive, and every filled cell holds an existing entry |
| `AddrOps.RunIsOk` | src/addrman.cpp:400-474 | After every sequence of public operations on a fresh manager with positive timestamps Check_ returns zero; no tried cell is ever freed and no id changes its address |
| `AddrEffects.TerribleIff` | src/addrman.cpp:35-53 | Terrible is: not tried in the last minute, and from the future, or of unknown time, or not seen for thirty days, or three tries without any success, or ten failures since a success more than a week ago |
| `AddrEffects.AddUnknownIff` | src/addrman.cpp:258-329 | An unknown routable address is entered, with its penalty taken off its time, if and only if the cell its source leads to is free or its holder is terrible or has another cell; what the holder loses, and that nothing else changes |
| `AddrEffects.AddKnownIff` | src/addrman.cpp:267-327 | A known one has its time and services renewed by the rules of the source and gains one more cell exactly when the news is later, it is not tried, has fewer than eight cells, the draw allows it and the cell is free or its holder terrible; nothing else changes |
| `AddrEffects.MakeTriedEffect` | src/addrman.cpp:144-190 | The entry gives up all its new cells for its tried cell; who held that is back in the new table, in the cell its source leads to, and displaces the holder of it; nothing else changes |
| `AddrEffects.GoodEffect` | src/addrman.cpp:192-256 | A known address is stamped; it becomes tried as above, or, where the cell is taken and evictions are tested first, waits as one of at most ten |
| `AddrEffects.GoodUnknownIs` | src/addrman.cpp:192-212 | For an address and port nobody has only the time of the last success changes |
| `AddrEffects.ResolveOneIff` | src/addrman.cpp:536-593 | A waiting entry is dropped when its holder succeeded within four hours, replaces it when the holder was tried in vain within them and has had a minute, or after forty minutes if it was not tried, and else goes on waiting |
| `AddrEffects.StampsUnknown` | src/addrman.cpp:331-534 | Attempt_, Connected_ and SetServices_ change nothing for an address and port nobody has |
| `AddrEffects.StampsKnown` | src/addrman.cpp:331-534 | For one that is known they change the stamps, the time if more than twenty minutes old, or the services of that entry and nothing else |
| `AddrEffects.OneFailurePerGood` | src/addrman.cpp:343-350 | However often an entry is tried, at most one failure is counted until something succeeds again, and it is counted if any of the tries counts |
| `AddrEffects.KeptIff` | src/addrman.cpp:483-495 | What is reported of the entries drawn are exactly those that are not terrible |
| `AddrEffects.KeptIsDistinct` | src/addrman.cpp:483-495 | No address is reported twice |
| `AddrManager.AddrMan.Create` | src/addrman.cpp:83-93 | Enters the address under a new id in the map, the index and at the end of the random order |
| `AddrManager.AddrMan.SwapRandom` | src/addrman.cpp:95-113 | Exchanges two places of the random order and the positions recorded for them |
| `AddrManager.AddrMan.Delete` | src/addrman.cpp:115-127 | Removes a loose entry from all indexes |
| `AddrManager.AddrMan.ClearNew` | src/addrman.cpp:129-142 | Empties a new cell, deleting its entry when that was the last reference |
| `AddrManager.AddrMan.RemoveFromNew` | src/addrman.cpp:146-156 | The loop over all buckets takes the entry out of every new cell |
| `AddrManager.AddrMan.EvictTried` | src/addrman.cpp:162-184 | Frees the tried cell and enters its holder in its new cell; the assert that the cell is free holds |
| `AddrManager.AddrMan.MakeTried` | src/addrman.cpp:144-190 | Reaches the state that MakeTriedIsConsistent is about; the asserts hold |
| `AddrManager.AddrMan.FindBucket` | src/addrman.cpp:221-231 | Finds a bucket if and only if the entry is in one, from whatever random bucket it starts |
| `AddrManager.AddrMan.Good` | src/addrman.cpp:192-256 | As the function that GoodEffect and GoodUnknownIs describe; keeps the manager consistent |
| `AddrManager.AddrMan.Add` | src/addrman.cpp:258-329 | As the function that AddUnknownIff and AddKnownIff describe; keeps the manager consistent |
| `AddrManager.AddrMan.Attempt` | src/addrman.cpp:331-351 | Updates the stamps of a known service and nothing else |
| `AddrManager.AddrMan.Connected` | src/addrman.cpp:498-516 | Updates the time of a known service when it is old enough |
| `AddrManager.AddrMan.SetServices` | src/addrman.cpp:518-534 | Updates the services of a known service |
| `AddrManager.AddrMan.GetAddr` | src/addrman.cpp:477-496 | Draws until 23 percent of all entries or 2500 are found or all are drawn, and returns those drawn that are not terrible |
| `AddrManager.AddrMan.ResolveCollisions` | src/addrman.cpp:536-593 | Resolves each waiting collision once, in the order of ids |
| `AddrManager.AddrMan.SelectTriedCollision` | src/addrman.cpp:595-620 | Returns the existing tried entry that the waiting one drawn collides with, and nothing only if there is no such entry |
| `AddrChance.ChanceIsBounded` | src/addrman.cpp:55-68 | The chance of an entry is at most one and never below what eight failures and a recent try leave |
| `AddrChance.EightAttempts` | src/addrman.cpp:64-65 | Eight failures leave a chance between 1/28 and 1/27 |
| `AddrChance.AlwaysTakenIff` | src/addrman.cpp:375-377 | After k refusals a draw succeeds whatever the entry, the time and the roll if and only if k is at least 44 |
| `AddrManager.AddrMan.DrawFrom` | src/addrman.cpp:363-378 | Whatever the random draws, an entry of the table is taken after at most 44 refusals |
| `AddrManager.AddrMan.Select` | src/addrman.cpp:353-398 | Finds nothing exactly when there is nothing (or nothing new) to find, and always ends, after at most 44 refusals |
| `AddrSerialize.SerializeCounts` | src/addrman.h:332-350 | The counters equal the lengths of the two lists written, so neither assert fails |
| `AddrSerialize.IndexFinds` | src/addrman.h:330-339 | The index written for a new entry is its place in the list of new entries |
| `AddrSerialize.FillBuckets` | src/addrman.h:421-437 | Reading the buckets back refills exactly the cells they came from, and no reference is refused |
| `AddrSerialize.PruneNothing` | src/addrman.h:439-449 | No entry is left without references, so nothing is pruned |
| `AddrSerialize.RoundTrip` | src/addrman.h:313-458 | Reading back what was written gives a consistent manager with the same entries, new cells, tried cells, reference counts and counters under new ids; nothing is lost |
| `AddrManager.AddrMan.Serialize` | src/addrman.h:313-362 | The loops write the specified stream; the asserts on the counts hold |
| `AddrManager.AddrMan.Unserialize` | src/addrman.h:363-458 | The loops read any version and any number of bucket lists into the specified manager, placing entries by their source when the lists cannot be used; a wrong key size is refused |
| `AddrForeign.LoadIsLoaded` | src/addrman.h:383-440 | Whatever a stream says, tables, reference counts, counters and random order come out right before pruning |
| `AddrForeign.UnserializeOkIff` | src/addrman.h:363-458 | Reading any stream gives a manager that passes its check if and only if, of the entries read, none that is kept shares its address with another and those kept have stamps that fit |
| `AddrForeign.GoodStreamIsRead` | src/addrman.h:363-458 | Different addresses and fitting stamps suffice, whatever the bucket lists say |
| `AddrForeign.RepeatedAddressFails` | src/addrman.h:383-421 | A stream with one address in both lists, after which the check fails, whatever the placement |
| `AddrSurvivors.NewSurvivesIff` | src/addrman.h:383-449 | From a stream of another version or number of buckets a new entry is kept, with one cell, if and only if no earlier one leads to the same cell |
| `AddrSurvivors.TriedSurvives` | src/addrman.h:400-417 | From any stream the tried table has exactly the cells its tried entries lead to, and in each the first of them |
| `CheckQueues.BatchFits` | src/checkqueue.h:103-115 | A batch has at least one check and no more than the queue; it is the largest within the limit that leaves as much for each other thread, idle ones counted twice, unless that is below one |
| `CheckQueues.CheckQueue.Begin` | src/checkqueue.h:76-87 | Reports the last batch, or counts a new thread; the master is notified exactly when a worker completes the last check |
| `CheckQueues.CheckQueue.TakeBatch` | src/checkqueue.h:103-115 | Takes the specified number of checks off the end of the queue |
| `CheckQueues.CheckQueue.Continue` | src/checkqueue.h:88-118 | Returns, sleeps or takes work as specified |
| `CheckQueues.CheckQueue.Add` | src/checkqueue.h:144-156 | Appends the checks and says whom to wake |
| `CheckQueues.RunBatch` | src/checkqueue.h:119-123 | The batch is good exactly when it started good and every check in it is true |
| `CheckQueues.RunIsOk` | src/checkqueue.h:67-156 | Every interleaving of one master and any number of workers, spurious wake-ups included, keeps the invariant |
| `CheckQueues.TodoIsWhatIsLeft` | src/checkqueue.h:67-156 | In every reachable state nTodo is the queue length plus the sizes of all batches in flight, and the next batch fits the queue |
| `CheckQueues.WaitTellsTheTruth` | src/checkqueue.h:137-141 | Every Wait that has returned gave true if and only if every check added since the one before is true |
| `CheckQueues.IdleIff` | src/checkqueue.h:162-166 | In every reachable state the queue is idle if and only if all checks added since the last Wait are completed and true |
| `CheckQueues.IdleBetweenRounds` | src/checkqueue.h:181-188 | Before the first Add of a round the queue is idle, so the assert of the control constructor holds |
| `CheckQueues.BeginRound` | src/checkqueue.h:181-187 | The control constructor between rounds: what IsIdle returns is true |
| `CheckQueues.RunStep` | src/checkqueue.h:67-156 | What a thread does under the lock, in the order of Loop, moves the shared fields as the step of the transition system says |
| `CheckQueues.WaitingMasterHasHelper` | src/checkqueue.h:76-102 | A master that waits unnotified implies a worker that holds a batch |
| `CheckQueues.WaitIsNeverStuck` | src/checkqueue.h:67-125 | While the master is inside Wait, some thread has a step to take |
| `CheckQueues.WaitReturns` | src/checkqueue.h:67-125 | Under every scheduler, with any number of spurious wake-ups in between, the other steps are bounded in number, and when none is left Wait has returned |
| `CheckNotify.AddIsAwake` | src/checkqueue.h:144-156 | Adding checks while a worker waits notifies one: with more than one check all of them |
| `CheckNotify.NoLostWakeUp` | src/checkqueue.h:90-156 | In every reachable state in which a worker waits without having been notified, at least as many have been notified, and have not looked yet, as checks are queued |
| `CuckooSpec.InsertKeepsPlaces` | src/cuckoocache.h:368-416 | After an insertion every element but the default one still sits in at most one slot, one of its own eight |
| `CuckooSpec.ContainsIff` | src/cuckoocache.h:443-453 | Looking into the eight slots finds an element if and only if it is anywhere in the table |
| `CuckooSpec.InsertLosesAtMostOne` | src/cuckoocache.h:368-416 | Table and newcomer lose at most one element, and gain none: what was in the discardable slot where the chain ended, or what was left over at the depth limit |
| `CuckooSpec.InsertRemembers` | src/cuckoocache.h:382-415 | If the chain ends in a slot, the newcomer and every element that could not be discarded are found afterwards |
| `CuckooSpec.EpochMakesRoom` | src/cuckoocache.h:264-296 | After an epoch check there is room for one more live entry under the bound |
| `CuckooSpec.RunIsOk` | src/cuckoocache.h:264-453 | On every run from setup elements are in their places and the live entries of the current epoch never exceed epoch_size + max(1, epoch_size/16) |
| `CuckooSpec.FoundWasInserted` | src/cuckoocache.h:443-453 | What is found, other than the default element, was inserted |
| `CuckooLife.LiveIs` | src/cuckoocache.h:268-275 | The count that decides whether an epoch ends is that of the entries of this epoch that are not discardable |
| `CuckooLife.EraseMarks` | src/cuckoocache.h:443-453 | Erasing makes that element discardable and no other, and moves nothing |
| `CuckooLife.EpochAges` | src/cuckoocache.h:264-296 | When an epoch ends, and only then, entries of it become old and old ones discardable |
| `CuckooLife.ChainMovesSlots` | src/cuckoocache.h:382-415 | A displacement chain carries the flags along: of all slots and the newcomer's exactly one is lost, a discardable one if the chain ends in a slot |
| `CuckooLife.InsertLife` | src/cuckoocache.h:368-416 | An insertion leaves its element current and kept, every other as it was, aged if an epoch ended, but for one; if a slot was found, that one was discardable |
| `CuckooLife.RoomIsUsed` | src/cuckoocache.h:382-392 | If one of the element's eight slots may be discarded, the element is kept |
| `CuckooCaches.MaskSets` | src/cuckoocache.h:92-116 | Setting a bit of a byte changes that bit and no other |
| `CuckooCaches.BitFlags.BitSet` | src/cuckoocache.h:92-95 | Of all packed flags exactly the given one is set |
| `CuckooCaches.BitFlags.BitUnset` | src/cuckoocache.h:103-106 | Of all packed flags exactly the given one is cleared |
| `CuckooCaches.BitFlags.BitIsSet` | src/cuckoocache.h:113-116 | Reads the given flag |
| `CuckooCaches.Cuckoo.EpochCheck` | src/cuckoocache.h:264-296 | Both scans do to table and flags what the specification says |
| `CuckooCaches.Cuckoo.Displace` | src/cuckoocache.h:382-415 | The displacement loop in place is the specified chain |
| `CuckooCaches.Cuckoo.Insert` | src/cuckoocache.h:368-416 | As the specification |
| `CuckooCaches.Cuckoo.Contains` | src/cuckoocache.h:443-453 | As the specification; erasing only marks the slot as discardable |
| `DbStores.ReadSeesView` | src/dbwrapper.h:629-647 | A read gives what the overlay holds; it throws if and only if the topmost pending write of the key has another type |
| `DbStores.ExistsIff` | src/dbwrapper.h:655-666 | Exists tells membership in the overlay |
| `DbStores.WriteIsSound` | src/dbwrapper.h:607-621 | A write puts exactly that entry into the overlay and keeps the memory usage exact |
| `DbStores.EraseIsSound` | src/dbwrapper.h:674-684 | An erase takes exactly that key out of the overlay and keeps the memory usage exact |
| `DbStores.CommittedIsSound` | src/dbwrapper.h:693-702 | A commit makes the target the overlay, keeps its memory usage exact, and leaves the transaction empty |
| `DbStores.LessTransitive` | src/dbwrapper.h:553-559 | The order is transitive, and is that of the bytes |
| `DbStores.LessTotal` | src/dbwrapper.h:553-559 | Of two keys that differ exactly one precedes the other by bytes |
| `DbStores.LessIff` | src/dbwrapper.h:553-559 | The order of keys is that of their bytes: a proper prefix comes first, else the first byte that differs decides |
| `DbStores.EvoRunRefines` | src/evo/evodb.cpp:43-62 | Every run of writes, erases, commits and rollbacks on two stacked transactions is a run on three plain maps |
| `DbTransactions.DbTransaction.Write` | src/dbwrapper.h:607-621 | As the specification, with usage exact |
| `DbTransactions.DbTransaction.Read` | src/dbwrapper.h:629-647 | As the specification |
| `DbTransactions.DbTransaction.Exists` | src/dbwrapper.h:655-666 | True exactly for keys of the overlay |
| `DbTransactions.DbTransaction.Erase` | src/dbwrapper.h:674-684 | As the specification, with usage exact |
| `DbTransactions.DbTransaction.Clear` | src/dbwrapper.h:686-691 | What is seen afterwards is the parent's map |
| `DbTransactions.DbTransaction.Commit` | src/dbwrapper.h:693-702 | The two loops, in any order, turn the target into the overlay |
| `DbTransactions.DbTransaction.GetMemoryUsage` | src/dbwrapper.h:709-721 | The exact sum over the pending entries, so never negative |
| `DbTransactions.TransactionIterator.SeekToFirst` | src/dbwrapper.h:414-420 | All keys of the overlay are still to come |
| `DbTransactions.TransactionIterator.Seek` | src/dbwrapper.h:428-434 | Exactly the keys of the overlay that do not precede the one sought are still to come |
| `DbTransactions.TransactionIterator.Valid` | src/dbwrapper.h:436-439 | True exactly while keys are still to come |
| `DbTransactions.TransactionIterator.GetKey` | src/dbwrapper.h:478-488 | The one of the keys still to come that precedes all others by bytes |
| `DbTransactions.TransactionIterator.GetValue` | src/dbwrapper.h:502-513 | What the overlay holds under the current key |
| `DbTransactions.TransactionIterator.Next` | src/dbwrapper.h:441-455 | Takes exactly the current key off those still to come |
| `DbTransactions.TransactionIterator.CurrentIsLeast` | src/dbwrapper.h:527-540 | The cursor that is chosen stands on the key still to come that precedes all others |
| `DbTransactions.TransactionIterator.Traverse` | src/dbwrapper.h:414-455 | A whole traversal gives exactly the keys of the overlay, each preceding the next by bytes |
| `ArithUint.BaseUint.AddAssign` | src/arith_uint256.h:136-146 | The sum modulo the range, for any number of limbs, also when the operand is the number itself |
| `ArithUint.BaseUint.Complement` | src/arith_uint256.h:70-76 | The range minus one minus the value |
| `ArithUint.BaseUint.Negate` | src/arith_uint256.h:78-85 | The negated value modulo the range |
| `ArithUint.BaseUint.SubAssign` | src/arith_uint256.h:148-152 | The difference modulo the range |
| `ArithUint.BaseUint.Increment` | src/arith_uint256.h:174-181 | The value plus one modulo the range |
| `ArithUint.BaseUint.Decrement` | src/arith_uint256.h:191-198 | The value minus one modulo the range |
| `ArithUint.BaseUint.MulLimb` | src/arith_uint256.cpp:64-73 | The product with a limb modulo the range; no intermediate value exceeds 64 bits |
| `ArithUint.BaseUint.MulAssign` | src/arith_uint256.cpp:76-89 | The product modulo the range; no intermediate value exceeds 64 bits |
| `ArithUint.BaseUint.ShiftLeft` | src/arith_uint256.cpp:30-44 | The value times a power of two modulo the range, for every shift |
| `ArithUint.BaseUint.ShiftRight` | src/arith_uint256.cpp:47-61 | The floor of the value by a power of two, for every shift |
| `ArithUint.BaseUint.CompareTo` | src/arith_uint256.cpp:118-127 | The sign of the difference of the values |
| `ArithUint.BaseUint.Bits` | src/arith_uint256.cpp:215-227 | The position of the highest bit set, plus one |
| `ArithUint.BaseUint.DivAssign` | src/arith_uint256.cpp:92-115 | The floor quotient, with the remainder left over; throws exactly for a zero divisor, after clearing the number |
| `ArithUint.BaseUint.SetLow64` | src/arith_uint256.h:89-96 | Assigns a number of 64 bits |
| `ArithUint.BaseUint.GetLow64` | src/arith_uint256.h:276-280 | The value modulo 2^64 |
| `Limbs.ProductFits` | src/arith_uint256.cpp:82-84 | A product of two limbs plus two limbs is below 2^64 |
| `Compact.RoundTrip` | src/arith_uint256.cpp:274-315 | Decoding what was encoded gives x without the bytes below the kept mantissa, no overflow, and the sign of anything but zero |
| `Compact.KeptIsClose` | src/arith_uint256.cpp:274-315 | What is kept is at most x and differs from it only below the kept bytes |
| `Compact.EncodeIsIdempotent` | src/arith_uint256.cpp:274-315 | Encoding again after the round trip gives the same compact form |
| `Compact.OverflowIff` | src/arith_uint256.cpp:287-290 | The overflow flag is set if and only if mantissa * 256^(exponent - 3) is at least 2^256 |
| `Compact.DecodeMeans` | src/arith_uint256.cpp:274-292 | Decoding gives mantissa * 256^(exponent - 3), without its fraction, modulo 2^256, negative exactly for the sign bit of anything but zero |
| `Compact.CanonicalIff` | src/arith_uint256.cpp:274-315 | Encoding after decoding returns the same form exactly for the canonical ones |
| `Compact.BytesOfBits` | src/arith_uint256.cpp:296 | The size computed from the bit length is the number of bytes |
| `Compact.MantissaBounds` | src/arith_uint256.cpp:304-311 | The mantissa leaves the sign bit free, so the assert holds, and is zero only for zero |
| `Compact.SetCompact` | src/arith_uint256.cpp:274-292 | On the limbs: value and both flags are those of the decoding function |
| `Compact.GetCompact` | src/arith_uint256.cpp:294-315 | On the limbs: the encoding function; both asserts hold |
| `Chains.InvertTakesLowestOne` | src/chain.cpp:74-75 | n & (n - 1) takes off the largest power of two that divides n |
| `Chains.SkipsBack` | src/chain.cpp:78-86 | The height skipped to is below |
| `Chains.BlockIndex.GetAncestor` | src/chain.cpp:88-110 | Following skip pointers ends at the block that walking back one by one would reach, and terminates |
| `Chains.BlockIndex.BuildSkip` | src/chain.cpp:117-121 | Sets the skip pointer to the ancestor at the skip height and keeps the whole tree in order |
| `Chains.AddBlock` | src/chain.cpp:117-121 | Every tree grown by linking a block and building its skip pointer is in order |
| `Chains.LastCommonAncestor` | src/chain.cpp:336-352 | The highest common ancestor, or null exactly when there is none; the assert holds in every forest |
| `Chains.Chain.SetTip` | src/chain.cpp:14-25 | With the early stop, each height ends up with the tip's ancestor at that height |
| `Chains.Chain.ContainsIff` | src/chain.h:436-439 | Membership in the chain is being an ancestor of the tip |
| `Chains.Chain.FindFork` | src/chain.cpp:56-65 | The highest block of the chain that is an ancestor, that is, the last common ancestor with the tip |
| `Chains.Chain.GetLocator` | src/chain.cpp:27-54 | Ancestors of the start down to the root: ten single steps, then each step twice the one before |
| `Chains.LocatorHeights` | src/chain.cpp:27-54 | The height of every block of a locator, in closed form, ending at the root |
| `Chains.LocatorIsShort` | src/chain.cpp:27-54 | A locator grows with the logarithm of the height only |
| `Bech32Checksum.ShiftIsLinear` | src/bech32.cpp:77-87 | The step of the checksum is linear over exclusive or |
| `Bech32Checksum.ShiftIsInjective` | src/bech32.cpp:77-87 | Only the zero state goes to zero |
| `Bech32Checksum.FoldIsLinear` | src/bech32.cpp:60-90 | A difference between two states evolves on its own, whatever values follow |
| `Bech32Remainder.ReduceIsProduct` | src/bech32.cpp:82-87 | The five constants add up, for every leading coefficient, to its product in the field of 32 elements with the coefficients 29, 22, 20, 21, 29, 18 |
| `Bech32Remainder.StepIsTimesX` | src/bech32.cpp:62-87 | One step on the packed state is multiplication by x plus the next value modulo the generator, coefficient by coefficient |
| `Bech32Remainder.FoldIsRemainder` | src/bech32.cpp:33-90 | The state after any values is the remainder modulo the generator of the polynomial they spell |
| `Bech32Remainder.DivisionIsUnique` | src/bech32.cpp:35-42 | A polynomial is a multiple of the generator plus six coefficients in one way only |
| `Bech32Remainder.PolyModIff` | src/bech32.cpp:33-90 | Six values are the groups of the result if and only if they are the remainder: the polynomial with a one in front is some multiple of the generator plus them |
| `Bech32Checksum.OneErrorShows` | src/bech32.cpp:33-90 | Changing one value changes the checksum, at any length |
| `Bech32Checksum.BurstShows` | src/bech32.cpp:33-90 | Changing any of six consecutive values changes the checksum, at any length |
| `Gf1024.NoZeroDivisors` | src/bech32.cpp:42-44 | The field of 1024 elements in which the generator has its roots is a field: a product is zero only if a factor is |
| `Gf1024.AlphaDiffers` | src/bech32.cpp:42-44 | Powers of its generating element repeat only after 1023 steps, the length of the window |
| `Bech32Errors.EmbedTimes` | src/bech32.cpp:47-53 | The field of 32 elements lies inside it: products there and products of embedded elements agree |
| `Bech32Errors.DivisionAt` | src/bech32.cpp:40-44 | At a root of the generator a polynomial has the value of its remainder |
| `Bech32Errors.ThreeVanish` | src/bech32.cpp:42-44 | Three unknowns that satisfy the equations of three consecutive roots are zero, places that coincide aside |
| `Bech32Errors.ThreeErrorsShow` | src/bech32.cpp:33-90 | Any change of up to three values within a window of 1023 changes the checksum, at any length and at any distance |
| `Bech32Checksum.ChecksumIff` | src/bech32.cpp:114-135 | Six values complete a list to a valid one if and only if they are its created checksum |
| `Bech32.RoundTripIff` | src/bech32.cpp:143-188 | Decoding gives back what was encoded if and only if the human-readable part is non-empty, printable and not upper case, the values fit five bits and the length is at most 1023 |
| `Bech32.DecodeIff` | src/bech32.cpp:158-188 | With a separator, a string is accepted if and only if it is printable, of one case, at most 1023 long, with something before the last separator and at least six symbols after it that verify; and what it then decodes to |
| `Bech32.NoSeparatorFails` | src/bech32.cpp:169-172 | Without a separator it is rejected |
| `Bech32.DecodeThenEncode` | src/bech32.cpp:143-188 | Encoding what was decoded gives the same string in lower case |
| `Bech32.OneSymbolErrorShows` | src/bech32.cpp:158-188 | Replacing one data symbol of an accepted string by one of another value is always rejected |
| `Bech32.BurstOfSymbolsShows` | src/bech32.cpp:158-188 | Replacing six consecutive data symbols of an accepted string, whichever of them differ in value, is always rejected |
| `Bech32Errors.ThreeSymbolErrorsShow` | src/bech32.cpp:158-188 | Replacing up to three data symbols of an accepted string, wherever they are and not all by symbols of their own values, is always rejected |
| `Bech32Errors.ExpandAt` | src/bech32.cpp:99-111 | High bits, a zero and low bits of the human-readable part, each at its place |
| `Bech32Errors.ExpandIsInjective` | src/bech32.cpp:99-111 | Different human-readable parts expand differently |
| `Bech32Errors.HrpErrorShows` | src/bech32.cpp:158-188 | Replacing one character of the human-readable part of an accepted string by one that differs in more than its case is always rejected |
| `KnownStrings.Bech32Alphabet` | src/bech32.cpp:16 | The symbol of each value is its letter of the alphabet |
| `KnownStrings.Bech32String` | src/test/bech32_tests.cpp:28 | A12UEL5L is the human-readable part a without values |
| `Bech32Codec.PolyMod` | src/bech32.cpp:33-90 | The loop computes the fold of the step |
| `Bech32Codec.ExpandHRP` | src/bech32.cpp:99-111 | High bits, a zero, low bits |
| `Bech32Codec.CreateChecksum` | src/bech32.cpp:124-135 | The checksum of the specification |
| `Bech32Codec.Encode` | src/bech32.cpp:143-155 | The encoding function; empty when a value does not fit five bits |
| `Bech32Codec.Decode` | src/bech32.cpp:158-188 | The decoding function, rejections included |
| `Base58.EncodeBufferSuffices` | src/base58.cpp:98-111 | 256^n <= 58^(n * 138 / 100 + 1): the estimate for encoding suffices for every n |
| `Base58.DecodeBufferSuffices` | src/base58.cpp:37-53 | 58^n <= 256^(n * 733 / 1000 + 1): the estimate for decoding suffices for every n |
| `Radix.MulAdd` | src/base58.cpp:45-54 | The buffer times the base plus a digit, in place; the carry left over is zero and the length is exact |
| `Base58.RoundTrip` | src/base58.cpp:23-126 | Decoding gives back every byte string, unless it is longer than allowed |
| `Base58.DecodeThenEncode` | src/base58.cpp:23-126 | Encoding what was decoded gives back the word, so all of a string without spaces |
| `Base58.RejectedIff` | src/base58.cpp:23-71 | For every limit, negative ones included: rejected if and only if malformed, or too long and not (nothing under a negative limit) |
| `Base58.NothingIsNeverTooLong` | src/base58.cpp:28-56 | With a negative limit the empty string is accepted all the same |
| `KnownStrings.Base58Alphabet` | src/base58.cpp:21 | The symbol of each digit is its letter of the alphabet |
| `KnownStrings.AcceptedIff` | src/base58.cpp:23-63 | A string is well formed if and only if it is letters of the alphabet with blanks around them, and then those letters are decoded |
| `KnownStrings.Base58String` | src/test/data/base58_encode_decode.json:3 | The byte of a is 2g, and with a zero byte in front 12g |
| `Base58Codec.EncodeBase58` | src/base58.cpp:88-126 | The loops compute the encoding; the assert on the carry holds |
| `Base58Codec.DecodeBase58` | src/base58.cpp:23-71 | The loops compute the decoding, early rejections and spaces included; the assert on the carry holds |
| `BloomSpec.InsertTracks` | src/bloom.cpp:263-284 | After an insertion every cell of a key of the last three generations names that generation or a later one |
| `BloomSpec.HistoryIsRecent` | src/bloom.cpp:265-278 | The three generations are the end of the insertions since the reset, the older two full |
| `BloomSpec.RecentIsContained` | src/bloom.cpp:292-301 | Every key still remembered, that is of the last three generations, is found |
| `BloomSpec.ContainsIff` | src/bloom.cpp:263-301 | After any insertions a key is found if and only if each of its cells belongs to one of the keys of the last three generations, whose number is given |
| `BloomSpec.EmptyContainsNone` | src/bloom.cpp:292-317 | An empty filter finds nothing |
| `BloomSpec.NeverForgetsRecent` | src/bloom.cpp:263-301 | Each of the last nElements keys inserted since the reset is found, for any hash functions and any number of wrap-arounds; two generations are that many or one more |
| `RollingBloom.PutThenGet` | src/bloom.h:135-142 | Writing a packed cell changes that cell and no other |
| `RollingBloom.RollingBloomFilter.Get` | src/bloom.h:135-137 | Reads the cell |
| `RollingBloom.RollingBloomFilter.Put` | src/bloom.h:139-142 | Of all cells exactly the given one is written |
| `RollingBloom.RollingBloomFilter.Insert` | src/bloom.cpp:263-284 | Rolls over, wipes and marks as specified |
| `RollingBloom.RollingBloomFilter.Contains` | src/bloom.cpp:292-301 | As the specification |
| `RollingBloom.RollingBloomFilter.Clear` | src/bloom.cpp:309-317 | Back to the empty filter in generation one |

The members that state a state change in full, such as the methods of the classes, are tied to
functions on values; what the node promises is proved of those functions by the lemmas named
above.

## Where the code falls short of a promise

- Block caps: after a package is cut short at a shielded transaction, totals of the whole package
  are taken off its descendants although part of it is not in the block. `ConsiderIsFaithfulIff`
  and `StepIsFaithfulIff` say exactly when that understates a record, `RunIsWithinLimits` that the
  caps hold unless it happened before. `CutBreaksTheLimit` is a run that breaks the size cap.
- End of the selection: a record of the side table that passes both tests and whose first
  transaction is refused is neither added nor erased. `StepLowersIff` says that this is exactly when
  a turn makes no progress, `StalledForEver` that it can then go on for ever, `LoopDoesNotEnd` gives
  a mempool. `HarmlessRun` names mempools for which neither trouble arises.
- Flush before the hashes are loaded: the raw copy of a null hash makes the parent fall back to
  its own base. `FlushKeepsViewIff` says exactly when that changes the view, `FlushLosesHashes` is
  a stack on which it does.
- Popping the empty Sapling root: it is gone from the view until the pop has been flushed through
  every level into the database, and then back. `PopAnchorView` says exactly when a pop leaves the
  stack sound, `EmptyRootComesBackIff` says for every stack and every number of flushed levels
  whether the root is back. Legal runs exclude it.
- Shielded cap of a block: it is never counted afresh, so later blocks of the same assembler share
  it with the earlier ones. `BlocksShareTheCap` says so for any number of blocks.
- `AddCoin` lets its usage count drift when it throws over a coin whose script is not empty;
  `DriftingCache` is such a cache.
- Reading a stream with repeated addresses or unfit stamps can leave a manager that fails its own
  check. `UnserializeOkIff` says exactly when, `RepeatedAddressFails` is such a stream.
- Base58 decoding with a negative limit accepts an empty string. `RejectedIff` covers all limits.

## Left out

- Hash functions (address buckets, cuckoo slots, Murmur, block and tree hashes) are parameters with the range they need; Merkle trees are opaque values determined by their root.
- The database at the bottom of the coins stack is one value: batches split by size, head-block markers for crash recovery and leveldb itself are not modelled.
- Fees: package selection leaves open which entry scores higher and when the relay minimum ends the loop, so both fee fields of the side table are absent.
- The mempool is a finite order with exact cached ancestor totals; how it is maintained is not modelled.
- CreateNewBlock, coinbase, coinstake and Sapling root handling around the selection loop.
- The two tables of the address manager are maps of the filled cells instead of arrays with -1; clocks and random draws are parameters or left open.
- AddrManager.AddrMan.Select: chances are real numbers, without the rounding of doubles; that the probing for a filled cell ends is not shown, since it rests on the random draws.
- The consistency check of the address manager: `Ok` asks for every entry that its address leads to it. Check_ compares with a lookup that inserts zero for a missing address, so an entry numbered 0 without an index entry passes there.
- AddrManager.AddrMan.Unserialize: into a fresh manager, from a stream that has the lists its counts announce; negative counts, streams that end early and the masking of the bucket count are not modelled.
- Clear of a used address manager, which keeps its collisions.
- Thread interruption and fQuit of the check queue; the widths of its counters.
- Sizing of the cuckoo table and the Bloom filter by logarithms: depth, words and hash counts are parameters. Memory order of the packed flags.
- Typed keys of the database wrapper: keys and values are their serialized bytes, and a value carries the type it was written as.
- DbTransactions.TransactionIterator.Traverse: the transaction is not changed while it is iterated over; the parent's iterator is the ordered list of the parent's keys.
- getdouble, hexadecimal conversion and the bitwise operators of the big integers.
- Timestamps, chain work, stake modifiers and validity flags of block index entries; FindEarliestAtLeast.
- Bech32Errors.ThreeErrorsShow: three errors within a window of 1023; that four are found within 89 rests on a search among codes, not on the roots of the generator.
- EncodeBase58Check and DecodeBase58Check, whose checksum is a hash; the 32-bit width of lengths in both Base58 functions.
- CBloomFilter, and the rolling filter for zero elements, for which the source divides by zero.
- Masternodes, budget, staking, wallet, network, RPC and script code.

# Node core: chain selection, coins, addresses, check queue, encodings

Dafny models of the parts of this node that carry real invariants, and proofs about them. Code that
changes state in place is a class or a method with loops, proved equal to a function of the state it
started from; what the source promises is then proved about those functions.

* **Block tree** (`BlockTree`, `ActiveChain`, `Locators`): block index entries as a map from block ids
  to nodes; the skip list, the active chain vector, block locators and the fork search.
* **Chain selection** (`ChainModel`, `ChainSteps`, `SearchSteps`, `TipWalk`, `SearchCourse`, `FirstSeen`,
  `ChainState`, `CheckBlockIndex`, `ChainRuns`):
  the class `Chainstate` holds the statuses, the candidate set, the map of blocks waiting for a
  parent's data, the active chain and the coins. `ConnectBlock`'s verdict is a fixed predicate per
  block; disconnecting works on any coins and may fail. `Searching` is kept by every operation, also
  between the rounds of a search; `Consistent`, from which every assertion of `CheckBlockIndex`
  follows, holds whenever the last search was not cut short. `LedgerRuns`, `UncleanChains` and
  `CutShortSearch` put real coins under it.
* **Coins** (`Coins`, `CoinsStack`, `CoinsCache`): a stack of write-back caches over a database, as a
  value and as linked objects, and the one flat map it stands for.
* **Connecting and disconnecting** (`Utxo`, `UtxoEffect`, `UtxoBlocks`, `Ledgers`, `ConnectDisconnect`,
  `MoneySupply`): `UpdateCoins` and `DisconnectBlock` on that flat map and, refining it, on a cache; how
  far they undo each other, for a block and for a chain of blocks; the value accounting of
  `ConnectBlock`.
* **Formats** (`VarInts`, `ScriptCodec`, `CoinsCodec`, `CoinsStream`): variable-length integers, amount
  and script compression, and the coins format, byte for byte.
* **Address manager** (`AddrModel`, `AddrOps`, `AddrManager`, `AddrCheck`, `AddrDisk`, `AddrReload`,
  `AddrRules`, `LoadRules`, `AddrSerialize`, `AddrTimes`, `AddrRuns`): the five structures of `CAddrMan`
  as a value (`Book`) and as the class `AddrManager.CAddrMan` with its two-dimensional tables; its file
  format.
* **Script check queue** (`CheckQueueModel`, `CheckQueueRuns`, `CheckQueue`): a transition system with
  one master and any number of workers, one step for each critical section, each check executed
  without the lock and each wake-up; the class `CCheckQueue` is the code inside the critical sections.
* **Base58** (`Positional`, `Base58`, `Base58Codec`): the in-place big-number loops.
* **Stake modifier** (`StakeModifier`, `ModifierRules`) on one branch of the block tree, and **masternode payee votes**
  (`PayeeVotes`).
* `Wrappers`: optional values, a maximum and two facts about maps and sets.

## What the proofs turned up

* Undo data keeps `fCoinStake`, but `DisconnectBlock` does not restore it (src/main.cpp:2083-2088). A
  block whose coinstake was used up by a later block is then not clean to disconnect.
  `Ledgers.ReorganisationPossible` says exactly how far a chain can be walked back, and
  `UncleanChains.UncleanReorganisation` gives, for every maturity, a chain that cannot be.
* For `DisconnectTip` unclean is an error (src/main.cpp:2104-2109, 2451); only `VerifyDB` asks for the
  flag instead (src/main.cpp:3930). The search for the best chain is cut short then.
  `SearchCourse.Succeeds` says from the state before whether that happens, and
  `CutShortSearch.SearchIsCutShort` gives a state in which it does. When the last round of a search had
  left the tip it started from, the tip it ends on is no candidate
  (`ChainState.Chainstate.SearchRound`), so that the node's own check fails afterwards
  (`CheckBlockIndex.CutShortFails`; `AllPassIffComplete` says exactly when it passes). The invariant that
  is left lets later operations go on, and a later search that succeeds repairs it.
* `InvalidateBlock` in that case returns before it completes the candidates (src/main.cpp:2877-2879): the
  active chain keeps a block marked invalid. The validation state is not touched, so that its caller
  goes on to `ActivateBestChain` (src/rpcblockchain.cpp:738-743). What holds then is the failure part of
  `ChainState.Chainstate.InvalidateBlock`, and a round of the search does not take the block off the
  active chain either (`ChainRuns.NoWayOut`).
* `HaveInputs` accepts an output that a transaction names twice. The assertion in `UpdateCoins` holds
  after it if and only if no input is named twice, which is tested elsewhere
  (`ConnectDisconnect.SafeIffDistinct`, `DoubleSpendPassesHaveInputs`).
* `CCoinsViewCache::Flush` hands a null best-block hash down to a parent cache, which then forgets
  its own (`CoinsStack.BestBlockLost`; `FlushKeepsBestBlock` gives the exact condition). The database
  ignores a null hash.
* `Add_` answers true for an address it does not store when the slot is taken (`AddrOps.AddStores`
  says when it is stored, `NotEveryNewAddressIsStored` that it happens).
* `Good_` with a time of zero or less and `Attempt_` with a negative time leave a book that `Check_`
  rejects, exactly when they hit an entry (`AddrTimes.GoodTimes`, `AttemptTimes`); nothing else depends
  on the times.
* A negative transaction version is stored as its low seven bits (`CoinsCodec.RoundTrip`), which is why
  `DisconnectBlock` corrects it.
* `AddToBlockIndex` computes no stake modifier for the genesis entry, so that the chain of generators
  starts at height 1, with a value that the source makes by casting a string literal's address
  (src/kernel.cpp:157-161).
* The comment above `CCoins` (src/coins.h:33-40) gives the header code without the coinstake bit; the
  model follows the code, which has four flag bits and multiplies the mask count by 16. The size
  function next to it uses 8 (src/coins.h:183), so that it is not claimed to match.
* `CAddrMan::Clear` leaves `mapInfo` and `mapAddr` as they are; reading a file back is proved for a
  freshly constructed object.

## Model

| member | source | states |
|---|---|---|
| BlockTree.GetSkipHeight | src/main.cpp:3543-3555 | the skip height of n >= 1 lies in [0, n), from the bit operations; below 1 it is 0 |
| BlockTree.InvertLowestOneClears | src/main.cpp:3543 | n & (n - 1) turns off exactly the lowest one bit |
| BlockTree.SkipHeightIs | src/main.cpp:3546-3555 | the exact skip height: an even height without its lowest one bit, an odd one without the two above the last |
| BlockTree.GetAncestor | src/main.cpp:3557-3583 | over skip links built by BuildSkip the walk ends, follows no null link, and finds the entry that walking pprev would; NULL exactly for heights out of range |
| BlockTree.BuildSkip | src/main.cpp:3585-3589 | the skip link of a new entry is its ancestor at the skip height |
| BlockTree.InsertKeepsTree | src/main.cpp:2952-2957 | a new entry keeps the tree rooted and every skip link right |
| ActiveChain.CChain.SetTip | src/chain.cpp:13-24 | from any well-formed chain the early-stopping loop leaves exactly the pprev path of the new tip |
| ActiveChain.CChain.FindFork | src/chain.cpp:55-62 | the highest block that is on the chain and an ancestor of the argument |
| ActiveChain.CChain.GetLocator | src/chain.cpp:26-53 | the ancestors at the locator heights, whether found through the chain index or the skip list |
| ActiveChain.LocatorDescends | src/chain.cpp:26-53 | locator heights strictly descend and end at 0 |
| ActiveChain.LocatorIsShort | src/chain.cpp:31-48 | at most 12 + floor(log2 H) entries from height H >= 1 |
| Locators.FindForkInGlobalIndex | src/main.cpp:513-525 | the first locator entry that is on the chain, else genesis |
| Locators.LocatorFindsFork | src/main.cpp:513-525 | the block found is shared and at most max(0, (H - F) - 11) below the true fork at height F |
| Locators.NothingShared | src/main.cpp:513-525 | a locator without shared blocks is passed over entirely |
| ChainModel.WorseIsStrictTotalOrder | src/main.cpp:110-130 | the work comparator is a strict total order |
| ChainSteps.EntryKeepsSearching | src/main.cpp:2930-2997 | a new header keeps the invariant, also while a search is going on or was cut short |
| ChainSteps.LinkBlock | src/main.cpp:3017-3031 | linking the block at the head of the queue keeps the block-by-block invariant while children wait |
| ChainSteps.DataFiled | src/main.cpp:3037-3041 | a block whose parent is not linked is filed in the unlinked map and keeps the invariant, in the middle of a search too |
| SearchSteps.FlagChildKeeps | src/main.cpp:2682-2698 | flagging a descendant of a failed block keeps the search invariant |
| SearchSteps.MarkInvalidKeeps | src/main.cpp:1878-1896 | a block outside the ancestry of the tip may be marked invalid at any time |
| SearchSteps.ConnectKeeps | src/main.cpp:2739-2780 | connecting a block and pruning keeps the search invariant |
| SearchSteps.SomethingLeft | src/main.cpp:2708-2718 | the best tip so far, or the tip, is always a candidate, so that the set is never empty |
| SearchSteps.RoundComesCloser | src/main.cpp:2724-2789 | a round that flags a block or gains work decreases the lexicographic measure of the search |
| SearchSteps.SearchEnds | src/main.cpp:2652-2705 | when no candidate beats the tip, the tip is the comparator-maximal linked block with acceptable ancestry |
| SearchSteps.BestIsUnique | src/main.cpp:110-130 | there is only one such block |
| SearchSteps.BestBefore | src/main.cpp:2796-2859 | being that block does not depend on what the search itself flagged |
| SearchSteps.SearchConcludes | src/main.cpp:2796-2859 | a search that ends with no candidate above the tip ends on the best block as of its start, no worse than where it started and than the best tip before |
| SearchCourse.TargetIsAim | src/main.cpp:2652-2705 | what FindMostWorkChain finds is the best of all linked blocks without an invalid ancestor, candidates or not |
| SearchCourse.CourseClimb | src/main.cpp:2739-2780 | wherever the climb of a round stops, early or at a rejected block, the outcome to be expected of the search stays the same |
| SearchCourse.SucceedsIffUndoable | src/main.cpp:2733-2736 | when the way to the best linked block without an invalid ancestor is accepted, the search succeeds iff every active block above the fork with it can be disconnected in its turn, and that block is the best one |
| SearchCourse.TargetDecides | src/main.cpp:2796-2859 | the same for the best candidate; if it descends from the tip the search succeeds whatever can be disconnected |
| SearchCourse.FailsAtOnce | src/main.cpp:2733-2736 | whatever is accepted, the search fails when a block in the way of its first aim cannot be disconnected |
| SearchCourse.OneBranchSucceeds | src/main.cpp:2796-2859 | when the tip and all blocks it may be left for lie on one branch, the search succeeds whatever can be disconnected and whatever is rejected on the way |
| TipWalk.WalkEnds | src/main.cpp:2733-2736 | walking the tip back reaches the wanted height iff every block on the way can be disconnected in its turn; otherwise it ends on the first that cannot |
| ChainState.Chainstate.constructor | src/main.cpp:3982-4019 | the initial state, genesis stored and active, meets the invariant |
| ChainState.Chainstate.AddToBlockIndex | src/main.cpp:2930-2997 | the new state exactly; a known block changes nothing; the invariant is kept, also between the rounds of a search |
| ChainState.Chainstate.RejectBlock | src/main.cpp:3499-3505 | a block without data that proves invalid is flagged; the invariant is kept, also between the rounds of a search |
| ChainState.Chainstate.ReceivedBlockTransactions | src/main.cpp:3000-3045 | the invariant, hence linked iff all ancestors have data, is kept, also between the rounds of a search; which blocks are linked, breadth first, with consecutive sequence ids from the next one on; of these exactly those with more work than the tip become candidates; nothing else changes |
| ChainState.Chainstate.FirstUnusable | src/main.cpp:2665-2681 | a candidate's path is only ever stopped by a failed block that has its data: the missing-data branch is dead |
| ChainState.Chainstate.FindMostWorkChain | src/main.cpp:2652-2705 | always finds a candidate no other candidate beats, with no failed block on the way to the active chain |
| ChainState.Chainstate.PruneBlockIndexCandidates | src/main.cpp:2708-2718 | exactly the candidates below the tip go, and the closing assertion holds |
| ChainState.Chainstate.ConnectTip | src/main.cpp:2489-2562 | requires parent = tip; the block becomes the tip, or is marked invalid |
| ChainState.Chainstate.DisconnectTip | src/main.cpp:2438-2477 | fails, changing nothing, iff DisconnectBlock is not clean; otherwise the parent becomes the tip and nothing else but the coins changes |
| ChainState.Chainstate.DisconnectToFork | src/main.cpp:2733-2736 | succeeds iff every active block above the fork can be disconnected in its turn; exactly where it stops, and with what coins |
| ChainState.Chainstate.ConnectSlice | src/main.cpp:2748-2781 | every block connected extends the tip; the slice ends on its top, on a tip with more work than before, or with a block flagged |
| ChainState.Chainstate.ActivateBestChainStep | src/main.cpp:2724-2789 | fails iff some active block above the highest shared block cannot be disconnected in its turn, with nothing but tip and coins changed; otherwise it flags a block, reaches the target, or gains work |
| ChainState.Chainstate.SearchRound | src/main.cpp:2800-2822 | one round, before which anything may have happened: it ends the search, comes closer to its end with the outcome to be expected unchanged, or gets stuck; a stuck search stays as it is, and one that left the tip of its round ends on a block that is no candidate |
| ChainState.Chainstate.ActivateBestChain | src/main.cpp:2796-2859 | terminates; it succeeds iff the state before says so (SearchCourse.Succeeds), and then ends on the comparator-maximal linked block whose ancestry is valid and unfailed, as of before and after, which is the first linked of those with the most work, never below the old tip; otherwise it ends stuck on a tip that cannot be disconnected, and trying again then changes nothing |
| ChainState.Chainstate.InvalidateBlock | src/main.cpp:2861-2894 | succeeds iff every active block from x up can be disconnected in its turn; the exact flags of every block, the tip and, on success, the invariant and the exact candidates; on failure the tip still descends from x and the candidates lack exactly what was flagged |
| CheckBlockIndex.PassesIffCandidate | src/main.cpp:4122-4263 | wherever a search or an invalidation was cut short, the assertions about a block can only fail on its missing from the candidates |
| CheckBlockIndex.AllPassIffComplete | src/main.cpp:4122-4263 | all assertions pass for all blocks iff no candidate is missing |
| CheckBlockIndex.CutShortFails | src/main.cpp:4192-4198 | a search cut short after it left its tip makes CheckBlockIndex fail at the tip |
| CheckBlockIndex.ConsistentPasses | src/main.cpp:4122-4263 | every per-block assertion of CheckBlockIndex, spelled out, holds in every consistent state |
| ChainRuns.Apply | src/main.cpp:3448-3528 | any operation, in the circumstances in which the node carries it out, keeps the invariant, a failed invalidation excepted; it succeeds whenever blocks can always be disconnected; a successful search ends on the best block, never below the old tip, and fails iff it gets stuck; an invalidated block is off the active chain |
| ChainRuns.Run | src/main.cpp:4122-4263 | after any sequence of headers, data, bad data, searches, single rounds and invalidations CheckBlockIndex passes iff no candidate is missing, and always when the last search was not cut short; after a successful search the tip is the best block, the first linked of those with the most work |
| ChainRuns.NoWayOut | src/rpcblockchain.cpp:738-743 | after a failed invalidation of x, a round of a search either goes on upwards from the tip or fails at once with nothing changed; x stays on the active chain |
| ChainRuns.RunFromGenesis | src/main.cpp:3982-4019 | the same for every run from the genesis block |
| ChainRuns.FirstSeenStays | src/main.cpp:110-130 | after a successful search headers and blocks arrive; if none that gets linked has more work than the tip, the next search succeeds and leaves the tip where it was |
| FirstSeen.BestIsFirst | src/main.cpp:115-120 | the best block, told by work and sequence ids alone: most work, and of those with as much linked first |
| FirstSeen.LeaderStays | src/main.cpp:2796-2859 | a tip that no linked block without invalid ancestor is ahead of stays, whatever can be disconnected |
| Coins.Trim | src/coins.h:120-126 | the longest prefix that ends in an unspent output |
| Coins.PrunedIffEmpty | src/coins.h:279-285 | after Cleanup, pruned means no outputs left |
| Coins.Cleanup | src/coins.h:120-126 | the loop computes that prefix |
| Coins.ClearUnspendable | src/coins.h:128-134 | unspendable outputs become null, then Cleanup |
| Coins.Spend | src/coins.cpp:36-52 | fails exactly for a missing or spent output; otherwise the output is nulled, and the undo data holds it, with the metadata if it was the last |
| CoinsStack.LookupIsFlat | src/coins.cpp:86-112 | what a lookup finds is the flat map's entry; pruned or missing means absent |
| CoinsStack.FetchKeeps | src/coins.cpp:86-102 | filling caches on the way changes no answer and keeps every entry's flags right |
| CoinsStack.ModifyIsPut | src/coins.cpp:114-131 | a modification changes exactly one entry of the flat map |
| CoinsStack.FreshAssertHolds | src/coins.cpp:173-178 | the FRESH assertion of BatchWrite cannot fail between valid layers |
| CoinsStack.FlushKeeps | src/coins.cpp:165-207 | flushing changes no answer, and the layer below then gives the same answers alone |
| CoinsStack.FlushKeepsBestBlock | src/coins.cpp:165-207 | the best block survives a flush iff the layer had a hash of its own or its parent had no other |
| CoinsStack.BestBlockLost | src/coins.cpp:198-206 | a stack whose best block changes by a flush |
| CoinsCache.CoinsViewDB.BatchWrite | src/txdb.cpp:54-73 | dirty entries are written or erased, a null hash is ignored |
| CoinsCache.CoinsViewCache.FetchCoins | src/coins.cpp:86-102 | the objects' caches become those of the value model |
| CoinsCache.CoinsViewCache.GetCoins | src/coins.cpp:104-112 | answers as the flat map |
| CoinsCache.CoinsViewCache.HaveCoins | src/coins.cpp:143-151 | vout.empty() is the right test: true iff the flat map has the coins |
| CoinsCache.CoinsViewCache.ModifyCoins | src/coins.cpp:114-131 | the entry handed out and the caches afterwards |
| CoinsCache.CoinsViewCache.Release | src/coins.cpp:269-277 | the destructor cleans up, and erases a fresh pruned entry |
| CoinsCache.CoinsViewCache.BatchWrite | src/coins.cpp:165-200 | the loop in any order of entries gives the same cache |
| CoinsCache.CoinsViewCache.Flush | src/coins.cpp:202-207 | the cache is empty and the layer below answers as before |
| CoinsCache.CoinsViewCache.GetBestBlock | src/coins.cpp:153-158 | the nearest hash that is set |
| CoinsCache.Run | src/coins.cpp:86-207 | any sequence of get, have, modify and flush on any stack is answered as by one flat map |
| Utxo.OutputsRestored | src/main.cpp:2092-2094 | a spent output put back restores the output vector exactly |
| Utxo.OneRoundTrip | src/main.cpp:2075-2095 | spending and restoring one input is clean and loses at most the coinstake mark |
| Utxo.SpendRoundTrip | src/main.cpp:2075-2095 | all inputs of a transaction, restored from last to first |
| Utxo.TxRoundTrip | src/main.cpp:2045-2095 | a whole transaction, and when its outputs compare equal |
| UtxoBlocks.BlockRoundTrip | src/main.cpp:2045-2099 | a whole block, with intra-block spends, after later blocks were disconnected |
| UtxoBlocks.DisconnectUndoesConnect | src/main.cpp:2023-2110 | DisconnectBlock after UpdateCoins: clean iff no coinstake of the block was used up in it; the coins come back without the coinstake mark of what was used up |
| UtxoBlocks.RestoredExactly | src/main.cpp:2083-2088 | the coins come back exactly iff no coinstake entry was used up |
| UtxoBlocks.ReorganisationClean | src/main.cpp:2045-2099 | disconnecting two blocks is clean iff no coinstake of the first was used up by the second |
| Ledgers.OneBack | src/main.cpp:2438-2452 | in a chain walked back so far, the next block can be disconnected iff none of its coinstakes was used up later |
| Ledgers.ReorganisationPossible | src/main.cpp:2438-2452 | a chain of any length can be walked back to its k-th block iff no coinstake above that was used up by the end of the chain |
| LedgerRuns.ApplyAllUnmarked | src/main.cpp:1898-1912 | connecting a block to coins without some coinstake marks gives the same coins without them, and the same undo data but for fCoinStake |
| LedgerRuns.ReplayKeeps | src/main.cpp:2438-2562 | whatever moves the tip made, coins and undo data are those of its path, up to coinstake marks |
| LedgerRuns.RunOnLedgers | src/main.cpp:2438-2562 | after any run from genesis the coins are those of connecting the path of the tip, up to coinstake marks lost on the way |
| UncleanChains.UncleanReorganisation | src/main.cpp:2104-2109 | for every maturity, well-formed blocks that connect in good order, with a coinstake spent when mature: what is above its block can be disconnected, and the block itself cannot then |
| UncleanChains.UncleanBlock | src/main.cpp:2104-2109 | a well-formed block that connects and cannot be disconnected right after |
| CutShortSearch.WhenCutShort | src/main.cpp:2733-2736 | from any consistent state: if the tip can be disconnected but not everything above the fork with an acceptable better chain, the search fails, leaves a lower tip, and CheckBlockIndex fails there |
| CutShortSearch.SearchIsCutShort | src/main.cpp:2733-2736 | for every maturity such a state, consistent, over the coins of UncleanChains |
| ConnectDisconnect.SpendInput | src/main.cpp:1904-1906 | one input through a cache modifier; its assertion holds |
| ConnectDisconnect.UpdateCoins | src/main.cpp:1898-1912 | the cache's flat map and the undo data are those of the model; and in terms of inputs and outputs: what is stored of the transaction, which outputs are gone, and what each undo entry holds |
| UtxoEffect.StoredByApply | src/coins.h:91-99 | of every transaction exactly the outputs that are not null and whose script does not start with OP_RETURN are there, with height and version; the coinbase mark iff the only input is the null outpoint; the coinstake mark iff the first input is not, and the first of two or more outputs has no value and no script |
| UtxoEffect.GoneByApply | src/main.cpp:1901-1908 | of every other transaction exactly the outputs named by the inputs are gone |
| UtxoEffect.UndosByApply | src/coins.cpp:36-52 | each undo entry holds the output spent, and the fields of its transaction iff no output of that is left |
| ConnectDisconnect.HaveInputs | src/coins.cpp:233-245 | true iff every input is in the coins as they are |
| ConnectDisconnect.SafeIffDistinct | src/main.cpp:1904-1906 | once HaveInputs said yes, the assertion in UpdateCoins holds iff the transaction names no input twice |
| ConnectDisconnect.DoubleSpendPassesHaveInputs | src/coins.cpp:233-245 | such a transaction does pass HaveInputs |
| ConnectDisconnect.ConnectTransactions | src/main.cpp:2217-2259 | fails iff an input is missing when its turn comes; otherwise coins, undo data, nValueOut and nValueIn |
| ConnectDisconnect.RestoreInput | src/main.cpp:2075-2095 | one input of the restore loop |
| ConnectDisconnect.RemoveOutputs | src/main.cpp:2051-2067 | the outputs are removed, and whether they were the block's own |
| ConnectDisconnect.DisconnectBlock | src/main.cpp:2040-2099 | fails iff undo data has the wrong size; otherwise coins and fClean of the model |
| ConnectDisconnect.CoinbaseHasNoUndo | src/main.cpp:2254-2258 | the undo data written for a connected block is what DisconnectBlock expects |
| ConnectDisconnect.ConnectThenDisconnect | src/main.cpp:2023-2259 | connecting a block and disconnecting it with the stored undo data, on one cache: both succeed, which coins are left, and when fClean holds |
| MoneySupply.TotalOf | src/main.cpp:2262-2263 | the value of all coins does not depend on the order of summing |
| MoneySupply.SpendingTakesValueIn | src/coins.cpp:221-231 | spending takes exactly the value GetValueIn found beforehand |
| MoneySupply.TxConserves | src/main.cpp:1898-1912 | one transaction changes the total by outputs less inputs less unspendable and overwritten value |
| MoneySupply.BlockConserves | src/main.cpp:2217-2264 | one block changes the total by nValueOut - nValueIn less what it destroys |
| MoneySupply.SupplyCoversCoins | src/main.cpp:2262-2263 | along any chain nMoneySupply less the total is never negative and never decreases |
| MoneySupply.GetValueIn | src/coins.cpp:214-231 | the loop on a cache, whose assertion holds once HaveInputs said yes |
| MoneySupply.GetValueOut | src/primitives/transaction.cpp:132-147 | the sum of the outputs; the exception exactly for a negative output or a sum beyond 64 bits |
| VarInts.ReadBack | src/serialize.h:400-430 | reading gives back the number and stops behind it |
| VarInts.OneEncoding | src/serialize.h:369-382 | every number has exactly one encoding |
| VarInts.WriteVarInt | src/serialize.h:400-414 | the two loops write that encoding; of a negative number the low seven bits |
| VarInts.ReadVarIntFrom | src/serialize.h:417-430 | the reading loop |
| VarInts.DecompressCompress | src/compressor.cpp:137-180 | decompressing a compressed amount gives it back, for every amount |
| VarInts.CompressDecompress | src/compressor.cpp:137-180 | and the other way round, for every number |
| VarInts.CompressedFits | src/compressor.cpp:137-154 | no 64-bit overflow up to the money limit |
| VarInts.CompressAmount | src/compressor.cpp:137-154 | the loop |
| VarInts.DecompressAmount | src/compressor.cpp:156-180 | the loop |
| ScriptCodec.ScriptDecompresses | src/compressor.cpp:43-128 | every special script is decompressed to itself |
| ScriptCodec.ScriptForms | src/compressor.cpp:12-74 | the bytes written for each form of script, opcodes as numbers |
| ScriptCodec.BadKeyLeavesNothing | src/compressor.cpp:109-117 | a full key that cannot be decompressed leaves no script |
| ScriptCodec.ScriptBack | src/compressor.h:69-96 | any script is read back, and reading stops behind it |
| ScriptCodec.OutBack | src/compressor.h:112-126 | any output with a non-negative value is read back |
| CoinsCodec.BehindMask | src/coins.cpp:17-34 | no unspent output lies behind the last used mask byte |
| CoinsCodec.SomethingLeft | src/coins.h:206 | the assertion in Serialize holds for coins that are not pruned |
| CoinsCodec.MaskBack | src/coins.h:242-253 | the count of non-zero bytes ends the loop exactly behind the last mask byte |
| CoinsCodec.HeaderBack | src/coins.h:207-243 | flags and mask count are recovered from the header code |
| CoinsCodec.RoundTrip | src/coins.h:199-263 | Unserialize inverts Serialize up to Cleanup and consumes exactly what was written; version and height come back iff they are not negative, otherwise as their low seven bits |
| CoinsStream.CalcMaskSize | src/coins.cpp:17-34 | the nested loops compute the mask size and the number of non-zero bytes |
| CoinsStream.Serialize | src/coins.h:199-228 | the writing loops |
| CoinsStream.Unserialize | src/coins.h:229-263 | the reading loops; None is the end-of-stream exception |
| AddrManager.CAddrMan.SwapRandom | src/addrman.cpp:101-119 | two places of vRandom are exchanged, with the positions in both entries |
| AddrManager.CAddrMan.Create | src/addrman.cpp:89-99 | the new entry in all its indexes |
| AddrManager.CAddrMan.Delete | src/addrman.cpp:121-133 | requires what its three assertions say; the entry is gone from every index |
| AddrManager.CAddrMan.ClearNew | src/addrman.cpp:135-148 | its assertion holds; the slot is emptied and an orphan deleted |
| AddrManager.CAddrMan.Unreference | src/addrman.cpp:152-162 | after the first loop of MakeTried the id is in no slot of the new table and nNew is one less |
| AddrManager.CAddrMan.MakeTried | src/addrman.cpp:150-196 | its assertions hold, with an eviction or without |
| AddrManager.CAddrMan.FindBucket | src/addrman.cpp:223-238 | from any starting bucket the search finds a slot that holds the id |
| AddrManager.CAddrMan.Good | src/addrman.cpp:198-245 | the new book exactly, and the invariant, for any time |
| AddrManager.CAddrMan.Add | src/addrman.cpp:247-313 | the new book and the answer exactly, and the invariant |
| AddrManager.CAddrMan.Attempt | src/addrman.cpp:315-332 | only the statistics of a matching entry change |
| AddrManager.CAddrMan.Connected | src/addrman.cpp:472-490 | only the time of a matching entry changes |
| AddrManager.CAddrMan.GetAddr | src/addrman.cpp:451-470 | of pairwise distinct entries that are not terrible, as many as there are or the limit of 23% and 2500, whichever is less; only the random order changes |
| AddrModel.SwapRandomOk | src/addrman.cpp:101-119 | the assertions of SwapRandom hold and vRandom stays in step with the entries |
| AddrModel.DeleteKeeps | src/addrman.cpp:121-133 | Delete keeps the invariant even while entries are between tables |
| AddrOps.ReadmitStages | src/addrman.cpp:164-190 | while two entries are in no table, ClearNew can hit neither |
| AddrOps.GoodKeeps | src/addrman.cpp:198-245 | Good_ keeps the invariant, for any time |
| AddrOps.AddKeeps | src/addrman.cpp:247-313 | Add_ keeps the invariant |
| AddrOps.AddStores | src/addrman.cpp:292-310 | an address is in the book after Add_ iff it was known, its slot was free or its holder gave way |
| AddrOps.NotEveryNewAddressIsStored | src/addrman.cpp:292-312 | a book for which Add_ answers true without keeping the address |
| AddrOps.KnownStays | src/addrman.cpp:247-313 | a known address stays known under Add_ |
| AddrOps.CreateThenDelete | src/addrman.cpp:303-309 | an address that finds no slot leaves nothing but a used-up id |
| AddrRules.AddKnown | src/addrman.cpp:247-313 | Add_ of a known address with the numbers written out: its time and services, when it gets one more slot and from whom, and that nothing else changes |
| AddrRules.AddNew | src/addrman.cpp:285-313 | Add_ of an unknown address: entered with one reference in its slot if that is free, its holder hopeless or elsewhere too, otherwise no trace but the used-up id |
| AddrRules.GoodRule | src/addrman.cpp:142-245 | Good_: the fields it writes, the slot of the tried table taken, the slots of the new table given up, and where the entry that was there goes |
| AddrRules.TerribleIsHopeless | src/addrman.cpp:34-52 | IsTerrible in seconds and attempts |
| AddrCheck.PassesIffTimes | src/addrman.cpp:374-448 | in a consistent book every test of Check_, spelled out, passes iff no time is negative and every tried entry has a success |
| AddrTimes.GoodTimes | src/addrman.cpp:198-245 | Good_ keeps the times that way iff its time is positive or it hits nothing |
| AddrTimes.AttemptTimes | src/addrman.cpp:315-332 | Attempt_ does iff its time is not negative or it hits nothing |
| AddrTimes.AddTimes | src/addrman.cpp:247-313 | Add_ always does |
| AddrRuns.Apply | src/addrman.cpp:198-490 | every operation keeps the invariant for all arguments, and times in order exactly when its own time fits the entry it hits |
| AddrRuns.Run | src/addrman.cpp:374-448 | after any sequence of Add_, Good_, Attempt_, Connected_ and GetAddr_ every test of Check_ passes iff the times are in order, and so it does when all times given are |
| AddrReload.ReloadLosesNothing | src/addrman.h:276-421 | Unserialize after Serialize: nLost = nLostUnk = 0, and the book is the old one up to renamed ids, random order and nLastTry |
| AddrReload.ReloadedConsistent | src/addrman.h:325-421 | the invariant holds for the book read back |
| AddrReload.ReloadedPasses | src/addrman.h:420 | the Check() at the end passes iff no success was out of order; a wrong nLastTry is cured |
| AddrReload.BucketRead | src/addrman.h:387-403 | reading a bucket's indices refills its slots and counts the references |
| AddrSerialize.Serialize | src/addrman.h:276-323 | the writing loops; both assertions on nNew and nTried hold |
| AddrSerialize.Unserialize | src/addrman.h:325-421 | the reading loops for any file: lost tried entries, unusable tables and pruned orphans included |
| LoadRules.TablesRule | src/addrman.h:347-403 | what any file becomes, told by the file alone: an address of the tried table is kept iff no earlier one has its slot; a slot of the new table goes to the first index in its bucket that asks for it and is held by fewer than eight buckets below, or, if the buckets do not fit, to the first address that has it; references are the slots held |
| LoadRules.PrunedRule | src/addrman.h:405-415 | exactly the entries that are not tried and have no reference are deleted, and counted |
| AddrSerialize.Prune | src/addrman.h:405-415 | the assertions of Delete hold for every orphan |
| CheckQueueModel.NowFor | src/checkqueue.h:105-110 | a batch has at least one check, at most nBatchSize and no more than are queued |
| CheckQueueModel.ReportKeeps | src/checkqueue.h:79-85 | reporting a batch keeps the invariant and notifies the master with the last one |
| CheckQueueModel.DecideKeeps | src/checkqueue.h:90-119 | returning, sleeping and taking a batch keep the invariant |
| CheckQueueModel.AddKeeps | src/checkqueue.h:146-158 | adding checks keeps the invariant, whoever is notified |
| CheckQueueModel.VerdictRight | src/checkqueue.h:91-100 | at the return fAllOk is the conjunction of the round's checks |
| CheckQueueRuns.EveryRunIsSafe | src/checkqueue.h:69-168 | in every run every Wait answers whether all checks of its round pass; each check is queued, in one batch or reported; nTodo counts the first two; between rounds the queue is idle |
| CheckQueueRuns.RoundCanStart | src/checkqueue.h:145-156 | between rounds the master can add any checks, whichever workers are notified, and go on to Wait |
| CheckQueueRuns.ControlFindsIdle | src/checkqueue.h:183-190 | the assertion of the next control object cannot fail |
| CheckQueueRuns.NoLostWakeup | src/checkqueue.h:80-104 | while the master sleeps without a notification some worker holds an unreported batch |
| CheckQueueRuns.StepComesCloser | src/checkqueue.h:69-130 | every step decreases the work left, or is a spurious wake-up that changes nothing |
| CheckQueueRuns.SomethingCanHappen | src/checkqueue.h:69-130 | until Wait returns, a decreasing step is possible that needs no spurious wake-up |
| CheckQueueRuns.WaitIsBounded | src/checkqueue.h:140-143 | no run inside Wait has more effective steps than the work at its start |
| CheckQueue.CCheckQueue.Begin | src/checkqueue.h:79-89 | the fields after the clean-up, and when condMaster is notified |
| CheckQueue.CCheckQueue.Proceed | src/checkqueue.h:91-119 | the fields and the outcome from the inner loop to the next wait, return or batch |
| CheckQueue.CCheckQueue.Add | src/checkqueue.h:146-158 | queue and nTodo, and which notification is sent |
| CheckQueue.Execute | src/checkqueue.h:121-126 | executing a batch is as many single steps of the thread as it has checks |
| CheckQueue.Perform | src/checkqueue.h:76-130 | the code of a critical section does to the fields what the step of the transition system does, and its notification and outcome place the threads as that step does |
| CheckQueue.Control | src/checkqueue.h:183-190 | the assertion of the control object holds between rounds |
| CheckQueue.RunOn | src/checkqueue.h:69-190 | any run on the object: its fields are those of the transition system throughout, and every control object finds the queue idle |
| Positional.MultiplyAdd | src/base58.cpp:41-49 | digits := digits * m + c in place, and the final carry is zero whenever the result fits |
| Positional.DigitsOfVal | src/base58.cpp:58-60 | digits without leading zero are determined by their value |
| Base58.DecodeFits | src/base58.cpp:34 | 58^n <= 256^(733n/1000 + 1) for every n: the decode buffer is large enough |
| Base58.EncodeFits | src/base58.cpp:92 | 256^n <= 58^(138n/100 + 1) for every n: the encode buffer is large enough |
| Base58Codec.EncodeBase58 | src/base58.cpp:83-116 | the loops compute the encoding; carry == 0 never fails |
| Base58Codec.DecodeBase58 | src/base58.cpp:22-66 | the loops compute the decoding or reject; carry == 0 never fails |
| Base58Codec.SpaceCodes | src/base58.cpp:24-53 | what counts as white space, by character codes |
| Base58Codec.DecodeEncode | src/base58.cpp:22-116 | decoding gives back every byte string |
| Base58Codec.EncodeDecode | src/base58.cpp:22-116 | whatever is accepted encodes back to the word inside the white space; every string over the alphabet is accepted |
| Base58Codec.EncodeInjective | src/base58.cpp:83-116 | two byte strings never share an encoding |
| Base58Codec.EncodeBase58Check | src/base58.cpp:128-135 | the encoding of the bytes with four bytes of their hash |
| Base58Codec.DecodeBase58Check | src/base58.cpp:137-152 | rejects short and mismatching strings |
| Base58Codec.CheckedIffEncoded | src/base58.cpp:128-152 | a string over the alphabet passes with answer v iff it is the checked encoding of v |
| StakeModifier.GetLastStakeModifier | src/kernel.cpp:43-54 | the nearest generating entry downwards |
| StakeModifier.SelectionInterval | src/kernel.cpp:57-72 | the sum of the 64 sections |
| StakeModifier.SelectBlockFromCandidates | src/kernel.cpp:77-135 | the least selection hash among the unselected candidates in time, or the first unselected one if none is; false iff none is left; no proof-of-work block with a hash above h / 2^32 while a proof-of-stake block with hash h is in time |
| StakeModifier.PickIsUnique | src/kernel.cpp:94-132 | that determines the candidate |
| StakeModifier.SomethingLeft | src/kernel.cpp:197-203 | fewer rounds than candidates leave one to select |
| StakeModifier.Rounds | src/kernel.cpp:193-214 | every round picks by its own stop time; the bits are those of the picks |
| StakeModifier.FirstGenerates | src/kernel.cpp:43-54 | above genesis there is always a generating entry |
| StakeModifier.ComputeNextStakeModifier | src/kernel.cpp:150-241 | on a branch built by AddToBlockIndex no error return is taken, and the answer meets the selection rules |
| ModifierRules.NextFollowsRule | src/kernel.cpp:150-241 | that answer in terms of heights, times, hashes and proof kinds: when there is a new modifier, which heights each round chooses from, by which number each kind of block is compared before and after the upgrade, and whose bits the modifier has |
| ModifierRules.StakeFavoured | src/kernel.cpp:117-121 | a round in which a proof-of-stake block with hash x is left and in time picks no proof-of-work block with a hash above x / 2^32 |
| ModifierRules.UpgradeByHeight | src/kernel.cpp:97-101 | the height of the first candidate, by time and hash, decides for all of them |
| ModifierRules.AllSections | src/kernel.cpp:57-73 | the 64 sections together are 2087 seconds |
| StakeModifier.NextIsUnique | src/kernel.cpp:150-241 | the answer is determined by the branch |
| StakeModifier.SelectedAreAncestors | src/kernel.cpp:193-214 | min(64, n) pairwise distinct ancestors are selected |
| StakeModifier.CarriesModifier | src/kernel.cpp:43-54 | a block above genesis that does not generate carries its nearest generating ancestor's modifier |
| StakeModifier.AddKeepsBuilt | src/main.cpp:2974-2980 | an entry with the computed modifier keeps the branch as it should be |
| PayeeVotes.AddPayee | src/masternode-payments.h:109-122 | the payee's tally grows, all others stay, payees stay distinct and in their places, and a new one comes last |
| PayeeVotes.GetPayee | src/masternode-payments.h:124-137 | the earliest payee with the most votes |
| PayeeVotes.TallyIsCount | src/masternode-payments.cpp:498-522 | for every height and payee the tally is the number of stored votes |
| PayeeVotes.RowHasVote | src/masternode-payments.cpp:637-664 | no row without a vote |
| PayeeVotes.CMasternodePayments.AddWinningMasternode | src/masternode-payments.cpp:498-522 | when a vote is added, what changes, that the tally stays right, and every row in the order of first votes |
| PayeeVotes.CMasternodePayments.GetBlockPayee | src/masternode-payments.cpp:458-465 | after any sequence of votes and cleanings: none iff there is no vote for the height, otherwise of the payees with the most votes the one voted for first |
| PayeeVotes.CMasternodePayments.CleanPaymentList | src/masternode-payments.cpp:637-664 | exactly the old votes and rows go, though the index is wrong inside the loop |

## Left out

- Disk files, the databases, wallet callbacks, signals, logging, RPC and messages; a coins database is a plain map.
- Hash functions, signatures and public keys: parameters. Nothing is assumed of the address manager's keyed hashes, of the selection hash or of the vote hash. Decompressing a valid public key is assumed to give the key back.
- Block ids stand for `CBlockIndex` objects: the tree is a map from ids to nodes and statuses are a map, so that aliasing between index objects is not modelled.
- Entries loaded from disk (`LoadBlockIndexDB`) as a starting state; `pindexBestInvalid`, `pindexBestHeader`, `pnext`, the dirty set, chain trust and the fork warnings.
- `ReconsiderBlock`, which does not restore the invariant; corrupting rejections and system errors of `ConnectBlock`; script and input-value rules, which do not decide there. `ConnectBlock`'s verdict on a block does not depend on how its parent became the tip.
- `DisconnectBlocksAndReprocess` and `DisconnectBlockAndInputs`, which go on whatever `DisconnectTip` answers; runs that go on after a failed invalidation, beyond the first step of a search.
- ChainState.Chainstate.AddToBlockIndex: requires a positive block proof; the work function can give 0 for a malformed target, which the header-only path does not exclude (the same for ChainSteps.EntryKeepsSearching).
- ConnectDisconnect.DisconnectBlock: leaves the coins open once undo data without metadata meets missing coins; fClean is false then and its caller drops them (the same for ConnectDisconnect.RestoreInput).
- BIP 30 is enforced by `ConnectBlock` only for entries without a hash (src/main.cpp:2147-2155); the round-trip lemmas require new transaction ids, the conservation lemmas do not.
- Integer widths: sequence ids, `nTodo`, reference counts, heights, money sums and amounts of a file are unbounded integers; only the compressed amount's width is proved.
- `CAddrMan::Select_` and its floating-point chances; randomness is a parameter everywhere else.
- AddrSerialize.Unserialize: works on a local book instead of the object's arrays; the file is a record of lists, so that a file that ends early or has negative counts is not modelled.
- Utxo.TxRoundTrip: requires positive heights, as undo data marks the last output of an entry by a height other than 0.
- CoinsCodec.RoundTrip: requires spent outputs to be what SetNull leaves and unspent ones not to be negative; others are not written, or not readable.
- StakeModifier.ComputeNextStakeModifier: the proof-of-stake flag of an entry is fixed, although a header's can be set later with the block's data.
- Base58Codec.DecodeBase58: strings end at their end; an embedded null character, and white space outside the C locale, are not modelled.
- CheckQueue.CCheckQueue.Proceed: `fQuit` is never set in the source and is left out; scheduling is any interleaving, fairness is not assumed.
- Locking in the masternode payment maps, `CanVote`, payment validation and synchronisation.

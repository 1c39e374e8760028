# A Dafny model of the node's pool, chains, indexer and schedulers

This project models the parts of the node whose correctness is hard to see from reading one function, and
proves what they promise over every input and every run. `dafny verify dfyconfig.toml` checks all of it.

| files | component |
|---|---|
| `Basics` | options, 64-bit numbers, minimum and maximum |
| `Transactions`, `TxSortedMap`, `TxList`, `TxPricedList` | the nonce-sorted map, the per-account list with its cost caps, the price heap with lazy deletion |
| `PoolBooks`, `PoolSteps`, `PoolAdmission`, `PoolPromotion`, `PoolDemotion`, `PoolFairness`, `PoolPasses`, `PoolResets`, `PoolLoops`, `PoolAnswers`, `TxPool` | the transaction pool: admission, promotion, demotion, removal, limits, reset |
| `WrsTree`, `WrsNode`, `RandSelect` | weighted random selection over a tree of partial sums |
| `HeaderTree`, `HeaderChain`, `HeaderQuery` | the canonical header chain, ancestor lookup, header queries |
| `TxIndex`, `BlockChain` | the canonical block chain, reorganisation, the transaction lookup index |
| `ChainIndexer` | the section indexer with its unlocked background processing |
| `Feed`, `Distributor` | event delivery and request scheduling |
| `Ledger`, `StateTransition` | gas and value accounting of a block, receipts |
| `DerivationPath` | wallet derivation paths as text |

**The pool.** `TxPool.Run` is the main result: from an empty pool, over any run of additions, batches, price changes,
evictions and new heads, the books stay coherent (each transaction is in the table exactly once and in exactly one
list, at its own account and nonce, and the price heap covers all of them); a pending list starts at the account's state
nonce with a payable transaction; no virtual nonce is queued (the account is settled); the pending lists stay within their slots; every remote
transaction pays at least the price floor; and as long as no
new head sets transactions free, whatever its state, the pending nonces of an account are exactly the range from its state
nonce to its virtual nonce, and no transaction that could run next waits in the queue. A reset that reinjects transactions
can leave gaps or an account whose virtual nonce is behind its state nonce (`ReinjectionGap`, `DroppedBehind`,
`CutBehind`), and later a transaction that could run next is then left in the queue (`ReinjectionWaits`, `BehindWaits`;
`WaitsExactly` says when). If there is room for the reinjected transactions and for what they promote, `Reset` leaves
nothing waiting, and a gap only for a sender whose lists are torn, which the arguments decide; without room, and if the pool is cut
afterwards, its condition is on the demoted lists. Additions are exact stage by stage: room, placing, promotion. The step
functions on the books (`Removed`, `Enqueued`, `Promoted`, `Demoted`, `CutTop`, …) carry the proofs; each class method is proved equal
to its function. The spam cut is proved max-min fair.

**Quirks of the code that the model keeps.** The cost cap of a list may be below the cost of a listed stake-based
transaction, because such a transaction is charged only its fee; the short cut is exact all the same. In a full pool a
transaction with several entries in the price heap counts more than once towards the number to discard (`EnteredTwice`);
`MakeRoom` says when there is room all the same. With no guaranteed slots per account the spam cut can leave empty
pending lists; `CutSpares` says exactly when. Rewinding a header chain can orphan side headers or leave one heavier than
the head (`RewindOrphans`); `SetHead` says on the old chain exactly when it does not. A number query with the largest
skip repeats one header (`RepeatsOne`), and a forward step past 64 bits goes backwards (`SpacedUnlessWraps`). Unstaking moves the whole stake
whatever the amount (`UnstakeMovesAll`). The empty derivation path prints as `m`, which does not parse (`RoundTrip`).

**Conventions.** Hashes are collision free and identify their content: a transaction is its own hash, headers are stored
by hash and a lookup also names the number, and storing a header or block again stores the same one. Clocks, random
numbers, map iteration order, coin flips, the callbacks of peers and of the index backend, and which of several blocked
parties goes next are parameters or nondeterministic choices. Integers are unbounded except where the width matters:
64-bit header numbers and query arithmetic, the gas pool and intrinsic gas, and 32-bit path components are explicit.

## Model

| member | source | states |
|---|---|---|
| `SortedMap.TxSortedMap.Put` | core/tx_list.go:76-82 | the new transaction takes its nonce; map, nonce heap and cache stay consistent |
| `SortedMap.TxSortedMap.Forward` | core/tx_list.go:90-106 | exactly the nonces below the threshold leave, returned in nonce order |
| `SortedMap.TxSortedMap.Filter` | core/tx_list.go:109-131 | exactly the transactions that satisfy the predicate leave, each returned once |
| `SortedMap.TxSortedMap.Cap` | core/tx_list.go:134-156 | the lowest nonces stay up to the limit; exactly the excess is returned |
| `SortedMap.TxSortedMap.Remove` | core/tx_list.go:159-179 | one nonce leaves, and the result says whether it was there |
| `SortedMap.TxSortedMap.Ready` | core/tx_list.go:188-204 | the unbroken run of nonces from the lowest, if that is not above the start, leaves in order |
| `SortedMap.TxSortedMap.Flatten` | core/tx_list.go:213-228 | the listing is the whole map in nonce order, cached or not |
| `SortedMap.FlatUnique` | core/tx_list.go:213-228 | there is only one nonce-ordered listing, so the cache can only be the right one |
| `SortedMap.CachedForward` | core/tx_list.go:101-103 | cutting the cache at the number removed lists what is left and what was removed |
| `SortedMap.CachedCap` | core/tx_list.go:151-153 | cutting the cache's tail lists what a cap leaves |
| `SortedMap.LowestUnique` | core/tx_list.go:134-156 | the part a cap keeps is determined: any so many nonces below all the others are the lowest |
| `SortedMap.PopLowest` | core/tx_list.go:95-99 | what one pop off the nonce heap does to the part below a threshold |
| `TxLists.TxList.Add` | core/tx_list.go:264-285 | accepted exactly if the nonce is free or the price is higher and reaches the listed one raised by the bump in percent, rounded down; the one replaced is returned |
| `TxLists.AcceptsMeans` | core/tx_list.go:264-285 | the lowest replacing price, without division |
| `TxLists.AffordableMeans` | core/tx_list.go:306-324 | the gas fits the limit, and price times gas plus, unless stake based, the value fits the balance |
| `TxLists.TxList.Forward` | core/tx_list.go:290-292 | as the map's, with the caps still covering the list |
| `TxLists.TxList.Filter` | core/tx_list.go:306-342 | exactly the unpayable transactions leave, and in a strict list all nonces above the lowest of them, caps or no caps |
| `TxLists.TxList.Cap` | core/tx_list.go:346-348 | as the map's, with the caps still covering the list |
| `TxLists.TxList.Remove` | core/tx_list.go:353-365 | the nonce leaves; in a strict list exactly the later ones are invalidated |
| `TxLists.TxList.Ready` | core/tx_list.go:373-375 | as the map's, with the caps still covering the list |
| `TxLists.TxList.Flatten` | core/tx_list.go:391-393 | the nonce-ordered listing |
| `TxLists.CoveredIsPayable` | core/tx_list.go:307-310 | the short cut by the caps is exact: if the caps fit, filtering every transaction would remove nothing |
| `TxLists.FilterCovers` | core/tx_list.go:311-313 | after a filter the lowered caps cover what is left, judged by fee or by cost |
| `TxLists.FilterSplits` | core/tx_list.go:306-342 | a filter splits the list into kept, unpayable and stranded |
| `TxLists.FilterKeepsPayable` | core/tx_list.go:306-342 | what a filter keeps is unchanged and payable |
| `TxLists.StrictCut` | core/tx_list.go:329-340 | in a strict list what stays after the second pass is what lies below the lowest removed nonce |
| `PricedLists.TxPricedList.Put` | core/tx_list.go:443-448 | one more heap entry |
| `PricedLists.TxPricedList.Removed` | core/tx_list.go:453-468 | one more stale entry, and when more than a quarter of the heap is stale, a rebuild to exactly one entry for each live transaction |
| `PricedLists.TxPricedList.Cap` | core/tx_list.go:472-499 | exactly the remote transactions below the price floor are returned; all others stay covered; the stale counter falls by exactly the stale entries taken |
| `PricedLists.TxPricedList.Underpriced` | core/tx_list.go:503-525 | true exactly if the sender is remote, the pool is not empty and nothing in it is cheaper; no entry of a live transaction is touched; the stale counter falls by exactly the stale entries taken |
| `PricedLists.TxPricedList.Discard` | core/tx_list.go:529-552 | exactly the worst live remote entries are taken, as many as asked or all of them; each transaction returned once for every entry taken; no remote one that stays is cheaper than one dropped, nor as cheap with a higher nonce; the stale counter falls by exactly the stale entries taken |
| `PricedLists.RepeatsIfCrowded` | core/tx_list.go:529-552 | a transaction is returned twice only if one with several entries can be reached before enough distinct ones |
| `PricedLists.SurelyCrowdedRepeats` | core/tx_list.go:529-552 | it is returned twice if one with several entries is reached whatever the order among equals |
| `PricedLists.UntiedCrowded` | core/tx_list.go:529-552 | without ties the two conditions are one |
| `PricedLists.CrowdedCanRepeat` | core/tx_list.go:529-552 | with ties, whenever the first condition holds some heap order does return a transaction twice |
| `PricedLists.EnteredTwice` | core/tx_list.go:529-552 | from a heap in which the cheapest live transaction has several entries, asked for two, only that one is dropped |
| `PricedLists.AddedAgain` | core/tx_list.go:443-552 | a transaction added, removed before the heap is rebuilt and added again is handed out twice, and none of the dearer ones |
| `PoolBooks.UnknownAccount` | core/state/state_object.go:318-340 | an account the state does not know has no balance and starts at nonce zero |
| `PoolAnswers.Validate` | core/tx_pool.go:594-697 | admitted exactly if the given checks pass, the gas fits the block, the charge fits the balance, the nonce is not too low, and the sender is local or the price reaches the floor; each refusal exactly for the first cause that applies |
| `TxPools.TxPool.constructor` | core/tx_pool.go:223-270 | the empty pool is valid, in order, gap free and within its slots |
| `TxPools.TxPool.EnqueueTx` | core/tx_pool.go:795-818 | the queue files the transaction exactly if the list accepts it; the one displaced leaves the table |
| `TxPools.TxPool.PromoteTx` | core/tx_pool.go:839-878 | pending files it exactly if the list accepts it; otherwise it leaves the table |
| `TxPools.TxPool.RemoveTx` | core/tx_pool.go:1000-1043 | the books after it are those of `Removed` |
| `PoolSteps.RemovedCoherent` | core/tx_pool.go:1000-1043 | a removal keeps the books coherent: later pending nonces go back to the queue and nothing is lost or doubled |
| `PoolSteps.RemovedKeeps` | core/tx_pool.go:1000-1043 | a removal keeps gap-freeness, the root of each pending list and settledness |
| `PoolSteps.RemovedLoss` | core/tx_pool.go:1000-1043 | a removal loses the transaction and no other |
| `PoolSteps.WaitsExactly` | core/tx_list.go:188-204 | when no virtual nonce is queued, a transaction that could run next waits exactly if its nonce is not the virtual one and is queued |
| `PoolSteps.GapFreeNext` | core/tx_list.go:188-204 | without gaps the virtual nonce is the next one that could run |
| `PoolSteps.CutIdle` | core/tx_pool.go:1114-1226 | cutting pending and queued transactions makes nothing wait that did not |
| `PoolAdmission.EnqueuedCoherent` | core/tx_pool.go:795-818 | filing in the queue keeps the books coherent |
| `PoolAdmission.ReplacedCoherent` | core/tx_pool.go:748-774 | replacing a pending transaction keeps the books coherent |
| `PoolAdmission.EnqueuedKeeps` | core/tx_pool.go:795-818 | filing in the queue keeps the nonce order of pending and unsettles at most the sender |
| `PoolAdmission.ReplacedKeeps` | core/tx_pool.go:748-774 | a replacement keeps the nonce order and settledness |
| `PoolAdmission.EnqueuedLoss` | core/tx_pool.go:795-818 | only an outbid transaction of the same nonce is lost |
| `PoolAdmission.ReplacedLoss` | core/tx_pool.go:748-774 | only the outbid pending transaction is lost |
| `TxPools.TxPool.MakeRoom` | core/tx_pool.go:732-747 | a full pool refuses exactly a remote transaction that nothing pooled is cheaper than; otherwise only remote ones are dropped, no more than needed, and none that stays ranks below one dropped; unless the heap is crowded with repeated entries there is room afterwards exactly if there were enough remote entries, with too few no remote transaction is left, and in a surely crowded heap there is no room; rank is by price, and at one price the higher nonce is worse |
| `PoolLoops.HighestNoncesLeave` | core/tx_list.go:403-415 | of a sender's equally priced transactions only the highest nonces are dropped |
| `TxPools.TxPool.Place` | core/tx_pool.go:748-790 | replacement in pending, filing in the queue or refusal, decided by the list's own rule |
| `TxPools.TxPool.Add` | core/tx_pool.go:716-790 | the exact answer and new books for every case, from the books after room was made, which are the old ones unless the pool is full, and then lack no more than needed; only this transaction can be new; nonce order kept; whatever leaves was outbid at its nonce or, in a full pool only, is remote and ranks below all remote ones that stay; exactly when the sender becomes local; remote transactions stay at or above the price floor |
| `PoolAnswers.AddedAboveFloor` | core/tx_pool.go:716-790 | an addition keeps every remote transaction at or above the price floor, also where a local transaction replaces a remote sender's pending one |
| `TxPools.TxPool.AddTx` | core/tx_pool.go:913-929 | the same exact stages followed by the sender's promotion exactly if the transaction is new; no virtual nonce is queued if none was, and in a gap-free pool nothing that could run next waits if nothing did; the pending lists stay within the slots |
| `TxPools.TxPool.AddTxsLocked` | core/tx_pool.go:944-971 | every transaction is answered exactly as it would be alone on the books the one before left, then the senders of new ones are promoted once; only accepted transactions of the batch are new; locals lose only old, unpayable or outbid ones |
| `PoolAnswers.RepliesExactly` | core/tx_pool.go:944-971 | in a pool that does not fill up, a remote batch is the plain sequence of admissions |
| `TxPools.TxPool.PromoteAccount` | core/tx_pool.go:1062-1108 | one account's queue after dropping old and unpayable ones, moving the run and capping: `Promoted` |
| `PoolPromotion.PromotedCoherent` | core/tx_pool.go:1062-1108 | promotion keeps the books coherent |
| `PoolPromotion.PromotedKeeps` | core/tx_pool.go:1062-1108 | promotion keeps the nonce order: the run joins on to the pending range |
| `PoolPromotion.PromotedSettles` | core/tx_pool.go:1085-1093 | the virtual nonce is not queued after the promotion |
| `PoolPromotion.PromotedLoss` | core/tx_pool.go:1062-1108 | locals lose only old or unpayable transactions; a remote queue ends within its cap |
| `PoolPasses.PromotedInOne` | core/tx_pool.go:1062-1108 | promoting account after account gives each what it would get alone |
| `PoolPasses.DemotedInOne` | core/tx_pool.go:1235-1278 | the same for demotion |
| `TxPools.TxPool.CutRound` | core/tx_pool.go:1145-1160 | a round takes the top transaction of each offender and lowers them all by one |
| `TxPools.TxPool.EqualizePending` | core/tx_pool.go:1114-1186 | the spam cut is fair: one level for all remote senders, the highest that fits, never below the guaranteed slots; every virtual nonce falls back to the lowest nonce cut; no list ends empty exactly if the inputs spare every sender |
| `PoolFairness.FairCutMeans` | core/tx_pool.go:1114-1186 | cut senders end at one length, none uncut is longer, none falls below its slots, and the total misses the limit by less than one round |
| `PoolFairness.LevelMonotone` | core/tx_pool.go:1114-1186 | a higher level never keeps fewer, so the fair level is unique in effect |
| `PoolFairness.LeveledTidy` | core/tx_pool.go:1164-1184 | no empty list is left exactly if the level is at least one or all senders are local |
| `PoolFairness.CutSpares` | core/tx_pool.go:1114-1186 | a fair cut leaves no empty list exactly if slots are guaranteed, or no sender is remote, or one transaction of each remote sender fits the limit beside the local ones |
| `PoolFairness.BothEmptied` | core/tx_pool.go:1114-1186 | two remote senders with one transaction each, room for one and no guaranteed slots: both lists end empty |
| `PoolFairness.CutTopCoherent` | core/tx_pool.go:1146-1158 | dropping an account's top pending transaction keeps the books coherent |
| `PoolFairness.CutTopKeeps` | core/tx_pool.go:1146-1158 | and keeps the nonce order, with the virtual nonce rolled back |
| `PoolFairness.RolledTwice` | core/tx_pool.go:1146-1184 | cutting in several rounds rolls the virtual nonce back as far as cutting at once |
| `TxPools.TxPool.TrimQueue` | core/tx_pool.go:1187-1226 | the queue is cut to exactly its limit, or to the locals, from the highest nonces of remote senders; within the limit and in pending nothing changes |
| `TxPools.TxPool.PromoteExecutables` | core/tx_pool.go:1048-1227 | each account is promoted as if alone, then pending is cut fairly if and only if over its limit and the queue exactly to its limit; the accounts end settled and nonce order is kept; the pool stays valid exactly if nothing is cut or the cut spares every sender |
| `TxPools.TxPool.DemoteAccount` | core/tx_pool.go:1235-1278 | one account's pending list after a new state: `Demoted` |
| `PoolDemotion.DemotedCoherent` | core/tx_pool.go:1235-1278 | demotion keeps the books coherent |
| `PoolDemotion.DemotedClean` | core/tx_pool.go:1235-1278 | no pending transaction is old or unpayable, and none is left without one at the state nonce |
| `PoolDemotion.DemotedClosed` | core/tx_pool.go:1235-1278 | a list without gaps stays without |
| `PoolDemotion.DemotedLoss` | core/tx_pool.go:1235-1278 | only old or unpayable transactions are lost |
| `TxPools.TxPool.DemoteUnexecutables` | core/tx_pool.go:1232-1279 | each account is demoted as if alone; every pending list ends clean, and without gaps if it had none |
| `TxPools.TxPool.Renumber` | core/tx_pool.go:445-450 | every virtual nonce follows the last pending one |
| `PoolDemotion.RenumberedKeeps` | core/tx_pool.go:445-450 | after demotion, renumbering leaves every pending list rooted and started at the state nonce |
| `PoolDemotion.RenumberedGapFree` | core/tx_pool.go:445-450 | the renumbered pool is gap free exactly if no pending list has a gap above its state nonce and no account without pending transactions is behind the state |
| `PoolResets.RangeCloses` | core/tx_pool.go:1235-1278 | consecutive nonces are demoted whole if the state nonce is missing and else stay consecutive from it, whatever the state |
| `PoolResets.JoinedCloses` | core/tx_pool.go:1235-1278 | a promoted run in front of an old list it does not reach loses the gap in the demotion exactly if the old list's first transaction is unpayable |
| `PoolResets.ReinjectedExactly` | core/tx_pool.go:431-454 | after reinjection, promotion and demotion no list has a gap exactly if no reinjected sender is torn, and no account is behind |
| `PoolResets.PromotedBack` | core/tx_pool.go:452-454 | promotion fills no gap: a pool that is gap free after it was gap free before |
| `PoolResets.RisenNotTorn` | core/tx_pool.go:431-454 | a sender whose nonce did not fall is not torn |
| `PoolResets.ReinjectionGap` | core/tx_pool.go:431-454 | nonces 5 and 6 pending, the state nonce lowered to 3 and only nonce 3 reinjected: pending becomes 3, 5, 6 with virtual nonce 7 |
| `PoolResets.FilledGapWaits` | core/tx_pool.go:839-878 | after that gap nonce 4 is promoted and lowers the virtual nonce to 5; nonce 7, which could run next, then stays queued |
| `PoolResets.ReinjectionWaits` | core/tx_pool.go:431-454 | the same from the reorganisation on |
| `PoolResets.DroppedBehind` | core/tx_pool.go:1000-1043 | dropping a pending transaction the new state has passed leaves its sender's virtual nonce behind the state nonce |
| `PoolResets.BehindWaits` | core/tx_pool.go:1085-1093 | then a transaction at the state nonce is never promoted |
| `PoolResets.CutBehind` | core/tx_pool.go:1146-1158 | nonces 0, 1, 2 pending at state nonce 3: cutting one leaves the virtual nonce at 2, behind the state |
| `PoolResets.ResetIdleAt` | core/tx_pool.go:431-454 | whatever was reinjected, if nothing is cut before the demotion, nothing the account could run next is queued after the reset |
| `PoolAnswers.RoomyReset` | core/tx_pool.go:369-454 | if the pool does not fill up and the first promotion fits the slots, nothing waits after the reset; the demotion leaves a gap exactly for a torn sender, and none is torn if every sender's nonce did not fall or nothing of it is reinjected |
| `PoolAnswers.SmallHasRoom` | core/tx_pool.go:369-454 | with slots for all transactions, reinjected ones included, this is so and nothing is cut at all |
| `TxPools.TxPool.SetGasPrice` | core/tx_pool.go:489-498 | exactly the remote transactions below the new price leave; no pending list grows, and every remote transaction left pays the floor |
| `TxPools.TxPool.Evict` | core/tx_pool.go:325-340 | exactly the expired remote queues leave; everything else stays |
| `TxPools.TxPool.Reset` | core/tx_pool.go:369-454 | whatever the new state and the reinjected transactions, every pending list is rooted and started with a payable transaction, no virtual nonce is queued and pending is within its slots; each stage of the reset is exact; gap-freeness survives every head that reinjects nothing; with room nothing waits and gap-freeness has its condition on the arguments, an exact one if nothing is cut; else it is on the demoted lists, exact if nothing is cut |
| `TxPools.TxPool.Run` | core/tx_pool.go:274-454 | over every run of public operations: valid, rooted, started with a payable transaction, no virtual nonce queued, pending within its slots, and gap free with nothing that could run next waiting if no new head reinjects; every remote transaction pays at least the price floor |
| `WrsTree.ChooseIsPick` | les/randselect.go:159-170 | the tree's choice is the linear prefix-sum scan's choice over the leaves |
| `WrsTree.PickInterval` | les/randselect.go:159-170 | an entry is picked by exactly the values in its interval of prefix sums |
| `WrsTree.ChosenByWeight` | les/randselect.go:159-170 | each entry is picked by as many values as its weight |
| `WrsTree.LeavesTotal` | les/randselect.go:98-104 | the stored sums are those of the leaves |
| `WrsTree.NotFullHasOpen` | les/randselect.go:107-114 | a node that is not full has a free branch: the panic is unreachable |
| `WrsTree.InsertFills` | les/randselect.go:107-131 | an insertion fills one vacant leaf, at the index returned, and moves no other |
| `WrsTree.SetWeightLeaf` | les/randselect.go:135-156 | a weight change touches its own leaf only |
| `WrsTree.GrowKeepsIndices` | les/randselect.go:62-68 | with a level added the old leaves come first: indices stay valid |
| `WrsNodes.WrsNode.Insert` | les/randselect.go:107-131 | the nodes in memory after an insertion stand for the tree with the item inserted |
| `WrsNodes.WrsNode.SetWeight` | les/randselect.go:135-156 | the same for a weight change; nothing outside the node's own objects changes |
| `WrsNodes.WrsNode.Choose` | les/randselect.go:159-170 | the loop over the branches makes the tree's choice |
| `WrsNodes.WrsNode.Above` | les/randselect.go:63-67 | a new root stands for the grown tree |
| `RandSelect.WeightedRandomSelect.constructor` | les/randselect.go:38-40 | empty |
| `RandSelect.WeightedRandomSelect.SetItemWeight` | les/randselect.go:44-73 | the set of weights is updated at this item only; zero removes it; the root grows when full |
| `RandSelect.WeightedRandomSelect.ChooseItem` | les/randselect.go:79-94 | ends for all random outcomes; the result has its current, positive weight, there is none only if the set is empty, and only outdated weights were refreshed |
| `RandSelect.ChosenInProportion` | les/randselect.go:79-94 | every item is chosen by exactly as many of the possible values as its weight |
| `RandSelect.AcceptedInProportion` | les/randselect.go:75-94 | an item whose weight fell since it was stored is kept by exactly as many of the values below the stored weight as its current weight |
| `HeaderTree.PathUnique` | core/headerchain.go:142-206 | a header has one path to the genesis block |
| `HeaderTree.TotalIsPathDifficulty` | core/headerchain.go:148-159 | a stored total difficulty is the sum along the path from the genesis block |
| `HeaderChains.HeaderChain.constructor` | core/headerchain.go:79-115 | the chain of the genesis header is valid |
| `HeaderChains.OverwriteStale` | core/headerchain.go:177-189 | stopping at the first right entry is enough: the numbering then is the whole path, and the walk never runs off it |
| `HeaderChains.DeleteAbove` | core/headerchain.go:166-175 | exactly the entries above the new head are deleted |
| `HeaderChains.HeaderChain.WriteHeader` | core/headerchain.go:142-206 | refused exactly if the parent is unknown; head exactly if heavier, or as heavy and lucky; the numbering stays the head's ancestor path and no stored header is heavier than the head |
| `HeaderChains.HeaderChain.WriteAll` | core/headerchain.go:142-206 | the same over every run of writes in any order; exactly the headers whose parent was stored in time are stored |
| `HeaderChains.HeaderChain.GetAncestor` | core/headerchain.go:336-366 | the exact n-th ancestor, for any hash; none only if there is none or more off-chain headers than the budget must be walked; the budget drops by exactly those walked |
| `HeaderChains.CanonicalIsAttached` | core/headerchain.go:336-366 | no header has to be walked exactly if the first one is canonical |
| `HeaderChains.HeaderChain.SetHead` | core/headerchain.go:466-501 | the canonical header at the number becomes head with its path as the numbering, exactly the canonical headers above leave, and the rest is a valid chain exactly if on the old chain no header that stays has a parent that leaves and none is heavier than the new head |
| `HeaderChains.RewindOrphans` | core/headerchain.go:466-501 | a chain with a side header on number 2: rewinding to 0 orphans it, rewinding to 1 leaves it heavier than the head |
| `HeaderQueries.AnswerByHash` | berith/handler.go:352-417 | not empty exactly if the hash is stored and the amount is positive as a signed number; at most the amount and at most 192 headers; neighbours are exactly skip + 1 generations apart, in both directions and for every skip; a reply shorter than both ends where the chain does or the budget of 100 off-chain headers is spent |
| `HeaderQueries.AnswerByNumber` | berith/handler.go:375-431 | not empty exactly if the number is canonical and the amount is positive as a signed number; at most the amount and at most 192 canonical headers at the numbers stepped to; a reply shorter than both ends below the genesis block or above the head, unless the step overflows; with the largest skip a full reply that repeats one header |
| `HeaderQueries.LimitMeans` | berith/handler.go:362 | the limit in plain numbers |
| `HeaderQueries.NextMeans` | berith/handler.go:418-429 | a step that does not overflow finds no header only below the genesis block or above the head |
| `HeaderQueries.SpacedUnlessWraps` | berith/handler.go:418-429 | neighbours are skip + 1 generations apart exactly where the step does not overflow |
| `HeaderQueries.RepeatsOne` | berith/handler.go:418-429 | with a skip of 2^64 - 1 every header of the reply is the first one |
| `HeaderQueries.NearerAfter` | berith/handler.go:386-393 | walking back brings the cursor nearer to the canonical chain by what the budget lost |
| `TxIndexes.WriteTxLookupEntries` | core/rawdb/accessors_indexes.go:46-63 | the block's entries are added to the index |
| `TxIndexes.TxDifference` | core/types/transaction.go:291-306 | the first list without every occurrence of what is in the second, in its order |
| `TxIndexes.DeleteTxLookupEntries` | core/rawdb/accessors_indexes.go:65-68 | exactly the listed entries are deleted |
| `TxIndexes.IndexMoves` | core/blockchain.go:1500-1521 | writing the new branch over the old and deleting the difference gives exactly the new path's index |
| `TxIndexes.IndexedOnPath` | core/rawdb/accessors_indexes.go:46-63 | a transaction is indexed exactly if a block of the path contains it |
| `TxIndexes.IndexPointsAt` | core/rawdb/accessors_indexes.go:46-63 | its entry names that block, its number and a position that holds it |
| `BlockChains.FindCommon` | core/blockchain.go:1445-1488 | the last common block, the new chain top down and the deleted transactions; the invalid-chain exits are not taken |
| `BlockChains.BlockChain.constructor` | core/blockchain.go:515-535 | the chain of the genesis block is valid |
| `BlockChains.BlockChain.Insert` | core/blockchain.go:515-535 | the numbering, the head block, and the head header unless the number named the block |
| `BlockChains.BlockChain.Reorg` | core/blockchain.go:1417-1521 | the numbering follows the new path and the lookup index is exactly that of the new path |
| `BlockChains.NumberedIsHead` | core/blockchain.go:515-535 | a winning block that its number names already is the head: the head header never falls behind |
| `BlockChains.BlockChain.WriteBlockWithState` | core/blockchain.go:941-1050 | the exact fork choice; the canonical path is complete, no stored block beats the head, total difficulty never drops, index exact, head header equals head block |
| `BlockChains.BlockChain.WriteAll` | core/blockchain.go:941-1050 | over any sequence of writes: exactly the blocks with a stored parent are stored, no stored block beats the head, total difficulty never drops, and exactly the transactions of the canonical path can be looked up, where they are |
| `BlockChains.BlockChain.LookupExact` | core/rawdb/accessors_indexes.go:46-63 | a transaction can be looked up exactly if it is on the canonical path, and is found where it is |
| `ChainIndexers.ChainIndexer.constructor` | core/chain_indexer.go:115-134 | an empty index is consistent |
| `ChainIndexers.ChainIndexer.SetValidSections` | core/chain_indexer.go:483-495 | the persisted count, and exactly the heads below it |
| `ChainIndexers.ChainIndexer.OnReorg` | core/chain_indexer.go:261-297 | no section above the reorg stays, except those a checkpoint covers; known count and cascaded head drop to the reorg; of the stored sections exactly those stay that end at or below the block or that a checkpoint covers |
| `ChainIndexers.ChainIndexer.OnExtended` | core/chain_indexer.go:298-322 | sections become known exactly with enough confirmations, past the checkpoint and matching it; without a checkpoint, no further section has enough confirmations |
| `ChainIndexers.SectionStarts` | core/chain_indexer.go:261-322 | a block is between the first block of its section and that of the next |
| `ChainIndexers.EndsBefore` | core/chain_indexer.go:261-297 | a section ends at or below a block exactly if it comes before the block's section |
| `ChainIndexers.ChainIndexer.OnCheckpoint` | core/chain_indexer.go:142-154 | the section head is given unless already stored |
| `ChainIndexers.ChainIndexer.BeginSection` | core/chain_indexer.go:343-359 | the next section is taken with the head it must follow |
| `ChainIndexers.ChainIndexer.OnResetFailure` | core/chain_indexer.go:417-420 | the whole index is invalidated |
| `ChainIndexers.ChainIndexer.ProcessNext` | core/chain_indexer.go:422-436 | a header is taken only if found under its number and hash and linked to the last |
| `ChainIndexers.ChainIndexer.FinishSection` | core/chain_indexer.go:370-390 | the section is committed exactly if complete and still following the head it started from |
| `ChainIndexers.ChainIndexer.OnRestart` | core/chain_indexer.go:115-154 | the count survives a restart |
| `ChainIndexers.HeadsExactly` | core/chain_indexer.go:483-526 | section heads exist for all sections from the last checkpoint up to the stored count |
| `ChainIndexers.SectionsJoin` | core/chain_indexer.go:412-442 | processed sections in a row are one linked run of exactly section-size headers each |
| `ChainIndexers.ChainIndexer.WholeIndex` | core/chain_indexer.go:483-526 | without checkpoints the heads are exactly those below the count and the sections are one chain from number zero |
| `ChainIndexers.ChainIndexer.Run` | core/chain_indexer.go:261-442 | every interleaving of processing with head notices, reorgs, checkpoints, failures and restarts keeps the index consistent: heads from the checkpoint up to the count; without checkpoints exactly those, and the sections are one chain from number zero |
| `Feeds.Delete` | event/feed.go:227-230 | the list without the case at the index, in place |
| `Feeds.Deactivate` | event/feed.go:232-237 | two cases swapped, in place |
| `Feeds.Find` | event/feed.go:217-225 | the first index of the channel, or none |
| `Feeds.Feed.Subscribe` | event/feed.go:74-97 | one more subscription of the channel |
| `Feeds.Feed.Unsubscribe` | event/feed.go:108-119 | removed from the inbox, or waiting to be dropped from the case list, where it is |
| `Feeds.Feed.DropPending` | event/feed.go:121-128 | a waiting removal always finds its channel and removes one case of it |
| `Feeds.Feed.TrySends` | event/feed.go:164-170 | the fast path keeps the account of who got the value |
| `Feeds.Feed.SelectOne` | event/feed.go:175-186 | each selection serves or drops one subscriber, so the send ends |
| `Feeds.Feed.Send` | event/feed.go:133-195 | every subscription there was gets the value exactly once unless removed first, the count is that of the deliveries, those left out are exactly the removals carried out meanwhile, and the rest stay subscribed |
| `Distributors.Place` | les/distributor.go:240-249 | the queue stays sorted; a highest order goes last |
| `Distributors.AskPeers` | les/distributor.go:191-211 | after a request is offered, each peer is recorded with its earliest request, ready or no sooner than the best |
| `Distributors.ScanEnds` | les/distributor.go:189-224 | what is returned is the peer's earliest request; without a ready one the wait is the shortest; without any the queue is empty |
| `Distributors.RequestDistributor.Queue` | les/distributor.go:231-258 | sorted by order through re-queues; a new channel for the request |
| `Distributors.RequestDistributor.Cancel` | les/distributor.go:263-274 | true exactly if it was waiting; its channel is closed, once |
| `Distributors.RequestDistributor.NextRequest` | les/distributor.go:176-225 | closes exactly a prefix of requests that no registered peer can take; the result is its peer's earliest |
| `Distributors.RequestDistributor.Dispatch` | les/distributor.go:128-139 | a request that need not wait is sent to a peer for which it is the earliest, on its own open channel, which is then closed |
| `Distributors.RequestDistributor.Stop` | les/distributor.go:113-122 | every waiting channel is closed, none twice |
| `Distributors.RequestDistributor.Run` | les/distributor.go:110-283 | over every run the queue is sorted, waiting requests have their own open channels, and every closed channel was closed exactly once and never used after |
| `Ledgers.SumAdds` | core/state/state_object.go:318-340 | a balance change changes the sum by as much |
| `Ledgers.TransferConserves` | core/evm.go:90-117 | a transfer the sender can make keeps the sum of main and stake balances and makes none negative |
| `Ledgers.PaymentMoves` | core/evm.go:90-117 | a payment changes the two main balances by the amount and nothing else |
| `Ledgers.StakingMoves` | core/evm.go:90-117 | staking takes the amount from the main balance, adds it to the stake, and changes nothing else |
| `Ledgers.OthersMoveNothing` | core/evm.go:90-117 | no other combination of wallets moves anything |
| `Ledgers.WalletsMean` | core/state_transition.go:203-258 | the three valid combinations of wallets |
| `Ledgers.UnusedAccount` | core/state/state_object.go:318-340 | an account never used has no balance, no stake and nonce zero |
| `Ledgers.UnstakeMovesAll` | core/state/state_object.go:467-475 | whatever the amount, the whole stake becomes main balance and no other account changes |
| `Ledgers.LimitStakeConserves` | core/state_processor.go:160-183 | stake above the limit goes to the main balance of the same account: the stake is then exactly the limit, the account's sum and every other account stay the same |
| `StateTransitions.IntrinsicGas` | core/state_transition.go:91-124 | the exact cost, or an error exactly when it does not fit 64 bits |
| `StateTransitions.IntrinsicMeans` | core/state_transition.go:91-124 | 21000 or 53000, 68 for each byte that is not zero and 4 for each that is |
| `StateTransitions.CallConserves` | core/vm/evm.go:199-269 | a call, with its transfer and possible reversal, keeps the sum and returns no more gas than it got |
| `StateTransitions.GasPool.AddGas` | core/gaspool.go:29-35 | gas goes back; overflow is shown not to happen |
| `StateTransitions.GasPool.SubGas` | core/gaspool.go:39-45 | taken exactly if there is enough |
| `StateTransitions.StateTransition.BuyGas` | core/state_transition.go:170-197 | the exact error, with nothing changed, or the gas and its price taken |
| `StateTransitions.StateTransition.RefundGas` | core/state_transition.go:261-276 | the gas left plus at most half of the gas used goes back to sender and pool |
| `StateTransitions.StateTransition.TransitionDb` | core/state_transition.go:203-258 | applied exactly if nonce, balance, gas pool, wallets, stake receiver, intrinsic gas and the call allow it, and else the exact error; the sum of balances is kept, the pool loses exactly the gas used, and who is charged, paid back and paid is exact; the refund is all of the counter or half of the gas consumed |
| `StateTransitions.PaymentSettles` | core/state_transition.go:203-258 | a payment that runs no code costs value plus gas used times price, the recipient gets the value, the coinbase the rest, the nonce rises by one and nothing else changes, whoever of them are the same |
| `StateTransitions.StakingSettles` | core/state_transition.go:203-258 | staking costs value plus gas, and the stake grows by the value |
| `StateTransitions.UnstakingSettles` | core/state_transition.go:203-258 | unstaking costs the gas and turns the whole stake into main balance |
| `StateTransitions.FailureSettles` | core/vm/evm.go:199-269 | a message whose code fails costs the gas and moves nothing, whatever the code did |
| `StateTransitions.AppliedExactly` | core/state_transition.go:170-258 | in plain numbers, exactly what a message must meet to be applied |
| `StateTransitions.ChargedMeans` | core/state_transition.go:170-258 | before it runs, the sender has paid for all the gas and used the nonce |
| `StateTransitions.SettledMeans` | core/state_transition.go:248-276 | the price of the unused gas goes back, that of the used gas to the coinbase |
| `StateTransitions.ApplyTransaction` | core/state_processor.go:101-150 | the same for a transaction with its receipt, after the stake limit; refused as locked exactly if an unstaking comes too early, and otherwise exactly as the message is |
| `StateTransitions.Process` | core/state_processor.go:64-92 | the transactions are applied in order up to the first that is refused, whose exact error is returned; if there is none: sum of balances kept, gas left plus gas used is the gas limit, cumulative receipt gas is the running sum |
| `StateTransitions.SetBytes` | core/state_processor.go:190-201 | the number a big-endian byte string stands for |
| `StateTransitions.SetReceiptsData` | core/blockchain.go:798-832 | each gas field is the difference of two cumulative figures, nothing else changes; a count mismatch changes nothing |
| `StateTransitions.GasRecovered` | core/blockchain.go:816-821 | from receipts of a processed block that lost their gas fields, each transaction's gas is recovered exactly |
| `DerivationPaths.ParseDerivationPath` | accounts/hd.go:67-117 | the path the text stands for, or an error; never empty |
| `DerivationPaths.String` | accounts/hd.go:121-135 | the canonical text |
| `DerivationPaths.RoundTrip` | accounts/hd.go:67-135 | a path is read back from its text exactly if it is not empty |
| `DerivationPaths.TextIsCanonical` | accounts/hd.go:67-135 | whatever spelling a path was read from, its canonical text reads the same |
| `DerivationPaths.ComponentRoundTrip` | accounts/hd.go:91-112 | the hardened split at 2^31 and the decimal digits are undone for every component |
| `DerivationPaths.SplitLast` | accounts/hd.go:71 | a piece added after a slash is split off again |
| `DerivationPaths.RelativePath` | accounts/hd.go:30-117 | a path without the leading m continues the default root, whose text is m/44'/60'/0'/0 |
| `DerivationPaths.PrefixedNumber` | accounts/hd.go:91-112 | hexadecimal, binary and octal numbers are read back behind their prefixes |
| `DerivationPaths.SignedNumber` | accounts/hd.go:91-112 | a sign before a number is read |
| `DerivationPaths.UnderscoreIgnored` | accounts/hd.go:91-112 | an underscore between digits does not count, one at the end or next to another is an error |
| `DerivationPaths.DigitsExactly` | accounts/hd.go:91-112 | a text is a number in a base exactly if all its characters are digits of it |
| `DerivationPaths.SpacesIgnored` | accounts/hd.go:67-112 | white space around a component does not count |
| `DerivationPaths.SpacesAre` | accounts/hd.go:67-112 | the characters that are white space |

## Left out

- PoolAnswers.Validate: the checks that read nothing of the pool (size, sign of the value, signature, wallet kinds, intrinsic gas, stake bounds) are one given flag, because they do not touch the books.
- TxPools.TxPool.AddTx: and the other callers of TxPools.TxPool.PromoteExecutables ask for at least one guaranteed slot per account; with none, an empty pending list can stay, as PoolFairness.CutSpares says.
- TxPools.TxPool.Reset: the walk over old and new blocks that finds the transactions to reinject is not part of the model; the list is arbitrary. In a pool without room for the reinjected transactions, or whose first promotion exceeds the slots, the condition for gap-freeness is on the demoted lists, because what is dropped on the way depends on the price heap; if the pool is cut after that, only that the condition suffices is proved, since the cut can take a gap away.
- TxPools.TxPool.Evict: the accounts whose heartbeat expired are given; queue trimming takes accounts in any order.
- TxPools.TxPool.Run: claims gap-freeness, and that nothing waits, for runs in which no new head reinjects transactions; TxPools.TxPool.Reset has the condition for one that does.
- The per-account lists inside the pool are values; the list objects of `TxLists` and `SortedMap` are proved against the same functions, but sharing between pool and lists is not captured.
- The binary heap and sort routines of the standard library are used by contract; the priority queue of offenders is a choice of a tallest list.
- Pool journal, event feeds, metrics, logging, status queries and the managed state's own journal.
- 64-bit overflow of nonces, sums of weights, gas prices and total difficulties.
- HeaderChains.HeaderChain.WriteHeader: headers numbered 2^64 - 1, above which the code's own loop would wrap.
- Caches of headers, blocks, totals and numbers; receipts, logs, bodies' contents, state commits, pruning and fast sync in the block chain; the consensus engine and header verification.
- BlockChains.BlockChain.WriteBlockWithState: asks that no transaction of the block is already on the way to its parent, which nonces ensure when blocks are processed.
- ChainIndexers.ChainIndexer.OnCheckpoint: asks that checkpoints are not lowered; a crash between two database writes is not modelled.
- ChainIndexers.ChainIndexer.FinishSection: does not claim that a committed section is still canonical, only that it is linked.
- Child indexers, throttling and progress messages of the section indexer.
- The value and element type of a feed, and the subscription's error channel.
- Distributors.RequestDistributor.NextRequest: what the callbacks answer does not change during one search; the choice among ready peers by weight is any choice.
- Distributors.RequestDistributor.Queue: asks that the request is not queued already, where the code would list it twice.
- RandSelect.WeightedRandomSelect.SetItemWeight: weights are not negative; an item's weight does not change during one choice.
- Wake-ups and waiting times of the distributor's loop.
- StateTransitions.CallConserves: contract code is an abstract step that is taken to keep the sum of balances; a contract that destroys itself in favour of itself does not.
- StateTransitions.Process: block rewards, the hard-fork mutations, logs, blooms, state roots and selection points.
- DerivationPaths.ParseDerivationPath: error texts are one error value.
- Networking, the virtual machine, tries, key stores, the console and the command line: not part of the model.

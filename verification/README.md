# Quorum core: a verified model

This project models the core of the Quorum node (a fork of go-ethereum) in Dafny
and proves properties of it. It covers five parts that depend on each other only
through a few shared types.

- **Transaction pool.** Per-account lists (a nonce map, a binary heap of nonces
  and a cached sorted slice), the pool that moves transactions between queue and
  pending lists as the chain moves, and the eviction that levels long lists.
- **Canonical chain.** The header chain and the block chain: fork choice by total
  difficulty, the number-to-hash map, rewinding, reorganisation, caches, and the
  transaction lookup index.
- **Gas, value and the public/private split.** One message, one transaction, one
  block; the two views of a private transaction.
- **Consensus arithmetic.** Difficulty, gas limit, header validity, the header
  generator, uncles and rewards.
- **ICAP addresses and account unlocking.** A base-36 code with check digits, and
  the protocol of timed unlock, lock and expiry goroutines.

`dafny verify dfyconfig.toml` checks everything.

## How it is modelled

- A header hash is a constructor applied to the header, so hashes are collision
  free and no header contains its own hash. A block is determined by its header,
  which commits to its transactions and uncles. A transaction hash is a
  constructor applied to the transaction.
- Objects that change in place are classes: `TxSortedMap`, `TxList`, `TxSet`,
  `TxPool`, `HeaderChain`, `BlockChain`, `GasPool`, `StateDB`, `StateTransition`.
  Their invariant is `Valid()`; since constructors establish it and every method
  keeps it, it holds over every run. `StateTransition` is proved against the value
  functions of module `TransitionSpec`, and the loop over a block against `Play`;
  module `MessageLaw` says what the former do, account by account.
- The pool stores its lists and its set of local transactions as values. Classes
  `TxList` and `TxSet` are proved to compute exactly the value functions that the
  pool uses. A ghost field `gaps` holds the accounts whose pending nonces have a
  gap; every operation says exactly which accounts enter and leave it. Every pass
  of the pool is stated
  account by account: what is pending and queued afterwards, the next nonce, the
  heartbeat, and which transactions are no longer known.
- Iteration over a Go map visits the keys in an arbitrary order. The LRU caches may
  drop any entries whenever one is added. The coin that decides between equally
  heavy heads is a parameter. The wall clock is a parameter or reads anything.
- The virtual machine is a function parameter with a contract (`RunOk`): it does
  not create gas, it makes and loses no public wei, a public run overdraws nobody
  and leaves the nonce of the message's sender alone, and a private run leaves all
  public balances and nonces alone.
- Account management is a transition system over atomic steps; `After` runs any
  interleaving of them.

Results about the code that a reader may not expect:

- Eviction keeps pending nonces gap-free exactly if no account is eligible for it
  (`EvictionGapless`, `EvictionOpensGap`). Over a whole pass of promotion an evicted
  account is gap-free exactly if the limit on the queue then takes a pending nonce
  from it (`PassGapless`). A gap closes exactly if what is ready reaches over it, or
  if the limit, a removal or a reset leaves a run (`PassGapAt`, `RemovalGapsExact`,
  `ResetGapsExact`).
- Promotion can leave the next nonce of an account queued though it could run:
  exactly if the lowest run in the queue ends below that nonce (`LeftExecutable`).
  `NextNonceStranded` is such a batch: with nonces from 0 to 3 pending, another
  transaction with nonce 0 keeps nonce 4 in the queue.
- A chain reset keeps them gap-free exactly if no account that keeps pending
  transactions lost nonces, and the pass that follows is seamless (`ResetGapless`,
  `ResetOpensGap`). Between calls no queued transaction is stale or unpayable
  (`PassFit`).
- The limit on the queue is met exactly if nothing pending goes back to the queue
  (`LimitMet`). Removal is by nonce, so dropping a queued nonce that is pending cuts
  the pending list. A pending nonce that is not queued goes back exactly if it is
  above such a nonce that has something pending below it and, if the account loses
  its whole queue, something is pending below all such nonces of the account.
  `LimitMissed` is a pool at which a pass ends above the limit.
- A valid transaction whose nonce is taken in the queue is dropped without an
  error and stays unknown, so it can be sent again (`EnqueueExactly`, `Add`); of a
  batch the first one for a nonce wins (`AllAddedExactly`).
- A transaction that is marked as local again loses its mark at once if its first
  mark is still there and older than two hours (`MarkedExactly`,
  `MarkedAgainIsLost`).
- A cached lookup differs from an uncached one exactly if a cached hash is asked
  for under a number that is not its own (`GetTd`, `GetHeader`, `ForeignNumber`).
- After a block is accepted the index is exact again exactly if no transaction
  repeats on the chain of the head (`InsertBlock`, `RepeatedTransaction`).
- A node outside a private message with a positive gas price would lose the gas it
  bought (`Conservation`, `OutsiderLoses`); transactions with such a price are
  refused (`ApplyTransaction`). Parties and outsiders agree exactly if the gas pays
  for the decrypted payload (`PublicAgreement`, `PartyRefuses`).
- Two nodes that both accept a block have the same receipts and the same public
  balances and nonces (`SameBlock`), but one may accept a block that the other does
  not: an outsider's gas pool shrinks by the whole gas of a private transaction, a
  party's by what was used (`OneNodeAccepts`). A block that some node accepted is
  accepted by a node outside of all its private transactions exactly if it fits the
  gas limit with all private gas counted as used (`OutsiderAccepts`), and one that
  such an outsider accepted is accepted by every node exactly if the gas pays for
  the payloads that the node holds (`PartyAccepts`).
- No ICAP address survives a wrong character or two swapped neighbours of the same
  class, at any position (`AddressTypoRefused`, `AddressSwapRefused`). In longer
  strings the check sum misses a swap exactly across the seam of the rotation with
  a multiple of 96 decimal digits behind it (`TranspositionDetected`).
- A string that is accepted as an address need not be a printed one
  (`AcceptedIsPrinted`).
- A key that left the map of unlocked keys was zeroed unless a new unlock of its
  address replaced it (`EveryRun`).

Where comments and code disagree the model follows the code. The comments on
CalcGasLimit speak of 1/1024 of the parent's limit, the code divides by 4096. They
say that a parent that used less than two thirds lowers the limit; because of the
rounding it may still stay or rise (`GasLimitMoves` has the exact condition). The
comment on the queue limit says that the oldest transactions are dropped, the code
empties the account with the latest heartbeat first (`LimitQueue`).

## Model

| member | source | states |
|---|---|---|
| NonceHeap.Init | core/tx_list.go:28-46 | turns any slice into a heap of the same nonces |
| NonceHeap.Push | core/tx_list.go:36-38 | adds one nonce and keeps the heap order |
| NonceHeap.Pop | core/tx_list.go:40-46 | takes out a least nonce, keeps the others and the heap order |
| NonceHeap.RemoveAt | core/tx_list.go:150-170 | takes out the nonce at any position, keeps the others and the heap order |
| NonceHeap.RootIsMinimum | core/tx_list.go:28-46 | the first element of a heap is a least one |
| TxSortedMaps.TxSortedMap.constructor | core/tx_list.go:57-62 | an empty map with consistent heap and cache |
| TxSortedMaps.TxSortedMap.Put | core/tx_list.go:71-77 | sets one entry; heap holds exactly the keys, cache is dropped or right |
| TxSortedMaps.TxSortedMap.Forward | core/tx_list.go:82-96 | removes and returns in nonce order exactly what is below the threshold, and slices the cache rightly |
| TxSortedMaps.TxSortedMap.Filter | core/tx_list.go:100-121 | removes exactly the selected entries, returns each once |
| TxSortedMaps.TxSortedMap.Cap | core/tx_list.go:125-146 | keeps exactly the lowest nonces up to the count, returns the others from the top, and slices the cache rightly |
| TxSortedMaps.TxSortedMap.Remove | core/tx_list.go:150-170 | removes one nonce and says whether it was there |
| TxSortedMaps.TxSortedMap.Ready | core/tx_list.go:176-191 | takes out the run of consecutive nonces from the lowest, if that is at most the start |
| TxSortedMaps.TxSortedMap.Flatten | core/tx_list.go:201-214 | returns and caches the contents sorted by nonce |
| SortedTxs.FlatUnique | core/tx_list.go:201-214 | the sorted contents are unique, so a cache can be compared with any sorting |
| TxListSpec.AddKeepsValid | core/tx_list.go:241-252 | every listed transaction costs at most the ceiling after an addition |
| TxListSpec.BestOffersStay | core/tx_list.go:241-252 | a list filled one by one holds exactly the best-priced transaction for each nonce, the earliest of equal ones |
| TxListSpec.FilterIsFullScan | core/tx_list.go:270-291 | the cost ceiling shortcut never changes the outcome: the filter removes exactly the unpayable ones and in strict mode sets aside exactly the payable ones above one |
| TxListSpec.FilterPartitions | core/tx_list.go:270-291 | removed, invalidated and kept transactions partition the old contents |
| TxListSpec.RemovePartitions | core/tx_list.go:303-317 | removed, invalidated and kept transactions partition the old contents |
| TxListSpec.StrictKeepsGapFree | core/tx_list.go:258-317 | in strict mode Filter, Remove, Forward and Cap keep a gap-free list gap-free |
| TxLists.TxList.Add | core/tx_list.go:241-252 | inserts unless the nonce is taken at no lower price; returns what was replaced |
| TxLists.TxList.Forward | core/tx_list.go:258-260 | drops and returns everything below the nonce |
| TxLists.TxList.Filter | core/tx_list.go:270-291 | with the shortcut, computes the value filter and returns each removed and invalidated transaction once |
| TxLists.TxList.Cap | core/tx_list.go:296-298 | keeps the lowest nonces up to the count |
| TxLists.TxList.Remove | core/tx_list.go:303-317 | removes a nonce and, in strict mode, everything above it |
| TxLists.TxList.Ready | core/tx_list.go:323-325 | takes out the ready run |
| TxLists.TxList.Flatten | core/tx_list.go:340-342 | the contents in nonce order, unchanged |
| Equalize.CountPending | core/tx_pool.go:525-529 | counts all pending transactions |
| Equalize.FindSpammers | core/tx_pool.go:531-544 | the accounts with more than 16 pending whose sampled transaction is not local |
| Equalize.PopLongest | core/tx_pool.go:548-550 | pops an account with a longest list |
| Equalize.CutAll | core/tx_pool.go:559-563 | one pass lowers the common level by exactly one |
| Equalize.LowerTo | core/tx_pool.go:557-575 | lowers the level until the total fits or the next list's length is reached, never further than needed |
| Equalize.TotalGrowsWithLevel | core/tx_pool.go:525-577 | a higher level keeps at least as much |
| Equalize.EqualizeAllowances | core/tx_pool.go:525-577 | eviction is water filling: one level, at least 16, caps every eligible account at its lowest nonces, nobody else loses anything, and the level is the highest that fits 4096 or it is 16 |
| Equalize.OutcomeUnique | core/tx_pool.go:525-577 | water filling determines the outcome: the order in which offenders are popped and cut makes no difference |
| PoolState.EnqueueFiled | core/tx_pool.go:332-347 | queueing keeps every listed transaction known, listed once and under its sender |
| PoolState.EnqueueExactly | core/tx_pool.go:332-347 | a transaction whose nonce is free in its sender's queue is queued and known; otherwise nothing changes, and it stays unknown |
| PoolState.PromoteSound | core/tx_pool.go:352-375 | promoting keeps that, and that pending transactions are executable |
| PoolState.PromoteExactly | core/tx_pool.go:352-375 | a transaction whose nonce is free becomes pending and known, with the next nonce one above it and a new heartbeat; otherwise it is forgotten |
| PoolGaps.RemovalGapsExact | core/tx_pool.go:443-461 | removing a transaction opens no gap, and closes the gap of its account exactly if its nonce was pending and what is pending below it is a run |
| PoolRemoval.EmptiedStep | core/tx_pool.go:432-469 | removing queued transactions one by one, in any order: which pending nonces stay, which queued ones, and which pending ones are queued again |
| PoolRemoval.RunLimited | core/tx_pool.go:594-607 | removing the highest queued nonces from the top, or all from the bottom, leaves the lowest, cuts pending below every hit, and queues again exactly what had something pending below the hit |
| PoolRemoval.BackIff | core/tx_pool.go:594-607 | what is queued again, as a property of the lists before the removal instead of its steps |
| PoolDemotion.KeptInterval | core/tx_pool.go:615-653 | what demotion keeps of an interval is an interval from the new chain nonce |
| PoolDemotion.DemotionIsIdle | core/tx_pool.go:615-653 | demotion changes nothing while the chain stands still |
| PoolDemotion.ResetAt | core/tx_pool.go:145-167 | with the new chain an account is gap-free exactly if it lost no nonces or keeps nothing pending; otherwise its lowest nonces are missing from the queue, too |
| PoolDemotion.DemotedGapless | core/tx_pool.go:145-167 | with the new chain an account is gap-free, whatever gaps it had, exactly if what it keeps pending is nothing or a run from the new chain nonce |
| PoolGaps.ResetGapless | core/tx_pool.go:145-171 | over a whole reset pending nonces are gap-free exactly if no account that keeps pending transactions lost nonces and the pass is seamless |
| PoolGaps.ResetGapsExact | core/tx_pool.go:145-171 | which accounts have a gap after a reset, given those before it |
| PoolExamples.ResetOpensGap | core/tx_pool.go:145-171 | a sender whose chain nonce falls below its pending nonces has a gap after every reset; all its transactions pass validation |
| PoolPromotion.PromotedGapless | core/tx_pool.go:485-524 | after promotion an account has no gap exactly if it had none or what was ready reaches over it |
| PoolPromotion.LeftExecutable | core/tx_pool.go:485-524 | promotion leaves the next nonce of an account queued exactly if the lowest run in the queue ends below it and the nonce is within the 64 that stay |
| PoolExamples.NextNonceStranded | core/tx_pool.go:391-402 | a sender with consecutive pending nonces adds one with a taken nonce and one with the next: after the pass the next nonce is still queued; all transactions pass validation |
| PoolLimits.LeveledSound | core/tx_pool.go:525-577 | eviction keeps listed transactions filed and executable |
| PoolLimits.EvictionGapless | core/tx_pool.go:525-577 | eviction keeps pending nonces gap-free exactly if no account is eligible for it |
| PoolExamples.EvictionOpensGap | core/tx_pool.go:378-388 | a single sender of 4096 pending transactions adds the next one: every pass evicts and leaves a gap; all transactions pass validation |
| PoolLimits.LimitMet | core/tx_pool.go:578-609 | at least 1024 stay queued, and exactly 1024 if and only if nothing pending goes back to the queue, in terms of the lists before and the numbers dropped |
| PoolExamples.LimitMissed | core/tx_pool.go:391-402 | more than 1024 accounts with four pending nonces, and a batch with two taken nonces of each: every pass ends above the limit; all transactions pass validation |
| PoolGaps.PassGapless | core/tx_pool.go:474-610 | a pass keeps pending nonces gap-free exactly if every account that was evicted from then loses a pending nonce to the limit on the queue |
| PoolGaps.PassGapAt | core/tx_pool.go:474-610 | when exactly an account has no gap after a pass, whether or not it had one before |
| PoolGaps.PassGapsExact | core/tx_pool.go:474-610 | which accounts have a gap after a pass, given those before it |
| PoolGaps.DropGapsExact | core/tx_pool.go:658-682 | which accounts have a gap after queued transactions were dropped, given those before |
| PoolLimits.PassFit | core/tx_pool.go:474-610 | after a pass no queued transaction is stale or unpayable |
| TxPools.Validate | core/tx_pool.go:248-301 | what passes is exactly what has gas price 0, a recoverable sender whose account exists, a value that is not negative, and nonce, cost and gas within the account's and the block's means; an error names something that is wrong |
| TxPools.AllAddedExactly | core/tx_pool.go:391-402 | of a batch exactly the new valid transactions that are the first for a nonce free in the queue are queued and known, as a test on the pool before and the batch |
| TxPools.TxPool.constructor | core/tx_pool.go:87-110 | an empty pool is valid |
| TxPools.TxPool.EnqueueTx | core/tx_pool.go:332-347 | updates queue and known transactions as the value function does |
| TxPools.TxPool.PromoteTx | core/tx_pool.go:352-375 | updates pending, known transactions, next nonce and heartbeat as the value function does |
| TxPools.TxPool.AddTx | core/tx_pool.go:305-327 | refuses known and invalid transactions with the right error; of the others exactly those with a free queue nonce are queued and known |
| TxPools.TxPool.Add | core/tx_pool.go:378-388 | queues and promotes; before the pass exactly what was known and, if it took a free queue nonce, the transaction is known; refused transactions change nothing; the pool stays valid, and the accounts with gaps change exactly as the pass says |
| TxPools.TxPool.AddBatch | core/tx_pool.go:391-402 | queues in turn every acceptable transaction that finds its queue nonce free, and exactly these become known, then promotes; the accounts with gaps change exactly as the pass says |
| TxPools.TxPool.RemoveTx | core/tx_pool.go:432-469 | removes a nonce from both lists, requeues what came after it if something stays pending, lowers the next nonce, drops the heartbeat of an emptied account, touches no other account, forgets exactly that transaction |
| TxPools.TxPool.Remove | core/tx_pool.go:413-418 | the same, and the pool stays valid; no account gets a gap, and the one of the transaction loses its gap exactly if a run is left |
| TxPools.TxPool.RemoveBatch | core/tx_pool.go:421-428 | one removal after the other, with the accounts that have gaps after each; exactly these transactions are no longer known |
| TxPools.TxPool.RemoveEach | core/tx_pool.go:594-607 | the removals of an account in turn; its queue entry is there until the last one |
| TxPools.TxPool.DemoteUnexecutables | core/tx_pool.go:615-653 | every account keeps the executable front of its pending list; what comes after an unpayable transaction is queued; exactly the stale and unpayable pending transactions are no longer known |
| TxPools.TxPool.PromoteAccount | core/tx_pool.go:487-523 | stale and unpayable queued transactions go, ready ones become pending, the lowest 64 of the rest stay; the next nonce follows the highest new one and a new one renews the heartbeat; exactly the queued transactions that are then listed nowhere are no longer known |
| TxPools.TxPool.PromoteExecutables | core/tx_pool.go:474-610 | every account is promoted; pending above 4096 is levelled; queued above 1024 is dropped; all of it account by account, with next nonces, heartbeats and known transactions |
| TxPools.TxPool.EvictPending | core/tx_pool.go:525-577 | replaces the pending lists by their water-filled selves; gap-free exactly if nobody is eligible |
| TxPools.TxPool.LimitQueue | core/tx_pool.go:578-609 | empties accounts from the latest heartbeat on, at most one in part; 1024 and what is queued again stay queued; exactly the dropped transactions are forgotten |
| TxPools.PopLatest | core/tx_pool.go:580-590 | an account with the latest heartbeat comes next |
| TxPools.TxPool.DropFrom | core/tx_pool.go:594-607 | drops as many as asked or all, highest nonces first, with or without pending ones among them |
| TxPools.TxPool.Pending | core/tx_pool.go:222-236 | per account all pending transactions in nonce order, payable, and consecutive from the chain nonce if the account has no gap; which accounts have one |
| TxPools.TxPool.ResetState | core/tx_pool.go:145-171 | demotes every account for the new chain, sets next nonces, promotes again; which accounts have a gap afterwards, and how a reset takes them out of the set |
| TxPools.TxPool.Redemote | core/tx_pool.go:151-167 | demotes every account for the new chain, forgets exactly what it drops, and sets next nonces |
| TxPools.TxPool.SetPendingNonces | core/tx_pool.go:163-167 | each pending account's next nonce is one above its highest pending one |
| TxPools.TxPool.Expire | core/tx_pool.go:658-682 | exactly the accounts without a heartbeat for three hours lose all that they had queued, what is queued again stays, the other accounts are untouched; which gaps close |
| TxPools.TxPool.SetLocal | core/tx_pool.go:240-244 | marks one transaction as the set of marks does, dropping the marks that are too old |
| TxSets.TxSet.constructor | core/tx_pool.go:712-717 | no marks |
| TxSets.TxSet.Contains | core/tx_pool.go:721-724 | whether a transaction is in the set |
| TxSets.TxSet.Add | core/tx_pool.go:728-739 | adds a mark at the current time and drops those at the front that are more than two hours old |
| TxSets.TxSet.DropAged | core/tx_pool.go:734-738 | the loop drops exactly the marks up to the first that is not too old, with their hashes |
| TxSets.MarkedValid | core/tx_pool.go:728-739 | the marks stay numbered without holes and every hash in the set has a mark |
| TxSets.MarkedExactly | core/tx_pool.go:728-739 | with marks in the order of time, a hash is in the set exactly if it was in it or is added and has no mark that is too old |
| TxSets.MarkedAgainIsLost | core/tx_pool.go:728-739 | a transaction that is marked again more than two hours later is not in the set |
| ChainTypes.AncestorOfAncestor | core/headerchain.go:175-186 | ancestors of ancestors are ancestors, so chains that meet agree below |
| HeaderStore.RecordKeepsRecorded | core/headerchain.go:152-160 | recording a header keeps every total difficulty equal to the sum along its ancestry |
| HeaderStore.RecordKeepsClosed | core/headerchain.go:146-160 | recording a header with a known parent keeps the store closed under parents |
| HeaderStore.MeetAtGenesis | core/headerchain.go:180-186 | the walk back stops at the latest at height 0 |
| HeaderStore.RerouteDone | core/headerchain.go:180-191 | where the walk back stops, the whole map is the chain of the new head |
| HeaderStore.AncestorRecorded | core/headerchain.go:175-186 | all ancestors of a recorded header are recorded, so the walk back finds them |
| HeaderChains.CacheAdd | core/headerchain.go:125-127 | an added entry is there; others may be evicted but not changed |
| HeaderChains.HeaderChain.constructor | core/headerchain.go:75-116 | a chain of the genesis header alone satisfies the invariant |
| HeaderChains.HeaderChain.GetBlockNumber | core/headerchain.go:120-129 | cached and uncached numbers agree |
| HeaderChains.HeaderChain.GetTd | core/headerchain.go:346-358 | equals the uncached answer exactly unless a cached hash is asked for under a foreign number |
| HeaderChains.HeaderChain.GetTdByHash | core/headerchain.go:362-364 | the sum of difficulties for a recorded header, nothing otherwise |
| HeaderChains.HeaderChain.GetHeader | core/headerchain.go:378-390 | equals the uncached answer exactly unless a cached hash is asked for under a foreign number |
| HeaderChains.ForeignNumber | core/headerchain.go:346-390 | once cached, the genesis header and its total difficulty are found under every number, where nothing is stored |
| HeaderChains.HeaderChain.GetHeaderByHash | core/headerchain.go:394-396 | the header of a recorded hash, nothing otherwise |
| HeaderChains.HeaderChain.GetHeaderByNumber | core/headerchain.go:406-412 | the ancestor of the head at that height, nothing above it |
| HeaderChains.HeaderChain.DeleteAbove | core/headerchain.go:166-173 | deletes exactly the canonical entries above the number |
| HeaderChains.HeaderChain.Reroute | core/headerchain.go:174-191 | leaves exactly the chain of the new header; terminates |
| HeaderChains.HeaderChain.Store | core/headerchain.go:154-160 | records header, total difficulty and number, caches stay coherent |
| HeaderChains.HeaderChain.Remember | core/headerchain.go:203-204 | caching header and number stays coherent |
| HeaderChains.HeaderChain.WriteHeader | core/headerchain.go:140-207 | refuses exactly unknown parents; becomes head exactly if heavier or as heavy with the coin; keeps the map defined exactly on 0..head as its parent chain, totals right, nothing heavier than the head, caches coherent |
| HeaderChains.HeaderChain.ImportHeaders | core/headerchain.go:290-308 | over a whole import the invariant holds; exactly the headers before the first unknown parent are recorded; the head never gets lighter |
| HeaderChains.HeaderChain.SetHead | core/headerchain.go:435-468 | deletes exactly the canonical headers above the height, newest first; head, map and caches are those of the header there; terminates |
| HeaderChains.HeaderChain.SetCurrentHeader | core/headerchain.go:421-427 | head header and its stored hash |
| BlockIndex.WriteTransactions | core/database_util.go:432-469 | every transaction of the block is found at a place in it, the others are untouched |
| BlockIndex.TxDifference | core/types/transaction.go:416-431 | exactly the transactions of the first list that are not in the second |
| BlockIndex.DeleteTransactions | core/blockchain.go:1182-1185 | exactly those entries are gone |
| BlockIndex.Reindexed | core/blockchain.go:1157-1185 | after new blocks are written and the difference deleted the index is exact for the new chain |
| BlockIndex.ExtendedIndex | core/blockchain.go:979-990 | after a block on top is written the index is exact for it |
| BlockIndex.ExactMeansNoRepeats | core/database_util.go:432-469 | an index can be exact only for a chain without repeated transactions |
| BlockChains.DifferentAbove | core/blockchain.go:1131-1150 | once ancestries differ they differ at every greater height, so the first common block is the highest |
| BlockChains.BlockChain.constructor | core/blockchain.go:119-165 | a chain of the genesis block alone satisfies the invariant |
| BlockChains.BlockChain.GetBlock | core/blockchain.go:537-549 | finds a recorded block under its number, never a wrong one |
| BlockChains.BlockChain.GetBlocksFromHash | core/blockchain.go:568-580 | exactly the block of a known hash and its ancestors, down to genesis or the count |
| BlockChains.BlockChain.Reduce | core/blockchain.go:1109-1123 | walks down to the height, collecting exactly the blocks and transactions above it |
| BlockChains.BlockChain.Meet | core/blockchain.go:1131-1150 | steps both sides down to the first common block |
| BlockChains.BlockChain.Split | core/blockchain.go:1109-1150 | finds the highest common ancestor and splits both ancestries exactly; never fails in a closed store |
| BlockChains.BlockChain.Insert | core/blockchain.go:454-476 | numbers the block and makes it head; the other heads follow exactly if the number was another block's |
| BlockChains.BlockChain.InsertBranch | core/blockchain.go:1157-1176 | newest first, gives every block of the new branch its number and its index entries |
| BlockChains.BlockChain.Reorg | core/blockchain.go:1085-1185 | numbering moves from the old chain to the new one, and so does an exact index if the new chain repeats no transaction |
| BlockChains.BlockChain.WriteBlock | core/blockchain.go:801-844 | refuses exactly unknown parents; becomes head exactly if heavier or as heavy with the coin; heights up to the head hold its ancestors, nothing stored is heavier |
| BlockChains.BlockChain.InsertBlock | core/blockchain.go:975-990 | refuses exactly unknown parents; becomes head exactly if heavier or as heavy with the coin; exactly the block is recorded anew; the index holds exactly the transactions of the head's chain at their places, exactly if none repeats; the head's total difficulty never falls |
| BlockChains.RepeatedTransaction | core/blockchain.go:975-990 | a block on genesis that holds a transaction twice is accepted as the head, and no index is exact for it |
| Gas.CountIntrinsicGas | core/state_transition.go:91-113 | the byte loop computes base cost plus 68 per non-zero and 4 per zero byte |
| Gas.IntrinsicGasAppend | core/state_transition.go:91-113 | 21000 or 53000 to start with, and 68 or 4 for each further byte |
| StateTransitions.GasPool.AddGas | core/gaspool.go:27-31 | adds |
| StateTransitions.GasPool.SubGas | core/gaspool.go:35-42 | deducts exactly if there is enough |
| TransitionSpec.Conservation | core/state_transition.go:226-306 | a done message makes and loses no public wei, except that a node outside a private message neither pays back nor passes on the bought gas; nobody is overdrawn |
| TransitionSpec.PublicMessage | core/state_transition.go:180-324 | when exactly a public message goes through; then the nonce goes up by one, the pool shrinks by the reported gas, and at most half of the used gas is refunded |
| MessageLaw.Law | core/state_transition.go:226-328 | a message that runs, public or private: from the worlds before, account by account, through the run, to all balances and nonces, the report, the refund and the gas pool |
| MessageLaw.PublicBalances | core/execution.go:149-201 | the balance and nonce of every account after a public message: value from sender to receiver or created contract, fee from sender to coinbase, and what the contract moved; after an error only fee and nonce |
| MessageLaw.OutsiderLaw | core/state_transition.go:239-252 | a node outside of a private message takes the gas payment and counts the nonce, for every account and nothing else |
| MessageLaw.Refusals | core/state_transition.go:180-283 | which messages fail, and with which error |
| MessageLaw.RunsFromSome | core/execution.go:149-170 | the worlds that a message runs with exist and are unique |
| MessageLaw.FinishIs | core/execution.go:174-201 | an error, or under Homestead unpaid code, takes all gas and sets the contract's state back to before the value moved; otherwise 200 gas per byte of code |
| TransitionSpec.PrivateMessage | core/state_transition.go:239-306 | when exactly a private message without price and value goes through; then it reports no gas and changes only the sender's public nonce, called or created, succeeded or reverted, party or not |
| TransitionSpec.PublicAgreement | core/state_transition.go:239-306 | a party and an outsider that start alike end with the same public balances and nonces and the same report exactly if the gas pays for the payload |
| TransitionExamples.OutsiderLoses | core/state_transition.go:239-252 | a private call at a positive price takes the bought gas from a node outside of it |
| TransitionExamples.PartyRefuses | core/state_transition.go:239-264 | a private call without gas is turned down by a party and done, nonce counted, by an outsider |
| TransitionSpec.ExecutedFacts | core/execution.go:134-201 | a run fails for lack of value exactly if the sender cannot pay it; it makes neither gas nor wei; a creation counts one nonce even when reverted |
| TransitionSpec.FinishFacts | core/execution.go:174-201 | paying for code and reverting keep what the run kept; an error takes all gas and leaves the state as it was before the value moved |
| TransitionSpec.SettlementFacts | core/state_transition.go:297-324 | leftover, refund and fee add up to the gas bought; refund is at most half of the used gas |
| StateTransitions.StateTransition.CurrentState | core/execution.go:44-57 | the private state unless only the public one knows the address |
| StateTransitions.StateTransition.CreateAddressAndIncrementNonce | core/execution.go:68-83 | the public nonce of the sender goes up by one; the address comes from the old one |
| StateTransitions.StateTransition.RunContract | core/execution.go:149-201 | prepares, runs and finishes as the value functions say, in the right one of the two states |
| StateTransitions.StateTransition.Exec | core/execution.go:134-201 | computes the execution of the value model, public and private state being one object or two |
| StateTransitions.StateTransition.From | core/state_transition.go:148-165 | the sender's account is there afterwards |
| StateTransitions.StateTransition.UseGas | core/state_transition.go:167-174 | deducts exactly if there is enough |
| StateTransitions.StateTransition.BuyGas | core/state_transition.go:180-198 | the sender pays price times gas, the pool gives the gas; errors in order and without taking from the pool |
| StateTransitions.StateTransition.PreCheck | core/state_transition.go:200-223 | sender, nonce, balance and pool are checked in this order |
| StateTransitions.StateTransition.RefundGas | core/state_transition.go:308-324 | pays back leftover gas and the capped refund, and returns both to the pool |
| StateTransitions.StateTransition.Conclude | core/state_transition.go:266-305 | fails for lack of value, otherwise settles with sender, coinbase and pool |
| StateTransitions.StateTransition.Perform | core/state_transition.go:257-305 | intrinsic gas, run and settlement |
| StateTransitions.StateTransition.Proceed | core/state_transition.go:239-305 | an outsider only counts the nonce; a party counts the nonce of a call first and performs the payload |
| StateTransitions.StateTransition.TransitionDb | core/state_transition.go:226-306 | outcome, both states and the pool are exactly those of the value transition |
| StateProcessor.ApplyTransaction | core/state_processor.go:97-141 | refuses gas prices above 0; otherwise the transition, with closed refund counters, cumulative and own gas in the receipts, no wei made or lost and the gas taken from the pool |
| StateProcessor.AppliedFacts | core/state_processor.go:97-141 | a done transaction without gas price conserves wei, raises the nonce by one and takes its gas from the pool |
| StateProcessor.AccumulateRewards | core/state_processor.go:147-161 | each account gets 5/8 ether times eight less the depth for each uncle it mined, the coinbase five ether and 1/32 of it per uncle, nobody else anything; mints exactly that |
| StateProcessor.Process | core/state_processor.go:58-89 | error, receipts, gas and both states are those of the transactions in turn up to the first error, then each account's rewards; gas used stays within the block's limit, receipts account for it, private receipts are those of private transactions, and the only new wei are the rewards |
| StateProcessor.ProcessAll | core/state_processor.go:70-86 | the loop over the transactions computes the value model |
| StateProcessor.PlayFacts | core/state_processor.go:70-86 | along the transactions of a block receipts account for the gas, what is used and what is left is within the limit, nobody is overdrawn and no public wei is made or lost |
| BlockAgreement.PublicAlike | core/state_transition.go:226-306 | nodes with the same public view take a public message alike, unless the gas pool of one has run out |
| BlockAgreement.StepAlike | core/state_processor.go:97-141 | after one node took a transaction, another in step with it takes it exactly if its own gas pool and payload allow, otherwise with which error |
| BlockAgreement.BlockAgreed | core/state_processor.go:58-89 | a block that one node accepts is accepted by another exactly if its gas pool and payloads allow each transaction |
| BlockAgreement.SameBlock | core/state_processor.go:58-89 | two nodes that both accept a block have the same receipts, the same gas used and, with the rewards, the same public balances and nonces |
| BlockAgreement.OutsiderAccepts | core/state_processor.go:58-89 | a node outside of all private transactions accepts a block that another node accepted exactly if it fits the gas limit with all private gas counted as used, a test on the block and its receipts |
| BlockAgreement.PartyAccepts | core/state_processor.go:58-89 | a block that such an outsider accepted is accepted by any node exactly if the gas pays for the payloads the node holds |
| TransitionExamples.PartyPays | core/execution.go:149-201 | a private call with value to an account that only the public state knows: a party moves the value there, an outsider does not |
| TransitionExamples.OneNodeAccepts | core/state_processor.go:58-89 | a private call and a public one that a party accepts and an outsider rejects for lack of gas |
| StateProcessor.DeriveGasUsed | core/blockchain.go:704-709 | fills in differences of cumulative gas |
| StateProcessor.ReceiptsRecovered | core/blockchain.go:704-709 | differencing gives every receipt of a processed block back |
| StateProcessor.TotalIsSum | core/state_processor.go:58-89 | the total is the sum of the receipts' gas |
| Consensus.DifficultyBounds | core/block_validator.go:392-478 | without the exponential term difficulty falls by at most 99/2048 (1/2048 before Homestead) of the parent's, down to the minimum, and rises by at most 1/2048 unless a truncated time is before the parent's |
| Consensus.TenSecondsLater | core/block_validator.go:400-446 | under Homestead ten more seconds lower the difficulty by exactly 1/2048 of the parent's, down to the minimum, until a thousand seconds have passed |
| Consensus.DifficultyByTime | core/block_validator.go:400-446 | within ten seconds it is the parent's and 1/2048 of it, after a thousand the parent's less 99/2048, down to the minimum and the exponential term on top |
| Consensus.SameTenSeconds | core/block_validator.go:400-446 | it depends on whole tens of seconds only |
| Consensus.DifficultyBeforeHomestead | core/block_validator.go:448-479 | before Homestead it goes up by 1/2048 below 13 seconds and down by as much from there |
| Consensus.DifficultyFallsWithTime | core/block_validator.go:391-479 | a later block never has a higher difficulty |
| Consensus.BombDoubles | core/block_validator.go:433-443 | the exponential term is nothing below height 200000, 1 there, and doubles every 100000 blocks |
| Consensus.HeaderRules | core/block_validator.go:278-326 | an accepted header is exactly one that keeps all rules; an error names a rule that is broken |
| Consensus.NumbersAndTimes | core/block_validator.go:278-326 | along accepted headers numbers rise by one, times strictly, and difficulty is at least the minimum |
| Consensus.TotalDifficultyRises | core/block_validator.go:278-326 | along accepted headers total difficulty rises by at least the minimum per block |
| Consensus.GasLimitDrift | core/block_validator.go:311-319 | after n blocks the gas limit is within (4095/4096)^n and (4097/4096)^n of the first |
| Consensus.GeneratorMeetsValidator | core/block_validator.go:483-511 | the generated gas limit passes the validator whenever the parent kept to an allowed limit |
| Consensus.GasLimitMoves | core/block_validator.go:483-511 | the proposed limit rises exactly if two thirds of the limit, in whole 4096ths, were used, falls exactly if less than one 4096th below that and the limit is not at its minimum, and a higher target pulls it up as far as the validator allows |
| Consensus.GeneratedHeader | core/chain_makers.go:227-244 | a generated header is ten seconds after its parent, so its difficulty stays but for the minimum and the exponential term |
| Consensus.GeneratedAccepted | core/chain_makers.go:227-244 | the generated header, finished in any allowed way, passes all checks under the generator's configuration exactly if the wall clock does not object |
| Consensus.OffsetKeepsFilled | core/chain_makers.go:158-167 | moving the time of a generated block keeps it acceptable |
| Consensus.GenerateChain | core/chain_makers.go:181-225 | whole generated chains are linked, and accepted exactly if the wall clock never objects |
| Uncles.Collect | core/block_validator.go:218-229 | the ancestor map and uncle set hold exactly the recent blocks, their uncles and the block |
| Uncles.CheckUncle | core/block_validator.go:230-254 | one uncle passes exactly if it is new, no ancestor, a child of an ancestor other than the parent, and valid |
| Uncles.CheckUncles | core/block_validator.go:212-257 | accepts exactly at most two distinct uncles that all pass against the given blocks |
| Uncles.CheckedIsProper | core/block_validator.go:212-257 | passing against the last seven ancestors is exactly being no ancestor at any height, no uncle of the last seven, one to six heights below, and a valid child of an ancestor |
| BlockValidator.VerifyUncles | core/block_validator.go:212-257 | with the ancestors fetched from the chain, accepts exactly at most two distinct proper uncles |
| BlockValidator.ValidateBlock | core/block_validator.go:81-104 | accepts exactly blocks on a known parent with a valid header and proper uncles; these mint at most 45/16 of the block reward |
| Uncles.UncleRewardAt | core/state_processor.go:151-155 | an uncle's reward is 5/8 ether times eight less its depth |
| Uncles.UncleRewardRange | core/state_processor.go:151-155 | their reward is 2/8 to 7/8 of the block reward |
| Uncles.MintedBound | core/state_processor.go:147-161 | a block with proper uncles mints at most 45/16 of the block reward |
| Icap.Base36Encode | common/icap.go:159-175 | base 36 without superfluous leading zeros |
| Icap.AlphabetIs | common/icap.go:29 | digits and characters are positions in the alphabet 0-9A-Z |
| Icap.OrderedAsStrings | common/icap.go:159-175 | numbers of equally many digits are in the order of their strings |
| Icap.PrintedInOrder | common/icap.go:79-87 | printed addresses of the same length are in the order of their numbers |
| Icap.ReverseChars | common/icap.go:170-173 | reverses |
| Icap.Iso13616Expand | common/icap.go:143-157 | expands letters to two digits, refuses other characters |
| Icap.ExpandedCharacter | common/icap.go:143-157 | a digit stands for itself, a letter for the decimal literal of its character code less 55 |
| Icap.ExpansionConcat | common/icap.go:143-157 | strings are expanded character by character |
| Icap.CheckDigitsComplete | common/icap.go:129-140 | with the check digits, two decimal digits from 02 to 98, the number leaves remainder 1 modulo 97 |
| Icap.AddressToICAP | common/icap.go:79-87 | 34 or 35 characters that are read back as the same address |
| Icap.PrintUnique | common/icap.go:79-87 | an address has one printed form |
| Icap.AcceptedExactly | common/icap.go:39-77 | which strings are accepted, which address they are read as, and the errors for length, country code and asset |
| Icap.AcceptedIsPrinted | common/icap.go:39-63 | an accepted string is the printed form of what it is read as exactly if its check digits are the computed ones, its number fits 160 bits and it has no superfluous zero |
| Icap.ReadBack | common/icap.go:39-63 | any padded base-36 form with check digits is read back |
| IcapErrors.SubstitutionDetected | common/icap.go:116-127 | one wrong character of the same class is always detected, at any length |
| IcapErrors.TranspositionDetected | common/icap.go:116-127 | at any length and position two swapped different neighbours of the same class are detected, except exactly across the seam of the rotation with a multiple of 96 decimal digits behind |
| IcapErrors.SwapDetected | common/icap.go:116-127 | at the lengths of ICAP strings every such swap is detected |
| IcapErrors.AddressSwapRefused | common/icap.go:39-63 | an accepted address with two such neighbours swapped is refused, with the right error |
| IcapErrors.AddressTypoRefused | common/icap.go:39-63 | an accepted address with one wrong character of the same class is refused, with the right error |
| IcapErrors.OrderOfTen | common/icap.go:116-127 | powers of ten leave 1 modulo 97 exactly every 96 |
| IcapErrors.TailsAgree | common/icap.go:116-157 | strings that differ only in front, by no multiple of 97, leave different remainders, because powers of ten are invertible |
| Icap.NumberIsWeighted | common/icap.go:122-123 | the expanded decimal literal denotes the weighted sum of the characters |
| AccountManager.StepKeeps | accounts/account_manager.go:194-272 | every step keeps the invariant |
| AccountManager.UnlockEffect | accounts/account_manager.go:214-240 | an unlock for good stays; otherwise the address gets a new key, with an open channel and an expiry exactly if timed, the old key's channel is closed and nothing else changes |
| AccountManager.LockEffect | accounts/account_manager.go:194-204 | Lock starts an expiry for the key it found; when that fires, exactly this key is zeroed and its address locked |
| AccountManager.TimedUnlockEnds | accounts/account_manager.go:214-272 | a timed unlock that nothing disturbs ends with the key zeroed and the address locked |
| AccountManager.EveryRun | accounts/account_manager.go:194-272 | in every interleaving no channel is closed twice, every timed entry has a live expiry of its own, no key in the map was zeroed, and a key that left it was zeroed unless replaced |
| AccountManager.IndefiniteOnlyByLock | accounts/account_manager.go:194-240 | a key unlocked for good leaves only through an expire that Lock called for that very key |
| AccountManager.FinishedForGood | accounts/account_manager.go:194-272 | once an expire has finished, through either branch, its key is never in the map again; so a Lock that returns keeps its promise |

## Left out

- Nonce 2^64 - 1: listed nonces are below it, so that the next nonce does not wrap.
- Block numbers and amounts beyond 64 bits are mathematical integers, except the timestamps that the difficulty formula truncates.
- TxPools.TxPool.RemoveTx: the entry in the table of known transactions is deleted last instead of first, under one lock.
- TxSets.TxSet.Add: the two counters of marks do not wrap at 2^64.
- Equalize.PopLongest: the priority queue's float32 priorities are exact here.
- Equality of the table of known transactions with the listed ones: eviction and failed re-queueing leave entries, so only containment holds.
- HeaderChains.HeaderChain.WriteHeader: the invariant is about runs without SetHead, which may leave side headers without their parents; a misnumbered header, which the code takes if the total difficulty of its parent is cached, is excluded.
- HeaderChains.HeaderChain.constructor: starts from a genesis header instead of loading a database.
- BlockChains.BlockChain.WriteBlock: stale canonical entries above the head may stay; misnumbered blocks are excluded as for headers.
- Head header equal to head block after a reorganisation, which does not hold.
- Headers without bodies (fast sync), receipts storage, bloom filters, logs and events of the chain.
- BlockValidator.ValidateBlock: does not look for known blocks, state and root hashes.
- ValidateState and signatures in headers; the concurrent verification before a header import, and interrupts.
- StateTransitions.StateTransition.RunContract: the virtual machine itself, code, storage, nested calls and the read-only flag are behind its contract.
- Aliasing of big integers, such as the shared zero that gas is set to.
- Public state roots: agreement between nodes is about balances, nonces and receipts' gas, not about empty accounts, storage and logs; public runs are assumed not to tell empty accounts from missing ones (`SamePublicly`).
- When nodes agree on private transactions that carry a value: a party may move it on the public state, an outsider never does (`PartyPays`).
- AddressToIndirectICAP, which is not implemented in the repository either.
- Key files, the account cache, networking, the console and everything else outside core, common/icap.go and accounts/account_manager.go.

# Verified model of the Bullions core

Bullions is a fork of core-geth. This project models the parts of it whose correctness rests on
invariants that span many methods, and proves those invariants for every input, every run and every
interleaving the code allows:

- **The transaction pool** (`core/tx_pool.go`, `core/tx_list.go`, `core/tx_noncer.go`). The same
  transactions live in pending lists, queues, a lookup with a slot counter and a lazily cleaned price
  heap. `Pool.TxPool.Run` proves that every sequence of submissions, withdrawals, price changes,
  expiries and background runs, new chain heads included, keeps the four in agreement. As long as no
  head sets an account's nonce back, its pending nonces start at the chain's nonce, have no gap and,
  if there are any, end at the virtual nonce, and every pending transaction is payable. After every
  move everything pending is executable on the new state. Truncation is proved to be fair: it
  computes a common water level. What a new head makes of each account's two lists is told from the
  nonces alone, and what the pool admits at an account's next nonce, a block with room for it executes.
- **The canonical chain** (`core/headerchain.go`, `core/blockchain.go`, `core/blockchain_af.go`,
  `eth/handler.go`, `core/evm.go`). The number index, total difficulties, transaction lookup and head
  markers are proved to follow the block tree through writes, rewinds and reorganisations; fast
  ancestor lookups are proved to agree with plain parent walks; the finality curve is analysed exactly.
- **The chain indexer** (`core/chain_indexer.go`) as a state machine whose background job runs without
  the lock while the chain moves: one canonical last head vouches for all sections.
- **The event feed** (`event/feed.go`): exactly-once delivery while subscriptions come and go.
- **Gas and ether** (`core/state_transition.go`, `core/state_processor.go`, `core/gaspool.go`): the
  pool, the receipts and the balances account for every unit.

Objects the source updates in place are classes; loops are loops. A class is proved against plain
values (`List.ListState`, `Rebuilding.Rebuilt`, `Submission.Judged`, `Indexer.Stepped`, `Chain.At`,
`Reorg.Where`, `Feed.Play`, `Gas.Advanced`, ...), and the laws the source relies on are proved about
those values. Every `Run` is tied to such a description step by step.

Conventions of the model:

- Hashes are collision free, so blocks and transactions stand for their hashes; a block carries its
  parent. The sender is a field of a transaction.
- A region the source holds a lock for is one step; the pool's clock stands still during one. Channel
  choices, coin flips, cache evictions and concurrent callers are arbitrary values or further steps.
- The virtual machine is a function from state, message and gas to a new state, a refund counter and
  no more gas than it was given. The chain state the pool reads is a pair of functions.
- Counters are unbounded except where 64-bit behaviour matters: intrinsic gas, the gas pool, header
  query heights and amounts, block hash heights and the fork age are computed with their wrap-arounds.
- The body-level order of checks, the constants and the error cases follow the code. Where a comment
  in the source says something else, the code wins: `txSortedMap.Ready` returns the consecutive run
  from the smallest nonce, provided that nonce is not beyond the given start.

## What the code does not keep

Eight statements one would expect turn out not to hold; each has an example and the exact condition.

- *Pending nonces have no gap after a new head.* `PoolRuns.GapExample` is a run that ends with one.
  `Demotion.ResetContiguity` gives the condition for one account. `Pool.TxPool.MoveTo` and `RunReorg`
  carry it through the whole run, on the lists and virtual nonces that reinjection leaves, and say
  what reinjection does to those: nothing but cuts of tails, and nothing at all if there is room. A
  chain nonce that is not set back is always enough.
- *The virtual nonce is never behind the chain's.* A reinjection into a full pool may discard a
  pending transaction that the new head already holds, and that lowers the fresh virtual nonce.
  `PoolRuns.LagExample` is such a run. `Pool.TxPool.RunReorg` says that the virtual nonce ends behind
  the chain's if and only if reinjection cut a pending nonce below the chain's, and that an account
  ends in order if and only if it is gapless and no such nonce was cut. Nothing of an account that
  lags can be promoted until the next head (`Promotion.PromoteBehind`), and a next head that reinjects
  within the capacity and does not set it back puts it in order.
- *A new head promotes what continues the pending nonces.* It starts from fresh virtual nonces and
  promotes a queued transaction if and only if all nonces from the chain's up to its own are queued
  (`Rebuilding.FreshRun`). With the chain's nonce pending, the queue hands over nothing
  (`Rebuilding.PendingStays`); `PoolRuns.PassedOverExample` is such a run.
- *A rejected submission changes nothing.* A full pool discards before it compares a replacement with
  the holder of its nonce, so that a refused replacement still pushes out others.
  `PoolRuns.RefusedExample` is such a run. `Submission.RejectionIff` and `Pool.TxPool.Add` say that a
  rejection leaves the pool as it was if and only if it is of another kind, or the pool was not full,
  or it held local transactions only.
- *Nothing is indexed above the new head after a reorganisation.* `Blockchain.StaleIndexExample` shows
  a stale entry; `Blockchain.BlockChain.WriteBlockWithState` and `WriteKnownBlockAsHead` state that it
  happens exactly when the new branch is a single block lower than the old head.
- *Header replies are spaced as asked.* True from a hash. From a number, `Query.HeadersByNumber` and
  `Query.SpacedIff` say that the reply is spaced as asked if and only if no height wraps within it,
  which the query and the height of the chain tell beforehand. `Query.RepeatedHeaderExample` is a
  reply that repeats one header.
- *A discard allocates its lists.* `Priced.TxPricedList.Discard` returns nothing exactly when one of
  the two lists would be allocated with a negative capacity, which is a panic in the source: without
  local accounts, when more slots are to be freed than the heap has entries. `Pool.TxPool.EnsureRoom`
  and `Add` carry the condition to submissions; `PoolRuns.AllocationExample` is a run that ends there.
- *A discard frees the slots asked for or takes all remote transactions.* The code counts heap
  entries. A transaction that left and came back before its old entry was cleaned up is counted twice
  (`PriceRoom.RepeatExample`), and with local accounts the request is cut to the number of remote
  entries (`PriceRoom.CutExample`). `Priced.TxPricedList.Discard` gives the exact condition on the heap
  before the call, and `Pool.TxPool.EnsureRoom` the same for the capacity of the pool.
  `PriceRoom.RoomForEveryRequest` and `RoomForAnyExcess` say which heaps serve every request. A heap
  without repeats and a request that is not cut are always served (`PriceRoom.RoomWithoutRepeats`).

Two more observations: a move of the head to a block on its own path is reported as impossible, and
the report itself reads blocks that were never set (outcome `Crashed`); and a message rejected after
buying gas leaves that gas missing from the block's pool (`Gas.StateTransition.TransitionDb`).

## Model

| member | source | states |
|---|---|---|
| Heap.RootIsLeastAll | core/tx_list.go:31-48 | the root of a heap ranks no higher than any entry, which is what popping the next nonce or the cheapest price relies on |
| Heap.Pop | core/tx_list.go:428-439 | popping returns a least entry and leaves a heap holding exactly the others |
| Heap.Remove | core/tx_list.go:168-185 | removing at any index leaves a heap holding exactly the other entries |
| Heap.Init | core/tx_list.go:114-121 | rebuilding makes a heap of exactly the given entries |
| Heap.OrderSorted | core/tx_list.go:566-580 | emptying a heap lists its entries least first |
| TxTypes.SortedUnique | core/tx_list.go:216-226 | there is only one listing of a nonce map in nonce order, so a cache that is one is the contents |
| TxTypes.LowestFacts | core/tx_list.go:143-164 | what a cap keeps: the given number of transactions, all with lower nonces than those it drops |
| TxTypes.RunFacts | core/tx_list.go:194-209 | the ready run is consecutive and the nonce after it is missing |
| SortedMap.TxSortedMap.Put | core/tx_list.go:73-79 | the map gains the transaction under its nonce, heap and cache stay in step |
| SortedMap.TxSortedMap.Forward | core/tx_list.go:84-98 | exactly the nonces below the threshold leave, returned in nonce order; the shifted cache is still the sorted contents |
| SortedMap.TxSortedMap.Filter | core/tx_list.go:105-139 | exactly the matching transactions leave; the heap is rebuilt and the cache dropped when any did |
| SortedMap.TxSortedMap.Cap | core/tx_list.go:143-164 | exactly the highest nonces beyond the limit leave, highest first; the cut cache is still the sorted contents |
| SortedMap.TxSortedMap.Remove | core/tx_list.go:168-185 | only the given nonce leaves, found or not |
| SortedMap.TxSortedMap.Ready | core/tx_list.go:194-209 | the consecutive run from the smallest nonce leaves, in nonce order, if it does not start beyond the given nonce |
| SortedMap.TxSortedMap.Flatten | core/tx_list.go:216-237 | the cached or freshly sorted answer is the contents in nonce order |
| SortedMap.TxSortedMap.LastElement | core/tx_list.go:241-244 | the transaction with the highest nonce |
| List.AddKeepsCaps | core/tx_list.go:279-304 | after an addition the cost and gas caps still bound every transaction |
| List.ReplacesExact | core/tx_list.go:280-294 | the price bump without its rounding; no transaction is replaced by one it could replace |
| List.FilterExact | core/tx_list.go:322-351 | despite the short circuit on the caps, a filter removes exactly the unpayable transactions and splits the list into removed, invalidated and kept |
| List.RemoveContiguous | core/tx_list.go:362-373 | removing from a gapless strict list keeps the nonces below and invalidates those above |
| List.FilterContiguous | core/tx_list.go:322-351 | filtering a gapless strict list leaves a gapless prefix |
| List.CapContiguous | core/tx_list.go:355-357 | capping a gapless list leaves a gapless prefix of the given length |
| List.ForwardContiguous | core/tx_list.go:309-311 | forwarding a gapless list leaves a gapless suffix |
| List.TxList.Add | core/tx_list.go:279-304 | the object refines the value: replaced only by a price above the old one and at or above the bump threshold |
| List.TxList.Filter | core/tx_list.go:322-351 | the object refines the value, removed and invalidated parts included |
| List.TxList.Remove | core/tx_list.go:362-373 | the object refines the value, invalidated transactions included in strict mode |
| Noncer.TxNoncer.Get | core/tx_noncer.go:45-55 | reading caches the chain's nonce without changing any virtual nonce |
| Noncer.TxNoncer.SetIfLower | core/tx_noncer.go:68-79 | the virtual nonce becomes the smaller of the two, others stay |
| Trimming.LoweredIff | core/tx_pool.go:905-921 | a virtual nonce falls exactly when a pending nonce below it was cut |
| Trimming.TrimmedContiguous | core/tx_pool.go:889-934 | cutting tails leaves a gapless pending list gapless from the same nonce |
| Trimming.PrunedTwice | core/tx_pool.go:889-934 | removals one after the other leave the pending nonces below the lowest transaction removed |
| Priced.TxLookup.Add | core/tx_pool.go:1597-1605 | the slot counter stays the sum of the slots of what is held |
| Priced.TxLookup.Remove | core/tx_pool.go:1608-1616 | only a held transaction is removed, and the slot counter follows |
| Priced.StalesNeverUnderstated | core/tx_list.go:443-480 | the stale counter is never below the number of stale heap entries, hence never negative |
| Priced.NoDearerIff | core/tx_list.go:416-426 | the heap order: cheaper first, and among equal prices the higher nonce |
| Priced.TxPricedList.Removed | core/tx_list.go:465-480 | counting departures, with or without a rebuild, keeps every pooled transaction in the heap |
| Priced.TxPricedList.Cap | core/tx_list.go:484-511 | drops exactly the pooled remote transactions priced below the threshold |
| Priced.TxPricedList.Underpriced | core/tx_list.go:515-537 | agrees with a scan of the whole pool for the lowest price |
| Priced.TxPricedList.Discard | core/tx_list.go:541-585 | drops the pooled remote transactions in heap order, cheapest first, until their entries count for what is wanted; the slots asked for are free or no remote one is left if and only if the heap allows it; fails exactly when a list cannot be allocated |
| Priced.RoomIff | core/tx_list.go:541-585 | dropping by heap entries frees the slots asked for, or everything remote, exactly when ahead of every new candidate the entries that suffice stand for enough slots |
| PriceRoom.RoomWithoutRepeats | core/tx_list.go:541-585 | one entry per pooled transaction and an uncut request: room is made |
| PriceRoom.RoomForEveryRequest | core/tx_list.go:566-580 | room is made for every request up to a limit exactly when no repeated entry inflates the count short of it |
| PriceRoom.RoomForAnyExcess | core/tx_list.go:543-559 | a request cut to the number of entries is served, however large, exactly when all candidates go |
| PriceRoom.DiscardTwice | core/tx_list.go:566-580 | a cheapest transaction with two entries is dropped twice, and one slot is freed where two were asked for |
| PriceRoom.RepeatExample | core/tx_list.go:443-480 | a concrete history that leads there: four transactions enter, the cheapest leaves and enters again |
| PriceRoom.CutExample | core/tx_list.go:543-559 | a concrete call with a local account that frees too little and leaves a remote transaction |
| Intrinsic.IntrinsicGas | core/state_transition.go:107-141 | the 64-bit computation yields the exact price, or overflow exactly when it does not fit |
| Intrinsic.EmptyCost | core/state_transition.go:107-115 | the price of a message without data, with and without EIP-2 |
| Intrinsic.ByteCost | core/state_transition.go:116-141 | every byte adds its own price, wherever it stands, with and without EIP-2028 |
| PoolModel.NonceTells | core/tx_pool.go:889-934 | a pooled transaction's nonce tells which list holds it, because pending and queued nonces of an account are disjoint |
| PoolModel.RemovePending | core/tx_pool.go:889-934 | taking out a pending transaction and sending back those above it keeps all structures in agreement |
| Promotion.PromoteContiguous | core/tx_pool.go:1204-1265 | what becomes ready continues the pending nonces without a gap |
| Promotion.AccountPayable | core/tx_pool.go:1204-1265 | what promotion makes ready can be paid for, so payable pending lists stay payable |
| Promotion.PromoteKeepsContiguity | core/tx_pool.go:1204-1265 | promotion extends the pending interval to the nonce after the last promoted one |
| Promotion.PromoteBehind | core/tx_pool.go:1204-1265 | nothing is promoted for an account whose virtual nonce is below the chain's |
| Promotion.PromoteNext | core/tx_pool.go:1204-1265 | the chain's next nonce, queued and payable, is promoted |
| Demotion.DemoteKeeps | core/tx_pool.go:1402-1450 | demotion keeps the current transactions up to the first unpayable one, or none when the chain's next nonce is missing |
| Demotion.DemoteNothing | core/tx_pool.go:1402-1450 | demotion leaves a gapless payable list that starts at the chain's nonce as it is |
| Demotion.ResetContiguity | core/tx_pool.go:1063-1090 | promotion from the nonce a reset leaves, then demotion: the account's pending nonces come out gapless if and only if the lists before the two passes make the reset safe |
| Demotion.RebuiltBehind | core/tx_pool.go:1063-1090 | a virtual nonce below the chain's, with only older nonces pending: the two passes leave nothing pending |
| Demotion.ResetGapExample | core/tx_pool.go:1402-1450 | concrete lists on which the two passes of a new head leave a gap |
| Totals.TotalOf | core/tx_pool.go:1355-1362 | the counting loop computes the sum of the list lengths |
| Fairness.CutTotal | core/tx_pool.go:1270-1352 | lists cut at a level hold exactly the total of the lengths capped at that level |
| Fairness.FairLimits | core/tx_pool.go:1270-1352 | a fair cut respects the global limit, or every remote account is within its guaranteed slots |
| Reinjection.Reinjected | core/tx_pool.go:1115-1174 | what a new head returns to the pool is exactly what the old chain held and the new one does not, latest block first; gives up if and only if the old head is unknown or a block above the meeting point is missing |
| Reinjection.ComparedIff | core/tx_pool.go:1119-1125 | chains are compared unless the new head extends the old one or more than sixty-four heights lie between them |
| Reinjection.RootedMeet | core/tx_pool.go:1147-1172 | chains known down to a shared root meet, so the walk does not give up |
| Reinjection.OnlyOnOld | core/tx_pool.go:1147-1172 | comparing above the fork decides membership on the whole paths |
| Pool.TxPool.constructor | core/tx_pool.go:258-310 | a new pool is consistent, and the pending interval of every account is empty and exact |
| Pool.TxPool.ValidateTx | core/tx_pool.go:526-568 | accepts exactly the transactions that meet the size, value, gas, price, nonce, funds and intrinsic gas rules, and names the first of these that is broken otherwise |
| Submission.RejectionIff | core/tx_pool.go:577-651 | a rejection leaves the pool as it was if and only if it is no refused replacement, or the pool was not full, or held local transactions only |
| Submission.JudgedFacts | core/tx_pool.go:577-651 | of every submission: pooled exactly if added, nothing else enters, and besides the holder of its nonce only remote transactions leave, none dearer than a remote one kept |
| Submission.DiscardsNone | core/tx_pool.go:592-606 | making room discards something exactly when the pool is full and holds a remote transaction |
| Submission.SameLocals | core/tx_pool.go:839-851 | a series of remote submissions makes no account local |
| Pool.TxPool.Add | core/tx_pool.go:577-651 | the outcome and the transactions left are those the rules and the stock before determine, for every kind of rejection and for replacement; which rejections leave the pool as it was; what stays pending, and where the new one goes; besides the replaced one only remote transactions leave, none dearer than a remote one kept; nonce intervals stay |
| Pool.TxPool.Insert | core/tx_pool.go:626-651 | pending or queued by its nonce; a holder of the nonce is replaced exactly when outbid by the bump, otherwise nothing changes |
| Pool.TxPool.EnsureRoom | core/tx_pool.go:592-606 | below the limit nothing happens; a full pool turns away exactly the cheap remote ones, fails exactly when the discard cannot allocate, and otherwise gives up exactly what the heap yields; it has room then, or only local transactions left, if and only if the heap allows it |
| Pool.TxPool.MakeRoom | core/tx_pool.go:600-605 | discards exactly what the heap gives up for the missing slots, and has room afterwards if and only if the heap allows it |
| Pool.TxPool.EnqueueTx | core/tx_pool.go:656-686 | puts a new or demoted transaction into the queue; a demoted one is never refused |
| Pool.TxPool.PromoteTx | core/tx_pool.go:704-739 | a promoted transaction always enters the pending list: no older one with its nonce is in the way |
| Pool.TxPool.RemoveTx | core/tx_pool.go:889-934 | only this transaction leaves the pool; pending ones above it return to the queue; nonce intervals stay |
| Pool.TxPool.SetGasPrice | core/tx_pool.go:426-435 | exactly the remote transactions below the new floor leave, and pending lists keep what lies below the lowest of them |
| Pool.TxPool.PromoteExecutables | core/tx_pool.go:1204-1265 | each given account changes as promotion says, all others stay, and nonce intervals stay intervals |
| Demotion.DemoteExecutable | core/tx_pool.go:1402-1450 | whatever demotion leaves pending is current, payable and starts at the chain's next nonce |
| Rebuilding.PromoteIs | core/tx_pool.go:1204-1265 | promotion hands over exactly the unbroken payable run from the least current nonce that the virtual nonce reaches, and keeps exactly the other current ones up to the limit |
| Rebuilding.DemoteIs | core/tx_pool.go:1402-1450 | demotion keeps exactly the current transactions before the first unpayable one, if the chain's nonce is among them, and returns exactly the other current ones |
| Rebuilding.RebuiltBy | core/tx_pool.go:1063-1090 | promotion then demotion: both lists of an account afterwards, told from the nonces before |
| Rebuilding.NothingLost | core/tx_pool.go:1063-1090 | whatever is current and payable is pending or queued afterwards, unless it waits beyond the limit of its queue; nothing else is kept |
| Rebuilding.QueueTakesOver | core/tx_pool.go:1063-1090 | at a new head, with only older nonces pending, exactly the payable run of the queue from the chain's nonce becomes pending |
| Rebuilding.PendingStays | core/tx_pool.go:1063-1090 | at a new head, with the chain's nonce pending, exactly the payable pending ones from it on stay, and the queue hands over nothing |
| Rebuilding.FreshRun | core/tx_pool.go:1230-1237 | at a new head a queued transaction is promoted if and only if all nonces from the chain's up to its own are queued and payable |
| Pool.TxPool.DemoteUnexecutables | core/tx_pool.go:1402-1450 | each account changes as demotion says, all pending transactions can be executed on the current state, and the structures stay in agreement |
| Pool.TxPool.TruncatePending | core/tx_pool.go:1270-1352 | a water level at or above the guaranteed slots: remote accounts keep their lowest nonces up to it, locals everything; the limit holds unless the level is the guarantee; one level higher would break the limit |
| Pool.TxPool.TruncateQueue | core/tx_pool.go:1355-1397 | above the limit it ends exactly at the limit or with local accounts only; latest active accounts go first, at most one is cut part way and loses only its highest nonces, pending lists are untouched |
| Pool.TxPool.AddAll | core/tx_pool.go:839-851 | one submission after the other, each judged by what is held at that point; the dirty accounts are those that gained one without replacing; pending lists lose at most tails, and nothing if all fit |
| Pool.TxPool.Reset | core/tx_pool.go:1115-1199 | a new state; every transaction to reinject is submitted, each judged by what is held at that point; from fresh virtual nonces each becomes the least of the chain's and of the pending nonces cut, and pending lists lose nothing but those tails |
| Pool.TxPool.HeadArrives | core/tx_pool.go:334-343 | a head event turns rules on and never off, before the pool moves; intervals stay |
| Pool.TxPool.MoveTo | core/tx_pool.go:1063-1090 | reset and rebuild: both lists of every account as the rebuild determines them from what reinjection left; everything pending is executable; an account comes out gapless if and only if the reset was safe, in particular if its nonce was not set back; it lags if the reset left its virtual nonce below the chain's |
| Pool.TxPool.Rebuild | core/tx_pool.go:1063-1090 | for every account, with something pending or not, both lists are those the rebuild determines; pending nonces come out gapless if and only if the reset was safe for it |
| Pool.TxPool.Tidy | core/tx_pool.go:1084-1093 | the fair cut and the eviction in one go: limits hold, virtual nonces are one past the last pending one, intervals and executability stay |
| Pool.TxPool.RunReorg | core/tx_pool.go:1048-1111 | without a new head exactly the dirty accounts are promoted; unless the pool moves, intervals and payability stay; with a head, and when a reset gives up, both lists of every account are those the rebuild determines and everything pending is executable; the gap condition in both directions; the virtual nonce lags if and only if reinjection cut a pending nonce below the chain's, and the account is in order if and only if it is gapless and does not lag; nothing but reinjected transactions enters; then limits hold by the fair cut and the eviction |
| Pool.TxPool.EvictStale | core/tx_pool.go:365-381 | exactly the queues of remote accounts whose last heartbeat is older than the lifetime are emptied |
| Pool.TxPool.Run | core/tx_pool.go:334-1450 | any sequence of operations keeps all structures in agreement, each doing what it should; through all new heads that do not set an account's nonce back its pending nonces stay gapless from the chain's nonce and payable, ending at the virtual nonce unless none are pending; without reinjections, or without moves, they end there always |
| Pool.TxPool.Perform | core/tx_pool.go:334-1450 | what each operation does to the whole pool; it keeps the structures in agreement and every account in order that it does not set back |
| Outflow.FewerPooled | core/tx_pool.go:1048-1111 | if every account's lists hold only what they held, the pool holds nothing new |
| Outflow.PromoteFewer | core/tx_pool.go:1204-1265 | promotion brings in no transaction |
| Outflow.DemoteFewer | core/tx_pool.go:1402-1450 | demotion brings in no transaction |
| PoolRuns.AllocationExample | core/tx_pool.go:592-606 | a run whose third submission fails to allocate |
| PoolRuns.RefusedExample | core/tx_pool.go:592-621 | a run whose refused replacement costs another account its transaction |
| PoolRuns.LagExample | core/tx_pool.go:1048-1199 | a run with a new head that ends with a virtual nonce behind the chain's |
| PoolRuns.GapExample | core/tx_pool.go:1048-1199 | a run with a new head that sets an account back and ends with a gap in its pending nonces |
| PoolRuns.PassedOverExample | core/tx_pool.go:1048-1111 | a run with a new head that leaves a payable transaction queued right behind a pending one |
| PoolRuns.Settled | core/tx_pool.go:577-1265 | fresh transactions, one per account and each the account's next, become pending and stay |
| Admission.ExecutesIff | core/state_transition.go:107-270 | at the account's next nonce and with room in the block, a message is executed if and only if its cost is covered and its gas covers the intrinsic gas |
| Admission.AdmittedExecutes | core/tx_pool.go:526-568 | a transaction at the account's next nonce that passes the pool's validation is executed |
| Chain.AtAt | core/headerchain.go:370-403 | ancestors of ancestors are ancestors, the hash-link induction all chain results rest on |
| Chain.PathIsLinked | core/headerchain.go:180-200 | an index that holds the path of a head is parent-linked |
| Headers.HeaderChain.GetTd | core/headerchain.go:407-419 | with any cache contents the answer is the sum of difficulties on the header's path |
| Headers.HeaderChain.GetHeader | core/headerchain.go:433-445 | with any cache contents the answer is what is stored |
| Headers.HeaderChain.WriteHeader | core/headerchain.go:141-225 | unknown parents are refused; the index stays exactly the path of the current header; canonical if and only if the path is heavier, or as heavy and shorter, or tied and the coin says so; the head stays the best |
| Headers.TakeoverOrder | core/headerchain.go:168-176 | of two paths that differ in weight or length exactly one takes over from the other, whatever the coin |
| Headers.HeaderChain.Reroute | core/headerchain.go:180-212 | deleting above and rewriting down to the first agreement yields exactly the new path |
| Headers.HeaderChain.SetHead | core/headerchain.go:509-586 | the ancestor at the height becomes current and every header above it, on all branches, is gone |
| Headers.NoGaps | core/headerchain.go:545-551 | counting up to the first empty height reaches all stored headers above |
| Headers.HeaderChain.GetAncestor | core/headerchain.go:370-403 | a result is the plain parent walk's; with the header known it succeeds exactly when the walk off the canonical chain fits the budget |
| Headers.HeaderChain.Run | core/headerchain.go:141-586 | any run ends with the headers and the head its operations determine and keeps the index the path of the head; without rewinds the head is the heaviest of all, and the shortest of those |
| Query.DetourUp | core/headerchain.go:382-400 | each generation walked shortens the way to the canonical chain by one |
| Query.NextByHash | eth/handler.go:440-474 | the next header lies on the same chain exactly skip plus one generations away; on the canonical chain it is found whenever it exists |
| Query.HeadersByHash | eth/handler.go:410-487 | replies are single-chain, evenly spaced and within the limit; from the canonical chain, or within a hundred blocks of it in reverse, nothing available is left out; ahead of a side block there is nothing |
| Query.HeadersByNumber | eth/handler.go:410-487 | replies are canonical headers at the heights the 64-bit arithmetic visits, until one is missing; they are spaced as asked if and only if no height wraps within the reply |
| Query.LimitExact | eth/handler.go:418-418 | how many headers a reply may hold, for every 64-bit amount |
| Query.SpacedIff | eth/handler.go:475-484 | a reply of given length on a chain of given height is evenly spaced if and only if nothing wraps, decided from the query alone |
| Query.RepeatedHeaderExample | eth/handler.go:475-484 | a concrete reply that holds the same header three times |
| Reorg.GetReorgData | core/blockchain.go:2173-2273 | the highest common block, both branches down to it and the transactions of the old one; it fails for missing blocks if and only if the paths are not known down to a shared block, and otherwise exactly when one head lies on the other's path |
| Reorg.WhereSplit | core/blockchain.go:2283-2376 | below the common block both branches know the same transactions at the same heights |
| Reorg.TxDifference | core/types/transaction.go:292-307 | the transactions of the first list that the second lacks, in order |
| Blockchain.BlockChain.WriteHeadBlock | core/blockchain.go:717-744 | indexes number and transactions, and moves the other heads exactly when the block was not indexed |
| Blockchain.LayerDone | core/blockchain.go:2340-2364 | deleting what only the old branch held leaves exactly the transactions of the new path |
| Blockchain.BlockChain.Reorganise | core/blockchain.go:2283-2396 | the indexes end ready for the new head, with nothing above its parent, or above the old head for a one-block branch |
| Blockchain.BlockChain.WriteKnownBlockAsHead | core/blockchain.go:1419-1432 | the indexes follow the new head; nothing stays above it unless the branch is one block lower than the old head |
| Blockchain.BlockChain.WriteBlockWithState | core/blockchain.go:1444-1602 | canonical exactly when preferred and, with finality, heavy enough; indexes and all head markers follow; difficulty never falls |
| Blockchain.BlockChain.Ecbp1100 | core/blockchain_af.go:76-111 | compares subchain difficulties from the common block under the curve at the fork's age |
| Blockchain.BlockChain.Run | core/blockchain.go:1403-1602 | any sequence of block writes ends with the blocks and the head its operations determine, and keeps number index, lookup and head markers on the path of the head; without the finality rule blocks of positive difficulty leave the heaviest as head, and the shortest of those |
| Blockchain.BestStep | core/blockchain.go:1532-1602 | one write without the finality rule leaves the best block as head, also where the switch fails |
| Blockchain.TieBreak | core/blockchain.go:1532-1546 | who mined a block and the coin matter only between paths of equal weight and length |
| Blockchain.AgeExact | core/blockchain_af.go:76-111 | the age of a fork is the true difference modulo 64 bits, and exactly that when it fits |
| Blockchain.CommonUnique | core/blockchain.go:2236-2258 | the meeting point of the walk is the highest common block |
| Blockchain.StaleIndexExample | core/blockchain.go:2352-2376 | a concrete reorganisation that leaves a number indexed above the head |
| Blockchain.FinalityBound | core/blockchain_af.go:76-111 | an accepted branch is no lighter; past the cap acceptance means thirty-one times the weight |
| Mess.VMonotone | core/blockchain_af.go:134-176 | with all its integer divisions the curve never falls with age |
| Mess.VRange | core/blockchain_af.go:134-195 | the curve starts at 128, never exceeds 3968 and is constant from 25132 on |
| Mess.VIdeal | core/blockchain_af.go:134-176 | with both integer divisions the curve stays within one of 3x^2/c^2 - 2x^3/c^3 scaled, at every age up to the cap and at negative ages |
| Mess.VSymmetric | core/blockchain_af.go:134-176 | halfway to the cap the curve is halfway up, and it is symmetric about that point up to one |
| Mess.AcceptanceBounds | core/blockchain_af.go:76-111 | accepted implies at least as heavy; thirty-one times as heavy is always accepted, past the cap exactly then; halfway exactly sixteen times, at age zero exactly as heavy |
| Mess.AcceptanceMonotone | core/blockchain_af.go:76-111 | more weight, a younger fork or a lighter local branch never turns acceptance into rejection |
| Indexer.ChainIndexer.SetValidSections | core/chain_indexer.go:479-491 | exactly the heads at or above the new count are removed |
| Indexer.ChainIndexer.NewHead | core/chain_indexer.go:243-300 | after a reorganisation a stored section stays if and only if it lies below the checkpoint or ends at or below the common block; otherwise sections become known with their confirmations and a matching checkpoint |
| Indexer.RevertedFacts | core/chain_indexer.go:243-275 | which sections a fall back to a common block keeps, in both directions |
| Indexer.TrustedFacts | core/chain_indexer.go:422-429 | verification stops at the largest number of sections whose last head is canonical, or at the checkpoint |
| Indexer.ChainIndexer.AddCheckpoint | core/chain_indexer.go:130-143 | never lowers what is stored; the invariant survives even in the middle of a section |
| Indexer.ChainIndexer.Begin | core/chain_indexer.go:316-335 | starts on the first section after the verified ones, from its predecessor's head |
| Indexer.ChainIndexer.ProcessNext | core/chain_indexer.go:388-417 | goes on exactly when the canonical header is there and builds on the last one |
| Indexer.ChainIndexer.Finish | core/chain_indexer.go:348-369 | stores the section exactly when its predecessor's head is unchanged; heads stay linked |
| Indexer.ChainIndexer.VerifyLastHead | core/chain_indexer.go:422-429 | gives up exactly the top sections whose heads are not canonical; what remains is canonical from the checkpoint up |
| Indexer.Vouch | core/chain_indexer.go:422-429 | one canonical last head makes every head from the checkpoint up canonical |
| Indexer.ChainIndexer.Sections | core/chain_indexer.go:434-440 | the reported count and head are canonical above the checkpoint |
| Indexer.ChainIndexer.Update | core/chain_indexer.go:304-382 | undisturbed on an available chain, the next section is stored with its canonical head |
| Indexer.ChainIndexer.Run | core/chain_indexer.go:130-522 | under every interleaving of chain movements, notifications and background steps the indexer is where those steps lead, and the heads stay linked by whole sections |
| Feed.Find | event/feed.go:213-220 | the first index of the channel, or none exactly when it is absent |
| Feed.Deactivated | event/feed.go:228-232 | swapping to the end moves exactly that channel from waiting to done |
| Feed.DeletedActive | event/feed.go:167-174 | removing a waiting channel shrinks the waiting prefix by exactly that channel |
| Feed.DeletedDone | event/feed.go:167-174 | removing a served channel leaves the waiting prefix alone |
| Feed.Conservation | event/feed.go:128-190 | every channel of a send is still waiting, served or removed, each exactly once |
| Feed.OnceEach | event/feed.go:128-190 | a channel subscribed once is served at most once and never after its removal |
| Feed.Reached | event/feed.go:128-190 | after a send every channel got the value exactly once or was removed before |
| Feed.Undisturbed | event/feed.go:128-190 | a channel whose removal nobody asked for gets the value once per subscription and stays subscribed |
| Feed.Feed.Subscribe | event/feed.go:72-92 | adds exactly one entry, at the end of the inbox, to be taken up by the next send |
| Feed.Feed.Unsubscribe | event/feed.go:103-112 | a removal takes effect in the inbox exactly if the channel is there, and otherwise waits for one that is among the send cases |
| Feed.Feed.RemoveIdle | event/feed.go:114-123 | a waiting channel is always found and exactly one entry of it leaves |
| Feed.Feed.TakeRemoval | event/feed.go:166-174 | takes a removal that was asked for, always finds its channel, and moves the boundary exactly when the channel was waiting |
| Feed.Feed.Send | event/feed.go:128-190 | terminates with nobody waiting; the count returned is the number of channels served; every removal taken was asked for, and what subscribed meanwhile and was not removed is in the inbox |
| Gas.GasPool.AddGas | core/gaspool.go:29-35 | fails exactly when the sum leaves 64 bits |
| Gas.GasPool.SubGas | core/gaspool.go:39-45 | fails, changing nothing, exactly when there is not enough |
| Gas.Used | core/state_transition.go:272-292 | a refund never exceeds half of the gas consumed |
| Gas.UsedExact | core/state_transition.go:272-280 | a refund is granted in full up to half of the gas consumed |
| Gas.Settlement | core/state_transition.go:262-287 | paying back, paying the miner and the purchase cancel out: total ether changes only by what the virtual machine changed |
| Gas.Payout | core/state_transition.go:262-287 | what each account holds after settlement, in terms of what the virtual machine left |
| Gas.Transfer | core/state_transition.go:262-287 | where the virtual machine moves no ether, the sender pays exactly the gas used at its price, the miner gets exactly that, and nobody else gains or loses |
| Gas.StateTransition.PreCheck | core/state_transition.go:175-201 | refused exactly for the nonce, the funds or the pool, changing nothing; otherwise the gas is paid for |
| Gas.StateTransition.RefundGas | core/state_transition.go:272-287 | returns the unspent gas to sender and pool; the pool cannot overflow |
| Gas.StateTransition.TransitionDb | core/state_transition.go:216-270 | result, state and pool are those the message, the rules and the miner determine; every rejection with its condition and its effect; payments balance |
| Gas.ApplyTransaction | core/state_processor.go:91-133 | the message is applied under the block's rules and for its miner; the receipt carries the gas used and the running sum; ether is conserved if the virtual machine conserves it |
| Gas.FirstError | core/state_processor.go:56-85 | a block fails with an error if and only if some message fails with it at its turn and all before it succeed; otherwise each receipt tells what its message used at its turn |
| Gas.Ledger | core/state_processor.go:56-85 | over a block in which the virtual machine moves no ether, every account pays for its own messages and the miner gets all of it |
| Gas.Process | core/state_processor.go:56-85 | receipts, error and state are those of the messages applied one after the other; gas used plus gas left is the limit throughout; receipts are prefix sums; total ether is unchanged, or never grows, with the virtual machine |
| HashFn.NextEntry | core/evm.go:82-88 | the growing cache holds consecutive ancestors from the parent down |
| HashFn.HashFunction.GetHash | core/evm.go:62-93 | with any cache contents the answer is the uncached walk's, for every height |
| HashFn.HashFunction.GetHashes | core/evm.go:62-93 | the same for any sequence of queries |

## Left out

- Networking, RPC, peers, light clients, the database engine, the freezer, fast sync, snapshots, trie
  pruning and the limit on transaction indexing: no part of the invariants above, or input and output.
- Signature recovery, hashing, encoding, the state trie and the virtual machine itself: abstract.
- The link between the walk that finds what to reinject, which works on identifiers, and the pool,
  whose results hold for any list of transactions to reinject; the float arithmetic of its depth test.
- Block import around the modelled steps: verification, side chains, future blocks.
- Aliasing between the pool's list objects: the pool holds lists as values, and the list object is
  proved to refine that value on its own.
- Nonce overflow at the largest 64-bit nonce.
- Journal, metrics, log and chain events; children of an indexer and what is cascaded to them; block
  rewards and the one-off state change at the DAO fork.
- Callbacks of a rewind: they are absent, as for a light client.
- The type check of a feed and the value stored in each select case; a send that blocks for ever.
- The alternative floating-point curves of the finality rule, which nothing uses.
- Blockchain.BlockChain.WriteKnownBlockAsHead: does not bound the head's difficulty, because the code
  compares none there.

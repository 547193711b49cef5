# A verified model of go-anduschain

go-anduschain is a blockchain node derived from go-ethereum, with its own consensus controller, the
*fairnode*. This project models the parts of the node whose correctness rests on invariants that span several
data structures or several steps, and proves those invariants with Dafny for every input and every run.

`dafny verify dfyconfig.toml` checks everything.

What is modelled, file by file:

- `Basics.dfy`: hashes, 64-bit numbers and options, which the other files share.
- `Heap.dfy`: the binary heap of Go's container/heap, on which the pool's two indexes stand.
- `Transactions.dfy`, `TxSortedMap.dfy`, `TxList.dfy`, `TxPriced.dfy`: the nonce-ordered transaction lists and the
  lazily cleaned price heap. The classes keep heaps, caches, caps and counters; each method is specified by the
  plain map or set it leaves behind.
- `PoolLists.dfy`, `TxPool.dfy`, `IntrinsicGas.dfy`: the transaction pool. Five redundant structures (pending,
  queue, lookup table, price heap, managed nonces) are kept in agreement by every operation, and the limits are
  enforced fairly.
- `HeaderTree.dfy`, `HeaderChain.dfy`, `HeaderQuery.dfy`, `BlockChain.dfy`: headers and blocks as a tree of parent
  links, the canonical number index, total difficulties, fast ancestor lookup, header queries, and the
  reorganisation of the block chain with its transaction index.
- `Reinjection.dfy`: which transactions a change of the head takes off the chain and gives back to the pool.
- `ChainIndexer.dfy`: processing the chain in sections, with the lock released in the middle.
- `StateTransition.dfy`, `StateProcessor.dfy`: gas and money through a message and through a block, in 64-bit
  arithmetic, with the fee shared between miner and fairnode.
- `Feed.dfy`: delivery of a value to all subscribers by partitioning a shared slice in place, with a ledger of
  who joined, who asked to leave and who was let go.
- `FinalVote.dfy`, `Fairnode.dfy`: the leading fairnode as a state machine, from the vote count to the signature.
- `Distributor.dfy`: the light client's request distributor.
- `ByteConversion.dfy`, `HdPath.dfy`: two codecs with their round trips.

Conventions of the model:

- A transaction or header hash identifies its contents. In the pool a transaction value stands for its hash.
- Clocks, random choices, database readings, peers' answers and the results of the virtual machine are parameters
  or nondeterministic choices, so what is proved holds for all of them.
- A Go panic is a precondition that every caller is proved to meet: closing a closed channel before the stop,
  adding gas beyond 64 bits, deleting a case that is not there. Four panics can be reached, and each has its exact
  condition and an input: dividing by a zero half epoch, which ends the run of the fairnode; cancelling a request
  after the distributor has stopped; writing a header whose ancestors a rewind has deleted; and a reset of the pool
  whose old head a rewind has deleted.
- The caches of total difficulties, headers and blocks are sets of hashes. What is added last is in them; anything
  else may be evicted at any time.
- Loops over Go maps visit their entries in an arbitrary order.

Places where the code and its own comments or its evident intent differ, and the model follows the code. Each
has an exact condition, and a lemma or method with an input:

- `fairnode/verify/verify.go:54-57` promises to prefer the smaller address at odd heights; the code prefers the
  larger one at every height. The promise is kept if and only if the height is even or no header with another
  address equals the winner in votes, difficulty and nonce (`FinalVote.PromiseKeptExactly`, with the input
  `FinalVote.PromiseBroken`).
- `byteconversion/conversion.go:77-82` promises the minimal number of bytes; the form is minimal if and only if the
  integer is not -2^(8k-1) (`ByteConversion.MinimalExactly`, with the input `ByteConversion.NotMinimal`).
- `fairnode/fairnode.go:594` divides by half the epoch, read as a signed number: that is zero if and only if the
  epoch is 1 or 2^64-1 (`Fairnodes.PanicsExactly`, with the inputs `Fairnodes.PanicsAtOne` and
  `Fairnodes.PanicsAtMinusOne`).
- `les/distributor.go:113-121` closes the channels and leaves the requests queued; cancelling a request panics
  afterwards if and only if it was still queued (`Distributors.Distributor.Stop`, with the input
  `Distributors.Distributor.CancelAfterStop`), and never before the stop.
- `core/tx_pool.go:432-436` uses the blocks of both heads without looking whether they are stored: a reset panics there
  if and only if it walks at all and one of them is not (`Reinjection.MakePlan`, with the input
  `Reinjection.RewoundHead`).
- `core/headerchain.go:175-181` follows parent links through stored headers; a header that should become the head
  panics there if and only if its parent's stored ancestors do not reach genesis
  (`HeaderChains.HeaderChain.WriteHeader`, with the input `HeaderChains.Orphaned`).
- `core/headerchain.go:352-399` and `core/blockchain.go:589-601` answer from caches by hash alone, whatever the number.
  So a header whose parent is stored under another number is refused if and only if the parent's total difficulty is
  not cached, and the chain stays valid if and only if the header is refused or numbered after its parent
  (`HeaderChains.HeaderChain.WriteHeader`, with the input `HeaderChains.Misnumbering`;
  `BlockChains.BlockChain.WriteBlock`, with the input `BlockChains.MisnumberedBlock`). The consensus engines check the
  number before a header gets here (`consensus/deb/consensus.go:234`).
- `core/headerchain.go:318-348` takes the zero hash for a missing canonical header: asked for an ancestor of the zero
  hash, it answers with a header if and only if the number has no canonical header, the ancestor's number has one, and
  the distance is at least 2 (`HeaderChains.HeaderChain.GetAncestor`, with the input `HeaderChains.ZeroAnswered`).
- `core/tx_list.go:255` adds 100 to the price bump in signed arithmetic: the threshold is the bumped price if and only
  if the bump is below 2^63-100 (`TxLists.ThresholdExactly`, with the inputs `TxLists.Wrapped`).
- `core/tx_list.go:499-522` hands out heap entries, and a transaction that was dropped and added again may have two:
  the pool shrinks by the number of distinct transactions handed out (`Pool.TxPool.MakeRoom`, with the inputs
  `Priced.HandedOutTwice`).
- `core/blockchain.go:1370-1378` deletes the index entries of dropped transactions; the index is then the one of the
  new chain if and only if none of those dropped for good occurs on the common part
  (`BlockChains.BlockChain.WriteBlock`, with the input `BlockChains.RepeatedIsLost`).
- `core/state_transition.go:265-271` shares the fee by a rate that is not checked; both shares are non-negative if
  and only if the rate is from 0 to 100 (`StateTransitions.SharesExactly`, with the input
  `StateTransitions.ShareIsNegative`).

Three error branches are shown to be unreachable: the one for a missing current block at the end of a round
(`fairnode/fairnode.go:482-487`, `Fairnodes.Fairnode.Conclude`), the errors of reorg for a block that is numbered
after its parent (`core/blockchain.go:1323-1348`, `BlockChains.FindFork`), and those of the pool's walks to the common
ancestor (`core/tx_pool.go:437-461`, `Reinjection.WalkBoth`).

## Model

| member | source | states |
|---|---|---|
| Heap.RootIsLeast | core/tx_list.go:31-47 | the root of a heap is a least element |
| Heap.RiseStep | core/tx_list.go:37-39 | one exchange with the parent moves the only edge in doubt one level up |
| Heap.Up | core/tx_list.go:37-39 | sifting up repairs a heap with one edge out of order and keeps its elements |
| Heap.Down | core/tx_list.go:41-47 | sifting down repairs every edge of a subheap but the one above its start, and reports whether anything moved |
| Heap.Init | core/tx_list.go:111-118 | heap.Init turns any slice into a heap of the same elements |
| Heap.Push | core/tx_list.go:37-39 | heap.Push adds exactly one element and keeps the heap |
| Heap.Remove | core/tx_list.go:157-163 | heap.Remove takes exactly the element at an index out and keeps the heap |
| Heap.Pop | core/tx_list.go:41-47 | heap.Pop takes the root out and keeps the heap |
| Transactions.CapKeepsLowest | core/tx_list.go:126-147 | every nonce kept by a cap is below every nonce it drops |
| Transactions.RunEndIsFirstGap | core/tx_list.go:177-192 | the end of a run is the first missing nonce |
| Transactions.SplitSorted | core/tx_list.go:92-95 | cutting the sorted contents at a threshold leaves the sorted contents of the rest, so a cached order may be shifted |
| Transactions.CapSorted | core/tx_list.go:142-145 | a prefix of the sorted contents is the sorted contents of the capped map |
| Transactions.SortedAscends | core/tx_list.go:202-215 | the flattened list is strictly ascending by nonce |
| Transactions.SortedEnumerates | core/tx_list.go:202-215 | the flattened list holds exactly the map's transactions, each once |
| SortedMap.IndexRoot | core/tx_list.go:31-47 | the root of the index is the lowest nonce |
| SortedMap.TxSortedMap.constructor | core/tx_list.go:58-63 | a new map is empty and consistent |
| SortedMap.TxSortedMap.Get | core/tx_list.go:66-68 | looks a nonce up |
| SortedMap.TxSortedMap.Put | core/tx_list.go:72-78 | sets one entry; index and cache stay consistent |
| SortedMap.TxSortedMap.Forward | core/tx_list.go:83-97 | removes exactly the nonces below the threshold, in order; a cached order is shifted correctly |
| SortedMap.TxSortedMap.Filter | core/tx_list.go:101-122 | removes exactly the matching transactions and rebuilds the index |
| SortedMap.TxSortedMap.Extract | core/tx_list.go:104-110 | collects the matching transactions, each once, in any order |
| SortedMap.TxSortedMap.Reindex | core/tx_list.go:111-118 | a rebuilt index is a duplicate-free heap of exactly the keys |
| SortedMap.TxSortedMap.Cap | core/tx_list.go:126-147 | keeps the lowest nonces and hands out the others, highest first |
| SortedMap.TxSortedMap.DropHighest | core/tx_list.go:134-138 | the loop over the sorted index drops the highest nonces one by one, highest first |
| SortedMap.TxSortedMap.Remove | core/tx_list.go:151-168 | removes one nonce from items and index and says whether it was there |
| SortedMap.TxSortedMap.Ready | core/tx_list.go:177-192 | hands out the maximal consecutive run from the lowest nonce and removes exactly it |
| SortedMap.TxSortedMap.TakeRun | core/tx_list.go:183-188 | the popping loop takes the whole run up to the first gap |
| SortedMap.TxSortedMap.Flatten | core/tx_list.go:202-215 | gives the nonce-sorted contents, from the cache or rebuilt |
| SortedMap.ReadyRunIsMaximal | core/tx_list.go:170-192 | the run is gapless from the lowest nonce, ends at a missing one, and is empty exactly if the lowest nonce is above the start |
| SortedMap.CapOneMore | core/tx_list.go:134-138 | lowering the cap by one drops the next highest nonce |
| TxLists.ShortCircuitIsSound | core/tx_list.go:291-297 | the caps bound every transaction, so the short circuit gives the result of a full filter |
| TxLists.FilterPartitions | core/tx_list.go:299-314 | removed, invalidated and kept partition the list; in a strict list everything lost is above everything kept |
| TxLists.FilterStaysContiguous | core/tx_list.go:291-315 | a gapless strict list stays a gapless prefix under Filter |
| TxLists.RemoveStaysContiguous | core/tx_list.go:326-337 | a gapless strict list stays a gapless prefix under Remove |
| TxLists.CapInterval | core/tx_list.go:319-321 | a gapless list stays a gapless prefix under Cap |
| TxLists.ReadyIsConsecutive | core/tx_list.go:346-348 | Ready hands out consecutive nonces and leaves only nonces beyond the gap |
| TxLists.ThresholdExactly | core/tx_list.go:255-259 | the threshold is the bumped price for every price if and only if the bump is below 2^63-100 |
| TxLists.OutbidsExactly | core/tx_list.go:255-261 | as long as the sum does not wrap, a replacement is accepted exactly if its price is higher and reaches the old price and the bump, rounded down |
| TxLists.Wrapped | core/tx_list.go:255-255 | the inputs: for a larger bump the threshold of the price 100 is below the bumped price |
| TxLists.TxList.constructor | core/tx_list.go:231-237 | a new list is empty |
| TxLists.TxList.Add | core/tx_list.go:250-273 | inserts exactly if the slot is free or the price bump is met, reports the transaction replaced, and raises the caps |
| TxLists.TxList.Forward | core/tx_list.go:278-280 | removes the nonces below the threshold |
| TxLists.TxList.Filter | core/tx_list.go:291-315 | leaves the filtered list and returns exactly the removed and the invalidated transactions |
| TxLists.TxList.Lowest | core/tx_list.go:305-311 | the loop finds the lowest removed nonce |
| TxLists.TxList.Cap | core/tx_list.go:319-321 | caps the list |
| TxLists.TxList.Remove | core/tx_list.go:326-337 | removes a nonce and, in a strict list, returns exactly the transactions above it |
| TxLists.RemoveMeans | core/tx_list.go:326-337 | removing a nonce and filtering what lies above it leaves the gapless part below |
| TxLists.TxList.Ready | core/tx_list.go:346-348 | takes the executable run out |
| TxLists.TxList.Flatten | core/tx_list.go:363-365 | the sorted contents, nothing changed |
| Priced.PriceKeyOrder | core/tx_list.go:374-384 | the heap's order is by price, then by descending nonce |
| Priced.StalesCoverDead | core/tx_list.go:398-437 | stales is never less than the number of heap entries no longer pooled, hence never negative |
| Priced.LiveEntries | core/tx_list.go:398-404 | pooled transactions with an entry are at most as many as live entries |
| Priced.PricedList.constructor | core/tx_list.go:407-412 | a new heap tracks the empty pool |
| Priced.PricedList.Put | core/tx_list.go:415-417 | adding a transaction keeps the heap tracking the pool, also when it was dropped before |
| Priced.PricedList.Removed | core/tx_list.go:422-437 | after a removal at most a quarter of the heap is dead; below that the heap is left alone |
| Priced.PricedList.Reheap | core/tx_list.go:428-437 | a rebuilt heap has no stale entries |
| Priced.PricedList.Cap | core/tx_list.go:441-468 | hands out exactly the remote transactions below the price |
| Priced.PricedList.Underpriced | core/tx_list.go:472-495 | equals a full scan of the pool |
| Priced.PricedList.Discard | core/tx_list.go:499-522 | hands out the cheapest remote entries, as many as asked for or all; no entry of a pooled transaction is lost, and none left is cheaper |
| Priced.HandedOutTwice | core/tx_list.go:415-522 | the inputs: the cheapest of four or more transactions, dropped and added again, is handed out twice |
| PoolLists.SlotIdentifies | core/tx_pool.go:976-1001 | removal by sender and nonce removes the intended transaction |
| PoolLists.TakeOut | core/tx_pool.go:1024-1047 | taking part of a list out keeps the tables in agreement with the lookup table |
| PoolLists.PutIn | core/tx_pool.go:820-853 | filing a transaction keeps the tables in agreement |
| PoolLists.Replace | core/tx_pool.go:736-750 | replacing a transaction in its slot keeps the tables in agreement |
| PoolLists.Unfile | core/tx_pool.go:977-1001 | removing a transaction sets exactly the ones it invalidates adrift |
| PoolLists.Enqueued | core/tx_pool.go:778-802 | filing in the queue keeps the tables in agreement |
| PoolLists.CountsAgree | core/tx_pool.go:558-570 | the lookup table has as many entries as pending and queue together |
| IntrinsicGas.ComputeIntrinsicGas | core/state_transition.go:84-114 | fails exactly if the exact sum exceeds 2^64-1, otherwise gives it; no step overflows |
| IntrinsicGas.GasOfByte | core/state_transition.go:92-112 | every zero byte of data costs 4 gas and every other byte 68, wherever it stands |
| IntrinsicGas.GasOfNothing | core/state_transition.go:85-91 | without data a transaction costs 21000 gas, and a contract creation 53000 from homestead on |
| Pool.TxPool.constructor | core/tx_pool.go:257-302 | a new pool, after the initial reset of the empty pool to the given state, is empty, valid and gapless |
| Pool.TxPool.EnqueueTx | core/tx_pool.go:778-802 | a demoted transaction is always filed and displaces nothing; a new one is refused as underpriced replacement exactly if the slot is taken and not outbid |
| Pool.TxPool.EnqueueAll | core/tx_pool.go:985-987 | demotion through enqueueTx never fails |
| Pool.TxPool.RemoveTx | core/tx_pool.go:962-1002 | exactly the given transaction leaves the pool; the tables agree again and pending stays gapless |
| Pool.TxPool.RemoveQueued | core/tx_pool.go:996-1001 | the queue half of removeTx |
| Pool.TxPool.RemovePending | core/tx_pool.go:977-994 | the pending half of removeTx, with the invalidated transactions requeued |
| Pool.TxPool.PromoteTx | core/tx_pool.go:820-853 | a promoted transaction is always inserted, and the managed nonce follows it |
| Pool.TxPool.PromoteReady | core/tx_pool.go:1040-1047 | promotes the executable run; pending stays gapless and payable, and nothing executable is left |
| Pool.TxPool.PromoteRun | core/tx_pool.go:1041-1047 | consecutive promotions end with the managed nonce past the run |
| Pool.TxPool.PromoteAccount | core/tx_pool.go:1019-1062 | one account's queue is left without stale, unpayable, executable or surplus transactions, and only such are dropped; the queue is full if a surplus one is |
| Pool.TxPool.Curtail | core/tx_pool.go:1048-1061 | the end of an account's turn leaves it settled and drops only the surplus of a remote account |
| Pool.TxPool.PruneQueue | core/tx_pool.go:1024-1039 | drops exactly hopeless transactions: stale, too costly or out of gas |
| Pool.TxPool.CapQueue | core/tx_pool.go:1048-1057 | a remote account keeps at most AccountQueue queued transactions, and exactly as many if any is dropped |
| Pool.TxPool.DropIfEmpty | core/tx_pool.go:1058-1061 | no empty list stays in the queue |
| Pool.TxPool.PrunePending | core/tx_pool.go:1188-1208 | drops only hopeless pending transactions and requeues those they invalidate |
| Pool.TxPool.ForwardPending | core/tx_pool.go:1188-1194 | drops exactly the nonces below the state nonce |
| Pool.TxPool.FilterPending | core/tx_pool.go:1195-1208 | drops exactly the unpayable transactions and requeues the ones above them |
| Pool.TxPool.DemoteAccount | core/tx_pool.go:1185-1222 | an account's pending list, if any is left, starts at its state nonce and is payable |
| Pool.TxPool.Postpone | core/tx_pool.go:1209-1216 | a gap in front sends the whole list back to the queue |
| Pool.TxPool.DemoteUnexecutables | core/tx_pool.go:1183-1223 | every pending list starts at the state nonce, is payable, and stays gapless if it was; only hopeless transactions are dropped |
| Pool.TxPool.CapOne | core/tx_pool.go:1097-1110 | drops the highest nonce and lowers the managed nonce to it |
| Pool.TxPool.Round | core/tx_pool.go:1096-1111 | every offender loses exactly its highest nonce |
| Pool.TxPool.LevelDown | core/tx_pool.go:1094-1112 | the rounds end with the pool fitting or the offenders at the floor, all of equal length, overshooting by less than their number |
| Pool.TxPool.EqualizePending | core/tx_pool.go:1067-1137 | never touches locals nor goes below AccountSlots; offenders end level, and no other remote account above its slots is longer; pending fits or every remote account is within its slots; overshoot is less than the number of offenders |
| Pool.TxPool.Gather | core/tx_pool.go:1085-1113 | the loop over the spammers, longest first, ends with the pool fitting or all of them level |
| Pool.TxPool.JoinOffender | core/tx_pool.go:1085-1113 | the offenders so far are leveled down to the next one |
| Pool.TxPool.DropAccount | core/tx_pool.go:1161-1168 | removes exactly one account's queue |
| Pool.TxPool.DropTop | core/tx_pool.go:1169-1175 | removes exactly the highest queued nonces |
| Pool.TxPool.TrimQueue | core/tx_pool.go:1138-1177 | the queue ends exactly at GlobalQueue, or only locals are queued; locals are untouched |
| Pool.TxPool.TrimAccount | core/tx_pool.go:1155-1176 | drops the whole account or exactly the surplus |
| Pool.TxPool.PromoteExecutables | core/tx_pool.go:1007-1178 | the pool is within its limits and the given accounts are settled; nothing is dropped but hopeless transactions, and remote ones while their account or the pool exceeds a limit; if one of those is dropped, its account has a full queue afterwards, or the queue is full, or pending is above the slots but for one per account |
| Pool.TxPool.EnforceLimits | core/tx_pool.go:1067-1177 | what the limits drop is remote, and nothing is dropped unless one is exceeded; if anything is, a limit is still reached |
| Pool.LimitReached | core/tx_pool.go:1067-1177 | if the limits change the tables, one of them is reached afterwards: neither half drops too much |
| Pool.TxPool.PromoteAccounts | core/tx_pool.go:1018-1062 | every given account is settled; drops only hopeless transactions and those of crowded remote accounts, whose queues stay full |
| Pool.TxPool.DropPriced | core/tx_pool.go:535-537 | exactly the transactions taken from the price heap leave the pool |
| Pool.TxPool.SetGasPrice | core/tx_pool.go:530-539 | exactly the locals and the transactions at or above the price are left |
| Pool.TxPool.MakeRoom | core/tx_pool.go:718-733 | refuses exactly a remote transaction no dearer than any in a full pool; otherwise drops remote ones, cheapest first; the pool shrinks by the number of distinct transactions handed out, which is the number asked for if no transaction has two heap entries, or only locals are left |
| Pool.TxPool.ValidationExactly | core/tx_pool.go:635-695 | the exact condition under which a transaction passes validation; one that passes is not hopeless |
| Pool.RoomMade | core/tx_pool.go:727-732 | what the price heap hands out makes room: remote transactions, the cheapest first, and some unless all are local |
| Pool.DropsDistinct | core/tx_pool.go:726-732 | dropping what is handed out takes out its distinct members |
| Pool.AllDropped | core/tx_list.go:499-522 | without double entries every entry handed out is another transaction |
| Pool.TxPool.ReplacePending | core/tx_pool.go:734-756 | replaces exactly if the price bump is met |
| Pool.TxPool.Add | core/tx_pool.go:705-773 | what every outcome means: known, invalid for the exact reason, underpriced exactly if the pool is full and nothing in it is cheaper, not outbidding its slot, or pooled, with or without a replacement; below the limit only an outbid transaction in the same slot makes way, in a full pool remote ones besides, and none that is dearer than one that stays |
| Pool.PlacedAs | core/tx_pool.go:718-772 | making room and taking a place together mean what the outcome of add says |
| Pool.TxPool.Place | core/tx_pool.go:734-772 | refused exactly if the slot is taken and not outbid; otherwise exactly the slot changes hands, and the outcome says whether it was taken |
| Pool.TxPool.AddTx | core/tx_pool.go:884-899 | the outcome means what add says; nothing else enters; after a new transaction its sender is settled and the pool within its limits, and nothing has left it but hopeless transactions and remote ones above a limit |
| Pool.TxPool.AddTxsLocked | core/tx_pool.go:911-932 | one outcome per transaction, each with the meaning of add between the lookup tables before and after it; nothing else enters the pool, and of what was added only hopeless transactions and remote ones above a limit leave it again; local transactions leave it only if hopeless or replaced |
| Pool.TxPool.AddEach | core/tx_pool.go:913-922 | the loop of additions: every outcome with its meaning, and the accounts to promote are those of the new transactions |
| Pool.TxPool.AddedStays | core/tx_pool.go:913-922 | what one addition pooled is there after all of them, unless a later one takes its slot or a full pool drops it |
| Pool.TxPool.Evict | core/tx_pool.go:355-370 | exactly the silent remote accounts lose their queue |
| Pool.TxPool.Reset | core/tx_pool.go:469-497 | the reinjected transactions are added one by one, each with the outcome it has in the new state; of those and of the old ones only hopeless transactions and remote ones above a limit leave; the pool is then valid, settled, payable and within its limits in the new state, and gapless if nothing is reinjected; local transactions leave it only if hopeless or replaced |
| Pool.TxPool.Rearrange | core/tx_pool.go:483-497 | demotion, nonces and promotion settle the pool in the new state; only hopeless transactions and remote ones above a limit leave it, the latter no more than a limit calls for |
| Pool.StaysOn | core/tx_pool.go:1007-1178 | what a promotion drops of the transactions added before it is hopeless, or remote and above a limit by what was pooled |
| Pool.TxPool.OnHead | core/tx_pool.go:417-471 | without a common ancestor or without the new state nothing changes; otherwise the pool is reset, with the outcomes of the reinjected transactions |
| Pool.TxPool.SetState | core/tx_pool.go:469-476 | the new state is taken over with no managed nonce; the tables still agree |
| Pool.TxPool.SetNonces | core/tx_pool.go:489-493 | managed nonces move past the last pending transactions |
| Pool.TxPool.Run | core/tx_pool.go:305-380 | over every run of submissions, new heads, price changes and evictions the tables, the lookup table and the price heap agree; in runs without reinjection pending nonces are exactly the interval from the state nonce to the managed nonce |
| Pool.StartsAtGap | core/tx_pool.go:1040-1047 | in a gapless pool the executable run starts exactly at the managed nonce |
| Pool.Equalized | core/tx_pool.go:1067-1137 | equalising drops only transactions of offenders, and nothing unless the pool is full |
| Pool.Trimmed | core/tx_pool.go:1138-1177 | trimming drops only remote transactions, and nothing unless the queue is too long |
| Pool.CostlyDropped | core/tx_pool.go:1031-1039 | filtering a queued list drops only transactions above a limit |
| Pool.SurplusDropped | core/tx_pool.go:1048-1057 | capping drops nothing from an account within its allowance |
| Pool.ShrunkTotal | core/tx_pool.go:1138-1143 | lists that have not grown have no larger total |
| Pool.GaplessAgain | core/tx_pool.go:485-493 | demoted lists that were gapless and the updated nonces are gapless again after a reset |
| Pool.CountTxs | core/tx_pool.go:1068-1071 | counts the transactions of a table |
| Pool.Largest | core/tx_pool.go:1075-1086 | finds an account with a longest list |
| HeaderTree.AncestorOfAncestor | core/headerchain.go:318-348 | an ancestor's ancestor is an ancestor |
| HeaderTree.WalkIsAncestor | core/headerchain.go:318-348 | the naive walk finds the ancestor of a rooted header |
| HeaderTree.WalkSplits | core/headerchain.go:318-348 | a walk can be cut in two |
| HeaderTree.SameAncestors | core/headerchain.go:452-487 | only a header's ancestors matter to what is said about it |
| HeaderChains.HeaderChain.constructor | core/headerchain.go:75-110 | a chain of genesis alone is valid |
| HeaderChains.HeaderChain.WriteHeader | core/headerchain.go:136-198 | refused exactly if the parent is not stored, or is stored under another number and not cached; the chain stays valid (canonical index is the ancestor path of the current header, total difficulties are exact sums) exactly if the header is refused, or is numbered after its parent and does not panic; chosen exactly by difficulty and chance; head difficulty never decreases |
| HeaderChains.HeaderChain.Write | core/headerchain.go:147-197 | what a header with a found parent leads to, rightly numbered or not: one numbered too high leaves its parent listed under a number that is not its own, or panics, exactly by what is cached and stored |
| HeaderChains.HeaderChain.Choose | core/headerchain.go:158-196 | the canonical branch or not, and the header cache |
| HeaderChains.BreaksRecords | core/headerchain.go:143-154 | a header whose parent is stored under another number is new, is not rooted, and nothing is built on it |
| HeaderChains.Misnumbering | core/headerchain.go:136-197 | the input: a header with number 7 on a cached parent with number 1 becomes current; 6 and 7 are listed, 2 to 5 are not |
| HeaderChains.Keep | core/headerchain.go:352-399 | a cache keeps what is added last and may evict anything else |
| HeaderChains.HeaderChain.Adopt | core/headerchain.go:159-190 | for a rightly numbered header the canonical branch succeeds exactly if the stored ancestors reach genesis, and otherwise leaves no canonical index |
| HeaderChains.WriteMeans | core/headerchain.go:142-154 | what writing a header changes: the records stay right exactly if it is numbered after its parent; its total difficulty is then the sum along the known ancestors, and it is rooted exactly if its parent is |
| HeaderChains.RootedOn | core/headerchain.go:143-154 | a new header reaches genesis exactly if its parent does |
| HeaderChains.Orphaned | core/headerchain.go:170-181 | the input: a main chain of two and a side header, all of positive difficulty; rewind, and write on top of the side header: a panic |
| HeaderChains.RewoundFork | core/headerchain.go:452-487 | the rewind deletes the main headers and leaves the side header without its parent |
| HeaderChains.HeaderChain.Reroute | core/headerchain.go:159-184 | for a rightly numbered header it ends exactly if the stored ancestors reach genesis, and then the rewritten numbering is exactly the new head's ancestor path; for one numbered too high, exactly if the parent is cached and rooted |
| HeaderChains.RerouteStep | core/headerchain.go:175-181 | one step down: numbers above the walk are those of the new head, those below are untouched, and genesis is not passed |
| HeaderChains.RerouteEnds | core/headerchain.go:175-184 | a walk that meets the old numbering leaves the new head's ancestor path |
| HeaderChains.StrayStep | core/headerchain.go:175-181 | one step down from a misnumbered header, through the header cache and past genesis |
| HeaderChains.StrayEnds | core/headerchain.go:175-184 | the index that a header numbered too high leaves |
| HeaderChains.HeaderChain.ClearAbove | core/headerchain.go:159-168 | deletes exactly the numbers above the new head |
| HeaderChains.HeaderChain.InsertHeaderChain | core/headerchain.go:262-288 | over every list of headers the chain stays valid, and head difficulty never falls, exactly as long as no misnumbered header is accepted and none panics, which all ancestors being stored excludes; otherwise it stops only when interrupted or at an unknown ancestor |
| HeaderChains.HeaderChain.SetHead | core/headerchain.go:452-487 | leaves exactly the canonical prefix up to min(head, height), with its tip current and the caches empty |
| HeaderChains.HeaderChain.Renumber | core/headerchain.go:470-473 | deletes exactly the numbers above the new head |
| HeaderChains.HeaderChain.Unwind | core/headerchain.go:458-469 | deletes exactly the canonical headers above the new head |
| HeaderChains.HeaderChain.GetAncestor | core/headerchain.go:318-348 | a non-zero answer equals the naive walk whatever the budget; a budget of `ancestor` always suffices, none is needed from a canonical header; a stored hash with another number has exactly the ancestors that the header cache answers for; the zero hash is answered exactly above the head |
| HeaderChains.StrollOn | core/headerchain.go:334-346 | one step of the walk, with the right number or through the cache |
| HeaderChains.ZeroAnswered | core/headerchain.go:330-334 | the input: the zero hash with number 5 above a chain of height 1 |
| HeaderChains.Rewound | core/headerchain.go:452-487 | deleting the canonical headers above a number keeps index and difficulties right |
| HeaderChains.FromCanonical | core/headerchain.go:331-334 | from a canonical header the walk follows the index |
| HeaderChains.WalkNumber | core/headerchain.go:340-346 | a walk of k links goes down k numbers |
| HeaderQuery.Advance | eth/handler.go:413-458 | the next header is skip + 1 parent links away; from a canonical header the query stops exactly where the chain ends |
| HeaderQuery.Descend | eth/handler.go:415-423 | in hash mode towards genesis the next header is skip + 1 parent links down |
| HeaderQuery.Ascend | eth/handler.go:424-446 | in hash mode away from genesis the next header is canonical and has this one skip + 1 links below it |
| HeaderQuery.Answer | eth/handler.go:381-460 | the answer starts at the origin asked for, and its i-th header is i * (skip + 1) steps from there: canonical numbers in number mode, with 64-bit wrap-around, and parent links in hash mode; on the canonical chain it is cut short only where the chain ends |
| HeaderQuery.Collect | eth/handler.go:396-459 | the collecting loop: the first header and the distance of neighbours |
| HeaderQuery.LinkedAtSteps | eth/handler.go:413-458 | the first header and the distance of neighbours fix every position of the answer |
| BlockChains.ReindexedExactly | core/blockchain.go:1370-1378 | the rewritten index is the recomputed one if and only if no transaction dropped for good occurs on the common part |
| BlockChains.IndexSplits | core/blockchain.go:1361-1369 | the index of a chain is that of an ancestor overwritten by the blocks above |
| BlockChains.EntriesExactly | core/rawdb/accessors_indexes.go:43-58 | exactly the transactions of a block have an entry, with the block and their last position in it |
| BlockChains.TxIndexExactly | core/blockchain.go:1361-1369 | exactly the transactions of the path have a position in the index: one where the transaction is, in the last block of the path that holds it |
| BlockChains.UnrepeatedAbove | core/blockchain.go:1370-1378 | without repeated transactions the two parts are disjoint |
| BlockChains.Down | core/blockchain.go:1337-1348 | one step down a branch, if the parent is stored under the number before or cached |
| BlockChains.FindFork | core/blockchain.go:1309-1349 | terminates; for a block numbered after its parent it finds the lowest common ancestor, so the error branches are unreachable |
| BlockChains.CommonIsAncestor | core/blockchain.go:1331-1349 | the common ancestor found is an ancestor of both heads |
| BlockChains.CommonIsLowest | core/blockchain.go:1331-1349 | above it the two chains have no block in common |
| BlockChains.Lower | core/blockchain.go:1319-1348 | one step of the walk from the new head, rightly numbered or not, leaves fewer steps |
| BlockChains.BranchIndex | core/blockchain.go:1361-1371 | the transactions of a branch are the keys its blocks contribute to the index |
| BlockChains.SwitchIndex | core/blockchain.go:1361-1378 | after a reorganisation the index is the one recomputed from the new chain if and only if no transaction dropped for good occurs on the common part; in particular if the old chain repeats none |
| BlockChains.RepeatedIsLost | core/blockchain.go:1370-1378 | the input: genesis with a transaction, a block with it again, and a heavier sibling without it: the index is wrong afterwards |
| BlockChains.BlockChain.constructor | core/blockchain.go:497-514 | a chain of genesis alone is valid and indexed |
| BlockChains.BlockChain.Switch | core/blockchain.go:1361-1378 | numbers and index follow the new branch |
| BlockChains.BlockChain.Adopt | core/blockchain.go:1361-1369 | inserting the branch lowest block first gives the new head's ancestor path |
| BlockChains.BlockChain.WriteBlock | core/blockchain.go:891-1011 | refused exactly if the parent is not stored, or is stored under another number and not cached; valid afterwards exactly if refused or numbered after its parent, and then reorg does not fail; the head choice by difficulty, number and chance; total difficulty of the head never decreases; the lookup index stays right exactly if the switch loses no transaction of the common part |
| BlockChains.BlockChain.Choose | core/blockchain.go:979-1008 | the head change, if the block is chosen |
| BlockChains.BlockMeans | core/blockchain.go:895-916 | writing a block keeps the stored blocks rooted with their total difficulties exactly if it is numbered after its parent |
| BlockChains.BlockMisfits | core/blockchain.go:895-916 | a block whose parent is stored under another number is new, is not rooted, and no other block is on it |
| BlockChains.MisnumberedBlock | core/blockchain.go:891-1008 | the input: a block with number 7 on the current block with number 1 |
| BlockChains.BlockChain.MakeHead | core/blockchain.go:984-1008 | extending or reorganising leaves the new head's ancestor path, and its index exactly if nothing on the common part is lost |
| Reinjection.DifferenceExactly | core/types/transactions_type.go:49-64 | the difference of two lists keeps what is not in the second, as often as it is there |
| Reinjection.TxDifference | core/types/transactions_type.go:49-64 | computes that difference, with exactly those members |
| Reinjection.TxsOfBranch | core/tx_pool.go:435-462 | the transactions collected on a branch are exactly those it adds to the index |
| Reinjection.Collect | core/tx_pool.go:436-461 | one turn of a walk collects the transactions of a block and finds its parent |
| Reinjection.WalkBoth | core/tx_pool.go:435-463 | the walks end at the lowest common ancestor with the transactions that only the old branch has; the error returns are unreachable |
| Reinjection.MakePlan | core/tx_pool.go:417-464 | nothing is reinjected without an old head, on top of it or across more than 64 numbers; otherwise exactly what only the old branch has, or a panic exactly if a head is not stored |
| Reinjection.NothingLost | core/tx_pool.go:417-464 | every transaction of the old chain is on the new one or reinjected, and none is reinjected that the new branch has |
| Reinjection.NothingToReinject | core/tx_pool.go:421-421 | a head on top of the old one keeps all its transactions |
| Reinjection.RewoundHead | core/tx_pool.go:432-436 | the input: the old head was rewound and the next block is on genesis |
| ChainIndexers.ChainIndexer.constructor | core/chain_indexer.go:100-139 | the sections found and an optional checkpoint, with any head, make a sound start |
| ChainIndexers.ProcessSection | core/chain_indexer.go:382-412 | succeeds exactly if the blocks read form a chain on the last head and the backend commits; the new head is then exactly sectionSize links above it |
| ChainIndexers.ContinuesUp | core/chain_indexer.go:392-407 | the blocks of a section lead back to the head it started from |
| ChainIndexers.SectionsDescend | core/chain_indexer.go:346-348 | n sections down are exactly n * sectionSize parent links |
| ChainIndexers.SoundMore | core/chain_indexer.go:346-348 | committing the next section keeps the heads linked |
| ChainIndexers.StillNext | core/chain_indexer.go:346-346 | comparing section heads tells exactly whether the section is still the next one, also on a checkpoint with the zero hash |
| ChainIndexers.ChainIndexer.TakeBack | core/chain_indexer.go:453-466 | the loop removes exactly the heads at and above the new count |
| ChainIndexers.ChainIndexer.Rollback | core/chain_indexer.go:453-466 | rolling back leaves a sound prefix |
| ChainIndexers.ChainIndexer.OnNewHead | core/chain_indexer.go:239-297 | a reorganisation keeps exactly the sections before it, never fewer than the checkpoint's; otherwise exactly the confirmed sections become known, once the checkpoint matches |
| ChainIndexers.ChainIndexer.ConfirmedExactly | core/chain_indexer.go:273-278 | a section is known exactly if its last block, and the checkpoint's, have enough blocks on top |
| ChainIndexers.ChainIndexer.ReorgKeeps | core/chain_indexer.go:244-260 | a reorganisation keeps exactly the sections that end below its head or belong to the checkpoint |
| ChainIndexers.ChainIndexer.OnBegin | core/chain_indexer.go:315-332 | the section picked is the next one, with the head it will build on |
| ChainIndexers.ChainIndexer.OnBackendReset | core/chain_indexer.go:387-390 | a failing backend invalidates all sections |
| ChainIndexers.ChainIndexer.OnFinish | core/chain_indexer.go:343-362 | a section is committed exactly if it succeeded and storedSections still equals it |
| ChainIndexers.ChainIndexer.Step | core/chain_indexer.go:239-412 | every event keeps the indexer sound |
| ChainIndexers.ChainIndexer.Run | core/chain_indexer.go:239-412 | over all interleavings the indexer stays valid: no head is at or above storedSections and each processed head descends from the previous one by exactly sectionSize links |
| StateTransitions.CreditTotal | core/state_transition.go:254-255 | crediting an account changes the total by exactly that amount |
| StateTransitions.SharesExactly | core/state_transition.go:265-271 | both shares of every fee are non-negative if and only if the rate is from 0 to 100 |
| StateTransitions.FeeIsSplit | core/state_transition.go:265-271 | the fairnode's share is the percentage of the fee, rounded down |
| StateTransitions.ShareIsNegative | core/state_transition.go:265-271 | the input: at a rate of 101 the miner's share of a fee of 100 is -1 |
| StateTransitions.GivenBack | core/state_transition.go:274-279 | the gas given back is at least what was left, at most the allowance, and refunds at most half of what was used |
| StateTransitions.Conserves | core/state_transition.go:243-288 | buying, refunding and sharing lose nothing but a fee that is not shared out, whatever accounts coincide |
| StateTransitions.StaysSolvent | core/state_transition.go:243-288 | with a rate from 0 to 100 settling leaves nobody in debt |
| StateTransitions.GasPool.constructor | core/state_processor.go:65-65 | a pool holds the block's gas limit |
| StateTransitions.GasPool.AddGas | core/gaspool.go:29-35 | adds gas; the panic is a precondition |
| StateTransitions.GasPool.SubGas | core/gaspool.go:39-45 | takes gas exactly if enough is left |
| StateTransitions.StateTransition.constructor | core/state_transition.go:117-127 | a transition starts without gas |
| StateTransitions.StateTransition.UseGas | core/state_transition.go:148-155 | takes gas exactly if enough is left |
| StateTransitions.StateTransition.BuyGas | core/state_transition.go:157-170 | moves the whole allowance and its price, or says why not |
| StateTransitions.StateTransition.PreCheck | core/state_transition.go:172-183 | refused exactly for a nonce above or below the sender's, a balance below the price of all the gas, or a pool below it, in this order |
| StateTransitions.StateTransition.PayIntrinsicGas | core/state_transition.go:189-216 | refuses for exactly one reason, in the order of the checks; joining costs no intrinsic gas |
| StateTransitions.StateTransition.RefundGas | core/state_transition.go:273-288 | the refund is capped at half; the pool gets the gas back without overflow |
| StateTransitions.StateTransition.PayFees | core/state_transition.go:244-256 | the fee is shared between coinbase and fairnode |
| StateTransitions.StateTransition.Settle | core/state_transition.go:243-256 | refund and fees together |
| StateTransitions.StateTransition.TransitionDb | core/state_transition.go:188-263 | the result, the pool and the whole new state; every failure has its exact condition, and a message that succeeds carries the nonce of its sender and is paid for |
| StateTransitions.StateTransition.Transition | core/state_transition.go:188-263 | checks, machine, refund and fees in order leave the state that is specified |
| StateTransitions.AppliedFailsRightly | core/state_transition.go:157-216 | the exact condition of every refusal in terms of nonce, balance, pool, intrinsic gas and value; without one only the machine can fail |
| StateTransitions.AppliedRuns | core/state_transition.go:188-293 | what the machine is run on, when it makes the message fail, and from its outcome the exact gas used, nonces, pool and money of every account, whatever addresses coincide |
| StateTransitions.SettledMoney | core/state_transition.go:243-287 | the money of every account after refund and fees |
| StateTransitions.RefundExactly | core/state_transition.go:273-279 | the refund is the counter, capped at half the gas used, rounded down |
| StateTransitions.AppliedConserves | core/state_transition.go:188-293 | gas used and pool add up; no money is lost but an unshared fee; at least half the intrinsic gas is used; nobody ends in debt |
| StateProcessor.ApplyTransaction | core/state_processor.go:100-135 | the running total of gas cannot overflow |
| StateProcessor.Process | core/state_processor.go:57-94 | gas used plus remaining pool is the block's limit; total money is unchanged or falls by exactly the fees; every message with a checked nonce carries its sender's at that point; the first failure ends the block, for its exact reason and after the messages before it |
| StateProcessor.BlockConserves | core/state_processor.go:73-86 | gas and money are conserved over every block |
| StateProcessor.ReplaysRightly | core/state_processor.go:73-86 | every message of a processed block carries its sender's nonce at that point, if it is checked, and could pay for its gas from balance and pool |
| StateProcessor.SetReceiptsData | core/blockchain.go:750-773 | derives each receipt's gas from the cumulative values, with 64-bit subtraction |
| StateProcessor.RecoversGas | core/blockchain.go:764-769 | the derived gas is the gas each transaction used |
| Feeds.Find | event/feed.go:213-220 | the first case with the channel, or -1 exactly if there is none |
| Feeds.DeleteTakesOne | event/feed.go:223-225 | deleting takes exactly one case out |
| Feeds.Deactivate | event/feed.go:228-232 | deactivating moves one case out of the active prefix and changes nothing else |
| Feeds.DeleteAt | event/feed.go:172-177 | deleting an active case shrinks the prefix, deleting another leaves it alone |
| Feeds.StartsLeaving | event/feed.go:104-124 | a channel not in the inbox is among the send cases, however many goroutines wait for it |
| Feeds.Feed.constructor | event/feed.go:61-66 | a new feed has only removeSub |
| Feeds.Feed.Subscribe | event/feed.go:73-93 | a new subscription goes to the inbox |
| Feeds.Feed.Unsubscribe | event/feed.go:104-118 | takes the channel out of the inbox or waits, and the ledger says which |
| Feeds.Feed.FindLeaving | event/feed.go:171-173 | the case of a waiting goroutine is always found, and not in slot 0 |
| Feeds.Feed.Release | event/feed.go:171-178 | exactly the case of a waiting goroutine is removed, and it waits no longer |
| Feeds.Feed.RemoveIdle | event/feed.go:120-123 | without a Send in progress exactly one case is removed |
| Feeds.Feed.TakeInbox | event/feed.go:135-138 | the inbox joins the send cases |
| Feeds.Feed.Interleave | event/feed.go:73-124 | what other goroutines do meanwhile adds no more to the ledger than they asked for, and removes no case |
| Feeds.Feed.TryAll | event/feed.go:156-165 | the fast path delivers to any of the active cases, each once |
| Feeds.Feed.Select | event/feed.go:169-181 | each select delivers to one active case or removes one of a waiting goroutine, which then waits no longer; the measure goes down |
| Feeds.Accounted | event/feed.go:104-124 | the cases removed and the goroutines still waiting are those that waited before and those that asked since; subscriptions are conserved; if nobody asks, nobody is removed |
| Feeds.TracedTurn | event/feed.go:155-181 | over the turns of the environment the ledger grows by no more than what it asked for |
| Feeds.Feed.Send | event/feed.go:129-190 | for every schedule each channel gets the value exactly once unless removed first; nsent counts; the cases left are the initial ones without the removed ones, slot 0 in place; a case is removed only for a goroutine that asked, subscriptions are conserved, and if nobody asks everybody gets the value |
| FinalVote.Count | fairnode/verify/verify.go:36-52 | counts the votes for each header |
| FinalVote.FinalBlockHash | fairnode/verify/verify.go:26-105 | the winner was voted for and no other has more votes; among those with as many it leads in difficulty, then nonce, then coinbase, whatever the order of the map |
| FinalVote.BestHasMostVotes | fairnode/verify/verify.go:69-71 | no header has more votes than the winner |
| FinalVote.BestLeads | fairnode/verify/verify.go:69-101 | the winner leads in votes, difficulty, nonce and coinbase, in this order |
| FinalVote.LeaderIsBest | fairnode/verify/verify.go:69-101 | conversely a header that leads may win |
| FinalVote.DecisionIsUnique | fairnode/verify/verify.go:54-105 | without a tie with the winner the decision is independent of the order of map and votes |
| FinalVote.TiedAreBest | fairnode/verify/verify.go:75-95 | a header that ties with the winner on all four fields could have won as well |
| FinalVote.PromiseKeptExactly | fairnode/verify/verify.go:54-95 | the winner is the one the comment promises if and only if the height is even or no header with another coinbase equals it in votes, difficulty and nonce |
| FinalVote.PromiseBroken | fairnode/verify/verify.go:54-95 | the input: two headers at an odd height that differ only in their coinbase |
| Fairnodes.Fairnode.constructor | fairnode/fairnode.go:164-168 | a fairnode starts with the last final block |
| Fairnodes.PanicsExactly | fairnode/fairnode.go:583-594 | the hand-off divides by zero if and only if the epoch is 1 or 2^64-1 |
| Fairnodes.PanicsAtOne | fairnode/fairnode.go:594-594 | the input 1 |
| Fairnodes.PanicsAtMinusOne | fairnode/fairnode.go:594-594 | the input 2^64-1, which is read as -1 |
| Fairnodes.HalfwayExactly | fairnode/fairnode.go:594-594 | for epochs from 2 to 2^63-1 the half is the half |
| Fairnodes.Fairnode.NewOtprn | fairnode/fairnode.go:514-560 | a new league is added exactly if enough nodes are active and its place is free, for any epoch |
| Fairnodes.Fairnode.AwaitNodes | fairnode/fairnode.go:390-406 | the league starts with enough nodes and is rejected after the timeout |
| Fairnodes.Fairnode.Advance | fairnode/fairnode.go:407-429 | the plain status changes keep height and hashes |
| Fairnodes.Fairnode.CountVotes | fairnode/fairnode.go:430-443 | with one vote less than the least number of miners the elected block, which no other exceeds in votes, and the vote hash are set; otherwise the league is rejected |
| Fairnodes.ElectedLeads | fairnode/fairnode.go:430-443 | the elected hashes are exactly those of the headers that lead in votes, difficulty, nonce and coinbase |
| Fairnodes.Fairnode.AwaitBlock | fairnode/fairnode.go:447-468 | the block hash is set, and the league goes on exactly if that block is in the database |
| Fairnodes.Fairnode.Conclude | fairnode/fairnode.go:473-487 | the height grows by exactly one, the hashes are cleared, and the epoch decides what follows; the run ends here exactly for the two epochs that panic |
| Fairnodes.Fairnode.HandOff | fairnode/fairnode.go:577-612 | at the half of an epoch the next league is prepared, at its end this one is rejected, otherwise it goes on; panics exactly for the two epochs |
| Fairnodes.Fairnode.AtHalf | fairnode/fairnode.go:583-598 | where a height stands in an epoch, with the signed half |
| Fairnodes.Fairnode.Replace | fairnode/fairnode.go:488-505 | a rejected league is deleted and the pending one takes its place |
| Fairnodes.Fairnode.Work | fairnode/fairnode.go:386-505 | a tick in any status but the last follows the protocol order and changes no epoch |
| Fairnodes.Fairnode.Tick | fairnode/fairnode.go:381-509 | every status change follows the protocol order; the tick ends the run exactly if it finishes a league with one of the two epochs |
| Fairnodes.Fairnode.OnVote | fairnode/rpc_server.go:410-438 | a vote counts exactly for the next height of a league |
| Fairnodes.Fairnode.OnSendBlock | fairnode/rpc_server.go:664-707 | exactly the decided block is signed and becomes current, once |
| Fairnodes.Fairnode.OnRequestSign | fairnode/rpc_server.go:743-775 | exactly the decided pair of hashes is signed |
| Fairnodes.SignOnce | fairnode/rpc_server.go:755-775 | signing the decided pair at the league's height keeps one signature per height |
| Fairnodes.SavedIsOnTop | fairnode/fairnode.go:453-455 | a block found while it is waited for is the last final block |
| Fairnodes.OneBlockPerHeight | fairnode/fairdb/memory_database.go:188-200 | at most one final block per height |
| Fairnodes.Fairnode.Step | fairnode/fairnode.go:385-612 | every event keeps the fairnode valid and no signature is forgotten; without an OTPRN of one of the two epochs it does not end the run |
| Fairnodes.Fairnode.Run | fairnode/fairnode.go:385-612 | over every run and for every epoch only the current and the pending league are held, the hashes are set when used, final blocks are consecutive, and within one league at most one pair is signed per height; the run ends early only after an OTPRN with one of the two epochs |
| Distributors.WithoutTakesOut | les/distributor.go:275-281 | removing a request keeps the order |
| Distributors.Position | les/distributor.go:238-247 | the place where a request belongs by its order |
| Distributors.InsertSorted | les/distributor.go:238-247 | inserting there keeps the queue sorted |
| Distributors.ChannelClosed | les/distributor.go:269-270 | closing a request's channel leaves exactly the other queued requests with an open channel |
| Distributors.ScanPeers | les/distributor.go:188-209 | asks every unchecked peer about one request and keeps the earliest request of each |
| Distributors.ScanNext | les/distributor.go:187-215 | the front request is dropped exactly if no registered peer can serve it |
| Distributors.FirstForIsFirst | les/distributor.go:172-223 | the earliest request of a peer is queued, and the peer serves none before it |
| Distributors.FirstForSkips | les/distributor.go:210-215 | dropped requests do not change what comes first |
| Distributors.Distributor.constructor | les/distributor.go:70-82 | a new distributor is empty |
| Distributors.Distributor.RegisterPeer | les/distributor.go:85-89 | adds a peer |
| Distributors.Distributor.UnregisterPeer | les/distributor.go:92-96 | removes a peer |
| Distributors.Distributor.Enqueue | les/distributor.go:229-256 | a request keeps its order when resent; the queue stays sorted; its channel is new |
| Distributors.Distributor.Place | les/distributor.go:233-247 | orders are never reused |
| Distributors.Distributor.Wake | les/distributor.go:249-252 | at most one wake-up signal is on its way |
| Distributors.Distributor.Finish | les/distributor.go:275-281 | the channel closed was open, and no other one is touched |
| Distributors.Distributor.Cancel | les/distributor.go:261-272 | succeeds exactly if the request is queued |
| Distributors.Distributor.NextRequest | les/distributor.go:174-223 | drops exactly the unservable requests in front; the peer chosen gets the earliest request it can serve, with the shortest wait of all |
| Distributors.Distributor.Pick | les/distributor.go:218-222 | a request that can go at once is preferred, then the shortest wait |
| Distributors.Distributor.Serve | les/distributor.go:127-136 | a request is sent exactly if some registered peer's earliest can go at once; it is its peer's earliest, and its channel is closed with that peer; besides exactly the unservable requests at the front leave the queue, and their channels are closed without one |
| Distributors.Distributor.OnSignal | les/distributor.go:122-155 | every round but the last sends a request, and after the last no earliest request of a peer can go at once; ends with an empty queue, or with a servable request at the front and a new wake-up signal; a request leaves the queue only when it is sent or in a round in which no registered peer can serve it |
| Distributors.AnsweredRound | les/distributor.go:122-155 | one more round: what left the queue is still accounted for |
| Distributors.Distributor.Stop | les/distributor.go:113-121 | closes every channel still open, each once; afterwards cancelling panics exactly for the requests still queued |
| Distributors.Distributor.NoCancelPanics | les/distributor.go:261-272 | before the stop no cancellation panics |
| Distributors.Distributor.CancelAfterStop | les/distributor.go:113-272 | the input: queue a request, stop, cancel |
| Distributors.Distributor.Run | les/distributor.go:110-272 | over every run before the stop the queue is sorted, exactly the queued requests have an open channel, closed channels stay closed, and no request waits without a signal |
| ByteConversion.ValueOfMagnitude | byteconversion/conversion.go:87-88 | the shortest bytes of a number have its value and no leading zero |
| ByteConversion.ValueOfFlipped | byteconversion/conversion.go:127-136 | flipping all bytes complements the value |
| ByteConversion.FlipBitsIsComplement | byteconversion/conversion.go:132-134 | flipping every bit is the complement, for any width |
| ByteConversion.FlippedByte | byteconversion/conversion.go:132-134 | exclusive or with 255 is the complement to 255 |
| ByteConversion.SignBitIsHalf | byteconversion/conversion.go:39-40 | the sign bit is set from 128 on |
| ByteConversion.FlipBytes | byteconversion/conversion.go:127-136 | flips every byte |
| ByteConversion.SignedInjective | byteconversion/conversion.go:24-29 | two's complement of one length is unambiguous |
| ByteConversion.FromByteArray | byteconversion/conversion.go:30-61 | decodes two's complement of any non-empty bytes, and refuses only the empty string |
| ByteConversion.ToByteArray | byteconversion/conversion.go:83-121 | the bytes decode to the integer, in the fewest bytes but for one more exactly at -2^(8k-1) |
| ByteConversion.ShortestForm | byteconversion/conversion.go:77-82 | no other form is shorter, except by one byte at -2^(8k-1) |
| ByteConversion.HasForm | byteconversion/conversion.go:24-29 | every integer of the range of n bytes has a form of n bytes |
| ByteConversion.MinimalExactly | byteconversion/conversion.go:77-121 | the encoding is no longer than any other form if and only if the integer is not -2^(8k-1) for any k |
| ByteConversion.NotMinimal | byteconversion/conversion.go:77-121 | the input -128: one byte would do, two are used |
| ByteConversion.RoundTrip | byteconversion/conversion.go:30-121 | decoding the encoded integer gives it back |
| HdPath.SplitFirst | accounts/hd.go:72-72 | splitting at slashes cuts off the first component |
| HdPath.TrimPadded | accounts/hd.go:91-98 | white space around a text is ignored |
| HdPath.SetDecimal | accounts/hd.go:100-104 | a printed number reads as itself |
| HdPath.SetInBase | accounts/hd.go:100-104 | a number after 0b, 0o, 0 or 0x reads in base 2, 8, 8 or 16 |
| HdPath.SetSigned | accounts/hd.go:100-104 | a sign in front of a number is read as such |
| HdPath.HexComponent | accounts/hd.go:91-115 | an index in hexadecimal digits, plain or hardened, reads as itself |
| HdPath.ComponentRoundTrip | accounts/hd.go:91-115 | a printed component reads as itself |
| HdPath.PlainHardened | accounts/hd.go:95-112 | an index from 2^31 on may be written plainly or with the hardened mark |
| HdPath.PaddedComponent | accounts/hd.go:91-99 | white space around a component is ignored |
| HdPath.ParseDerivationPath | accounts/hd.go:68-118 | the parsed path or the first error |
| HdPath.ParseComponents | accounts/hd.go:90-117 | components are appended to the root one by one |
| HdPath.ToString | accounts/hd.go:122-136 | the canonical text of a path |
| HdPath.SplitTail | accounts/hd.go:122-136 | splitting a printed path gives its printed components |
| HdPath.RoundTrip | accounts/hd.go:68-136 | a printed path is parsed as itself if and only if it is not empty |
| HdPath.Reparses | accounts/hd.go:68-136 | printing what was read from any accepted text and reading it again gives the same path |
| HdPath.RelativePath | accounts/hd.go:71-117 | without a leading m a path reads as the same text after one does, below m/44'/60'/0'/0, and fails as that does; without a first component it is ambiguous |
| HdPath.PrintedInjective | accounts/hd.go:122-136 | different paths are printed differently |

## Left out

- Aliasing of transaction lists: the pool keeps each account's list as the value that class TxList is proved to maintain, not as a shared object.
- Nonces at 2^64-1 (section "Specification" of EIP-2681 excludes them) and wrap-around of request orders, heartbeats and block numbers.
- Journaling, broadcasting, metrics, logging, the caches of block numbers, bodies and receipts, and database batches.
- Reinjection.MakePlan: takes the distance of the heads as an integer, which the source rounds to a floating-point number from 2^53 on; the list found is an input of `Pool.TxPool.Reset`, where transactions are values instead of hashes.
- Pending contiguity is stated for runs whose resets reinject nothing, and `stales` by a bound; stronger forms are not stated.
- Pool.TxPool.constructor: the transactions of the journal are not loaded; they arrive as a submission of a run.
- HeaderChains.HeaderChain.InsertHeaderChain: ends at the first misnumbered header that is accepted, because nothing is proved of an invalid chain; the statistics it logs and the callback's other errors.
- HeaderChains.HeaderChain.WriteHeader: of a header numbered at or below its parent that is accepted and chosen it says that the chain is not valid afterwards, not which numbers are rewritten.
- HeaderChains.HeaderChain.GetAncestor: does not record that its readings fill the header cache; what is stated holds for any contents of the caches.
- BlockChains.BlockChain.WriteBlock: the pruning of state tries, which reads the canonical header 128 below the new block.
- ChainIndexers.ChainIndexer.constructor: requires a checkpoint at or above the one that the stored sections came from; a restart without it is not part of this model.
- BlockChain.SetHead, fast sync, the head header and head fast block markers, and canonical entries above a shorter new head.
- Children of a chain indexer, throttling, and the interleaving of a failing backend reset with a notification in the middle of its loop.
- EVM interpretation, state tries and refund accounting: the virtual machine is any function that returns at most the gas given, keeps the total of balances and leaves no debt.
- StateProcessor.Process: the block rewards of engine.Finalize are not part of this model, nor are the DAO fork and L1 data fees.
- StateProcessor.SetReceiptsData: only the gas field; hashes, contract addresses, logs and bloom filters of receipts are not part of this model.
- Type checks and reflection in the event feed, and fairness of `select`.
- Fairnode: follower loop, role changes, heartbeats, request decoding and signature checks; the vote key is the pair of league and height, which the source packs into 32 bytes; handlers and ticks are atomic.
- The weights of weightedRandomSelect: any candidate may be chosen.
- Distributors.Distributor.Enqueue: requires the request not to be queued; the source would insert it a second time and overwrite its channel.
- Distributors.Distributor.Run: an event that queues a request already queued is ignored, for the same reason.
- Linked list elements of the request queue and request objects: the queue is a sequence of request identities, and their order and channel are kept in maps.

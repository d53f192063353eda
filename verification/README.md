# Chain and pool of a HayekChain node, verified

A model in Dafny of the core of the node: the transaction pool and its lists, the header chain, block reorganisation, the ancestor lookups built on it, message application and gas accounting, the link between what the pool offers and what a block accepts, the event feed, the chain indexer, wallet paths and the gas limit rule. Everything the source changes in place is a class or a loop here and is proved against a specification; protocols between goroutines are state machines whose steps interleave freely.

`dafny verify dfyconfig.toml` checks the whole project.

## How it is modelled

- Hashes are injective. A transaction stands for its own hash; a block hash holds the block it was taken from, so a block determines its ancestry. The zero hash belongs to nothing.
- The database is a set of maps, and a write batch takes effect at once.
- `container/heap` is written out (module `Heap`) and proved; `sort.Sort` is a sort by insertion.
- Time is a clock of the pool that stands still during an event and moves by an event of its own, to any reading. The zero time is its reading 0.
- Coins, channel readiness, backend failures and the order of goroutines are nondeterministic. The virtual machine is any function that returns no more gas than it was given.
- The pool keeps its lists and virtual nonces as values. The in-place classes `TxSortedMap`, `TxList` and `TxNoncer` are proved to compute those values.
- `hide` statements at the start of a proof only keep definitions out of the solver's way.

The files, from the bottom up: `Types`, `NonceMap`, `Heap`, `TxSortedMap`, `TxList`, `PricedList`, `TxNoncer`, `Account` (one account through every operation), `Admission` (what adding a transaction does to the whole pool), `Submission` (a batch and its errors), `PoolState` (how the views agree), `Fairness`, `Conservation` (what a run may take from an account), `History` (the pool from event to event, on values), `Losses` (what the pool may lose, and what it may not), `Heartbeat` (who keeps a queue at an eviction tick), `TxPool`, `Shortfalls` (pools in which the code falls short), `Scheduler`; `Chain`, `HeaderChain`, `Ancestry`, `Reorg`, `ChainIndexer`; `StateTransition`, `StateProcessor`, `Execution` (from the pool to a block), `GasLimit`; `Feed`; `DerivationPath`.

## Where the code falls short of a promise

Each line names the member with the exact condition and the one that shows it happening.

- A resetting run promotes from the state nonce and stops at what is still pending, so it can leave an executable transaction queued (`Account.ResetLeavesBehind`; it happens in `Account.ResetCanLeaveBehind`, `Account.ReturnCanLeaveBehind`; for the pool, `TxPool.TxPool.RunReorg`). Later resetting runs do not make it pending before the state nonce reaches it; a run that is asked to promote the account moves it on (`Account.StrandedUntil`, `Account.StrandedNoMore`).
- A resetting run can leave an account out of order in two ways. A discard while transactions return can push the virtual nonce below the new state nonce, after which nothing is promoted. A head that goes back to a lower state nonce can bring back too few transactions to close the gap (`Account.ResetGaplessIff`, `Account.ResetCanLoseNonce`, `Account.ResetCanLeaveGap`; for the pool, `TxPool.TxPool.RunReorg`).
- A pool is full by its count of transactions, but makes room by slots. Without local accounts it can ask for more slots than the heap has entries, and `Discard` panics on a negative capacity (`TxPool.TxPool.Add` with `Admission.Panics`, `PricedList.PanicsIff`, `Shortfalls.PanicHappens`).
- The rules for intrinsic gas change only after abandoned transactions were added again, and pooled ones are not checked again. With room for what returns, everything pooled pays under the new rules if and only if everything in `Admission.Joined` does, which is known before the reset; for any otherwise valid transaction that does not pay under them there is a reset that pools it (`TxPool.TxPool.Reset`, `Shortfalls.StricterRules`). While rules only loosen it cannot happen (`TxPool.Lifetime`).
- `truncateQueue` drops the most recently active accounts first, while its comment speaks of the oldest (`TxPool.TxPool.TruncateQueue`, `Shortfalls.NewestGoes`).
- Room is made before a newcomer is compared with what holds its place, so a refused one can cost others theirs (`Admission.RefusedAtACost`, `Shortfalls.RefusalCosts`).
- Room can also be made by discarding the very transaction whose place the newcomer takes, which then needs no percentage on top (`Admission.StepRaises`, `Shortfalls.RoomWithoutBump`). As long as no holder of a place is discarded, its price rises by the percentage each time (`Admission.TraceRaises`).
- Replacing a pending transaction leaves a heartbeat although nothing is queued. What is queued later does not renew it, so a fresh queue can go at the next eviction tick; it stays if and only if the sender is local or the heartbeat on record, or the time of queueing where there is none, is within the lifetime (`Heartbeat.QueuedKeptIff`, `Shortfalls.StaleHeartbeat`).
- The stale counter is not the number of stale entries once a transaction was removed and added again (`PricedList.StalesExactIff`, `PricedList.CountedTwice`).
- Re-importing headers that are all known can move the head and leave the index on the old branch (`HeaderChain.HeaderChain.WriteHeaders`, `HeaderChain.StaleIndex`).
- A banned header is only noticed in a batch of two or more (`HeaderChain.CheckLinks`, `HeaderChain.BannedAlone`).
- A single block that replaces a longer branch leaves index entries above the new head (`Reorg.BlockChain.WriteKnownBlock`, `Reorg.StaleIndex`).
- A failed backend reset drops the checkpoint too, and up to its section nothing is compared with the canonical chain any more (`ChainIndexer.ChainIndexer.Sections`, `ChainIndexer.StaleSection`).

## Model

| member | source | states |
|---|---|---|
| TxSortedMap.TxSortedMap.constructor | go-hayekchain/core/tx_list.go:59-64 | a new map is empty, with an empty nonce heap and no cache |
| TxSortedMap.TxSortedMap.Put | go-hayekchain/core/tx_list.go:73-79 | the contents gain or replace one nonce; the heap stays a min-heap permutation of the stored nonces; the cache is dropped |
| TxSortedMap.TxSortedMap.Forward | go-hayekchain/core/tx_list.go:84-100 | removes and returns exactly the nonces below the threshold, ascending; a kept cache is still the sorted contents |
| TxSortedMap.TxSortedMap.PopBelow | go-hayekchain/core/tx_list.go:88-93 | the pop loop of `Forward` stops at the threshold with every lower nonce taken in order |
| TxSortedMap.TxSortedMap.Reheap | go-hayekchain/core/tx_list.go:114-121 | rebuilds a valid heap of exactly the stored nonces |
| TxSortedMap.TxSortedMap.DropMatching | go-hayekchain/core/tx_list.go:125-139 | one pass removes exactly the matching transactions, each returned once |
| TxSortedMap.TxSortedMap.Filter | go-hayekchain/core/tx_list.go:105-112 | keeps exactly what the filter rejects, and heap and cache agree with it afterwards |
| TxSortedMap.TxSortedMap.Cap | go-hayekchain/core/tx_list.go:143-164 | keeps exactly the lowest nonces up to the threshold; returns the others descending; trims a cache consistently |
| TxSortedMap.TxSortedMap.DropAbove | go-hayekchain/core/tx_list.go:149-157 | the loop of `Cap` over the sorted heap leaves a sorted prefix that indexes what is kept |
| TxSortedMap.TxSortedMap.Remove | go-hayekchain/core/tx_list.go:168-186 | removes one nonce if present, leaving a heap of the rest |
| TxSortedMap.TxSortedMap.Ready | go-hayekchain/core/tx_list.go:194-209 | returns the maximal consecutive run from the lowest nonce, or nothing when that nonce is above the start |
| TxSortedMap.TxSortedMap.PopRun | go-hayekchain/core/tx_list.go:199-206 | the pop loop of `Ready` takes the run and stops at the first gap |
| TxSortedMap.TxSortedMap.Flatten | go-hayekchain/core/tx_list.go:216-237 | returns the contents sorted by nonce, building the cache once |
| TxSortedMap.TxSortedMap.LastElement | go-hayekchain/core/tx_list.go:241-244 | on a non-empty map returns the transaction with the highest nonce |
| TxLists.HistoryKeepsCaps | go-hayekchain/core/tx_list.go:279-373 | in every history of adds, forwards, filters, caps, removals and readies, cost and gas caps bound every member |
| TxLists.FilterIsFullScan | go-hayekchain/core/tx_list.go:322-333 | with sound caps the short circuit of `Filter` agrees with a full scan |
| TxLists.FilterPartitions | go-hayekchain/core/tx_list.go:322-351 | kept, removed and invalid transactions partition the old list; a gapless strict list keeps a gapless prefix |
| TxLists.RemovePartitions | go-hayekchain/core/tx_list.go:362-373 | the same for removing one transaction |
| TxLists.ReadyIsMaximalRun | go-hayekchain/core/tx_list.go:194-209 | run and rest partition the list, and the run ends at the first missing nonce |
| TxLists.TxList.Add | go-hayekchain/core/tx_list.go:279-304 | a new nonce is accepted, and a replacement if and only if its price is above the old one and, times a hundred, above the old one with the percentage less a hundred; the caps rise with it |
| TxLists.OutbidsRaises | go-hayekchain/core/tx_list.go:281-294 | the rounded threshold of the code and that inequality in prices say the same |
| TxLists.TxList.Forward | go-hayekchain/core/tx_list.go:309-311 | drops exactly the stale nonces and leaves the caps |
| TxLists.TxList.Filter | go-hayekchain/core/tx_list.go:322-351 | the in-place filter computes the value-level filter, with its removed and invalid lists |
| TxLists.LowestOf | go-hayekchain/core/tx_list.go:340-346 | the loop that finds the lowest removed nonce finds the minimum |
| TxLists.TxList.Cap | go-hayekchain/core/tx_list.go:355-357 | keeps the lowest nonces and returns the rest descending |
| TxLists.TxList.Remove | go-hayekchain/core/tx_list.go:362-373 | removes by nonce and, on a strict list, everything above it |
| TxLists.TxList.Ready | go-hayekchain/core/tx_list.go:382-384 | takes the ready run off the list |
| TxLists.TxList.LastElement | go-hayekchain/core/tx_list.go:405-407 | the highest nonce of a non-empty list |
| PricedList.TxLookup.Add | go-hayekchain/core/tx_pool.go:1581-1589 | the lookup gains the transaction and the counter its slots |
| PricedList.TxLookup.Remove | go-hayekchain/core/tx_pool.go:1592-1600 | the lookup loses it, and the counter stays the slot sum of the members |
| PricedList.SlotsCoverCount | go-hayekchain/core/tx_pool.go:1603-1605 | slots are at least as many as transactions, whatever their sizes |
| Types.AtMostFour | go-hayekchain/core/tx_pool.go:41-52 | the largest transaction, of 128 kilobytes, takes four slots and none takes more |
| PricedList.StalesBoundReality | go-hayekchain/core/tx_list.go:441-447 | when the heap tracks the lookup, the stale counter is never negative and never undercounts |
| PricedList.StalesExactIff | go-hayekchain/core/tx_list.go:441-447 | the counter is exact if and only if every live transaction has one entry and heap length minus the counter is the number of live ones |
| PricedList.CountedTwice | go-hayekchain/core/tx_list.go:458-480 | a list that gets there: a transaction is removed and added again while its old entry is still in the heap, and the counter is one too high |
| PricedList.TxPricedList.Put | go-hayekchain/core/tx_list.go:458-460 | a push keeps the heap tracking the lookup with the new member, also when an old entry of it is still there |
| PricedList.TxPricedList.Removed | go-hayekchain/core/tx_list.go:465-480 | announced removals pay off their debt, by counting or by rebuilding the heap from the lookup |
| PricedList.TxPricedList.Cap | go-hayekchain/core/tx_list.go:484-511 | drops exactly the live remote transactions priced below the threshold |
| PricedList.TxPricedList.PopStale | go-hayekchain/core/tx_list.go:521-529 | pops exactly the stale entries before the first live one, with the counter in step |
| PricedList.TxPricedList.Underpriced | go-hayekchain/core/tx_list.go:515-537 | a remote transaction is underpriced exactly when a full scan finds nothing cheaper |
| PricedList.TxPricedList.CountDiscardable | go-hayekchain/core/tx_list.go:543-559 | the early exit of the counting loop does not change how many slots are gone for |
| PricedList.TxPricedList.TakeCheapest | go-hayekchain/core/tx_list.go:566-580 | pops a lowest-ranked set of live remote transactions and stops as soon as the goal is met |
| PricedList.TxPricedList.Discard | go-hayekchain/core/tx_list.go:541-585 | panics exactly when a result capacity is negative; otherwise drops a minimal, lowest-ranked set of remote transactions that meets the goal or drains the heap, and puts locals back |
| PricedList.PanicsIff | go-hayekchain/core/tx_list.go:541-562 | a result capacity is negative exactly when there are no locals and more slots are asked for than the heap has entries |
| PricedList.GoesFirst | go-hayekchain/core/tx_list.go:416-427 | of two entries the cheaper one goes first, and of equal prices the one with the higher nonce |
| PricedList.DiscardFrees | go-hayekchain/core/tx_list.go:541-585 | with one entry per transaction a discard frees the slots that were asked for or takes every remote transaction; where there are local accounts it may stop at as many slots as there are remote transactions |
| TxNoncer.TxNoncer.Get | go-hayekchain/core/tx_noncer.go:45-55 | reads through to the state and remembers, without changing any answer |
| TxNoncer.TxNoncer.Set | go-hayekchain/core/tx_noncer.go:59-64 | changes one virtual nonce |
| TxNoncer.TxNoncer.SetIfLower | go-hayekchain/core/tx_noncer.go:68-79 | lowers one virtual nonce or leaves it |
| Account.PromoteKeepsGapless | go-hayekchain/core/tx_pool.go:1188-1223 | promotion keeps an account gapless and leaves nothing executable in its queue |
| Account.AddKeepsGapless | go-hayekchain/core/tx_pool.go:570-679 | a valid replacement or a queued newcomer keeps an account gapless |
| Account.RemoveKeepsGapless | go-hayekchain/core/tx_pool.go:899-927 | removal, with the later pending ones going back to the queue, keeps an account gapless |
| Account.GaplessNext | go-hayekchain/core/tx_noncer.go:45-79 | the virtual nonce is the state nonce plus the number of pending transactions |
| Account.PromoteAfterMove | go-hayekchain/core/tx_pool.go:1042-1067 | after a head moved on, promotion leaves everything below the virtual nonce payable |
| Account.DemoteAfterPromote | go-hayekchain/core/tx_pool.go:1386-1433 | demotion then leaves a gapless payable run |
| Account.SettleGivesGapless | go-hayekchain/core/tx_pool.go:1074-1077 | settling the virtual nonces makes it gapless in full |
| Account.ResetLeavesBehind | go-hayekchain/core/tx_pool.go:1042-1067 | for any new head, any discard in between and any truncation: a run leaves an executable transaction in the queue exactly when the one at the reach (the run that returned, if it is promoted at all, and then what is still pending) is queued and payable, all pending before it is payable, and no cut comes short of it |
| Account.ResetCanLeaveBehind | go-hayekchain/core/tx_pool.go:1042-1077 | an account to which that happens when the head stays or moves on: a new head comes before the promotion of a newcomer |
| Account.ReturnCanLeaveBehind | go-hayekchain/core/tx_pool.go:1042-1077 | an account to which it happens when the head goes back: what returned joins what is pending, and the next one stays queued |
| Account.StrandedUntil | go-hayekchain/core/tx_pool.go:1042-1077 | once left behind, no later resetting run makes the transaction pending, unless, and only unless, the state nonce has reached it and it is payable |
| Account.StrandedNoMore | go-hayekchain/core/tx_pool.go:1188-1223 | a run that is asked to promote the account makes it pending |
| Account.ResetGaplessIff | go-hayekchain/core/tx_pool.go:1042-1077 | for any new head, any discard in between and any truncation: a run ends gapless unless, and only unless, the virtual nonce fell below the state nonce with nothing payable pending there, or the returned transactions stop short of what is still pending and the gap is not cut away |
| Account.ResetCanLoseNonce | go-hayekchain/core/tx_pool.go:899-927 | an account with the first of these: a discard during reinjection takes a pending transaction below the new state nonce |
| Account.ResetCanLeaveGap | go-hayekchain/core/tx_pool.go:1042-1077 | an account with the second: a gap remains in the pending list after a run |
| Fairness.CountAll | go-hayekchain/core/tx_pool.go:1255-1258 | the pending counter starts as the true total |
| Fairness.FairAfterEqualizing | go-hayekchain/core/tx_pool.go:1272-1308 | levelling the offenders gives a fair cut if it brings the total under the limit |
| Fairness.FairAfterLowering | go-hayekchain/core/tx_pool.go:1310-1334 | lowering all offenders together keeps the cut fair |
| Fairness.TightRound | go-hayekchain/core/tx_pool.go:1280-1333 | a round that starts above the limit never overshoots it by a whole round |
| Admission.StepFalls | go-hayekchain/core/tx_pool.go:570-644 | whatever one insertion does, an account loses pending transactions from the top only and its virtual nonce does not rise |
| Admission.StepRaises | go-hayekchain/core/tx_pool.go:570-644 | in prices: a newcomer takes over a place exactly by raising the price by the percentage, is refused for it exactly when it does not, and otherwise the holder itself was discarded by a full pool |
| Shortfalls.RoomWithoutBump | go-hayekchain/core/tx_pool.go:584-599 | a pool in which a newcomer takes over a place without the percentage, because the holder was the cheapest and was discarded for it |
| Admission.TraceRaises | go-hayekchain/core/tx_pool.go:832-844 | over a batch of any length: as long as no holder of a place is discarded, whoever holds it is the first one or pays more than it by the percentage |
| Admission.CheapestGo | go-hayekchain/core/tx_pool.go:584-599 | nothing remote that stays is cheaper than what is discarded, and at the same price what goes has the higher nonce |
| Admission.RefusedAtACost | go-hayekchain/core/tx_pool.go:584-624 | a refused newcomer costs others their place exactly when a full pool can and must discard remote transactions for it and it is then not better than its rival |
| Shortfalls.RefusalCosts | go-hayekchain/core/tx_pool.go:584-624 | a pool in which that happens |
| Admission.TraceFalls | go-hayekchain/core/tx_pool.go:832-844 | the same over a batch of any length |
| Admission.StepCovers | go-hayekchain/core/tx_pool.go:518-560 | in a pool whose transactions all pay for their data, they do so after any insertion |
| Admission.TraceCovers | go-hayekchain/core/tx_pool.go:832-844 | whatever a batch lets in was in it and pays for its data under the rules of that batch |
| Admission.TraceJoins | go-hayekchain/core/tx_pool.go:832-844 | with room for a whole batch nothing is discarded and nothing panics: what is pooled afterwards is what was, with each valid newcomer in place of what it outbids |
| TxPool.TxPool.constructor | go-hayekchain/core/tx_pool.go:257-309 | a new pool is empty and consistent, with virtual nonces from the state, no heartbeat and the given reading of the clock |
| TxPool.TxPool.EnqueueTx | go-hayekchain/core/tx_pool.go:649-679 | queue, lookup, counter and heap change together, for an insertion, a replacement and a refusal; the heartbeat is set to the clock exactly when something was inserted and none was on record |
| TxPool.TxPool.PromoteTx | go-hayekchain/core/tx_pool.go:697-732 | pending list, virtual nonce, lookup and heap change together; a loser leaves the lookup; the heartbeat is the clock exactly after an insertion |
| TxPool.TxPool.Add | go-hayekchain/core/tx_pool.go:570-644 | the result exactly: pooled if and only if unknown, valid, not the cheapest in a full pool, no panic and outbidding what holds its place; the first failing check otherwise; panicking exactly when full, without locals and asked for more slots than the searched heap has entries; the lookup, every account and the locals afterwards; gaplessness is kept; every remote transaction still meets the price floor; only an account whose newcomer took a free place can have something executable in its queue that had not |
| TxPool.StepProper | go-hayekchain/core/tx_pool.go:518-560 | whatever is pooled is of legal size and value and, unless its account is local, at or above the price floor, also when a cheap local transaction replaces a pending one without making its account local |
| TxPool.StepQuiet | go-hayekchain/core/tx_pool.go:570-644 | taking over a place, and making room, leave nothing new executable in a queue |
| TxPool.TxPool.MakeRoom | go-hayekchain/core/tx_pool.go:584-599 | refuses a remote transaction exactly when the pool is full and nothing is cheaper, panics exactly on the condition above, and otherwise discards lowest-ranked remote transactions: enough or all, and none in vain |
| TxPool.TxPool.Insert | go-hayekchain/core/tx_pool.go:600-643 | a valid transaction takes the place it outbids or an empty one, is refused otherwise, and marks a local sender only on its way to the queue |
| Shortfalls.PanicHappens | go-hayekchain/core/tx_pool.go:584-597 | three calls of `Add` on a new pool after which it panics: two transactions of two slots fill it by count, and the third asks two entries for three slots |
| TxPool.TxPool.ReplacePending | go-hayekchain/core/tx_pool.go:600-624 | replaces a pending transaction it outbids and renews the heartbeat, and nothing else |
| TxPool.TxPool.AddToQueue | go-hayekchain/core/tx_pool.go:625-643 | queues the newcomer and marks a local sender |
| TxPool.TxPool.RemoveTx | go-hayekchain/core/tx_pool.go:882-927 | the account becomes its removal, the virtual nonce drops, others are untouched |
| TxPool.TxPool.PromoteAccount | go-hayekchain/core/tx_pool.go:1192-1247 | one round turns the account into its promotion and keeps all views consistent |
| TxPool.TxPool.PromoteExecutables | go-hayekchain/core/tx_pool.go:1188-1249 | exactly the given accounts become their promotion |
| TxPool.TxPool.DemoteAccount | go-hayekchain/core/tx_pool.go:1388-1433 | one round turns the account into its demotion, heartbeat included, and never leaves an empty list |
| TxPool.TxPool.DemoteUnexecutables | go-hayekchain/core/tx_pool.go:1386-1434 | exactly the accounts with pending transactions become their demotion |
| TxPool.TxPool.EqualizeStep | go-hayekchain/core/tx_pool.go:1280-1307 | one round cuts the earlier offenders to the next one, with the counter equal to the true total |
| TxPool.TxPool.LowerStep | go-hayekchain/core/tx_pool.go:1312-1333 | one round takes one transaction off every offender, with the counter equal to the true total |
| TxPool.TxPool.TruncatePending | go-hayekchain/core/tx_pool.go:1254-1336 | terminates with the total within the limit or every remote account within its guarantee; locals untouched, nobody cut below the guarantee, the cut accounts level and at least as long as any uncut remote one, and never a whole round too many |
| TxPool.TxPool.DropQueues | go-hayekchain/core/tx_pool.go:1357-1380 | drops whole queues from the back of the order, forgetting their heartbeats, and the rest of the overflow from one account |
| TxPool.TxPool.TruncateQueue | go-hayekchain/core/tx_pool.go:1339-1381 | cuts exactly the overflow from remote accounts, the most recently active first |
| Shortfalls.NewestGoes | go-hayekchain/core/tx_pool.go:1339-1381 | a pool with two queues over the limit that loses the one with the later heartbeat and keeps the other |
| TxPool.TxPool.Evict | go-hayekchain/core/tx_pool.go:357-373 | drops exactly the queues of remote accounts whose heartbeat, or the zero time where there is none, is older than the lifetime, and forgets those heartbeats |
| TxPool.TxPool.SetGasPrice | go-hayekchain/core/tx_pool.go:419-428 | drops exactly the remote transactions below the new floor, and every account becomes its removal of those |
| TxPool.TxPool.AddTxsLocked | go-hayekchain/core/tx_pool.go:832-844 | a batch is one exact insertion after the other, up to the first panic; one error for each, and the accounts to promote are exactly those with a newcomer in a place nobody held, and no other account gets something executable in its queue |
| Submission.SetAside | go-hayekchain/core/tx_pool.go:781-803 | sets exactly the known transactions aside, with their error, and keeps the order of the others |
| Submission.Merge | go-hayekchain/core/tx_pool.go:813-820 | the search for free positions gives every position the error of its own transaction, although a success looks like a free position |
| TxPool.TxPool.AddTxs | go-hayekchain/core/tx_pool.go:780-826 | a batch and the run it asks for: one exact insertion after the other for what is new, every caller told the outcome of their own transaction, and nobody forgotten: where nothing executable was queued, nothing is |
| TxPool.TxPool.Reset | go-hayekchain/core/tx_pool.go:1163-1182 | a state that cannot be loaded changes nothing; otherwise virtual nonces are the new head's, and the returned transactions go in one by one under the new state with the old rules for intrinsic gas; with room for them it says exactly what is pooled |
| Shortfalls.StricterRules | go-hayekchain/core/tx_pool.go:1163-1182 | for any two heads and any returning transaction that is valid but for the new rules for intrinsic gas, a new pool that ends up holding it |
| TxPool.TxPool.RefreshAndTrim | go-hayekchain/core/tx_pool.go:1042-1077 | exactly which accounts are promoted and demoted, and that the limits are then enforced fairly and without overshooting |
| TxPool.TxPool.SettleNonces | go-hayekchain/core/tx_pool.go:1074-1077 | every virtual nonce points past the last pending transaction; no list is empty, so the last one exists |
| TxPool.RunKeepsGapless | go-hayekchain/core/tx_pool.go:1042-1078 | one account through reset, promotion, demotion, truncation and settling, from gapless at the old state to gapless at the new |
| TxPool.RunOutcome | go-hayekchain/core/tx_pool.go:1032-1078 | one account through a run with any new head and any returning transactions, discards among them: gapless again if and only if it does not end in one of the two kinds of disorder, and with an executable transaction in its queue if and only if one is stranded |
| TxPool.TxPool.RunReorg | go-hayekchain/core/tx_pool.go:1032-1078 | the trace of returning transactions, then every account promoted and demoted exactly as it should be and trimmed; limits fair and tight, older queues kept before newer ones; crashes exactly when a returning transaction panics, never without one; for every account that was gapless both questions answered, if and only if: is it so again, and does it leave an executable transaction queued; all gapless when the head moved to a descendant; without a reset, whoever is promoted has nothing executable left in the queue and, if remote, no more than the queue may hold; the price floor still holds |
| TxPool.Handle | go-hayekchain/core/tx_pool.go:314-373 | what each event does to the whole pool: an addition, a price floor, an eviction tick, a run and the passing of time, each with its exact effect, heartbeats included |
| TxPool.Run | go-hayekchain/core/tx_pool.go:357-373 | any events in any order, tied to each of them: the pool goes through a chronicle whose every step is the exact effect of its event, up to the first panic; in every moment of it the views agree, accounts are gapless while heads only move to descendants, and everything pooled pays for its data while the rules never get stricter, and all of it is proper |
| TxPool.Lifetime | go-hayekchain/core/tx_pool.go:257-309 | the same from an empty pool on, with the stale counter a bound on the real stale entries in every moment; and, while the clock does not go back, every queue has a heartbeat and none is in the future |
| Conservation.RunKeepsIff | go-hayekchain/core/tx_pool.go:1188-1434 | one account through promotion, demotion and the limits: a transaction is still there if and only if it was, is not unusable where it is looked at, has fewer before it than the cap of its queue, and is not cut off from above |
| Losses.RunLoses | go-hayekchain/core/tx_pool.go:1032-1078 | the same for every account of the pool over a whole run: transactions put aside by a demotion are queued again, and nothing else is lost |
| Losses.LocalStays | go-hayekchain/core/tx_pool.go:209-232 | whatever the event, a transaction of a local account stays pooled unless one with its nonce that pays more by the percentage is offered, or a run finds the chain past it or unable to pay it: no floor, no tick, no cap, no limit and no discard takes it |
| Losses.LocalsLast | go-hayekchain/core/tx_pool.go:209-232 | over any events: it is pooled as long as it is usable and nobody outpays it |
| Heartbeat.EventPaced | go-hayekchain/core/tx_pool.go:649-732 | no event loses a heartbeat that a queue needs or makes it older; what makes something pending renews it, and so does the first thing queued without one |
| Heartbeat.BeatLasts | go-hayekchain/core/tx_pool.go:314-373 | over any events, while the clock does not go back and there is a queue, its heartbeat never gets older |
| Heartbeat.TickIs | go-hayekchain/core/tx_pool.go:357-373 | a tick takes a remote queue exactly when its heartbeat is older than the lifetime, and no other |
| Heartbeat.ActivityKeepsQueue | go-hayekchain/core/tx_pool.go:314-373 | over any events: whoever had something made pending, or queued something without a heartbeat on record, and has had a queue since, keeps it at every tick within the lifetime after that |
| Heartbeat.QueuedKeptIff | go-hayekchain/core/tx_pool.go:357-373 | for what is queued, at the next tick: it stays if and only if its sender is local or the heartbeat on record when it came, or else its own time, is within the lifetime |
| Shortfalls.StaleHeartbeat | go-hayekchain/core/tx_pool.go:600-624 | a pool that drops a transaction at the very moment it was queued, by the heartbeat that a replacement left |
| HeaderChain.CheckLinks | go-hayekchain/core/headerchain.go:299-319 | accepts exactly the batches linked by hash and number and without banned headers, except that a banned header alone passes; otherwise names the first fault |
| HeaderChain.BannedAlone | go-hayekchain/core/headerchain.go:299-319 | for every header: alone and banned, it passes |
| HeaderChain.HeaderChain.constructor | go-hayekchain/core/headerchain.go:79-116 | a chain of one genesis header |
| HeaderChain.HeaderChain.Collect | go-hayekchain/core/headerchain.go:167-196 | sums difficulty along the batch and collects the new suffix |
| HeaderChain.HeaderChain.NumbersAbove | go-hayekchain/core/headerchain.go:237-243 | finds every indexed number above the new head |
| HeaderChain.HeaderChain.WalkBack | go-hayekchain/core/headerchain.go:246-256 | rewrites the index down to the fork and no further |
| HeaderChain.HeaderChain.Reindex | go-hayekchain/core/headerchain.go:229-272 | leaves the index equal to the ancestry of the last header |
| HeaderChain.HeaderChain.WriteHeaders | go-hayekchain/core/headerchain.go:149-297 | stores what is new and counts it, switches by total difficulty, then length, then a coin, and reports the right status; the invariant on index, difficulties and heaviest head survives if and only if something was new, the batch does not win, or it ends in the head |
| HeaderChain.StaleIndex | go-hayekchain/core/headerchain.go:149-297 | a chain of two equal branches whose head moves by a re-import while the index stays behind |
| HeaderChain.ImportAll | go-hayekchain/core/headerchain.go:149-297 | over any run of batches that hold something new, the index is the genesis-to-head path, difficulties are path sums and the head is heaviest, and among the heaviest not longer than any other |
| HeaderChain.HeaderChain.SetHead | go-hayekchain/core/headerchain.go:558-635 | a rewind keeps a tree with an exact index up to the new head |
| Ancestry.GetAncestor | go-hayekchain/core/headerchain.go:420-452 | from a real hash a non-zero answer is the plain parent walk; for a stored block exactly when it is non-zero, and exactly what it takes from the budget; the zero hash above the chain is answered from the index |
| Ancestry.HashFn.Get | go-hayekchain/core/evm.go:68-99 | any sequence of queries to one closure agrees with the parent walk, in 64-bit arithmetic |
| Ancestry.Advance | go-hayekchain/hyk/handler.go:437-470 | the next header is one stride of parent steps away; from a canonical block it is missing exactly at the ends of the chain; off the canonical chain there is no way up, and down it is missing exactly at the bottom or when the steps to the canonical chain exceed the budget |
| Ancestry.GatherByHash | go-hayekchain/hyk/handler.go:405-470 | at most 192 headers, consecutive ones exactly skip + 1 parent steps apart; from a canonical origin it only ends at a limit or the end of the chain; down a side branch header by header only at a limit or genesis, and in longer strides there is a second one if and only if a hundred steps reach the index; up from one there is none but the origin |
| Reorg.TxDifference | go-hayekchain/core/types/transaction.go:292-307 | those of the first list that are not in the second, in order and as often |
| Reorg.BlockChain.FindSplit | go-hayekchain/core/blockchain.go:2174-2217 | splits both branches exactly at their lowest common ancestor and collects the old branch's transactions |
| Reorg.BlockChain.WriteHeadBlock | go-hayekchain/core/blockchain.go:775-802 | index, lookups and head markers after one block becomes the head |
| Reorg.BlockChain.WriteBranch | go-hayekchain/core/blockchain.go:2236-2245 | writing the new branch leaves the index on it and lookups for both branches |
| Reorg.BlockChain.NumbersAbove | go-hayekchain/core/blockchain.go:2253-2260 | finds every indexed number above the head, up to the first gap |
| Reorg.BlockChain.Reorganise | go-hayekchain/core/blockchain.go:2117-2263 | lookups end exactly those of the new branch, the index follows it, and an error changes nothing |
| Reorg.BlockChain.WriteKnownBlock | go-hayekchain/core/blockchain.go:1482-1494 | after any change of head the lookups are exactly those of the new chain, and the index is exactly its ancestry if and only if the new branch has two blocks of its own or the old head was not higher |
| Reorg.ExactIff | go-hayekchain/core/blockchain.go:2253-2260 | an index that follows the head is exact if and only if its last number is the head's |
| Reorg.BlockChain.WriteBlock | go-hayekchain/core/blockchain.go:1506-1623 | fork choice keeps the head heaviest, of equals not the longer one, the index on its ancestry, the lookups exact and all head markers equal |
| Reorg.TiesAre | go-hayekchain/core/blockchain.go:1591-1607 | between equals of the same length the head stays if it is to be preserved, gives way to a block that is, and else is left to a coin; anything else is decided as for headers |
| Reorg.ImportBlocks | go-hayekchain/core/blockchain.go:1506-1623 | the same over any run of block writes from genesis |
| Reorg.StaleIndex | go-hayekchain/core/blockchain.go:2253-2260 | a chain that writes one heavy block beside two light ones and keeps a stale index entry |
| Reorg.Reinjected | go-hayekchain/core/tx_pool.go:1103-1161 | the pool gets back exactly the transactions that are on the old chain and not on the new one; none for a descendant |
| Reorg.ComparesIff | go-hayekchain/core/tx_pool.go:1103-1109 | branches are compared up to a distance of 64 in either direction, unless the new head follows the old one |
| Scheduler.ResetsTile | go-hayekchain/core/tx_pool.go:962-1029 | each resetting run starts at the head the resetting run before it ended at |
| Scheduler.Scheduler.Launch | go-hayekchain/core/tx_pool.go:974-985 | a run gets exactly what is waiting, and starts exactly when one is wanted and none is active |
| Scheduler.Scheduler.RequestReset | go-hayekchain/core/tx_pool.go:988-996 | a reset joins the one that is waiting, and its requester gets the channel of the run that will include it |
| Scheduler.Scheduler.RequestPromote | go-hayekchain/core/tx_pool.go:998-1006 | the same for accounts to promote |
| Scheduler.Scheduler.QueueTxEvent | go-hayekchain/core/tx_pool.go:1008-1015 | an event waits for the next run |
| Scheduler.Scheduler.Finish | go-hayekchain/core/tx_pool.go:1032-1033 | a run closes its own channel |
| Scheduler.Scheduler.Observe | go-hayekchain/core/tx_pool.go:1017-1018 | the scheduler is free again only after the run it launched is over |
| Scheduler.Scheduler.ClosedMeansServed | go-hayekchain/core/tx_pool.go:962-1029 | at most one run is active, and a closed channel means that a run including the request is over |
| Scheduler.Scheduler.QuietMeansServed | go-hayekchain/core/tx_pool.go:962-1029 | at rest every request has been served, and the events are those announced, in order, followed by those since the last run |
| Scheduler.Interleave | go-hayekchain/core/tx_pool.go:314-337 | every interleaving of head loop, requesters, scheduler and run keeps all this, over exactly the heads, promotion requests and events of its steps, and ends with exactly the runs and channels these lead to |
| Scheduler.ComesToRest | go-hayekchain/core/tx_pool.go:962-1029 | after any steps at all, two rounds in which a run ends and is seen to be over bring the scheduler to rest |
| Scheduler.Drain | go-hayekchain/core/tx_pool.go:962-1029 | nobody waits for ever: after these two rounds every reset and every promotion that was asked for has been part of a run that is over |
| Feed.Find | go-hayekchain/event/feed.go:213-220 | the first case with the channel, or none |
| Feed.Delivers | go-hayekchain/event/feed.go:228-232 | a delivery moves its case out of the unserved prefix and disturbs nothing else |
| Feed.Removes | go-hayekchain/event/feed.go:171-177 | a removal takes its case out of whichever part it is in |
| Feed.Feed.Subscribe | go-hayekchain/event/feed.go:72-92 | a new case waits in the inbox |
| Feed.Feed.Remove | go-hayekchain/event/feed.go:103-124 | without a send in progress exactly one case of the channel goes, from the inbox if it is there and from the list otherwise |
| Feed.Feed.TrySendAll | go-hayekchain/event/feed.go:159-165 | the non-blocking pass delivers some unserved cases, each once, and shrinks the prefix by as many |
| Feed.Feed.RemoveOne | go-hayekchain/event/feed.go:171-177 | a received removal takes out a case of the requested channel, and shrinks the prefix too if that was unserved |
| Feed.Feed.Select | go-hayekchain/event/feed.go:167-183 | one select answers the next removal or serves one unserved case, and the work left gets less |
| Feed.Feed.Send | go-hayekchain/event/feed.go:128-190 | for any readiness and any requested removals: at most once to each, exactly once to each that stays, the count is right, the list is a permutation of what there was minus one case for each request received, and it terminates |
| ChainIndexer.MatchProvesAll | go-hayekchain/core/chain_indexer.go:422-429 | one match of the last section head proves every linked section head canonical |
| ChainIndexer.ChainIndexer.SetValidSections | go-hayekchain/core/chain_indexer.go:479-491 | removes exactly the heads above the count |
| ChainIndexer.ChainIndexer.VerifyLastHead | go-hayekchain/core/chain_indexer.go:422-429 | keeps exactly the sections up to the last canonical one, never fewer than the checkpoint |
| ChainIndexer.ChainIndexer.AddCheckpoint | go-hayekchain/core/chain_indexer.go:130-143 | starts a new linked range at a trusted head, or does nothing |
| ChainIndexer.ChainIndexer.Rollback | go-hayekchain/core/chain_indexer.go:248-274 | keeps exactly the sections that end at or below the common ancestor, but not below the checkpoint |
| ChainIndexer.SectionsUpTo | go-hayekchain/core/chain_indexer.go:250-251 | a section is counted exactly when it ends below the block |
| ChainIndexer.ChainIndexer.NewHead | go-hayekchain/core/chain_indexer.go:277-300 | known sections rise exactly to the confirmed ones when those are more and, on first reaching a checkpoint, its block is the trusted one |
| ChainIndexer.ChainIndexer.ConfirmedIff | go-hayekchain/core/chain_indexer.go:276-282 | a section is confirmed if and only if its last block has enough blocks on top, and none is before the checkpoint is |
| ChainIndexer.ChainIndexer.BeginUpdate | go-hayekchain/core/chain_indexer.go:317-337 | remembers the next section and the head it must build on |
| ChainIndexer.ChainIndexer.ProcessSection | go-hayekchain/core/chain_indexer.go:388-417 | over any canonical indexes read on the way: succeeds if and only if nothing failed and what was read is a hash-linked section on the remembered head, and returns its last hash |
| ChainIndexer.ChainIndexer.ResetFailed | go-hayekchain/core/chain_indexer.go:391-395 | a failed backend reset drops everything |
| ChainIndexer.ChainIndexer.EndUpdate | go-hayekchain/core/chain_indexer.go:350-368 | the section is stored if and only if it was processed and no rollback came in between |
| ChainIndexer.ChainIndexer.Sections | go-hayekchain/core/chain_indexer.go:434-440 | what is reported is canonical from the base on if and only if nothing but the checkpoint lies at or below it or the last section up to it matches; always when more than the checkpoint is reported |
| ChainIndexer.StaleSection | go-hayekchain/core/chain_indexer.go:391-440 | an indexer that starts over below its checkpoint and reports a section that is no longer canonical |
| ChainIndexer.Interleave | go-hayekchain/core/chain_indexer.go:304-382 | every interleaving, tied to each of its steps: after any number of them the indexer is exactly what they make of it, with its stored heads linked |
| ChainIndexer.Perform | go-hayekchain/core/chain_indexer.go:245-382 | the exact effect of one step: a head, a rollback, the two halves of an update, a failed reset, a verification |
| StateTransition.IntrinsicGas | go-hayekchain/core/state_transition.go:108-142 | the exact price of the data, failing if and only if it is above 64 bits |
| StateTransition.IntrinsicPrices | go-hayekchain/core/state_transition.go:108-142 | 21000, or 53000 for a creation since Homestead; every zero byte adds 4 and every other one 68, or 16 since Istanbul |
| StateTransition.GasPool.AddGas | go-hayekchain/core/gaspool.go:29-35 | panics exactly on overflow |
| StateTransition.GasPool.SubGas | go-hayekchain/core/gaspool.go:39-45 | fails exactly when there is too little |
| StateTransition.StateTransition.BuyGas | go-hayekchain/core/state_transition.go:176-189 | errors in order, and pool, gas and balance move together |
| StateTransition.StateTransition.PreCheck | go-hayekchain/core/state_transition.go:191-204 | the first of nonce, funds and pool errors |
| StateTransition.StateTransition.Prepare | go-hayekchain/core/state_transition.go:230-253 | the first broken rule in the order of checking, or the gas and world the virtual machine starts with |
| StateTransition.AdmissibleIff | go-hayekchain/core/state_transition.go:223-229 | no rule is broken exactly when the six clauses hold |
| StateTransition.StartsWith | go-hayekchain/core/state_transition.go:239-253 | the virtual machine of a call starts with the nonce of its sender one up and the gas paid for, and nothing else changed; that of a creation with the nonce as it was |
| StateTransition.StateTransition.RefundGas | go-hayekchain/core/state_transition.go:275-290 | refunds at most half, and returning gas to the pool never overflows |
| StateTransition.UsedBounds | go-hayekchain/core/state_transition.go:275-280 | a refund of up to half of the gas is granted in full, a larger one is cut to half |
| StateTransition.StateTransition.TransitionDb | go-hayekchain/core/state_transition.go:219-273 | accepts exactly the admissible messages; the pool loses the gas used, the total balance changes only by what the virtual machine does |
| StateTransition.NetPayment | go-hayekchain/core/state_transition.go:265-266 | every account is charged the gas used times the price if it is the sender and paid it if it is the coinbase, which cancel if it is both |
| StateTransition.TransferConserves | go-hayekchain/core/evm.go:103-111 | a transfer takes the amount from the sender and gives it to the recipient, keeps every other balance and the total, and changes nothing when both are the same |
| StateProcessor.ApplyTransaction | go-hayekchain/core/state_processor.go:92-127 | the receipt of one message and the running total |
| StateProcessor.Process | go-hayekchain/core/state_processor.go:58-90 | pool plus used gas is the block limit, receipts carry prefix sums, every message in a receipt was admissible where it came, and a failure is the first broken rule of the first bad message |
| StateProcessor.BlockConserves | go-hayekchain/core/state_processor.go:74-85 | over a block the total changes by what the virtual machine does in each message |
| StateProcessor.NoReplay | go-hayekchain/core/state_processor.go:74-85 | no block accepts two messages of one sender with the same nonce where nonces are checked: they rise, if the virtual machine lowers none and raises that of a creation |
| Execution.OverMeans | go-hayekchain/core/types/transaction.go:264-268 | over its limits means too much gas for a block, or a balance that does not cover gas times price and then the value, as the chain checks them |
| Execution.RefusedFor | go-hayekchain/core/tx_pool.go:518-560 | the pool takes exactly what breaks no rule and refuses for the first that is broken, each rule in its own terms: 128 kilobytes, no negative value, the gas of a block, the price floor unless local, the nonce, funds as the chain checks them, the price of the data |
| Execution.ValidIsAdmissible | go-hayekchain/core/state_transition.go:219-253 | whatever is valid for the pool and next in line is accepted by the state transition in exactly the blocks that have its gas left |
| Execution.UnfundedIsNot | go-hayekchain/core/state_transition.go:176-204 | what is not funded is accepted in no block |
| Execution.GaplessIsFunded | go-hayekchain/core/tx_pool.go:1386-1433 | everything pending in a gapless account is funded and fits a block |
| Execution.FirstIsAdmissible | go-hayekchain/core/state_transition.go:219-253 | in any moment of a pool with gapless accounts, proper and paying for their data, the first pending transaction of every account is accepted in exactly the blocks that have its gas left |
| DerivationPath.ParseDerivationPath | go-hayekchain/accounts/hd.go:68-118 | the loop computes the meaning of the text, failing where any component fails |
| DerivationPath.NumberReads | go-hayekchain/accounts/hd.go:95-112 | a plain number may fill 32 bits, a hardened one 31 |
| DerivationPath.PrefixedReads | go-hayekchain/accounts/hd.go:100-103 | binary, octal and hexadecimal numerals, letters in either case, are read as their number after 0b, 0o and 0x, octal ones also after a plain zero |
| DerivationPath.SignReads | go-hayekchain/accounts/hd.go:99-108 | a sign may come first |
| DerivationPath.UnderscoreBetween | go-hayekchain/accounts/hd.go:99-103 | an underscore between two digits is passed over |
| DerivationPath.UnderscoreElsewhere | go-hayekchain/accounts/hd.go:99-103 | anywhere else it spoils the number |
| DerivationPath.SpacesAround | go-hayekchain/accounts/hd.go:91-98 | white space around a component, and before its quote, does not matter |
| DerivationPath.String | go-hayekchain/accounts/hd.go:122-136 | the loop prints the canonical text |
| DerivationPath.ParsePrinted | go-hayekchain/accounts/hd.go:68-136 | parsing a printed path returns it, except that the empty path does not parse |
| DerivationPath.DefaultRoot | go-hayekchain/accounts/hd.go:28-31 | relative paths start at the root printed as m/44'/60'/0'/0 |
| DerivationPath.PrintParsed | go-hayekchain/accounts/hd.go:68-136 | whatever parses is a path of 32-bit components, and printing and parsing it again changes nothing |
| GasLimit.MovesLittle | go-hayekchain/core/block_validator.go:109-140 | from 5120 on the limit moves by at most a 1024th of the parent less one, for any usage, floor and ceiling |
| GasLimit.TooSmall | go-hayekchain/core/block_validator.go:109-140 | below 5120 a full parent always breaks that bound |
| GasLimit.Approaches | go-hayekchain/core/block_validator.go:128-138 | each block closes the distance to the range by the full step |
| GasLimit.FollowsUsage | go-hayekchain/core/block_validator.go:109-126 | between floor and ceiling the step is one and a half times the usage in 1024ths less the decay, up exactly when the usage reaches the parent in 1024ths; with more than two thirds used the limit rises, with 1024 less it does not |
| GasLimit.MoreForMore | go-hayekchain/core/block_validator.go:109-140 | more usage never gives a lower limit |
| GasLimit.Converges | go-hayekchain/core/block_validator.go:109-140 | under any usage the limit reaches the range in finitely many blocks |
| GasLimit.Stays | go-hayekchain/core/block_validator.go:109-140 | and never leaves it |

## Left out

- Signatures, key recovery and hashing: transactions arrive with a sender, and those without a valid one are not modelled.
- 64-bit wrap-around of nonces, block numbers and counters in the pool, the chains and the indexer: these are unbounded; gas, intrinsic gas, the gas limit, ancestor queries and header strides do model it.
- Aliasing between the pool's lists: the pool holds them as values.
- Metrics, logs, promoted-transaction announcements beyond the order in which the scheduler hands them over, and the shutdown paths.
- The pool's cutoff for deep reorganisations is on exact numbers, not on floating point.
- Caches of headers, numbers, difficulties and blocks.
- Interrupted header imports, ancient storage, receipts, state tries and their garbage collection, and rewinding the block chain below its state.
- Virtual machine execution, access lists, state roots, block rewards and logs.
- Child indexers: a rollback or a finished section says whether and from where they are notified, not what they do.
- Header queries by number, and every other network message.
- The feed's run-time type checks.
- Wallet path text is a sequence of characters, not of UTF-8 bytes.
- RPC, console, statistics, light client and wallet backends.
- TxPool.TxPool.constructor: leaves out loading the journal of local transactions, which is input and output around `AddTxsLocked`.
- TxPool.TxPool.AddTxs: takes the run that it asks for to follow at once; what may come in between is the subject of `Scheduler`.
- Execution.FirstIsAdmissible: speaks of prices that are not negative, as in every decoded transaction, and of the first pending transaction, because those before a later one change the balance it is judged by.
- TxPool.TxPool.Reset: says exactly what is pooled when there is room for what returns; otherwise what is discarded depends on the heap, and the trace says it step by step.
- HeaderChain.HeaderChain.constructor: starts from genesis; reloading a stored head is left out.
- Ancestry.GatherByHash: down a side branch in strides of more than one, says when there is a second header, not when there are more, because they share one budget of a hundred steps.
- Ancestry.HashFn.Get: asks for an ancestry with consecutive numbers, which every stored header has.
- HeaderChain.ImportAll: leaves out batches with nothing new, whose effect `WriteHeaders` states.
- Feed.Feed.Remove: asks for a subscribed channel; for any other the source indexes with -1.
- Feed.Feed.Send: asks that no channel is removed more often than it is subscribed, which is what unsubscribing once guarantees; removals arrive in the order given.
- Reorg.BlockChain.WriteBlock: takes for granted that the engine accepted the header and that no transaction repeats along a chain.
- TxPool.Handle: reads the clock once for each event, so that all heartbeats an event sets are the same.
- Scheduler.Scheduler.QueueTxEvent: keeps events in arrival order, from which the per-account sorted maps of a run follow.
- Scheduler.Interleave: ends before shutdown, where the waiting channel is closed without a run.

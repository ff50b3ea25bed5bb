# Verified model of the CoW Protocol backend

This project models the self-contained cores of the CoW Protocol services and proves their main
properties: the autopilot's run loop and in-flight orders, the batching RPC transport, the fee and
surplus arithmetic of settlements, the event index with reorgs and settlement post-processing,
auction building, the alerter, the CoW AMM cache, and the order and signature encodings. Code that
changes state step by step is modelled by classes, methods and loops; code that only computes is
modelled by functions. `dafny verify dfyconfig.toml` checks everything.

## Map of the modules

- `BatchResponse`, `BatchWorker`, `IndexRanges`, `RpcMetadata`, `HeaderAmbiguity`: `crates/ethrpc`. The
  worker is a state machine over enqueue, cancel, chunk, cut, dispatch and answer steps; the metadata
  header gets a parser so that "can be read back" is a theorem, and a parser-independent analysis of
  which batches share a header.
- `DecodedSettlement`, `Uint256`: settlement fees and surplus over checked 256-bit integers and exact
  rationals (`real`). `SettlementReports` defines fee entries and surplus from amounts and prices alone, and
  proves that the code computes exactly these.
- `EventStore`, `SettlementUpdater`, `Attribution`: the event tables as maps keyed by block and log
  index, the chain they index, the updater's work loop, and the two attribution queries. `SavedData` says
  what the written rows hold.
- `RunLoop`, `Competition`, `Sorting`: in-flight orders as a protocol of mine / fork / index / reindex /
  build / publish / settle steps, the choice of winner and reference score in the autopilot and in the shadow loop.
  `OpenOrders` says what the orders of an auction were when its snapshot was taken.
- `OrderFilters`, `AuctionBuilder`, `PricePriority`: the filter pipeline of the auction, its accounting,
  and the price-priority list. `AuctionContents` defines which orders belong into an auction, without the filters.
- `Alerter`, `CowAmmCache`: two smaller stateful objects with a ghost history each.
- `ByteCodec`, `OrderEncoding`, `SignatureEncoding`: byte strings, the EIP-712 order hash, order uids,
  signatures and decoded trades; `Eip712` compares the order hash with the typed members of the standard.

## Results that say the code does not always do what one might expect

- Order uids are written with a big-endian `valid_to` and split with a little-endian one; the time
  survives exactly when its four bytes are a palindrome (`OrderEncoding.ValidToSurvives`, failing input
  in `OrderEncoding.ValidToLost`).
- If a reorg commits between reading a settlement row and writing its details, the write keeps all
  invariants exactly under `SettlementUpdater.SafeToWrite` (`SettlementUpdater.LateWriteConsistent`): with
  data, the row that is there now must be the recorded winner's, and no other row may carry the
  auction's data. Two inputs show the failures: `SettlementUpdater.OrphanedObservation` (the row is gone,
  the observation dangles) and `SettlementUpdater.DataOnAnotherSettlement` (another settlement took its
  place and gets the winner's data).
- The in-flight check compares block numbers only, so a reorg can make it hand out an order that the
  recorded settlement's chain has already filled. Over all runs it can do so exactly when the branch the
  auction was built on has a settlement at or after the recorded one's block, does not invalidate the
  order, and leaves unfilled what the node's chain has filled by that block (`RunLoop.FailsExactly`); for
  an order of any amount, exactly when it executed more there (`RunLoop.SomeOrderFailsExactly`). It never
  happens when both chains agree up to and including that block. Disagreement alone decides nothing:
  `RunLoop.ReorgDefeatsTheCheck` has a run of each kind.
- At most one present settlement of an auction carries auction data, and the winner sent it. A settlement
  by somebody else that is processed first makes the winner's own one miss its data
  (`SettlementUpdater.WinnerMissesData`). In every run, the row that carries the data of a named auction is
  the first one processed since the auction was last unnamed; it carries the data exactly if it stayed in the
  database and was sent by the winner recorded at that time (`SettlementUpdater.FirstProcessedDecides`).
- Batches of calls with clean names (no `(` in a method, no `:` in a trace id) share a metadata header
  only if they group alike. With arbitrary names a header has a single reading only if it files at most
  one (trace id, method) pair, without colons and with a method name that does not itself read as two
  entries (`HeaderAmbiguity.HeaderDetermines`); `HeaderAmbiguity.HeadersCollide` shows two batches with the
  header `t:a(0),b(1)`. The condition on `RpcMetadata.BuildRpcMetadata` is about the model's own reader.
- Two neighbouring indices print as `5,6`; the comment above `format_indices_as_ranges` says `5..6`.
  The model follows the code.

## Assumptions

- The indexer stores the events of whole block prefixes atomically, and an auction's orders and its
  `latest_settlement_block` come from one database snapshot.
- In the run-loop claims the genesis block holds no events, a transaction is mined once per branch, a
  node that reports a transaction's block reports the one on its current branch, and an order's amounts
  are fixed by its uid.
- The updater's transaction does not interleave with a reorg in `EveryRunConsistent`; what happens
  otherwise is stated separately. The node may fail to return a transaction but returns no wrong one.
- The signature validator returns one result per check; an inner transport returns one answer per
  request or batch.
- Converting to native atoms multiplies by a fixed non-negative rational per token.
- Keccak-256 and ECDSA recovery are arbitrary functions.

## Model

| member | source | states |
|---|---|---|
| BatchResponse.HandleBatchResponse | crates/ethrpc/src/http.rs:189-215 | the hash-map decoder succeeds exactly when every output is readable, the requested ids are distinct and the response ids are a permutation of them |
| BatchResponse.BatchAcceptance | crates/ethrpc/src/http.rs:189-228 | the same acceptance condition as an if-and-only-if on the specification function |
| BatchResponse.Pigeonhole | crates/ethrpc/src/http.rs:196-213 | equally many ids, the requested ones distinct and all present: no duplicates and no extras |
| BatchResponse.BatchPairing | crates/ethrpc/src/http.rs:202-215 | the i-th result is that of the one output carrying the i-th id |
| BatchWorker.SendReplies | crates/ethrpc/src/buffered.rs:105-143 | each live call gets one reply, on its own channel: the lone answer, the batch's error, or the output with its own id |
| BatchWorker.ResultIsOwn | crates/ethrpc/src/buffered.rs:126-141 | the result at a call's position is the one meant for that call, in every error case too |
| BatchWorker.OrderStep | crates/ethrpc/src/buffered.rs:244-260 | cut batches, chunk and queue together stay the enqueue order |
| BatchWorker.ConcurrencyStep | crates/ethrpc/src/buffered.rs:242-262 | no step exceeds the limit of batches in flight |
| BatchWorker.SafeStep | crates/ethrpc/src/buffered.rs:86-146 | every step keeps order, batch size, concurrency, batch states and exactness of replies |
| BatchWorker.EveryRunSafe | crates/ethrpc/src/buffered.rs:230-262 | in every run: order kept, batches of one to max(1, max_batch_len) calls, concurrency limit, no call answered twice and every reply its call's own; when a batch may be short is `ShortBatchEmptiedQueue` |
| BatchWorker.ShortBatchEmptiedQueue | crates/ethrpc/src/buffered.rs:242-257 | in every run, a batch with fewer than max(1, max_batch_len) calls was cut when no call was waiting |
| BatchWorker.WaitingCallsAreChunked | crates/ethrpc/src/buffered.rs:242-257 | calls enqueued before an idle worker begins its next chunk, and none later until it is idle again, are cut into exactly the chunks of max(1, max_batch_len) calls, in order |
| BatchWorker.ChunksSpec | crates/ethrpc/src/buffered.rs:242-257 | these are ceil(k / max(1, max_batch_len)) batches, all but the last full, and together the k calls |
| BatchWorker.DispatchDecides | crates/ethrpc/src/buffered.rs:86-157 | in every run, as soon as a dispatched batch has left the futures, each of its calls has its one reply if and only if it was not cancelled at the dispatch, whatever was cancelled later |
| BatchWorker.NothingForgotten | crates/ethrpc/src/buffered.rs:86-157 | once the worker is idle, a call has its one reply if and only if its caller had not given up when its batch was dispatched |
| BatchWorker.WorkIsBounded | crates/ethrpc/src/buffered.rs:230-262 | without new calls the number of further worker steps and answers is bounded |
| BatchWorker.MaximalRunAnswersAll | crates/ethrpc/src/buffered.rs:86-157 | a run in which no worker step or answer is possible any more is idle, so it has answered exactly the calls not cancelled at their dispatch |
| BatchWorker.EveryRunCanFinish | crates/ethrpc/src/buffered.rs:230-262 | every run goes on, without further calls, to a state with nothing left to do |
| BatchWorker.CallersAreFree | crates/ethrpc/src/buffered.rs:149-175 | in every state a caller may enqueue a call; it joins the end of the queue with a channel of its own |
| IndexRanges.DecodeSequence | crates/ethrpc/src/buffered.rs:401-409 | reading the text of one run, alone, as two neighbours or as a range, gives exactly the numbers from start to last and leaves the rest unread |
| IndexRanges.FormatIndicesAsRanges | crates/ethrpc/src/buffered.rs:359-389 | the compressed text decodes to exactly the ascending input |
| IndexRanges.DecodeRanges | crates/ethrpc/src/buffered.rs:359-389 | reading the text of a run and the remaining indices gives the run's interval and those indices |
| RpcMetadata.WriteMethods | crates/ethrpc/src/buffered.rs:317-335 | the inner loop prints all methods of a trace id with their index text |
| RpcMetadata.BuildRpcMetadata | crates/ethrpc/src/buffered.rs:293-340 | the loops print the grouping by trace id and method; the model's reader, which ends names at the first delimiter, returns it exactly when the names are free of their delimiter |
| RpcMetadata.GroupingSpec | crates/ethrpc/src/buffered.rs:297-312 | the nested ordered maps file each method call under its own trace id ("null" if absent) and method, ascending, nothing else |
| RpcMetadata.FiledUnder | crates/ethrpc/src/buffered.rs:297-312 | a call is filed under its trace id, or under "null" without one |
| RpcMetadata.ReadsBackExactly | crates/ethrpc/src/buffered.rs:314-339 | this reader is inverse to the printer exactly on clean groupings |
| HeaderAmbiguity.CleanHeadersInjective | crates/ethrpc/src/buffered.rs:293-340 | batches with clean names have the same header if and only if their calls are grouped alike |
| HeaderAmbiguity.HeaderDetermines | crates/ethrpc/src/buffered.rs:293-340 | over all names and all readers: a header belongs to one grouping only if and only if it files at most one pair, has no further colon and its method name does not split into two ascending entries |
| HeaderAmbiguity.HeadersCollide | crates/ethrpc/src/buffered.rs:293-340 | two batches of two calls with different groupings and the same header |
| HeaderAmbiguity.Realize | crates/ethrpc/src/buffered.rs:297-312 | every ordered group without double positions is the grouping of some batch |
| HeaderAmbiguity.EntryDetermines | crates/ethrpc/src/buffered.rs:321-330 | one printed entry determines its method name and its indices, whatever the name contains |
| RpcMetadata.EachPositionOnce | crates/ethrpc/src/buffered.rs:297-312 | every method-call position occurs exactly once, in its own group |
| RpcMetadata.PutLookup | crates/ethrpc/src/buffered.rs:297-312 | the ordered map used for grouping changes the entry of one key only |
| DecodedSettlement.BigRationalToU256Exact | crates/number/src/conversions.rs:28-36 | conversion succeeds exactly on (-1, 2^256), is the floor from zero on and zero below |
| DecodedSettlement.SellFeeBounds | crates/autopilot/src/decoded_settlement.rs:355-375 | E <= F < E + uniform_buy/uniform_sell + 1 for a sell order |
| DecodedSettlement.BuyFeeBounds | crates/autopilot/src/decoded_settlement.rs:341-354 | the buy-side fee is within 1 of the exact fee |
| DecodedSettlement.AllFees | crates/autopilot/src/decoded_settlement.rs:310-326 | one entry per trade in order; what the entries are is `EntriesAreFees` |
| SettlementReports.EntriesAreFees | crates/autopilot/src/decoded_settlement.rs:310-389 | the entry of a trade is its own fee as a user fee, or else the derived fee as a surplus fee, at the clearing prices of its indices and of the first places of its tokens, with its native value rounded down; a zero user fee exactly if there is no such entry |
| SettlementReports.DerivedFeeIs | crates/autopilot/src/decoded_settlement.rs:334-375 | the checked computation yields the difference of the two rounded quotients of the formula, and nothing exactly if a product overflows, a price is zero or the difference is negative |
| SettlementReports.EntriesNearExact | crates/autopilot/src/decoded_settlement.rs:310-375 | a surplus entry is within the stated bounds of the exact fee at the trade's prices |
| DecodedSettlement.SubtractionNeverFails | crates/autopilot/src/decoded_settlement.rs:334-375 | with adjusted_sell * uniform_buy <= uniform_sell * adjusted_buy the final subtraction succeeds |
| DecodedSettlement.DerivedFeeScaled | crates/autopilot/src/decoded_settlement.rs:334-375 | scaling all four prices by one positive rational gives the same fee, or none exactly when a product overflows at the larger prices; in both directions |
| DecodedSettlement.FeeScaled | crates/autopilot/src/decoded_settlement.rs:328-389 | the same for the whole fee of a trade in a settlement whose clearing prices are all scaled |
| DecodedSettlement.TotalSurplusBounds | crates/autopilot/src/decoded_settlement.rs:288-307 | total surplus is the exact sum rounded down by less than one unit per counted trade; a panic means the sum exceeds 2^256 - 1 |
| SettlementReports.TotalIsSum | crates/autopilot/src/decoded_settlement.rs:288-307 | total surplus is the sum of what each trade adds, an eligible one its surplus or zero if it has none, any other nothing; it panics exactly if the sum exceeds 2^256 - 1 |
| SettlementReports.SurplusIs | crates/autopilot/src/decoded_settlement.rs:422-466 | a trade's surplus is its fill's share of sell value less buy value at the clearing prices, in native atoms at the rate of the token it is paid in, rounded down |
| SettlementReports.TradeSurplusIs | crates/autopilot/src/decoded_settlement.rs:468-539 | surplus times limit amount is fill times (sell amount times sell price less buy amount times buy price), for both kinds |
| DecodedSettlement.AcceptanceIsLimitPrice | crates/autopilot/src/decoded_settlement.rs:498-539 | for a positive fill both kinds accept exactly when sell_amount * sell_price >= buy_amount * buy_price |
| DecodedSettlement.SurplusAdds | crates/autopilot/src/decoded_settlement.rs:498-539 | before rounding, the surplus of a fill is the sum over its two parts |
| DecodedSettlement.SplitLosesAtMostOne | crates/autopilot/src/decoded_settlement.rs:422-466 | splitting a fill in two gains nothing and loses at most one unit |
| EventStore.Database.Append | crates/database/src/events.rs:79-96 | the loop's new state is the conflict-ignoring insertion of all events in order |
| EventStore.Database.Delete | crates/database/src/events.rs:55-77 | all four event tables keep exactly the rows below the block |
| EventStore.Database.DeleteSettlementObservations | crates/database/src/settlements.rs:92-112 | observations and executions keep exactly the rows below the block |
| EventStore.Database.ReplaceEvents | crates/autopilot/src/boundary/events/settlement.rs:36-50 | delete, append and observation cleanup compose to the replacement function |
| EventStore.Database.UpdateSettlementDetails | crates/autopilot/src/database/on_settlement_event_updater.rs:40-93 | one row's auction id and, with data, its observation and executions are written, nothing else |
| EventStore.AppendIndexes | crates/database/src/events.rs:79-96 | appending the events of further blocks, with any repeats, yields the index of the longer chain built from scratch |
| EventStore.ReplaceIndexes | crates/database/src/events.rs:55-96 | deleting from a common block and appending the new branch yields the new branch's index |
| EventStore.LastBlockIsLastEvent | crates/database/src/events.rs:46-53 | the block indexing resumes from is the chain's last block with an event |
| EventStore.UpdateKeepsEvents | crates/database/src/settlements.rs:72-90 | post-processing does not touch the indexed events |
| SavedData.DetailsWritten | crates/autopilot/src/database/on_settlement_event_updater.rs:40-93 | one update writes the auction to the row, each datum to its own observation column, and the last fee of each listed order with the row's block |
| SavedData.ObservationsShowData | crates/autopilot/src/database/on_settlement_event_updater.rs:40-93 | in every run an observation shows gas, gas price, surplus and fee of the data its row was processed with |
| SavedData.ExecutionsShowData | crates/autopilot/src/database/on_settlement_event_updater.rs:40-93 | in every run an execution row has the fee and block of an update of a settlement of its auction |
| SavedData.RowsAreNamed | crates/autopilot/src/on_settlement_event_updater.rs:149-190 | in every run a processed settlement names the auction its calldata names, or auction 0 if that cannot be read |
| SettlementUpdater.OnSettlementEventUpdater.GetSettlementWithoutAuction | crates/database/src/settlements.rs:47-58 | none exactly when nothing is pending, otherwise a pending row of the lowest block |
| SettlementUpdater.OnSettlementEventUpdater.Update | crates/autopilot/src/on_settlement_event_updater.rs:125-272 | an update that reports true removes exactly one row from the work list, any other leaves the database alone; the new state is that of one step at an earliest row |
| SettlementUpdater.OnSettlementEventUpdater.ProcessPending | crates/autopilot/src/on_settlement_event_updater.rs:103-120 | the inner loop terminates; its result is reached by that many consecutive updates at earliest rows, each with its own answers, as many as rows leave the work list, and when rows are left the last attempt did not update its row |
| SettlementUpdater.PendingDrops | crates/database/src/settlements.rs:72-90 | writing any auction id to a pending row lowers the number of pending rows by one |
| SettlementUpdater.StepConsistent | crates/autopilot/src/on_settlement_event_updater.rs:125-176 | append, reorg, saved competition and update each keep tables, anchoring, uniqueness and winner |
| SettlementUpdater.EveryRunConsistent | crates/autopilot/src/on_settlement_event_updater.rs:344-400 | in every run the tables are the chain's index, every observation has its settlement, at most one present settlement per auction has data and the recorded winner sent it |
| SettlementUpdater.WinnerGetsData | crates/autopilot/src/on_settlement_event_updater.rs:344-400 | a processed settlement of the recorded winner gets its data if and only if no present settlement names the auction |
| SettlementUpdater.FirstProcessedDecides | crates/autopilot/src/on_settlement_event_updater.rs:344-400 | in every run, while an auction is named, a row carries its data if and only if it is the first one processed since, stayed in the database and was the recorded winner's |
| SettlementUpdater.DataExists | crates/autopilot/src/on_settlement_event_updater.rs:344-400 | so the auction has data somewhere if and only if that first row stayed and was the recorded winner's |
| SettlementUpdater.WinnerMissesData | crates/autopilot/src/on_settlement_event_updater.rs:380-387 | a run whose work list is empty and in which the winner's settlement names the auction without data |
| SettlementUpdater.LateWriteConsistent | crates/autopilot/src/on_settlement_event_updater.rs:125-272 | a write after an interleaved reorg keeps the whole invariant if and only if the row there now is safe to write |
| SettlementUpdater.LateWriteAnchored | crates/autopilot/src/database/on_settlement_event_updater.rs:40-93 | its anchoring part alone: kept if and only if the write has no data or the row is there |
| SettlementUpdater.DataOnAnotherSettlement | crates/autopilot/src/on_settlement_event_updater.rs:125-176 | a run and a late write that keeps anchoring but gives the winner's data to another sender's settlement |
| SettlementUpdater.LateWriteProgress | crates/database/src/settlements.rs:72-90 | such a write shortens the work list if and only if the row is still pending |
| SettlementUpdater.OrphanedObservation | crates/autopilot/src/on_settlement_event_updater.rs:125-176 | a run of three steps and a late write after which an observation has no settlement |
| Attribution.BetweenIsNext | crates/database/src/orders.rs:577-613 | a trade lies between the previous settlement and this one if and only if this one is the next settlement of its block |
| Attribution.QueriesAgree | crates/database/src/trades.rs:42-48 | for a transaction with one settlement both queries select the same trades |
| Attribution.RowsOfTransaction | crates/database/src/trades.rs:28-50 | a transaction's trades are exactly the returned rows that carry its hash |
| Attribution.TradesPartitioned | crates/database/src/orders.rs:577-613 | a trade followed by a settlement belongs to exactly one transaction, the others to none |
| Attribution.PlacesDisjointWhenIndexed | crates/database/src/events.rs:79-96 | an indexed chain never has a trade and a settlement in one place |
| RunLoop.RunLoop.RemoveInFlightOrders | crates/autopilot/src/run_loop.rs:551-574 | only recorded in-flight orders are removed, all of them when the block is unknown, none when the auction is new enough |
| RunLoop.RunLoop.Settle | crates/autopilot/src/run_loop.rs:462-487 | a settlement whose transaction was found replaces the record by its transaction and its own orders; any other leaves the record alone |
| RunLoop.RecordIsLastSettled | crates/autopilot/src/run_loop.rs:462-487 | in every run the record is the transaction and the order ids of the last settlement that was found |
| RunLoop.RecordHasStep | crates/autopilot/src/run_loop.rs:462-487 | and there is a record only after such a settlement |
| RunLoop.InvStep | crates/database/src/orders.rs:662-696 | every step, forks and reindexing included, keeps the tables the index of the indexed blocks and every auction faithful to its snapshot |
| RunLoop.NewEnoughHasSeen | crates/database/src/orders.rs:690-696 | an auction at least as new as a mined settlement was built on a branch that reaches its block |
| RunLoop.SumMonotone | crates/database/src/orders.rs:525-553 | the executed amount of an order never shrinks with more trades |
| OpenOrders.QueryFindsOpen | crates/database/src/orders.rs:662-688 | the query finds exactly the orders that are valid for long enough, unfilled in the token of their kind, neither cancelled nor invalidated, and placed without error |
| OpenOrders.FilledIs | crates/database/src/orders.rs:525-553 | a sell order is filled on a chain if and only if its trades there sold its sell amount, a buy order if they bought its buy amount |
| OpenOrders.AuctionsAreSnapshots | crates/database/src/orders.rs:662-696 | in every run each auction under way is a snapshot taken earlier in the run, with the settlement block of that moment and only orders that were open in it |
| RunLoop.FilledOrdersNeverHandedOut | crates/autopilot/src/run_loop.rs:551-574 | in every run with any reorgs an order of the recorded in-flight settlement reaches the solvers only if the node knows its block and the auction's branch reaches it; it is unfilled there unless this very order executed more in the chain up to that block than on the branch |
| RunLoop.LastSettledStaysOut | crates/autopilot/src/run_loop.rs:551-574 | the same for the orders of the last settlement that was found: they stay out until its block is known and covered, return once it is, and no other order is ever removed |
| RunLoop.ProtectsExactly | crates/database/src/orders.rs:662-678 | whatever the query finds open on one branch is unfilled on another if and only if no uid that the first branch does not invalidate executed more on the other |
| RunLoop.FailsExactly | crates/autopilot/src/run_loop.rs:551-574 | over all runs: the check can hand out an order of these terms that is filled by the recorded settlement's block if and only if the branch has a settlement at or after that block, does not invalidate the order and leaves it unfilled, while the chain fills it |
| RunLoop.SomeOrderFailsExactly | crates/autopilot/src/run_loop.rs:551-574 | some terms of the uid can fail if and only if the branch has such a settlement, does not invalidate the uid, and the uid executed more in the chain up to the block |
| RunLoop.NeverHandedOutOnAgreeingBranch | crates/autopilot/src/run_loop.rs:551-574 | in every run a handed-out order is unfilled when branch and chain agree up to and including the settlement's block |
| RunLoop.NeverHandedOutWithoutForks | crates/autopilot/src/run_loop.rs:551-574 | in every run without a reorg no order filled by the recorded settlement is handed out |
| RunLoop.EveryChainIsMined | crates/autopilot/src/run_loop.rs:551-574 | there is a run without a reorg to every chain, so the claim covers all of them |
| RunLoop.ReorgDefeatsTheCheck | crates/autopilot/src/run_loop.rs:551-574 | runs with a reorg of the settlement's block that agree on all earlier blocks: in one the handed-out order is filled, in the other it is not |
| Sorting.SortSpec | crates/autopilot/src/run_loop.rs:126-131 | the sort is an ascending permutation |
| Sorting.SortStable | crates/autopilot/src/solvable_orders.rs:400-420 | elements with equal keys keep their order |
| Competition.RankSolutions | crates/autopilot/src/run_loop.rs:120-168 | for every shuffle the last solution has the maximal score and the one before it is the maximum of the rest, zero if there is none |
| Competition.ShuffledOffers | crates/autopilot/src/run_loop.rs:333-390 | the participants are exactly the drivers' proposals with a positive score and an allowed solver |
| Competition.TakesPart | crates/autopilot/src/run_loop.rs:351-386 | each takes part exactly as often as its driver proposed it |
| Competition.SingleRun | crates/autopilot/src/run_loop.rs:115-331 | there is a record exactly if some driver's proposal is valid and was revealed; its winner stands at a valid place of a response, no other place scores higher, the reference score is the best of all other valid places or zero without any, and fee policies, prices, first rank and calldata are the winner's |
| Competition.CollectPrices | crates/autopilot/src/run_loop.rs:170-205 | the loop collects exactly the auction prices of the tokens the winner's orders trade |
| Competition.TableSpec | crates/autopilot/src/run_loop.rs:222-258 | the rows are the participants' solvers and scores, rankings descend from n to 1 with ascending scores, and the winner alone has rank 1 and calldata |
| Competition.RanksOnce | crates/autopilot/src/run_loop.rs:222-258 | each rank from 1 to n is given once |
| Competition.TopTwoUnique | crates/autopilot/src/run_loop.rs:143-168 | best and reference score are determined by the submitted scores, however ties fall |
| Competition.Participate | crates/autopilot/src/shadow.rs:204-245 | a driver takes part if and only if it proposed a non-zero best score and revealed matching calldata; then with that score; each other case has its own error |
| Competition.ShadowRun | crates/autopilot/src/shadow.rs:113-184 | the descending sort yields the same two scores, failures count as zero, and the reward subtraction never fails |
| Competition.FailuresDoNotMatter | crates/autopilot/src/shadow.rs:259-266 | participants counted as zero change neither score |
| Competition.LoopsAgree | crates/autopilot/src/shadow.rs:120-152 | on the same non-zero scores both loops report the same winning and reference score |
| OrderFilters.FilterInvalidSignatureOrders | crates/autopilot/src/solvable_orders.rs:345-396 | the i-th result is consumed by the i-th EIP-1271 order, and relative order is kept |
| OrderFilters.PairingIsOwnCheck | crates/autopilot/src/solvable_orders.rs:345-396 | with per-check results the pairing keeps exactly the orders whose own check passed |
| OrderFilters.ChecksAreRanked | crates/autopilot/src/solvable_orders.rs:351-370 | the check at an order's rank is that order's check |
| OrderFilters.FilterUnsupportedTokens | crates/autopilot/src/solvable_orders.rs:597-614 | the swap-remove loop terminates, leaves exactly the multiset of orders with two good tokens, and fails exactly when an examined token fails |
| OrderFilters.SwapRemoveIsRemove | crates/autopilot/src/solvable_orders.rs:597-614 | swap-remove takes away one occurrence of one element |
| OrderFilters.GetOrdersWithNativePrices | crates/autopilot/src/solvable_orders.rs:499-542 | the loop partitions the orders by price and collects the prices of exactly the traded tokens |
| AuctionBuilder.OrderFilterCounter.Checkpoint | crates/autopilot/src/solvable_orders.rs:695-719 | exactly the tracked orders that are gone are reported, once each, and counted under the reason |
| AuctionBuilder.CheckpointConserves | crates/autopilot/src/solvable_orders.rs:695-743 | a checkpoint keeps candidates = tracked + reported, no uid twice, counts = number reported |
| AuctionBuilder.ValidOrders | crates/autopilot/src/solvable_orders.rs:150-196 | the invalidating filters keep exactly the orders valid on their own and report the rest |
| AuctionBuilder.Update | crates/autopilot/src/solvable_orders.rs:146-294 | building fails if and only if a token detection fails or a collected price is zero, so with normalised prices exactly if a detection fails; otherwise candidates are the disjoint union of auction, invalid and filtered uids, counts add up, newer orders come first, the prices are exactly the collected ones, and the auction holds exactly the usable orders of which each limit order sells for at least the factor times what it buys |
| AuctionBuilder.ValidityPerOrder | crates/autopilot/src/solvable_orders.rs:150-196 | being valid is a property of the single order |
| AuctionContents.AuctionHolds | crates/autopilot/src/solvable_orders.rs:150-231 | with a per-check validator these are exactly the candidates with allowed users, a valid signature, two good tokens, enough balance, something of both amounts left to settle, two prices, and the market price met |
| AuctionContents.ExamineFails | crates/autopilot/src/solvable_orders.rs:597-614 | detection fails on an order exactly if its lower token's does, or its upper token's does and the lower one is good |
| AuctionContents.NotDustIs | crates/shared/src/remaining_amounts.rs:83-146 | the dust filter keeps a partially fillable order if and only if, scaled by execution and then by balance with the stated roundings and overflow checks, both amounts stay positive |
| AuctionContents.MarketIsLimitPrice | crates/autopilot/src/solvable_orders.rs:616-653 | at factor one and without overflow a limit order is kept if and only if a settlement at the auction's prices accepts its fills |
| OrderFilters.BetterStaysInMarket | crates/autopilot/src/solvable_orders.rs:616-653 | selling more without overflow, or buying less, never drops an order |
| AuctionBuilder.UidIdentifies | crates/autopilot/src/solvable_orders.rs:721-743 | among candidates with distinct uids a reported uid identifies the dropped order |
| PricePriority.PrioritizeMissingPrices | crates/autopilot/src/solvable_orders.rs:550-584 | tokens of recent orders first, in first-occurrence order from the newest order on, then the other tokens by non-increasing use among old orders, each token once |
| PricePriority.DedupOrder | crates/autopilot/src/solvable_orders.rs:556-570 | insertion into the ordered set keeps first-occurrence order |
| PricePriority.RecentTokensAre | crates/autopilot/src/solvable_orders.rs:550-584 | the recent tokens are the sell and then the buy token of each order placed at most thirty minutes ago, in the order of the orders |
| PricePriority.UsesAre | crates/autopilot/src/solvable_orders.rs:550-584 | a token's use is the number of older orders that sell it plus the number that buy it |
| PricePriority.TokensCovered | crates/autopilot/src/solvable_orders.rs:550-584 | the list holds exactly the tokens of the input orders |
| Alerter.Alerter.UpdateOpenOrders | crates/alerter/src/lib.rs:216-260 | open orders become the fetched ones that are fill-or-kill and no liquidity orders, known orders keep their time, and a closed fulfilled order refreshes the last trade |
| Alerter.Alerter.FindFulfilled | crates/alerter/src/lib.rs:238-258 | closed orders are asked about once each, market before limit before liquidity orders, until one is fulfilled or an answer is missing |
| Alerter.Alerter.Update | crates/alerter/src/lib.rs:262-311 | every iteration keeps stored times justified, complete and equal to the replay of the history; it records its snapshot and then only honest checks, each order at most once, and an alert exactly when it raised one; it fails only on a missing answer, is quiet only after a recent trade, and otherwise finds all orders unsettleable or a settleable one with its earliest uninterrupted time, alerted exactly when due |
| Alerter.WhoKeepsItsTime | crates/alerter/src/lib.rs:262-311 | what an iteration does to every open order's time: a recent trade or a failed check drops it, the solvable order gets one unless it has one, all others keep theirs |
| Alerter.ChecksAreHonest | crates/alerter/src/lib.rs:286-307 | every check on record is the quote's answer for its order at a time within the iteration, and the only alert is the one reported |
| Alerter.StillSolvable | crates/alerter/src/lib.rs:262-311 | an event that does not speak against an order leaves its stored time justified |
| Alerter.CompleteAfterCheck | crates/alerter/src/lib.rs:286-307 | after a check every uninterrupted span still has a stored time no later than its start |
| Alerter.MatchableIsDue | crates/alerter/src/lib.rs:290-303 | an order matchable for longer than the minimum is due when it is checked again, unless the last alert is too recent |
| Alerter.AlertEvent | crates/alerter/src/lib.rs:280-303 | an alert raised under the code's two guards keeps all alerts backed and spaced |
| Alerter.AlertMeansMatchable | crates/alerter/src/lib.rs:216-311 | every alert in the history of a valid alerter has a successful check more than the minimum before it, with the order in every snapshot, no failed check and no recent trade in between, and later alerts keep the interval |
| CowAmmCache.Storage.AppendEvents | crates/cow-amm/src/cache.rs:75-96 | the cache follows the event log, up to and including the first failed lookup; success exactly when every event is fine |
| CowAmmCache.Storage.ReplaceEvents | crates/cow-amm/src/cache.rs:54-71 | the log loses the range and gains the new events, and the cache follows |
| CowAmmCache.Storage.RemoveAmms | crates/cow-amm/src/cache.rs:31-36 | the removed AMMs are struck from the log, their blocks stay |
| CowAmmCache.Storage.CowAmms | crates/cow-amm/src/cache.rs:24-29 | the listing is by ascending block and in log order within a block |
| CowAmmCache.Storage.LastEventBlock | crates/cow-amm/src/cache.rs:98-106 | the last block of any logged event, or the start of the index |
| CowAmmCache.PushRepresents | crates/cow-amm/src/cache.rs:89-92 | pushing to the block's list keeps the map equal to the surviving log entries |
| CowAmmCache.AddedAre | crates/cow-amm/src/cache.rs:75-96 | appending logs each event's block and looked-up AMM in order, up to the first event without metadata or without a known AMM; of the latter only the block |
| CowAmmCache.ReplacementIsLocal | crates/cow-amm/src/cache.rs:54-71 | a replacement whose events lie in its range rewrites exactly the blocks of the range |
| CowAmmCache.ListingIsComplete | crates/cow-amm/src/cache.rs:24-29 | each surviving AMM is listed exactly as often as the log holds it |
| CowAmmCache.RemovedAreGone | crates/cow-amm/src/cache.rs:31-36 | removal takes exactly the AMMs with one of the addresses out, all their occurrences |
| CowAmmCache.RemovalKeepsLastBlock | crates/cow-amm/src/cache.rs:31-36 | removal never changes the last event block |
| ByteCodec.BigUintToU256Exact | crates/number/src/conversions.rs:22-26 | the conversion succeeds on exactly the values below 2^256 and keeps them |
| ByteCodec.U256RoundTrip | crates/number/src/conversions.rs:8-26 | both conversions between fixed and big integers are inverse |
| OrderEncoding.HashStruct | crates/model/src/order.rs:257-279 | the 416-byte buffer filled in place is the encoding prescribed by EIP-712, "Definition of encodeData", behind the type hash |
| Eip712.HashInputIsEncodeData | crates/model/src/order.rs:248-279 | if the constants are the hashes of their texts, the hash input is the type's hash followed by each member of the type in its order, encoded by its type as EIP-712 prescribes |
| OrderEncoding.EncodingDetermines | crates/model/src/order.rs:257-279 | two orders have the same hash input if and only if they agree up to missing versus zero receiver |
| OrderEncoding.HashedEip712Message | crates/model/src/signature.rs:266-275 | the 66-byte buffer is prefix, domain and struct hash |
| Eip712.MessageIs | crates/model/src/signature.rs:266-275 | the message is 0x19 0x01, the domain separator and the struct hash |
| OrderEncoding.FromParts | crates/model/src/order.rs:755-761 | the 56-byte buffer is hash, owner and big-endian time |
| OrderEncoding.PartsOfUid | crates/model/src/order.rs:755-770 | splitting a uid returns hash and owner, and the time with its bytes reversed |
| OrderEncoding.ValidToSurvives | crates/model/src/order.rs:755-770 | the time round-trips if and only if its four bytes are a palindrome |
| OrderEncoding.ValidToLost | crates/model/src/order.rs:755-770 | time 1 comes back as 2^24 |
| OrderEncoding.ComputeUid | crates/model/src/order.rs:285-294 | the filled buffers compose to the uid of order, domain and owner |
| OrderEncoding.UidDetermines | crates/model/src/order.rs:285-294 | orders share a uid only if owner, domain and contents agree, or the hash function collides on their own inputs |
| OrderEncoding.ZeroReceiverSameUid | crates/model/src/order.rs:257-294 | a missing and a zero receiver give the same uid |
| SignatureEncoding.EcdsaToBytes | crates/model/src/signature.rs:305-311 | the 65-byte buffer is r, s, v |
| SignatureEncoding.SignatureRoundTrip | crates/model/src/signature.rs:116-150 | printing and parsing under its own scheme returns the signature |
| SignatureEncoding.ParsedBytesRoundTrip | crates/model/src/signature.rs:116-150 | parsed bytes print unchanged if and only if they are not the legacy owner of a presignature |
| SignatureEncoding.OwnerRecovered | crates/model/src/signature.rs:161-188 | recovery from the encoded bytes returns the encoded owner; for ECDSA if and only if recovery does |
| SignatureEncoding.SettledOrderIsRecovered | crates/autopilot/src/decoded_settlement.rs:107-148 | decoding a trade that repeats an order's terms returns the order's uid and owner |
| SignatureEncoding.DecodePanics | crates/model/src/signature.rs:171-188 | decoding panics exactly on a missing token, an EIP-1271 signature shorter than an address, or an empty presignature |
| SignatureEncoding.DecodedOwner | crates/autopilot/src/decoded_settlement.rs:127-132 | the uid of a decoded trade is that of the order whose terms it repeats, with the recovered owner |
| SignatureEncoding.DecodedSignatureKeepsOwner | crates/model/src/signature.rs:116-167 | a decoded EIP-1271 signature keeps the owner prefix, so encoding it again prefixes it twice |

## Left out

- HTTP and RPC sending, database connections, metrics, tracing, timers and process start-up; one clock
  value per step stands for the clock, and asynchronous code is a set of interleaved steps.
- Contract bindings, the ABI decoder, Keccak-256 and ECDSA recovery; the last two are parameters. The
  EIP-191 wrapping of the EIP-712 hash is part of that recovery parameter.
- Floating point: normalised native prices and fee factors come in as given numbers.
- Bit layout of the trade flags; a raw trade carries the decoded kind, balances and scheme.
- Other in-flight settlements than the recorded one: the loop keeps one record only, and the claim is
  about that one.
- Fee policies are opaque values that a competition record copies.
- The order and quote APIs, onchain order events, banned-user lookup, price estimation and the caches
  behind them.
- `u64` and `usize` are one type; block numbers stay within `i64` as the tables need it.
- BatchWorker.DispatchDecides: a reply to a caller that gave up after the dispatch is sent to a closed
  channel and dropped; the model records it as sent.
- Alerter.Alerter.Update: alerts are spaced by the minimum interval up to the time between the two clock
  readings an alert makes, since the code compares with the second and stores the first.
- AuctionBuilder.Update: says exactly when building fails, but not which of several errors is returned. Each
  checkpoint counts what its filter dropped; over the whole pipeline only the sum of the counts is stated.
- Addresses, tokens and uids are plain numbers where only their identity matters; the byte-level types
  are used in the encoding modules only.

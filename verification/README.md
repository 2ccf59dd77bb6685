# Phoenix matching engine and vaults, modelled and proved in Dafny

Phoenix is an on-chain order book without a crank: every instruction matches at once against two
price-time ordered books, keeps each trader's free and locked lots, and settles from token vaults.
This fork also runs markets on a rollup, where deposits and withdrawals travel as receipts between
two layers. The project models that core and proves what it promises for every input, every run and
every reachable state.

The model has two levels. Markets, books, orders, packets and receipts are values, and each
operation is a function on them (`Matching`, `Placement`, `Accounts`, `Batches`, `Receipts`). The
code that updates things in place is modelled by classes whose methods have the source's loops and
branches (`Engine.FifoMarket`, `Handlers.Desk`, `Recorder.EventRecorder`). The market's methods are
proved to reach exactly the states of those functions; the handlers keep the whole system solvent,
say outright what they change, and each of them is one move of the two-layer system, so the theorems
about all its runs hold of any sequence of handler calls. An operation that fails returns `None`; the transaction is rolled back, so
a failed step of a run changes nothing.

What is proved, by module:

- `Quantities`: lot and fee arithmetic; the rounding of budgets and fees never lets a taker overpay
  or receive too much.
- `OrderIds`, `Books`, `Traders`: the order key, the sorted book, the balances.
- `Markets`: the invariant, and the two elementary edits (take lots from a resting order, post an
  order) with what each of them keeps: the locked-funds equation, the uncrossed book, the agreement
  of the event log with the books, the totals.
- `Matching`: the greedy walk over the opposite book, its budgets and its maximality.
- `Placement`, `Accounts`, `Batches`, `Runs`: placing orders one by one or in batches with a running
  estimate of funds, reducing, cancelling, claiming, depositing, collecting fees; all runs of these.
- `Cancels`: what reducing, cancelling lists, cancelling everything and cancelling up to a limit remove,
  release and pay, exactly.
- `Outcomes`: what a placement comes to, told from the packet, the books and the event log: which packets
  are admitted, which fills happen and where matching stops, what rests and at which price, how it is
  paid, and when each stage fails.
- `Equity`: an exact account, trader by trader, of what each instruction does to the balances.
- `Receipts`, `Handlers`: vaults, receipts, delegation and tombstoning, interleaved with trading. What
  an observer sees of each trader (atoms at the vaults, lots on its balance, fills in the log) is
  tallied from the states before and after every move, and shown to add up in every reachable state.
- `Codec`: the Borsh encoding of order packets and the decoder of shortened packets.
- `Recorder`: the batching of events into size-bounded calls, down to the bytes, and its reader.
- `Ladders`: the aggregated book.

Conventions. `Bid` stands for the quote token and `Ask` for the base token wherever an amount is
indexed by side. A book is the sequence of its entries from best to worst. Lots are unbounded
naturals; 64-bit limits appear where the code's result depends on them (the budget conversion that
falls back to the maximum, amending an ask above the maximum price, the sequence-number limit, the
division by zero of a quote-denominated sell at a 100% fee, the 16-bit event counter).

Assumptions. A market's tick size is at least one and a multiple of the base lots per base unit, and
its fee is at most 10000 basis points. The clock never goes back between placements. Nobody
transfers tokens into the vaults from outside. An account is written on one layer at a time.

Five points where the code says something other than one might expect, kept as they are. A buy whose
payment would use its quote budget to the last lot may stop one lot short, because the budget is scaled
with a fee rounded up; `BuyFitsExactly` says exactly when and `LastLotOutOfReach` gives a case. The
remainder of a limit buy at the highest possible price never rests, even in front of an empty book. A sell
with a quote budget divides by zero when the fee is exactly 100%, so it cannot succeed there; the
budget theorem covers all fees because it speaks of successful orders only. The shortened-packet
decoder accepts any encoding without up to three trailing zero bytes, whether or not those bytes
are whole default fields; its contract states that set exactly. And an expiry of `Some(0)` in a
packet becomes "never expires" on the resting order.

## Model

| member | source | states |
|---|---|---|
| `Quantities.QuoteLotsLinear` | src/state/markets/fifo.rs:589-602 | because the lots per base unit divide the tick size, price times tick times size is a whole number of quote lots |
| `Quantities.QuoteLotsSplit` | src/state/markets/fifo.rs:1609-1628 | splitting an order splits its quote value exactly, so partial fills and reductions lose nothing to rounding |
| `Quantities.TakerFeeOfQuoteLots` | src/state/markets/fifo.rs:606-612 | the twice rounded-up fee on whole quote lots is the ceiling of lots times bps over 10000, and never exceeds the lots |
| `Quantities.BudgetFailsExactly` | src/state/markets/fifo.rs:640-651 | converting a budget divides by zero exactly for a sell given in quote lots on a market whose fee is 100%; without a quote amount the budget is the 64-bit maximum |
| `Quantities.BuyNeverOverpays` | src/state/markets/fifo.rs:621-632 | a buy that stays within its fee-adjusted budget pays at most its quote budget, fee included, also when the conversion falls back to the 64-bit maximum |
| `Quantities.SellNeverOverreceives` | src/state/markets/fifo.rs:640-651 | a sell that stays within its fee-adjusted budget receives at most its quote budget, fee deducted |
| `Quantities.BuyFitsExactly` | src/state/markets/fifo.rs:621-632 | an amount fits a buy's budget exactly when it can be paid with the unrounded fee, save that an exact payment fits only if the fee rate divides the 64-bit maximum (amounts below the maximum over 9999) |
| `Quantities.SellFitsExactly` | src/state/markets/fifo.rs:640-651 | an amount fits a sell's budget exactly when it brings no more than asked for after the unrounded fee |
| `Quantities.LastLotOutOfReach` | src/state/markets/fifo.rs:621-632 | 5001 quote lots at 2 basis points would pay for 5000, but the budget is smaller |
| `OrderIds.SeqNumRoundTrip` | src/state/markets/fifo.rs:988-997 | the number stored for a placement gives back its counter and, by the leading bit, its side, although bids store the complement |
| `OrderIds.CounterRoundTrip` | src/state/enums.rs:17-22 | every stored number is the encoding of its decoded counter and side, so ids with different counters differ |
| `OrderIds.CompareIsPriceTimePriority` | src/state/markets/fifo.rs:69-101 | within a book, an id is ahead of another exactly when its price is better, or equal with an earlier placement; equal keys only for equal ids |
| `OrderIds.AheadIsTransitive` | src/state/markets/fifo.rs:97-101 | the order of ids is transitive within a book |
| `Books.PricesWorsen` | src/state/markets/fifo.rs:69-95 | prices never improve along a sorted book |
| `Books.ShrinkOk` | src/state/markets/fifo.rs:1577-1587 | taking lots from an entry, or removing it, keeps the book sorted, its sizes positive and its ids distinct |
| `Books.InsertOk` | src/state/markets/fifo.rs:1031-1039 | inserting a newly numbered order keeps the book sorted with distinct ids |
| `Books.LockedInShrink` | src/state/markets/fifo.rs:1609-1628 | taking lots from an order lowers its owner's locked sum by exactly their value and nobody else's |
| `Traders.TotalUpdate` | src/state/trader_state.rs:16-76 | changing one trader's balances changes the total of all traders by exactly that difference |
| `Markets.LockedCovers` | src/state/trader_state.rs:16-46 | in every valid market the value of any part of a resting order is within its owner's locked balance, so no subtraction underflows |
| `Markets.TakeInv` | src/state/markets/fifo.rs:1547-1628 | taking lots by fill, reduction, expiry or eviction keeps the invariant: sorted positive books within capacity, seated owners, locked balances equal to the book |
| `Markets.TakeUncrossed` | src/state/markets/fifo.rs:1577-1587 | taking lots never crosses the books |
| `Markets.TakeLog` | src/state/markets/fifo.rs:1592-1606 | after a take the replayed log still shows exactly the resting orders with their sizes and expiries |
| `Markets.TakeTotals` | src/state/trader_state.rs:16-46 | a fill moves exactly its base and quote value between the totals; any other take moves nothing |
| `Markets.PostInv` | src/state/markets/fifo.rs:1031-1067 | posting keeps the invariant, with the locked balance raised by the order's exact value |
| `Markets.PostUncrossed` | src/state/markets/fifo.rs:999-1023 | posting at a price that crosses no live order leaves no live bid at or above a live ask |
| `Markets.PostLog` | src/state/markets/fifo.rs:1070-1090 | after the place and time-in-force events the replayed log shows the new order too, under an id no event has used |
| `Markets.RegisterInv` | src/state/markets/market_traits.rs:182-188 | seating a trader keeps the invariant and moves no funds |
| `Markets.UnseatInv` | src/state/markets/fifo.rs:748-751 | removing a seat with all-zero balances keeps the invariant: its owner has no order in either book |
| `Matching.AffordableFits` | src/state/markets/fifo.rs:1370-1377 | the lots computed by division are exactly those that fit both budgets |
| `Matching.WalkTreats` | src/state/markets/fifo.rs:1199-1330 | the walk takes from a prefix of the book in priority order; every order met is at most the limit price for a buy and at least it for a sell, and is dropped whole if expired, reduced if the taker's own (cancelled whole in that mode), filled otherwise, and only the last may be left with lots |
| `Matching.WalkBudgets` | src/state/inflight_order.rs:70-89 | matched base and quote are exactly the fills; each budget falls by exactly the fills and, if self trades are decremented, the lots taken off own orders; each order met costs one of the match limit |
| `Matching.WalkIsMaximal` | src/state/markets/fifo.rs:1199-1235 | matching stops only when the base budget or match limit is spent, the book is empty, its top price is above a buy's limit or below a sell's, or the quote budget cannot buy one lot at that price |
| `Matching.WalkAbortsExactly` | src/state/markets/fifo.rs:1272-1294 | matching fails exactly when self trades abort and the walk that would cancel them instead meets one of the taker's own live orders; otherwise both make the same takes |
| `Matching.TakeHeadsKeeps` | src/state/markets/fifo.rs:1190-1421 | a whole sequence of takes from the top keeps the invariant, the uncrossed books and the log's agreement |
| `Matching.TakeHeadsTotals` | src/state/markets/fifo.rs:1405-1420 | a whole sequence of takes changes the totals by exactly the value of its fills |
| `Matching.TakeHeadsLog` | src/state/markets/fifo.rs:1390-1401 | a sequence of takes records exactly its events, in order |
| `Placement.AdmitKeeps` | src/state/markets/fifo.rs:766-820 | an admitted packet has a positive price if it may rest, a seat if it may rest, and has moved no funds |
| `Placement.CheckForCrossKeeps` | src/state/markets/fifo.rs:677-720 | the cross check removes exactly the leading expired orders that the price crosses, and keeps the totals, the invariant, the uncrossed books and the log |
| `Placement.CheckForCrossReturns` | src/state/markets/fifo.rs:696-707 | every trader gets back, as free funds, exactly what its removed orders locked, and no other balance changes |
| `Placement.PreparePostOnlyKeeps` | src/state/markets/fifo.rs:838-863 | a post-only order that is not rejected gets a positive price, no more aggressive than asked, that crosses no live order |
| `Placement.MatchedFacts` | src/state/markets/fifo.rs:922-938 | what was matched is whole quote lots, so both roundings are exact, is within the budget, and the fee on it is at most the matched quote |
| `Placement.MatchOrderKeeps` | src/state/markets/fifo.rs:1190-1434 | matching keeps the invariant, the uncrossed books and the log, and moves exactly the matched lots between taker and makers and the fee into the pot |
| `Placement.LimitNoCross` | src/state/markets/fifo.rs:999-1020 | when the limit check passes, the price crosses no live order of the opposite book |
| `Placement.MakeRoomKeeps` | src/state/markets/fifo.rs:1147-1188 | eviction leaves room for one order and keeps the totals, the invariant, the uncrossed books and the log |
| `Placement.MakeRoomReturns` | src/state/markets/fifo.rs:1153-1186 | there is room exactly in a book that is not full or for a price strictly better than its worst; only that worst order is evicted, its owner's locked funds for it become free and nobody else's balance changes |
| `Placement.TryPostKeeps` | src/state/markets/fifo.rs:1022-1090 | posting the remainder keeps the invariant, the uncrossed books, the log and the balance of funds |
| `Placement.SettleKeeps` | src/state/markets/fifo.rs:1094-1142 | paying from free funds balances; a deposited-funds order neither deposits nor withdraws |
| `Placement.PlaceOrderKeeps` | src/state/markets/fifo.rs:759-1145 | every successful placement keeps the invariant, the uncrossed books and the log, and changes total base and total quote plus fees by exactly deposit minus lots out |
| `Placement.DepositedOnlyMovesNothing` | src/state/markets/fifo.rs:1113-1141 | a successful deposited-funds order of a seated (or newly seated) trader moves nothing in or out and leaves both totals unchanged |
| `Placement.ExecuteWithinBudget` | src/state/markets/fifo.rs:878-948 | an immediate order pays at most its quote budget (buy) or receives at most it (sell), and matches at most its base budget |
| `Placement.PlaceOrderWithinBudget` | src/state/markets/fifo.rs:878-948 | the response and the fill summary of a whole immediate placement stay within its quote and base budgets |
| `Placement.FillOrKillFillsExactly` | src/state/markets/fifo.rs:962-985 | a successful unexpired fill-or-kill order fills exactly the amount it named, as its fill summary records |
| `Outcomes.AdmitExactly` | src/state/markets/fifo.rs:766-820 | a packet is admitted exactly on a working market, with a positive price for bids, an amount, exactly one amount for immediate orders, and a seat if it may rest; the sender is recognised as taker exactly when seated |
| `Outcomes.ExpiredPlacesNothing` | src/state/markets/fifo.rs:822-829 | an expired packet succeeds, at most takes a seat, and moves nothing |
| `Outcomes.ExecuteExact` | src/state/markets/fifo.rs:872-957 | which orders matching met and how, the book it left, the events and the summary with its fee, the lots left, and why it stopped, in the packet's own terms |
| `Outcomes.MatchesAsFarAsPossible` | src/state/markets/fifo.rs:1199-1387 | after a placement the base amount or match limit is used up, the other side is empty or beyond the packet's limit price, or the quote budget left does not pay for one more lot |
| `Outcomes.FillsWithinLimit` | src/state/markets/fifo.rs:1221-1235 | every fill event of a placement is of somebody else's order on the other side at a price at most the packet's limit for a buy and at least it for a sell; post-only and expired packets record none |
| `Outcomes.PreparePostOnlyExactly` | src/state/markets/fifo.rs:838-863 | a post-only price stays as asked exactly when it meets no live order; otherwise it is one tick from the best live price, or refused, or impossible at the ends of the range |
| `Outcomes.LimitCrossesExactly` | src/state/markets/fifo.rs:999-1020 | a limit remainder is held back exactly when it meets a live order, or is a buy at the highest price |
| `Outcomes.TryPostExact` | src/state/markets/fifo.rs:1022-1090 | nothing rests exactly when no lots are left or they would cross; otherwise one new entry with the next number, the sender, the lots and the packet's slot and time limits is in the book, all others keep their places, and only the last of a full book is gone |
| `Outcomes.LimitRests` | src/state/markets/fifo.rs:987-1090 | the lots a limit order leaves are those named less the logged fills and decremented self trades; they rest under the packet's price and time limits, exactly unless none are left or they meet a live order or are a buy at the highest price |
| `Outcomes.PostOnlyRests` | src/state/markets/fifo.rs:831-870 | a successful post-only order rests with all its lots, its time limits, and the price asked or exactly one tick from the best live opposite price |
| `Outcomes.RestsWhileValid` | src/state/markets/fifo.rs:131-132 | a resting order expires exactly when its packet does, except that a limit of zero means none |
| `Outcomes.FreeFundsFirst` | src/state/markets/fifo.rs:1094-1112 | a seated sender deposits only when its free funds of that token are used up, and never uses more of them than it owes |
| `Outcomes.ExecuteFailsExactly` | src/state/markets/fifo.rs:878-921 | matching fails exactly for a quote-denominated sell at a 100% fee and for an aborting self trade |
| `Outcomes.ImmediateFailsExactly` | src/state/markets/fifo.rs:962-985 | an immediate order is void exactly when matching fails or its fill summary is below one of its minima |
| `Outcomes.SettleFailsExactly` | src/state/markets/fifo.rs:1113-1141 | paying fails exactly for a deposited-funds order whose seated sender owes more than it has free |
| `Accounts.ClaimKeeps` | src/state/markets/fifo.rs:723-757 | claiming keeps the invariant, and the response is exactly what left the market |
| `Accounts.ClaimExact` | src/state/markets/fifo.rs:723-757 | a claim pays, per token, all that is free if no amount is named and otherwise the smaller of the two; locked funds and all other traders stay; the seat goes exactly when allowed and all four balances are then zero |
| `Accounts.DepositKeeps` | src/program/processor/deposit.rs:48-72 | a deposit seats the trader if needed, adds exactly the deposited lots to its free balance, and leaves every other trader, the books and the log alone |
| `Accounts.CollectFeesKeeps` | src/program/processor/fees.rs:35-56 | collecting fees pays out exactly the unclaimed fees, leaves none, and touches no trader or order |
| `Accounts.ReduceOrderKeeps` | src/state/markets/fifo.rs:1547-1641 | reducing an order keeps the invariant and the log, and the response is exactly what left the market |
| `Accounts.CancelIdsKeeps` | src/state/markets/fifo.rs:1502-1543 | cancelling any list of ids, known or not, own or not, keeps everything and pays out exactly what left the market |
| `Cancels.ReduceExact` | src/state/markets/fifo.rs:1547-1641 | reducing fails exactly on another trader's order; of an own order it removes all or the smaller size named, keeps the rest in place, and releases or pays exactly what the removed lots locked |
| `Cancels.CancelIdsExact` | src/state/markets/fifo.rs:1502-1543 | any list of ids removes exactly the trader's own orders on it, unknown and foreign ids notwithstanding, and frees or pays exactly what they locked |
| `Cancels.CancelUpToExact` | src/state/markets/fifo.rs:1463-1500 | a bounded cancellation removes exactly the own orders among the first `search`, at the limit price or better (at least it for bids, at most it for asks), with fewer than `count` such before them; all others stay and exactly what the removed ones locked is freed or paid |
| `Cancels.CancelAllExact` | src/state/markets/fifo.rs:1436-1460 | cancelling all removes exactly the trader's orders from both books, zeroes the locked balances, leaves every other order and trader unchanged, and with claiming returns exactly what was locked |
| `Runs.ApplyKeeps` | src/state/markets/fifo.rs:437-545 | every instruction that changes a market (single and batch placement, reducing, cancelling, claiming, depositing, collecting fees) keeps the invariant, the uncrossed books and the log, and balances its response |
| `Runs.ClaimStepExact` | src/program/processor/withdraw.rs:69-109 | withdrawing succeeds exactly for a seated trader and pays as asked; giving up the seat succeeds exactly when that leaves nothing on it |
| `Runs.EveryRun` | src/state/markets/fifo.rs:437-545 | after any run of these from initialization: locked balances equal the book, all resting orders are positive and owned by seated traders, capacities hold, each book is in order of better price and then earlier placement, live bids are below live asks at the current clock, the event log replays to exactly the books, and no id was ever used twice |
| `Equity.TakeActs` | src/state/markets/fifo.rs:1393-1420 | taking lots from a resting order changes its owner's balance by exactly the fill it logs, and nobody else's |
| `Equity.PlaceOrderAccounted` | src/state/markets/fifo.rs:759-1145 | an exact account of a placement: each maker's balance changes by exactly its logged fills; the sender's by what the response says it paid in less what it was paid out, the makers' fills reversed, and the fee; nobody else's changes |
| `Equity.ApplyAccounted` | src/state/markets/fifo.rs:437-545 | the same account holds of every instruction; collecting fees touches no trader |
| `Receipts.RequestDepositSolvent` | src/program/processor/request_deposit.rs:186-266 | moving tokens in against an unprocessed receipt keeps each vault equal to what it must cover and every tally in balance |
| `Receipts.ProcessDepositCredits` | src/program/processor/process_deposit_er.rs:93-149 | the receipt's own trader, and no other, is credited with exactly the receipt's lots as free funds; books and log stay |
| `Receipts.ProcessDepositSolvent` | src/program/processor/process_deposit_er.rs:93-149 | crediting keeps each vault equal to what it must cover and every tally in balance, the credit being read off the trader's balance |
| `Receipts.CloseDepositSolvent` | src/program/processor/close_deposit_receipt.rs:42-76 | closing a processed receipt changes nothing the vaults cover |
| `Receipts.RequestWithdrawalSolvent` | src/program/processor/request_withdrawal.rs:68-202 | a withdrawal request moves nothing |
| `Receipts.ProcessWithdrawalWhen` | src/program/processor/process_withdrawal_er.rs:129-149 | a request can be processed exactly when some of what it asks for is free |
| `Receipts.ProcessWithdrawalDebits` | src/program/processor/process_withdrawal_er.rs:129-162 | the receipt's own trader, and no other, is debited by exactly what the receipt then says, the smaller of the request and the free funds; books and log stay |
| `Receipts.ProcessWithdrawalSolvent` | src/program/processor/process_withdrawal_er.rs:129-162 | debiting keeps each vault equal to what it must cover and every tally in balance, the debit being read off the trader's balance and within its own request |
| `Receipts.ExecuteWithdrawalSolvent` | src/program/processor/execute_withdrawal_base_chain.rs:64-191 | a processed receipt of an open market can always be paid from the vaults, pays exactly the debit, and closes |
| `Receipts.TradeOutcome` | src/program/processor/withdraw.rs:69-109 | an instruction is carried out exactly when the market accepts it and, on the rollup, moves no tokens; the vaults change by exactly its response and are never short |
| `Receipts.TradeSolvent` | src/program/processor/withdraw.rs:69-109 | every market instruction's token movement is covered: payouts never exceed a vault, and each vault stays equal to what it must cover |
| `Receipts.VaultsConserve` | src/program/processor/execute_withdrawal_base_chain.rs:64-191 | in every reachable state of the two layers each vault is lot size times (free and locked lots, unclaimed fees, unprocessed deposits, processed unpaid withdrawals); and per trader and token, as observed: atoms sent are credited once or on the open receipt, lots debited are paid or on the processed receipt, a receipt is within its own request, and the balance is exactly credits less debits plus fills as maker and taker plus own payments |
| `Receipts.TombstoneLeavesOnlyReceipts` | src/program/processor/governance.rs:119-168 | in every reachable state with a tombstoned market the vaults hold only receipts in flight |
| `Engine.MatchStep` | src/state/markets/fifo.rs:1199-1421 | one turn of the matching loop followed by the rest is the whole greedy walk |
| `Engine.FifoMarket.constructor` | src/state/markets/fifo.rs:571-602 | a new market is empty, with its sequence number at one |
| `Engine.FifoMarket.GetOrRegisterTrader` | src/state/markets/market_traits.rs:182-188 | finds or makes a seat, and fails exactly when a new seat is needed and none is left |
| `Engine.FifoMarket.ClaimFunds` | src/state/markets/fifo.rs:723-757 | in place, pays per token all that is free or the smaller amount named, leaves locked funds and other traders alone, and gives up the seat exactly when allowed and empty |
| `Engine.FifoMarket.DepositFunds` | src/program/processor/deposit.rs:48-72 | in place, exactly the deposit proved to balance |
| `Engine.FifoMarket.CollectAllFees` | src/state/markets/fifo.rs:528-545 | in place, moves all unclaimed fees to the collected total and reports them |
| `Engine.FifoMarket.TakeFromOrder` | src/state/markets/fifo.rs:1577-1628 | taking lots off a resting order reports them and unlocks exactly what backed them |
| `Engine.FifoMarket.ReduceOrderInner` | src/state/markets/fifo.rs:1547-1641 | in place, exactly the reduction, including the foreign-owner error and the missing-order success |
| `Engine.FifoMarket.CheckForCrossing` | src/state/markets/fifo.rs:677-720 | the loop computes the cross check; its empty-order branch is unreachable |
| `Engine.FifoMarket.MatchInflight` | src/state/markets/fifo.rs:1190-1434 | the loop terminates and refines the greedy walk: same book, maker balances, events in the same order, budgets and fee, and failure exactly when the walk fails; every fill it logs is within the limit price and of another trader's order; its empty-order branch is unreachable |
| `Engine.FifoMarket.MeetOwnHead` | src/state/markets/fifo.rs:1272-1329 | meeting an own order aborts, cancels it, or takes off it what both budgets allow and spends them |
| `Engine.FifoMarket.FillHead` | src/state/markets/fifo.rs:1332-1421 | filling the top order takes the whole of it or all that both budgets allow |
| `Engine.FifoMarket.ExchangeWithMaker` | src/state/markets/fifo.rs:1353-1420 | the maker's balances and the book change by exactly the matched lots |
| `Engine.FifoMarket.EvictLeastAggressive` | src/state/markets/fifo.rs:1147-1188 | evicts the last order exactly when the new price is strictly better |
| `Engine.FifoMarket.PostResting` | src/state/markets/fifo.rs:1022-1090 | in place, exactly the posting step: the entry it adds has the next number, the sender, the price, the lots and the packet's slot and time limits; it fails when a full book cannot make room |
| `Engine.FifoMarket.InsertResting` | src/state/markets/fifo.rs:1031-1090 | inserts, locks the order's value, uses free funds first, records the events and advances the counter |
| `Engine.FifoMarket.FindCross` | src/state/markets/fifo.rs:999-1020 | the search over the opposite book decides whether a limit remainder would cross |
| `Engine.FifoMarket.ExecuteOrder` | src/state/markets/fifo.rs:872-957 | in place, exactly matching with its budgets, rounding, fee and summary event |
| `Engine.FifoMarket.SettleFunds` | src/state/markets/fifo.rs:1094-1142 | in place, exactly the payment from free funds |
| `Engine.FifoMarket.WorkOrder` | src/state/markets/fifo.rs:831-1092 | in place, exactly matching or cross checking followed by posting |
| `Engine.FifoMarket.PlaceOrderInner` | src/state/markets/fifo.rs:759-1145 | succeeds exactly when the placement function does, with its state, order id and response |
| `Engine.FifoMarket.CancelMultiple` | src/state/markets/fifo.rs:1502-1543 | the loop cancels the ids one by one and sums what came out |
| `Engine.FifoMarket.CancelUpToOrders` | src/state/markets/fifo.rs:1463-1500 | removes exactly the orders sought by number, count and price, keeps all others, and frees or pays exactly what they locked; an unknown trader gets `None` and no change |
| `Engine.FifoMarket.CancelAllOrders` | src/state/markets/fifo.rs:1436-1460 | removes exactly the trader's orders and pays exactly what was locked; an unknown trader gets `None` and no change |
| `Handlers.Desk.RequestDeposit` | src/program/processor/request_deposit.rs:67-266 | succeeds exactly on an open delegated market without an open receipt; both vaults rise by the lots times the lot size, the receipt says so, and the system stays solvent |
| `Handlers.Desk.ProcessDepositEr` | src/program/processor/process_deposit_er.rs:47-149 | succeeds exactly on an unprocessed receipt whose trader has or can get a seat; only that trader's free balance rises, by the receipt; the receipt can not be processed again; the system stays solvent |
| `Handlers.Desk.CloseDepositReceipt` | src/program/processor/close_deposit_receipt.rs:27-76 | removes exactly a processed receipt; vaults and balances stay and the system stays solvent |
| `Handlers.Desk.RequestWithdrawal` | src/program/processor/request_withdrawal.rs:63-202 | leaves a receipt for the request if there is none; vaults and balances stay and the system stays solvent |
| `Handlers.Desk.ProcessWithdrawalEr` | src/program/processor/process_withdrawal_er.rs:48-162 | succeeds exactly when some of the request is free; the receipt becomes the smaller of request and free funds and only its trader's free balance falls, by that; the system stays solvent |
| `Handlers.Desk.ExecuteWithdrawalBaseChain` | src/program/processor/execute_withdrawal_base_chain.rs:38-191 | pays every processed receipt of an open market in full: the shortage of a vault is unreachable; the vaults fall by exactly the receipt and the system stays solvent |
| `Handlers.Desk.Trade` | src/lib.rs:246-470 | any market instruction: succeeds exactly when the market accepts it and, on the rollup, it moves no tokens; the vaults move by exactly its response, are never short, and a failure changes nothing |
| `Handlers.Desk.Delegate` | src/program/processor/delegate_market.rs:49-120 | hands an open market to the rollup or back, changing nothing else |
| `Handlers.Desk.TombstoneMarket` | src/program/processor/governance.rs:119-168 | succeeds exactly on a base-layer market without orders, fees and traders, and then the vaults hold only receipts in flight |
| `Handlers.Desk.Handle` | src/lib.rs:116-176 | every instruction is a move of the two-layer system and keeps it solvent |
| `Handlers.Dispatch` | src/lib.rs:246-470 | every market instruction in place succeeds exactly when its function does, with its state and response |
| `Batches.PostOnlyMoves` | src/program/processor/new_order.rs:606-640 | a post-only placement posts at most what its asked price requires, deposits only what free funds did not cover, and never lowers free funds by more than it used, whatever was amended, expired or evicted |
| `Batches.PlaceLevelCovered` | src/program/processor/new_order.rs:608-651 | the running estimate never underflows and stays within token account plus free balance |
| `Batches.BatchIsCovered` | src/program/processor/new_order.rs:555-651 | in skip mode the summed deposit of any batch is at most the lots in the token accounts at the start |
| `Batches.PlaceLevelsKeeps` | src/program/processor/new_order.rs:563-651 | a batch keeps the market's invariant, uncrossed books and log, and raises the market's funds by exactly the summed deposit |
| `Batches.PlaceLevelExactly` | src/program/processor/new_order.rs:606-651 | in skip mode a level is left out exactly when fewer lots are available than it needs; otherwise its packet is placed, the estimate falls by what it posts and the deposit grows by what free funds did not pay |
| `Batches.BatchHasTrace` | src/program/processor/new_order.rs:563-651 | a successful batch takes its levels in order, each on the market and estimate left by the ones before |
| `Batches.TraceIsBatch` | src/program/processor/new_order.rs:563-651 | and whatever the levels lead to in this way is what the batch does |
| `Batches.WholeBatchHasTrace` | src/program/processor/new_order.rs:555-562 | the estimate starts from token account and free balance together; a trader without a seat fails |
| `Batches.TraceIsWholeBatch` | src/program/processor/new_order.rs:555-562 | and every such trace is the instruction's result |
| `Handlers.PlaceOne` | src/program/processor/new_order.rs:608-651 | in place, one level: left out exactly when the available lots are fewer than needed, otherwise placed with the estimate and deposit updated as stated |
| `Handlers.PlaceBatch` | src/program/processor/new_order.rs:503-651 | the loop places all levels, fails for a trader without a seat, and in skip mode asks for no more than the token accounts hold |
| `Codec.ParseAllSound` | src/state/order_schema/order_packet.rs:671-676 | parsed fields re-encode to the bytes they were read from |
| `Codec.ParseAllComplete` | src/state/order_schema/order_packet.rs:671-676 | encoded fields parse back, whatever follows them |
| `Codec.TryFromSliceExact` | src/state/order_schema/order_packet.rs:671-676 | strict deserialization returns a packet exactly on its encoding |
| `Codec.PrefixFree` | src/state/order_schema/order_packet.rs:677-697 | no packet's encoding is a prefix of another's |
| `Codec.CompletionUnique` | src/state/order_schema/order_packet.rs:684-697 | bytes padded by any two numbers of zeros complete to the same packet, so the order of the attempts does not matter |
| `Codec.DecodeExact` | src/state/order_schema/order_packet.rs:671-699 | the attempts together find a packet exactly when the bytes are its encoding with at most three trailing zero bytes left off |
| `Codec.DecodeOrderPacket` | src/state/order_schema/order_packet.rs:671-699 | the padding loop returns a packet exactly when the bytes are its encoding with at most three trailing zero bytes left off |
| `Codec.TruncatedRoundTrip` | src/state/order_schema/order_packet.rs:684-697 | decoding the encoding without its last k bytes returns the packet, whenever its last k optional fields are default (up to three for post-only and limit, two for immediate orders) |
| `Codec.PacketBegins` | src/state/order_schema/order_packet.rs:671-676 | the first bytes on the wire: 0, 1 or 2 for the variant, 0 or 1 for the side, price and size as eight bytes each, and 0, 1 or 2 for a limit order's self-trade behaviour |
| `Codec.LowestByteFirst` | src/state/order_schema/order_packet.rs:671-676 | integers are written lowest byte first |
| `Recorder.EventRoundTrip` | src/program/events.rs:86-118 | a serialized event is read back with its index, whatever follows it |
| `Recorder.EventBegins` | src/program/events.rs:86-118 | the first bytes of an event: its variant's number, then its index lowest byte first |
| `Recorder.EventSize` | src/program/event_recorder.rs:41-53 | no event takes more than 67 bytes |
| `Recorder.ReadBatchExact` | src/program/event_recorder.rs:126-146 | reading a batch by its header count gives exactly its events with their indices and leaves nothing over |
| `Recorder.ReadAllExact` | src/program/event_recorder.rs:126-209 | all batches together read as the added events with indices 0..n-1; each fits in 1280 bytes with its account meta; an empty batch occurs only alone and without events |
| `Recorder.EventRecorder.constructor` | src/program/event_recorder.rs:80-122 | a new recorder has sent and added nothing |
| `Recorder.EventRecorder.Flush` | src/program/event_recorder.rs:126-146 | a delivered flush sends one more batch that carries exactly the pending events |
| `Recorder.EventRecorder.AddEvent` | src/program/event_recorder.rs:151-184 | adds the event, flushing first exactly when it would not fit; fails only on a failed delivery or an earlier error, and aborts only at 65535 events; the scratch-buffer error is unreachable |
| `Recorder.EventRecorder.Append` | src/program/event_recorder.rs:177-183 | moves the serialized event to the data and counts it, overflowing exactly at 65535 |
| `Recorder.EventRecorder.Finish` | src/program/event_recorder.rs:187-209 | on success at least one batch was sent, the batches read back as all added events in order, and the market's sequence number advanced unless a status change deleted the market |
| `Ladders.GroupedOrder` | src/state/markets/market_traits.rs:127-133 | one-pass grouping of a sorted book lists each price once, best first |
| `Ladders.SideLadderShows` | src/state/markets/market_traits.rs:119-138 | a side's ladder lists the best prices of unexpired orders in strict priority order, each with the whole size at that price; a live price is missing only if the ladder is full of better ones |
| `Ladders.TypedLadderShows` | src/state/markets/market_traits.rs:109-142 | both sides of the ladder of any valid market are exact in that sense |

## Left out

- The red-black tree, its memory layout and the dispatch over market sizes: a book is a sorted sequence with a capacity and the trader table a map with a capacity.
- Trader node addresses: a trader's identity stands for its address, which is stable while it is seated.
- Trader states as separately updated objects: they are values in the trader map, and a method replaces the entry.
- Overflow aborts of 64-bit quantities in general: lots are unbounded, so runs that would abort by overflow in the program continue in the model.
- Sorting and grouping of a batch, and its check that bids and asks do not cross each other: the batch step takes any sequence of levels, so runs and batch theorems cover more than the program can do.
- Whether a trader's token account can pay: a step that pays in is taken to be paid, except that a batch in skip mode is proved to stay within the account.
- The insufficient-funds path of single orders that are told to fail silently, and the checks on market status around orders.
- Cross-program calls, account derivation, ownership and signer checks, rent, delegation buffers, commits and callbacks: only the rule that an account is written on one layer at a time is kept.
- Which token account receives a payment: the model follows the vaults.
- Liveness of the receipt flow: a withdrawal by a trader with no free funds stays unprocessed, as in the program.
- Seats' approval states, session tokens, authority succession, fee recipients, logging and formatting: short guards without state to reason about.
- The header bytes of an event batch other than its event count: taken as given bytes that every batch repeats.
- Serialization failures of events: writing to memory is taken to succeed.
- BuyFitsExactly: amounts of at least the 64-bit maximum over 9999 quote lots are not covered, where the rounding of the scaled fee adds up to more than a whole unit; the bound of BuyNeverOverpays holds for all amounts.
- SellFitsExactly: the same amounts are not covered; the bound of SellNeverOverreceives holds for all amounts.

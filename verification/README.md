# AssetForge backend: verified model

A Dafny 4.11 model of the stateful core of the AssetForge backend, with proofs of what the code
guarantees over every sequence of requests. `dafny verify dfyconfig.toml` checks all of it.

Nine components are modelled. Most have two layers: a specification on values (what each request
answers and which state it leaves behind), and a class or method with the source's control flow,
proved to compute exactly that specification. The theorems about whole runs are proved on the
specification and so hold of the class. What each single request answers and changes is stated a
second time without the specification's own formulas, from the request and the stored rows.

| component | files | main results |
|---|---|---|
| Constant-product liquidity pool | `PoolMath`, `PoolSpec`, `PoolRuns`, `PoolRequests`, `PoolHandler` | splitting a swap never helps; the value behind an LP token never falls; no round trip profits; the last provider out leaves nothing behind; fees are never over-credited; every unit in a reserve is accounted for |
| Peer-to-peer order book | `Allocation`, `OrderBook`, `OrderBookRuns`, `OrderRequests`, `P2PHandler` | the book is uncrossed after every request; matching is an optimal allocation; fills, trades and balances agree |
| WebSocket hub | `Subsequence`, `HubSpec`, `HubRuns`, `HubOrder`, `HubDelivery`, `HubSubscriptions`, `HubLoop` | in every interleaving: at-most-once delivery, one common order, no send to or double close of a closed queue; a connected subscriber has exactly the matching events since it registered; numbers arrive in order if and only if every step was orderly |
| Staking rewards | `StakingSpec`, `StakingRuns`, `StakingRequests`, `StakingHandler` | any schedule of distributions pays what a single one pays, up to one unit per credit; claims never exceed distributions |
| Cursor pagination | `PaginationSpec`, `ConnectionSpec`, `GraphQLHandler` | walks reproduce the table; page flags are exact; for all arguments, exactly when the answer is the connection algorithm's |
| Distributed rate limiter | `RateLimitSpec`, `RateLimiter` | the decision as a function of the history; the sliding-window bound, and for which durations it holds in full |
| Batches | `BatchNames`, `BatchSpec`, `BatchRuns`, `BatchHandler` | in every run, executing and rolling back restores the tables, and a rollback at any later time touches no other row; every row of a batch follows from its results |
| Multi-signature proposals | `MultiSigSpec`, `MultiSigHandler` | the stored count is the number of distinct signers; a tight bound on executions |
| Login lockout | `LockoutSpec`, `AuthService` | the lock as a function of the attempt history |

`Common` and `Sums` hold shared definitions.

## Reading the model

- A request that a handler rejects is a step that changes nothing and answers with an error.
- Amounts are unbounded integers. `PoolRuns.SmallRequestsNeverOverflow` gives the range in which the
  pool's 64-bit arithmetic agrees with them.
- The first deposit's `int64(math.Sqrt(float64(a) * float64(b)))` is the exact integer square root.
- An order's id is its position in the order table, so ordering by creation time is ordering by id.
- The hub is a transition system. Publishers, the loop, writers and clients interleave freely; a
  fan-out visits one subscriber per step. The register and unregister channels, together with
  goroutines blocked sending to them, are unordered collections, which allows every order the
  channels allow and more.
- Batches run beside everything else that writes the two tables: transfers, approvals, single
  listings, the processor of queued batches, and retries, which pass a batch to that queue.
- Staking uses a whole-second clock. The limiter's clock counts nanoseconds, never runs backward, and
  its expiry is cut to whole seconds as the source cuts it.

## Where the code and its documentation differ

- Pagination follows the GraphQL Cursor Connections Specification, section 4.4, only for some
  arguments; `ConnectionSpec.AgreesExactly` says for which. The departures, each with an input or a
  family of inputs under which it shows:
  a count of zero or less means a page of twenty, a page never exceeds a hundred rows, no count at
  all means twenty, and `last` without `before` pages forward (`CountsDepart`); a cursor that names
  no row still cuts by id (`UnknownCursorDeparts`), `before` still cuts when it does not follow
  `after` (`ReversedCursorsDepart`), `first` is ignored when `last` and `before` are given
  (`FirstIgnoredDeparts`), and an undecodable cursor is an error (`MalformedCursorDeparts`).
  Forward paging by `first` up to a hundred and backward paging by `last` up to a hundred, from
  cursors that name rows, always agree (`OrdinaryForward`, `OrdinaryBackward`).
- The hub's sequence numbers can arrive out of order; `HubOrder.StepOrder` names the two kinds of
  step that cause it.
- The limiter's window is the configured duration cut to whole seconds; a duration below one second
  never limits (`RateLimitSpec.FullWindowExactly`, `ShortExpiryNeverLimits`).
- A signature on an executed proposal approves it again, so execution is not one-shot;
  `MultiSigSpec.OneShotExactly` says for which wallets it is.
- Repeated owner ids count toward the threshold check but cannot sign twice;
  `MultiSigSpec.ApprovableExactly` says which wallets can approve anything.

## Model

| member | source | states |
|---|---|---|
| `PoolMath.ISqrt` | backend/handlers/liquidity.go:207-209 | the first mint is the largest integer whose square does not exceed the product of the deposits |
| `PoolMath.TwoSwapsAtMostOne` | backend/handlers/liquidity.go:384-412 | two consecutive swaps in one direction pay at most one swap of the combined input, despite both roundings and the retained fee |
| `PoolMath.OutputExact` | backend/handlers/liquidity.go:389 | the output is the largest amount whose removal keeps the product of the reserves |
| `PoolMath.SwapBackAtMostInput` | backend/handlers/liquidity.go:384-412 | returning any part of an output yields at most the original input |
| `PoolMath.MintThenBurn` | backend/handlers/liquidity.go:212-217 | minted tokens redeem for at most the deposit, on each reserve |
| `PoolMath.BurnKeepsShare` | backend/handlers/liquidity.go:304-311 | a burn pays at most its share, leaves the rest theirs, and empties a reserve exactly when it burns the whole supply |
| `PoolSpec.FeeCreditsBounded` | backend/handlers/liquidity.go:447-466 | the credits of one swap sum to at most the fee and fall short by less than the number of active positions |
| `PoolSpec.AddKeepsInv` | backend/handlers/liquidity.go:205-252 | an accepted deposit keeps the pool well formed and the value behind an LP token |
| `PoolSpec.RemoveKeepsInv` | backend/handlers/liquidity.go:299-322 | an accepted burn keeps both, and the negative-reserve clamps never act |
| `PoolSpec.SwapKeepsInv` | backend/handlers/liquidity.go:379-431 | an accepted swap keeps both and leaves the LP supply alone |
| `PoolSpec.SwapKeepsReserves` | backend/handlers/liquidity.go:384-412 | after a swap both reserves are positive and their product has not fallen |
| `PoolRuns.NewPoolWellFormed` | backend/handlers/liquidity.go:72-101 | a created pool, with the default fee if none is given, satisfies the invariant |
| `PoolRuns.Step` | backend/handlers/liquidity.go:187-444 | every request keeps the invariant: all of reserves and supply zero, or all positive with supply squared at most the product; positions sum to the supply; credits at most fees |
| `PoolRuns.Run` | backend/handlers/liquidity.go:187-444 | so does every run, hence no division is by zero |
| `PoolRuns.MintIsLargestFair` | backend/handlers/liquidity.go:205-218 | a deposit mints the largest number of tokens that dilutes neither reserve |
| `PoolRuns.BurnIsLargestFair` | backend/handlers/liquidity.go:304-306 | a burn pays the largest amounts within the burnt share |
| `PoolRuns.SwapIsLargestFair` | backend/handlers/liquidity.go:384-389 | output and net input are the largest that the product and the fee rate allow |
| `PoolRuns.StepKeepsShareValue` | backend/handlers/liquidity.go:205-412 | no request lowers the value behind an LP token |
| `PoolRuns.ShareValueNeverFalls` | backend/handlers/liquidity.go:205-412 | nor does any run during which the pool stays funded |
| `PoolRuns.SplitAtMostQuote` | backend/handlers/liquidity.go:384-412 | a series of swaps in one direction pays at most the quote for its accepted input |
| `PoolRuns.SplittingNeverHelps` | backend/handlers/liquidity.go:384-412 | one swap of the total accepted input is accepted and pays at least as much as any split |
| `PoolRuns.SwapsKeepProduct` | backend/handlers/liquidity.go:384-412 | over any swaps in any directions the product of the reserves never falls |
| `PoolRuns.NoFreeLunch` | backend/handlers/liquidity.go:384-412 | traders never draw one reserve down without raising the other |
| `PoolRuns.SwapBackNeverProfits` | backend/handlers/liquidity.go:363-412 | swapping an output back returns at most the input |
| `PoolRuns.AddThenBurnNeverProfits` | backend/handlers/liquidity.go:205-229 | burning what a deposit minted is accepted and returns at most the deposit |
| `PoolRuns.SwapLeavesLessThanRows` | backend/handlers/liquidity.go:447-466 | one swap leaves fewer uncredited units than there are active positions |
| `PoolRuns.LifetimeFeesBounded` | backend/handlers/liquidity.go:385-387 | over any run credited fees never exceed charged fees, and the gap is at most one unit per active position and swap |
| `PoolRuns.BurnAllAccepted` | backend/handlers/liquidity.go:294-322 | a holder can always burn everything, which changes no other row |
| `PoolRuns.DrainConserves` | backend/handlers/liquidity.go:305-322 | payouts plus what is left equal the starting reserves, for any order of burns |
| `PoolRuns.DrainPaysEverything` | backend/handlers/liquidity.go:227-322 | when all holders burn everything, in any order, they receive exactly the reserves and the pool ends empty |
| `PoolRuns.DepositRecorded` | backend/handlers/liquidity.go:232-252 | the recorded deposits of all rows together rise by exactly what was paid in, whether the provider already has a row or not |
| `PoolRuns.ReservesAccounted` | backend/handlers/liquidity.go:227-431 | over any run each reserve changes by exactly the recorded deposits, the recorded swaps and the payouts to providers |
| `PoolRuns.SmallRequestsNeverOverflow` | backend/handlers/liquidity.go:207-462 | with reserves and amounts below 2^31 no product or sum before a division, no running total of tokens and no stored reserve, supply or token balance leaves int64 |
| `PoolRequests.SwapAcceptedExactly` | backend/handlers/liquidity.go:345-399 | a swap is accepted if and only if it is well formed, the pool is active, funded and trades the asset, and it can pay at least one unit and at least the minimum without lowering the product of the reserves |
| `PoolRequests.SwapErrorIsTrue` | backend/handlers/liquidity.go:345-399 | the error of a rejected swap names a requirement that fails |
| `PoolRequests.SwapSettles` | backend/handlers/liquidity.go:384-431 | which reserve receives and which pays, the record, and output, fee and price impact from both sides; nothing else changes |
| `PoolRequests.CreditIsLargestFair` | backend/handlers/liquidity.go:461-465 | each row's credit is the largest share of the fee that its tokens cover; no other field changes |
| `PoolRequests.SwapSharesFee` | backend/handlers/liquidity.go:418-465 | the same for each row of the pool in an accepted swap |
| `PoolRequests.AddAcceptedExactly` | backend/handlers/liquidity.go:187-223 | a deposit is accepted if and only if both amounts are positive, the pool is active and each amount is worth a token |
| `PoolRequests.AddErrorIsTrue` | backend/handlers/liquidity.go:187-223 | the error of a rejected deposit names a requirement that fails |
| `PoolRequests.AddSettles` | backend/handlers/liquidity.go:205-252 | reserves, supply and the depositor's own row grow by what was paid and minted; no other row changes |
| `PoolRequests.RemoveAcceptedExactly` | backend/handlers/liquidity.go:274-302 | a burn is accepted if and only if the provider's row holds the tokens |
| `PoolRequests.RemoveErrorIsTrue` | backend/handlers/liquidity.go:274-302 | the error of a rejected burn names a requirement that fails |
| `PoolRequests.RemoveSettles` | backend/handlers/liquidity.go:304-322 | reserves fall by the largest fair payouts, supply and the provider's own row by the tokens; no other row changes |
| `PoolRequests.NewPoolTerms` | backend/handlers/liquidity.go:72-101 | assets in ascending order, the given fee or 30 basis points, active and empty |
| `PoolHandler.LiquidityPool.constructor` | backend/handlers/liquidity.go:77-101 | canonical asset order, default fee, empty pool |
| `PoolHandler.LiquidityPool.AddLiquidity` | backend/handlers/liquidity.go:187-263 | computes the specified deposit, errors included, and keeps the invariant |
| `PoolHandler.LiquidityPool.TokensToIssue` | backend/handlers/liquidity.go:205-218 | computes the specified mint |
| `PoolHandler.LiquidityPool.UpsertPosition` | backend/handlers/liquidity.go:234-252 | inserts the provider's row or raises the existing one |
| `PoolHandler.LiquidityPool.RemoveLiquidity` | backend/handlers/liquidity.go:274-334 | computes the specified burn, errors included, and keeps the invariant |
| `PoolHandler.LiquidityPool.SwapTokens` | backend/handlers/liquidity.go:345-444 | computes the specified swap, errors included, and keeps the invariant |
| `PoolHandler.LiquidityPool.Settle` | backend/handlers/liquidity.go:405-431 | moves the reserves, credits the fee, records the swap, changes nothing else |
| `PoolHandler.LiquidityPool.DistributeFee` | backend/handlers/liquidity.go:447-466 | credits each row its rounded share of the fee |
| `PoolHandler.LiquidityPool.TokensHeld` | backend/handlers/liquidity.go:453-456 | the first loop sums the tokens of all rows |
| `PoolHandler.LiquidityPool.CreditRows` | backend/handlers/liquidity.go:461-465 | the second loop credits every row once |
| `Allocation.GreedyTakesAll` | backend/handlers/p2p.go:107-116 | greedy filling is a valid allocation and takes all that is wanted or all there is |
| `Allocation.GreedyRespectsPriority` | backend/handlers/p2p.go:107-187 | an offer is touched only when every earlier one is used up |
| `Allocation.GreedyIsCheapest` | backend/handlers/p2p.go:97-118 | no allocation of the same quantity over ascending prices costs less |
| `OrderBook.Counters` | backend/handlers/p2p.go:88-103 | the query returns exactly the live crossing orders, best price first, then oldest first |
| `OrderBook.FillKeepsLedger` | backend/handlers/p2p.go:105-187 | one fill keeps fill levels, statuses, the trade log and the balance per asset |
| `OrderBookRuns.MatchIsGreedy` | backend/handlers/p2p.go:105-188 | the matching loop fills each maker by its greedy share and touches no other order |
| `OrderBookRuns.MatchSpends` | backend/handlers/p2p.go:134-143 | the trades written are worth what the greedy allocation costs |
| `OrderBookRuns.MatchingExhausts` | backend/handlers/p2p.go:107-188 | after matching the taker or each crossing maker is used up |
| `OrderBookRuns.CreateKeepsInv` | backend/handlers/p2p.go:43-191 | creating an order leaves the book uncrossed and the ledger sound |
| `OrderBookRuns.CancelKeepsInv` | backend/handlers/p2p.go:200-227 | so does cancelling one |
| `OrderBookRuns.Step` | backend/handlers/p2p.go:43-227 | every request keeps the book invariant |
| `OrderBookRuns.Run` | backend/handlers/p2p.go:43-227 | after every run: fills within quantity, status determined by fill level unless cancelled, fills equal logged trades, buys equal sells per asset, trade prices inside both limits, no crossed pair |
| `OrderBookRuns.BookAlwaysUncrossed` | backend/handlers/p2p.go:85-191 | no live buy is priced at or above a live sell of the same asset |
| `OrderBookRuns.StepKeepsHistory` | backend/handlers/p2p.go:145-187 | one request: terms never change, fills never shrink, filled and cancelled orders are final, trades are only appended |
| `OrderBookRuns.RunKeepsHistory` | backend/handlers/p2p.go:145-220 | the same between any two points of any run |
| `OrderBookRuns.CreateIsGreedy` | backend/handlers/p2p.go:85-191 | a new order fills the smaller of its quantity and everything that crosses it, for the greedy cost |
| `OrderBookRuns.TakerGetsBestDeal` | backend/handlers/p2p.go:97-142 | no other allocation of that quantity costs a buyer less or pays a seller more |
| `OrderBookRuns.PriorityRespected` | backend/handlers/p2p.go:97-187 | a maker trades only if all makers with priority end filled |
| `OrderRequests.CreateAcceptedExactly` | backend/handlers/p2p.go:43-55 | an order is accepted if and only if its numbers are positive and its asset exists; otherwise which error |
| `OrderRequests.CreateStores` | backend/handlers/p2p.go:57-74 | the stored order has the five values of the request; other orders keep their terms |
| `OrderRequests.CreateTradesServe` | backend/handlers/p2p.go:105-158 | every trade it adds is on its asset, names its owner on its side, lies within its limit, and is with an earlier order at that order's price |
| `OrderRequests.BetterOrOlderFirst` | backend/handlers/p2p.go:97-187 | an order trades only if every live one with a better price, or the same price and older, ends filled |
| `OrderRequests.OpenOrdersNeverCross` | backend/handlers/p2p.go:85-191 | after every run, unfilled and uncancelled buys are priced below such sells of the asset |
| `OrderRequests.CancelExactly` | backend/handlers/p2p.go:200-227 | when an order can be cancelled, that only its status changes, and the error otherwise |
| `P2PHandler.Marketplace.constructor` | backend/handlers/p2p.go:20-22 | starts with an empty, sound book |
| `P2PHandler.Marketplace.CreateOrder` | backend/handlers/p2p.go:43-82 | computes the specified order creation, errors included |
| `P2PHandler.Marketplace.MatchOrder` | backend/handlers/p2p.go:85-191 | the loop over a snapshot of counter-orders computes the specified matching |
| `P2PHandler.Marketplace.SelectCounters` | backend/handlers/p2p.go:97-103 | the rows of the query, distinct and without the taker |
| `P2PHandler.Marketplace.ExecuteFill` | backend/handlers/p2p.go:112-187 | one trade: log, taker and maker updated together |
| `P2PHandler.Marketplace.CancelOrder` | backend/handlers/p2p.go:200-227 | cancels a live order and nothing else |
| `Subsequence.SubseqsAgree` | backend/handlers/websocket.go:169-206 | two subsequences of one dispatch sequence agree on order |
| `HubRuns.StepKeepsMessages` | backend/handlers/websocket.go:169-239 | every message keeps its unique number and is in exactly one place |
| `HubRuns.StepKeepsSubs` | backend/handlers/websocket.go:137-206 | queues stay within capacity and in dispatch order; connected queues stay open |
| `HubRuns.StepKeepsPhase` | backend/handlers/websocket.go:179-206 | during a fan-out, unvisited subscribers lack the message and visited ones have it or are leaving |
| `HubRuns.RunKeepsInv` | backend/handlers/websocket.go:131-239 | every interleaving keeps the hub invariant |
| `HubRuns.DeliveredAtMostOnce` | backend/handlers/websocket.go:179-239 | a subscriber receives a number at most once, only issued numbers, only matching topics |
| `HubRuns.SubscribersAgreeOnOrder` | backend/handlers/websocket.go:169-193 | any two subscribers receive shared messages in the same order |
| `HubRuns.NeverPanics` | backend/handlers/websocket.go:150-206 | the loop never sends to a closed queue and never closes one twice |
| `HubRuns.NoSilentLoss` | backend/handlers/websocket.go:179-193 | when a fan-out ends, each connected subscriber of the topic has the event or is scheduled to leave |
| `HubRuns.NumbersAccounted` | backend/handlers/websocket.go:169-239 | issued numbers equal in-flight, queued, broadcast, ping and dropped messages; buffers respect capacity |
| `HubDelivery.VisitComplete` | backend/handlers/websocket.go:182-192 | visiting a subscriber keeps its log equal to the matching events since it registered, unless it is leaving |
| `HubDelivery.DeliveredExactly` | backend/handlers/websocket.go:137-193 | in every reachable state a connected subscriber that is not leaving has received exactly the matching events dispatched since it registered, in order |
| `HubOrder.StepOrder` | backend/handlers/websocket.go:169-239 | a step keeps all numbers sent or queued in ascending order if and only if a message handed over is newer than all of them and a heartbeat finds an empty channel |
| `HubOrder.RunOrder` | backend/handlers/websocket.go:131-239 | so does every interleaving, if and only if each of its steps was such |
| `HubOrder.LogsAscend` | backend/handlers/websocket.go:131-239 | after such a run every subscriber has received ascending numbers |
| `HubOrder.PublisherOvertaken` | backend/handlers/websocket.go:228-239 | order is lost when one publisher overtakes another between drawing a number and handing over |
| `HubOrder.HeartbeatOvertakes` | backend/handlers/websocket.go:195-206 | order is lost when a heartbeat overtakes an event waiting in the channel |
| `HubSubscriptions.OnlyAskedFor` | backend/handlers/websocket.go:69-84 | for every interleaving, a client gets an event only if it named the topic or "all", or named none, when it connected |
| `HubSubscriptions.ExactlyAskedFor` | backend/handlers/websocket.go:69-193 | for every interleaving, a connected client that is not leaving has exactly the events it asked for among those dispatched since its registration |
| `HubSubscriptions.HandedOverExactly` | backend/handlers/websocket.go:228-239 | a message is handed over if and only if fewer than 512 wait, else dropped |
| `HubSubscriptions.OfferedExactly` | backend/handlers/websocket.go:182-192 | a wanted event is queued if and only if fewer than 128 messages wait, else the client is asked to leave |
| `HubSubscriptions.PingOfferedExactly` | backend/handlers/websocket.go:195-206 | a heartbeat is offered to all and asks nobody to leave |
| `HubSubscriptions.RegisteredExactly` | backend/handlers/websocket.go:137-148 | registering connects the client under its id and nobody else changes |
| `HubSubscriptions.UnregisteredExactly` | backend/handlers/websocket.go:150-164 | unregistering closes and forgets one client and nobody else changes |
| `HubLoop.Server.constructor` | backend/handlers/websocket.go:117-129 | starts in the initial state |
| `HubLoop.Server.Broadcast` | backend/handlers/websocket.go:228-239 | draws a number, then hands over or drops |
| `HubLoop.Server.Register` | backend/handlers/websocket.go:137-148 | the loop's register case |
| `HubLoop.Server.Unregister` | backend/handlers/websocket.go:150-164 | the loop's unregister case closes an open queue once |
| `HubLoop.Server.FanOut` | backend/handlers/websocket.go:169-193 | a fan-out is a sequence of hub steps after which all subscribers of the topic are served |
| `HubLoop.Server.SendHeartbeat` | backend/handlers/websocket.go:195-206 | a heartbeat is a sequence of hub steps and disconnects nobody |
| `HubLoop.Server.SendToAll` | backend/handlers/websocket.go:182-192 | the loop over subscribers in any order |
| `HubLoop.Server.SendTo` | backend/handlers/websocket.go:183-191 | one non-blocking send, never to a closed queue |
| `StakingSpec.ScheduleWithinCredits` | backend/handlers/staking.go:285-308 | accrual of a schedule against the time it credited |
| `StakingSpec.LeftoverIsSmall` | backend/handlers/staking.go:294-303 | skipped distributions carry their time over: less than one unit stays uncredited |
| `StakingSpec.ScheduleMatchesOneDistribution` | backend/handlers/staking.go:281-313 | any schedule accrues at most one distribution over the span, and at most one unit less per credit |
| `StakingRuns.DistributeKeepsInv` | backend/handlers/staking.go:266-328 | a distribution adds to accruals exactly what it records |
| `StakingRuns.ClaimKeepsInv` | backend/handlers/staking.go:218-237 | a claim pays exactly the pending rewards |
| `StakingRuns.Step` | backend/handlers/staking.go:54-336 | every request keeps: claimed at most accrued, active exactly when staked, one active position per user and asset, accruals equal distributions, claimed equal claims |
| `StakingRuns.ClaimsNeverExceedDistributions` | backend/handlers/staking.go:218-308 | over every run total claims never exceed total distributions |
| `StakingRuns.RunFollowsSchedule` | backend/handlers/staking.go:281-313 | within a run a position follows its distribution schedule, whatever claims and other users do |
| `StakingRuns.StakersEarnByTheClock` | backend/handlers/staking.go:281-313 | over such a run a staker earns one whole-span reward less at most one unit per credit |
| `StakingRequests.StakeAcceptedExactly` | backend/handlers/staking.go:54-75 | when staking is accepted |
| `StakingRequests.StakeSettles` | backend/handlers/staking.go:77-106 | the user's active stake in the asset grows by the amount, or a new row opens with it; no other row changes |
| `StakingRequests.UnstakeAcceptedExactly` | backend/handlers/staking.go:117-140 | when unstaking is accepted |
| `StakingRequests.UnstakeSettles` | backend/handlers/staking.go:141-151 | the stake falls by the amount and closes when empty; nothing else changes |
| `StakingRequests.ClaimAcceptedExactly` | backend/handlers/staking.go:205-222 | when a claim is accepted |
| `StakingRequests.ClaimSettles` | backend/handlers/staking.go:218-237 | a claim pays accrued minus claimed, once, and records it |
| `StakingRequests.DistributeAcceptedExactly` | backend/handlers/staking.go:259-279 | when a distribution is accepted |
| `StakingRequests.DistributePays` | backend/handlers/staking.go:281-308 | each active staker of the asset gets the largest whole reward its stake, the rate and the seconds since the last credit allow, in a year of 31,536,000 seconds; everybody else nothing |
| `StakingRequests.DistributeRecords` | backend/handlers/staking.go:309-328 | the record holds the rate, the number of active stakers and what they earned |
| `StakingRequests.StakersEarnInNumbers` | backend/handlers/staking.go:281-313 | over a run with stake and rate fixed a staker earns by the clock, less at most one unit per distribution |
| `StakingHandler.Staking.StakeTokens` | backend/handlers/staking.go:54-106 | opens or tops up a position, errors included |
| `StakingHandler.Staking.UnstakeTokens` | backend/handlers/staking.go:117-151 | reduces or closes a position, errors included |
| `StakingHandler.Staking.Claim` | backend/handlers/staking.go:205-248 | pays the pending rewards, errors included |
| `StakingHandler.Staking.DistributeRewards` | backend/handlers/staking.go:259-336 | credits all active stakers and records the total |
| `StakingHandler.Staking.CreditStakers` | backend/handlers/staking.go:281-313 | the loop credits each staker and sums the rewards |
| `PaginationSpec.PageContents` | backend/graphql/handler.go:158-198 | a forward page is the first rows between the cursors, a backward page the last, ascending |
| `PaginationSpec.NextFlagExact` | backend/graphql/handler.go:188-227 | on a forward page "has next" is true exactly when rows remain |
| `PaginationSpec.PrevFlagExact` | backend/graphql/handler.go:188-231 | on a backward page "has previous" is true exactly when rows remain |
| `PaginationSpec.ForwardWalkIsComplete` | backend/graphql/handler.go:165-232 | following end cursors yields every row between the cursors once, in order |
| `PaginationSpec.BackwardWalkIsComplete` | backend/graphql/handler.go:173-232 | following start cursors does too |
| `PaginationSpec.WalksReproduceTable` | backend/graphql/handler.go:160-232 | both walks reproduce the filtered table for every page size |
| `PaginationSpec.Normalize` | backend/services/pagination_service.go:54-84 | fails exactly on a malformed cursor; the limit is between 1 and 100 |
| `PaginationSpec.NormalizeExactly` | backend/services/pagination_service.go:54-84 | direction, page size (20 by default, 100 at most) and cursors from the raw arguments |
| `PaginationSpec.FilterExactly` | backend/graphql/handler.go:149-163 | the status filter keeps exactly the rows whose verification it names |
| `PaginationSpec.BetweenExactly` | backend/graphql/handler.go:165-181 | the cursors keep exactly the rows with ids strictly between them |
| `PaginationSpec.PageDescribed` | backend/graphql/handler.go:150-232 | the total, the boundary ids, the flag against the direction, and the empty page |
| `ConnectionSpec.AgreesExactly` | backend/graphql/handler.go:144-198 | for every table, all counts and both cursors, the answer is what section 4.4 returns (errors included) if and only if a condition on the arguments holds |
| `ConnectionSpec.BetweenIsSlice` | backend/graphql/handler.go:165-181 | the query's rows are one stretch of the table, from behind the ids up to `after` to ahead of `before` |
| `ConnectionSpec.ApplyCursorsIsSlice` | backend/graphql/handler.go:165-181 | so are the algorithm's, cut only at rows that the cursors name |
| `ConnectionSpec.CursorsExact` | backend/graphql/handler.go:165-181 | both cursors together cut as the algorithm does exactly when nothing is left by either, or each names a row or has no rows beyond it |
| `ConnectionSpec.OrdinaryForward` | backend/services/pagination_service.go:67-81 | `first` from 1 to 100 after a named row or from the start always agrees |
| `ConnectionSpec.OrdinaryBackward` | backend/services/pagination_service.go:64-66 | `last` from 1 to 100 before a named row always agrees |
| `ConnectionSpec.WithoutCursorsExact` | backend/services/pagination_service.go:64-81 | without cursors the two agree exactly when counts are positive, within the cap and the default, and `last` does not bite |
| `ConnectionSpec.CountsDepart` | backend/services/pagination_service.go:64-81 | inputs that depart by a zero, negative or capped count, by no count, and by `last` alone |
| `ConnectionSpec.UnknownCursorDeparts` | backend/graphql/handler.go:166-168 | a cursor behind the last row departs |
| `ConnectionSpec.ReversedCursorsDepart` | backend/graphql/handler.go:165-171 | cursors in reverse order depart |
| `ConnectionSpec.FirstIgnoredDeparts` | backend/services/pagination_service.go:64-66 | `first` beside `last` and `before` departs |
| `ConnectionSpec.MalformedCursorDeparts` | backend/services/pagination_service.go:55-62 | an undecodable cursor departs |
| `GraphQLHandler.ResolveAssets` | backend/graphql/handler.go:114-241 | computes the specified page from the raw arguments |
| `GraphQLHandler.FetchPage` | backend/graphql/handler.go:158-232 | query, trim and page assembly compute the specified page |
| `GraphQLHandler.SetFlags` | backend/graphql/handler.go:220-232 | boundary ids and flags of the page |
| `GraphQLHandler.AscendingEdges` | backend/graphql/handler.go:193-218 | edges in ascending order for both directions |
| `GraphQLHandler.ReverseInPlace` | backend/graphql/handler.go:195-197 | the swapping loop reverses the slice |
| `GraphQLHandler.BuildEdges` | backend/graphql/handler.go:200-218 | one edge per row, in order |
| `RateLimitSpec.StoreReflectsHits` | backend/middleware/distributed_rate_limit.go:106-116 | the stored counter and expiry as a function of the accepted requests |
| `RateLimitSpec.DecisionFromHistory` | backend/middleware/distributed_rate_limit.go:45-119 | a request is accepted exactly when fewer than its burst were accepted in gaps shorter than the expiry; the remaining count follows |
| `RateLimitSpec.SlidingWindow` | backend/middleware/distributed_rate_limit.go:45-119 | every half-open window of the expiry's length holds at most the larger burst of accepts per key |
| `RateLimitSpec.SeriesNeverExceedsBurst` | backend/middleware/distributed_rate_limit.go:113-116 | a series of accepts in gaps shorter than the expiry never exceeds the larger burst |
| `RateLimitSpec.PauseResets` | backend/middleware/distributed_rate_limit.go:106-116 | after a pause of the expiry's length a key starts afresh |
| `RateLimitSpec.FullWindowExactly` | backend/middleware/distributed_rate_limit.go:30-124 | windows of the configured duration keep the bound in every run if and only if it is a whole number of seconds or nothing is ever accepted |
| `RateLimitSpec.ShortExpiryNeverLimits` | backend/middleware/distributed_rate_limit.go:121-125 | a duration below one second never limits |
| `RateLimitSpec.ConfiguredExactly` | backend/middleware/distributed_rate_limit.go:30-125 | an absent expiry is an hour, any other loses its fraction of a second |
| `RateLimiter.Limiter.constructor` | backend/middleware/distributed_rate_limit.go:30-39 | a zero duration becomes one hour, any other is cut to whole seconds |
| `RateLimiter.Limiter.Handle` | backend/middleware/distributed_rate_limit.go:41-59 | picks the burst by verb and applies the specified decision |
| `RateLimiter.Limiter.CheckLimit` | backend/middleware/distributed_rate_limit.go:99-142 | the counter script: read, compare, increment and re-expire |
| `BatchNames.DecimalDenotes` | backend/handlers/assets.go:736-755 | ids and indices are spelled in decimal |
| `BatchNames.NamesInjective` | backend/handlers/assets.go:736-755 | no two operations share a transaction hash or a listing id, within a batch or across batches |
| `BatchNames.QueueHashDistinct` | backend/services/batch_processor.go:185-186 | the processor's stamped hashes are never the handler's |
| `BatchNames.PlainNamesDistinct` | backend/handlers/assets.go:365-462 | nor are the names under which transfers, approvals and single listings are stored |
| `BatchSpec.BatchAccounted` | backend/handlers/assets.go:713-856 | results align index by index, completed plus failed is the total, an all-failed batch leaves no trace |
| `BatchSpec.ExecuteOnlyAdds` | backend/handlers/assets.go:720-769 | without cancellations executing only adds rows under the batch's names |
| `BatchSpec.UndoEffect` | backend/handlers/assets.go:919-935 | rolling back removes exactly the named transactions and deactivates exactly the named listings |
| `BatchSpec.RollbackRestores` | backend/handlers/assets.go:713-941 | from any store whatever, executing and rolling back restores transactions and active listings if and only if the names were free |
| `BatchSpec.OperationsIndependent` | backend/handlers/assets.go:720-769 | without cancellations each operation succeeds exactly when it is valid in the starting store |
| `BatchSpec.OpSucceedsExactly` | backend/handlers/assets.go:721-805 | when each kind of operation succeeds |
| `BatchSpec.OpSettles` | backend/handlers/assets.go:721-805 | a successful operation writes one row with its own values, a failed one nothing |
| `BatchSpec.FailureIsTrue` | backend/handlers/assets.go:721-805 | the failure an operation reports is the case |
| `BatchSpec.RollbackAcceptedExactly` | backend/handlers/assets.go:895-917 | a batch is rolled back if and only if its own user asks, it completed, and it has no cancellation |
| `BatchRuns.ExecEffect` | backend/handlers/assets.go:713-805 | under a fresh id, cancellations included: exactly the successful transfers and listings are stored, and other listings can only be deactivated |
| `BatchRuns.StepKeepsInv` | backend/handlers/assets.go:673-946 | every writer keeps it so, and no row carries a name of an id not issued yet |
| `BatchRuns.RowsAccounted` | backend/handlers/assets.go:713-941 | in every run a batch's transactions are exactly its successful transfers while it stands, its listings exactly those it posted, inactive once rolled back |
| `BatchRuns.RollbackAlwaysRestores` | backend/handlers/assets.go:673-946 | in every run, executing a batch without cancellations and rolling it back restores transactions and active listings |
| `BatchRuns.RollbackUndoesOnlyItsOwn` | backend/handlers/assets.go:889-941 | in every run, an accepted rollback removes exactly the batch's own transactions, deactivates exactly its own listings and touches no other row |
| `BatchRuns.UndoSparesOthers` | backend/handlers/assets.go:919-935 | undoing one batch leaves the rows of every other batch alone |
| `BatchHandler.Batches.ExecuteBatch` | backend/handlers/assets.go:673-883 | request checks, then the specified execution and status |
| `BatchHandler.Batches.Interpret` | backend/handlers/assets.go:713-825 | the loop computes the specified results and counts |
| `BatchHandler.Batches.Apply` | backend/handlers/assets.go:721-805 | one operation of the interpreter |
| `BatchHandler.Batches.RollbackBatch` | backend/handlers/assets.go:889-946 | ownership, status and cancellation checks, then the specified rollback |
| `MultiSigSpec.CountIsDistinctSigners` | backend/handlers/multisig.go:253-271 | after every history the count is the number of distinct owners who signed, and pending means below the threshold |
| `MultiSigSpec.ExecutionsBounded` | backend/handlers/multisig.go:253-319 | executions are at most distinct owners minus threshold plus one |
| `MultiSigSpec.ExecutionsBoundReached` | backend/handlers/multisig.go:268-315 | some history reaches that bound, for every wallet |
| `MultiSigSpec.OneShotExactly` | backend/handlers/multisig.go:268-315 | execution is one-shot exactly when the distinct owners do not exceed the threshold |
| `MultiSigSpec.ApprovableExactly` | backend/handlers/multisig.go:42-45 | some history approves a proposal exactly when the threshold is at most the number of distinct owners |
| `MultiSigSpec.SignedExactly` | backend/handlers/multisig.go:224-279 | a signature counts if and only if an owner gives it for the first time; what it changes |
| `MultiSigSpec.ExecutedExactly` | backend/handlers/multisig.go:281-322 | execution needs an owner and an approved proposal; what it changes |
| `MultiSigSpec.ExecutionNeedsQuorum` | backend/handlers/multisig.go:253-319 | in every history a proposal is executed only by an owner after as many distinct owners signed as the threshold asks |
| `MultiSigSpec.StrangersChangeNothing` | backend/handlers/multisig.go:246-307 | in every history requests by others change nothing |
| `MultiSigHandler.IsOwnerOf` | backend/handlers/multisig.go:324-335 | the search finds an id exactly when it is listed |
| `MultiSigHandler.CreateWallet` | backend/handlers/multisig.go:35-92 | accepted exactly when threshold, caller and owner checks pass |
| `MultiSigHandler.MultiSigWallet.CreateProposal` | backend/handlers/multisig.go:145-190 | owners create pending proposals without signatures |
| `MultiSigHandler.MultiSigWallet.SignProposal` | backend/handlers/multisig.go:224-279 | one signing step, errors included |
| `MultiSigHandler.MultiSigWallet.ExecuteProposal` | backend/handlers/multisig.go:281-322 | one execution step, errors included |
| `LockoutSpec.AccountFromStreak` | backend/services/auth_service.go:46-88 | the stored fields as a function of the failures since the last success or unlock |
| `LockoutSpec.LockedExactly` | backend/services/auth_service.go:28-98 | an account is locked exactly when five failures followed the last success or unlock and the latest is under fifteen minutes old |
| `LockoutSpec.RelocksAtOnce` | backend/services/auth_service.go:79-85 | an expired lock does not clear the streak: the next failure locks at once |
| `LockoutSpec.AccountsIndependent` | backend/services/auth_service.go:58-88 | attempts on other accounts change neither an account's stored fields nor its lock |
| `AuthService.Lockout.IsAccountLocked` | backend/services/auth_service.go:28-37 | reads the lock; an unknown account is never locked |
| `AuthService.Lockout.RecordFailedAttempt` | backend/services/auth_service.go:58-98 | logs and counts the failure and locks from the fifth on |
| `AuthService.Lockout.RecordSuccessfulAttempt` | backend/services/auth_service.go:46-56 | clears failures and lock |

## Left out

- HTTP binding, JSON encoding, response bodies, routing, logging and e-mail: no property depends on them.
- The database: tables are maps and sequences, each handler call is one atomic step, and store calls succeed, except that a batch's writes may be refused at any set of operations.
- A database transaction aborting after one failed statement, and two handlers interleaving between read and save.
- The pool table's uniqueness check per asset pair, pool listing and analytics: single lookups without state of their own.
- Floating-point rounding of the first deposit's square root.
- Price points recorded with each trade and order expiry, which matching never consults.
- Price impact recorded with a swap: computed by the model, with no property of its own.
- The hub's token-expiry timers, socket reads and writes, and clients changing their topics while connected.
- Rewards after a top-up inside a period: the stake is fixed in the schedule theorems because the source does not settle earlier time when a stake changes.
- Period bounds recorded with a distribution.
- What a multi-signature proposal pays to whom, and its description: stored and never read.
- Base64 encoding of cursors: a cursor is absent, malformed or an id.
- The limiter's behaviour when the store fails, which admits the request, and its retry headers.
- Progress reporting, and how the asynchronous processor schedules and retries queued batches: its writes to the two tables are steps of the model, in any order.
- StakingRuns.StakersEarnByTheClock: assumes one rate for all distributions on the asset, as one whole-span distribution has only one rate.
- Overflow of the lifetime totals of deposits and credited fees, which no limit on reserves bounds.

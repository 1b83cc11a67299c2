# PulseTrade: a verified model of the market engine and its book protocol

PulseTrade's backend keeps one canonical market and sends it to many clients, each at its own
rate. The claims that make this work sit in a few small stateful components, and this project
models those and proves what they promise, for all inputs, all interleavings and all random
choices. `dafny verify dfyconfig.toml` checks everything.

**The book protocol.** A session coalesces the engine's windows and sends one contiguous delta at
a time; the client applies it or reports a gap. `Levels` and `Coalescer` hold the maps, the diff
and the coalescer; `BookClient` the two sets of client rules; `Session` the session's book steps
with their injected faults; `BookProtocol` the whole as a step system over arbitrary
interleavings; `BookLimits` what that system needs of its surroundings, exactly; `Schedules` the
claim that coalescing preserves meaning; `BookFaults` how each injected fault, a lost frame and a
new epoch show to the client; `BookHazards` what reaches the client's book where the protocol gives
less than it says, from a new session on.

**The market.** `SummaryRing`, `SummaryWindow` and `Summary24h` are the rolling 24-hour summary
against a window computed from scratch; `Candles`, `CandleContents`, `CandleRollUp` and
`CandleAggregator` the candles, what each says of its trades, the roll-up between intervals and
the ring of closed ones; `BookSides`, `BookSteps`, `BookRuns` and `OrderBook` the canonical book
under random churn; `BookEffects` what each transition does to it, price by price;
`BookLifetimes` the same book over everything that happens to it, provider deltas and resets
included; `Agreement` relates summary and candles;
`Engine` puts them behind one write path. `Timeline` and `Synthetic` are the feed: warm-up
timestamps, the price walk and the bootstrap ladder.

**Delivery and bookkeeping.** `TierMachine` and `TierHistory` are the adaptive delivery tiers
against a specification over the report history, and `TierSignals` what measurements, silences
and overrides come to; `MetricsFlow`, `MetricsQueue` and
`MetricsWriter` the drop-oldest metrics queue and its batching writer, `MetricsPace` how far one
drain of it gets; `Money` and `Decimals` the 128-bit multiply-divide and the exact decimal text.

Components the source updates in place are classes whose methods are proved against a function of
the old state (or, where the source draws random numbers, a relation to it); what the source
promises is then proved about those functions and relations. Random draws are arbitrary values
within the source's bounds. Clocks, cancellation, a full queue and the outcome of a database write
are parameters or arbitrary choices. Concurrency appears as interleaved atomic steps.

Where code and documentation disagree the model follows the code:

- `session.go:653-654` says that a held delta is stale when it finally arrives. Under the client
  rules it is applied if it continues the client's id (`BookHazards.HeldDeltaIsApplied`).
- Both READMEs say that a full metrics queue drops the newest record. It drops the oldest
  (`MetricsFlow.DropsOldest`).
- `SnapshotSent` takes the client to hold the coalescer's window, not the snapshot that was
  shipped. The two agree on a new epoch but not after a resynchronisation or a switch of market;
  `BookProtocol.DivergenceExactly` says exactly when that shows.
- Silence never degrades a client that has not reported yet (`TierHistory.NeverReportedNeverDegrades`).
- `session.go:846-858` ignores whether the snapshot of a market switch found room. Lost on a client
  that stands at or past the new market's id in the same epoch, it leaves the old market's levels in
  the new market's book, unreported (`BookHazards.LostSnapshotDiverges`).
- `writer.go:264-266` says that a drain of everything goes on until the queue is empty. It pulls
  at most 10000 records a round and stops when it has written as many, or when it finds its
  context cancelled. Without producers it empties the queue if and only if no more than
  `10000 * K` records were queued; `K`, at least one, is the first round that stops, a function
  of what was pending, the batch size and the context alone (`MetricsPace.QuietDrainExactly`,
  `MetricsPace.RoundsIsLeast`). With batches of 128 and a live context a queue of 20000 is
  emptied and one of 40000, which the configuration accepts, leaves 10000
  (`MetricsPace.LargeQueueIsLeftBehind`); under a cancelled context `K` is one
  (`MetricsPace.CancelledPullsOnce`). Under producers, what had arrived is handled whenever the
  queue held no more than that (`MetricsWriter.FlushHandlesEverything`); a queue of the default
  capacity, 4096, never does. A Flush whose context ends before the writer takes the request returns without
  a drain.

Properties that hold only under a condition are stated with it. In the book protocol the
surroundings are named by `BookProtocol.Env`: ids move forward within an epoch and the mailbox
hands over only published windows, any of them from an earlier epoch. `BookProtocol.Allowed` adds
that a snapshot is lost only on a client that may miss it (it stands before the snapshot's id, or
in another epoch, or right there with the server's idea of its book unchanged), and that a market
is switched with a delta held back only if the new market is past that delta.
`BookLimits.AllowedExactly` shows that this is the exact condition. In the book, `BookRuns.Fails`
names the only two ways the market's own transition of a good book goes wrong, and
`BookLifetimes.Breaks` all ways from a book of any depth; `BookLifetimes.Fair` is what the
provider's deltas and snapshots owe. In the summary, the condition is
that no trade is a whole window late.

## Model

| member | source | states |
|---|---|---|
| `Levels.PatchedDiffAt` | pulse_trade_backend/internal/delivery/coalesce.go:248-269 | after applying the diff of two sides to any side, a price in the diff reads the new side and every other price reads as before; prices the diff leaves out agree in both of its arguments |
| `Levels.EmptyDiff` | pulse_trade_backend/internal/delivery/coalesce.go:131-133 | a diff is empty exactly when the two sides are the same map, so nothing is sent exactly when there is nothing to send |
| `Coalescing.Coalescer.OnBookWindow` | pulse_trade_backend/internal/delivery/coalesce.go:62-83 | a new epoch demands a snapshot and forgets what was sent; the newest window and the largest id are kept |
| `Coalescing.Coalescer.TakeBookDelta` | pulse_trade_backend/internal/delivery/coalesce.go:117-148 | the one contiguous range handed out indexes to exactly the difference between the newest window and what was sent, best price first, no price twice, never empty; otherwise nothing is handed out and why is in the state |
| `Coalescing.Coalescer.SnapshotSent` | pulse_trade_backend/internal/delivery/coalesce.go:180-188 | the whole new state: what counts as sent is the coalescer's own window, not the snapshot |
| `Coalescing.Coalescer.InjectGap` | pulse_trade_backend/internal/delivery/coalesce.go:193-198 | counts everything up to the newest id as delivered without sending it; the number returned is the size of the hole |
| `Coalescing.Coalescer.Reset` | pulse_trade_backend/internal/delivery/coalesce.go:201-213 | both maps and both ids are forgotten and a snapshot is demanded |
| `Coalescing.DiffLevels` | pulse_trade_backend/internal/delivery/coalesce.go:256-269 | the two loops over unordered maps give exactly the diff, one level per price |
| `Coalescing.SortLevels` | pulse_trade_backend/internal/delivery/coalesce.go:271-278 | strictly best-first order, and the same map as before |
| `BookClient.AppliedOrReported` | pulse_trade_backend/internal/delivery/coalesce_test.go:51-70 | a delta is applied in full or refused with exactly one counter moved and the book and id untouched |
| `BookClient.Probe.Observe` | pulse_trade_backend/cmd/wsprobe/main.go:168-220 | the probe in place follows its rules on every frame, up to the fifteen-level cap |
| `BookClient.ApplyLevels` | pulse_trade_backend/cmd/wsprobe/main.go:277-285 | applying levels one at a time is one patch by the map they index to |
| `BookClient.TrimToWindow` | pulse_trade_backend/cmd/wsprobe/main.go:258-275 | the result is a sub-map of the right size |
| `BookClient.CapIsInvisible` | pulse_trade_backend/cmd/wsprobe/main.go:258-275 | while both sides fit the cap the probe's book is the one the rules give |
| `Sessions.Session.Enqueue` | pulse_trade_backend/internal/delivery/session.go:1019-1036 | a frame is queued last or, with no room, not at all |
| `Sessions.Session.SendSnapshot` | pulse_trade_backend/internal/delivery/session.go:1108-1130 | ships the engine's book and marks the coalescer as if its own window had been shipped, whether or not the frame found room |
| `Sessions.Session.RequestResync` | pulse_trade_backend/internal/delivery/session.go:1135-1139 | a reset followed by a snapshot: the server then assumes the client holds nothing |
| `Sessions.Session.BindEngine` | pulse_trade_backend/internal/delivery/session.go:897-907 | a fresh coalescer and a snapshot; a held delta survives the switch |
| `Sessions.Session.HandleBookWindow` | pulse_trade_backend/internal/delivery/session.go:560-599 | a window goes to the coalescer, and a new epoch is answered with a snapshot |
| `Sessions.Session.FlushBook` | pulse_trade_backend/internal/delivery/session.go:620-689 | one flush with its injected faults (gap, reversal, duplicate) and every outcome of a full queue, as one step of the protocol; a gap request is used up by the flush, a reversal by the delta it holds back, a duplicate by the first delta sent plainly |
| `BookFaults.SkipSendsNothing` | pulse_trade_backend/internal/delivery/session.go:620-636 | a flush with a skip requested queues nothing and leaves the coalescer's id for the client at the newest one, and what it diffs against alone |
| `BookFaults.GapIsReported` | pulse_trade_backend/internal/delivery/session.go:620-636 | so a client that had everything refuses the first delta afterwards as a gap, whatever windows come in between, and nothing else of it changes |
| `BookFaults.GapIsReached` | pulse_trade_backend/internal/delivery/session.go:620-636 | and the next window that brings news makes such a delta |
| `BookFaults.DuplicateIsStale` | pulse_trade_backend/internal/delivery/session.go:673-683 | with a duplicate requested the same delta is queued twice in a row; a client in step applies the first and counts the second stale |
| `BookFaults.SentOnce` | pulse_trade_backend/internal/delivery/session.go:662-687 | without the request, or without room for the second frame, once |
| `BookFaults.ReversedPair` | pulse_trade_backend/internal/delivery/session.go:646-660 | with a reversal requested nothing is queued until the next delta, which goes first; the client reports that one as a gap and applies the held one |
| `BookFaults.LostDeltaRestarts` | pulse_trade_backend/internal/delivery/session.go:662-669 | a delta that finds no room is replaced by the engine's book, and the server then assumes the client holds nothing |
| `BookFaults.NewEpochRestarts` | pulse_trade_backend/internal/delivery/session.go:560-572 | a window of another epoch is answered with the engine's book at once, one of the same epoch with nothing |
| `BookFaults.SubscribingRestarts` | pulse_trade_backend/internal/delivery/session.go:1108-1139 | a subscription or a resynchronisation gives any client the engine's book, id and epoch; what the server takes it to hold is stated for each |
| `BookProtocol.StepKeeps` | pulse_trade_backend/internal/delivery/session.go:560-689 | every step `Allowed` lets through keeps the invariant that ties the log, the held delta, the client and the coalescer together |
| `BookProtocol.NoSilentDivergence` | pulse_trade_backend/internal/delivery/session.go:620-689 | over every run and after any number of packets: a delta is applied only if it starts at the client's id plus one, in its epoch, and was diffed against the book the server took it to hold; any other delta is reported and changes nothing |
| `BookProtocol.BookIsExact` | pulse_trade_backend/internal/delivery/coalesce.go:117-148 | price by price, the client's book is the server's idea of it wherever a delta has spoken since the last snapshot, and that snapshot elsewhere |
| `BookProtocol.DivergenceOfLog` | pulse_trade_backend/internal/delivery/coalesce.go:180-188 | after any packets whose deltas fit, the client's book is the one the server believes if and only if every price where the last snapshot differed from the coalescer's window has been overwritten since |
| `BookProtocol.DivergenceExactly` | pulse_trade_backend/internal/delivery/coalesce.go:180-188 | the same over every run and after any number of packets |
| `BookProtocol.HonestSnapshotsKeepTheBook` | pulse_trade_backend/internal/delivery/coalesce.go:117-188 | if each shipped snapshot was the coalescer's window, the client always shows the book the server believes, and once caught up the book the next delta is diffed against |
| `BookProtocol.AppliedToItsBase` | pulse_trade_backend/internal/delivery/session.go:620-689 | and so, over every such run, each delta a client applies starts right after the client's id, finds the client showing the very book it was diffed against, and leaves it showing the window it was diffed from |
| `BookProtocol.ResyncEffect` | pulse_trade_backend/internal/delivery/session.go:1108-1139 | after a resynchronisation the client holds the last flushed window plus exactly the snapshot levels whose price no flushed window has shown since; every window price is right throughout |
| `BookProtocol.NothingAssumed` | pulse_trade_backend/internal/delivery/session.go:892-907 | a resynchronisation, a market switch and a first subscription are the steps after which the server assumes nothing |
| `BookLimits.AllowedExactly` | pulse_trade_backend/internal/delivery/session.go:620-689 | from every state the protocol can be in and for every step its surroundings can make: `Allowed` holds if and only if, however the protocol goes on, every delta the client applies fits |
| `BookLimits.RunsExactly` | pulse_trade_backend/internal/delivery/session.go:620-689 | over whole runs: all steps were allowed if and only if the protocol could have gone on soundly from every point of the run |
| `BookLimits.AheadBreaks` | pulse_trade_backend/internal/delivery/session.go:1108-1130 | a client that the coalescer has fallen behind, or takes for something else, is handed an unfit delta within three faultless steps |
| `BookLimits.ReachableHeldBreaks` | pulse_trade_backend/internal/delivery/session.go:646-660 | so is a client while a held delta is within the market's reach |
| `BookLimits.UpToDateMayMiss` | pulse_trade_backend/internal/delivery/session.go:1108-1130 | a client that has had everything may miss a snapshot exactly when its epoch or id is news or the server's idea of the book does not change |
| `Schedules.FlushedClientShowsLastWindow` | pulse_trade_backend/internal/delivery/coalesce.go:62-148 | for one epoch's windows with increasing ids, any flush schedule that ends with a flush gives no gap, no stale delta and exactly the last window |
| `Schedules.SchedulesAgree` | pulse_trade_backend/internal/delivery/coalesce_test.go:127-176 | any two such schedules over the same windows leave the same book |
| `Schedules.MeaningPreservedExactly` | pulse_trade_backend/internal/delivery/coalesce.go:180-188 | and for a client that took some other book for the snapshot: every schedule ends at the last window if and only if that book was the coalescer's window |
| `Schedules.SchedulesCanDiffer` | pulse_trade_backend/internal/delivery/coalesce.go:180-188 | with a dishonest snapshot two schedules over the same windows do end differently: a concrete case |
| `BookHazards.HeldDeltaIsApplied` | pulse_trade_backend/internal/delivery/session.go:646-660 | to a client just before its range, the older delta of a reversed pair is applied, under either set of client rules |
| `BookHazards.HeldDeltaIsStaleExactly` | pulse_trade_backend/internal/delivery/session.go:653-654 | for consecutive ranges in the client's epoch, the older delta is the stale one the comment expects if and only if the client already had all of it |
| `BookHazards.ProbeDiffersExactly` | pulse_trade_backend/cmd/wsprobe/main.go:186-220 | from the same view, the probe treats one delta as documented exactly when the epochs agree or the delta is a gap anyway |
| `BookHazards.ProbeAgreesExactly` | pulse_trade_backend/cmd/wsprobe/main.go:168-220 | over whole logs: the probe, which keeps no epoch, shows what the documented client shows after every packet if and only if each delta meets that condition when it arrives |
| `BookHazards.ProbeCrossesEpochs` | pulse_trade_backend/cmd/wsprobe/main.go:186-220 | a run, snapshots honest and nothing lost, after which the probe shows a bid from before a reset without a gap or stale delta while the documented client reports the gap |
| `BookHazards.LostSnapshotMixes` | pulse_trade_backend/internal/delivery/session.go:1108-1130 | in every state where losing the snapshot of a resynchronisation or of a switch is not allowed, the next update leaves the client, unreported, with its old book overwritten by the market's and nothing removed |
| `BookHazards.LostSnapshotDiverges` | pulse_trade_backend/internal/delivery/session.go:846-858 | a new session reaches such states without any fault, for any books: by losing a resynchronisation, or the snapshot of a switch to a market of the same epoch whose id is no higher |
| `BookHazards.MixedShowsExactly` | pulse_trade_backend/internal/delivery/session.go:1108-1130 | the mix shows exactly when the old book had a price that the market's has not |
| `BookHazards.SwitchWithHeldDiverges` | pulse_trade_backend/internal/delivery/session.go:646-660 | a run from a new session, for any books, nothing lost: a delta held back across a switch puts the old market's levels into the new market's book, unreported |
| `SummaryRing.Slot` | pulse_trade_backend/internal/market/summary.go:183-185 | the double remainder is the mathematical one, for negative minutes too |
| `SummaryWindow.RingIsNaiveWindow` | pulse_trade_backend/internal/market/summary.go:117-139 | after any run with no trade a window late, every slot holds the bucket a from-scratch computation gives for the one retained minute of its residue |
| `SummaryWindow.SummaryIsTheWindow` | pulse_trade_backend/internal/market/summary.go:57-230 | volume, trade count, high, low and open are those of exactly the trades in the last n minutes |
| `SummaryWindow.BucketCloses` | pulse_trade_backend/internal/market/summary.go:60-92 | a bucket closes at the last trade of its minute |
| `SummaryWindow.LateTradeBreaksTheWindow` | pulse_trade_backend/internal/market/summary.go:57-66 | one more trade leaves the ring the naive window if and only if it is not a window late |
| `SummaryWindow.WalkNeverEmpties` | pulse_trade_backend/internal/market/summary.go:130-138 | the expiry walk never removes the last bucket, so its empty-ring case is unreachable |
| `SummaryWindow.NoCollision` | pulse_trade_backend/internal/market/summary.go:63-66 | the collision branch is unreachable for a trade that is not a window late |
| `RollingSummary.Summary24h.Apply` | pulse_trade_backend/internal/market/summary.go:57-112 | for any trade at all, the ring moves as specified and every cached value still caches it |
| `RollingSummary.Summary24h.Advance` | pulse_trade_backend/internal/market/summary.go:117-139 | expires in place exactly the slots the specification expires, clearing all at a gap of a window |
| `RollingSummary.Summary24h.Expire` | pulse_trade_backend/internal/market/summary.go:144-168 | sums shrink by the bucket, and the extremes are right again although only what it held is recomputed |
| `RollingSummary.Summary24h.RecomputeHigh` | pulse_trade_backend/internal/market/summary.go:187-199 | the maximum over the slots in use |
| `RollingSummary.Summary24h.RecomputeLow` | pulse_trade_backend/internal/market/summary.go:201-213 | the minimum over the slots in use |
| `RollingSummary.Summary24h.RecomputeOpen` | pulse_trade_backend/internal/market/summary.go:215-230 | the open of the oldest slot in use |
| `RollingSummary.Summary24h.Snapshot` | pulse_trade_backend/internal/market/summary.go:233-254 | what is rendered is the summary of the window that ends with the newest trade; change and basis points are exact from a positive open and zero from a zero one |
| `RollingSummary.Summary24h.Reset` | pulse_trade_backend/internal/market/summary.go:260-264 | empty, and valid for an empty history |
| `Agreement.CandlesHoldTheWindow` | pulse_trade_backend/internal/market/candle.go:56-84 | for trades in time order the one-minute candles after any minute hold exactly the volume and the trades after it |
| `Agreement.SummaryAgreesWithCandles` | pulse_trade_backend/internal/market/summary.go:57-112 | so a ring that mirrors the trades sums to the one-minute candles of its window |
| `BookSides.SetIsPatch` | pulse_trade_backend/internal/market/book.go:519-549 | setting or deleting one level of an ordered side with room is the same update of the price map |
| `BookSides.SetAtCapKeepsTheBest` | pulse_trade_backend/internal/market/book.go:543-548 | at the cap, inserting a new price keeps the best levels of the updated map |
| `BookSides.SetLevelsIsPatch` | pulse_trade_backend/internal/market/book.go:519-549 | a whole delta whose prices fit the depth merges the maps |
| `BookSteps.TradeExactly` | pulse_trade_backend/internal/market/book.go:131-184 | from a well-formed book a trade fails exactly when a sell exhausts the best bid while the lowest bid is at one; otherwise the book stays well formed, keeps its depth and moves by one update |
| `BookEffects.TradeTakes` | pulse_trade_backend/internal/market/book.go:131-184 | price by price: short of exhausting the touch a trade takes exactly its quantity there and nothing elsewhere; otherwise the touch goes, one level comes in a tick or two beyond the last, and no other price changes; the other side is untouched |
| `BookEffects.PublishesTheBest` | pulse_trade_backend/internal/market/book.go:408-431 | the published windows are the best levels of the new book, as many as the window holds, under the new id |
| `BookSteps.ChurnIsSafe` | pulse_trade_backend/internal/market/book.go:189-213 | churn never fails and restores the depth, of the bids unless they have reached the last prices |
| `BookRuns.RecenterExactly` | pulse_trade_backend/internal/market/book.go:241-298 | from any positively sized levels, ordered or not, re-centring fails exactly when the ladder does not fit below the mid; otherwise it gives full, ordered sides and asks for no further re-centring |
| `BookEffects.TouchIsSymmetric` | pulse_trade_backend/internal/market/book.go:241-298 | a re-centred touch lies as far below the mid as above it, one tick if the mid is even and two if odd |
| `BookEffects.LadderSpreads` | pulse_trade_backend/internal/market/book.go:260-284 | below it the spacing grows by a tick every twenty levels, and sizes stay with their depth |
| `BookEffects.RefreshStraddles` | pulse_trade_backend/internal/market/book.go:189-213 | after any refresh of a good book that is not reported, the best bid is at or below the mid and the best ask at or above it |
| `BookEffects.RefreshRebuildsExactly` | pulse_trade_backend/internal/market/book.go:189-236 | a book with a side under three quarters of the depth, too wide a spread or a touch on the wrong side of the mid is rebuilt around it; in any other, at most three levels of a side change and new ones are filled in a tick or two apart beyond them |
| `BookRuns.RoomFromDepth` | pulse_trade_backend/internal/market/book.go:263-275 | a mid further from zero than the whole ladder is deep has that room |
| `BookRuns.StepExactly` | pulse_trade_backend/internal/market/book.go:131-213 | one trade or refresh of a good book: when it fails, and what it keeps when it does not |
| `BookRuns.RunIsSafe` | pulse_trade_backend/internal/market/book.go:131-213 | over every run with any random choices, until something is reported, the book is ordered, uncrossed and positively sized and its id has counted the transitions |
| `BookRuns.FirstReport` | pulse_trade_backend/internal/market/book.go:163-167 | the first report comes at exactly the first event that fails |
| `BookRuns.ReportSticks` | pulse_trade_backend/internal/market/book.go:163-167 | nothing is rolled back: every failure of a good book leaves the two lowest bids at price one and the id where it was |
| `BookRuns.ViolationStays` | pulse_trade_backend/internal/market/book.go:163-170 | from such a book every trade of either side reports again and leaves such a book |
| `BookRuns.TradesNeverHeal` | pulse_trade_backend/internal/market/book.go:131-184 | so over whole runs: from a report on, through trades only, everything is reported and the id stands still |
| `BookRuns.RecenterHealsExactly` | pulse_trade_backend/internal/market/book.go:241-298 | a refresh that re-centres such a book heals it exactly when the ladder fits below the mid |
| `BookRuns.DeltaExactly` | pulse_trade_backend/internal/market/book.go:345-370 | a provider delta is judged by the rules clients apply, refused without effect where they refuse it, and fails beyond that exactly when it would cross the book |
| `BookRuns.DeltaMergesMaps` | pulse_trade_backend/internal/market/book.go:345-370 | an accepted delta that fits the depth is exactly the merge a client would make of it |
| `BookLifetimes.MarketStepExactly` | pulse_trade_backend/internal/market/book.go:131-370 | one trade, refresh, provider delta or reset of a well-formed book of any depth, empty sides included: it is reported exactly when `Breaks` says; otherwise the book stays well formed; it never goes back in epoch or id |
| `BookLifetimes.LifetimeIsSafe` | pulse_trade_backend/internal/market/engine.go:265-467 | over every mix of those steps, with any random choices: until something is reported the book is well formed, and every later state is at or after every earlier one |
| `BookLifetimes.FirstReportOfLifetime` | pulse_trade_backend/internal/market/engine.go:265-467 | the first report comes at exactly the first event that breaks |
| `BookLifetimes.LifetimeFeedsProtocol` | pulse_trade_backend/internal/market/engine.go:329-372 | from any point of such a lifetime to any later one is a step the book protocol allows its engine to take |
| `OrderBooks.OrderBook.constructor` | pulse_trade_backend/internal/market/book.go:35-52 | the configured limits with their defaults, and an empty book |
| `OrderBooks.OrderBook.Install` | pulse_trade_backend/internal/market/book.go:66-79 | an empty or crossed touch is refused without effect; otherwise the snapshot's levels are kept in order up to the depth, and an ordered snapshot gives an ordered book |
| `BookEffects.TrimKeepsTheBest` | pulse_trade_backend/internal/market/book.go:483-488 | a snapshot deeper than the book is cut at the far end and nowhere else |
| `OrderBooks.OrderBook.CheckOrdering` | pulse_trade_backend/internal/market/book.go:432-448 | accepts exactly the strictly ordered, uncrossed books |
| `OrderBooks.OrderBook.ApplyTrade` | pulse_trade_backend/internal/market/book.go:131-184 | in place, a trade is a trade step for some random choices |
| `OrderBooks.OrderBook.Refresh` | pulse_trade_backend/internal/market/book.go:189-213 | in place, a refresh re-centres exactly when the drift test says so and churns otherwise |
| `OrderBooks.OrderBook.Recenter` | pulse_trade_backend/internal/market/book.go:241-298 | in place, both ladders are repriced level by level with sizes kept by depth |
| `OrderBooks.OrderBook.Replenish` | pulse_trade_backend/internal/market/book.go:322-340 | adds levels one or two ticks apart up to the depth; bids stop early only when no price is left |
| `OrderBooks.OrderBook.MutateRandomLevel` | pulse_trade_backend/internal/market/book.go:372-406 | one level resized, or removed from a side deeper than twenty |
| `OrderBooks.OrderBook.ApplyProviderDelta` | pulse_trade_backend/internal/market/book.go:345-370 | in place, accepts, refuses or fails as the specification, with the levels it leaves behind |
| `OrderBooks.InsertOrdered` | pulse_trade_backend/internal/market/book.go:490-516 | inserts before the first level the new one beats |
| `OrderBooks.ApplyLevel` | pulse_trade_backend/internal/market/book.go:519-549 | delete, overwrite or insert and cut, as specified |
| `TierMachines.TierMachine.Observe` | pulse_trade_backend/internal/delivery/tier.go:173-218 | one report moves the machine as specified, and the transition returned describes exactly how the effective tier moved |
| `TierSignals.BandsExactly` | pulse_trade_backend/internal/delivery/tier.go:60-69 | either measure alone at its limit gives the worst band, whatever the other; below both limits either alone gives the middle one; with the limits in order, good means both below |
| `TierSignals.WorseIsNoBetter` | pulse_trade_backend/internal/delivery/tier.go:60-69 | a worse measurement never gives a better band, in whatever order the limits are |
| `TierSignals.SlowClientIsMinimal` | pulse_trade_backend/internal/delivery/tier.go:173-218 | degradeStreak reports in a row, each slow by either measure, take DEGRADED to MINIMAL |
| `TierSignals.BadClientIsNotFull` | pulse_trade_backend/internal/delivery/tier.go:173-218 | no client stays at FULL through degradeStreak reports in a row that are not good |
| `TierSignals.ReasonOfMove` | pulse_trade_backend/internal/delivery/tier.go:173-250 | the reason says which way the tier last moved and on what |
| `TierMachines.TierMachine.OnMissingReports` | pulse_trade_backend/internal/delivery/tier.go:226-257 | silence moves the machine as specified, and likewise reports it |
| `TierMachines.TierMachine.ForceTier` | pulse_trade_backend/internal/delivery/tier.go:261-268 | an override takes the effective tier and leaves the automatic one alone |
| `TierMachines.TierMachine.ClearOverride` | pulse_trade_backend/internal/delivery/tier.go:271-280 | the effective tier returns to the automatic one |
| `TierMachines.TierMachine.OnReconnect` | pulse_trade_backend/internal/delivery/tier.go:284-292 | tier and streaks start again; the watchdog flag does not |
| `TierMachines.HealthTracker.Age` | pulse_trade_backend/internal/delivery/tier.go:408-426 | zero until a first report, then the time since the last |
| `TierSignals.AgeIsTimeSince` | pulse_trade_backend/internal/delivery/tier.go:408-426 | the age is the time since the last report, zero if the clock is behind it or there is none |
| `TierSignals.SilenceCosts` | pulse_trade_backend/internal/delivery/tier.go:226-250 | past the first limit a silence costs exactly one tier, past the second all, and a move clears every streak |
| `TierSignals.SilenceIsSeen` | pulse_trade_backend/internal/delivery/tier.go:226-250 | a client silent since its last report has lost one tier past the first limit and is at MINIMAL past the second, however often it was looked at |
| `TierSignals.ForcedUntilLifted` | pulse_trade_backend/internal/delivery/tier.go:261-291 | a forced tier is delivered whatever is reported or missing until it is lifted, and then the tier earned meanwhile is; a reconnection starts over at FULL |
| `TierHistory.StreakIsLongestSuffix` | pulse_trade_backend/internal/delivery/tier.go:294-322 | the streak of the specification is the longest suffix of qualifying reports |
| `TierHistory.MachineFollowsHistory` | pulse_trade_backend/internal/delivery/tier.go:173-218 | with thresholds up to the cap, the capped counters take the same transitions as exact streaks over the whole report history |
| `TierHistory.ThresholdAboveCapIsDead` | pulse_trade_backend/internal/delivery/tier.go:294-322 | a threshold above the cap is never reached by any report |
| `TierHistory.OverridesDoNotInterfere` | pulse_trade_backend/internal/delivery/tier.go:261-280 | deleting every override from a trace leaves the automatic tier and all streaks as they were |
| `TierHistory.EffectiveTier` | pulse_trade_backend/internal/delivery/tier.go:328-341 | over every run the effective tier is the override or else the automatic tier |
| `TierHistory.SilenceClosedForm` | pulse_trade_backend/internal/delivery/tier.go:226-257 | any list of silence ages gives MINIMAL, one step down or nothing, by its maximum alone |
| `TierHistory.NeverReportedNeverDegrades` | pulse_trade_backend/internal/delivery/tier.go:408-426 | a client that never reports is never degraded |
| `TierHistory.BoundedOscillation` | pulse_trade_backend/internal/delivery/tier.go:173-257 | entries into FULL times the recovery threshold never exceed the good reports |
| `TierHistory.EveryStepUpIsEarned` | pulse_trade_backend/internal/delivery/tier.go:173-218 | each step up is taken by a report after that many qualifying reports in a row since the last step down |
| `TierHistory.RecoveryTakesTime` | pulse_trade_backend/internal/delivery/tier.go:173-257 | from MINIMAL, no FULL before the recovery threshold plus one reports |
| `TierHistory.MinimalStartsFromZero` | pulse_trade_backend/internal/delivery/tier.go:226-257 | every entry into MINIMAL starts the recovery count from zero |
| `TierHistory.FastestRecovery` | pulse_trade_backend/internal/delivery/tier.go:173-218 | and good reports alone take exactly that many |
| `Candles.Conservation` | pulse_trade_backend/internal/market/candle.go:56-84 | every trade is in exactly one candle or counted late; candles ascend, start on bucket boundaries, and with non-negative quantities satisfy Validate |
| `CandleContents.CandleIsItsTrades` | pulse_trade_backend/internal/market/candle.go:56-84 | at any interval and for trades in any order each candle is opened by the first and closed by the last of its bucket's trades that came in time, spans exactly their prices and sums their quantities and number; there is a candle for exactly the buckets with such a trade |
| `Candles.EveryIntervalDivides` | pulse_trade_backend/internal/domain/interval.go:31-38 | each interval of the table divides every longer one |
| `Candles.BucketOfBucket` | pulse_trade_backend/internal/domain/interval.go:113-115 | truncating to a fine and then a coarse interval is truncating to the coarse one |
| `CandleRollUp.LateIsCounted` | pulse_trade_backend/internal/market/candle.go:72-83 | the trades counted late are exactly those whose bucket is before the newest trade's |
| `CandleRollUp.RollUpExactly` | pulse_trade_backend/internal/market/candle.go:56-84 | for trades in any order, the coarse candles are the fine ones rolled up if and only if no trade is late for the fine interval alone |
| `CandleRollUp.RollUpIsPerBucket` | pulse_trade_backend/internal/domain/candle.go:41-52 | rolling up makes each coarse candle the ordered merge of exactly the fine candles in its bucket |
| `CandleRollUp.InOrderRollsUp` | pulse_trade_backend/internal/market/candle.go:56-84 | for trades in time order nothing is late and every interval rolls up to every longer one |
| `CandleAggregation.CandleAggregator.constructor` | pulse_trade_backend/internal/market/candle.go:31-41 | empty, with the configured depth or the interval's own |
| `CandleAggregation.CandleAggregator.Apply` | pulse_trade_backend/internal/market/candle.go:56-84 | in place, the aggregation of all trades of its symbol so far; a candle is reported closed exactly when the trade opens the next |
| `CandleAggregation.CandleAggregator.PushClosed` | pulse_trade_backend/internal/market/candle.go:147-153 | the ring then holds the newest closed candles including this one, in order |
| `CandleAggregation.CandleAggregator.History` | pulse_trade_backend/internal/market/candle.go:100-109 | the newest closed candles up to the limit, oldest first |
| `CandleAggregation.CandleAggregator.HistoryWithActive` | pulse_trade_backend/internal/market/candle.go:114-133 | the newest candles of all, never more than a positive limit and all of them without one, the active one last |
| `CandleAggregation.CandleAggregator.Reset` | pulse_trade_backend/internal/market/candle.go:139-145 | valid for an empty history |
| `CandleAggregation.RingPush` | pulse_trade_backend/internal/market/candle.go:147-162 | a push moves every retained candle one place older and puts the new one last |
| `MetricsFlow.RunConserves` | pulse_trade_backend/internal/metrics/queue.go:86-129 | over every interleaving of pushes, pulls and batches each record is in exactly one place, once, and what is not evicted keeps its order of arrival: batches, then pending, then queue |
| `MetricsFlow.DropsOldest` | pulse_trade_backend/internal/metrics/queue.go:86-97 | the arriving record is never the one dropped; the oldest is, and only when the queue is full |
| `MetricsFlow.EarlierNeverLater` | pulse_trade_backend/internal/metrics/writer.go:245-262 | a record never reaches the store in a later transaction than one that arrived after it |
| `MetricsQueue.BatchCounts` | pulse_trade_backend/internal/metrics/queue.go:29-56 | no record is lost or filed twice in a batch |
| `MetricsQueue.ToBatch` | pulse_trade_backend/internal/metrics/queue.go:29-56 | each table gets the rows of its kind, in order |
| `MetricsQueue.RowIsFiled` | pulse_trade_backend/internal/metrics/queue.go:29-56 | every record is in the table of its own kind behind the earlier ones of that kind, and no table holds more |
| `MetricsQueue.RecordQueue.Push` | pulse_trade_backend/internal/metrics/queue.go:86-106 | in place, one push of the specification; false exactly when a record was evicted |
| `MetricsQueue.RecordQueue.Drain` | pulse_trade_backend/internal/metrics/queue.go:111-129 | the oldest records leave in order of arrival, and their slots are cleared |
| `MetricsWriter.BatchWriter.Pull` | pulse_trade_backend/internal/metrics/writer.go:226-243 | at most one pull's worth moves from queue to pending |
| `MetricsWriter.BatchWriter.TakePending` | pulse_trade_backend/internal/metrics/writer.go:248-262 | the first n pending records leave as the batch of exactly those records |
| `MetricsWriter.BatchWriter.Commit` | pulse_trade_backend/internal/metrics/writer.go:321-353 | with a store one attempt, a second exactly if the first fails, and success exactly if one of them succeeds, with the batch stored once; without a store no attempt and a failure |
| `MetricsWriter.BatchWriter.CommitFull` | pulse_trade_backend/internal/metrics/writer.go:273-282 | what the store holds stays exactly the committed batches in order; failure reported exactly when one of them was dropped |
| `MetricsWriter.BatchWriter.Drain` | pulse_trade_backend/internal/metrics/writer.go:267-316 | terminates under any producers and any cancellation, with nothing pending and everything accounted for; with a store a failure is reported exactly if two attempts in a row were refused, and if none is reported every batch cut is in the store, in order; asked for everything it has gone as far into the queue as its rounds reach, without producers exactly that far |
| `MetricsWriter.WillingStoreKeepsAll` | pulse_trade_backend/internal/metrics/writer.go:321-340 | a store that takes every write ends up with every batch cut and nothing is reported; without a store anything cut is reported |
| `MetricsWriter.FlushHandlesEverything` | pulse_trade_backend/internal/metrics/writer.go:264-316 | for any capacity and under any producers: if no more was queued than the drain's rounds can pull, every record that had arrived before the call was evicted or is in a batch, not both |
| `MetricsPace.QuietDrainExactly` | pulse_trade_backend/internal/metrics/writer.go:264-316 | without producers a drain leaves exactly the records beyond 10000 for each of its rounds, so everything that had arrived is handled if and only if no more was queued than that |
| `MetricsPace.RoundsIsLeast` | pulse_trade_backend/internal/metrics/writer.go:272-299 | the number of rounds is the first round at which the context is found cancelled or the whole batches of the records pending and pulled until then reach 10000 |
| `MetricsPace.CancelledPullsOnce` | pulse_trade_backend/internal/metrics/writer.go:294-298 | under a context cancelled from the start it is one |
| `MetricsPace.LargeQueueIsLeftBehind` | pulse_trade_backend/internal/metrics/writer.go:264-266 | the promise fails: 40000 queued, nothing pending, batches of 128 and a live context leave 10000; 20000 leave none |
| `Money.MulDivIsExact` | pulse_trade_backend/internal/domain/money.go:136-170 | for all 64-bit inputs: division by zero exactly when c is 0, otherwise a*b/c cut off toward zero when that fits 64 bits, the least one included, and an overflow when it does not |
| `Money.TruncatedQuotientIsUnique` | pulse_trade_backend/internal/domain/money.go:136-170 | there is only one such quotient |
| `Money.ChangeBasisPointsIsExact` | pulse_trade_backend/internal/domain/money.go:174-180 | for prices not negative the basis points are the truncated quotient of the true change |
| `Decimals.AcceptedExactly` | pulse_trade_backend/internal/domain/money.go:210-281 | a text is accepted exactly when it spells a number that needs no rounding and whose whole part is in range |
| `Decimals.AcceptedValue` | pulse_trade_backend/internal/domain/money.go:210-281 | and the result is exactly the number written |
| `Decimals.RefusedExactly` | pulse_trade_backend/internal/domain/money.go:210-281 | why a literal is refused, exactly: inexact if it would need rounding, an overflow if its whole part is beyond the scale's range, malformed if it is beyond 64 bits |
| `Decimals.FormatThenParse` | pulse_trade_backend/internal/domain/money.go:184-281 | parsing a formatted value gives it back if and only if its whole part is in range |
| `Decimals.FormatIsCanonical` | pulse_trade_backend/internal/domain/money.go:184-206 | a sign only below zero, a point only with decimals, and a whole part of one digit or without a leading zero |
| `Decimals.SafeValuesRoundTrip` | pulse_trade_backend/internal/domain/money.go:184-281 | so for every value up to 2^53 in magnitude |
| `Decimals.ParseThenFormat` | pulse_trade_backend/internal/domain/money.go:184-281 | formatting an accepted value parses back to it |
| `Decimals.ParseScaled` | pulse_trade_backend/internal/domain/money.go:210-281 | the parser step by step is the specification |
| `Timeline.Provider.NextTimestamp` | pulse_trade_backend/internal/exchange/synthetic/provider.go:305-323 | in place, one step of the warm-up timeline or the clock |
| `Timeline.WarmupComesBefore` | pulse_trade_backend/internal/exchange/synthetic/provider.go:54-57 | the first warm-up events are evenly spaced and all strictly before live generation starts, whatever the rounding of the step |
| `Timeline.WarmupFillsTheSpan` | pulse_trade_backend/internal/exchange/synthetic/provider.go:54-57 | and use the span up: after a full warm-up less than a nanosecond for each event is left of it |
| `Timeline.HistoryFitsTheSpan` | pulse_trade_backend/internal/domain/interval.go:23-38 | the default span supplies each interval's whole history, and exactly that at the two longest |
| `Timeline.StampsInOrder` | pulse_trade_backend/internal/exchange/synthetic/provider.go:305-323 | with one switch from warm-up to live and a clock that does not go back, timestamps never decrease |
| `Timeline.ReturnToWarmup` | pulse_trade_backend/internal/exchange/synthetic/provider.go:308-317 | a switch back to warm-up pace keeps them in order exactly when the timeline is used up and the clock has not moved past its end |
| `Timeline.HandoverIsNeverLate` | pulse_trade_backend/internal/exchange/synthetic/provider.go:305-323 | so no aggregator at any interval counts a late trade, and every interval rolls up to every longer one |
| `Synthetic.Generator.Next` | pulse_trade_backend/internal/exchange/synthetic/generator.go:141-179 | in place, one move of the walk; the trade carries its id, time and price, and its side is the direction of the move |
| `Synthetic.WalkStaysInBand` | pulse_trade_backend/internal/exchange/synthetic/generator.go:141-179 | over every run with any random steps the price stays within 15% of its anchor, the drift within the same bound, and ids are consecutive |
| `Synthetic.BandWidth` | pulse_trade_backend/internal/exchange/synthetic/generator.go:205-216 | that band is 15% of the anchor either way, rounded down to whole units |
| `Synthetic.LowerDriftsUp` | pulse_trade_backend/internal/exchange/synthetic/generator.go:141-160 | the walk reverts: of two walks with one drift the lower never drifts lower, and drifts higher when far enough below |
| `Synthetic.RestReverts` | pulse_trade_backend/internal/exchange/synthetic/generator.go:141-160 | from rest the drift points back to the anchor and not past it, and so does the price without a random step |
| `Synthetic.StepMovesThePrice` | pulse_trade_backend/internal/exchange/synthetic/generator.go:141-160 | inside the band the random step moves the price by exactly that much, and never the wrong way at its edges |
| `Synthetic.RosterRefreshSucceeds` | pulse_trade_backend/internal/market/book.go:189-213 | at any price any roster market can reach, a refresh of a good book at 100 levels succeeds |
| `Synthetic.BuildLadder` | pulse_trade_backend/internal/exchange/synthetic/ladder.go:37-69 | the loop gives a ladder of the specification, for some random gaps |
| `Synthetic.LadderExactly` | pulse_trade_backend/internal/exchange/synthetic/ladder.go:37-69 | with the shape used for every market, every ladder the gaps can give is a well-formed book exactly when the mid exceeds twice the depth by more than the half spread |
| `Synthetic.LadderIsSymmetric` | pulse_trade_backend/internal/exchange/synthetic/ladder.go:37-69 | away from zero the ladder is a mirror image around its mid, half a spread and a tick or two out at the touch and a tick or two further at each level |
| `Synthetic.BootstrapIsGood` | pulse_trade_backend/internal/exchange/synthetic/ladder.go:37-69 | a roster market starts from a good book at full depth at any of its prices |
| `MarketEngine.Engine.constructor` | pulse_trade_backend/internal/market/engine.go:120-139 | one aggregator per interval, the summary and an empty book, all of no trades |
| `MarketEngine.Engine.Bootstrap` | pulse_trade_backend/internal/market/engine.go:141-147 | installs the first snapshot under the provider's epoch, or refuses it and leaves the book empty |
| `MarketEngine.Engine.ApplyTrade` | pulse_trade_backend/internal/market/engine.go:265-327 | a trade the book refuses is in no candle and not in the summary; any other is in all of them |
| `MarketEngine.Engine.RefreshBook` | pulse_trade_backend/internal/market/engine.go:350-372 | refreshes around the last price, or the best bid before there is one, and touches no candle |
| `MarketEngine.Engine.ApplyProviderDelta` | pulse_trade_backend/internal/market/engine.go:329-346 | a provider delta goes to the book, under the book's rules for it, and to no candle and no summary |
| `MarketEngine.Engine.Reset` | pulse_trade_backend/internal/market/engine.go:431-467 | a refused snapshot changes only the engine's epoch; an installed one clears every component |
| `MarketEngine.IntervalsAgree` | pulse_trade_backend/internal/market/engine.go:265-327 | after anything the engine may go through, if the trades it accepted are its own and in time order, each aggregator's candles roll up to every longer one's |
| `MarketEngine.SummaryAndCandlesAgree` | pulse_trade_backend/internal/market/engine.go:265-327 | and the summary's volume and trade count are those of the one-minute candles of the last 1440 minutes |

## Left out

- Sessions.Session.FlushBook: latency, pruned frames and the byte budget of the outbound queue are not modelled; a frame finds room or does not.
- Coalescing.Coalescer.InjectGap: ids are unbounded, so the unsigned subtraction does not wrap; in the source it cannot either while ids move forward.
- BookClient.TrimToWindow: which levels go at the cap is left open, because the probe sorts prices as text; only the size and the sub-map are stated.
- OrderBooks.OrderBook.Replenish: the source fills both sides in one function and records each change in a map it then discards; the model fills one side at a time and keeps no such map.
- OrderBooks.OrderBook.ApplyTrade: on a side of a single level that the trade exhausts the source indexes past the end of the side; that call is excluded by the precondition.
- RollingSummary.Summary24h.Snapshot: prices are taken to be 64-bit numbers; sums of quantities do not wrap around.
- MetricsWriter.BatchWriter.Drain: the back-off between the two attempts of a commit and the timers of the writer's main loop are not modelled.
- Decimals.ParseScaled: a fraction is measured in characters, in the source in bytes; a fraction with characters beyond ASCII is refused by both but may be refused with another error.
- Synthetic.Generator.Next: the Gaussian sampler, the volatility bursts that scale it and the log-normal sizes are arbitrary numbers.
- Timeline.Provider.NextTimestamp: pausing, bursts and the wait between live events are not modelled; they do not change timestamps.
- MarketEngine.Engine.ApplyTrade: publication on the bus and the recent-trades ring are not modelled.
- 64-bit wrap-around of update ids, trade ids, counters and quantities.
- The candle, trade and summary halves of the coalescer and of the session: they hold the newest value and need no protocol.
- The report fields of a tier transition, the displayed streak, and target rates.
- RoundToStep in domain/money.go, and the price and quantity wrappers.
- The recent-trades ring, the market registry and latency percentiles.
- The replay provider and the fault-injecting decorator; engine epochs under replay.
- Goroutines, channels, locks and timers as mechanisms; HTTP, WebSocket and JSON; SQLite, migrations and pruning; configuration and logging.
- The Flutter client.

# Verified model of the trading pipeline's core

The repository turns wallet activity into trading signals, executes them under rate, retry and locking
disciplines, and backtests the whole with deterministic simulations. This project models the parts
whose correctness is hardest to see from the code and proves what they promise, over every input, every
run and every interleaving.

Each component that the program updates in place is a class or a method with loops. It is proved equal
to a small specification function on values, and the theorems (invariants over whole runs,
conservation, optimality, independence of order) are lemmas about those functions.

| file | component |
|---|---|
| `WalletGraph.dfy`, `Clusters.dfy`, `LeaderMetrics.dfy` | co-trade matrix, connected components, leader metrics |
| `RateLimiter.dfy`, `SignalQueue.dfy` | token bucket, binary-heap priority queue, the two combined |
| `SimPreflight.dfy`, `PreflightCensus.dfy`, `TradeOrder.dfy`, `WalkForward.dfy`, `EvSweep.dfy` | backtest, what its counters count, its independence of input order, temporal windows, threshold sweep |
| `PartialRetry.dfy` | interleaved retry chains for partially filled orders |
| `OrderManager.dfy`, `PartialFillHandler.dfy`, `SimFill.dfy`, `Idempotency.dfy` | position, partial-fill, exit and lock state machines |
| `MonteCarlo.dfy`, `Drawdown.dfy` | capital and drawdown arithmetic |
| `WalletMerge.dfy`, `SurvivalModel.dfy` | profile merge, hazard calibration |
| `Collections.dfy`, `Numbers.dfy` | filters and the stable sort, string order, rounding and powers |

## Conventions

- Floats are exact reals. Clock readings, random draws, the lines that a file read misses and the outcome
  of a file write are parameters.
- A clock reading passed for a key never lies before the one stored for that key, a limiter's limit is
  not negative and its window is positive, and prices in the backtest are positive.
- The limiter's specification runs in token time: seconds multiplied by the refill rate.
- Python's `sorted` and `list.sort` are one stable insertion sort. Strings compare as Python compares
  them, by code point (`Text.Le`), not by Dafny's prefix order.
- Where the graph code iterates over a set or a dict, the model takes the elements in an arbitrary
  order, so its results hold for every order. Where insertion order decides the result (the position
  book, the partial-fill records), the model keeps it.
- `heapq` is part of Python, not of the repository; `SignalHeap` is a binary heap that provides what
  the queue relies on.
- Calls that the program makes under a lock are atomic steps.

## Where the code differs from its documentation

- `PARTIAL` is final. `is_active` leaves it out (`execution/order_state_machine.py:108-110`), while
  `strategy/docs/overlay/PR-E.5.md:18` has it move on to `CLOSED`. `PartialIsStuckForever`
  is the consequence: the position keeps its slot. A held position can still leave if and only if it is
  not half-closed (`LeavesIffNotHalfClosed`), and no position is ever opened again if and only if
  half-closed ones take every slot (`HalfClosedBlockTheBook`, with an input in
  `OneHalfCloseBlocksTheBook`). `EXPIRED` (line 14 there) is never set.
- A merge tie on trade counts goes to the last profile, not the first
  (`integration/wallet_merge.py:229-230`): `TieTakesTheLast` shows it, `PrimaryIsFirstIffNoTie` says
  exactly when the first is taken. With negative counts throughout, the first profile is taken even if
  it has not the most trades: `PrimaryHasMostTrades` gives that condition.
- A sweep threshold of zero or less switches the edge test off, a preflight minimum does not:
  `SweepRowIsPreflight` says exactly when the two agree, `SweepEntersALoser` is an input where they do not.
- Walk-forward windows cover every instant exactly once if and only if the step equals the window size
  or one window holds all the data: `CoverageIsExact`. Even then a window can turn an exit into a TIME
  exit; a trade is safe from that if and only if its holding time ends before the window does
  (`WindowHarmlessIffHeldInside`).
- A rate-limited push spends its token even if the queue is full (`RateLimitedSignalQueue.Push`).
- The drawdown's curve starts after the first position, so a loss on that position can go unseen:
  `FirstLossInvisible` for every run of positions that wins from then on, `StartHidesNothingIff` for
  the exact condition on any curve. Above zero the same condition says when the starting equity changes
  nothing; below zero adding it can even shrink the result (`StartCanShrinkBelowZero`, and
  `StartShrinksIff` for exactly when).
- On a curve that falls below zero the one pass can miss the deepest fall (`NegativeEquityMisleads`);
  it finds it if and only if, however far a negative level lies below the least positive level before it,
  somewhere the curve lies as far below its running peak (`WorstIsMaxIffNothingMissed`).
- A retry can be larger than the root order, if the root asked for less than the decayed size
  (`SmallRootOutgrown`, and `RootNeverOutgrownIff` for the exact condition).
- A closed partial-fill record can still become completed: `CancelledThenCompleted` is such a run,
  `ClosedCanComplete` says exactly when.
- `prune` can change what a later `release_lock` returns: `PrunedLockIsNotReleased` is such a run,
  `PruneObservedByRelease` says exactly when. An operation that writes after reading only a part of the
  lock file drops the rest (`AcquireDropsIff`, `ReleaseDropsIff`, `PruneRemovesIff`), and a lock whose
  line an acquire misses is granted again (`LostLineGrantsTwice`, and `EarlyAcquireIffLost` for exactly
  when).
- `co_trade_count` is described as the total of co-trades in the cluster
  (`analysis/wallet_graph.py:39`); it is the number of the wallet's peers. Leader metrics count buys of
  any size, although the clusters come from large buys only.

## Model

| member | source | states |
|---|---|---|
| CoTrades.BuildCoTradeMatrix | analysis/wallet_graph.py:42-92 | The sliding-window scan with its early break yields the all-pairs matrix: entry (a,b) is the number of unordered pairs of large buys of one mint by a and b at most the window apart; keys have a<b and counts are at least 1 |
| CoTrades.AddRow | analysis/wallet_graph.py:73-90 | One row of the scan, left early, adds exactly the co-trades of trade i with all later ones |
| CoTrades.MatrixIgnoresOrder | analysis/wallet_graph.py:56-92 | Permuting the input trades, ties included, does not change the matrix |
| CoTrades.CountMonotone | analysis/wallet_graph.py:80-90 | A wider window loses no co-trade |
| CoTrades.CountAddsOverMints | analysis/wallet_graph.py:56-67 | Counts of disjoint groups of mints add up, so counting mint by mint loses nothing |
| Clusters.BuildGraph | analysis/wallet_graph.py:108-118 | The adjacency sets are exactly the thresholded, undirected edges, with no isolated wallet |
| Clusters.Search | analysis/wallet_graph.py:127-141 | The breadth-first search terminates and leaves labels closed under edges, each reached from its root |
| Clusters.DetectClusters | analysis/wallet_graph.py:95-145 | Labelled wallets are exactly the endpoints of edges; two share a label if and only if a path joins them; the labels are exactly 0..k-1 |
| Clusters.ClusterTrades | analysis/wallet_graph.py:257-261 | From trades to labels: an exact clustering of the thresholded all-pairs matrix |
| Clusters.LooseningOnlyMerges | analysis/wallet_graph.py:238-264 | Wallets clustered together stay together under a lower threshold or a wider window |
| Clusters.ClustersIgnoreOrder | analysis/wallet_graph.py:238-264 | Permuting the trades leaves the labelled wallets and the partition unchanged |
| LeaderMetrics.ComputeLeaderMetrics | analysis/wallet_graph.py:148-235 | Metrics for exactly the clustered wallets, each a function of its cluster and of a history of leads and lags that visits every bought mint once |
| LeaderMetrics.BuildClusters | analysis/wallet_graph.py:238-264 | The labels in the metrics are an exact clustering of the trades, and all metrics come from one history of leads and lags |
| LeaderMetrics.LeaderBuysFirst | analysis/wallet_graph.py:188-194 | The leader of a mint is its earliest clustered buyer, on equal times the one listed first |
| LeaderMetrics.LagIsTimeSinceLeader | analysis/wallet_graph.py:198-203 | Each clustered buy after the first on a mint is one follow, by the time since the first |
| LeaderMetrics.MedianSplits | analysis/wallet_graph.py:220-225 | At most half of a wallet's lags lie below the reported one and at most half above, for odd and even counts |
| LeaderMetrics.ScoresAreSound | analysis/wallet_graph.py:205-233 | Every clustered wallet has a peer; its score is in [0,1], positive exactly if it led a mint, full exactly if it led at least half as many mints as its cluster has members, and below that twice its leads over the members |
| LeaderMetrics.MoreLeadsRankHigher | analysis/wallet_graph.py:210-217 | Of two wallets in one cluster, the one that led more mints never scores lower |
| LeaderMetrics.LagsAreSound | analysis/wallet_graph.py:198-225 | A lag is reported exactly if the wallet ever followed, and is then a non-negative median of its lags |
| LeaderMetrics.LeadsAndLagsAreConserved | analysis/wallet_graph.py:182-203 | Leads and lags over all wallets number the clustered buys on mints with at least two of them |
| LeaderMetrics.MetricsIgnoreMintOrder | analysis/wallet_graph.py:183-233 | Whatever the order in which mints are visited, a wallet's metrics are the same |
| RateLimiting.LevelIsTightestBound | execution/queues.py:57-74 | The tokens in the bucket are the tightest of the bounds that the individual past grants impose |
| RateLimiting.RateLimiter.CanProceed | execution/queues.py:48-74 | A call is granted exactly if, from every earlier grant on its key, the grants through this one fit limit plus what was earned since; other keys play no part |
| RateLimiting.RateLimiter.GetWaitTime | execution/queues.py:76-98 | With no call in between, a call succeeds from now plus the returned wait on and at no earlier moment |
| RateLimiting.RateLimiter.Reset | execution/queues.py:100-107 | A reset forgets exactly this key's calls |
| RateLimiting.CallTracks | execution/queues.py:57-74 | The stored pair stays the bucket left by the key's whole call history, denied calls included |
| RateLimiting.IntervalBound | execution/queues.py:57-74 | No stretch of time, wherever it lies, carries more than limit + length * rate grants |
| RateLimiting.GreedyIsOptimal | execution/queues.py:57-74 | No limiter that keeps the same bound ever lets through more calls |
| RateLimiting.DeniedCallsUnobservable | execution/queues.py:57-74 | Deleting every denied call changes no later decision |
| SignalHeap.HeapPush | execution/queues.py:125-148 | Sifting up keeps the heap and its contents |
| SignalHeap.HeapPop | execution/queues.py:150-160 | The entry removed is the least by (priority, arrival); the rest is a heap with the other entries |
| SignalQueues.EnqueueCorrect | execution/queues.py:125-148 | A push joins the line behind everything at least as urgent and keeps the line ordered |
| SignalQueues.SignalQueue.Push | execution/queues.py:125-148 | Accepted exactly if there is room; the counter and the line move on, or nothing changes |
| SignalQueues.SignalQueue.Pop | execution/queues.py:150-160 | Returns the head of the line, or nothing if it is empty |
| SignalQueues.SignalQueue.Peek | execution/queues.py:162-172 | Shows the head of the line and leaves the queue as it was |
| SignalQueues.SignalQueue.GetAll | execution/queues.py:208-221 | Drains the queue in leaving order |
| SignalQueues.RunConsistent | execution/queues.py:125-160 | Over every run: accepted = popped + queued, equal priorities leave in push order, the size bound holds |
| SignalQueues.LineIsStableSort | execution/queues.py:208-221 | An ordered line is the stable sort by priority of its signals in push order |
| SignalQueues.RunLeavesStableSort | execution/queues.py:125-221 | After every run of pushes and pops, draining yields the stable sort by priority of what was accepted and not yet popped, in push order |
| SignalQueues.RateLimitedSignalQueue.Push | execution/queues.py:244-262 | Accepted exactly if the limiter permits and there is room; the token is spent either way |
| SignalQueues.RateLimitedSignalQueue.PushBypass | execution/queues.py:264-274 | Bypass pushes ask the queue alone |
| SimPreflight.SimulateExit | integration/sim_preflight.py:157-199 | The scan finds the first tick in the holding window that reaches a level, profit before loss; failing that the window's last price; failing that the entry |
| SimPreflight.ScanIsExit | integration/sim_preflight.py:175-199 | The recursive scan meets that declarative definition on every tick list in time order |
| SimPreflight.EdgeReaches | integration/sim_preflight.py:114-154 | The edge reaches a number of points if and only if the win probability's margin over break-even, in basis points, rounds up to the spread plus that number, ties going to the even number |
| SimPreflight.ProgramFollowsMargin | integration/sim_preflight.py:114-154 | The program's formula, for every snapshot, profile and mode, reaches a number of points if and only if the margin clears them |
| SimPreflight.EntryIffMarginClears | integration/sim_preflight.py:314-320 | Under it a known candidate is entered if and only if its margin clears the minimum edge |
| SimPreflight.LevelsBoundProfit | integration/sim_preflight.py:324-340 | An entered trade that exits at TP earns at least the target on its notional, one that exits at SL at most the stop |
| SimPreflight.EdgeMonotone | integration/sim_preflight.py:92-154 | With a non-negative target, a better wallet or model probability never has a worse edge |
| SimPreflight.BuildIndex | integration/sim_preflight.py:215-243 | The first pass indexes each mint's priced trades, stably sorted by time, and finds which groupings are on |
| SimPreflight.PreflightAndSimulate | integration/sim_preflight.py:202-384 | The loop computes the tally of the verdicts on all trades, and from it the ratios overall and of each group |
| PreflightCensus.PreflightCounts | integration/sim_preflight.py:263-354 | Every number of a report by what it counts: skips by the gate's decision; positions, wins (left above the entry price), exits by reason, stakes and profits of the entered trades, over all of them and of each mode and tier where some trade is tagged |
| PreflightCensus.EnteredPosition | integration/sim_preflight.py:324-348 | An entered trade's position: its tags, its stake, its exit's reason, a profit of the stake's share of the move, positive exactly if the exit is above the entry |
| PreflightCensus.ExitInIsExit | integration/sim_preflight.py:183-199 | The exit those counts speak of is the declarative one on the mint's ticks |
| PreflightCensus.HitsIffMove | integration/sim_preflight.py:167-195 | A tick reaches target or stop if and only if its move from the entry does |
| PreflightCensus.EarlierTicksIgnored | integration/sim_preflight.py:183-186 | Ticks at or before the entry play no part |
| PreflightCensus.GateIsExact | integration/sim_preflight.py:263-320 | Which trades the gate ignores, skips for want of a snapshot or a profile, or rejects |
| PreflightCensus.WinProbabilityIsExact | integration/sim_preflight.py:117-127 | The model's probability or else the wallet's win rate or else zero, brought into the unit interval |
| SimPreflight.RatiosAreExact | integration/sim_preflight.py:356-358 | The win rate is in [0,1]; win rate and mean profit times positions, and ROI times notional, recover the wins and the profit |
| PreflightCensus.GroupRatiosAreExact | integration/sim_preflight.py:410-433 | The ratios of every mode and tier recover that group's totals |
| SimPreflight.SumAfterAdd | integration/sim_preflight.py:397-407 | Adding a position to its bucket adds it to the sum over all buckets, column by column |
| SimPreflight.PreflightBalances | integration/sim_preflight.py:263-354 | Candidates = entered + all skips; exit reasons sum to positions closed; with mode tags the per-mode buckets sum to the totals in every column |
| WalkForward.GenerateWindows | integration/walk_forward.py:99-127 | Windows of the given length, one every step, until the start passes the last time stamp |
| WalkForward.CoverageIsExact | integration/walk_forward.py:116-127 | Every instant lies in exactly one window if and only if step = window or a single window holds the data |
| WalkForward.WindowsLoseNothing | integration/walk_forward.py:185-190 | With step = window, the slices laid end to end are the sorted trades |
| WalkForward.TicksOfSlice | integration/walk_forward.py:185-202 | A window's run sees the full run's ticks that fall in the window, in the same order |
| TradeOrder.TicksIgnoreSorting | integration/sim_preflight.py:242-243 | Sorting the trades by time first changes no mint's tick list, ties included |
| WalkForward.PreflightIgnoresSorting | integration/walk_forward.py:167-168 | A preflight counts the same positions, skips and exits whether its trades are sorted first or not |
| WalkForward.TruncationAltersOnlyTime | integration/walk_forward.py:185-202 | A trade judged inside its window gets the full run's verdict, except that a TIME exit may stand for another exit |
| WalkForward.WindowHarmlessIffHeldInside | integration/walk_forward.py:185-202 | An entered trade gets its full run's verdict inside the window, whatever the trades, if and only if its holding time ends before the window does |
| WalkForward.RunWalkForward | integration/walk_forward.py:163-210 | The rows are the preflights of the non-empty slices, in order; an empty input is the error |
| WalkForward.RowsFollowWindows | integration/walk_forward.py:183-210 | There is a row for each window that holds a trade, in order, under the window's own start and with the preflight of its trades |
| WalkForward.WalkForwardConserves | integration/walk_forward.py:163-210 | With step = window, positions and every skip count summed over rows equal one preflight's over the trades as they came; no TP or SL exit is invented |
| EvSweep.SweepExitIsPreflightExit | integration/ev_sweep.py:159-201 | The sweep's own copy of the exit simulation, over unfiltered trades, agrees with the preflight's on every trade |
| EvSweep.RunEvSweep | integration/ev_sweep.py:297-383 | Each row is the tally of the sweep's verdicts at its threshold, with its ratios |
| EvSweep.HigherThresholdEntersFewer | integration/ev_sweep.py:311-335 | What is entered at a higher threshold is entered at every lower one |
| EvSweep.SweepShrinks | integration/ev_sweep.py:297-363 | As the threshold rises, entries and each exit count fall, the other skips stay, and what is lost is counted as below the threshold |
| EvSweep.SweepRowBalances | integration/ev_sweep.py:297-363 | In every row candidates = entered + all skips and exit counts sum to the positions |
| EvSweep.SweepRowIsPreflight | integration/ev_sweep.py:333-335 | A row equals the preflight with that minimum edge if and only if the threshold is positive or no known candidate has an edge below it |
| EvSweep.SweepAtZeroTakesAll | integration/ev_sweep.py:333-335 | At a threshold of zero or less a row equals the preflight with any minimum edge that no known candidate's edge is below |
| EvSweep.SweepEntersALoser | integration/ev_sweep.py:333-335 | One buy by a wallet that always loses: at threshold zero the sweep enters it, the preflight does not |
| PartialRetry.PartialFillRetryManager.OnPartialFill | execution/partial_retry.py:59-170 | One call changes its own chain only, as the specification of a fill says: the kept state and the issued retry, or neither |
| PartialRetry.PartialFillRetryManager.OnFullFill | execution/partial_retry.py:172-174 | A full fill clears its chain and no other |
| PartialRetry.PartialFillRetryManager.GetOrCreateChain | execution/partial_retry.py:176-193 | An existing chain is returned as it is; a new one starts from the order |
| PartialRetry.Apply | execution/partial_retry.py:59-198 | One event on the shared manager: its chain takes the specified step, every other chain keeps its state and its order in flight |
| PartialRetry.Drive | execution/partial_retry.py:59-198 | However events of many chains interleave, the one shared manager and the orders it returned are, for each chain, as if its own events had happened alone |
| PartialRetry.EveryChainDisciplined | execution/partial_retry.py:73-170 | Over every interleaving: fills never exceed the size, each retry is at least 1 and fits the budget, at most the configured attempts are issued, a chain with no order in flight has no state |
| PartialRetry.EveryRetryInTime | execution/partial_retry.py:101-163 | Over every interleaving each retry was issued by a report no later than the ttl after its root's creation, and carries the root's identity, swap and creation time |
| PartialRetry.RetryFollowsIff | execution/partial_retry.py:73-170 | After any run, a report on the order in flight leads to a retry if and only if the total filled is more than one per cent short, attempts are left, the root's time is not up and at least one unit is to be ordered; the retry's every field, and the chain kept or cleared |
| PartialRetry.AmountsFallFeesRise | execution/partial_retry.py:111-160 | From retry to retry amounts never increase and fees never decrease from the base fee on, under the bounds of the runtime schema; the first retry is no larger than the root order exactly if the root's amount reaches the decayed size or the size left |
| PartialRetry.WholeRootNeverOutgrown | execution/partial_retry.py:111-118 | Below a root order for the whole size, amounts never increase along the chain |
| PartialRetry.RootNeverOutgrownIff | execution/partial_retry.py:111-118 | No fill of a root order can lead to a larger retry if and only if its amount reaches the first decayed size |
| PartialRetry.SmallRootOutgrown | execution/partial_retry.py:111-118 | A root order of 10 out of 100, with 5 filled, is followed by a retry of 80 |
| OrderManagement.OrderManager.OnFill | execution/order_manager.py:78-142 | A fill opens exactly one active position, unless the signal is held or the book is full |
| OrderManagement.OrderManager.OnTick | execution/order_manager.py:144-200 | A tick closes, in opening order, exactly the due positions of its mint, TTL before TP before SL |
| OrderManagement.OrderManager.ForceClose | execution/order_manager.py:202-235 | Closes an active position, wholly or in part, and refuses any other |
| OrderManagement.OrderManager.CreateCloseAction | execution/order_manager.py:237-301 | The partial branch keeps the position half-closed, the full branch removes it; both append one history entry |
| OrderManagement.FillIsExact | execution/order_manager.py:104-142 | A fill opens an active, whole position with the given terms and expiry, last in line, unless its signal is held or the book is full |
| OrderManagement.ForceIsExact | execution/order_manager.py:221-301 | Field by field: a forced close does nothing unless the position is open; a size below what remains closes that part, anything else the whole; what is recorded and returned |
| OrderManagement.TickTakesTheDue | execution/order_manager.py:165-200 | A tick takes from the book exactly the due positions: time up, or at or beyond the target, or at or beyond the stop, with the sides turned for anything but a BUY tick |
| OrderManagement.TickRecordsEachClose | execution/order_manager.py:165-200 | One history entry and one action for each position that leaves, at the tick's price and for the first of the three reasons that holds |
| OrderManagement.FilledPositionLeavesIff | execution/order_state_machine.py:117-137 | From a fill to a tick: the position leaves if and only if the ttl has passed or the price is at or beyond the target or the stop, on both sides |
| OrderManagement.QuietTickLeavesPosition | execution/order_state_machine.py:117-137 | A BUY tick between stop and target before the expiry changes nothing |
| OrderManagement.TickIsIdempotent | execution/order_manager.py:165-200 | After a tick no active position of its mint is due, and repeating the tick changes nothing |
| OrderManagement.ForceCloseIsIdempotent | execution/order_manager.py:221-235 | A second forced close of a position does nothing |
| OrderManagement.EverySignalTallies | execution/order_manager.py:105-301 | For each signal over every run: openings = closes + the position held; a partial close is on record exactly while it is held half-closed |
| OrderManagement.RunConserves | execution/order_manager.py:105-301 | Opened = held + closes; half-closed held = partial closes; never more held than the maximum |
| OrderManagement.AtMostOneActionPerOpening | execution/order_manager.py:237-301 | No opening is ever acted on twice |
| OrderManagement.PartialIsStuckForever | execution/order_state_machine.py:108-110 | Over whole runs, a position once half-closed stays held and unchanged |
| OrderManagement.LeavesIffNotHalfClosed | execution/order_state_machine.py:108-110 | A held position can still leave the book, by some further events, if and only if it is not half-closed |
| OrderManagement.HalfClosedBlockTheBook | execution/order_manager.py:105-116 | No further events ever open a position if and only if half-closed positions take every slot |
| OrderManagement.OneHalfCloseBlocksTheBook | execution/order_manager.py:105-301 | A fill and a forced close of part of it reach that state; with one slot the book is blocked from then on |
| PartialFillHandling.PartialFillHandler.OnPartialFill | execution/partial_fill_handler.py:121-197 | Adds the fill to the record and stamps it, or opens one with its adjustment; judges completion against the amount this call expects; returns the record |
| PartialFillHandling.PartialFillHandler.ForceCloseRemaining | execution/partial_fill_handler.py:229-285 | Closes a pending record that lacks something, with an adjustment that names what was filled and leaves nothing; completes one that lacks nothing; leaves any other alone |
| PartialFillHandling.PartialFillHandler.CancelRemaining | execution/partial_fill_handler.py:287-338 | Closes a pending record, with an adjustment that names what was filled and what remains; leaves any other alone |
| PartialFillHandling.PartialFillHandler.CheckTimeouts | execution/partial_fill_handler.py:347-363 | Force-closes the expired pending records, at their entry prices, in creation order |
| PartialFillHandling.ReceiveIsExact | execution/partial_fill_handler.py:145-197 | Field by field what a fill does to a known record, pending ones included, and to an unknown signal |
| PartialFillHandling.ForceCloseIsExact | execution/partial_fill_handler.py:245-285 | Field by field what a forced close does to the record and says in its adjustment |
| PartialFillHandling.CancelIsExact | execution/partial_fill_handler.py:301-338 | Field by field what a cancellation does to the record and says in its adjustment |
| PartialFillHandling.TimeoutsAreExact | execution/partial_fill_handler.py:353-363 | A timeout check closes the overdue pending records that lack something, completes those that lack nothing, and leaves every other one as it was |
| PartialFillHandling.EverySignalClosedOnce | execution/partial_fill_handler.py:245-323 | Over every run a signal is force-closed or cancelled at most once |
| PartialFillHandling.TimeoutsLeaveNoneExpired | execution/partial_fill_handler.py:353-363 | After the timeout check no expired record is pending |
| PartialFillHandling.FillsConserved | execution/partial_fill_handler.py:149-162 | Over every run a record holds exactly the sum of the fills reported on it |
| PartialFillHandling.EventEvolves | execution/partial_fill_handler.py:149-175 | No event removes a record or makes it pending again, and only its own fills move its amount |
| PartialFillHandling.ClosedCanComplete | execution/partial_fill_handler.py:149-162 | A closed record becomes completed exactly when a later fill reaches the amount that call expects |
| PartialFillHandling.CancelledThenCompleted | execution/partial_fill_handler.py:149-162 | A run that cancels a record and then completes it |
| SimFill.SignalIsExact | execution/sim_fill.py:135-193 | What one signal sells (the whole part of the share, one token at least), earns, leaves and closes, and how it moves the trailing levels; nothing else changes |
| SimFill.ChainAccounted | execution/sim_fill.py:135-193 | Along every chain of signals: while open, sold + remaining = start; once closed nothing more is sold and less than a token is unaccounted for |
| SimFill.ChainCloses | execution/sim_fill.py:135-161 | A trade of at least one token closes within floor(size) signals, a smaller one at the first |
| SimFill.SlowestChain | execution/sim_fill.py:135-161 | The bound is tight: single-token exits keep a whole size open until the last |
| SimFill.PnlIsSumOfFills | execution/sim_fill.py:147-180 | Realised profit is the sum of (price - entry) * sold |
| Idempotency.IdempotencyManager.AcquireLock | execution/idempotency.py:82-129 | Refused while the read shows an unexpired lock or the write fails; otherwise the lock stands until now + ttl, beside those that were read |
| Idempotency.IdempotencyManager.ReleaseLock | execution/idempotency.py:131-159 | Removes the key's lock, expired or not, if the read shows it and the write succeeds |
| Idempotency.AcquiredIff | execution/idempotency.py:97-129 | Over runs that read the whole file, an acquire succeeds if and only if it writes and no earlier acquire stands unreleased with its ttl running |
| Idempotency.CheckedIff | execution/idempotency.py:229-235 | Over such runs a check reports a lock if and only if such an acquire stands |
| Idempotency.LockHasSource | execution/idempotency.py:97-129 | Over any run, a lock on file stems from an acquire that nothing has released since, and expires its ttl later |
| Idempotency.AcquiresAreApart | execution/idempotency.py:97-129 | Two successful acquires of one key with no release and no missed line between are at least the ttl apart |
| Idempotency.EarlyAcquireIffLost | execution/idempotency.py:97-190 | Within the ttl, with the key neither released nor missed in between, a second acquire succeeds if and only if its own read misses the key's line and its write succeeds |
| Idempotency.LostLineGrantsTwice | execution/idempotency.py:97-190 | A run in which two acquires one second apart are both granted |
| Idempotency.AcquireDropsIff | execution/idempotency.py:94-129 | An acquire drops another key's lock if and only if it succeeds without having read it |
| Idempotency.ReleaseDropsIff | execution/idempotency.py:140-159 | So does a release |
| Idempotency.LockStands | execution/idempotency.py:97-129 | An acquired lock keeps its expiry until it passes, the lock is released or its line is missed, whatever happens to other keys |
| Idempotency.PruneRemovesIff | execution/idempotency.py:192-218 | A prune removes a key if and only if it writes, some lock it read had expired, and the key is expired or its line was missed; any other lock it keeps as it was |
| Idempotency.PruneCountsExpired | execution/idempotency.py:198-218 | The count a prune returns is that of the expired locks it read |
| Idempotency.PruneUnobservable | execution/idempotency.py:192-235 | A prune inserted anywhere changes no later acquire or check, as long as prunes and releases read the whole file |
| Idempotency.PruneChangesReleaseIff | execution/idempotency.py:131-218 | A prune changes the release that follows if and only if it removes a lock that the release would have found and written away |
| Idempotency.PruneObservedByRelease | execution/idempotency.py:131-218 | Over runs that read the whole file, it changes a later release if and only if both write, it found the key's lock expired, and no written release or acquire of the key and no written prune came in between |
| Idempotency.PrunedLockIsNotReleased | execution/idempotency.py:131-218 | A run in which a lock is there to release, and after a prune is not |
| Drawdown.CalculateMaxDrawdown | integration/pnl_aggregator.py:219-255 | The running-peak loop over the equity after each position; its result is the all-pairs maximum drawdown of that curve if and only if it misses no fall to a negative level |
| Drawdown.EquityIsRunningSum | integration/pnl_aggregator.py:232-239 | Each point of the curve is the starting equity and all that was earned up to it |
| Drawdown.WorstIsMaxIffNothingMissed | integration/pnl_aggregator.py:244-253 | On any curve, the one pass equals the maximum over all i<=j of the relative fall, attained by some pair, if and only if, however far a negative level lies below the least positive level before it, somewhere the curve lies as far below its running peak |
| Drawdown.WorstIsMaxDrawdown | integration/pnl_aggregator.py:244-253 | So it does on every curve that never goes negative |
| Drawdown.NegativeEquityMisleads | integration/pnl_aggregator.py:232-253 | Three positions whose curve falls below zero and whose deepest fall is not reported |
| Drawdown.FirstLossInvisible | integration/pnl_aggregator.py:229-253 | A first loss followed by no other is reported as no drawdown, where from the starting equity it is the whole loss |
| Drawdown.StartHidesNothingIff | integration/pnl_aggregator.py:229-253 | Leaving out the starting equity hides no fall if and only if, however far a level lies below it before the curve regains it, somewhere the curve lies as far below its own running peak |
| Drawdown.StartChangesNothingIff | integration/pnl_aggregator.py:229-253 | On curves that never go negative the same condition says when adding the starting equity leaves the result unchanged |
| Drawdown.StartShrinksIff | integration/pnl_aggregator.py:229-253 | On any curve, adding the starting equity shrinks the result if and only if somewhere the curve lies further below its own peak than it ever does once the start counts |
| Drawdown.StartCanShrinkBelowZero | integration/pnl_aggregator.py:229-253 | Two positions for which it does |
| Drawdown.FirstGainHidesNothing | integration/pnl_aggregator.py:229-253 | A first position without a loss makes the missing starting equity harmless |
| MonteCarlo.RunSimulation | integration/monte_carlo.py:57-166 | The trade loop reports the end of the capital path and its drawdown; a zero base price is the only failure |
| MonteCarlo.DrawIsExact | integration/monte_carlo.py:119-143 | What one more draw does to the capital: a share of it, all at most, is staked; a buy earns the price's relative move on it, a sell loses it; stop and target cap the change |
| MonteCarlo.BetterPricesNeverLowerCapital | integration/monte_carlo.py:110-147 | Raising the prices drawn for buys and lowering those for sells, at any number of trades, never lowers the final capital |
| MonteCarlo.PathIsFinals | integration/monte_carlo.py:145-153 | Each point of the path is where a run over that many draws ends, from the initial capital on |
| MonteCarlo.RoiIsGainInPercent | integration/monte_carlo.py:157-159 | The reported return is the gain in per cent of a positive initial capital, else zero |
| MonteCarlo.StepBounds | integration/monte_carlo.py:119-143 | One trade keeps capital between the stop-loss and take-profit factors for every drawn price |
| MonteCarlo.CapitalBounds | integration/monte_carlo.py:110-147 | After n trades capital lies between initial*(1-p*sl)^n and initial*(1+p*tp)^n |
| MonteCarlo.DrawdownBound | integration/monte_carlo.py:145-153 | The reported drawdown is the all-pairs one and at most 1-(1-p*sl)^n |
| SurvivalModel.Calibrate | analysis/survival_model.py:154-200 | The index search returns the interpolated value and never falls through |
| SurvivalModel.InterpolationInRange | analysis/survival_model.py:178-200 | On any curve, interpolation stays between two of the knot values, on a rising curve between the first and the last |
| SurvivalModel.InterpolationMonotone | analysis/survival_model.py:178-200 | A higher raw score never calibrates lower |
| SurvivalModel.InterpolationHitsKnots | analysis/survival_model.py:178-200 | Interpolation passes through every knot |
| SurvivalModel.InterpolationIsLinear | analysis/survival_model.py:190-197 | Between two neighbouring knots interpolation is the straight line through them |
| SurvivalModel.NormalizedIsWeightedMean | analysis/survival_model.py:113-124 | The sigmoid's input times the sum of weights is the sum of the five weighted features; without a positive sum it is zero |
| SurvivalModel.AnswerIsExact | analysis/survival_model.py:70-228 | When the model answers at all, and that it then says whether the calibrated score reaches the threshold |
| SurvivalModel.RaisingFeaturesKeepsExit | analysis/survival_model.py:105-228 | Raising any required feature never turns an emergency exit off |
| WalletMerge.MergeWallet | integration/wallet_merge.py:222-289 | One wallet: the five numeric fields come from one profile, trades and last activity are maxima, flags the sorted union, the DEX from the highest-priority source that has one, the rank the first given |
| WalletMerge.MergeWalletProfiles | integration/wallet_merge.py:197-294 | One merged profile for each non-empty input address, by strictly increasing address, each from exactly the entries with that address |
| WalletMerge.DuneThenFlipside | integration/wallet_merge.py:187-194 | Dune decides the DEX if it names one, failing that Flipside, failing that the first to name one |
| WalletMerge.PrimaryHasMostTrades | integration/wallet_merge.py:222-231 | The numeric fields come from a profile with the most trades if and only if some count is not negative or the first profile has the most |
| WalletMerge.PrimaryIsFirstIffNoTie | integration/wallet_merge.py:228-231 | They come from the first profile with the most trades if and only if one profile alone has the most and its count is not negative, or all counts are negative and the first profile has the most |
| WalletMerge.TieTakesTheLast | integration/wallet_merge.py:228-231 | Of two profiles with equal counts the second is taken |
| WalletMerge.MergedUnique | integration/wallet_merge.py:222-289 | A wallet's entries determine its merged profile completely |
| WalletMerge.MergeUnique | integration/wallet_merge.py:197-294 | The input determines the merged list completely, its order included |
| WalletMerge.MergeIsIdempotent | integration/wallet_merge.py:197-294 | Merging a merged list again, under any source name, returns it unchanged |
| Collections.FilterSort | integration/sim_preflight.py:242-243 | A stable sort commutes with every filter; with "has this key" as the filter this is stability |
| Text.LtIsLexicographic | integration/wallet_merge.py:291-292 | The order of addresses and flags is the lexicographic one by code point |

## Left out

- IEEE rounding, and the final rounding of reported figures: all arithmetic is over the reals.
- Network, RPC, Jito and Solana execution, alerting, ClickHouse, Parquet, CSV and JSON input and output, logging and callbacks.
- Parsing of time stamps and prices, key hashing, and the numeric value of the sigmoid, of which only monotonicity and range are used.
- `get_stats`, status views, serialisers and `execute_close`.
- The list of triggering features of a hazard score and the size of the emergency sale.
- Slippage and latency draws of a Monte Carlo iteration, whose results the trade loop never uses, and the shuffling of trades: the bounds hold for every order.
- Simulated entry fills (`simulate_fill`) and the transaction builder beyond the dust threshold.
- Lock files shared by several processes: exclusion is proved for one process whose calls happen one after another.
- The first loop over preferred DEXes in the merge: whenever it assigns a DEX, the search after it assigns again.
- Backtest trades with a price that is not positive, and ticks with unparsable prices beyond being skipped.
- Retry chains outside the disciplined environment (several fills on one order, fills on stale orders): the class models the call, the run-level lemmas assume each order reports one fill between zero and its amount.
- Size, empty and full queries of the queues, which read one field, and `clear`, which is a drain without its result.
- RateLimiting.RateLimiter.GetWaitTime: stated for a limit of at least 1; with a limit of 0 no call is ever granted and no wait is long enough.
- WalkForward.WalkForwardConserves: stated for a step equal to the window size; CoverageIsExact shows that for other steps some instant is lost or covered twice.
- OrderManagement.OrderManager.CreateCloseAction: does not model the close and history time stamps, which are separate clock readings that nothing else in the module uses.
- WalkForward.RunWalkForward: a row carries the window's start in seconds, not its ISO date, and the constant envelope of the result is left out.
- PartialFillHandling.PartialFillHandler.OnPartialFill: a missing trace id, which the source draws at random, is the caller's to supply; creation and update stamps are one reading of the clock.

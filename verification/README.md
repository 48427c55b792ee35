# Verified model of the lending, points, coupon, history and liquidity cores

A Dafny model of the arithmetic and the history builders under `frontend/src/lib`: what the page
offers a borrower, what the points mirror credits, what the coupon page shows, how the event
histories are built from an RPC that may fail or truncate, how liquidity plans are sized, and how
the transparency history travels. The source computes with `bigint`, so integers are unbounded here
too and every division is written with its rounding direction.

Run `dafny verify dfyconfig.toml` in this directory.

## Layout

| module | subject |
|---|---|
| `MorphoMarket`, `MorphoMarketActions`, `MorphoMarketPreviews` | interest accrual, share/asset conversion, the safe borrow and collateral maxima, post-action previews and the repayment quote |
| `RateEpochs` | rate schedules: the epoch-sliced sum is the second-by-second sum |
| `MorphoPoints`, `PointsSchedules`, `CollateralReplay`, `PointsRamp` | the maturity ramp, checkpointed positions, whole schedules, the replay of a market's events, points second by second |
| `CuratorVaultMath`, `CivilCalendar` | coupon accrual with a carried remainder, month boundaries (section 21.4.1 of ECMA-262) |
| `LogRanges` | the two log-range recursions |
| `HistoryCommits`, `MarketHistory`, `SnapshotQueue` | the committed chunks of a market history, the object that extends it, the queue of builds around it |
| `Leaderboard`, `LeaderboardBuckets` | buckets, ranks, the totals proof; what a board says of each wallet |
| `UniswapV4Liquidity`, `UniswapV4SusdfrLiquidity` | token deltas, the liquidity search, the plans |
| `TransparencyHistory`, `Decimal`, `Book`, `LossRates` | the wire format, decimal strings, the default metrics the format carries |
| `Arith`, `Sums`, `Sorting`, `Wrappers` | rounding laws, sums over maps, sorting, `Option` and `Result` |

Objects the source updates in place are classes (`MorphoPoints.Position`, `MarketHistory.History`,
`LogRanges.Budget`, `MarketHistory.Server`); module-level state shared by concurrent requests is a step machine
(`SnapshotQueue`); source loops are methods proved against functions, and the properties are lemmas
about those functions.

## What the source says and what holds

* A zero `lastAccrual` means "never accrued", so the checkpoint bound holds for positions stamped
  after time 0 only. `PointsSchedules.CheckpointAfterTimeZeroGains` exhibits a schedule opened at
  time 0 that gains from an extra checkpoint, and `PointsSchedules.CheckpointNeverGainsExactly`
  shows the zero stamp to be the exact condition.
* "Two extra raw units cover a share-rounding boundary between the two reads"
  (`morphoMarketActions.ts:75`). The two markets of a snapshot are accruals of one stored state
  (`morphoMarketReader.ts:75`, `:108`), and whatever the two rates, with or without debt, a passing
  amount holds in the projected market for every collateral and price if and only if its charge
  covers the share rounding there (`MorphoMarketActions.QuoteHoldsExactly`). It always holds when the
  debts grow from block to projection no faster than the rate ceiling allows, so on every market
  accrued in the quoted block (`FreshReadingHolds`), and while a share is worth at most two raw units,
  four with debt (`BorrowExecutableAtProjection`). What the spare units cover by themselves is
  `SpareUnitsExact`, for debt-free accounts `minted * X - amount * Y <= 2 * (Y + minted)`. An idle
  market with coarser shares defeats its own largest quote: `CoarseSharesDefeatTheQuote`.
* `monthStart` and `nextMonthStart` bracket their time except in the years 0 to 99, which `Date.UTC`
  takes for 1900 to 1999, and throw only beyond the range of a `Date` or within a month of its ends
  (`CivilCalendar.MonthBoundaries`).
* Venue lines repeat the points of a key listed twice; they add up to the venue points exactly when no
  repeated key has any (`Leaderboard.VenueLinesAddUp`).
* The coupon page's two figures add up to what is owed and accrued except where a stored payable
  exceeds what is owed on a position the view does not settle; `CuratorVaultMath.ViewCoupon` states
  the exact difference in every branch.
* The comment above the leaderboard's `getLogs` says a crowded single block fails closed; the code
  reads that block from its receipts, and the model follows the code.

## Model

| member | source | states |
|---|---|---|
| `MorphoMarket.AccrualNeverLowersValues` | frontend/src/lib/morphoMarket.ts:77-101 | over any sequence of accruals no position's supplied or borrowed value falls, and supply minus borrow is conserved despite minted fee shares |
| `MorphoMarket.AccrualStep` | frontend/src/lib/morphoMarket.ts:77-89 | one accrual: neither share price falls, the liquidity gap and the borrow shares are conserved, time moves to the later of the two stamps |
| `MorphoMarket.InterestExact` | frontend/src/lib/morphoMarket.ts:77-89 | the interest is the floor of the debts' growth, added to both sides of the market; no time passed, no change |
| `MorphoMarket.ValuesExact` | frontend/src/lib/morphoMarket.ts:91-95 | supplied, collateral value and liquidation debt are the most and borrowed the least the shares, price and threshold allow |
| `MorphoMarket.AvailableExact` | frontend/src/lib/morphoMarket.ts:96-100 | a positive amount is available exactly when it keeps the debt under liquidation and the market solvent; the displayed ratio is the least that covers the debt |
| `MorphoMarket.FeeSharesExact` | frontend/src/lib/morphoMarket.ts:84-86 | the fee shares minted are exactly the most whose worth in the grown pool does not exceed the fee |
| `MorphoMarket.FeeSharesWorthAtMostFee` | frontend/src/lib/morphoMarket.ts:77-92 | valued as a position, the fee recipient's new shares are worth at most the fee |
| `MorphoMarket.GrowthIsTaylor` | frontend/src/lib/morphoMarket.ts:80-83 | the compounded growth is the third-order Taylor polynomial of e^x - 1, short of it by the rounding of two divisions only |
| `MorphoMarketActions.SafeBorrowMaximum` | frontend/src/lib/morphoMarketActions.ts:61-80 | the bisection returns the largest affordable amount within liquidity, or 0; on a consistent snapshot no larger one passes or is affordable |
| `MorphoMarketActions.PassesExactlyAffordable` | frontend/src/lib/morphoMarketActions.ts:61-80 | an amount passes if and only if the debt once borrowed, what the forward repayment adds, that debt's ceiling-rate growth in whole units and two units fit 80% of the collateral |
| `MorphoMarketActions.ThreeUnitsToSpare` | frontend/src/lib/morphoMarketActions.ts:71-76 | no account is quoted too little: three raw units on top of the exact growth are enough to pass |
| `MorphoMarketActions.IndebtedQuote` | frontend/src/lib/morphoMarketActions.ts:61-80 | on a reading with debt and a 387-second horizon exactly the amounts up to 599,842,543,118 pass |
| `MorphoMarketActions.BorrowSurvivesHorizon` | frontend/src/lib/morphoMarketActions.ts:61-80 | a passing amount, borrowed now, stays within the 80% buffer after any capped-rate accrual within the projection |
| `MorphoMarketActions.BorrowExecutableWithinHorizon` | frontend/src/lib/morphoMarketActions.ts:61-80 | the same amount borrowed later, in the accrued market, leaves the position within the buffer too |
| `MorphoMarketActions.BorrowExecutableAtProjection` | frontend/src/lib/morphoMarketActions.ts:71-76 | a quote read as two accruals of one state holds in the projected market while a share is worth at most two raw units there, four for an account with debt |
| `MorphoMarketActions.QuoteHoldsExactly` | frontend/src/lib/morphoMarketReader.ts:75-108 | for any reading, with or without debt, a passing amount holds in the projected market for every collateral and price if and only if the charge covers the share rounding there |
| `MorphoMarketActions.SpareUnitsExact` | frontend/src/lib/morphoMarketActions.ts:71-76 | over all snapshots projecting a market, every passing quote of an amount holds there if and only if the repayment quote, the amount and two units cover the share rounding |
| `MorphoMarketActions.SpareUnitsWithoutDebt` | frontend/src/lib/morphoMarketActions.ts:71-76 | without debt that condition is that the minted shares' rounding is at most two units a share |
| `MorphoMarketActions.BorrowExecutableUnderCappedGrowth` | frontend/src/lib/morphoMarketReader.ts:100-108 | at any share price a quote holds in the projected market when debts grow from block to projection within the rate ceiling |
| `MorphoMarketActions.FreshReadingHolds` | frontend/src/lib/morphoMarketReader.ts:75-108 | so does every quote of a market accrued in the quoted block, at any horizon rate up to the ceiling |
| `MorphoMarketActions.ChargedCovers` | frontend/src/lib/morphoMarketActions.ts:71-76 | the charge covers the amount on top of the forward debt with two units to spare |
| `MorphoMarketActions.CoarseSharesDefeatTheQuote` | frontend/src/lib/morphoMarketActions.ts:71-76 | a day-idle reading on which exactly the amounts up to 999,999 pass, within liquidity, and the largest breaks the buffer in the projected market |
| `MorphoMarketActions.DebtWithinHorizon` | frontend/src/lib/morphoMarketProjection.ts:24-32 | any position's debt accrued within the horizon is at most today's plus `maximumHorizonInterest` of it |
| `MorphoMarketActions.DebtAfterMonotone` | frontend/src/lib/morphoMarketActions.ts:20-28 | post-borrow debt is monotone in the amount, through two ceiling divisions over changing totals |
| `MorphoMarketActions.DebtAfterRises` | frontend/src/lib/morphoMarketActions.ts:20-28 | borrowing an amount raises the debt by at least that amount |
| `MorphoMarketActions.DebtAfterCeiling` | frontend/src/lib/morphoMarketActions.ts:20-28 | and by at most that amount and one share's worth |
| `MorphoMarketActions.BorrowPassesDownward` | frontend/src/lib/morphoMarketActions.ts:69-78 | passing the search's check is inherited by every smaller amount |
| `MorphoMarketActions.PassingFitsCapacity` | frontend/src/lib/morphoMarketActions.ts:65-68 | the `capacity` cut-off excludes no passing amount |
| `MorphoMarketActions.SafeCollateralExact` | frontend/src/lib/morphoMarketActions.ts:49-58 | with debt, a withdrawal keeps the larger of current and forward debt within 80% if and only if it does not exceed the maximum |
| `MorphoMarketActions.RetainedCollateralExact` | frontend/src/lib/morphoMarketActions.ts:55-57 | two round-ups and one floored valuation compose to a single exact threshold |
| `MorphoMarketActions.RepayingABorrowNeverGains` | frontend/src/lib/morphoMarketActions.ts:20-42 | borrowing and repaying the same amount at once is accepted and never leaves a smaller debt |
| `MorphoMarketActions.RepaymentLowersDebt` | frontend/src/lib/morphoMarketActions.ts:32-41 | a partial repayment lowers the debt by its amount, short of it by at most one share's worth |
| `MorphoMarketActions.OthersNeverOweMore` | frontend/src/lib/morphoMarketActions.ts:20-42 | no previewed action makes any other position owe more |
| `MorphoMarketActions.DisplayedLtvMatchesBuffer` | frontend/src/lib/morphoMarket.ts:91-101 | the displayed loan-to-value is at most 80% exactly when the position is within the buffer |
| `MorphoMarketPreviews.RepayAllClears` | frontend/src/lib/morphoMarketActions.ts:32-40 | repaying all leaves no debt, takes what was owed from the market and touches nothing else |
| `MorphoMarketPreviews.RepaymentRefusedExactly` | frontend/src/lib/morphoMarketActions.ts:32-35 | a partial repayment is refused exactly when it is worth more whole shares than are owed |
| `MorphoMarketPreviews.WithdrawalTakesCollateral` | frontend/src/lib/morphoMarketActions.ts:29-31 | withdrawing takes just that collateral, refused exactly beyond what is held |
| `MorphoMarketPreviews.LendingPreviewsUnchanged` | frontend/src/lib/morphoMarketActions.ts:20-42 | the lending actions preview the position as it stands |
| `MorphoMarketPreviews.DebtFreeWithdrawsAll` | frontend/src/lib/morphoMarketActions.ts:49-52 | without debt the maximum is exactly what a withdrawal may take |
| `MorphoMarketPreviews.RepaymentQuoteLasts` | frontend/src/lib/morphoMarketActions.ts:12-17 | at the horizon's rate the debt stays two units under the quote up to the projected time, and is exactly two under it then |
| `RateEpochs.SlicesAreSeconds` | frontend/src/lib/curatorVaultMath.ts:25-31 | the epoch-sliced sum equals the rate in force summed second by second |
| `RateEpochs.RateInForce` | frontend/src/lib/curatorVaultMath.ts:85-89 | the rate in force is that of the one epoch the second lies in |
| `RateEpochs.NoRateBefore` | frontend/src/lib/curatorVaultMath.ts:85-89 | before the first epoch there is no rate |
| `MorphoPoints.RampIntegratesMultiplier` | frontend/src/lib/morphoPoints.ts:60-63 | each second of age adds the linear 1x-to-2x multiplier of that age to the ramp |
| `MorphoPoints.RampSlope` | frontend/src/lib/morphoPoints.ts:60-63 | the ramp pays at least 1x and at most 2x over any stretch |
| `MorphoPoints.EpochPointsSplit` | frontend/src/lib/morphoPoints.ts:65-69 | splitting a slice never gains and loses at most 2 raw units to the two floors |
| `MorphoPoints.Pending` | frontend/src/lib/morphoPoints.ts:83-93 | the epoch loop computes the specified sum of slices |
| `MorphoPoints.PointsBetweenSplit` | frontend/src/lib/morphoPoints.ts:83-93 | splitting an interval over all epochs never gains and loses at most 2 in all, since one epoch at most is cut |
| `MorphoPoints.PointsNeverFall` | frontend/src/lib/morphoPoints.ts:114-116 | points never fall as time advances |
| `MorphoPoints.Position.Accrue` | frontend/src/lib/morphoPoints.ts:95-98 | the checkpoint's whole new state |
| `MorphoPoints.Position.Track` | frontend/src/lib/morphoPoints.ts:101-105 | a supply's whole new state |
| `MorphoPoints.Position.Untrack` | frontend/src/lib/morphoPoints.ts:108-111 | a removal's whole new state |
| `PointsSchedules.ExtraCheckpoints` | frontend/src/lib/morphoPoints.ts:60-115 | inserting checkpoints anywhere in a schedule never raises its final points and lowers them by at most 2 each |
| `PointsSchedules.CheckpointNeverGainsExactly` | frontend/src/lib/morphoPoints.ts:84-98 | a held position gains from a checkpoint under no schedule if and only if its stamp is not zero |
| `PointsSchedules.CheckpointAfterTimeZeroGains` | frontend/src/lib/morphoPoints.ts:84-98 | a schedule opened at time 0 that an extra checkpoint does raise |
| `PointsSchedules.PointsAtMostTwiceBase` | frontend/src/lib/morphoPoints.ts:60-115 | from any state, over any schedule in any order, points gained are at most twice the base-rate integral of the balance history |
| `PointsSchedules.PointsWithinBase` | frontend/src/lib/morphoPoints.ts:60-115 | for every schedule points are at most twice the base integral, and in time order from time 1 below it by at most 2 per epoch and checkpoint |
| `PointsSchedules.SupplyKeepsWeightedAge` | frontend/src/lib/morphoPoints.ts:101-105 | a supply keeps the amount-weighted age, rounded up by less than one second per unit |
| `PointsSchedules.RemovalKeepsAge` | frontend/src/lib/morphoPoints.ts:95-111 | a removal keeps the age of what stays, a checkpoint both balance and age |
| `PointsRamp.PointsAtMostRamped` | frontend/src/lib/morphoPoints.ts:60-115 | from any state over any schedule, points gained are at most the second-by-second sum of balance, rate in force and average multiplier of the age, up to a WAD-th of a second per epoch |
| `PointsRamp.PointsAtLeastRamped` | frontend/src/lib/morphoPoints.ts:60-115 | in time order from time 1 they fall short of that sum by at most two raw points more per epoch and step |
| `PointsRamp.RampIsMeanSum` | frontend/src/lib/morphoPoints.ts:60-63 | the ramp is the exact sum of every second's average multiplier, floored once |
| `PointsRamp.TwicePastRamp` | frontend/src/lib/morphoPoints.ts:60-69 | past the ramp every second earns exactly twice its rate |
| `PointsRamp.YearOnRamp` | frontend/src/lib/morphoPoints.ts:65-69 | one share held a year from its supply at one point a day earns exactly 547.5 points |
| `PointsSchedules.StartNeverExceedsStamp` | frontend/src/lib/morphoPoints.ts:95-111 | over any schedule in time order from time 0 the maturity start never exceeds the last accrual |
| `PointsSchedules.LaterEpochIgnored` | frontend/src/lib/morphoPoints.ts:83-116 | an epoch appended at or after `asOf` changes no schedule's points at `asOf` |
| `PointsSchedules.SkippingEndedEpochs` | frontend/src/lib/morphoPoints.ts:78-93 | starting the sum at the epoch in force at `lastAccrual` gives the same points |
| `CollateralReplay.ReplayCollateralPoints` | frontend/src/lib/morphoPoints.ts:126-167 | accepts exactly the well-formed histories, reports the first fault's own error, and yields each owner's net and schedule points |
| `CollateralReplay.ValidateEpochs` | frontend/src/lib/morphoPoints.ts:71-76 | accepts exactly the non-empty ordered epoch lists |
| `CollateralReplay.ReplayEvent` | frontend/src/lib/morphoPoints.ts:134-161 | one event moves the live positions from the states of a prefix to those of the next, or is refused with its fault |
| `CollateralReplay.OwnerIndependence` | frontend/src/lib/morphoPoints.ts:126-167 | replaying only an owner's events gives that owner the same result, and nobody else |
| `CollateralReplay.BalanceIsNet` | frontend/src/lib/morphoPoints.ts:145-161 | the replayed balance is the net of the owner's events |
| `CollateralReplay.ClampNeverReached` | frontend/src/lib/morphoPoints.ts:108-111 | every accepted removal is covered by the balance it is taken from |
| `CollateralReplay.CollateralConserved` | frontend/src/lib/morphoPoints.ts:126-167 | the owners' collateral adds up to supplies minus removals |
| `CollateralReplay.ReplayedWithinBase` | frontend/src/lib/morphoPoints.ts:126-167 | every replayed owner's points are at most twice the base integral; from time 0 its start never exceeds its stamp; from time 1 the points miss the integral by the floors only |
| `PointsRamp.ReplayFollowsRamp` | frontend/src/lib/morphoPoints.ts:126-167 | every replayed owner's points are the ramped sum over its own schedule, up to the floors |
| `CollateralReplay.NetBySums` | frontend/src/lib/morphoPoints.ts:153-160 | an owner's net is its supplies less its withdrawals and liquidations |
| `CollateralReplay.AcceptedExactly` | frontend/src/lib/morphoPoints.ts:134-158 | the histories accepted are exactly those in strict chain order, by `asOf`, unsigned and never overdrawn |
| `CollateralReplay.ReplayIgnoresLaterEpoch` | frontend/src/lib/morphoPoints.ts:126-167 | an epoch appended at or after `asOf` changes no owner's result |
| `CollateralReplay.ReplayNeverFalls` | frontend/src/lib/morphoPoints.ts:126-167 | no owner's points fall as `asOf` advances |
| `CuratorVaultMath.Accrue` | frontend/src/lib/curatorVaultMath.ts:16-33 | the slice loop computes the specified units and remainder |
| `CuratorVaultMath.AccruedSecondBySecond` | frontend/src/lib/curatorVaultMath.ts:16-33 | units times the denominator plus remainder equals what was carried plus principal times the current rate of every second |
| `CuratorVaultMath.SplittingIsExact` | frontend/src/lib/curatorVaultMath.ts:16-33 | any chain of split points with the remainder carried gives the one-shot units and remainder |
| `CuratorVaultMath.CurrentRateBps` | frontend/src/lib/curatorVaultMath.ts:85-89 | the loop finds the rate of the last epoch started |
| `CuratorVaultMath.ViewBetween` | frontend/src/lib/curatorVaultMath.ts:61-83 | past a boundary, claimable plus pending is exactly what is owed and accrued since the checkpoint, less an already payable part, plus an excess stored payable |
| `CuratorVaultMath.ViewCoupon` | frontend/src/lib/curatorVaultMath.ts:61-83 | the same at the month's own boundaries, for every time at which they can be computed |
| `CivilCalendar.MonthBoundaries` | frontend/src/lib/curatorVaultMath.ts:36-45 | for every time the boundaries bracket it exactly when its year is not one of 0 to 99, and where they throw |
| `CivilCalendar.NoBoundaryBetween` | frontend/src/lib/curatorVaultMath.ts:36-45 | no other first of a month lies between a time's boundaries |
| `CivilCalendar.MonthLengths` | frontend/src/lib/curatorVaultMath.ts:36-45 | the months have the calendar's lengths |
| `CivilCalendar.KnownMonth` | frontend/src/lib/curatorVaultMath.ts:36-45 | days are counted from 1970: the boundaries of a known time in November 2023 |
| `LogRanges.GetLogsExact` | frontend/src/lib/morphoPoints.server.ts:327-352 | with an RPC that truncates only long answers, a successful read is exactly what was requested of the range |
| `LogRanges.GetLogsWithinFilter` | frontend/src/lib/morphoPoints.server.ts:327-352 | with any RPC, only the contract's own unremoved logs of the range come back |
| `LogRanges.GetLogsCompletes` | frontend/src/lib/morphoPoints.server.ts:327-352 | when every request answers within the filter and no block is crowded, the recursion succeeds |
| `LogRanges.GetLogsWithin` | frontend/src/lib/pointsLeaderboard.server.ts:208-261 | the budgeted recursion succeeds exactly when the unlimited one does within the budget, with the same logs; each split it is charged for pays for one request |
| `LogRanges.ReadRange` | frontend/src/lib/pointsLeaderboard.server.ts:206-261 | one range costs at most MAX_SPLITS_PER_RANGE + 1 log requests with any RPC, returns only logs of the first source listed for their address, and is exact with an RPC that truncates only long answers |
| `LogRanges.ReadWholeExact` | frontend/src/lib/pointsLeaderboard.server.ts:208-261 | with such an RPC splitting and receipts give exactly the wanted logs, although the request asks for any address with any topic |
| `LogRanges.ReadWholeWithin` | frontend/src/lib/pointsLeaderboard.server.ts:243-257 | with any RPC, only unremoved wanted logs of the range come back |
| `LogRanges.BlockLogsExact` | frontend/src/lib/pointsLeaderboard.server.ts:289-309 | a crowded block read from its receipts gives exactly its wanted logs |
| `LogRanges.CrowdedBlockRead` | frontend/src/lib/pointsLeaderboard.server.ts:236-260 | a refused or crowded block succeeds exactly when its receipts are its own and no fewer than the answer, with their wanted logs |
| `LogRanges.ReadWholeCompletes` | frontend/src/lib/pointsLeaderboard.server.ts:208-261 | with a provider that never fails and keeps to the filter the unlimited reading succeeds if every single block does |
| `LogRanges.SourceListed` | frontend/src/lib/pointsLeaderboard.server.ts:246 | the source that decides on a log is the first listed for its address |
| `LogRanges.HalvesPartition` | frontend/src/lib/pointsLeaderboard.server.ts:215-222 | the two halves of a range hold together exactly the range's logs |
| `HistoryCommits.CommitsTile` | frontend/src/lib/morphoPoints.server.ts:533-607 | every scanned block lies in exactly one committed chunk |
| `HistoryCommits.BoundaryCommitted` | frontend/src/lib/morphoPoints.server.ts:538-546 | every full-chunk boundary passed was itself a commit point, wherever requests resumed |
| `HistoryCommits.GridReachesEveryOwner` | frontend/src/lib/morphoPoints.server.ts:594-601 | every known owner is due at the end of one of any 16 consecutive chunks |
| `HistoryCommits.GridConfirmsEveryOwner` | frontend/src/lib/morphoPoints.server.ts:594-602 | with backed commits every known owner's replayed collateral equals what the market holds at the end of one of any 16 consecutive chunks |
| `HistoryCommits.DueReadsBackCommit` | frontend/src/lib/morphoPoints.server.ts:586-602 | reading the due owners is enough for no owner to be credited with more than the market holds |
| `HistoryCommits.TouchedAndHeldAreDue` | frontend/src/lib/morphoPoints.server.ts:597-601 | whoever a chunk touches or leaves holding anything is read at its end |
| `HistoryCommits.CommitsAscend` | frontend/src/lib/morphoPoints.server.ts:533-607 | later commits lie after earlier ones and only extend their events |
| `MarketHistory.ReadChunk` | frontend/src/lib/morphoPoints.server.ts:547-565 | a chunk reads exactly when its logs lie in the range, and decodes to those logs in chain order |
| `MarketHistory.ApplyEvents` | frontend/src/lib/morphoPoints.server.ts:575-588 | the kept balances are the fold of the events and the owners their order of first sight; it fails exactly when a removal goes below zero |
| `MarketHistory.SelectDue` | frontend/src/lib/morphoPoints.server.ts:597-601 | the owners read are exactly those touched, held non-zero or on the chunk's grid phase |
| `MarketHistory.History.ExtendChunk` | frontend/src/lib/morphoPoints.server.ts:535-607 | a chunk is committed, whole, if and only if it reads, continues the history and every due owner's read is equal; otherwise the history is unchanged |
| `MarketHistory.History.ExtendCollateral` | frontend/src/lib/morphoPoints.server.ts:520-610 | at most 400 chunks a request, committed chunks kept, "not ready" only at the cap or deadline and after progress, any other failure only at a refused chunk, a finished scan reconciled at its target |
| `MarketHistory.History.TakeEpochs` | frontend/src/lib/morphoPoints.server.ts:478-490 | epoch logs are taken exactly when they continue the index without a gap |
| `MarketHistory.History.ExtendEpochChunk` | frontend/src/lib/morphoPoints.server.ts:469-493 | a chunk of epochs is kept exactly when it reads and continues the index; otherwise nothing changes |
| `MarketHistory.History.CountEpochs` | frontend/src/lib/morphoPoints.server.ts:496-507 | succeeds exactly when already counted where the scan stands or the ledger's count is equal |
| `MarketHistory.History.ExtendEpochs` | frontend/src/lib/morphoPoints.server.ts:467-508 | at most 400 chunks a request, "not ready" only at the cap or deadline and after progress, any other failure only at a refused chunk or count; success means counted where the scan stands |
| `MarketHistory.History.ReconcileAt` | frontend/src/lib/morphoPoints.server.ts:613-643 | succeeds only when every owner's read equals its expected collateral; an integrity failure means a read that contradicts itself or the expectation, a transport failure one unanswered |
| `MarketHistory.History.ReconcileSnapshot` | frontend/src/lib/morphoPoints.server.ts:658-662 | succeeds exactly when the last chunk was reconciled there or every owner's read is equal; with truthful reads no owner exceeds what the market holds |
| `MarketHistory.History.Replayed` | frontend/src/lib/morphoPoints.server.ts:657-670 | a snapshot exists exactly when the history replays and reconciles, and its collateral is the balances kept chunk by chunk |
| `MarketHistory.History.ExtendTo` | frontend/src/lib/morphoPoints.server.ts:650-656 | succeeds exactly when market and wiring are verified and both histories have reached the block, the epochs counted |
| `MarketHistory.History.BuildSnapshot` | frontend/src/lib/morphoPoints.server.ts:645-673 | succeeds exactly when the cached snapshot is new enough or the block is reached and what was reached replays and is confirmed; never above the market; the cached block never goes down |
| `MarketHistory.Server.HistoryFor` | frontend/src/lib/morphoPoints.server.ts:297-316 | the current history of the configuration, or a new one exactly when the backoff has passed |
| `MarketHistory.Server.DropHistory` | frontend/src/lib/morphoPoints.server.ts:291-295 | drops the history and starts the backoff, unless a newer one has replaced it |
| `MarketHistory.Server.BuildSnapshot` | frontend/src/lib/morphoPoints.server.ts:645-678 | only an answer that contradicts itself or the history drops it and starts the backoff; a transport failure means a read went unanswered and keeps everything committed |
| `SnapshotQueue.EveryRunServes` | frontend/src/lib/morphoPoints.server.ts:685-704 | under any interleaving every answer given is at or after its target and stays so, and at most one build runs |
| `SnapshotQueue.StepKeepsInv` | frontend/src/lib/morphoPoints.server.ts:291-316 | every step of requests, builds, failures and drops keeps the queue's invariant |
| `SnapshotQueue.OneBuildAtATime` | frontend/src/lib/morphoPoints.server.ts:692-695 | builds chained on the queue never overlap |
| `SnapshotQueue.CachedBlockNeverFalls` | frontend/src/lib/morphoPoints.server.ts:645-704 | no history's cached snapshot block ever goes down |
| `SnapshotQueue.DropStartsBackoff` | frontend/src/lib/morphoPoints.server.ts:291-302 | after a drop no run makes a new history before the backoff has passed |
| `SnapshotQueue.FinishServes` | frontend/src/lib/morphoPoints.server.ts:666-694 | once a build succeeds, in every continuation each request promised it has been given a block at or after its target, and its history keeps a covering snapshot |
| `SnapshotQueue.RejectedOnlyByItself` | frontend/src/lib/morphoPoints.server.ts:297-302 | in every run a build is rejected only by its own failure or by starting inside the backoff |
| `SnapshotQueue.ArriveExactly` | frontend/src/lib/morphoPoints.server.ts:685-700 | a request is answered at once from a covering snapshot, joins a covering build in flight, or gets one new build behind the last |
| `SnapshotQueue.StartExactly` | frontend/src/lib/morphoPoints.server.ts:297-316 | outside the backoff a starting build is served by a covering snapshot or runs on the current history, made new if there is none |
| `SnapshotQueue.FailExactly` | frontend/src/lib/morphoPoints.server.ts:674-677 | a failing build rejects its callers and drops only its own still-current history, only for an integrity failure |
| `SnapshotQueue.DroppedForGood` | frontend/src/lib/morphoPoints.server.ts:291-316 | a dropped history never becomes current again |
| `Leaderboard.RankLeaderboard` | frontend/src/lib/pointsLeaderboard.server.ts:532-605 | every row's rank is one more than the ranked wallets with strictly more points, and every bucket's figures are those of exactly its wallets |
| `Leaderboard.BoardIndependentOfOrder` | frontend/src/lib/pointsLeaderboard.server.ts:531-605 | the order the candidates come in cannot show in the board |
| `LeaderboardBuckets.RankedExactly` | frontend/src/lib/pointsLeaderboard.server.ts:550-578 | the ranked wallets are exactly those credited with at least the floor, at no venue, not blocked and not the company's own, each once |
| `LeaderboardBuckets.RowsExactly` | frontend/src/lib/pointsLeaderboard.server.ts:551-594 | each row shows its wallet's own credit in its three parts, and the total is theirs |
| `LeaderboardBuckets.RanksExactly` | frontend/src/lib/pointsLeaderboard.server.ts:581-584 | a rank is one more than the entitled wallets with strictly more credit |
| `LeaderboardBuckets.RowsInOrder` | frontend/src/lib/pointsLeaderboard.server.ts:579 | rows come best first, ties by address |
| `LeaderboardBuckets.FiguresExactly` | frontend/src/lib/pointsLeaderboard.server.ts:556-602 | the blocked, own and below-floor figures and every venue line, by the tests in their order |
| `Leaderboard.EveryPointCounted` | frontend/src/lib/pointsLeaderboard.server.ts:550-577 | the points of the five buckets add up to the total of the three inputs |
| `Leaderboard.VenueLinesAddUp` | frontend/src/lib/pointsLeaderboard.server.ts:555-602 | the venue lines exceed the points at venues by what repeated keys repeat, and equal them exactly when no repeated key has points |
| `Leaderboard.SortIntoBuckets` | frontend/src/lib/pointsLeaderboard.server.ts:550-577 | the candidates loop puts each wallet in the one bucket its inputs determine |
| `Leaderboard.AssignRanks` | frontend/src/lib/pointsLeaderboard.server.ts:579-594 | equal totals share a rank, otherwise the rank is the place |
| `Leaderboard.AboveIsPrefix` | frontend/src/lib/pointsLeaderboard.server.ts:578-583 | in the sorted rows the wallets with strictly more points are exactly those before the first row of equal points |
| `Leaderboard.AccountsForTotals` | frontend/src/lib/pointsLeaderboard.server.ts:461-512 | the check of three totals, curators over five classes, passes on the ledger's own totals if and only if no wallet, curator or class left unread tracks anything |
| `Leaderboard.TotalsProveDiscovery` | frontend/src/lib/pointsLeaderboard.server.ts:499-512 | the sums over what was read equal the ledger's three totals exactly when nothing was missed |
| `UniswapV4Liquidity.NestedRoundUp` | frontend/src/lib/uniswapV4Liquidity.ts:212-226 | two nested round-ups are one round-up over the product |
| `UniswapV4Liquidity.FitsCap` | frontend/src/lib/uniswapV4Liquidity.ts:212-226 | a liquidity fits a first-token cap if and only if it does not exceed the closed form |
| `UniswapV4Liquidity.QuoteIsLeast` | frontend/src/lib/uniswapV4Liquidity.ts:212-255 | at every price the quote is the least of each token the liquidity needs between the clamped price and the range's ends |
| `UniswapV4Liquidity.DoublingNeverRuns` | frontend/src/lib/uniswapV4Liquidity.ts:264-272 | the search's first bound is already too large |
| `UniswapV4Liquidity.Search` | frontend/src/lib/uniswapV4Liquidity.ts:264-280 | doubling and bisection return the closed form |
| `UniswapV4Liquidity.MaxLiquidityForUsdc` | frontend/src/lib/uniswapV4Liquidity.ts:257-282 | succeeds exactly for an in-range price whose closed form is positive, and returns it |
| `UniswapV4Liquidity.BuildPilotPlan` | frontend/src/lib/uniswapV4Liquidity.ts:284-300 | the pilot spends at most its cap, one more unit of liquidity would exceed it, and its second-token maximum is the tight bound over all prices |
| `UniswapV4Liquidity.BuildRemainderPlan` | frontend/src/lib/uniswapV4Liquidity.ts:302-331 | exactly when it is accepted, and that pilot plus remainder reach the target within both total caps |
| `UniswapV4SusdfrLiquidity.MaximumLiquidityForAmount0` | frontend/src/lib/uniswapV4SusdfrLiquidity.ts:146-172 | the closed form, exactly for admissible bounds |
| `UniswapV4SusdfrLiquidity.BuildSusdfrSeedPlan` | frontend/src/lib/uniswapV4SusdfrLiquidity.ts:190-227 | a sized seed always passes the release check, stays within its cap and could not be one unit larger |
| `UniswapV4SusdfrLiquidity.BuildSusdfrWallPlan` | frontend/src/lib/uniswapV4SusdfrLiquidity.ts:229-260 | seed and wall together stay within the total cap, up to the last unit of liquidity |
| `TransparencyHistory.WireRoundTrip` | frontend/src/lib/transparencyHistory.ts:100-177 | parsing undoes printing for exactly the histories with non-negative figures and positive safe class ids; all others are refused |
| `TransparencyHistory.OnlyPrintedFormsParse` | frontend/src/lib/transparencyHistory.ts:124-177 | whatever parses carries the printed form of the history it parses to |
| `TransparencyHistory.ParseTransparencyHistoryResponse` | frontend/src/lib/transparencyHistory.ts:142-177 | the parser's loop agrees with its specification, errors included |
| `TransparencyHistory.SummarizeTransparencyHistory` | frontend/src/lib/transparencyHistory.ts:58-98 | accepts exactly the complete events; its totals equal the sums of its class slices |
| `TransparencyHistory.SummaryReachesPage` | frontend/src/lib/transparencyHistory.ts:58-177 | a summary of unsigned events with proper class ids reaches the page unchanged |
| `TransparencyHistory.ClassIsLast` | frontend/src/lib/transparencyHistory.ts:69-81 | a token's class is that of its last origination |
| `TransparencyHistory.FeeTotalsAdd` | frontend/src/lib/transparencyHistory.ts:50-56 | fee totals add up over any split of the events |
| `Decimal.ValueOfPrint` | frontend/src/lib/transparencyHistory.ts:131-136 | a printed non-negative integer is an accepted decimal string of that value |
| `Decimal.PrintOfValue` | frontend/src/lib/transparencyHistory.ts:131-136 | an accepted decimal string is the print of its value |
| `Book.CalculateHistoricalNetDefaultMetrics` | frontend/src/lib/book.ts:280-328 | accepts exactly non-negative items; per-class totals, rates and insertion order as specified |
| `Book.TotalsAreSliceSums` | frontend/src/lib/book.ts:280-328 | the totals equal the sums of the slices over pairwise distinct classes |
| `LossRates.RatesExact` | frontend/src/lib/book.ts:306-327 | every published rate is its own loss over its own funding in basis points, rounded down, and absent exactly without funding |
| `Book.OccurrencesOfKeys` | frontend/src/lib/book.ts:306-310 | collecting the classes of the two maps keeps the order of first naming over all inputs |

## Left out

- SpareUnitsExact: ranges over all snapshots that project a market, not only over readings; for readings the exact condition is that of `QuoteHoldsExactly`, which keeps the two markets fixed.
- ExtraCheckpoints: requires times from 1 on and rates of at most one raw point per raw share and day, the ledger's own range; the zero-time case is settled by `CheckpointNeverGainsExactly` for one checkpoint.
- GetLogsWithinFilter: the market reader checks address, range and removal only, so topics are not part of what comes back with an arbitrary RPC; its decoders, which refuse other topics, are not part of this model.
- BuildSnapshot: which check fails first is stated of its stages, not of the whole build; the RPC answers of one request are a function of the question, and headers, market and wiring reads are reduced to whether they succeed.
- WireRoundTrip: starts from the JSON value, so the JSON text layer and the rounding of `Number()` on class ids beyond 2^53 are not modelled.
- `extendDiscovery` and `discoverTo` of the leaderboard: the same chunk scan as the market history's with less state.
- `loadMorphoCollateralPoints`, `loadPointsLeaderboard`, `servePointsLeaderboard`: per-wallet reads, response caching and stale answers around the modelled cores.
- `sqrtPriceAtTick`: its results are given as prices with 0 < lower < upper.
- Negative times in the maturity blend, where `bigint` division truncates: block times are not negative.
- Iteration order of the replay's output and the letter case of its owners: owners are already normalised.
- Error texts are shortened, and errors of concurrent reads are reported in list order.
- Fee-ABI resolution, receipts and permit encoding, address checksums, hashes: library code.
- The moving approval ceiling of `repaymentQuote`, formatters, slippage parsing and quote clocks: single expressions that keep no state and that no other modelled operation reads.
- React components, wallet and Safe code, environment parsing, the Solana and Solidity programs: not part of this model.

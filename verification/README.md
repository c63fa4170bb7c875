# Verified model of the candle pipeline

A Dafny model of a system that ingests one-minute candles from an exchange, moves them through a partitioned log into a
table, and backtests a moving-average strategy on what is stored. It proves what the pieces promise over every run, and,
where a promise does not hold, exactly when it does. `dafny verify dfyconfig.toml` checks the whole project.

| part | files |
|---|---|
| shared values and arithmetic | `Market.dfy`, `Arithmetic.dfy` |
| table and first-writer-wins insert | `Database.dfy` |
| writer: state machine, single turns, safety, progress, the loop itself | `WriterModel.dfy`, `WriterTurns.dfy`, `WriterSafety.dfy`, `WriterProgress.dfy`, `Writer.dfy` |
| REST pagination | `Fetch.dfy` |
| ingester: state machine, proofs, the handler itself | `IngesterModel.dfy`, `IngesterProofs.dfy`, `IngesterHoles.dfy`, `Ingester.dfy` |
| ingester, log, writer and table together | `EndToEnd.dfy` |
| frame, indicators, signal | `Frame.dfy`, `Indicators.dfy`, `Signals.dfy` |
| simulation, its ledger, its trades | `Simulation.dfy`, `Ledgers.dfy`, `Trades.dfy` |
| metrics, runner and its report | `Metrics.dfy`, `Runner.dfy`, `Reports.dfy` |
| sweep: choice, safety, results | `Sweep.dfy`, `SweepSafety.dfy`, `SweepExample.dfy`, `SweepResults.dfy` |
| API queries and coverage | `Queries.dfy` |

Code that works by changing things (the consume loop, the insert, the ingester, pagination, validation, the simulation
loop, Wilder smoothing, the sweep) is written as methods and classes, each proved equal to a function of its inputs and
old state; the properties are then proved of those functions. Timestamps are integers in milliseconds (microseconds where
a `now` is rounded), money is `real`, and rounding a quantity down to eight places is kept.

## Assumptions about the outside

- Consumer client: a poll returns messages from the client's position on, per partition; `commit()` commits all positions;
  `seek_to_committed()` goes to the committed offset, or to 0 where there is none. The last part is a flag of the model
  (`World.rewinds`), because the client is not part of this repository: `StuckPositionLosesRow` shows what goes wrong
  without it, and `CanRewind` says when it does not matter.
- Broker: logs only grow, and all candles of a symbol sit in one partition, as the producer's key arranges.
- Database: an insert is one transaction; a failed one may be kept, dropped, or still in flight and committed at any later
  time. The staging table is read in copy order. Rows the database always rejects exist (`Refused`).
- Exchange: a REST answer is in order and starts no earlier than asked (`Ordered`). Where completeness matters it holds the
  first 1000 rows of the range from a book of candles at least a minute apart (`Serves`). Where holes are charged to their
  causes its rows start whole minutes, and the websocket sends a symbol's closed minutes one after another while a
  connection lasts (`Consecutive`).
- A decoder error outside the caught list exists (`Fatal`), for example the `OverflowError` of a time-zone conversion.

## Where code and documentation part

- The writer is documented to skip malformed messages instead of crash-looping on them. `DrainableIff` gives the exact
  condition: it gets past everything except messages that decode to a row the database rejects and messages whose decoding
  raises an error that is not caught; past one of those it never drains (`NeverPasses`; one such row suffices,
  `OneRefusedRowBlocks`).
- The ingester is documented to heal gaps. A gap is looked at only when a candle parses after a reconnect:
  `HolesArePermanent` proves that a minute the topic lacks once `_last_ts` has moved past it stays missing. `HoleHasCause`
  charges every such minute to its own message, which did not parse or was not delivered, or to a heal over it, whose
  request failed, whose answer lacked it or whose publish of it was not delivered. `HoleIffLeftOut` gives the exact
  condition at the one event that moves `_last_ts` past the minute: a later candle arrives while the topic lacks the minute,
  and the reconnect flag is down or the heal fails for it. `OneFailedRequestLeavesHole` is the shortest such run.
- A sweep checks that a slow window fits the in-sample part only. `NeverRaisesIff` gives the exact condition, on grid and
  in-sample runs, under which no Sharpe ratios make it raise after choosing; `NeverRaisesIffCandidatesFit` is its plain form
  for grids whose curves differ, and `GridDecides` needs the split alone. The shipped grid and ratio are safe from 67197
  candles on (`DefaultGridFitsIff`), and `SweepRaises` gives candles on which a sweep raises.
- Coverage reports `returned` against `expected`. `HourlyCoverageIff` proves when an hourly page stays within `expected` for
  every table of whole minutes, exactly; `MinuteCoverage` gives the exact count of a minute range without holes, which is
  one less than `expected` for some unaligned starts.
- `simulate` on its own accepts a position series that starts long: `StartingLongLosesAll` proves that it then ends with
  nothing, or with the untouched capital if it never exits. `PlanIsSound` proves that no run of the runner produces such a
  series.

## Model

| member | source | states |
|---|---|---|
| `Database.CandleTable.InsertCandles` | src/crypto_pipeline/writer/db.py:9-26 | a committed insert leaves the first-writer-wins merge of the batch, a rolled-back one leaves the table; the count is that of the distinct new keys |
| `Database.MergeLookup` | src/crypto_pipeline/writer/db.py:21-24 | per key: what was stored before, or else the first staged row |
| `Database.MergeConcat` | src/crypto_pipeline/writer/db.py:16-24 | batch boundaries do not matter |
| `Database.ReplayAddsNothing` | README.md:114-115 | rows whose keys are stored change nothing, whatever their values |
| `Database.InsertedCount` | src/crypto_pipeline/writer/db.py:12-26 | the two row counts differ by the number of distinct new keys |
| `Writer.WriterConsumer.DecodeBatch` | src/crypto_pipeline/writer/consumer.py:46-64 | the candles of all partitions in order, skipping caught errors, or nothing when an error escapes |
| `Writer.WriterConsumer.Turn` | src/crypto_pipeline/writer/consumer.py:42-79 | one turn of the loop is one step of the state machine, for every batch and every outcome of insert and commit |
| `Writer.WriterConsumer.Run` | src/crypto_pipeline/writer/consumer.py:41-79 | a process life is a run of the state machine up to where it stops |
| `Writer.WriterConsumer.constructor` | src/crypto_pipeline/writer/consumer.py:17-41 | a new process starts at the committed offsets, or 0, with nothing written |
| `WriterTurns.TurnStopsIff` | src/crypto_pipeline/writer/consumer.py:48-73 | a turn ends the process exactly when an error escapes from decoding, the process is cut inside the insert, or the commit raises, whether or not it landed |
| `WriterTurns.TurnStoresIff` | src/crypto_pipeline/writer/consumer.py:65-67 | the table takes the batch exactly when the insert returns, or is kept although it failed |
| `WriterTurns.TurnCommitsIff` | src/crypto_pipeline/writer/consumer.py:65-73 | offsets move exactly when the insert returned and the commit reached the broker, in every partition to where the poll ended |
| `WriterTurns.TurnReadsOn` | src/crypto_pipeline/writer/consumer.py:65-72 | a process that goes on reads on where the poll ended, or after a failed insert at the committed offsets |
| `WriterTurns.RestartResumes` | src/crypto_pipeline/writer/consumer.py:17-41 | a new process has written nothing and starts at the committed offsets, or 0; everything else is as it was left |
| `WriterSafety.MergeFetch` | src/crypto_pipeline/writer/consumer.py:43-70 | re-reading a stretch from at or below what is stored leaves the table of the log read that far |
| `WriterSafety.StepKeepsInv` | src/crypto_pipeline/writer/consumer.py:42-79 | the invariant over log, offsets, table and inserts in flight survives every step |
| `WriterSafety.Confluence` | src/crypto_pipeline/writer/consumer.py:42-79 | after any polls, retries, failed commits, late inserts, crashes and restarts, a drained writer leaves the table of one in-order pass |
| `WriterSafety.RunsAgree` | src/crypto_pipeline/writer/consumer.py:42-79 | two drained runs over the same log leave the same table |
| `WriterSafety.CommitSafety` | src/crypto_pipeline/writer/consumer.py:43-74 | in every reachable state each candle below a committed offset is stored with its first value, and between committed offset and position lie skipped messages only |
| `WriterSafety.CommitFollowsWrite` | README.md:119 | offsets change only in a turn whose insert returned, when its candles are stored, and to where the poll ended |
| `WriterSafety.TableOnlyGrows` | src/crypto_pipeline/writer/db.py:21-24 | no run changes or removes a stored candle |
| `WriterSafety.LateCanCommit` | src/crypto_pipeline/writer/consumer.py:66-72 | in every state of the invariant an insert in flight can commit |
| `WriterSafety.StuckPositionLosesRow` | src/crypto_pipeline/writer/consumer.py:68-72 | with a client that does not rewind a never-committed partition, a new deployment can drain and commit past a candle that is not in the table |
| `WriterProgress.NeverPasses` | src/crypto_pipeline/writer/consumer.py:48-72 | no run from a blocking message past the committed offset ever drains |
| `WriterProgress.DrainableIff` | README.md:79-81 | a reachable state can be drained without new messages if and only if nothing past a committed offset blocks |
| `WriterProgress.OneRefusedRowBlocks` | README.md:79-81 | a log of one row the database rejects is never drained, by any run |
| `WriterProgress.BoundedWork` | src/crypto_pipeline/writer/consumer.py:42-79 | turns that read, plus what is left, are at most what was unread plus one log per setback |
| `WriterProgress.Drains` | src/crypto_pipeline/writer/consumer.py:42-79 | over a fixed log, every run with honest polls and more turns than its unread messages and setbacks account for has drained on the way |
| `WriterProgress.ReachesInOrderPass` | src/crypto_pipeline/writer/consumer.py:42-79 | and its table is then that of one in-order pass |
| `WriterProgress.WrittenAccounts` | src/crypto_pipeline/writer/consumer.py:65-74 | table growth is `written` plus the rows of inserts that were not reported, so never less |
| `WriterProgress.WrittenIsGrowth` | src/crypto_pipeline/writer/consumer.py:65-74 | without a kept failed insert, a late commit or a broken offset commit, `written` is exactly the growth |
| `WriterProgress.ReplayInsertsNothing` | README.md:114-115 | once all keys of the log are stored, no run from any offsets changes the table |
| `Fetch.LastCompleteMinuteIsClosed` | src/crypto_pipeline/backfill/fetch.py:58-60 | a whole minute, over at `now`, whose successor is not |
| `Fetch.FetchPages` | src/crypto_pipeline/backfill/fetch.py:23-30 | the loop ends and returns all pages, or the first request error |
| `Fetch.FetchRange` | src/crypto_pipeline/backfill/fetch.py:19-33 | pages, in-progress check and parsing are `FetchSpec` |
| `Fetch.OnlyClosedCandles` | src/crypto_pipeline/backfill/fetch.py:31-33 | checking the last row covers all: what is returned is closed by `end`, in order, without duplicates, even if the exchange overruns |
| `Fetch.RefusedIffOverrun` | src/crypto_pipeline/backfill/fetch.py:31-33 | an answer is refused exactly when some row of it is not over yet, and the error names the latest row |
| `Fetch.FetchIsAllOrError` | src/crypto_pipeline/backfill/fetch.py:19-30 | the result is all rows of all requests, each a minute after the last row before it, or the error of the last request and nothing else |
| `Fetch.ServesIsOrdered` | src/crypto_pipeline/backfill/fetch.py:36-55 | an exchange that serves a book meets what the loop needs |
| `Fetch.NextPage` | src/crypto_pipeline/backfill/fetch.py:28 | asking again one minute after a row gives exactly the rows after it |
| `Fetch.PagesAreComplete` | src/crypto_pipeline/backfill/fetch.py:23-30 | the pages are the book's rows in the range, none twice, none skipped |
| `Fetch.FetchIsComplete` | src/crypto_pipeline/backfill/fetch.py:19-33 | the result is every candle from `start` to the last complete minute before `end`, in order |
| `Fetch.FetchedAreRows` | src/crypto_pipeline/common/parse.py:9-20 | each row of the range comes back as one candle, in order, with its time, open, high, low, close and volume |
| `Fetch.FullRange` | src/crypto_pipeline/backfill/fetch.py:19-33 | of a book without holes, the rows of a range are its minutes |
| `Ingester.BinanceIngester.Publish` | src/crypto_pipeline/ingester/stream.py:166-188 | acknowledged, lost, or delivered without the producer knowing |
| `Ingester.BinanceIngester.HealGap` | src/crypto_pipeline/ingester/stream.py:123-164 | fetch and publish of the missing minutes, any failure included, up to where the process is stopped |
| `Ingester.BinanceIngester.HandleMsg` | src/crypto_pipeline/ingester/stream.py:106-121 | handling one message is one step of the state machine |
| `Ingester.BinanceIngester.Connected` | src/crypto_pipeline/ingester/stream.py:82-86 | a connection raises the flag of every configured symbol |
| `Ingester.BinanceIngester.Run` | src/crypto_pipeline/ingester/stream.py:82-121 | a process life is a run of the state machine |
| `IngesterProofs.HealContiguity` | src/crypto_pipeline/ingester/stream.py:111-147 | when nothing fails for a symbol, its topic is first, first + 1 min, ..., last in order, across any reconnects and even if the process is stopped inside a heal, and last is remembered |
| `IngesterProofs.LastTsIsMaximum` | src/crypto_pipeline/ingester/stream.py:173-176 | in every run `_last_ts` is the greatest acknowledged timestamp and `published` the number of acknowledged publishes |
| `IngesterProofs.RunRemembers` | src/crypto_pipeline/ingester/stream.py:173-176 | and `_last_ts` never decreases |
| `IngesterProofs.CountersBalance` | src/crypto_pipeline/ingester/stream.py:109-153 | kept is published plus what failed to parse or publish, live and healed, short only by a heal the process was stopped in |
| `IngesterProofs.ReceivedIsCounted` | src/crypto_pipeline/ingester/stream.py:106-111 | every message is counted as received, whatever becomes of it |
| `IngesterProofs.StepFlag` | src/crypto_pipeline/ingester/stream.py:118-121 | a candle that parses lowers the flag, however its heal ends, unless the process is stopped on the way |
| `IngesterProofs.PublishesRows` | src/crypto_pipeline/ingester/stream.py:137-147 | a heal publishes rows of the exchange from between the two candles, with all their values, and nothing else |
| `IngesterHoles.HoleIffLeftOut` | src/crypto_pipeline/ingester/stream.py:118-164 | a minute is a hole at the end exactly when the event that moves `_last_ts` past it is a later candle, the topic lacks the minute then, and the flag is down or the heal fails for it |
| `IngesterHoles.MinuteIsPassed` | src/crypto_pipeline/ingester/stream.py:173-176 | every minute after the first acknowledged candle, up to the last, is passed by an event of the run |
| `IngesterHoles.HoleHasCause` | src/crypto_pipeline/ingester/stream.py:111-176 | every hole after the first acknowledged candle has an event of the run where its own message failed to parse or be delivered, or a heal over it failed, lacked it or failed to deliver it |
| `IngesterHoles.HolesArePermanent` | src/crypto_pipeline/ingester/stream.py:118-135 | a hole is never filled in the life of the process |
| `IngesterHoles.FailedHealLeavesHole` | src/crypto_pipeline/ingester/stream.py:118-164 | after a heal whose request fails, every missing minute before the new candle is a hole and the flag is down |
| `IngesterHoles.OneFailedRequestLeavesHole` | src/crypto_pipeline/ingester/stream.py:118-164 | minute 0, a reconnect, minute 2 with the REST source down: minute 1 is a hole |
| `IngesterProofs.OnlyFinalized` | README.md:116-118 | whatever reaches the topic, live or healed, is closed |
| `EndToEnd.EveryMinuteOnce` | src/crypto_pipeline/ingester/stream.py:106-176 | for every reconnect pattern and every run of the writer, the table holds each minute from first to last published candle, with that candle, and no other key of the symbol |
| `EndToEnd.DrainedHoldsTopic` | src/crypto_pipeline/writer/consumer.py:42-79 | after any failures of the ingester, a drained table holds the first candle of each key in the topic |
| `EndToEnd.BackfillClosed` | src/crypto_pipeline/backfill/__main__.py:55-58 | backfill with an end no later than now stores closed candles only |
| `EndToEnd.OnlyFinalizedStored` | README.md:116-118 | so does the whole pipeline |
| `Frame.PrepareCandles` | src/crypto_pipeline/backtest/frame.py:7-62 | validation in the order of the source, prices by timestamp, gap count |
| `Frame.AcceptedIff` | src/crypto_pipeline/backtest/frame.py:11-49 | exactly the lists of one symbol, sound candles, rising timestamps and, unless allowed, no gaps are accepted |
| `Frame.AcceptedIsUsable` | src/crypto_pipeline/backtest/frame.py:50-62 | the frame holds each bar's timestamp, open and close |
| `Frame.FaultIsFirst` | src/crypto_pipeline/backtest/frame.py:16-24 | the error names the first faulty candle |
| `Frame.ErrorIs` | src/crypto_pipeline/backtest/frame.py:11-49 | which error a list that is not accepted raises, in the order of the checks, with the number of irregular steps where those are all that is wrong |
| `Frame.InfoIsOfCandles` | src/crypto_pipeline/backtest/frame.py:46-60 | what a frame says about itself: symbol, interval, first and last timestamp, length, irregular steps |
| `Frame.GapsAreCounted` | src/crypto_pipeline/backtest/frame.py:46-49 | the reported count is the number of irregular steps |
| `Indicators.SmaRolls` | src/crypto_pipeline/backtest/indicators.py:4-7 | the window sum moves by the value entering and the value leaving |
| `Indicators.SmaWithin` | src/crypto_pipeline/backtest/indicators.py:4-7 | an average lies within any bounds of its window |
| `Indicators.Wilder` | src/crypto_pipeline/backtest/indicators.py:26-31 | the overwritten, smoothed tail is the Wilder average from `window` on |
| `Indicators.WilderRecurrence` | src/crypto_pipeline/backtest/indicators.py:30 | the new average weighs the old one window − 1 times |
| `Indicators.WilderSeed` | src/crypto_pipeline/backtest/indicators.py:27-29 | the average starts as the plain mean of the first changes |
| `Indicators.ChangeSplits` | src/crypto_pipeline/backtest/indicators.py:13-15 | a change is gain less loss, neither is negative, and one of them is zero |
| `Indicators.ComputeRsi` | src/crypto_pipeline/backtest/indicators.py:10-23 | formula and overwritten masks are one case distinction |
| `Indicators.RsiOfBounds` | src/crypto_pipeline/backtest/indicators.py:18-22 | RSI is the share of gains in gains and losses, 50 when there are neither, and mirrors when they swap |
| `Indicators.RsiRangeAndSymmetry` | src/crypto_pipeline/backtest/indicators.py:10-31 | defined from `window` on, within [0, 100], and 100 minus itself for the negated series |
| `Indicators.RsiIsShare` | src/crypto_pipeline/backtest/indicators.py:10-23 | RSI times the sum of both averages is 100 times the average gain; 50 when both are zero |
| `Indicators.RsiExtremes` | src/crypto_pipeline/backtest/indicators.py:10-31 | 100 for a series that has only risen, 0 for one that has only fallen, 50 for one that has not moved |
| `Signals.CrossoverAcceptsIff` | src/crypto_pipeline/backtest/signals.py:5-16 | the guards pass exactly for 1 <= fast <= slow <= length |
| `Signals.CrossoverError` | src/crypto_pipeline/backtest/signals.py:7-15 | which guard complains: nothing to average, a window longer than the series, or windows the wrong way round |
| `Signals.CrossoverIsSignal` | src/crypto_pipeline/backtest/signals.py:18-19 | long at a bar exactly when the fast mean of the closes before it is above the slow one; 0/1, flat at first |
| `Signals.CrossoverLooksBack` | src/crypto_pipeline/backtest/signals.py:18-19 | positions up to a bar depend on the closes before it |
| `Simulation.Simulate` | src/crypto_pipeline/backtest/simulation.py:16-94 | the loop computes the ledger, the trade list with an open position last, and the curve |
| `Ledgers.EquityCurveIsLedger` | src/crypto_pipeline/backtest/simulation.py:80-90 | the sparse list, reindexed and forward-filled, is cash plus quantity times close after each bar, from the capital to `final_cash` |
| `Ledgers.CurveTimesDistinct` | src/crypto_pipeline/backtest/simulation.py:34-36 | the list can be reindexed: bar 0 never trades, timestamps rise |
| `Ledgers.LedgerIsOk` | src/crypto_pipeline/backtest/simulation.py:38-66 | long means no cash, flat means no quantity, neither is negative, trades alternate, pnl and fees telescope, after every bar |
| `Ledgers.TradesAddUp` | src/crypto_pipeline/backtest/simulation.py:38-80 | capital plus listed pnl is the cash at the last flat moment; the listed fees are all fees |
| `Ledgers.TradesPriced` | src/crypto_pipeline/backtest/simulation.py:41-65 | trades are recorded at the opens of their bars |
| `Ledgers.TradesEnterFrom` | src/crypto_pipeline/backtest/simulation.py:41-47 | no trade is entered before the first long bar |
| `Trades.BuyBar` | src/crypto_pipeline/backtest/simulation.py:97-104 | a buy pays the fee rate on all cash and puts the rest, leaving none, into the most of the asset in steps of 1e-8 that the fill price allows |
| `Trades.BoughtIsUnique` | src/crypto_pipeline/backtest/simulation.py:103 | there is only one such quantity |
| `Trades.SellBar` | src/crypto_pipeline/backtest/simulation.py:107-114 | a sale turns all of the asset into its worth at the fill price less the fee rate on it |
| `Trades.FeesAreRateOfTurnover` | src/crypto_pipeline/backtest/simulation.py:38-66 | the fees of a run are the fee rate times the cash put into each buy and the worth of each sale |
| `Trades.TradesAreRoundTrips` | src/crypto_pipeline/backtest/simulation.py:38-78 | the k-th closed trade is the k-th round trip of the positions: times and opens of its bars, what it sells is what it bought, the fee rate on both ends, cash after less cash before; an open position is listed last |
| `Ledgers.EquityNonNegative` | src/crypto_pipeline/backtest/simulation.py:80-90 | equity never falls below zero |
| `Ledgers.StartingLongLosesAll` | src/crypto_pipeline/backtest/simulation.py:48-53 | every 0/1 series that starts long ends with nothing, or with the capital exactly if it never exits, and pays no fee |
| `Ledgers.BuyBounds` | src/crypto_pipeline/backtest/simulation.py:97-104 | the cash a buy leaves behind is at least 0 and below 1e-8 of the asset at its fill price |
| `Ledgers.Conservation` | src/crypto_pipeline/backtest/simulation.py:38-114 | capital plus price gains is final cash plus fees, slippage and dust, and each dust is bounded |
| `Ledgers.CostMonotonicity` | src/crypto_pipeline/backtest/simulation.py:38-114 | dearer trading or less capital never raises final cash, nor equity at any bar, despite rounding |
| `Ledgers.LedgerLooksBack` | src/crypto_pipeline/backtest/simulation.py:38-66 | the ledger after a bar depends on positions, timestamps and opens up to it |
| `Metrics.DrawdownIsWorstPair` | src/crypto_pipeline/backtest/metrics.py:19-24 | the running-peak form is the worst loss between any two bars, and is attained |
| `Metrics.DrawdownRange` | src/crypto_pipeline/backtest/metrics.py:19-24 | within [-1, 0]; -1 exactly when the series touches zero, 0 exactly when it never falls |
| `Metrics.WinRateRange` | src/crypto_pipeline/backtest/metrics.py:35-40 | none exactly without closed trades, within [0, 1], 1 exactly when all closed trades won |
| `Metrics.WinRateIsShare` | src/crypto_pipeline/backtest/metrics.py:35-40 | the win rate times the number of closed trades is the number of those with a profit |
| `Runner.PlanIsSound` | src/crypto_pipeline/backtest/runner.py:37-44 | every accepted run hands the simulation a usable frame and a 0/1 signal, flat for the slow window |
| `Runner.EntriesAfterWarmUp` | src/crypto_pipeline/backtest/runner.py:37-44 | every listed trade is entered at the open of a bar with the whole slow window before it |
| `Runner.RunsIff` | src/crypto_pipeline/backtest/runner.py:26-64 | a run is accepted exactly when the frame prepares, 1 <= fast <= slow <= number of candles, and no divisor is zero |
| `Runner.MetricsInRange` | src/crypto_pipeline/backtest/runner.py:44-62 | bounds of the reported equity, return and drawdown; the reported fees are those of the listed trades; a slow window as long as the data never trades |
| `Reports.RunsTheStrategy` | src/crypto_pipeline/backtest/runner.py:37-44 | the simulation of a run trades the crossover of its own candles' closes at their opens |
| `Reports.ReportsTheRun` | src/crypto_pipeline/backtest/runner.py:50-64 | initial capital, final equity, return, trade count, fees, win rate and Sharpe are those of the simulation, whose last equity value is the final one |
| `Reports.ReportsDrawdown` | src/crypto_pipeline/backtest/runner.py:54 | the reported drawdown is the worst loss between two bars of the run's equity, and is attained |
| `Reports.ReportsBenchmark` | src/crypto_pipeline/backtest/runner.py:45-60 | the benchmark is the capital bought once at the first open and sold once at the last close, with fee, slippage and rounding |
| `Reports.BenchmarkIsTrade` | src/crypto_pipeline/backtest/metrics.py:43-61 | as a trade it spans the first and last bar and pays the fee rate on what changes hands at both |
| `Reports.ErrorOfRun` | src/crypto_pipeline/backtest/runner.py:37-60 | a run that is not accepted raises what its preparation raises, and otherwise divides by zero |
| `Reports.PlanError` | src/crypto_pipeline/backtest/runner.py:37-42 | preparation raises the frame's error, then a window below one, then a window longer than the data, then windows the wrong way round |
| `Runner.NoLookAhead` | README.md:141-142 | lists that agree when a bar opens give the same positions and the same ledger after it |
| `Runner.PrefixTrades` | README.md:141-142 | closed trades of a prefix run are a prefix of the full run's |
| `Runner.LastCloseNeverTrades` | README.md:141-142 | the last close changes no trade and no fee |
| `Runner.BenchmarkMonotone` | src/crypto_pipeline/backtest/metrics.py:43-61 | the benchmark pays the same costs, monotonically |
| `Sweep.RunSweep` | src/crypto_pipeline/backtest/sweep.py:24-79 | the grid loop, the maximum and the evaluation are `Sweep` |
| `SweepResults.PartsAreTheCandles` | src/crypto_pipeline/backtest/sweep.py:17-21 | the two parts are the candles, cut once |
| `SweepResults.CutIsAtShare` | src/crypto_pipeline/backtest/sweep.py:20 | the cut is at the whole part of length times ratio; a ratio above one keeps everything in-sample |
| `SweepResults.CutFromTheEnd` | src/crypto_pipeline/backtest/sweep.py:20-21 | a negative ratio drops its share from the end |
| `SweepResults.EvaluatesTheRest` | src/crypto_pipeline/backtest/sweep.py:35-79 | a sweep that returns ran its windows on the candles up to the cut and evaluated them on the candles from there on |
| `SweepResults.ReportsTheRanking` | src/crypto_pipeline/backtest/sweep.py:49-79 | the ranking holds exactly the grid entries that fit, with their runs, best first; the choice has a Sharpe ratio, at least five trades, and the highest ratio of those |
| `SweepResults.WhyNoChoice` | src/crypto_pipeline/backtest/sweep.py:55-66 | which error a sweep that does not choose raises |
| `Sweep.SortIsDescending` | src/crypto_pipeline/backtest/sweep.py:68 | the ranking is the same entries, best first |
| `Sweep.SortIsStable` | src/crypto_pipeline/backtest/sweep.py:68 | sorting and filtering commute, so ties keep grid order |
| `Sweep.SelectionIsFirstEligible` | src/crypto_pipeline/backtest/sweep.py:58-69 | the chosen pair is the first eligible entry of the ranking and no eligible entry ranks higher |
| `Sweep.SelectionIgnoresOutOfSample` | README.md:146-148 | with the same in-sample part sweeps choose the same or fail to choose alike, and differ only in evaluating the choice |
| `Sweep.InSampleRuns` | src/crypto_pipeline/backtest/sweep.py:50-53 | every grid entry that is run with 1 <= fast passes the checks |
| `Sweep.SweepFailsIffTooShort` | src/crypto_pipeline/backtest/sweep.py:71 | the evaluation raises exactly when the chosen slow window exceeds the out-of-sample part |
| `SweepSafety.ChoiceIsFirstBest` | src/crypto_pipeline/backtest/sweep.py:58-69 | the choice is the grid entry with the highest ratio, the first in the grid among equals |
| `SweepSafety.RaisesIffChoiceTooLong` | src/crypto_pipeline/backtest/sweep.py:50-71 | with given ratios a sweep raises exactly when the entry they choose does not fit |
| `SweepSafety.NeverRaisesIff` | src/crypto_pipeline/backtest/sweep.py:50-71 | no ratios make a sweep raise exactly when every entry that is tried, trades enough and is the first with its curve fits out-of-sample |
| `SweepSafety.NeverRaisesIffCandidatesFit` | src/crypto_pipeline/backtest/sweep.py:50-71 | where fitting and unfitting entries have different curves: exactly when every entry that is tried and trades enough fits |
| `SweepSafety.DefaultGridFitsIff` | src/crypto_pipeline/backtest/contracts.py:24-33 | the shipped grid and ratio fit from 67197 candles on, and not before, once the longest window is tried |
| `SweepExample.SweepRaises` | src/crypto_pipeline/backtest/sweep.py:71 | thirteen candles on which a sweep chooses windows and then raises |
| `SweepExample.ZigzagHasSharpe` | src/crypto_pipeline/backtest/metrics.py:27-32 | the in-sample run of that sweep has returns that differ, so its Sharpe ratio is a number |
| `Queries.VolumeIsConserved` | src/crypto_pipeline/api/queries.py:35-48 | bars carry exactly the volume of the rows |
| `Queries.BarsAreSound` | src/crypto_pipeline/api/queries.py:35-48 | bars of sound candles are sound, buckets strictly rise, highs and lows bound the rows |
| `Queries.BarIsItsRows` | src/crypto_pipeline/api/queries.py:35-48 | a bar's high and low are those of rows of its bucket and bound all of them; its volume is the sum over the bucket; its symbol is theirs |
| `Queries.EveryRowHasBar` | src/crypto_pipeline/api/queries.py:35-48 | every row falls into a bar of the answer |
| `Queries.BarEnds` | src/crypto_pipeline/api/queries.py:38-41 | a bar opens with the earliest row of its bucket and closes with the latest |
| `Queries.TruncatedIffMore` | src/crypto_pipeline/api/queries.py:33-54 | the page is the start of the answer and the flag is raised exactly when something is missing from it |
| `Queries.MinuteCoverage` | src/crypto_pipeline/api/routes.py:90-97 | never more rows than expected, and the exact count of a range without holes |
| `Queries.BarCoverage` | src/crypto_pipeline/api/routes.py:158-159 | bars number at most as many as the buckets the range touches: expected, or one more |
| `Queries.HourlyCoverageIff` | src/crypto_pipeline/api/routes.py:60-75 | the returned hourly bars stay within expected for every table exactly when start is not later in its hour than end, or inside the last minute of its hour, or the limit is no more than expected |

## Left out

- Kafka, websocket, HTTP and Postgres clients: only the named assumptions above; consumer-group rebalancing is not modelled, one consumer owns all partitions.
- Other inserters beside the writer: `written` and the confluence result are for a table only the writer fills; backfill appears in `EndToEnd.BackfillClosed`.
- JSON, `Decimal` and datetime text: a message either decodes to a candle or fails in one of three ways; character-level parsing is not modelled.
- Floating point and the 28-digit decimal context: statistics and divisions are exact reals; only the round-down of quantities is kept, and the float product `len * ratio` of the split is exact.
- NaN prices: a candle's numbers are reals, so the frame's NaN check is not modelled; NaN of an average is `None`.
- Sharpe: an arbitrary function of the equity curve; its square root and annualisation are not modelled.
- Metrics.MaxDrawdown: a value below a peak of exactly zero, which only a negative capital can reach, is skipped rather than counted as an infinite loss.
- SweepSafety.NeverRaisesIff: quantifies over all Sharpe ratios, because the computed one is not modelled beyond where it is a number; `SweepExample` has candles where it is and the sweep raises.
- Reconnect backoff, signal handling, timeouts, logging, command lines, dashboard, HTTP models and migrations: plumbing with easy claims only.
- Clocks: `now` is a parameter of the statements about closed candles.
- Pandas sorting and reindexing: `sort`, `max`, `reindex` and `ffill` are functions with the documented result, not the library's algorithms.

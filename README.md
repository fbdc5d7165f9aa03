# Real-time number simulation: a Dafny model

The modelled server runs one "round" per lottery slot. It chooses the next
active slot of the day, seeds a snapshot from today's unfinalized result
row, and broadcasts simulated values once a second. A daily cron job
finalizes the round. It publishes the stored result, marks the
result rows final and lets the loop move on to the next slot. The two
result modules read and update the `results` table.

The model has six modules over three shared ones:

- `LotteryTimes` (models/LotteryTime.js) covers slot selection. It picks
  the earliest active slot later than now, or wraps to the earliest
  active slot.
- `Results` (models/Result.js) and `ResultsController`
  (controllers/resultsController.js) cover the reads, ordered newest
  first. They also cover the two UPDATEs: every unfinalized row of a
  slot, in place over an array, and the `LIMIT 1` variant, which flips
  one row per call.
- `Simulation` (server.js) covers the pure computations: the jittered
  value, the two-character tick code and the cron expression.
- `Server` (server.js) models the coordinator as class `Coordinator`,
  with the module variables `simulationData`, `isFinalized` and
  `simulationInterval` as fields. The class also holds the two tables,
  the registered cron jobs, a log of every broadcast, and the calls of
  `finalizeResult` suspended at one of their queries. Each continuation
  (the code that runs when a query answers or a timer fires, up to the
  next `await`) that reads or writes shared state is one method, and a
  query's answer is read from the tables when its continuation runs. A
  few steps merge continuations that nothing else can observe; the
  "Left out" lines on `SelectNextSlot`, `Poll` and `FireCron` name them.
  So every interleaving of loop
  steps, cron firings, query answers and interval ticks is a sequence of
  calls. `Server.Run` replays any such sequence.
- `Options`, `Text`, `Clock` and `Query` are shared building blocks:
  an option type, `split`/`join` and decimal printing, `HH:MM:SS` times
  and the three SQL read shapes.

Representation choices:

- Prices are integer hundredths.
- `Math.random()` becomes a jitter factor counted in units of 10^-12,
  980000000000..1020000000000. That is fine enough for every hundredth
  within 2% of a base to be reachable, for bases up to fifty million
  (`Simulation.SimulatedReachesEveryValue`). For larger bases some
  hundredths are skipped.
- `toFixed(2)` rounding is half up on the exact product.
- The current time, today's date and query failures are parameters.
- A NULL or non-numeric database cell is `None`.

Three facts about server.js that the model follows:

- The tick code's second character is the last printed fraction digit
  of the simulated trade value. For 20000.37 it is `7`.
- A failed seeding query only logs. The snapshot stays as it was.
- Cron jobs are never cancelled, and the finalization guard is not tied
  to a slot.

Behaviours of the code that the model exhibits as proved statements:

- `finalizeResult` sets the flag before its first query. So its guard
  passes at most once per round, and each pass broadcasts at most one
  `final_result`. However firings and answers interleave, the log holds
  no more `final_result`s than rounds begun (`Server.Run`).
- The flag does not cover the query itself. The loop can reset the
  round while a SELECT is in flight. The `final_result` then lands in
  the next round, whose flag is clear (`Server.LateFinalAfterReset`).
  Until the UPDATE answers, a second job of the slot can pass the guard
  again, so one round can hold two `final_result`s
  (`Server.TwoFinalsInOneRound`).
- A job left over from an earlier slot can end the current round with
  its own slot's result (`Server.StaleJobEndsOtherRound`).
- The loop's reset does not clear the interval. A tick after the reset
  broadcasts values of the finalized slot
  (`Server.StaleIntervalTicksAfterReset`).
- The final UPDATE in server.js has no date filter. It also marks the
  slot's rows of other dates final (`Server.UpdateAnsweredPersists`).

## Model

| member | source | states |
|---|---|---|
| Clock.LexOrderAgrees | models/LotteryTime.js:18-22 | comparing two `HH:MM:SS` texts as strings is the same as comparing the times of day, both directions |
| Clock.FormatInjective | models/LotteryTime.js:18 | two different times never print as the same `HH:MM:SS` text |
| Query.Filter | models/Result.js:33 | the WHERE clause keeps exactly the matching rows, each as often as it occurs |
| Query.SortBy | models/LotteryTime.js:8 | ORDER BY returns a permutation of its input, sorted by the key |
| Query.FindFirst | models/Result.js:19-22 | `LIMIT 1` without ORDER BY returns a row that matches, and none exactly when no row matches |
| Query.HeadIsLeast | models/LotteryTime.js:22 | with `ORDER BY ... ASC LIMIT 1` the first row has the least key of all rows |
| LotteryTimes.LaterIsTextComparison | models/LotteryTime.js:18-22 | `lottery_time > currentTime` on `HH:MM:SS` text means the slot is strictly later in the day |
| LotteryTimes.GetActiveLotteryTimes | models/LotteryTime.js:6-14 | exactly the active slots, each as often as stored, in ascending time order |
| LotteryTimes.ReloadLotteryTimes | models/LotteryTime.js:42-44 | the same list as `getActiveLotteryTimes`: exactly the active slots, each as often as stored, sorted by time |
| LotteryTimes.GetNextLotteryTime | models/LotteryTime.js:17-39 | null exactly when no slot is active. Otherwise the result is a stored active slot: the earliest of those strictly later than now, or, when none is later, the earliest of all |
| LotteryTimes.SlotAtNowOnlyByWrap | models/LotteryTime.js:22-31 | a slot at exactly the current time is chosen only by the wrap, when no active slot is later |
| LotteryTimes.NextSlotTimeIsDetermined | models/LotteryTime.js:21-34 | any slot satisfying the selection rule has the same time as the chosen one |
| LotteryTimes.NextSlotExampleSameDay | models/LotteryTime.js:21-24 | slots at 09:00 and 14:00, at 10:00: the 14:00 slot |
| LotteryTimes.NextSlotExampleWrap | models/LotteryTime.js:26-31 | slots at 09:00 and 14:00, at 15:00: wraps to the 09:00 slot |
| Results.PendingCountZero | models/Result.js:47 | a slot has no unfinalized row exactly when its count of unfinalized rows is zero |
| Results.GetAll | models/Result.js:5-13 | all rows, each as often as stored, later dates first and later times first within a date |
| Results.GetUnfinalizedResultByLotteryTime | models/Result.js:16-27 | the four selected columns of some unfinalized row of the slot (of any date), and null exactly when there is none |
| Results.GetResultsByLotteryTime | models/Result.js:30-41 | exactly the slot's rows, each as often as stored, newest first |
| Results.FinalizeResultByLotteryTime | models/Result.js:44-55 | the array afterwards is the UPDATE applied to the old contents, and the method returns true exactly when some row of the slot was unfinalized |
| Results.FinalizeAllClearsSlot | models/Result.js:47 | after the UPDATE no row of the slot is unfinalized |
| Results.FinalizeAllFrame | models/Result.js:47 | rows of other slots and rows already final are unchanged; each unfinalized row of the slot changes only its flag |
| Results.FinalizeAllChangesIffPending | models/Result.js:47-50 | the table changes exactly when some row of the slot was unfinalized, which is what `affectedRows > 0` reports |
| Results.FinalizeAllIdempotent | models/Result.js:47-50 | a second UPDATE for the slot changes nothing, and the slot has no unfinalized row left |
| ResultsController.GetAll | controllers/resultsController.js:4-12 | all rows, each as often as stored, newest first |
| ResultsController.GetUnfinalizedResultByLotteryTime | controllers/resultsController.js:14-25 | a whole unfinalized row of the slot, and null exactly when there is none |
| ResultsController.GetResultsByLotteryTime | controllers/resultsController.js:27-38 | the model's query: exactly the slot's rows, each as often as stored, newest first |
| ResultsController.FinalizeResultByLotteryTime | controllers/resultsController.js:40-51 | returns true exactly when the slot had an unfinalized row. Then exactly one such row is flipped and the count drops by one; otherwise the array is unchanged |
| ResultsController.FinalizeOneDecrements | controllers/resultsController.js:43 | flipping one unfinalized row of the slot lowers the slot's count of unfinalized rows by exactly one |
| ResultsController.RepeatedCallsFinalizeOneEach | controllers/resultsController.js:42-46 | each call flips one more row and touches nothing else. After as many calls as there were unfinalized rows, the table equals the one-shot UPDATE of models/Result.js |
| Simulation.SimulatedBounds | server.js:117-118 | a simulated value lies within 2% of a non-negative base, up to half a hundredth of rounding |
| Simulation.SimulatedReachesEveryValue | server.js:117-118 | every hundredth within 2% of a positive base up to fifty million is the rounded value for some factor in range |
| Simulation.DefaultBaseBounds | server.js:104-105 | with the fallback bases 10000 and 20000 the values stay in [9800, 10200] and [19600, 20400] |
| Simulation.SplitNumber | server.js:119-120 | `toString().split('.')` gives the integer text, followed by the fraction digits when the value is not whole |
| Simulation.FirstDigitIsUnits | server.js:119 | the first code character is the units digit of the simulated set value's integer part |
| Simulation.SecondDigitIsLastFraction | server.js:120 | the second code character is the last printed fraction digit of the simulated trade value (the tenths digit when hundredths are zero), or `0` for a whole number |
| Simulation.TickCodeDigits | server.js:117-121 | the two-character code equals that arithmetic description |
| Simulation.TickCodeExamples | server.js:119-121 | 12345.00 with 20000.37, 20000.30 and 20000.00 give `57`, `53` and `50` |
| Simulation.CronOfSlotTime | server.js:134-135 | a slot time `HH:MM:SS` gives the cron expression `MM HH * * *` |
| Simulation.CronIgnoresSeconds | server.js:134-135 | two slot times in the same minute give the same cron expression |
| Text.JoinSplit | server.js:119-120 | splitting on a separator and joining back returns the original text |
| Server.LatestUnfinalized | server.js:75-83 | the seeding query answers with today's unfinalized row of the slot with the largest id, and with nothing exactly when there is none |
| Server.SeedOfLatest | server.js:85-96 | the seed is the placeholder when no row is found. Otherwise it holds the newest such row's values, with missing prices as 0, a missing code as `--`, and the slot time |
| Server.FinalCountAppend | server.js:192 | the `final_result` count of two logs joined is the sum of their counts |
| Server.Resumed | server.js:172-195 | when one suspended call resumes, the others keep their order, and one fewer waits for a SELECT exactly when the resumed call did |
| Server.BeginPassesOnce | server.js:166-168 | the start of `finalizeResult` sets the flag, broadcasts and writes nothing, and adds a call waiting for its SELECT exactly when the flag was clear |
| Server.SecondBeginIsNoop | server.js:166 | a second `finalizeResult` before the flag is reset, for any slot, changes nothing |
| Server.SelectAnsweredBroadcastsOnce | server.js:172-202 | an answered SELECT leaves the flag as it is and broadcasts at most one `final_result`, only by using up a call waiting for its SELECT. With a row found, it broadcasts a row's values and awaits the UPDATE; otherwise the call ends |
| Server.UpdateAnsweredPersists | server.js:195-202 | a successful UPDATE leaves no unfinalized row of the slot, of any date; a failed one leaves the table; neither broadcasts or touches the flag |
| Server.UninterruptedFinalization | server.js:164-195 | with nothing in between, a finalization with the flag clear and today's row present broadcasts one `final_result` with that row's values and then leaves no unfinalized row of the slot |
| Server.Coordinator.constructor | server.js:21-23 | start-up state: `{}` snapshot, flag clear, no interval, nothing scheduled, broadcast or in flight |
| Server.Coordinator.SelectNextSlot | server.js:42-48 | the loop asks for the next slot; with none it stays to retry without seeding or simulating; when the query throws the loop ends |
| Server.Coordinator.FetchUnfinalizedData | server.js:73-100 | on an answer the snapshot is the seed of the newest unfinalized row of today or the placeholder; a query error leaves it unchanged |
| Server.Coordinator.StartSimulation | server.js:103-130 | broadcasts `simulation_start` and replaces any live interval with one for the slot, whose bases are the seed values or 10000 and 20000 when those are missing or zero |
| Server.Coordinator.ScheduleFinalization | server.js:133-141 | registers one daily job at the slot's minute and hour, keeping every earlier job |
| Server.Coordinator.Seed | server.js:53 | the snapshot becomes the seed from the chosen slot's newest unfinalized row of today, with the slot's time, or stays as it was when the query throws |
| Server.Coordinator.StartAndSchedule | server.js:56-61 | starts the simulation only if no job finalized the round meanwhile, then registers the job and waits |
| Server.Coordinator.Poll | server.js:61-65 | the wait ends exactly when the flag is set, and then the flag is cleared, the snapshot reset to the placeholder and a new round begun; the interval is left running |
| Server.Coordinator.IsResultAvailable | server.js:150-161 | true exactly when today has an unfinalized row of the slot; false when the query throws |
| Server.Coordinator.FinalizeResult | server.js:164-172 | the start of `finalizeResult`: nothing when the flag is set; otherwise the flag is set before any query and the call suspends on its SELECT, one more guard pass |
| Server.Coordinator.ResumeFinalize | server.js:172-202 | the SELECT answers from the table as it is then: with today's unfinalized row, that row becomes the snapshot, is broadcast and the call awaits its UPDATE; on no row or an error the call ends; the flag is not checked again |
| Server.Coordinator.ResumePersist | server.js:195-202 | the UPDATE marks every row of the slot final, unless it throws, and the call ends |
| Server.Coordinator.FireCron | server.js:137-140 | a job starts a finalization of its own slot when today's result is available, whichever round is current; otherwise nothing changes |
| Server.Coordinator.Tick | server.js:111-129 | with the flag set the interval cancels itself and broadcasts nothing; otherwise it broadcasts the two jittered values of the captured bases and their code |
| Server.Coordinator.Connect | server.js:213-218 | a new client receives the snapshot exactly when it is not `{}` |
| Server.Run | server.js:40-70 | in any interleaving of loop steps, job firings, query answers, ticks and inserts, the guard passes at most once per round, so the log holds no more `final_result`s than rounds begun |
| Server.DoubleFiring | server.js:166-168 | two firings for the slot before the first SELECT answers (two registrations of the slot, from two days, firing in the same minute) give one `simulation_start` with the seed and one `final_result` with the row's values; the row ends final |
| Server.StaleJobEndsOtherRound | server.js:137-140 | a job of another slot firing while the loop waits ends the round; that slot's SELECT is still in flight as the loop moves on |
| Server.LateFinalAfterReset | server.js:144-192 | the loop resets the round while the SELECT is in flight, and the `final_result` is broadcast in the new round with the flag clear |
| Server.FinalWithinRound | server.js:137-192 | with the flag clear and the row still unfinalized, a job of the slot broadcasts a `final_result` and sets the flag, in the same round |
| Server.TwoFinalsInOneRound | server.js:137-195 | a late `final_result` and a second job of the same slot before the UPDATE give two `final_result`s in one round: both lie after the round's start in the log |
| Server.StaleIntervalTicksAfterReset | server.js:64-65 | after the reset the old interval, not cleared, broadcasts values of the finalized slot |

## Left out

- HTTP and transport: the Express app, CORS, static files and `server.listen`. This includes the `/api/finalized-results` handler, a read of today's final rows that is plumbing around one query, and the route files that map results to status codes.
- Socket.IO delivery: broadcasts are an append-only log, and a connection's greeting is a return value.
- Timing: the 1 s interval and polling, the 3 s and 5 s delays and cron's clock. Firings and ticks are explicit method calls in any order, and the wait is the flag test in `Poll`.
- Floating point: values are integer hundredths. `toFixed(2)` on the binary product can round a half-hundredth differently from the exact rule used here. `toString`'s exponent form (values of 1e21 and above) is not modelled.
- Finalized values as the database driver returns them (DECIMAL columns as text) are not distinguished from numbers.
- Server.Coordinator.Poll: one step covers the 1 s timer's continuation inside `waitForFinalization` (server.js:144-145) and, when the flag is set, the loop's reset after it returns (server.js:64-65). Only promise hops separate the two. A continuation that ran in that gap would find the flag already set, and has the same effect as running it just before the step, which the model allows.
- Server.Coordinator.FireCron: the job's resumption after `isResultAvailable` answers and the start of `finalizeResult` up to its SELECT are one step. In the source only promise hops separate them; other promise callbacks queued at that moment could run in between.
- Server.Coordinator.SelectNextSlot: one step covers the answers to both queries of `getNextLotteryTime` (models/LotteryTime.js:21 and :28) and the loop's resumption at server.js:42. Nothing else can observe the difference, because the step reads only the `lottery_times` table, which no modelled code writes, and changes only the loop's stage. When the query throws, the error leaves the loop and `init()`'s promise rejects unhandled. The model stops the loop there. Whether the Node process then exits is not modelled, and registered jobs and a live interval keep running in the model.
- Server.Run: promises no more `final_result`s than rounds begun, not at most one per round. server.js does not keep one per round (`Server.TwoFinalsInOneRound`).
- Server.LatestUnfinalized: the JOIN with `lottery_times` is not modelled. The slot's time is supplied by the caller, who took it from the same slot row.
- Results.GetUnfinalizedResultByLotteryTime, ResultsController.GetUnfinalizedResultByLotteryTime, ResultsController.FinalizeResultByLotteryTime: SQL does not fix which row `LIMIT 1` without ORDER BY picks. The contracts promise some matching row, not a particular one.
- Query.SortBy: rows with equal keys may come in any order in SQL. The contracts promise only sortedness and the multiset of rows.
- Database failures of the reads in models/Result.js and models/LotteryTime.js, and of the controller's three reads (controllers/resultsController.js:9-11, 22-24, 35-37) and its UPDATE, are logged and rethrown to the caller. The model functions do not return them as results.
- Results.FinalizeResultByLotteryTime: a failed UPDATE is logged and rethrown (models/Result.js:51-54). The model method has no failure case and always returns. Where server.js calls a query, its failure is a parameter of the calling step, `getNextLotteryTime`'s included (`Server.Coordinator.SelectNextSlot`).
- Logging and configuration.

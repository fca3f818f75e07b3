# A Dafny model of the KIO block I/O benchmark

KIO is a Linux kernel module that drives a block device with a configured workload and
prints statistics to the kernel log, plus a Python front end, `kio.py`, that configures it
through sysfs and reads the statistics back. This project models the module's logic in
Dafny 4.11 and proves properties of it for all inputs, all histories and all interleavings.
`dafny verify dfyconfig.toml` checks the whole project.

| file | models |
|---|---|
| `Common.dfy`, `Machine.dfy`, `Permutation.dfy`, `Text.dfy` | error numbers, fixed-width C arithmetic, counting under a permutation, decimal text |
| `Prandom.dfy` | the fallback random generator of `driver/kio_compat.h` |
| `Config.dfy`, `Limits.dfy`, `Launch.dfy`, `Lifecycle.dfy`, `Stores.dfy`, `Reach.dfy` | the validator and the sysfs operations of `driver/kio_config.c`, the thread start and stop of `kio_run` with its flag, and which module states histories come to |
| `Direction.dfy`, `Mix.dfy`, `Offset.dfy`, `Spread.dfy`, `Worker.dfy` | the burst automaton and the offset generator of a worker |
| `Protocol.dfy` | a worker and its completion handlers as a labelled step system, one atomic operation a step |
| `Accounting.dfy`, `Bounds.dfy`, `Drain.dfy` | what every run of that system keeps |
| `Follow.dfy`, `Timing.dfy` | that the I/Os of every run are those of the automaton and the generator, and its times those of the clock |
| `Witness.dfy`, `Exactly.dfy` | runs built step by step, and for which threads a signal breaks which bound |
| `Live.dfy` | that a worker is never stuck unless a submission failed |
| `Fleet.dfy` | all the workers of a run together with the module that waits for them |
| `Stats.dfy`, `Rates.dfy`, `Mean.dfy`, `Summary.dfy` | the statistics of `driver/kio_run.c` |
| `Pattern.dfy`, `Report.dfy` | the printed report and `Kio.parse_results` of `kio.py` |
| `EndToEnd.dfy` | results that join the parts |

The code updates in place what the driver updates in place: `Config.IsValid` rewrites the
thread array, `Lifecycle.KioConfig`, `Worker.KioThread`, `Prandom.Generator` and
`Stats.RunStats` are classes. Their methods are proved equal to specification functions, and
the laws are proved about those functions.

Main results: any 2^32 consecutive draws of the generator hold every 32-bit value once, so
any 2^32 consecutive bursts hold exactly `42949672 p + min(p, 96)` read bursts
(`Prandom.EveryValueOnce`, `Mix.ExactBurstMix`); the directions of a worker are whole bursts
(`Direction.BurstDecomposition`); the validator is idempotent and accepts exactly what is
allowed (`Config.ValidateIdempotent`, `Limits.ValidateExactly`); the sequential offsets have a
closed form, the random ones are spread evenly, and every offset of every run is accepted by
the device (`Offset.SequentialClosedForm`, `Spread.PlacesDifferByOne`,
`EndToEnd.RunInProgressIsSafe`); the I/Os of every run of the protocol are exactly those of
the automaton and the generator (`Follow.DirectionsOfRuns`, `Follow.SequentialOffsetsOfRuns`,
`Follow.RandomOffsetsOfRuns`); I/Os, pages and latencies are conserved in every
interleaving (`Accounting.Conservation`, `Accounting.EveryPageHasOneHome`,
`Accounting.LatencyIsComplete`); bursts do not mix in flight (`Bounds.BurstIsolation`); a
worker anywhere in its run, and a run with any number of workers, can come to its end exactly
if no submission failed (`Live.NoDeadlock`, `Fleet.ReturnsExactlyIfNoneFailed`); the
summary's latencies and bandwidth lie between those of the threads (`Stats.SummaryLatencies`,
`Rates.SummaryRates`), and its rates are true exactly under stated conditions
(`Summary.SummaryIopsExact`, `Mean.SummaryBandwidthExact`); what is printed is what is read
back (`EndToEnd.StatisticsReadBack`, `EndToEnd.FleetReadBack`).

Several promises do not hold of the code as it stands. The code is kept, and what holds
instead is stated exactly:

- A failed submission never takes back its increment of `dispatched`. The worker then hangs
  in its final wait and does not raise the emergency stop (`Drain.FailureHangs`,
  `Live.NoDeadlock`, `Witness.FirstSubmissionFails`), and its page is never freed. `kio_run`
  waits for it with the mutex held, so without a signal the run never returns and every
  thread attribute store is refused for ever (`Fleet.FailureHoldsModule`,
  `Fleet.ReturnsExactlyIfNoneFailed`, `EndToEnd.ModuleCanBeHeld`).
- A pending signal lets one I/O more than `queue_depth` through, for exactly those threads
  that do not drain between bursts, do not mix, or have a burst at least as long as their
  queue (`Bounds.QueueDepth`, `Exactly.QueueDepthExactly`). With `burst_finish` it can put a
  read and a write in flight together, for exactly those threads that mix
  (`Exactly.IsolationExactly`).
- A worker can end, with nothing dispatched, while a handler has yet to count its I/O
  (`Witness.EndsWithShortCount`).
- A sequential worker starts at offset 0. Its offsets stay at or above `offset_low` exactly
  when that is zero, and before its walk settles they are below it exactly where the multiple
  of the stride is below `offset_low` rounded up to a block (`Offset.SequentialStaysAboveLow`,
  `Offset.UnsettledFallsBelow`). Random and settled offsets stay at or above `offset_low`
  exactly when it is a multiple of the device's block size (`Offset.RandomStaysAboveLow`,
  `Offset.SettledStaysAboveLow`).
- Two returns of `kio_run` leave the running flag set, after which every store fails for
  good: those of a failed allocation and of a failed first thread (`Launch.FlagLeftExactly`,
  `Lifecycle.WedgedExactlyBy`, `Lifecycle.WedgedForever`, `Reach.WedgesExactly`). If a later
  thread cannot be started, its error value is handed to `kthread_stop`
  (`Launch.StopsExactly`). A failed thread creation frees the thread array but leaves
  `num_threads` set, which can never be undone (`Lifecycle.StrandedExactlyBy`,
  `Lifecycle.StrandedForever`, `Reach.StrandsExactly`).
- The running flag is cleared before the statistics are printed, so a thread attribute can
  change while they are (`Lifecycle.StoreDuringReport`).
- The summary's iops is divided by the number of threads on top of the summed runtime. It is
  the rate of the run exactly for a single thread or below one I/O per second
  (`Summary.SummaryIopsExact`); two threads of 1000 iops give a summary of 500
  (`Summary.SummaryBelowThreads`).
- The summary divides by the product of the summed runtimes and the thread count, which may
  wrap to zero (`Summary.ReportableExactly`): it does for 4096 threads of 2^40 ns, about 18
  minutes (`Summary.SummaryDividesByZero`), and cannot if the longest runtime times the square
  of the thread count is below 2^64 (`Summary.ReportableIfShort`).
- The printed bandwidths, of the threads and of the summary, are true exactly up to 4503599
  completions of each thread (`Rates.RunBandwidthExact`, `Mean.SummaryBandwidthExact`).
- The submission latency is timed from before the drain of `burst_finish`, so every such wait
  is part of it; a wait for other I/Os is, for exactly the threads that drain, mix and have
  room for two I/Os (`Exactly.DrainAlwaysCharged`, `Exactly.DrainChargedExactly`).

## Model

| member | source | states |
|---|---|---|
| `Prandom.Generator.constructor` | driver/kio_compat.h:213 | the static state starts at its literal seed |
| `Prandom.Generator.PrandomU32` | driver/kio_compat.h:211-215 | a call moves the 64-bit state one step along the orbit and hands out its low 32 bits |
| `Prandom.StateAfterAdd` | driver/kio_compat.h:214 | n draws after m draws are m + n draws |
| `Prandom.GeometricFactors` | driver/kio_compat.h:214 | for every k, 2^k divides the n-term geometric sum of the multiplier exactly when it divides n |
| `Prandom.ClosedForm` | driver/kio_compat.h:211-215 | the state after n draws is an explicit polynomial in the seed and a geometric sum, modulo 2^64 |
| `Prandom.FullPeriod` | driver/kio_compat.h:211-215 | for every k up to 64 the low k bits of two states of an orbit agree exactly when their positions agree modulo 2^k |
| `Prandom.DrawsDiffer` | driver/kio_compat.h:211-215 | two draws of an orbit are equal exactly when their positions agree modulo 2^32 |
| `Prandom.PeriodPermutes` | driver/kio_compat.h:211-215 | the first 2^32 draws from any state are a permutation of the 32-bit values |
| `Prandom.EveryValueOnce` | driver/kio_compat.h:211-215 | every 32-bit value is handed out at exactly one of any 2^32 consecutive positions |
| `Prandom.ValuesShift` | driver/kio_compat.h:211-215 | a later window of draws is the draws from the later state, so the period results hold of every window |
| `Prandom.FirstDraws` | driver/kio_compat.h:211-215 | the first three values handed out after the module is loaded |
| `Config.IsValid` | driver/kio_config.c:46-153 | the in-place validator leaves exactly the array and verdict of the specification, also where it stops half way; what those are is stated by the rows of Limits |
| `Config.ExceedsIsExact` | driver/kio_config.c:90-103 | the signed sum compared with the unsigned device size decides as the true sum does, up to and past LONG_MAX |
| `Config.CheckThreadIsExact` | driver/kio_config.c:55-150 | one iteration with C arithmetic, including the assignment of the cap, equals one on true integers |
| `Config.CheckThreadsIdempotent` | driver/kio_config.c:55-150 | the loop run again from any index on its own output repeats verdict and output |
| `Config.ValidateIdempotent` | driver/kio_config.c:46-153 | a second call is a no-op with the same answer, on acceptance and on rejection |
| `Config.ValidateMeaning` | driver/kio_config.c:46-153 | acceptance caps every offset_high at device size minus block size with 0 <= low < high; a rejection has at most capped some threads |
| `Limits.LimitsMeaning` | driver/kio_config.c:59-68 | the range tests pass exactly if every attribute, as it is shown, lies between the limits of a table |
| `Limits.PowerMeaning` | driver/kio_config.c:72-77 | the block size test passes exactly for the powers of two |
| `Limits.BurstsMeaning` | driver/kio_config.c:124-149 | the burst tests pass exactly if some direction has a burst length, and so has the direction of a thread that takes only one whatever the random value |
| `Limits.AlwaysIssues` | driver/kio_run.c:108-116 | the I/Os of such a thread do all go in that direction |
| `Limits.ValidateExactly` | driver/kio_config.c:46-153 | the verdict is true exactly for 1 to cpus threads, 1 to 3600 seconds, and threads within their limits with room for low < high on the device; then only offset_high changes, to fit |
| `Limits.RejectionLeaves` | driver/kio_config.c:55-150 | a rejection has capped the threads before the first bad one, that one if it got as far, and no later one |
| `Limits.GlobalsFirst` | driver/kio_config.c:52-53 | a bad number of threads or runtime is rejected with the threads untouched |
| `Lifecycle.StoreShowRoundTrip` | driver/kio_config.c:186-249 | a stored long is shown again exactly when it fits the field's width and sign |
| `Lifecycle.StoreKeepsOthers` | driver/kio_config.c:214-249 | storing one attribute leaves the other twelve as they were |
| `Lifecycle.StoreKeepsRepresentable` | driver/kio_config.c:231-246 | whatever long is stored, every field stays within its C type |
| `Stores.AttributesShown` | driver/kio_config.c:195-210 | each attribute shows the field it is named after |
| `Stores.AttributeOutcome` | driver/kio_config.c:214-249 | -ENODEV, the parser's error or success in that order; a success reaches one attribute of one thread and shows exactly what fits |
| `Stores.NumThreadsOutcome` | driver/kio_config.c:344-391 | -EEXIST once configured, -EINVAL outside 1 to cpus, -ENOMEM, the creation's own error, or new threads whose attributes all show zero |
| `Stores.ThreadsStoredOnce` | driver/kio_config.c:357-360 | after one such store every later one in every history gives -EEXIST, or -EBUSY while the flag is set |
| `Stores.RuntimeOutcome` | driver/kio_config.c:403-430 | -EOVERFLOW exactly outside 1 to 3600 seconds, which changes nothing |
| `Stores.RunOutcome` | driver/kio_config.c:442-472 | -ECHILD exactly without threads, -ENOEXEC exactly for a configuration that is not allowed, otherwise success, and a run exactly if all blocks have 4096 bytes |
| `Stores.FinishOutcome` | driver/kio_run.c:385-436 | what a run returns from the kernel's answers, and that the flag is cleared exactly unless it fails before its second thread |
| `Lifecycle.KioConfig.constructor` | driver/kio_config.c:479-484 | a loaded module has no threads, no runtime and no run |
| `Lifecycle.KioConfig.StoreNumThreads` | driver/kio_config.c:344-391 | the result and the whole new configuration for each refusal, for a failed allocation, for a failed thread creation and for success |
| `Lifecycle.KioConfig.StoreRuntimeSeconds` | driver/kio_config.c:403-430 | only the runtime changes, and only for 1 to 3600 seconds while nothing runs |
| `Lifecycle.KioConfig.StoreThreadVar` | driver/kio_config.c:214-249 | only the one attribute of the one thread changes; each error return changes nothing |
| `Lifecycle.KioConfig.EnterRun` | driver/kio_config.c:442-464 | refusals leave the flag clear; otherwise the validated array is in place and the flag is set unless some block is not 4096 bytes |
| `Lifecycle.KioConfig.FinishRun` | driver/kio_run.c:387-426 | the flag is cleared exactly if the run gets as far as stopping its threads; result, stopped threads and new state are those of the start and stop loops |
| `Launch.KioRun` | driver/kio_run.c:387-423 | allocation, start loop with its early return, alarm and stop loop, run on an array of workers, end as the recursive reading of those loops says |
| `Launch.StopAll` | driver/kio_run.c:419-423 | the stop loop visits every worker whose thread field is set, in order |
| `Launch.StartFromMeaning` | driver/kio_run.c:392-409 | the start loop starts every thread before the first error, records the error there, leaves the rest untouched, and leaves the function only for the first thread |
| `Launch.FlagLeftExactly` | driver/kio_run.c:385-408 | the flag survives the run exactly if the workers cannot be allocated or the first thread cannot be started |
| `Launch.SucceedsExactly` | driver/kio_run.c:387-417 | the run returns zero exactly if there is memory, every thread starts and no worker raises the alarm |
| `Launch.StopsExactly` | driver/kio_run.c:419-423 | the threads handed to kthread_stop are exactly those started and the one whose start failed, if that is not the first |
| `Launch.StopsInOrder` | driver/kio_run.c:419-423 | they are stopped in order and once each |
| `Launch.ResultExactly` | driver/kio_run.c:388-417 | the result is the error of the allocation, of the first thread that cannot be started, of an alarm, or zero |
| `Lifecycle.HistoryKeepsSound` | driver/kio_config.c:344-472 | every history keeps the array as long as num_threads, its fields representable, and the flag and phase consistent |
| `Lifecycle.RunsOnlyWhenReady` | driver/kio_config.c:442-472 | in every history from module load, a run in progress has a live, validated array of 4096-byte threads |
| `Lifecycle.NumThreadsChangesOnce` | driver/kio_config.c:357-360 | num_threads changes at most once in any history and never once it is set |
| `Lifecycle.FrozenWhileRunning` | driver/kio_config.c:220-221 | while the flag is set every store is refused with -EBUSY and no operation alters the configuration |
| `Lifecycle.WedgedExactlyBy` | driver/kio_run.c:385-408 | of all operations, the flag is left set without a run exactly by the return of a run whose allocation or first thread start failed |
| `Lifecycle.WedgedForever` | driver/kio_run.c:385-408 | from such a state nothing ever changes and every store fails with -EBUSY |
| `Lifecycle.StrandedForever` | driver/kio_config.c:322-335 | after a failed thread creation every later history refuses new threads with -EEXIST and runs with -ECHILD |
| `Lifecycle.StrandedExactlyBy` | driver/kio_config.c:375-383 | that state is entered exactly by a store in range, with memory, whose thread creation fails |
| `Lifecycle.ConfigurationHeldDuringRun` | driver/kio_run.c:385-425 | until the run returns, no sequence of stores changes anything |
| `Lifecycle.StoreDuringReport` | driver/kio_run.c:425-433 | while the report is printed a thread store succeeds exactly for an existing thread and a well-formed number, and then shows |
| `Reach.Configure` | driver/kio_config.c:214-430 | a history from module load stores any representable configuration of any number of threads the host allows |
| `Reach.RunningExactly` | driver/kio_config.c:442-472 | the runs that histories from module load come to are exactly those of validated configurations of 4096-byte threads |
| `Reach.RunsExactly` | driver/kio_config.c:442-472 | some history comes to a run, and some to a report, exactly on hosts with a processor and a device of more than 4096 bytes |
| `Reach.WedgesExactly` | driver/kio_run.c:385-408 | some history leaves the flag set for good exactly on those hosts |
| `Reach.StrandsExactly` | driver/kio_config.c:375-383 | some history strands the module exactly on hosts with a processor |
| `Direction.StepPaysBurst` | driver/kio_run.c:90-133 | a call issues one I/O of what is owed, or of a burst it starts when nothing is owed, in the direction the random value picks |
| `Direction.BurstDecomposition` | driver/kio_run.c:90-133 | issued directions followed by what the counters owe are exactly whole bursts of the configured lengths; at most one counter is in use |
| `Direction.RunIsPrefixOfBursts` | driver/kio_run.c:90-133 | the directions issued are a prefix of the reference sequence of whole bursts |
| `Direction.BurstAccounting` | driver/kio_run.c:118-127 | per direction, I/Os issued plus owed equal burst length times bursts started |
| `Direction.DirectionIsParity` | driver/kio_run.c:129-132 | the current direction is the parity of the changes reported; random values used are the bursts started |
| `Direction.MixedChangesStartBursts` | driver/kio_run.c:90-133 | a mixed workload changes direction only where a burst starts, so at most once per burst |
| `Direction.UnmixedChangesOnce` | driver/kio_run.c:108-116 | a one-direction workload starts no burst and reports one change if it writes, none if it reads |
| `Direction.UnmixedDirections` | driver/kio_run.c:108-116 | all its I/Os go in the direction of its mix |
| `Direction.BurstDelayBound` | driver/kio_run.c:248-257 | with burst_delay a worker sleeps at most once per burst, and at most once if it does not mix |
| `Direction.SleepsWithDelay` | driver/kio_run.c:248-257 | with burst_delay the sleeps are exactly the changes that lead to a direction with a sleep: the odd ones to writing, the even ones to reading |
| `Direction.SleepsWithoutDelay` | driver/kio_run.c:248-257 | without it they are all I/Os of the directions with a sleep |
| `Mix.SelectedSize` | driver/kio_run.c:120-121 | how many of 0 .. n-1 pass the test `rnd % 100 < p`, in closed form |
| `Mix.WindowCount` | driver/kio_run.c:118-127 | the read bursts of a later window are those of a run started from the generator's later state |
| `Mix.ExactBurstMix` | driver/kio_run.c:118-127 | any 2^32 consecutive burst choices hold exactly 42949672 p + min(p, 96) read bursts |
| `Mix.ExactReadCount` | driver/kio_run.c:118-127 | a run of exactly 2^32 bursts has issued, up to what is owed, read burst length times that many reads |
| `Direction.ReachesBursts` | driver/kio_run.c:90-133 | a worker that mixes comes to start any number of bursts, whatever the random values |
| `Mix.FullPeriodReached` | driver/kio_run.c:118-127 | every worker that mixes comes to the point where it has started 2^32 bursts and issued that many reads |
| `Offset.RoundDownAbove` | driver/kio_run.c:174-176 | rounding keeps a value at or above low when low is aligned, and low itself falls below when it is not |
| `Offset.WalkIsExact` | driver/kio_run.c:155-171 | for an accepted thread the walk with wrapping signed sums is the walk on true integers and stays inside the device |
| `Offset.SequentialClosedForm` | driver/kio_run.c:154-172 | the i-th sequential position is i strides until the walk settles, then low + ((i - settle) mod lap) strides |
| `Offset.SettlesSoon` | driver/kio_run.c:154-172 | the walk reaches low within high / stride + 1 calls and stays at or above it |
| `Offset.RunIsClosedForm` | driver/kio_run.c:135-179 | the offsets handed out by n calls of a fresh sequential worker are the closed form, rounded |
| `Offset.OffsetIsRounded` | driver/kio_run.c:135-179 | in both modes a call hands out a place where the I/O fits the device, rounded down, and only the sequential mode moves the walk |
| `Spread.RandomOffsetIs` | driver/kio_run.c:148-152 | if the 64-bit number of the two words is q windows plus k, the offset is low + k, rounded down |
| `Spread.HandsOutExactly` | driver/kio_run.c:148-176 | the offsets some pair of words leads to are exactly the blocks that meet the window |
| `Spread.PairsSize` | driver/kio_run.c:148-176 | the exact number of the 2^64 pairs that lead to a block |
| `Spread.EvenSpread` | driver/kio_run.c:148-176 | a block that covers c places is led to by c rounded-down shares, and at most c pairs more |
| `Spread.PlacesDifferByOne` | driver/kio_run.c:148-152 | any two places of the window are led to by equally many pairs, give or take one, and each by some |
| `Offset.OffsetSafety` | driver/kio_run.c:135-179 | every offset of an accepted 4096-byte thread is non-negative, aligned, inside the device and passes the check of kio_io_submit |
| `Offset.RandomStaysAboveLow` | driver/kio_run.c:148-176 | no pair of random words gives an offset below low exactly when low is aligned |
| `Offset.SettledStaysAboveLow` | driver/kio_run.c:154-176 | no settled sequential offset falls below low exactly when low is aligned |
| `Offset.UnsettledFallsBelow` | driver/kio_run.c:154-176 | before the walk settles the i-th offset is below low exactly if i strides are below low rounded up to a block |
| `Offset.SequentialStaysAboveLow` | driver/kio_run.c:154-176 | no offset of a fresh sequential worker is below low exactly when low is zero |
| `Offset.BackwardWalk` | driver/kio_run.c:159-171 | a negative stride, which no accepted thread has, walks down and skips a block where it would leave the window |
| `Offset.DegenerateOffsets` | driver/kio_run.c:141-146 | no device gives offset 0 and an empty window its only place, and neither moves the walk |
| `Worker.KioThread.constructor` | driver/kio_run.c:387-388 | workers start zeroed |
| `Worker.KioThread.NextDir` | driver/kio_run.c:90-133 | the in-place automaton refines the function and draws exactly when it starts a burst |
| `Worker.KioThread.Advance` | driver/kio_run.c:155-171 | the in-place walk refines the function |
| `Worker.KioThread.NextOffset` | driver/kio_run.c:135-179 | the in-place generator refines the function, which the rows of Offset and Spread pin in both modes, and takes two words from the generator exactly in random mode |
| `Worker.KioThread.Round` | driver/kio_run.c:219-220 | one round draws for the burst first and for the offset from where that leaves the generator |
| `Worker.KioThread.Generate` | driver/kio_run.c:196-220 | a fresh worker alone on the generator, in either mode, produces the reference run of directions over the values that fall to its bursts, and the offsets over the words in between |
| `Worker.SequentialRun` | driver/kio_run.c:154-172 | for a sequential worker those are consecutive values, and the offsets are the sequential run |
| `Accounting.StepKeepsSound` | driver/kio_run.c:181-288 | every step of worker, handler, clock, stop and signal keeps counters, pages, stages and clock in agreement |
| `Accounting.Conservation` | driver/kio_run.c:53-70 | in every reachable state the attempts are the dispatched, the completed and those between the two updates; no counter is negative |
| `Accounting.EveryPageHasOneHome` | driver/kio_run.c:211-242 | every page is freed at most once, and freed exactly when its handler is done or the stopped worker freed it; only the last attempt's page can be lost, to a failed submission |
| `Accounting.LatencyIsComplete` | driver/kio_run.c:59-63 | whoever sees dispatched at zero with no failure sees clat_total as the sum over all I/Os, while completed may lag by handlers between their updates |
| `Accounting.NoTimeNoLatency` | driver/kio_io.h:92-98 | an I/O without a start, or whose clock has not moved, adds nothing |
| `Timing.StartIsTrue` | driver/kio_io.c:225-226 | the start of an I/O is the clock at the step of the run that submitted it |
| `Timing.EndIsTrue` | driver/kio_run.c:59-60 | its end is the clock at the step in which its handler takes the time |
| `Timing.SlatIsTrue` | driver/kio_run.c:222-246 | slat_total is the sum, over the submissions returned, of the time from the choice of the I/O to the return |
| `Timing.RuntimeIsTrue` | driver/kio_run.c:194-267 | the runtime of an ended worker is the time from its start to the step that reads the clock last |
| `Timing.LeavesByExit` | driver/kio_run.c:196-263 | a worker leaves its loop at a step of the run by one of its exits and keeps that exit's result: zero if stopped, -ENOMEM, the submission's error, or -EINTR |
| `Timing.NoMemoryEnds` | driver/kio_run.c:211-217 | after a failed page allocation nothing more is allocated or submitted, and if the worker ends it raises the alarm with -ENOMEM |
| `Timing.StopsSoon` | driver/kio_run.c:196-232 | a worker told to stop dispatches at most one I/O more, and none unless it has passed its last test |
| `Timing.RefusedExactly` | driver/kio_io.c:209-214 | a submission is refused exactly if it does not fit the device or is not on a block boundary |
| `Follow.FollowsChoices` | driver/kio_run.c:219-236 | in every run the k-th I/O has the direction, the burst number and the offset of the worker's k-th choice |
| `Follow.DirectionsOfRuns` | driver/kio_run.c:219-236 | the directions of a run's I/Os are those of the automaton over the random values that picked its bursts, at most the last one missing |
| `Follow.BurstsOfRuns` | driver/kio_run.c:219-236 | so a mixing worker's I/Os are whole bursts but for the end of the last |
| `Follow.BurstNumbersOfRuns` | driver/kio_run.c:224 | the burst an I/O belongs to is the number of bursts the automaton had started with it |
| `Follow.SequentialOffsetsOfRuns` | driver/kio_run.c:154-176 | in every run the k-th I/O of a sequential worker is at the k-th place of the closed form, rounded down |
| `Follow.RandomOffsetsOfRuns` | driver/kio_run.c:148-176 | in every run the k-th I/O of a random worker is at the place its own two words stand for, rounded down |
| `Accounting.SubmissionWithinRuntime` | driver/kio_run.c:222-267 | a worker's summed submission latency never exceeds its runtime |
| `Bounds.StepKeepsDepth` | driver/kio_run.c:77-82 | each step keeps the depth bound that its place in the loop admits |
| `Bounds.QueueDepth` | driver/kio_run.c:203-234 | dispatched never exceeds queue_depth, plus one if a signal is pending |
| `Bounds.StepKeepsUniform` | driver/kio_run.c:219-236 | I/Os of one burst go in one direction |
| `Bounds.BurstIsolation` | driver/kio_run.c:224-236 | with burst_finish and no signal, any two dispatched I/Os belong to one burst and one direction, in every interleaving |
| `Bounds.EveryOffsetValid` | driver/kio_io.c:209-214 | no submission of an accepted thread is ever refused for its offset, whatever the random words and the interleaving; which offsets they are is stated by the rows of Follow |
| `Bounds.NoDepthNoThrottle` | driver/kio_run.c:77-82 | without a queue depth the throttle lets the worker through |
| `Live.BlockedExactly` | driver/kio_run.c:203-265 | a worker is held up exactly at the throttle while the queue is full, and at the drain and the final wait while something is dispatched, without a signal |
| `Drain.DrainingCountsDown` | driver/kio_run.c:265-276 | past the loop nothing is submitted and dispatched falls by exactly one per handler, so the wait is over after as many decrements as were outstanding |
| `Drain.FailureHangs` | driver/kio_run.c:234-242 | after a failed submission dispatched stays at least one for good and, without a signal, the worker stays in its final wait with no emergency stop |
| `Drain.EmergencyExactly` | driver/kio_run.c:280-285 | the emergency stop is raised exactly by a worker that ended with an error |
| `Drain.CanDrain` | driver/kio_run.c:53-70 | wherever the worker is, except inside a submission, and none has failed, handler steps alone bring dispatched to zero |
| `Drain.EndsExactlyIfNoneFailed` | driver/kio_run.c:265-287 | a worker in its final wait can end without a signal exactly when none of its submissions failed |
| `Drain.RunEndsExactlyIfNoneFailed` | driver/kio_run.c:265-287 | the same for the final wait of every run of a fresh worker |
| `Live.EndFrom` | driver/kio_run.c:196-287 | a stopped worker with no failed submission can come to its end from any statement |
| `Live.EndsExactly` | driver/kio_run.c:196-287 | a worker at any statement can end without a signal exactly if none of its submissions failed |
| `Live.NoDeadlock` | driver/kio_run.c:181-288 | the same for every state that any run of an accepted thread comes to |
| `Witness.Fill` | driver/kio_run.c:203-234 | every depth up to queue_depth, and up to one burst if the thread drains between bursts, is reached without a signal |
| `Witness.SignalOvershoots` | driver/kio_run.c:203-234 | a thread whose queue can be filled that way has a run in which a signal makes it one too many |
| `Witness.SignalMixesBursts` | driver/kio_run.c:224-236 | every mixing thread, whatever its burst lengths and depth, has a run in which a signal puts the last read of a burst and a write with the device together |
| `Witness.FirstSubmissionFails` | driver/kio_run.c:234-242 | for every accepted thread there is a run whose first submission fails and leaves one I/O dispatched in the final wait |
| `Witness.EndsWithShortCount` | driver/kio_run.c:62-69 | every accepted thread has a run that ends with nothing dispatched while a handler still has to count its I/O and free its page |
| `Exactly.QueueDepthExactly` | driver/kio_run.c:203-234 | some run dispatches more than queue_depth exactly if the thread has no burst_finish, does not mix, or has a burst at least as long as its queue |
| `Exactly.IsolationExactly` | driver/kio_run.c:224-236 | some run has a read and a write dispatched together exactly if the thread mixes, and with burst_finish only if a signal is pending |
| `Exactly.DrainChargedExactly` | driver/kio_run.c:222-246 | for every d, some run is charged exactly a drain wait of d for other I/Os as submission latency, exactly if the thread has burst_finish, mixes and has a queue_depth of at least two |
| `Exactly.DrainAlwaysCharged` | driver/kio_run.c:222-246 | in every run all time from any moment in the drain until the submission has returned is added to slat_total |
| `Fleet.FailureHoldsModule` | driver/kio_run.c:419-425 | for any number of workers and any interleaving, while one with a failed submission has no signal the run cannot return, the module is as it was and thread stores give -EBUSY |
| `Fleet.WorkerRun` | driver/kio_run.c:392-423 | in every run of the whole each worker goes through a run of its own, so what holds of single workers holds of each |
| `Fleet.ReturnsExactly` | driver/kio_run.c:419-433 | wherever its workers are, a run can come to its report without a signal exactly if no submission failed |
| `Fleet.ReturnsExactlyIfNoneFailed` | driver/kio_run.c:419-433 | the same for every state of every run that has not returned, with any number of accepted workers |
| `Fleet.ReturnMeaning` | driver/kio_run.c:411-433 | a run whose threads all started returns zero or -EINTR; -EINTR means that some worker ended with an error, and without one the run returns zero and reports |
| `Stats.RunStats.constructor` | driver/kio_run.c:429 | the totals start at zero |
| `Stats.RunStats.Thread` | driver/kio_run.c:300-335 | a thread's line and the totals it leaves, with the widths of their fields |
| `Stats.Measure` | driver/kio_run.c:304-317 | the guarded, statement-by-statement computation yields the figures of the line, zero where nothing completed or no time passed |
| `Stats.MeasureLatencies` | driver/kio_run.c:308-312 | the averages and their sum, all zero if nothing has completed |
| `Stats.MeasureRates` | driver/kio_run.c:349-353 | the two rates of the summary, or its division by zero |
| `Stats.MeasureTotal` | driver/kio_run.c:337-353 | the statement-by-statement computation of the summary yields its figures, or divides by zero exactly where runtime times threads wraps to zero |
| `Stats.Report` | driver/kio_run.c:428-433 | one line per thread in order, then the summary of their accumulated totals or its division by zero |
| `Stats.AccumulateIsExact` | driver/kio_run.c:328-334 | while the sums fit their fields the totals are the true sums |
| `Stats.AverageWithin` | driver/kio_run.c:308-347 | floor averages over all threads lie within any bounds on the threads' own floor averages |
| `Stats.SummaryLatencies` | driver/kio_run.c:342-347 | the summary's two latencies lie between the smallest and largest of the threads |
| `Rates.IopsExact` | driver/kio_run.c:314-315 | the iops of a 32-bit count is the true floor exactly when that floor fits 32 bits |
| `Rates.SummaryIops` | driver/kio_run.c:349-351 | the summary's iops lies between the threads' bounds divided once more by their number |
| `Rates.SummaryBandwidth` | driver/kio_run.c:349-352 | the summary's bandwidth lies between the threads' |
| `Rates.SummaryRates` | driver/kio_run.c:337-363 | the summary's bandwidth lies between the threads', its iops between the threads' divided by their number |
| `Rates.BandwidthExact` | driver/kio_run.c:316 | bytes per second of 4096-byte blocks are the true floor exactly up to 4503599 completions |
| `Rates.PrintedBandwidthExact` | driver/kio_run.c:316-326 | the printed thousandths of MB/s are the true floor exactly up to 4503599 completions |
| `Rates.RunBandwidthExact` | driver/kio_run.c:316-326 | every thread line of a run prints its true bandwidth exactly when no thread completed more |
| `Mean.SummaryBandwidthExact` | driver/kio_run.c:349-362 | the summary prints the mean of the threads' true bandwidths exactly when no thread completed more |
| `Mean.MeanWithinRounding` | driver/kio_run.c:316-352 | that mean, rounded per thread and once more, is less than two bytes per second below the mean in real numbers |
| `Summary.SummaryIopsIs` | driver/kio_run.c:349-351 | the summary's iops is the rate of the whole run divided once more by the number of threads |
| `Summary.SummaryIopsExact` | driver/kio_run.c:349-351 | it is the rate of the run exactly for one thread, or where the run completed less than one I/O per second |
| `Summary.SummaryBelowThreads` | driver/kio_run.c:349-351 | two threads that print 1000 iops each give a summary that prints 500 |
| `Summary.ReportableExactly` | driver/kio_run.c:349-351 | the summary's division is by zero exactly if the summed runtimes times the thread count is a positive multiple of 2^64 |
| `Summary.ReportableIfShort` | driver/kio_run.c:349-351 | it is not if the longest runtime times the square of the thread count is below 2^64 |
| `Summary.SummaryDividesByZero` | driver/kio_run.c:349-351 | it is for 4096 threads of 2^40 ns each, less than the longest run allowed |
| `Summary.AccumulateModulo` | driver/kio_run.c:328-334 | every total is the sum of its figures modulo the width of its field |
| `Summary.SummaryCount` | driver/kio_run.c:342 | the summary's count is the number of I/Os all threads completed, modulo 2^32 |
| `Summary.SummaryCountExact` | driver/kio_run.c:342 | it is that number exactly if that fits 32 bits |
| `Summary.SummaryLatencyAdds` | driver/kio_run.c:343-347 | the summary's latency is the sum of its parts exactly if that fits 64 bits |
| `Summary.ThreadFigures` | driver/kio_run.c:307-317 | a thread's line has its count, the rounded-down averages of its latencies and their sum, and no figure without a count or a runtime |
| `Summary.SummaryFigures` | driver/kio_run.c:342-353 | the same for the summary over the accumulated totals |
| `Summary.SmallBlocks` | driver/kio_run.c:316 | the bandwidth counts the bytes of the configured block |
| `Text.DecRoundTrip` | kio.py:162-164 | a number printed in decimal is read back by int() |
| `Text.FixedRoundTrip` | kio.py:165-169 | a number printed as whole part, point and three digits is read back by float() as the same thousandths |
| `Text.FloatExactly` | kio.py:165-169 | of a text of digits and points float() refuses exactly those without a digit or with more than one point |
| `Pattern.MatchIsInstance` | kio.py:156-157 | what the matcher finds is a match: the text is the pattern with its captures filled in |
| `Pattern.InstanceIsMatched` | kio.py:156-157 | every text of a delimited pattern is matched, with exactly its captures |
| `Pattern.MatchSplits` | kio.py:156-157 | no match reaches past a character that is in no literal and no class of the pattern |
| `Pattern.SearchSplits` | kio.py:160-172 | a search finds what stands in front of such a character, and only otherwise what stands behind it |
| `Pattern.FoundContains` | kio.py:156-157 | a text in which a match is found contains every literal of the pattern |
| `Pattern.SearchSkips` | kio.py:160 | a search passes over any prefix that lacks the pattern's first character |
| `Pattern.SearchFailsWithout` | kio.py:172 | a text that lacks a literal character of the pattern is matched nowhere |
| `Report.ParseResults` | kio.py:152-189 | on any lines a ValueError exactly if a matched number is malformed, or no line is a summary, or none a thread's; otherwise the last summary and the last entry of each thread mentioned |
| `Report.GatherLines` | kio.py:159-186 | the loop over the meanings of the lines, with the same outcome |
| `Report.OutcomeExactly` | kio.py:152-189 | the specification of the loop has that outcome for every log |
| `Report.LoneSummary` | kio.py:185-186 | a log of which only the summary is left is an error |
| `Report.PrintedLines` | driver/kio_run.c:319-362 | the text of a thread's line and of a summary, letter by letter, for one set of figures |
| `Report.MessageSplits` | kio.py:159-172 | what a line of the driver means behind any prefix is decided by the two parts alone |
| `Report.ThreadLineRead` | driver/kio_run.c:319-326 | behind any prefix a printed thread line reads back as that thread's figures, unless the prefix itself holds a thread line, whose meaning it then has |
| `Report.SummaryLineRead` | driver/kio_run.c:355-362 | behind any prefix a printed summary reads back as the summary, unless the prefix itself holds a report line, whose meaning it then has |
| `Report.IgnoredExactly` | kio.py:159-172 | a line is passed over exactly if neither pattern is found in it |
| `Report.OtherLineIgnored` | kio.py:156-157 | neither is found in a line without an opening parenthesis |
| `Report.UncountedLineIgnored` | kio.py:156-157 | neither is found in a line that does not contain the text completed= |
| `Report.ReportRoundTrip` | kio.py:152-189 | parsing any log whose prefixes and foreign lines hold no report line is an error exactly if it has no summary or no thread line, and otherwise gives the figures of the last summary and of the last line of each thread |
| `Report.ReportedByRun` | kio.py:152-189 | the threads read from a log of one run are exactly those it mentions, each with its own figures |
| `Report.RunReadBack` | kio.py:152-189 | a complete log of a run reads back as one entry per thread and its summary |
| `Report.StatusIgnored` | driver/kio_run.c:269-276 | behind any prefix the driver's status lines add nothing, although some begin like a thread's report line |
| `EndToEnd.RunInProgressIsSafe` | driver/kio_config.c:442-472 | in every sysfs history from module load and every interleaving of a worker of the run it started, all offsets are valid and at most 1024 I/Os, plus one on a signal, are dispatched |
| `EndToEnd.BoundReached` | driver/kio_run.c:203-234 | on every usable host a history from module load leads to a run that dispatches 1025 I/Os at once |
| `EndToEnd.ModuleCanBeHeld` | driver/kio_run.c:234-242 | on every usable host a history from module load leads to a run with a failed submission, which holds the module |
| `EndToEnd.TotalsNatural` | driver/kio_run.c:33-38 | no counter or total of an ended worker is negative |
| `EndToEnd.EndedWorkerIsDrained` | driver/kio_run.c:265-317 | a worker that ended drained counts all its I/Os, and its average submission latency times that count fits its runtime |
| `EndToEnd.StatisticsReadBack` | driver/kio_run.c:428-433 | parsing the complete log of a run yields exactly the statistics computed from its threads |
| `EndToEnd.FleetReadBack` | driver/kio_run.c:419-433 | after any run of any number of workers that all ended drained, the complete log reads back with exactly the number of its I/Os for each thread, and of all I/Os modulo 2^32 for the summary |
| `EndToEnd.DriverLogReadBack` | driver/kio_run.c:428-433 | the lines the driver prints, behind any prefixes that hold no report line, form a complete log and read back as the run |
| `EndToEnd.ParsedLatencyAdds` | driver/kio_run.c:308-312 | the latency read back is the sum of its two parts exactly when that sum fits 64 bits |

## Left out

- Opening the device, bio allocation, the three submit modes and partition remapping (`driver/kio_io.c`): a submission is taken, or refused with -EINVAL, -ENOMEM or -EIO.
- The remaining compatibility shims of `driver/kio_compat.h`, and the kernel's own generator on newer kernels; random words are inputs of the protocol.
- Kobject and sysfs registration: a thread's directory is its index, and a store to a missing thread is -ENODEV.
- Parsing of numbers written to sysfs: a parsed value or an error code is an input.
- The rest of `kio.py` (jobs, results, dmesg handling), the scripts, makefiles and packaging: they pass files and text along and decide nothing about a workload.
- Wall-clock time: the clock is any non-decreasing count of nanoseconds; sleeping is only counted, not its length, which for a short write sleep is the read sleep.
- Wait queues: a wait is a step that is enabled when its condition holds or a signal is pending; lost wakeups and the lifetime of a worker's queue are not modelled.
- Threads racing on the generator's static state: one worker at a time is modelled on it.
- 32-bit wrap-around of a worker's own atomic counters.
- What kthread_stop does with the error value of a thread that could not be started.
- Device sizes of 2^63 bytes and more.
- Lifecycle.KioConfig.EnterRun: validation and the setting of the flag are one step; a thread store that slips in between is not modelled.
- Rates.SummaryRates: supposes that the sums and the divisor fit their fields and that every thread ran for some time.
- Rates.PrintedBandwidthExact: supposes a runtime of at most 2^64 / 1000 ns, about 213 days; a run is configured for at most an hour.
- Mean.SummaryBandwidthExact: supposes runtimes of at most 2^64 / 1000 ns divided by the number of threads, and sums that fit their fields.
- Report.ReportRoundTrip: rounding of float() to binary is not modelled, numbers are exact decimals.
- Pattern.InstanceIsMatched: the matcher takes all it can for a group and does not backtrack, which suffices for patterns whose groups are followed by a literal that cannot continue them.
- Fleet.ReturnMeaning: the alarm that kio_run sees is tied to the workers in one direction only, as a worker may raise it after kio_run has looked.
- Fleet.FailureHoldsModule: speaks of one run; the workers of a later run are not part of it.

# Verified models of the resource control demo

Dafny models of seven stateful or arithmetic components of the resource control
suite (resctl-demo, rd-agent, rd-hashd, resctl-bench), with proofs of the
properties each component rests on. `dafny verify dfyconfig.toml` checks
everything.

How the files are organised:

| file | models |
|---|---|
| `Wrappers.dfy` | shared datatypes and the window arithmetic `at / step * step` |
| `ReportSource.dfy` | `ReportRing` and `ReportRingSet`: the cache of report files |
| `ReportData.dfy`, `ReportHistory.dfy` | `ReportData`: incremental bucketing for the graphs, against plain bucketing of the whole history |
| `ReportZeroBucket.dfy` | exactly when a fresh fill is wrong about the first bucket of time |
| `ReportAverages.dfy` | what a graph with averaging callbacks shows |
| `ReportDataSet.dfy` | `ReportDataSet`, per-second half: ring and graph composed over whole runs |
| `WorkQueue.dfy`, `WorkPool.dfy` | the worker pool: its dispatcher, and the protocol over every interleaving with the worker threads |
| `Saturation.dfy` | the memory saturation search: up-scan, bisection with re-verification, refine walk |
| `ConfigFile.dfy` | reloading a file that is replaced by rename, and the command barrier built on it |
| `Runner.dfy` | the agent's command state machine and its main loop |
| `ReportWindows.dfy` | report summaries over aligned windows, and file retention |
| `JobSpec.dfy` | job specs as text: parser and printer |
| `Jobs.dfy` | linking job specs to stored results, and the order of the stored results |
| `Packing.dfy` | merging report periods and walking them |
| `Pages.dfy` | page addressing of anonymous memory and test files |

Code that changes state is modelled by a class whose methods have the source's
loops and branches. Each method's contract ties the new state to a function of
the old one; what the source promises is then proved about that function, for
every run, as lemmas. Times, file contents, oracle answers, allocator answers and
the outcome of system calls are parameters. Floating point numbers are reals.

Where the code does less than one would expect of it, the model follows the code,
a lemma says when it does what is expected, and another gives an input or a run
where it does not:

- A fresh graph that reaches back to time zero, and finds samples of the first
  bucket but not the one that completes it, adds these samples to a later bucket
  (`ReportZeroBucket.FreshFillIff`, `ReportHistory.ZeroBucketLeaks`).
- A failed read of a changed file leaves the reader as stale as it was, and it
  stays so until the next save; a command barrier that waits for such a reader cannot
  return (`ConfigFile.CurrentIff`, `ConfigFile.StuckUntilSave`,
  `ConfigFile.BarrierReturnsIff`, `ConfigFile.StaleFromStart`).
- A benchmark completion advances the record if and only if the request is ahead of
  it, and ends the benchmark if and only if the results get written, so a failed
  copy makes a completion repeat (`Runner.CompletionIff`,
  `Runner.FailedCopyRepeatsCompletion`).
- After failed usage updates, the next report leaves behind exactly the stale files
  that had expired before the last failed window ended
  (`ReportWindows.FailedWindowsLeakFiles`, `ReportWindows.LeakFromStartup`).
- `id` and `passive` of a job spec are those of its last group, and are not printed:
  a spec comes back from its text if and only if it has neither and is printable
  (`JobSpecText.SpecRoundTripIff`, `JobSpecText.EarlierIdIsLost`).
- A graph that pauses for longer than the ring of files lasts shows an open bucket
  without what was published and expired meanwhile; it is exact as long as the ring
  reaches back to where the graph stopped reading
  (`ReportDataSets.SetShowsExactOrEmpty`, `ReportDataSets.PauseLosesSamples`).

## Model

| member | source | states |
|---|---|---|
| ReportSource.ReportRing.Update | resctl-demo/src/report_ring.rs:65-105 | one refresh drops what is older than the tail-aligned start and appends the files from just after the newest record up to the aligned now; nothing changes while there is no directory |
| ReportSource.ReportRingSet.Update | resctl-demo/src/report_ring.rs:145-147 | both rings are refreshed, the per-minute one for the time before the per-second one |
| ReportSource.ScanExact | resctl-demo/src/report_ring.rs:86-102 | a scan finds exactly the published records of its range that lie on the cadence |
| ReportSource.ScanSplit | resctl-demo/src/report_ring.rs:79-102 | scanning a range in two parts that meet on the cadence misses and repeats nothing |
| ReportSource.ScanEndsAtLast | resctl-demo/src/report_ring.rs:79-82 | restarting just after the newest record skips nothing: no record of the range lies behind it |
| ReportSource.UpdateIsWindow | resctl-demo/src/report_ring.rs:65-105 | an incremental refresh gives the ring that reading the whole new window gives |
| ReportSource.RingIsWindow | resctl-demo/src/report_ring.rs:65-105 | after any run of refreshes with reports appearing in order, the ring is the whole published window |
| ReportSource.RingHoldsExactlyTheWindow | resctl-demo/src/report_ring.rs:65-105 | the ring is strictly increasing and holds a record if and only if it is published, on cadence and in [start, now] |
| ReportSource.RingsAbut | resctl-demo/src/report_ring.rs:145-147 | the per-minute window ends exactly 60 seconds before the per-second window starts |
| ReportSource.WindowBounds | resctl-demo/src/report_ring.rs:71-72 | a window starts at the last multiple of the tail cadence not after the retention period, and ends at the last multiple of the cadence |
| ReportBuckets.ReportData.Clear | resctl-demo/src/report_ring.rs:219-224 | resets position, tip and ring, keeps the configuration |
| ReportBuckets.ReportData.PushTip | resctl-demo/src/report_ring.rs:269-276 | closing the tip appends its aggregate over its own number of samples, or None for an empty one, and opens the next bucket |
| ReportBuckets.ReportData.FeedRecord | resctl-demo/src/report_ring.rs:257-289 | one record closes every bucket before its own, is accumulated, and closes its bucket when it is the last that fits |
| ReportBuckets.ReportData.ScanNew | resctl-demo/src/report_ring.rs:245-252 | the scan from the back finds the first index from which all records are new |
| ReportBuckets.ReportData.FeedRecords | resctl-demo/src/report_ring.rs:255-290 | feeding a list is feeding its records in order |
| ReportBuckets.ReportData.Truncate | resctl-demo/src/report_ring.rs:292-295 | only the newest slots survive |
| ReportBuckets.ReportData.Reconfigure | resctl-demo/src/report_ring.rs:227-233 | a changed stride, slot count or cadence starts over; an unchanged one keeps everything |
| ReportBuckets.ReportData.FillFromSource | resctl-demo/src/report_ring.rs:226-296 | the whole of fill as a function of the old state and the source |
| ReportHistory.CloseUntilGood | resctl-demo/src/report_ring.rs:265-277 | closing buckets up to the record's keeps every shown bucket equal to its batch value |
| ReportHistory.FeedGood | resctl-demo/src/report_ring.rs:257-289 | feeding one record keeps every shown bucket and the tip exact for the longer history |
| ReportHistory.FillIsFeed | resctl-demo/src/report_ring.rs:239-253 | fast-forwarding skips exactly the records already seen or older than anything that can be shown |
| ReportHistory.TruncateGood | resctl-demo/src/report_ring.rs:292-295 | truncation keeps the ring exact |
| ReportHistory.RefreshKeepsInv | resctl-demo/src/report_ring.rs:226-296 | a fill after any earlier fills, or after a reset, leaves ring and tip exact for the whole history |
| ReportHistory.ReachableInv | resctl-demo/src/report_ring.rs:226-296 | the above holds after any sequence of appends, expiries and fills |
| ReportHistory.FillEqualsBatch | resctl-demo/src/report_ring.rs:226-296 | after any run, the ring equals batch aggregation of the last closed buckets of the whole published history, up to leading empty slots: nothing for an empty bucket, else the aggregate of its records, told how many they are |
| ReportAverages.FillShowsAverages | resctl-demo/src/report_ring.rs:226-296 | with averaging callbacks, after any run, each shown slot times the number of its bucket's records is the sum of their samples, and a slot is empty exactly when its bucket is |
| ReportHistory.FreshFromZero | resctl-demo/src/report_ring.rs:256-289 | a fresh fill that reaches back to time zero is exact when the sample that completes the first bucket is there |
| ReportHistory.RefillAgrees | resctl-demo/src/report_ring.rs:226-296 | the incremental ring and a refill from scratch agree up to leading empty slots, when the source still holds what a refill needs |
| ReportZeroBucket.FreshFillIff | resctl-demo/src/report_ring.rs:256-289 | with callbacks that lose nothing, a fresh fill equals the batch if and only if it does not reach back to time zero over samples of the first bucket without the one that completes it |
| ReportZeroBucket.LeakDiffers | resctl-demo/src/report_ring.rs:265-277 | such a fill shows a wrong slot: the first bucket is missing, or a later one holds its samples |
| ReportHistory.ZeroBucketLeaks | resctl-demo/src/report_ring.rs:265-277 | an instance: a shown bucket of 12 where the bucket holds 2 |
| ReportDataSets.ReportDataSet.FillSec | resctl-demo/src/report_ring.rs:366-378 | the rings are refreshed, then the per-second graph is filled with as many slots as fit the span |
| ReportDataSets.PublishedGrows | resctl-demo/src/report_ring.rs:65-105 | a later poll has everything published before in front |
| ReportDataSets.WindowIsSuffix | resctl-demo/src/report_ring.rs:65-105 | the ring's window is what is left of everything published after dropping exactly the records older than its start |
| ReportDataSets.CanFillRetains | resctl-demo/src/report_ring.rs:239-243 | when the slots, one more bucket and the age of the newest record fit the retention period, the ring holds all a fill can show |
| ReportDataSets.SetShowsBatch | resctl-demo/src/report_ring.rs:366-378 | from the files up, after any run of calls checked against the retention period, with or without a published directory, the graph shows the batch aggregation of everything published |
| ReportAverages.SetShowsAverages | resctl-demo/src/report_ring.rs:366-378 | the same from the files up, after any run of calls checked against the retention period |
| ReportDataSets.SetShowsExactOrEmpty | resctl-demo/src/report_ring.rs:366-378 | a graph of any width, whose buckets tile the ring's alignment and which does not pause for longer than the ring lasts, shows exact slots from some bucket on and empty ones before it; that bucket is not after the start of the ring |
| ReportDataSets.PauseLosesSamples | resctl-demo/src/report_ring.rs:239-253 | an instance of a pause: a shown bucket of 1 where the bucket holds 2 |
| ReportHistory.ReportDataIter.Next | resctl-demo/src/report_ring.rs:313-329 | yields each slot once with its timestamp, then nothing |
| ReportHistory.SlotTimestamps | resctl-demo/src/report_ring.rs:313-329 | timestamps step by `step`, sit one common offset in [0, step) after their bucket's start, and end at latest_at |
| WorkQueues.WorkQueue.DrainAcks | rd-hashd/src/workqueue.rs:129-135 | every ack stamps its worker and puts it at the front of the idle deque |
| WorkQueues.WorkQueue.ReapIdle | rd-hashd/src/workqueue.rs:156-176 | workers leave from the back until one is fresh; exactly the removed ones are joined, each once |
| WorkQueues.WorkQueue.KeepBooks | rd-hashd/src/workqueue.rs:126-177 | draining then reaping |
| WorkQueues.WorkQueue.GetNextWorker | rd-hashd/src/workqueue.rs:179-200 | the most recently idle worker is reused; a worker is spawned only when none is idle |
| WorkQueues.MostRecentIsReused | rd-hashd/src/workqueue.rs:180-183 | the reused worker is the one that became idle last, and the others stay idle |
| WorkQueues.DrainKeepsOrder | rd-hashd/src/workqueue.rs:129-135 | the idle deque stays ordered by last activity |
| WorkQueues.ReapTakesSuffix | rd-hashd/src/workqueue.rs:158-174 | reaping cuts off a suffix of stale workers and stops at one that is not stale |
| WorkQueues.ReapIsExact | rd-hashd/src/workqueue.rs:156-176 | stopping at the first fresh worker removes, from both collections, all and only the idle workers whose last activity lies the timeout or more in the past |
| WorkQueues.ReapKeepsOrder | rd-hashd/src/workqueue.rs:156-176 | reaping keeps the deque ordered and consistent |
| WorkQueues.SpawnKeepsOrder | rd-hashd/src/workqueue.rs:185-199 | spawning keeps the deque ordered |
| WorkQueues.ReuseKeepsOrder | rd-hashd/src/workqueue.rs:180-183 | reusing a worker keeps the deque ordered and takes it off |
| WorkPool.OneItemStep | rd-hashd/src/workqueue.rs:84-214 | every step of dispatcher or worker keeps exactly one outstanding item per busy worker and none per idle one |
| WorkPool.OneItemSpawn | rd-hashd/src/workqueue.rs:185-199 | a worker at a reused address owes only its first item: no ack of a former worker is pending |
| WorkPool.HeldOnceStep | rd-hashd/src/workqueue.rs:84-214 | every undrained item is held by exactly one worker |
| WorkPool.ExecutedOnceStep | rd-hashd/src/workqueue.rs:86-99 | executed items are those drained or about to be, and none is executed again |
| WorkPool.ReachableInv | rd-hashd/src/workqueue.rs:84-214 | all pool invariants hold after every interleaving |
| WorkPool.WorkNeverQueues | rd-hashd/src/workqueue.rs:202-214 | a worker is handed work only when it waits with an empty inbox, so work never queues behind work |
| WorkPool.DrainedAckNamesLiveWorker | rd-hashd/src/workqueue.rs:130-131 | the map lookup of a drained ack never fails, although addresses are reused |
| WorkPool.ItemsRunAtMostOnce | rd-hashd/src/workqueue.rs:84-225 | no item runs twice, drained items ran, and workers minus idle workers is the number of undrained items |
| WorkPool.UnexecutedItemCanAdvance | rd-hashd/src/workqueue.rs:84-214 | an item that has not run is held by one worker, and sending, receiving or executing it is enabled |
| WorkPool.StepProgress | rd-hashd/src/workqueue.rs:84-214 | every send, receive or execution lowers the summed distance of the unexecuted items by one, a submission adds three, nothing else changes it |
| WorkPool.MovesAddUp | rd-hashd/src/workqueue.rs:84-214 | over every run the moves made and the moves left are three per submitted item, and none is left if and only if every item has run |
| WorkPool.EveryItemRunsOnce | rd-hashd/src/workqueue.rs:84-214 | every reachable state's run continues, without a new submission, to one where all submitted items have run, each exactly once |
| WorkPool.DrainingAddsUp | rd-hashd/src/workqueue.rs:129-135 | however workers interleave while acks are drained, the drained acks meet what DrainAcks requires and the books become what it computes from them |
| WorkPool.ReapingAddsUp | rd-hashd/src/workqueue.rs:156-176 | every run of reap steps up to its end, workers interleaved, gives what ReapIdle computes |
| WorkPool.KeepBooksAddsUp | rd-hashd/src/workqueue.rs:126-177 | a whole keep_books of the protocol gives what KeepBooks computes for the acks that arrived in time |
| WorkPool.PickingAddsUp | rd-hashd/src/workqueue.rs:179-214 | the protocol picks or spawns the worker that GetNextWorker does, and hands it the next item |
| WorkPool.PendingAcksDrain | rd-hashd/src/workqueue.rs:129-135 | at any time the pending acks fit, and draining just those is a run |
| Saturation.UpScan | rd-hashd/src/bench.rs:936-969 | the scan stops at the first saturating one of 0.2, 0.4, 0.6, 0.8 and 1.0, or at 1.0 with all five unsaturated |
| Saturation.ScanUpIsFirst | rd-hashd/src/bench.rs:103-107 | the same of the scan the other results build on |
| Saturation.StepKeepsOk | rd-hashd/src/bench.rs:974-1047 | for any answer, left stays strictly decreasing, right strictly increasing, left[0] < right[0], both non-empty, every bound on the side of its latest measurement, and the window shrinks |
| Saturation.ProbeOutcome | rd-hashd/src/bench.rs:975-1001 | a probe halves the window towards its answer; the bisection goes on exactly while the bounds are 0.05 grains apart or more |
| Saturation.VerifyOutcome | rd-hashd/src/bench.rs:1010-1046 | a confirmed opposite bound ends the search; a contradicted one changes sides, the outermost bound there goes, and the bisection resumes |
| Saturation.DoneIsVerified | rd-hashd/src/bench.rs:1007-1046 | whatever the oracle, a search ends only with its opposite bound confirmed by the last measurement, or still the initial one |
| Saturation.Bisect | rd-hashd/src/bench.rs:971-1049 | the nested loops over any answers compute the search state and end exactly when it is done |
| Saturation.AnyRun | rd-hashd/src/bench.rs:971-1049 | for an arbitrary oracle, windows nest and a finished search has right[0] - left[0] < 0.05 grains |
| Saturation.HonestProbe | rd-hashd/src/bench.rs:974-1001 | with a deterministic oracle each probe keeps every bound truthful and halves the window |
| Saturation.HonestVerify | rd-hashd/src/bench.rs:1007-1046 | with a deterministic oracle re-verification confirms the bound and ends the search |
| Saturation.BisectSettles | rd-hashd/src/bench.rs:971-1049 | for any deterministic oracle that saturates at the top, the bisection ends within top / (0.05 grain) + 2 measurements on a saturated point |
| Saturation.SaturationPoint | rd-hashd/src/bench.rs:923-1050 | up-scan and bisection of an upward-closed oracle return 1.0 unsaturated, or a point less than 0.05 grains above the threshold |
| Saturation.Refine | rd-hashd/src/bench.rs:1054-1097 | the walk ends for every oracle; each position is strictly below the one before, at least half of it and at least 0.001; unless a round is accepted it ends only where the next step would break one of these bounds |
| Saturation.RefineDescends | rd-hashd/src/bench.rs:113-121 | recomputing step and floor from the overwritten mem_frac still leaves fewer smallest steps each round |
| ConfigFile.JsonConfigFile.MaybeReload | rd-util/src/json_file.rs:181-204 | a file changed within 10ms or with the loaded modification time is left alone, any other is loaded |
| ConfigFile.JsonConfigFile.constructor | rd-util/src/json_file.rs:135-147 | the recorded modification time is that of the stat, the data that of the later read |
| ConfigFile.ReloadStepOk | rd-util/src/json_file.rs:181-204 | a stat, a read or a concurrent rename keeps the loaded data at least as new as the version loaded_mod names |
| ConfigFile.ReloadsAreCurrent | rd-util/src/json_file.rs:92-114 | over every interleaving versions never go back, and a matching loaded_mod means current data |
| ConfigFile.SettledReloadIsCurrent | rd-util/src/json_file.rs:181-204 | an undisturbed reload of a settled file loads its current content |
| ConfigFile.ReloadIff | rd-util/src/json_file.rs:187-204 | a reload loads the file if and only if its modification time differs from the loaded one and is not within the last 10ms |
| ConfigFile.FailedReadSticks | rd-util/src/json_file.rs:199-200 | a failed read records the new modification time, keeps the data, and leaves the reader current if and only if it was current |
| ConfigFile.StuckUntilSave | rd-util/src/json_file.rs:194-197 | with a matching modification time, no reload changes anything until the next save |
| ConfigFile.CurrentIff | rd-util/src/json_file.rs:181-204 | over every run, failed reads included, the data is current if and only if a read succeeded after the last save, or there was no save and it was current at the start |
| ConfigFile.StaleFromStart | rd-util/src/json_file.rs:199-200 | a run with one save and one failed read that ends stale |
| ConfigFile.ActionKeepsOk | resctl-bench/src/run.rs:554-567 | every action, failed reads of either file included, keeps acks behind the command the agent has loaded, which never goes back |
| ConfigFile.BarrierMeansLoaded | resctl-bench/src/run.rs:554-567 | when the barrier returns, whichever reads failed, the agent has loaded a command at least as new as the client's |
| ConfigFile.BarrierReturnsIff | resctl-bench/src/run.rs:554-567 | from every reachable state with a barrier, steps of the agent and the client alone can lead to its return, if and only if the agent does not take an older command for the current one |
| Runner.RunnerData.DoBecomeIdle | rd-agent/src/cmd.rs:81-88 | drops both benchmarks, the services and the sysloads |
| Runner.RunnerData.DoApplyCmd | rd-agent/src/cmd.rs:233-356 | one application of the command file in each state, failures included |
| Runner.RunnerData.DoApplyAll | rd-agent/src/cmd.rs:423-432 | repeats until nothing asks for another round, and ends |
| Runner.RunnerData.DoCheckCompletions | rd-agent/src/cmd.rs:358-394 | what each unit state and each failure leaves behind |
| Runner.RunnerData.DoMaybeReload | rd-agent/src/cmd.rs:104-123 | the bench file is frozen during benchmarks, a forced reload is kept for later |
| Runner.RunnerData.Turn | rd-agent/src/cmd.rs:418-490 | one turn of the main loop |
| Runner.ApplyAllKeeps | rd-agent/src/cmd.rs:253-350 | applying commands keeps services exclusive, and with working sysctls a running benchmark is ahead of its record |
| Runner.ReachableExclusive | rd-agent/src/cmd.rs:408-493 | in every run a benchmark is held exactly in its state and never overlaps the other, the services or the sysloads, so the unwraps are safe; the hashd benchmark needs a recorded iocost result unless forced, and an applied command is acknowledged |
| Runner.ReachableOk | rd-agent/src/cmd.rs:408-493 | with working writes, a running benchmark's request is ahead of its record unless a reload is waiting to be looked at |
| Runner.FromIdle | rd-agent/src/cmd.rs:253-300 | exactly where a command leads from Idle: to the iocost benchmark, to the hashd benchmark, to the workloads with the command's own services, or nowhere |
| Runner.FromElsewhere | rd-agent/src/cmd.rs:301-350 | exactly when a workload follows the command or gives way to a request, and when a benchmark goes on or is cancelled |
| Runner.DueRunsWithinTwoTurns | rd-agent/src/cmd.rs:421-437 | in every healthy run, a benchmark that is due runs within two turns, unless the other is still measuring or the request is withdrawn |
| Runner.CheckOutcomes | rd-agent/src/cmd.rs:358-394 | what a check leaves alone, and that an unexpected service state ends the benchmark without a record |
| Runner.ReloadOutcomes | rd-agent/src/cmd.rs:104-187 | a changed command is always loaded; the record is reloaded exactly when it changed and no benchmark runs; and exactly when things get applied again |
| Runner.EndOfBenchReapplies | rd-agent/src/cmd.rs:108-121 | in every run, the turn that ends a benchmark gets everything applied again |
| Runner.CompletionIff | rd-agent/src/cmd.rs:358-389 | over every run and whatever fails, a completion advances its record if and only if the request is ahead, and ends the benchmark if and only if the results get written |
| Runner.CompletionAdvances | rd-agent/src/cmd.rs:358-389 | in every healthy run a completion strictly increases its own sequence, without wrap-around, and leaves the other alone |
| Runner.CompletedStaysServed | rd-agent/src/cmd.rs:338-349 | a turn without a new request does not start a served benchmark, hashd or iocost |
| Runner.NoRestart | rd-agent/src/cmd.rs:421-437 | after a completion of either benchmark, however long nothing new is asked, it is neither due nor running, between turns or inside the next one, unless it is the hashd loop mode |
| Runner.LoopModeRestarts | rd-agent/src/bench.rs:86-90 | the u64::MAX request restarts at once, its record one higher |
| Runner.FailedCopyRepeatsCompletion | rd-agent/src/bench.rs:75-102 | a run from startup in which a failed copy makes the next completion, all writes succeeding, advance nothing |
| ReportWindows.AccStatMap | rd-agent/src/report.rs:458-467 | adds two statistics maps by key |
| ReportWindows.AccSliceStatMap | rd-agent/src/report.rs:469-478 | adds two maps of statistics by slice and key |
| ReportWindows.ReportFile.constructor | rd-agent/src/report.rs:426-456 | the first window ends at the next multiple of the interval, expired files are swept |
| ReportWindows.ReportFile.Clear | rd-agent/src/report.rs:393-423 | the sweep removes exactly the files older than the retention period |
| ReportWindows.ReportFile.RemoveExpired | rd-agent/src/report.rs:593-600 | deletes exactly the stamps that expired since the last window's start |
| ReportWindows.ReportFile.DoTick | rd-agent/src/report.rs:492-601 | accumulates, and at a window's end emits average and stamp, resets, and deletes |
| ReportWindows.WindowsPartition | rd-agent/src/report.rs:492-546 | every base report is accumulated into exactly one window |
| ReportWindows.WindowsTile | rd-agent/src/report.rs:501-546 | each window starts at the report after the one that closed the window before it |
| ReportWindows.SummariesAverage | rd-agent/src/report.rs:480-533 | every average is, statistic by statistic, the sum over exactly its window's reports divided by their number, and has exactly the statistics that occur there |
| ReportWindows.SummariesWritten | rd-agent/src/report.rs:512-575 | every summary is stamped with its closing report's aligned time, and written if usage update and commit succeed: its average, with the tracker's numbers on the three top slices |
| ReportWindows.TickBoundary | rd-agent/src/report.rs:503-509 | the next boundary is the first multiple of the interval after the report that closed a window |
| ReportWindows.StampsIncrease | rd-agent/src/report.rs:507-513 | window stamps are multiples of the interval and strictly increase |
| ReportWindows.TickRetention | rd-agent/src/report.rs:593-600 | a reporting tick leaves no file older than the retention period and deletes no unexpired one |
| ReportWindows.StartupFiles | rd-agent/src/report.rs:434-456 | the sweep at startup keeps exactly the unexpired files, and the first window ends at the next boundary |
| ReportWindows.TickFiles | rd-agent/src/report.rs:572-600 | exactly which files there are after a tick |
| ReportWindows.RetentionHolds | rd-agent/src/report.rs:434-456 | from the startup sweep on, deletion ranges join without gaps |
| ReportWindows.EveryReportRetains | rd-agent/src/report.rs:492-601 | in every run a reporting tick leaves no file older than the retention period, and no tick deletes an unexpired one |
| ReportWindows.FailedUsageLeaksFiles | rd-agent/src/report.rs:548-554 | after a failed usage update, the next reporting tick leaves a stale file behind if and only if it had expired before the failed window ended |
| ReportWindows.FailedWindowsLeakFiles | rd-agent/src/report.rs:548-554 | the same after any number of failed windows, for the last of them |
| ReportWindows.LeakFromStartup | rd-agent/src/report.rs:434-456 | a run from startup that leaves an expired file behind |
| JobSpecs.CompatibleIff | resctl-bench-intf/src/jobspec.rs:68-78 | specs are compatible if and only if they differ at most in the ignored keys of their first group |
| Jobs.JobCtxs.constructor | resctl-bench/src/job.rs:595-614 | loaded results get fresh uids in order and count as not updated |
| Jobs.JobCtxs.ByUid | resctl-bench/src/job.rs:517-533 | finds the first entry with the uid |
| Jobs.JobCtxs.FindMatchingUnused | resctl-bench/src/job.rs:539-553 | finds the first unused entry of the kind and id that is incremental or compatible |
| Jobs.JobCtxs.ParseJobSpecAndLink | resctl-bench/src/job.rs:555-577 | claims a matching entry or adds a claimed one; a parse error changes nothing |
| Jobs.JobCtxs.SortByUpdateSeq | resctl-bench/src/job.rs:535-537 | the list becomes its stable sort by update sequence |
| Jobs.JobCtxs.UpdateIncrementalJctx | resctl-bench/src/run.rs:435-446 | stores the data under the next sequence and sorts unless studying |
| Jobs.StableSortUnique | resctl-bench/src/job.rs:535-537 | a list has only one stable sort |
| Jobs.SortMovesOne | resctl-bench/src/run.rs:440-444 | sorting after one update moves one entry and nothing else |
| Jobs.StepOk | resctl-bench/src/job.rs:555-577 | linking and updating keep uids, claims, data and order consistent, and an update of a claimed uid finds its entry |
| Jobs.LinkingIsInjective | resctl-bench/src/job.rs:555-577 | over every session the uids handed out are distinct, each on exactly one entry, and an entry is marked used if and only if it was claimed |
| Jobs.NoResultIsLost | resctl-bench/src/run.rs:435-446 | every entry keeps the data last stored under its uid, and the list is a permutation of everything that entered it |
| Jobs.ListOrder | resctl-bench/src/run.rs:435-446 | updated entries come first in last-update order, the others in arrival order; studying never reorders |
| Jobs.LastOrderMeans | resctl-bench/src/run.rs:440-444 | last-update order lists each updated uid once, by its last update |
| Jobs.ResumeIff | resctl-bench/src/job.rs:539-577 | a list of specs is served by stored results alone if and only if there are enough unused ones for every spec |
| Jobs.RerunAddsNothing | resctl-bench/src/job.rs:539-577 | linking the specs of loaded results again finds all of them |
| Jobs.LoadedKindsOk | resctl-bench/src/job.rs:595-614 | loaded results are unused, keep their data in order, and are incremental as their kinds are |
| Jobs.LinkKeepsKinds | resctl-bench/src/job.rs:555-577 | linking leaves every entry as incremental as its kind is |
| Packing.Merge | resctl-bench/src/main.rs:321-336 | the merge loop turns sorted periods into non-empty, ordered ones with gaps, covering the same seconds |
| Packing.PackedPeriods | resctl-bench/src/main.rs:313-336 | the packed periods are canonical and cover exactly the union of the jobs' periods |
| Packing.CanonicalUnique | resctl-bench/src/main.rs:321-336 | a set of seconds has only one such list of periods |
| Packing.ReportPathIter.Next | rd-agent-intf/src/report.rs:535-548 | yields the seconds from front to back, back excluded |
| Packing.PackReports | resctl-bench/src/main.rs:364-395 | every covered second with a report is packed exactly once in order, and packed plus skipped is the total length |
| Pages.FileFootprint | rd-hashd/src/hasher.rs:215-224 | an amplitude reaches exactly a prefix of the file pages, whose length grows two pages at a time |
| Pages.AnonFootprint | rd-util/src/anon_area.rs:75-87 | an amplitude reaches exactly a prefix of the anonymous pages |
| Pages.EveryPageIsReached | rd-util/src/anon_area.rs:75-87 | at full amplitude both maps reach every page and nothing else |
| Pages.FootprintsNest | rd-util/src/anon_area.rs:75-79 | a smaller amplitude reaches a subset of the anonymous pages, and no page is skipped |
| Pages.FileFootprintsNest | rd-hashd/src/hasher.rs:215-224 | the same for the file pages |
| Pages.FilePagesMeans | rd-hashd/src/hasher.rs:216-217 | the file pages in use are the whole ones below both the size and the fraction in use |
| Pages.SignIsParity | rd-util/src/anon_area.rs:75-79 | positive positions map to even and negative ones to odd pages, except the last page |
| Pages.ChunkFits | rd-hashd/src/hasher.rs:295-302 | a chunk that starts at any mapped page ends inside the area |
| Pages.ChunkFootprint | rd-hashd/src/hasher.rs:296-298 | the pages that chunks start at, at an amplitude, are exactly a prefix of those that leave room for a chunk |
| Pages.EveryPageIsInAChunk | rd-hashd/src/hasher.rs:295-311 | at full amplitude every page of the area lies in some chunk |
| Pages.ChunkParity | rd-hashd/src/hasher.rs:296-298 | the sign decides the parity of a chunk's first page, except on the last one |
| Pages.PagePosExact | rd-hashd/src/hasher.rs:226-232 | unit and offset together name the page's byte, and the page lies inside its unit |
| Pages.FileAccessInBounds | rd-hashd/src/hasher.rs:215-232 | for every size the files are counted with, every access goes to an existing file, at an offset that leaves room for the page, inside that size |
| Pages.AnonArea.constructor | rd-util/src/anon_area.rs:48-56 | a new area has one unit per 32 MiB, at least one |
| Pages.AnonArea.Resize | rd-util/src/anon_area.rs:62-73 | truncation keeps a prefix of the units, growth appends what is missing |
| Pages.ResizeMeans | rd-util/src/anon_area.rs:62-73 | the area has the asked size, of 32 MiB at least, units enough to cover it and no more, and the kept ones in their places |
| Pages.AnonArea.AccessPage | rd-util/src/anon_area.rs:91-103 | the unit exists and the address is the page's |
| Pages.PagesAreDisjoint | rd-util/src/anon_area.rs:91-103 | after any resizes distinct pages occupy disjoint byte ranges inside their units |
| Pages.PagesDoNotMove | rd-util/src/anon_area.rs:62-73 | a page that every resize leaves inside the area keeps its address |
| Pages.AccessChunk | rd-hashd/src/hasher.rs:296-311 | the addresses are those of consecutive pages from the mapped base, each inside its unit, and do not overlap |
| JobSpecText.ParsePropset | resctl-bench-intf/src/args.rs:246-262 | the tokens' properties, later ones overriding, empty ones skipped |
| JobSpecText.LastTokenWins | resctl-bench-intf/src/args.rs:248-259 | a key is there if and only if a token has it, with the value of the last such token |
| JobSpecText.BareKind | resctl-bench-intf/src/args.rs:264-289 | a text without `:` is a kind with no id, no passive and one empty group |
| JobSpecText.JoinSplit | resctl-bench-intf/src/args.rs:248 | splitting a text at a separator loses nothing |
| JobSpecText.SplitAtEq | resctl-bench-intf/src/args.rs:253-257 | key and value around the first `=`, an empty value without one |
| JobSpecText.ParseJobSpec | resctl-bench-intf/src/args.rs:264-289 | kind, one map per group, and the last group's id and passive |
| JobSpecText.FormatJobProps | resctl-bench-intf/src/jobspec.rs:8-32 | the first-item flags put one separator between neighbours |
| JobSpecText.GroupRoundTrip | resctl-bench-intf/src/args.rs:246-262 | parsing a printed group gives its map back, an unprintable pair excepted |
| JobSpecText.PrintThenParse | resctl-bench-intf/src/args.rs:264-289 | printing and parsing gives back kind and groups without the reserved keys; id and passive are the last group's |
| JobSpecText.ParsedIsClean | resctl-bench-intf/src/args.rs:264-289 | parsing any text yields no separators in keys and values and no reserved key |
| JobSpecText.RoundTripIff | resctl-bench-intf/src/jobspec.rs:8-32 | the round trip is exact if and only if no key holds `,` `:` `=`, no value `,` `:`, no pair is empty, no key is reserved, and the kind holds no `:` |
| JobSpecText.ReparseIff | resctl-bench-intf/src/args.rs:264-289 | a parsed spec prints to text that parses to it again, without `id` and `passive`, if and only if no group holds the lone `=` |
| JobSpecText.SpecRoundTripIff | resctl-bench-intf/src/args.rs:264-289 | a whole spec comes back from its text if and only if it has no `id`, no `passive` and is printable |
| JobSpecText.EarlierIdIsLost | resctl-bench-intf/src/args.rs:277-280 | an `id` in a group before the last is lost, for every clean value |

## Left out

- Real files, cgroups, systemd units, processes, sleeping and logging; files are maps or version lists, time is an input.
- Floating point rounding: positions and statistics are reals. In `Pages`, a relative position carries its sign apart from its magnitude.
- Unsigned wrap-around, except for the benchmark sequences in `Runner`: times, sizes, uids and counters are unbounded, and where the source would underflow (a retention longer than the clock, a file area of less than one page) the operation has a precondition.
- The minute half of `ReportDataSet`: its fill is the per-second one on the other ring, skipped while the span fits in the per-second ring, which then leaves its iteration out of date.
- `ReportPathIter::next_back`, which does not mirror forward iteration.
- Panicking work items and the pool's error channel: such a run ends in a panic. Dropping the pool and joining its threads.
- The measurements themselves (`converge`, `memio_one_round`), the regression and the PID control: an oracle answers. Test mode of the search.
- Termination of the whole bisection for an inconsistent oracle: it can shift forever.
- Sideloads, which stopping the side runner does not clear; the log-once flags; the balloon, oomd and iocost settings that an applied command writes.
- Several agent instances or several writers of one command file; removal of the ack file at agent start.
- The usage tracker, the vmstat and latency accumulators beyond the statistics maps, and which windows other subsystems read.
- The contents of job records, the benchmarks' own parsers (an input), `pop_matching_jctx`, and the result file's format.
- The order in which a sorted map enumerates its keys: the text results hold for every enumeration.
- Tarballs, uploads, the user interface, argument copying and formatting of sizes and durations.
- ReportHistory.FillEqualsBatch: assumes that what has expired was read or is older than a fill can show, and that a graph that starts over does not lose the first bucket of time; `ReportDataSets.CanFillRetains` derives both from a check on the retention period, `ReportDataSets.PauseLosesSamples` and `ReportZeroBucket.FreshFillIff` show that they are needed.
- Runner.CompletionAdvances: assumes that sysctl and file writes succeed; `Runner.CompletionIff` is exact for every run.
- ReportWindows.RetentionHolds: assumes that every usage update succeeds; `ReportWindows.FailedWindowsLeakFiles` is exact for failed ones.
- ConfigFile.ReloadsAreCurrent: assumes that every file parses; `ConfigFile.CurrentIff` is exact with failed reads.
- Jobs.StepOk: assumes fewer than 2^64 - 1 updates in a session.

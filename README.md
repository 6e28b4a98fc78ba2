# Dask timing sandbox, modelled in Dafny

This project models the logic of three scripts from a sandbox that times how long Dask clusters take to start.

- **`dask_timing_study.py`** is the in-process study. `measure_cluster_startup` starts a `LocalCluster` and a `Client` and turns eight clock readings into phase durations. `run_timing_study` repeats the measurement and produces one run record per run: either the timings plus `run`, or `{run, error}`. `calculate_statistics` summarises the records that have no `error` key: count, mean, min, max and population standard deviation, per metric. `main` validates the arguments, optionally saves the output and picks the exit code. This is module `TimingStudy` (`timing_study.dfy`).
- **`time_scheduler_workers.py`** is the separate-process study. It is modelled as class `SchedulerWorkerTimer` in module `SchedulerWorkers` (`scheduler_workers.dfy`), with mutable fields `schedulerProc`, `workerProcs`, `results` and a trace `ops` of the process-level calls made. The timer:
  - launches `dask-scheduler`;
  - polls up to 30 times, half a second apart, until a client connects;
  - launches `dask-worker` processes named `worker-0`, `worker-1`, …;
  - runs one probe task and then a batch of 100 tasks;
  - in the `finally` of `run`, stops every worker and then the scheduler. Each is stopped with SIGTERM and a 5-second wait, with `kill()` as the fallback.
  
  Process handles are objects (`Process`) with a mutable `state`. What the operating system and Dask do is an `Env` value: whether a launch, a connection, a Dask query, a signal, a wait or a kill succeeds, and what the clock reads.
- **`analyze_results.py`** loads saved result objects and analyses them. This is module `Analysis` (`analysis.dfy`):
  - results are grouped by `(n_workers, threads_per_worker)`, and the groups are visited in ascending key order;
  - for each group, the numeric metrics whose names do not start with `_` are collected, and each metric is summarised by mean, standard deviation, median, min and max;
  - every `total_time` is summarised;
  - `compare_configs` ranks the configurations by average `total_time`. It does nothing when there are fewer than two configurations.

Shared modules:
- `wrappers.dfy`: `Option`.
- `json.dfy`: the JSON values the results hold.
- `ordering.dfy`: string order, and a stable insertion sort `SortBy` that stands for Python's `sorted` and `list.sort`.
- `stats.dfy`: sum, mean, min, max, the two variances and the median.
- `grouping.dfy`: a generic `defaultdict(list)` filled in a loop.

Every loop of the modelled functions is a `method` with its invariants. Each method is proved equal to a specification function, and the properties are proved about those functions.

## Model

| member | source | states |
|---|---|---|
| TimingStudy.SetFieldSpec | dask_timing_study.py:181 | `d[k] = v` keeps the key order and appends `k` only when it is new. Afterwards `d[k]` is `v` and every other key keeps its value. |
| TimingStudy.RecordNumbered | dask_timing_study.py:179-191 | Every run record carries its 1-based run number. A measurement that raised gives exactly `{run, error}`. A record has `error` exactly when the run raised or the measurement itself reported an `error` key. |
| TimingStudy.FirstErrorIsFirst | dask_timing_study.py:39-90 | The measurement fails exactly when some cluster call raises. The error reported is that of a call that raised, and every call before it returned. |
| TimingStudy.PhaseTimingsBounded | dask_timing_study.py:50-86 | The timings hold the six keys in insertion order. On a non-decreasing clock each of the four phase durations is at least 0, and their sum is at most `total_cluster_ready`. |
| TimingStudy.MeasureClusterStartup | dask_timing_study.py:26-92 | The measurement raises exactly when one of the calls, taken in program order, raises, and it raises that call's error. Otherwise the timings are the subtractions of the eight clock readings plus the worker count the scheduler reports. |
| TimingStudy.PhaseTimingsNames | dask_timing_study.py:50-86 | The timings of a measurement have no `run` and no `error` key. |
| TimingStudy.MeasuredRecordValid | dask_timing_study.py:179-182 | The record of a run whose measurement returned is the six timings followed by `run`. It has no `error` key, so the statistics count it as valid, and its `run` is the run number. |
| TimingStudy.PhaseNamesDistinct | dask_timing_study.py:50-86 | The six timing names and `run` are pairwise different. |
| TimingStudy.MeasuredNamesDistinct | dask_timing_study.py:179-182 | The record of a run whose measurement returned names no entry twice. |
| TimingStudy.RunTimingStudy | dask_timing_study.py:160-193 | Exactly `max(n_runs, 0)` records, in run order. Record k is built from the k-th measurement with `run = k + 1`, and a raising run does not stop the loop. One pause follows every successful run except the last run. |
| TimingStudy.TimingKeys | dask_timing_study.py:213-214 | A name is kept exactly when it is a key of the record and is not `run`, `actual_workers` or `error`. |
| TimingStudy.CalculateStatistics | dask_timing_study.py:196-239 | The dictionary the loop builds equals `Statistics(results)`, the specification function the lemmas below are about. |
| TimingStudy.ValidRecordsEmpty | dask_timing_study.py:207-210 | No record is kept exactly when every record has an `error` key. |
| TimingStudy.ErrorRecordsIgnored | dask_timing_study.py:207 | Inserting a record that has an `error` key anywhere in the results leaves the statistics unchanged. |
| TimingStudy.AllFailedGivesNoStatistics | dask_timing_study.py:209-210 | When every record has `error`, the statistics are empty. |
| TimingStudy.MetricNamesFromFirstValidRecord | dask_timing_study.py:213-221 | The metric names are exactly the keys of the first record without `error`, in its order, minus `run`, `actual_workers` and `error`. |
| TimingStudy.StatisticsForEntry | dask_timing_study.py:218-237 | Each entry belongs to one of the timing keys, that key has at least one value, and the entry is the summary of those values. |
| TimingStudy.ValuesOfCount | dask_timing_study.py:219 | The number of values collected for a key is the number of valid records that contain the key. |
| TimingStudy.ValuesOfBounds | dask_timing_study.py:219 | Bounds on the collected values bound the key's value in every valid record that has the key. |
| TimingStudy.StatisticsEntryProperties | dask_timing_study.py:219-235 | `count` is the number of valid records holding the key, between 1 and the number of valid records. min <= mean <= max, and min and max bracket every such record's value. The variance is at least 0, and it is 0 when count is 1. |
| TimingStudy.StudyMain | dask_timing_study.py:335-393 | Fewer than one worker or run: exit code 1 before any run. Otherwise `runs` records, and statistics only when `runs > 1`. The file is written exactly when an output path is given and writing succeeds. The exit code is 0 exactly when the arguments are valid, any requested save succeeded and at least one record has no `error`. |
| SchedulerWorkers.NatToString | time_scheduler_workers.py:84-85 | `str(n)` is made of decimal digits only. It has at least one digit, at least two from 10 on, and no leading zero unless `n` is 0. |
| SchedulerWorkers.NatToStringRoundTrip | time_scheduler_workers.py:84-85 | Reading the digits of `str(n)` back as a decimal number gives `n`. |
| SchedulerWorkers.NatToStringInjective | time_scheduler_workers.py:85 | Different numbers print differently. |
| SchedulerWorkers.ArgvReadsBack | time_scheduler_workers.py:41-90 | The scheduler's port argument reads back as 8786. A worker's command line has six words. Its `--nthreads` value reads back as the thread count, with a leading `-` for a negative count. Its `--name` value is `worker-` followed by digits that read back as the worker's index. |
| SchedulerWorkers.PortReadsBack | time_scheduler_workers.py:42 | `8786` is all digits and reads as the number 8786. |
| SchedulerWorkers.WorkerNameReadsBack | time_scheduler_workers.py:85 | `worker-<i>` is `worker-` followed by the digits of `i`, which read back as `i`. |
| SchedulerWorkers.ThreadsReadBack | time_scheduler_workers.py:84 | `str(threads)` reads back as `threads`: digits for a count of 0 or more, and `-` then digits for a negative one. |
| SchedulerWorkers.WorkerNamesDistinct | time_scheduler_workers.py:85 | Workers with different indices are launched under different `--name` values. |
| SchedulerWorkers.SchedulerWorkerTimer.constructor | time_scheduler_workers.py:23-33 | A fresh timer has no scheduler handle, no workers and no calls made. Its results hold exactly `timestamp`, `n_workers` and `threads_per_worker`. |
| SchedulerWorkers.Find | time_scheduler_workers.py:51-60 | The first index in the range where the outcome matches, or the bound when none does. |
| SchedulerWorkers.ReadinessLoop | time_scheduler_workers.py:50-60 | Between 1 and 30 attempts, and every attempt before the last one failed. The scheduler counts as ready exactly when the last attempt connected. The loop fails exactly when all 30 attempts failed. Attempt i is a 0.5 s sleep followed by a connection to `localhost:8786`. |
| SchedulerWorkers.ProbeOpsShape | time_scheduler_workers.py:52-54 | In the trace of n attempts, position 2i is a sleep and position 2i+1 a connection. |
| SchedulerWorkers.SchedulerWorkerTimer.WaitForScheduler | time_scheduler_workers.py:49-60 | Returns ready exactly when one of the first 30 attempts connects. The calls made are exactly the attempts the loop takes. |
| SchedulerWorkers.SchedulerWorkerTimer.LaunchScheduler | time_scheduler_workers.py:41-46 | The `Popen` of the scheduler: a new running handle with the scheduler's command line becomes `scheduler_proc`, and exactly one `Spawn` of it is recorded. |
| SchedulerWorkers.SchedulerWorkerTimer.StartScheduler | time_scheduler_workers.py:35-72 | The outcome is `SchedulerPhase`: `SpawnFailed` when the launch raises, `SchedulerTimeout` when no attempt connects, and the elapsed time otherwise. A launch that raises changes nothing. Otherwise there is a new running scheduler handle, and the calls made are its `Spawn` followed by the connection attempts. `scheduler_start_time` is written only once the scheduler answered, and the workers are untouched. |
| SchedulerWorkers.SpawnOpsInOrder | time_scheduler_workers.py:79-91 | Launching a list of handles makes one `Spawn` per handle, in list order. |
| SchedulerWorkers.SchedulerWorkerTimer.SpawnWorker | time_scheduler_workers.py:80-91 | One iteration appends one new running handle and records its launch. |
| SchedulerWorkers.SchedulerWorkerTimer.LaunchWorkers | time_scheduler_workers.py:79-91 | `worker_procs` grows by the workers launched before the first `Popen` that raises. The k-th new handle is new, running, and runs worker k with the timer's thread count. The result is true exactly when all of `range(n_workers)` launched. |
| SchedulerWorkers.SchedulerWorkerTimer.StartWorkers | time_scheduler_workers.py:74-111 | The outcome is `WorkersPhase`: `SpawnFailed` when a launch raised, `WorkersNotReady` when registration fails, `InfoFailed` when `scheduler_info()` raises afterwards, and the elapsed time otherwise. The workers launched are appended to `worker_procs` in index order, and their launches are the calls made. `workers_start_time` is written once all of them registered, even when `scheduler_info()` then raises (`WorkersResults`). |
| SchedulerWorkers.SchedulerWorkerTimer.TestTaskExecution | time_scheduler_workers.py:113-142 | The outcome is `TaskPhase`. The results are `TaskResults`: `first_task_time` is written once the first task returns, and `batch_100_tasks_time` only when the batch returns too. Otherwise the phase raises `TaskFailed`. |
| SchedulerWorkers.SchedulerWorkerTimer.StopHandle | time_scheduler_workers.py:150-154 | One handle: SIGTERM, then a 5 s wait, then `kill()` when either raised. Its new state, its calls and whether `kill()` raised are those of `StopStep`. |
| SchedulerWorkers.StopStepTerm | time_scheduler_workers.py:151 | Stopping a handle sends it SIGTERM exactly once. |
| SchedulerWorkers.SchedulerWorkerTimer.StopNext | time_scheduler_workers.py:149-154 | Stopping the next handle extends the teardown by one handle and touches no other handle. |
| SchedulerWorkers.SchedulerWorkerTimer.StopWorkers | time_scheduler_workers.py:149-154 | Workers are stopped in list order. When a `kill()` raises, the state is already that of a teardown of all the handles with that exception. |
| SchedulerWorkers.SchedulerWorkerTimer.StopScheduler | time_scheduler_workers.py:157-162 | The scheduler is signalled only when there is a scheduler handle. It is stopped after all the workers. |
| SchedulerWorkers.SchedulerWorkerTimer.Cleanup | time_scheduler_workers.py:144-164 | The calls made and the new handle states are those of `Teardown` over the workers followed by the scheduler. Cleanup raises exactly when that teardown raises. |
| SchedulerWorkers.Teardown | time_scheduler_workers.py:148-162 | One state per handle, and at most every handle is reached. |
| SchedulerWorkers.TeardownReach | time_scheduler_workers.py:148-162 | Every handle is reached unless an exception escaped. A handle that is not reached keeps its state. |
| SchedulerWorkers.TeardownSigTermOrder | time_scheduler_workers.py:149-162 | SIGTERM goes to exactly the handles reached, in cleanup order: workers in list order, then the scheduler. |
| SchedulerWorkers.TeardownStopsAll | time_scheduler_workers.py:149-162 | When no exception escapes, every handle ends terminated or killed. |
| SchedulerWorkers.TeardownRaises | time_scheduler_workers.py:149-162 | An exception escapes exactly when `kill()` on some handle raises. That handle is then the last one reached. |
| SchedulerWorkers.TeardownIdempotent | time_scheduler_workers.py:144-164 | A second cleanup after an undisturbed one raises nothing and changes no state. |
| SchedulerWorkers.TeardownAfterRaise | time_scheduler_workers.py:149-162 | After an escaped exception, the later handles add no calls and keep their states. |
| SchedulerWorkers.KeyNamesDistinct | time_scheduler_workers.py:29-33 | The result keys are written under pairwise different JSON names. |
| SchedulerWorkers.BodyFailureCases | time_scheduler_workers.py:175-203 | The body of `run` raises nothing exactly when these all hold: the scheduler launches and answers within 30 attempts; every worker launches and registers; `scheduler_info()` returns; both task probes succeed; the file, if requested, is written. The readiness timeout happens exactly when the scheduler launched but never answered. Workers are reported missing only once all of them launched. `InfoFailed` is raised exactly when everything up to the workers' registration succeeded and `scheduler_info()` raised. |
| SchedulerWorkers.WorkersResultsRecorded | time_scheduler_workers.py:97-99 | `start_workers` writes `workers_start_time`, and nothing else, exactly when every worker launched and registered; the value is the workers' elapsed time. |
| SchedulerWorkers.TaskResultsRecorded | time_scheduler_workers.py:124-137 | `test_task_execution` writes `first_task_time` exactly when the first task returns and `batch_100_tasks_time` exactly when the batch returns too, and no other key. |
| SchedulerWorkers.LaterResultsTotal | time_scheduler_workers.py:180-185 | Once the scheduler is up, `total_time` is written exactly when the workers and the tasks phase both return, as the overall elapsed time. |
| SchedulerWorkers.PhaseResultsTotal | time_scheduler_workers.py:177-185 | `total_time` is written exactly when all three phases return, as the last clock reading minus the first. |
| SchedulerWorkers.LaterResultsRecorded | time_scheduler_workers.py:180-182 | Once the scheduler is up, `workers_start_time` is written exactly when all workers registered, and the two task times exactly when `start_workers` returned and the tasks completed. |
| SchedulerWorkers.LaterResultsKeep | time_scheduler_workers.py:180-185 | The later phases keep every entry already written and add only phase keys. |
| SchedulerWorkers.PhaseResultsRecorded | time_scheduler_workers.py:64-185 | Each phase's time is written exactly when that phase got as far as timing itself, with the phase's elapsed time: the scheduler's once it answered; the workers' once all of them registered, even when `scheduler_info()` then raises; the first task's once it completed; the batch's once the 100 tasks completed. The total is written only when every phase returned. The constructor's entries are kept, and no other key is written. |
| SchedulerWorkers.SchedulerWorkerTimer.RunPhases | time_scheduler_workers.py:175-203 | The phases run in order and the first exception is the one `BodyFailure` names. There is a scheduler handle exactly when its launch succeeded. `worker_procs` holds the workers launched, in index order, and is empty when the scheduler phase raised. The calls made are the scheduler's launch and probes, then one launch per worker (`LaunchOps`). The results are `PhaseResults` of the constructor's results. `total_time` is written exactly when all three phases return, and it is the last clock reading minus the first. |
| SchedulerWorkers.SchedulerWorkerTimer.AfterScheduler | time_scheduler_workers.py:180-203 | Once the scheduler is up: the exception is `LaterFailure`, `worker_procs` holds the workers launched before the first `Popen` that raised, the calls made are their launches, and the results are `LaterResults`. |
| SchedulerWorkers.SchedulerWorkerTimer.AfterWorkers | time_scheduler_workers.py:181-202 | Once `start_workers` returned: the results are `LaterResults` of the map before `start_workers`, and the exception is `LaterFailure` (the task failure, else the save failure when a file is requested). |
| SchedulerWorkers.SchedulerWorkerTimer.Run | time_scheduler_workers.py:166-208 | The handles and the results are those `RunPhases` leaves. The trace is the launches and probes followed by the calls of a teardown of all handles from running, and every handle ends in the teardown's state. Cleanup runs on every path. An exception from `kill()` replaces the one in flight. Otherwise the outcome is the body's exception, or the results. `total_time` is present exactly when all phases returned. |
| Stats.Min | dask_timing_study.py:224 | `min` is an element of the list that no element is below. |
| Stats.Max | dask_timing_study.py:225 | `max` is an element of the list that no element is above. |
| Stats.MeanWithinRange | dask_timing_study.py:223-225 | The mean lies between the minimum and the maximum. |
| Stats.VariancesNonNegative | dask_timing_study.py:230-233 | The population variance, and the sample variance of two or more values, are at least 0, so their square roots exist. |
| Stats.ConstantData | dask_timing_study.py:230-235 | Equal values have that value as their mean and a population variance of 0. |
| Stats.MedianWithinRange | analyze_results.py:70 | The median lies between the minimum and the maximum. |
| Stats.MedianIsMiddle | analyze_results.py:70 | The median is taken from an ordered permutation of the data, and for an odd count it is the middle element. |
| Ordering.StrLeIsTotalPreorder | analyze_results.py:66 | Python's string order is total and transitive. |
| Ordering.InsertSorted | analyze_results.py:127 | Inserting into an ordered list keeps it ordered. |
| Ordering.SortBySorted | analyze_results.py:127 | Under a total preorder the sort's output is ordered. |
| Ordering.SortByStable | analyze_results.py:127 | The sort is stable: elements the comparison ties keep their input order. |
| Ordering.SortDistinct | analyze_results.py:53 | Sorting a list without repeats gives an ordered permutation without repeats. |
| Ordering.PermutationDistinct | analyze_results.py:53 | A permutation of a list without repeats has no repeats. |
| Grouping.KeyOrderHasGroups | analyze_results.py:47-50 | A key is in the dict exactly when its group is not empty. |
| Grouping.KeyOrderDistinct | analyze_results.py:47-50 | The dict's keys are distinct. |
| Grouping.KeyOrderElements | analyze_results.py:47-50 | The dict's keys are exactly the keys of the results. |
| Grouping.WithKeyMembers | analyze_results.py:47-50 | A group holds only results of the list that have its key. |
| Grouping.GroupsPartition | analyze_results.py:47-50 | Every result lands in exactly one group. The groups together hold each result as often as the list does, so the group sizes add up to the number of results. |
| Grouping.GroupingSnoc | analyze_results.py:50 | One `by_config[key].append(result)` keeps the dict equal to the grouping of the results seen so far. |
| Analysis.HasEntry | analyze_results.py:89 | `k in r` holds exactly when some entry has key `k`. A missing key reads as `None`. |
| Analysis.KeyLessStrictTotal | analyze_results.py:53 | The order on `(n_workers, threads_per_worker)` tuples is irreflexive, transitive and total. |
| Analysis.KeyLeIsTotalPreorder | analyze_results.py:53 | Its reflexive closure is a total preorder. |
| Analysis.SortedKeysAscending | analyze_results.py:53 | `sorted(by_config.items())` lists exactly the keys, once each, in strictly ascending order. |
| Analysis.GroupByConfig | analyze_results.py:47-50 | The loop's dict has exactly the keys of the results, in first-seen order. Each key maps to its results, in result order. `compare_configs` repeats the same loop (analyze_results.py:103-106). |
| Analysis.CollectMetrics | analyze_results.py:59-63 | The loop's dict equals the specification: its names in creation order, each mapped to its values in append order. |
| Analysis.MetricNamesPublic | analyze_results.py:62 | No collected name starts with `_`. |
| Analysis.MetricListInResultOrder | analyze_results.py:59-63 | Each metric's list holds, in the order of the results, the value of every result in which that name is a number. |
| Analysis.MetricColumnNonEmpty | analyze_results.py:59-63 | A metric's list is non-empty exactly when some result has that name as a number. |
| Analysis.MetricNamesExact | analyze_results.py:59-63 | A name is collected exactly when some result holds a number under it and the name does not start with `_`. |
| Analysis.MetricListsNonEmpty | analyze_results.py:66-80 | Every collected metric has at least one value, so `values[0]` exists. |
| Analysis.SummarizeBounds | analyze_results.py:66-80 | One value is reported as just that value. Several values get a summary whose min and max are values of the list and bound all of them. Mean and median lie within [min, max], and the variance is at least 0. |
| Analysis.MetricReportsAt | analyze_results.py:66-80 | One report line per metric name, in the given order. |
| Analysis.ReportGroup | analyze_results.py:53-82 | The group loop equals the specification `ReportOf`. |
| Analysis.ReportMetricsAscending | analyze_results.py:66 | Each collected metric of a group is reported once, in strictly ascending name order. |
| Analysis.SortedNamesAscending | analyze_results.py:66 | `sorted(metrics.items())` lists each name once, in strictly ascending order. |
| Analysis.Numbers | analyze_results.py:92-96 | The values give a list of numbers exactly when every value is a number, element by element. Otherwise `statistics.mean` would raise. |
| Analysis.Summary | analyze_results.py:89-96 | With no `total_time`, nothing is printed. A non-number gives the `TypeError` outcome. Otherwise min <= mean <= max, min and max bound every value, and a variance (at least 0) is reported exactly when there are two or more values. |
| Analysis.TotalTimesFromEveryResult | analyze_results.py:89 | A value is summarised exactly when some result, in any group, has it as its `total_time`. |
| Analysis.ConfigReportsAt | analyze_results.py:53-82 | One report per key, in key order, each being that group's report. |
| Analysis.AnalyzeResults | analyze_results.py:36-98 | The analysis equals the specification: no results gives the early return, otherwise the per-group reports in sorted key order plus the overall summary. |
| Analysis.ReportsInKeyOrder | analyze_results.py:53-55 | Every configuration is reported exactly once, in strictly ascending key order. Its number of runs is the size of its group. |
| Analysis.CompareConfigs | analyze_results.py:101-127 | `compare_configs` equals the specification `ComparisonOf`. |
| Analysis.ComparisonSkipped | analyze_results.py:108-109 | No ranking is made exactly when the results have fewer than two distinct configurations. |
| Analysis.ComparisonFails | analyze_results.py:116-124 | The ranking fails with a `TypeError` exactly when some group's `total_time` values are not all numbers. |
| Analysis.RankedEntriesNone | analyze_results.py:116-124 | The same, for the rows built over any list of keys. |
| Analysis.RankedEntriesRows | analyze_results.py:116-124 | A row is built exactly for each listed key whose group has `total_time` values, holding their mean and count. |
| Analysis.RankedEntriesAscending | analyze_results.py:116 | Rows built for keys in ascending order are in ascending key order. |
| Analysis.RankingRows | analyze_results.py:116-124 | A configuration gets a row exactly when its group has `total_time` values. The row's `avg_time` is their mean and its `runs` is their count. |
| Analysis.RankingOrder | analyze_results.py:115-127 | Rows are ascending by `avg_time`, and rows with equal averages are in ascending key order, because the sort is stable over key-sorted rows. |
| Analysis.SortByAverage | analyze_results.py:127 | Sorting key-ordered rows by average leaves them ascending by average, with ties in key order. |

## Left out

- The Dask library (`LocalCluster`, `Client`, `scale`, `wait_for_workers`, `submit`, `gather`, `scheduler_info`, `close`) is not modelled. Only whether each call raises, and with what message, is an input.
- `subprocess.Popen`, `send_signal`, `wait` and `kill` are the same: handles are objects with a state, and each handle's reaction to cleanup is an input (`StopBehaviour`).
- `time.time()` readings are a function from call-site number to a real. Sleeps are counted (`RunTimingStudy.pauses`) or recorded as trace entries; they never block.
- The timestamp from `datetime.now().isoformat()` is a constructor parameter.
- Square roots are not modelled; they are floating-point numerics. `std_dev` (dask_timing_study.py:233) and `statistics.stdev` (analyze_results.py:69) are represented by the variance under the root. Timings are reals, with no rounding.
- There is no file or JSON I/O. `load_results` (analyze_results.py:19-33), `json.dump` in all three scripts, and the `with open` of the savers are left out; only whether the save succeeds is an input. Results are modelled as their loaded objects.
- `plot_results`, `print_results`, argparse and all console output are left out.
- time_local_cluster.py and example_usage.py are not part of this model. They are straight-line calls and a demo.
- `measure_scheduler_info` and the `--detailed` branch of `main` (dask_timing_study.py:95-157 and 353-367) are Dask queries and printing only.
- Python treats `bool` as an `int` in `isinstance(value, (int, float))` (analyze_results.py:62). JSON values are instead a tagged union (`Num`, `Str`, `Null`, `Other`), so `true` is not a metric in this model. The same difference applies to configuration keys (analyze_results.py:46-47, 108-109). In the model, JSON `true` and `false` both become `Other` and so fall into one group. Python keeps `True` and `False` apart, and groups `True` with the key `1` and `False` with `0`.
- A configuration key can mix types, for example `None` next to an integer. Python's `sorted` then raises `TypeError`. The model orders such keys totally instead: numbers, then strings, then `None`, then anything else.
- An unhashable key value (a list in a result file) would also raise. It is folded into `Other`, like the booleans above.
- The records of the in-process study (`Fields` in `TimingStudy`) are sequences of named values. The model assumes, without requiring it, that a record repeats no name, as a Python `dict` cannot. `measure` is a free parameter, so it can supply a record with a repeated name. For such a record `Statistics` can list a metric twice, and `Lookup` reads the first entry of a name where `Analysis.Get` reads the last. Every record that `MeasureClusterStartup` and `RecordFor` build has distinct names (`MeasuredNamesDistinct`).
- `MetricListInResultOrder`, `MetricNamesExact` and `RecordMetric` assume each result is a JSON object without repeated keys (`IsDict`), which is what `json.load` produces. `Has` and `Get` read the last entry of a key, as `json.load` keeps it.
- `SchedulerWorkerTimer.Run` is modelled on a fresh timer only, which is how the script's `main` uses it. `start_scheduler` and the other phases are modelled for any valid state.
- The client connections the timer opens and closes (time_scheduler_workers.py:54, 69-70, 94, 110, 118, 141) are assumed to close without raising. Their success when opening is part of the probe, `workersRegister` and the outcomes of the probe tasks.
- The loop over the workers that `scheduler_info()` reports (time_scheduler_workers.py:105-108) only prints. Whether the `scheduler_info()` call itself returns (line 104) is the input `schedulerInfoSucceeds`, and its raising is modelled as `InfoFailed`.
- `kill()` raising during cleanup is modelled as in the code: the exception is not caught (time_scheduler_workers.py:154, 162). It stops the teardown and the remaining handles are not reached, so the model does not claim that teardown always succeeds or that every handle is stopped.
- `measure_cluster_startup` has no `try`/`finally`: a call that raises leaves the cluster and the client open. The model follows the code and does not close them on failure.
- Result keys of the timer are an enumeration (`ResultKey`); `KeyName` gives their JSON names.
- `results` is a map, so it does not model the insertion order in which `json.dump` writes the keys (time_scheduler_workers.py:202). The file's key order follows the order of the assignments in the code.
- `RunTimingStudy` and `StudyMain` take the measurements as a parameter, `measure`, which stands for any sequence of outcomes: repeated clusters need not behave alike. `MeasureClusterStartup` and `MeasuredRecordValid` state what one measurement yields and how its record is read.
- `statistics.mean` raising `TypeError` on a non-numeric `total_time` is modelled as the outcomes `NotNumeric` and `TotalsNotNumeric`. The exception's propagation out of the script is not modelled.
- Integer widths do not arise: run numbers, worker counts and indices are unbounded integers, as in Python.

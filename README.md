# Malcolm-Strict testbed core, modelled in Dafny

This project models the decision-making core of the Malcolm-Strict
tail-latency testbed. A load balancer receives client requests and picks a
worker for each one with a scheduler. The schedulers are Power-of-2 choices,
Malcolm (load-variance minimisation) and Malcolm-Strict (deadline risk
through the CVaR of the predicted latency). Each worker orders its queue by
EDF or FCFS. Two Python scripts then merge the latency histograms of a run
and write the comparison report.

One Dafny module models each core source file:

- `Types` (`src/common/types.h`): the clock and duration units, the request trace, the worker state, the scheduler names and the schedule decision. The source's `uint64_t`, `uint32_t` and `uint8_t` arithmetic is written out as explicit wrap-around (`Wrap64`, `Wrap32`, `Truncate8`).
- `EdfQueue` (`src/scheduler/edf_queue.h`): the locked priority queue, the hierarchical timing wheel and the facade that picks between them. These are classes whose methods are proved against the multiset or sequence of tasks they hold.
- `FcfsQueue` (`src/scheduler/fcfs_queue.h`): the locked FIFO, the lock-free single-producer ring buffer over an `array` with its power-of-two mask, and the facade.
- `Po2Scheduler`, `MalcolmScheduler` and `MalcolmStrictScheduler` (`src/scheduler/*.h`): the heuristic decision paths. The first-minimum scans these share are proved once, in `Selection`.
- `Metrics` (`src/common/metrics.h`): the metrics collector, the throughput counter and the text that `export_all` writes to `summary.txt`.
- `LbContext` (`src/load_balancer/lb_context.cpp`): the load balancer's per-worker state, its pending requests, dispatch, completion and the periodic decay.
- `LbMain` (`src/load_balancer/main.cpp`): command-line parsing of the load balancer, including `parse_worker_list`.
- `Config` (`src/common/config.cpp`): `parse_config` and `load_config_file`.
- `MergeHistograms` and `GenerateReport` (`scripts/*.py`): histogram loading, percentiles, the CDF and the summary file, and the text report.
- `Samples`, `Numerals` and `Text` hold what both halves share:
  - `Samples`: sorting, the mean, the variance and numpy's linearly interpolated percentile.
  - `Numerals`: decimal parsing and fixed-point formatting (Python's `float()` and `f"{x:.4f}"`, C++'s `std::stoull`, `std::stoul`, `std::stoi` and `std::stod`).
  - `Text`: Python's `strip` and `split`, and the C++ trim and `getline` split.
- `Wrappers` holds the `Option` and `Result` types.

Inputs from outside the program are parameters of the operations that use them:

- the clock (`now_ns()`), given as timestamps or as a function from call number to timestamp;
- the random draws of Power-of-2 choices;
- the mathematical functions `std::exp`, `std::log` and `std::sqrt`;
- the `repr` of Python floats;
- the C++ stream rendering of doubles in `export_all`, given as the texts `Metrics.SummaryFile` writes (`rateText` and the four percentile texts);
- the contents of the files and directories the scripts read, given as lines.

C++ exceptions from `std::sto*` and the Python errors the scripts can raise are `Result` values.

Two places in the source treat the worker list differently, and the model keeps both as written:

- `--workers` in `config.cpp` appends the untrimmed comma-separated tokens to the list.
- `parse_worker_list` in `main.cpp` trims each token, drops blank ones and replaces the list.

An unknown `--algorithm` behaves differently too:

- `parse_config` ignores it.
- The load balancer's `main` prints an error and exits with status 1.

## Model

| member | source | states |
|---|---|---|
| Numerals.NatToStringValue | scripts/merge_histograms.py:205-206 | the decimal rendering of a whole number has the number's value |
| Numerals.ParseFormatFixed | scripts/generate_report.py:35-51 | what `f"{x:.4f}"` prints, `float()` reads back as x rounded to that many places |
| Numerals.ParseNatToString | scripts/generate_report.py:49-51 | `float(str(n))` is n |
| Numerals.StoULL | src/common/config.cpp:63-65 | `std::stoull` either throws or gives a value below 2^64 |
| Numerals.StoI | src/load_balancer/main.cpp:104-106 | `std::stoi` either throws or gives a value that fits in 32 signed bits |
| Numerals.StoULLNatToString | src/common/config.cpp:63-65 | `std::stoull` reads a decimal rendering of a value below 2^64 back as that value |
| Numerals.StoDFormatFixed | src/common/config.cpp:72-74 | `std::stod` reads what `f"{x:.4f}"`-style fixed-point formatting prints back as x rounded to that many places |
| Text.SplitWs | scripts/merge_histograms.py:38 | every field `split()` returns is a non-empty run without whitespace |
| Text.SplitOn | scripts/merge_histograms.py:86 | `split(',')` returns at least one field, and no field contains the separator |
| Text.TrimBlanks | src/common/config.cpp:112-118 | the trim lambda leaves an all-blank string as it is and otherwise gives a string that neither starts nor ends with a space or tab |
| Text.Lower | scripts/merge_histograms.py:83 | `lower()` keeps the length and lowers each ASCII capital, character by character |
| Text.TrimBlanksIdempotent | src/common/config.cpp:112-118 | trimming a trimmed string changes nothing |
| Text.JoinSplitWs | scripts/merge_histograms.py:34-38 | `split()` gives back exactly the whitespace-free fields that were joined with single spaces |
| Text.StripLeft | scripts/generate_report.py:49 | `lstrip()` removes a prefix of the text and what is left does not begin with whitespace |
| Text.StripRight | scripts/generate_report.py:49 | `rstrip()` removes a suffix of the text and what is left does not end with whitespace |
| Text.StripEnds | scripts/merge_histograms.py:34 | `strip()` leaves a text that neither begins nor ends with whitespace unchanged |
| Text.StripKeeps | scripts/generate_report.py:49 | `strip()` removes whitespace only: every other character of the line survives, so a ':' in the line is still there to split on |
| Text.StripRightChar | scripts/generate_report.py:51 | `rstrip('%')` removes a suffix of the text and what is left does not end with '%' |
| Text.FindChar | src/common/config.cpp:105 | `find(':')` gives the first occurrence, or the length when there is none |
| Text.SplitOnCons | scripts/generate_report.py:35 | `split(',')` on a field free of commas followed by a comma gives that field and then the split of the rest |
| Text.SplitWsCons | scripts/merge_histograms.py:38 | `split()` on a whitespace-free word followed by a space gives that word and then the split of the rest |
| Text.GetlineSplitNoSep | src/common/config.cpp:39 | no token `std::getline` reads up to ',' contains a ',' |
| Text.GetlineCons | src/common/config.cpp:39 | one `std::getline(ss, addr, ',')` step reads up to the first ',' and the next step reads from just after it |
| Text.TrimBlanksPadded | src/common/config.cpp:112-118 | the trim lambda removes exactly the spaces and tabs around a value whose ends are not blank |
| Types.Wrap64 | src/common/types.h:17 | a `uint64_t` result is the mathematical value reduced modulo 2^64, and is the value itself when that fits |
| Types.Wrap32 | src/common/types.h:163-164 | a `uint32_t` result is the value reduced modulo 2^32, unchanged when it fits |
| Types.Truncate8 | src/common/types.h:126 | narrowing to `uint8_t` keeps an index below 256 and never grows it |
| Types.ToSigned64 | src/common/types.h:18 | reading a `uint64_t` as `int64_t` keeps the bits (congruent modulo 2^64) and turns negative exactly from 2^63 on |
| Types.Elapsed | src/common/types.h:130-132 | the unsigned difference of two time stamps is the real gap when time moved forward, wraps otherwise, and adding it back to the start always gives the end |
| Types.SignedDiff | src/common/types.h:135-137 | `(int64_t)(a - b)` is the true distance whenever that distance fits in 63 bits |
| Types.UnitConversions | src/common/types.h:28-30 | `us_to_ns` and `ms_to_ns` multiply by 1000 and 10^6 when no overflow occurs, and a millisecond conversion is a microsecond conversion of a thousandfold value |
| Types.ConstantValues | src/common/types.h:46-49 | constant check: the slack bin width is 100 us = 100000 ns and the default deadline 10 ms = 10^7 ns |
| Types.TraceParts | src/common/types.h:129-153 | on a trace whose stamps are in order, the end-to-end latency, the load-balancer overhead and the worker's queue wait are the real gaps between their stamps, and the last two together fit inside the first |
| Types.DeadlineMissIff | src/common/types.h:134-142 | a request misses its deadline exactly when it is received after it, as long as the two are less than 2^63 ns apart; beyond that the signed cast inverts the answer |
| Types.HealthFlags | src/common/types.h:179 | one `is_healthy` flag per worker, in worker order |
| Types.UpdateLoadEma | src/common/types.h:183-185 | updating the load EMA changes only `load_ema`, shrinks its distance to the sample by the factor 1 - alpha, and for alpha in [0, 1] leaves it between the old estimate and the sample |
| Types.RepeatedDistance | src/common/types.h:183-185 | after k updates with the same sample the distance to that sample is (1 - alpha)^k times the original distance |
| Types.SchedulerTypeName | src/common/types.h:196-203 | every scheduler kind has a non-empty display name |
| Types.SchedulerTypeNameInjective | src/common/types.h:196-203 | two scheduler kinds have the same display name only if they are the same kind |
| Types.EmptyDecision | src/scheduler/po2_scheduler.h:35-39 | with no workers a scheduler answers worker 0 with confidence 0, and the decision time is the elapsed time between its two clock readings |
| Samples.Insert | scripts/merge_histograms.py:132 | inserting a sample into sorted samples keeps them sorted and adds exactly that sample |
| Samples.Sort | scripts/merge_histograms.py:132 | `np.sort` returns the samples rearranged in ascending order |
| Samples.SortedUnique | scripts/merge_histograms.py:132 | there is only one ascending arrangement of a collection of samples, so the sort is determined and sorting sorted data changes nothing |
| Samples.SortOfSorted | scripts/merge_histograms.py:132 | sorting already sorted samples leaves them as they are |
| Samples.Min | scripts/merge_histograms.py:217 | `np.min` is a sample no other sample lies below |
| Samples.Max | scripts/merge_histograms.py:218 | `np.max` is a sample no other sample lies above |
| Samples.SortEnds | scripts/merge_histograms.py:191-192 | the first and last sorted samples are the minimum and the maximum |
| Samples.SumSort | scripts/merge_histograms.py:189 | sorting does not change the total, hence not the mean |
| Samples.MeanBounds | scripts/merge_histograms.py:215 | `np.mean` lies between the minimum and the maximum |
| Samples.VarianceNonNeg | scripts/merge_histograms.py:216 | the population variance behind `np.std` is never negative |
| Samples.Rank | scripts/merge_histograms.py:122 | the linear-interpolation rank (n - 1) p / 100 of `np.percentile` lies within the sample positions |
| Samples.LowIndex | scripts/merge_histograms.py:122 | the lower neighbour of that rank is its floor, a valid position |
| Samples.PercentileOfSortedBetween | scripts/merge_histograms.py:122 | a percentile lies between the two order statistics around its rank |
| Samples.PercentileBounds | scripts/merge_histograms.py:122 | every percentile lies between the smallest and the largest sample |
| Samples.PercentileMonotone | scripts/merge_histograms.py:122 | a higher level never gives a lower percentile |
| Samples.PercentileExample | scripts/merge_histograms.py:122 | worked example, not a general property: the median of 10, 20, ..., 100 is 55, interpolated halfway between 50 and 60 as `np.percentile` does |
| EdfQueue.ExpiredIffNoSlack | src/scheduler/edf_queue.h:44-52 | a task is expired exactly when its slack is not positive, for deadlines within 2^63 ns of the clock |
| EdfQueue.EDFQueueLocked.constructor | src/scheduler/edf_queue.h:64 | a new queue is empty |
| EdfQueue.EDFQueueLocked.Peek | src/scheduler/edf_queue.h:82-87 | `peek` is empty exactly on an empty queue and otherwise shows a queued task whose deadline is the least |
| EdfQueue.EDFQueueLocked.Push | src/scheduler/edf_queue.h:66-70 | the queue gains exactly the pushed task and nothing else changes |
| EdfQueue.EDFQueueLocked.TryPop | src/scheduler/edf_queue.h:72-80 | `try_pop` fails and leaves the queue alone when it is empty; otherwise it returns what `peek` showed, a task of least deadline, and removes exactly that task |
| EdfQueue.EDFQueueLocked.Clear | src/scheduler/edf_queue.h:101-105 | the queue is empty afterwards |
| EdfQueue.EDFQueueLocked.GetExpired | src/scheduler/edf_queue.h:107-118 | `get_expired` removes the tasks with deadline <= now, returns them in deadline order, and leaves only tasks not yet due; together they are the old contents |
| EdfQueue.NoneDue | src/scheduler/edf_queue.h:112-113 | when the earliest deadline of a deadline-ordered list is in the future, no task of it is due, which is why the loop may stop at the first one |
| EdfQueue.BucketOf | src/scheduler/edf_queue.h:150 | a deadline hashes to one of the 1024 buckets |
| EdfQueue.ScanBucket | src/scheduler/edf_queue.h:160-164 | every bucket index `try_get_urgent` visits is one of the 1024 buckets |
| EdfQueue.MinElement | src/scheduler/edf_queue.h:170 | `std::min_element` with `operator<` on deadlines returns the first position of least deadline |
| EdfQueue.FirstMinUnique | src/scheduler/edf_queue.h:170 | that position is unique, so the task removed is determined by the bucket |
| EdfQueue.Remove | src/scheduler/edf_queue.h:173 | erasing one position drops exactly that task from the bucket |
| EdfQueue.SlackBin | src/scheduler/edf_queue.h:204-216 | a task's bin is 0 exactly when its slack is not positive; otherwise slack / 100 us + 1, capped at bin 31 |
| EdfQueue.Histogram | src/scheduler/edf_queue.h:197-220 | the slack histogram of a list of tasks has 32 bins |
| EdfQueue.HistogramTotal | src/scheduler/edf_queue.h:197-220 | each task is counted in exactly one bin, so the bins sum to the number of tasks |
| EdfQueue.HistogramStep | src/scheduler/edf_queue.h:203-217 | counting one more task adds one to its own bin and to no other |
| EdfQueue.HierarchicalTimingWheel.constructor | src/scheduler/edf_queue.h:144-146 | all buckets start empty, the size at 0, and the tick is the clock divided by the 1 us bucket width |
| EdfQueue.HierarchicalTimingWheel.Insert | src/scheduler/edf_queue.h:148-156 | `insert` appends the task to the bucket its deadline hashes to, leaves every other bucket alone, and counts one more task |
| EdfQueue.HierarchicalTimingWheel.TryGetUrgent | src/scheduler/edf_queue.h:158-179 | `try_get_urgent` takes the first-least-deadline task of the first non-empty bucket among the 128 scanned backwards from the current one, and fails changing nothing when all 128 are empty, whatever the other buckets hold |
| EdfQueue.HierarchicalTimingWheel.EraseAt | src/scheduler/edf_queue.h:172-174 | erasing the chosen task changes only its bucket and decrements the size |
| EdfQueue.HierarchicalTimingWheel.TryPop | src/scheduler/edf_queue.h:181-185 | `try_pop` is `try_get_urgent` at the given clock reading |
| EdfQueue.HierarchicalTimingWheel.GetSlackHistogram | src/scheduler/edf_queue.h:196-220 | the histogram counts every stored task in the bin of its slack, and its bins sum to the stored size |
| EdfQueue.CountTasks | src/scheduler/edf_queue.h:203-218 | the inner loop adds one bucket's tasks to the histogram built so far |
| EdfQueue.Bump | src/scheduler/edf_queue.h:217 | `++hist[bin]` changes only that bin |
| EdfQueue.UrgentOffset | src/scheduler/edf_queue.h:163-177 | the scan stops at the first offset whose bucket is non-empty, and every bucket before it is empty |
| EdfQueue.UrgentTaken | src/scheduler/edf_queue.h:168-175 | taking the first least task from the first non-empty scanned bucket is exactly what `try_get_urgent` promises |
| EdfQueue.UrgentFails | src/scheduler/edf_queue.h:163-178 | `try_get_urgent` fails exactly when all 128 scanned buckets are empty |
| EdfQueue.TotalTasksUpdate | src/scheduler/edf_queue.h:155-174 | replacing one bucket changes the task count by the difference in its size, which keeps `total_size_` equal to the tasks stored |
| EdfQueue.EDFQueue.constructor | src/scheduler/edf_queue.h:245-246 | a new queue of either implementation is empty |
| EdfQueue.EDFQueue.Push | src/scheduler/edf_queue.h:248-257 | `push` goes to the heap or to the wheel according to the implementation, leaves the other untouched, and the size grows by one |
| EdfQueue.EDFQueue.TryPop | src/scheduler/edf_queue.h:259-267 | `try_pop` pops the heap's earliest task or the wheel's urgent task, leaving the other structure untouched, and the size drops by one exactly when a task is returned |
| EdfQueue.EDFQueue.GetSlackHistogram | src/scheduler/edf_queue.h:281-286 | the histogram always reads the timing wheel, so with the locked heap every bin is zero |
| FcfsQueue.FCFSQueueLocked.constructor | src/scheduler/fcfs_queue.h:26 | a new queue is empty and has seen no pushes |
| FcfsQueue.FCFSQueueLocked.Size | src/scheduler/fcfs_queue.h:51-55 | the size is the number of tasks pushed minus the number taken from the front |
| FcfsQueue.FCFSQueueLocked.Empty | src/scheduler/fcfs_queue.h:57-60 | the queue is empty exactly when every pushed task has been taken |
| FcfsQueue.FCFSQueueLocked.Peek | src/scheduler/fcfs_queue.h:44-49 | `peek` shows the oldest task still queued, and nothing exactly when every pushed task has been taken |
| FcfsQueue.FCFSQueueLocked.Push | src/scheduler/fcfs_queue.h:28-32 | the task joins at the back and is recorded as the next one pushed |
| FcfsQueue.FCFSQueueLocked.TryPop | src/scheduler/fcfs_queue.h:34-42 | `try_pop` fails and changes nothing on an empty queue; otherwise its n-th success returns the n-th task pushed and drops it from the front |
| FcfsQueue.FCFSQueueLocked.Clear | src/scheduler/fcfs_queue.h:62-65 | the queue is empty afterwards, as if every task had been taken |
| FcfsQueue.FifoOrder | src/scheduler/fcfs_queue.h:28-42 | worked example of the order `TryPop` states in general: two pushes followed by two pops return the tasks in push order |
| FcfsQueue.Wrap | src/scheduler/fcfs_queue.h:97 | a ring index advanced by one stays below the capacity |
| FcfsQueue.Masked | src/scheduler/fcfs_queue.h:97-117 | `x & (Capacity - 1)` is the wrap-around of the index |
| FcfsQueue.MaskWraps | src/scheduler/fcfs_queue.h:82-97 | for a power-of-two capacity, masking with capacity - 1 is the remainder modulo the capacity |
| FcfsQueue.Occupied | src/scheduler/fcfs_queue.h:121-126 | the number of items between tail and head is head - tail, or that plus the capacity when the head has wrapped, and is below the capacity |
| FcfsQueue.RingPush | src/scheduler/fcfs_queue.h:95-106 | writing the head slot and advancing the head appends the item to the ring's contents |
| FcfsQueue.RingPop | src/scheduler/fcfs_queue.h:109-119 | the slot at the tail holds the oldest item, and advancing the tail drops exactly it |
| FcfsQueue.SPSCQueue.constructor | src/scheduler/fcfs_queue.h:81-84 | the capacity must be a power of two, and the new ring is empty |
| FcfsQueue.SPSCQueue.TryPush | src/scheduler/fcfs_queue.h:94-106 | `try_push` fails, changing nothing, exactly when capacity - 1 items are queued; otherwise the item joins at the back |
| FcfsQueue.SPSCQueue.TryPop | src/scheduler/fcfs_queue.h:108-119 | `try_pop` fails exactly when nothing is queued; otherwise it returns the oldest item and drops it |
| FcfsQueue.SPSCQueue.SizeApprox | src/scheduler/fcfs_queue.h:121-126 | without concurrent access `size_approx` is the exact number of queued items, always below the capacity |
| FcfsQueue.SPSCQueue.Empty | src/scheduler/fcfs_queue.h:128-131 | head == tail exactly when nothing is queued |
| FcfsQueue.FCFSQueue.constructor | src/scheduler/fcfs_queue.h:142-161 | the wrapper starts with an empty locked queue |
| FcfsQueue.FCFSQueue.Push | src/scheduler/fcfs_queue.h:144-146 | `push` forwards to the locked queue: the task joins at the back |
| FcfsQueue.FCFSQueue.TryPop | src/scheduler/fcfs_queue.h:148-150 | `try_pop` forwards to the locked queue: first in, first out |
| FcfsQueue.FCFSQueue.Size | src/scheduler/fcfs_queue.h:152-154 | the wrapper's size is the locked queue's |
| FcfsQueue.FCFSQueue.Empty | src/scheduler/fcfs_queue.h:156-158 | the wrapper is empty exactly when the locked queue is |
| Po2Scheduler.Po2Scheduler.constructor | src/scheduler/po2_scheduler.h:25-27 | the scheduler keeps the number of choices it is given, which must be at least one since selection starts from the first candidate |
| Po2Scheduler.Po2Scheduler.Candidates | src/scheduler/po2_scheduler.h:43-62 | the duplicate test can never reject a draw while fewer than `num_choices_` candidates are kept, so the candidates are exactly the first `num_choices_` draws, duplicates included |
| Po2Scheduler.Po2Scheduler.Schedule | src/scheduler/po2_scheduler.h:29-88 | with no workers the decision is worker 0 at confidence 0; otherwise the target is the first candidate of least load among the first one and the healthy later ones, narrowed to `uint8_t`, with confidence 1 - its load; the decision time is the clock difference |
| Po2Scheduler.SelectStep | src/scheduler/po2_scheduler.h:68-80 | one loop step keeps the first-best candidate: a later candidate takes over exactly when it is healthy and strictly less loaded |
| Po2Scheduler.FirstBestUnique | src/scheduler/po2_scheduler.h:64-80 | the candidate the loop selects is unique |
| Po2Scheduler.Po2Scheduler.Name | src/scheduler/po2_scheduler.h:90-92 | the name is "Power-of-" followed by the number of choices in decimal |
| Po2Scheduler.NameReadsBack | src/scheduler/po2_scheduler.h:90-92 | the number in the name reads back as the number of choices |
| Po2Scheduler.DefaultName | src/scheduler/po2_scheduler.h:90-92 | with the default of two choices the name agrees with `scheduler_type_name` for the power-of-two kind |
| MalcolmScheduler.Delta | src/scheduler/malcolm_scheduler.h:134-142 | the variance increase `(l + 1 - m)^2 - (l - m)^2` computed for a worker equals `2 (l - m) + 1`, a strictly increasing function of its load |
| MalcolmScheduler.DeltaOrder | src/scheduler/malcolm_scheduler.h:141-147 | comparing increases is comparing loads, so the heuristic is least-loaded selection |
| MalcolmScheduler.Loads | src/scheduler/malcolm_scheduler.h:117-122 | the load vector holds every worker's `load_ema`, in worker order |
| MalcolmScheduler.CollectLoads | src/scheduler/malcolm_scheduler.h:118-122 | the copying loop produces exactly that load vector |
| MalcolmScheduler.Increases | src/scheduler/malcolm_scheduler.h:134-142 | one variance increase per worker, each that worker's |
| MalcolmScheduler.LeastIncrease | src/scheduler/malcolm_scheduler.h:128-148 | the selection loop returns the first healthy worker of least load, as `uint8_t`, or 0 when no healthy worker's increase is below the DBL_MAX sentinel |
| MalcolmScheduler.ScanIsLeastLoaded | src/scheduler/malcolm_scheduler.h:128-148 | the generic first-least scan over health flags and increases is that choice |
| MalcolmScheduler.FirstLeastLoadedUnique | src/scheduler/malcolm_scheduler.h:131-148 | the chosen worker is unique |
| MalcolmScheduler.HealthyChosen | src/scheduler/malcolm_scheduler.h:131-148 | when some healthy worker's increase is below DBL_MAX the heuristic picks a healthy worker |
| MalcolmScheduler.SquaredDeviationsOf | src/scheduler/malcolm_scheduler.h:151-154 | the loop adds up the squared deviations of the loads from the mean |
| MalcolmScheduler.MalcolmScheduler.ScheduleHeuristic | src/scheduler/malcolm_scheduler.h:108-159 | the heuristic's target is the least-loaded healthy worker relative to the mean load, and its confidence is exp of minus the population variance of the loads |
| MalcolmScheduler.MalcolmScheduler.constructor | src/scheduler/malcolm_scheduler.h:42-65 | without libtorch the heuristic is always selected, whatever the path and flag |
| MalcolmScheduler.MalcolmScheduler.Schedule | src/scheduler/malcolm_scheduler.h:164-205 | no workers give worker 0 at confidence 0; otherwise the decision is the heuristic's, `schedule_model` falling back to it; the decision time is the clock difference |
| MalcolmScheduler.MalcolmScheduler.Name | src/scheduler/malcolm_scheduler.h:89-91 | the name is "Malcolm-Heuristic" exactly when the heuristic is in use |
| MalcolmScheduler.ConstructedName | src/scheduler/malcolm_scheduler.h:42-65 | a scheduler built in this configuration always reports "Malcolm-Heuristic" |
| Selection.TargetOf | src/scheduler/malcolm_scheduler.h:128-146 | the reported worker is the kept position as `uint8_t`, or 0 when none was kept |
| Selection.ScanStep | src/scheduler/malcolm_scheduler.h:131-148 | one step of a first-least scan: a position takes over exactly when it is eligible and scores strictly below the least so far |
| Selection.ScanStart | src/scheduler/malcolm_scheduler.h:128-129 | before the first position nothing is kept and the least score is the sentinel |
| Selection.ScanFinds | src/scheduler/malcolm_scheduler.h:128-148 | the scan keeps a position exactly when some eligible position scores below the sentinel |
| Selection.FirstLeastUnique | src/scheduler/malcolm_scheduler.h:128-148 | the kept position is unique |
| MalcolmStrictScheduler.BinsBelow | src/scheduler/malcolm_strict_scheduler.h:294-297 | the urgent-task count over the first bins is at least the count of the last of them |
| MalcolmStrictScheduler.ExpectedLatency | src/scheduler/malcolm_strict_scheduler.h:301-303 | the expected latency `avg_service_time * (1 + queue_length)` is that product whenever it fits in 63 bits, and wraps like the C++ arithmetic otherwise |
| MalcolmStrictScheduler.DeadlineMarginIs100Us | src/scheduler/malcolm_strict_scheduler.h:309 | constant check: the safety margin `us_to_ns(100)` is 100000 ns |
| MalcolmStrictScheduler.DeadlineTerm | src/scheduler/malcolm_strict_scheduler.h:307-311 | a projected miss adds 10^6 to the risk, a slack within 100 us adds between 0 and 10^4, and more slack adds nothing |
| MalcolmStrictScheduler.DeadlineTermMonotone | src/scheduler/malcolm_strict_scheduler.h:307-311 | less slack never means less deadline risk |
| MalcolmStrictScheduler.RiskFollowsSlack | src/scheduler/malcolm_strict_scheduler.h:280-311 | a worker whose projected slack shrinks never scores as less risky |
| MalcolmStrictScheduler.LateIsRiskier | src/scheduler/malcolm_strict_scheduler.h:300-311 | once a worker's projected slack turns negative it scores at least 990000 more than with any non-negative slack |
| MalcolmStrictScheduler.UrgentTasksAdd | src/scheduler/malcolm_strict_scheduler.h:292-298 | each task in the four most urgent slack bins adds exactly 500 to the risk, all else equal |
| MalcolmStrictScheduler.ScoreWorker | src/scheduler/malcolm_strict_scheduler.h:277-311 | the per-worker loop body computes that worker's risk: queue length x 100 plus P99 / 1000, scaled by 2 - capacity, plus 500 per urgent task, plus the deadline term |
| MalcolmStrictScheduler.Risks | src/scheduler/malcolm_strict_scheduler.h:276-317 | one risk per worker, each scored at the clock reading taken for it |
| MalcolmStrictScheduler.Confidence | src/scheduler/malcolm_strict_scheduler.h:319 | the confidence is the reciprocal of 1 + least risk / 10^6, so it lies in (0, 1] for a non-negative risk |
| MalcolmStrictScheduler.MalcolmStrictScheduler.ScheduleHeuristic | src/scheduler/malcolm_strict_scheduler.h:267-321 | the target is the first healthy worker of least risk below the DBL_MAX sentinel (0 when none), and the confidence is derived from that least risk |
| MalcolmStrictScheduler.MalcolmStrictScheduler.Schedule | src/scheduler/malcolm_strict_scheduler.h:86-106 | no workers give worker 0 at confidence 0; otherwise, with no model loaded, the decision is the heuristic's; the decision time is the clock difference |
| MalcolmStrictScheduler.MalcolmStrictScheduler.constructor | src/scheduler/malcolm_strict_scheduler.h:58-84 | the scheduler keeps its CVaR alpha, and without libtorch no model is loaded and no quantile samples exist |
| MalcolmStrictScheduler.DeadlinePenalty | src/scheduler/malcolm_strict_scheduler.h:240-243 | a request already past its deadline costs the fixed penalty 10^9 |
| MalcolmStrictScheduler.PenaltyZones | src/scheduler/malcolm_strict_scheduler.h:240-257 | with positive slack: no penalty beyond twice the expected tail latency, a penalty below 1000 between one and two times it, and the log barrier up to it |
| MalcolmStrictScheduler.VarIndex | src/scheduler/malcolm_strict_scheduler.h:217 | the VaR index `(size_t)(alpha * 32)` truncates toward zero and indexes one of the 32 quantiles |
| MalcolmStrictScheduler.DefaultVarIndex | src/scheduler/malcolm_strict_scheduler.h:51-52 | at the default alpha 0.95 the VaR is the 31st of 32 sorted quantiles |
| MalcolmStrictScheduler.MalcolmStrictScheduler.ComputeCvar | src/scheduler/malcolm_strict_scheduler.h:195-231 | the mean is the mean of the estimates, the VaR is the sorted estimate at the VaR index, the CVaR is the mean of the sorted estimates from there on, and VaR <= CVaR <= the largest estimate |
| MalcolmStrictScheduler.MalcolmStrictScheduler.CopyQuantiles | src/scheduler/malcolm_strict_scheduler.h:206-209 | the copying loop reproduces the estimates |
| MalcolmStrictScheduler.MalcolmStrictScheduler.TailSum | src/scheduler/malcolm_strict_scheduler.h:221-226 | the loop sums the sorted estimates from the VaR index on and counts them |
| MalcolmStrictScheduler.TailMeanBounds | src/scheduler/malcolm_strict_scheduler.h:220-227 | the mean of a sorted tail lies between its first element and the maximum |
| MalcolmStrictScheduler.SortedTail | src/scheduler/malcolm_strict_scheduler.h:210-227 | sorting does not change the mean, and the tail mean of the sorted estimates lies between the VaR and the largest estimate |
| MalcolmStrictScheduler.MalcolmStrictScheduler.GenerateQuantileSamples | src/scheduler/malcolm_strict_scheduler.h:370-386 | the loop fills 32 sample points, each the stratified value for its index |
| MalcolmStrictScheduler.QuantileSamplesIncrease | src/scheduler/malcolm_strict_scheduler.h:374-385 | the sample points lie strictly inside (0, 1) and strictly increase |
| MalcolmStrictScheduler.MalcolmStrictScheduler.Name | src/scheduler/malcolm_strict_scheduler.h:114-116 | the name is the one `scheduler_type_name` gives the Malcolm-Strict kind |
| Metrics.MissRate | src/common/metrics.h:209-214 | the miss rate is 0 without requests and otherwise the fraction of requests that missed |
| Metrics.MissRateBounds | src/common/metrics.h:209-214 | with no more misses than requests the rate lies in [0, 1] |
| Metrics.MetricsCollector.constructor | src/common/metrics.h:290-296 | a new collector has empty histograms for end-to-end latency, load-balancer overhead and each of the 16 workers, and both counters at zero |
| Metrics.MetricsCollector.RecordRequest | src/common/metrics.h:180-195 | a request adds its end-to-end latency and its overhead to their histograms, counts one request and one miss when it missed, and adds its latency to its worker's histogram only when the worker id is below 16 |
| Metrics.MetricsCollector.RecordLatency | src/common/metrics.h:198-201 | one latency sample and one request are recorded, and nothing else changes |
| Metrics.MetricsCollector.RecordDeadlineMiss | src/common/metrics.h:204-206 | one more miss, nothing else |
| Metrics.MetricsCollector.DeadlineMissRate | src/common/metrics.h:209-214 | 0 without requests, otherwise misses divided by requests |
| Metrics.MetricsCollector.WorkerLatency | src/common/metrics.h:233-235 | a worker id below 16 reads its own histogram, and any id reads the slot of id mod 16 |
| Metrics.MetricsCollector.Reset | src/common/metrics.h:238-246 | every histogram is empty and both counters are zero afterwards |
| Metrics.WorkerSlotOfRequest | src/common/metrics.h:192-194 | a recorded request shows up in its worker's histogram exactly when the worker id is below 16 |
| Metrics.KeyLines | src/common/metrics.h:270-276 | the summary writes one `Name: value` line per key |
| Metrics.KeyEntries | scripts/generate_report.py:48-53 | each such line gives `load_summary` its key and the parsed value |
| Metrics.KeyLinesRead | scripts/generate_report.py:43-54 | lines with plain keys and unpadded values read back as their keys and parsed values, later keys winning |
| Metrics.SummaryTexts | src/common/metrics.h:270-276 | seven value texts: the two counters, the percentage and four percentiles |
| Metrics.SummaryFile | src/common/metrics.h:268-277 | summary.txt has one line per summary key |
| Metrics.SummaryKeysDistinct | src/common/metrics.h:270-276 | every key is plain text and none of the three counter keys occurs again later |
| Metrics.SummaryTextValue | src/common/metrics.h:270-272 | the first three values parse to the request count, the miss count and the percentage |
| Metrics.CounterValue | src/common/metrics.h:270-271 | a counter written in decimal parses back to itself |
| Metrics.SummaryFileRead | src/common/metrics.h:268-277 | round trip: `load_summary` of summary.txt gives both counters exactly and the miss rate as the percentage written, its '%' stripped |
| Metrics.SummaryKeyNames | src/common/metrics.h:270-272 | the keys read are the two counters and "Deadline Miss Rate", the key the report's miss-rate line looks up |
| Metrics.SummaryKeysLong | src/common/metrics.h:270-276 | every summary.txt key is longer than the report's percentile keys, so none of them is "P50" |
| Metrics.KeyAbsent | scripts/generate_report.py:47-53 | a key no line carries is absent from what `load_summary` builds |
| Metrics.ExportedSummaryBreaksBlock | src/common/metrics.h:273-276 | summary.txt has no bare "P50" key, so the report's summary block as written fails on it, while the corrected block prints N/A |
| Metrics.ExportedSummaryRate | src/common/metrics.h:272 | the corrected summary block prints the miss rate summary.txt holds, to four decimals |
| Metrics.BucketOf | src/common/metrics.h:316 | a clock reading falls in one of the 10 buckets |
| Metrics.TotalUpdate | src/common/metrics.h:317-322 | changing one bucket changes the window's total by the difference |
| Metrics.ThroughputCounter.constructor | src/common/metrics.h:309-311 | all ten buckets start at zero and the last bucket is 0 |
| Metrics.ThroughputCounter.Record | src/common/metrics.h:314-325 | the current bucket counts one more request; on entering a new bucket the next one, the oldest of the window, is cleared and the window's total drops by what it held |
| Metrics.ThroughputCounter.GetRps | src/common/metrics.h:328-336 | the rate is the window's total over its 10 x 100 ms = 1 s length, so the total itself |
| MergeHistograms.TruncToInt | scripts/merge_histograms.py:42 | Python's `int()` of a float truncates toward zero: the result is within one of the value, on the side of zero |
| MergeHistograms.Repeat | scripts/merge_histograms.py:46 | `[value] * k` is k copies of the value, and none when k is not positive |
| MergeHistograms.CollectStep | scripts/merge_histograms.py:33-48 | reading one more line appends that line's own samples |
| MergeHistograms.CollectAppend | scripts/merge_histograms.py:33-48 | reading two pieces of a file in turn gives the first piece's samples followed by the second's |
| MergeHistograms.CollectBound | scripts/merge_histograms.py:33-48 | when no line yields more than k samples a file yields at most k per line |
| MergeHistograms.ParseHdrClassic | scripts/merge_histograms.py:18-50 | the line loop of `parse_hdr_classic` returns the samples of its lines in file order |
| MergeHistograms.ClassicLineCount | scripts/merge_histograms.py:34-48 | a stripped data line with at least three fields whose first and third parse adds `min(int(count), 1000)` copies of its value (none for a non-positive count); no line adds more than 1000 |
| MergeHistograms.ClassicSamplesBound | scripts/merge_histograms.py:29-50 | a classic file never yields more than 1000 samples per line |
| MergeHistograms.NumeralFields | scripts/merge_histograms.py:34-38 | numerals joined by single spaces form a data line that is neither blank, a comment nor the header, and splits back into those numerals |
| MergeHistograms.ClassicRowShape | scripts/merge_histograms.py:22-38 | a row of the histogram's classic output survives `strip`, is not skipped, and splits into its four printed fields |
| MergeHistograms.ClassicRowRoundTrip | scripts/merge_histograms.py:22-46 | a printed classic row reads back as its (three-decimal) value repeated min(count, 1000) times |
| MergeHistograms.ClassicLineOfFields | scripts/merge_histograms.py:38-46 | on a data line whose first and third fields parse, the line yields its value `min(int(count), 1000)` times |
| MergeHistograms.RawLineCount | scripts/merge_histograms.py:82-92 | a CSV line yields at most one sample |
| MergeHistograms.ParseRawCsv | scripts/merge_histograms.py:72-94 | the line loop of `parse_raw_csv` returns the samples of its lines in file order |
| MergeHistograms.RawSamplesBound | scripts/merge_histograms.py:78-94 | a raw file yields at most one sample per line |
| MergeHistograms.CsvNumeralsNotHeader | scripts/merge_histograms.py:83 | a row of digits, signs, points and commas never contains "latency" in lower case, so it is never skipped as a header |
| MergeHistograms.RawRowShape | scripts/merge_histograms.py:82-86 | a `timestamp,latency` row of numerals is stripped, not skipped, and splits into its two fields |
| MergeHistograms.RawRowRoundTrip | scripts/merge_histograms.py:82-91 | a `timestamp,latency` row reads back as exactly its printed latency, taken from the last column |
| MergeHistograms.RawLineOfFields | scripts/merge_histograms.py:86-90 | a data line whose last field parses yields exactly that value |
| MergeHistograms.DetectFormat | scripts/merge_histograms.py:101-113 | a `.hdr` file is read as classic, a `.csv` file as raw CSV, and any other file as classic exactly when its stripped first line starts with '#' or contains "Value" |
| MergeHistograms.LoadLatencies | scripts/merge_histograms.py:97-113 | `load_latencies` returns the samples of the reader chosen for the file |
| MergeHistograms.MergeFiles | scripts/merge_histograms.py:156-177 | no matching file and no samples at all are the two error exits; otherwise the result is the concatenation of the per-file samples |
| MergeHistograms.LoadAll | scripts/merge_histograms.py:164-170 | the loading loop keeps the non-empty results in file order, and keeps none exactly when the files hold no samples |
| MergeHistograms.LoadAllStep | scripts/merge_histograms.py:165-169 | one loop step keeps the loop's invariant, whether or not the file's result is kept |
| MergeHistograms.LoadsOfEach | scripts/merge_histograms.py:164-177 | the merged samples are the concatenation of every file's own samples |
| MergeHistograms.LoadsSkipEmpty | scripts/merge_histograms.py:168-177 | a file without samples does not change the merged samples |
| MergeHistograms.Divisor | scripts/merge_histograms.py:181 | every unit's divisor (1, 1000, 10^6) is positive |
| MergeHistograms.Scale | scripts/merge_histograms.py:182 | unit conversion divides every sample by the divisor and keeps their number |
| MergeHistograms.ScaleInsert | scripts/merge_histograms.py:182 | dividing by a positive divisor keeps sorted samples sorted and commutes with inserting a sample |
| MergeHistograms.ScaleSort | scripts/merge_histograms.py:132 | converting the unit and then sorting equals sorting and then converting |
| MergeHistograms.ScalePercentile | scripts/merge_histograms.py:182-186 | the percentiles of the converted samples are the converted percentiles |
| MergeHistograms.ComputePercentiles | scripts/merge_histograms.py:116-123 | one `P<level>` entry per requested level, in the order requested |
| MergeHistograms.LevelsValid | scripts/merge_histograms.py:185 | constant check: the reported levels 50, 90, 95, 99, 99.5, 99.9, 99.99 are percentages |
| MergeHistograms.LevelsAscending | scripts/merge_histograms.py:185 | constant check: the reported levels are percentages in increasing order |
| MergeHistograms.PercentilesOrdered | scripts/merge_histograms.py:116-123 | each reported percentile lies between the smallest and the largest sample, and they rise with the level |
| MergeHistograms.CdfPercent | scripts/merge_histograms.py:137 | the percentage of a CDF point is never negative |
| MergeHistograms.CdfIndex | scripts/merge_histograms.py:138 | the index `min(int(p / 100 * n), n - 1)` is always a valid position |
| MergeHistograms.Cdf | scripts/merge_histograms.py:126-141 | the CDF has `num_points + 1` points |
| MergeHistograms.GenerateCdf | scripts/merge_histograms.py:126-141 | the loop of `generate_cdf` produces those points |
| MergeHistograms.CdfPercentMonotone | scripts/merge_histograms.py:136-137 | later points have larger percentages |
| MergeHistograms.CdfIndexMonotone | scripts/merge_histograms.py:136-138 | later points never look at an earlier sorted sample |
| MergeHistograms.CdfPercentEnds | scripts/merge_histograms.py:136-137 | the percentages run from exactly 0 to exactly 100 |
| MergeHistograms.CdfIndexEnds | scripts/merge_histograms.py:138 | the first point looks at the smallest sample and the last at the largest |
| MergeHistograms.CdfShape | scripts/merge_histograms.py:126-141 | the CDF runs from 0 to 100 percent and from the minimum to the maximum latency |
| MergeHistograms.CdfNonDecreasing | scripts/merge_histograms.py:126-141 | both columns of the CDF never decrease |
| MergeHistograms.CdfLines | scripts/merge_histograms.py:203-206 | the CDF file has a header line and then one line per point |
| MergeHistograms.SummaryLines | scripts/merge_histograms.py:211-220 | the summary file has six fixed lines and one per percentile level |
| MergeHistograms.MergeMain | scripts/merge_histograms.py:144-222 | `main` fails exactly when no file matched or no samples were found, reports the missing files as such, and otherwise writes the CDF and summary of the merged samples in the chosen unit |
| GenerateReport.ParseValue | scripts/generate_report.py:50-53 | a value that `float()` rejects after stripping a trailing '%' is kept as its text |
| GenerateReport.SummaryEntry | scripts/generate_report.py:48-53 | a line contributes an entry exactly when it contains ':' |
| GenerateReport.LoadSummary | scripts/generate_report.py:43-54 | the line loop of `load_summary` builds the dictionary the lines define, a later line overriding an earlier one |
| GenerateReport.LoadSummaryStep | scripts/generate_report.py:47-53 | one loop step keeps the loop's invariant |
| GenerateReport.RecordOf | scripts/generate_report.py:48-53 | a line with ':' sets the key before its first ':' (stripped) to the parsed rest; any other line changes nothing |
| GenerateReport.EntryOf | scripts/generate_report.py:48-53 | a `Name: text` line reads back as that name and the parsed text |
| GenerateReport.SplitEntryParts | scripts/generate_report.py:49-53 | the split is at the first ':', key and value each stripped |
| GenerateReport.NumeralValue | scripts/generate_report.py:51 | a numeral reads back as its number |
| GenerateReport.PercentValue | scripts/generate_report.py:51 | a numeral followed by '%' reads back as the numeral's number |
| GenerateReport.StatLineEntry | scripts/generate_report.py:48-53 | a `Name: {v:.4f}` line of the merged summary reads back as v rounded to four decimals |
| GenerateReport.PercentLineEntry | scripts/generate_report.py:51 | a `Name: {v:.4f}%` line reads back as the rounded number without its '%' |
| GenerateReport.CountLineEntry | scripts/generate_report.py:48-53 | `Total Samples: n` reads back as the number n |
| GenerateReport.UnitLineEntry | scripts/generate_report.py:52-53 | `Unit: us` is no number, so the text itself is kept |
| GenerateReport.NoNumber | scripts/generate_report.py:51-53 | a word starting with a lower-case letter is not a number for `float()` |
| GenerateReport.SummaryOfEntries | scripts/generate_report.py:47-53 | a file whose every line is an entry reads back as the dictionary of those entries |
| GenerateReport.MapOfLast | scripts/generate_report.py:51-53 | the last line with a key decides its value |
| GenerateReport.MapOfAbsent | scripts/generate_report.py:47-53 | a key no line names is absent from the dictionary |
| GenerateReport.MergedEntries | scripts/merge_histograms.py:211-220 | each line of the merged summary file reads back as one entry: six fixed ones and one per level |
| GenerateReport.MergedHeadEntries | scripts/merge_histograms.py:213-218 | the first six lines read back as count, unit, mean, deviation, minimum and maximum |
| GenerateReport.MergedLevelEntry | scripts/merge_histograms.py:219-220 | the line of each percentile level reads back as its entry |
| GenerateReport.LevelEntryAt | scripts/merge_histograms.py:219-220 | the entry of level k is `P<level>` with that percentile of the converted samples, rounded to four decimals |
| GenerateReport.MergedLines | scripts/merge_histograms.py:211-220 | reading the merged summary file gives the dictionary of its entries |
| GenerateReport.MergedKeys | scripts/merge_histograms.py:211-220 | the merged summary has "Total Samples" once, each level key once, and no "Deadline Miss Rate" key |
| GenerateReport.MergedSummaryRead | scripts/merge_histograms.py:211-220 | round trip: `load_summary` of the file `merge_histograms.py` writes gives back the sample count and every percentile level's value rounded to four decimals, with no miss rate |
| GenerateReport.MergedLevelRead | scripts/merge_histograms.py:219-220 | each level's line is the last one under its key |
| GenerateReport.CdfRows | scripts/generate_report.py:34-38 | the data lines give equally many percentiles and latencies, at most one pair per line |
| GenerateReport.LoadCdf | scripts/generate_report.py:27-40 | the loop of `load_cdf` skips the header and reads the two columns, failing where `float()` raises |
| GenerateReport.CdfRowsStep | scripts/generate_report.py:34-38 | one more line is skipped (fewer than two fields), appended, or makes the load fail |
| GenerateReport.CdfRowsFailed | scripts/generate_report.py:37-38 | a line that raises ends the whole load |
| GenerateReport.CdfRowsOfPairs | scripts/generate_report.py:34-38 | lines that are all points read back as the two columns of those points |
| GenerateReport.CdfRowOfFormatted | scripts/generate_report.py:35-38 | a row `merge_histograms.py` writes reads back as its point rounded to four decimals |
| GenerateReport.CdfRoundTrip | scripts/generate_report.py:27-40 | round trip: the CDF file `merge_histograms.py` writes reads back as its points, each rounded to four decimals, in order |
| GenerateReport.Rule | scripts/generate_report.py:189-205 | `"=" * 60` and `"-" * 40` are rules of exactly that length |
| GenerateReport.FixedField | scripts/generate_report.py:212-216 | `{summary.get(key, 'N/A'):.Nf}` formats exactly when the key holds a number; the 'N/A' default and a text value raise |
| GenerateReport.SummaryBlockAsWrittenOk | scripts/generate_report.py:209-216 | the summary block as written succeeds exactly when the four percentiles and the miss rate are numbers, and then prints what the corrected block prints |
| GenerateReport.BlocksEmpty | scripts/generate_report.py:200-220 | there is a block for each loaded experiment and for nothing else |
| GenerateReport.BlocksStep | scripts/generate_report.py:200-220 | one more experiment name adds its block at the end, if it was loaded |
| GenerateReport.Number | scripts/generate_report.py:233-234 | `summary.get(key, default)` in arithmetic is the stored number or the default, and raises exactly on a text value |
| GenerateReport.RealMax | scripts/generate_report.py:233 | `max` returns one of its arguments, no smaller than either |
| GenerateReport.TailImprovementSign | scripts/generate_report.py:233 | the P99.9 improvement is positive exactly when the proposed tail is lower, zero exactly when equal, the plain relative change once the baseline is at least 1, and at most 100% for a non-negative proposed tail |
| GenerateReport.ComparisonValues | scripts/generate_report.py:233-234 | a comparison fails exactly when one of its inputs is text, and otherwise is the tail improvement and the difference of the miss rates, 0 standing in for a missing value |
| GenerateReport.ComparisonExample | scripts/generate_report.py:233-234 | worked example, not a general property: a P99.9 of 100 against 60 is a 40% improvement, and miss rates of 2.5 and 0.1 give a reduction of 2.4 points |
| GenerateReport.FindingsGate | scripts/generate_report.py:223-255 | the findings appear only when experiments A and C both have summaries, and include the comparison with Malcolm exactly when B has one too |
| GenerateReport.GenerateTextReport | scripts/generate_report.py:185-263 | the loop builds the report as written: the banner, the blocks of the loaded experiments in fixed order, the findings and the footer, or the ValueError of the first summary value `:.Nf` cannot format; whenever it succeeds its text is also the corrected report's |
| GenerateReport.ReportAsWrittenErrors | scripts/generate_report.py:207-249 | the report as written can only fail with a format ValueError or a TypeError from arithmetic on text |
| GenerateReport.BlocksAgree | scripts/generate_report.py:200-220 | wherever the blocks as written succeed, they equal the corrected blocks |
| GenerateReport.ReportAgrees | scripts/generate_report.py:185-263 | wherever the report as written succeeds, the corrected report is the same text |
| GenerateReport.ReportErrors | scripts/generate_report.py:230-249 | the corrected report fails only where arithmetic meets a text value |
| GenerateReport.MergedSummaryBreaksReport | scripts/generate_report.py:216 | the summary `merge_histograms.py` writes makes the report as written fail on the miss-rate line, while the corrected report prints N/A there |
| GenerateReport.MergedReadLevels | scripts/generate_report.py:212-216 | the four percentile keys of the summary block are among those `merge_histograms.py` writes, and the miss rate is not |
| GenerateReport.MissingRateReport | scripts/generate_report.py:216 | a summary with numeric percentiles but no miss rate breaks the report as written, and the corrected report prints N/A |
| GenerateReport.MissingRateAsWritten | scripts/generate_report.py:216 | as written, a summary without a miss rate makes the report fail with a format error on that key |
| GenerateReport.MissingRateIntended | scripts/generate_report.py:216 | the corrected report succeeds on a summary without a miss rate and prints N/A for it |
| GenerateReport.SingleExperiment | scripts/generate_report.py:200-220 | with only experiment A loaded the report holds its block alone |
| GenerateReport.SummarySource | scripts/generate_report.py:300-309 | a summary is loaded exactly when the merged summary, summary.txt or a nested summary.txt exists |
| GenerateReport.LoadExperiment | scripts/generate_report.py:292-309 | loading an experiment fails only on an unreadable CDF file, and then names that experiment |
| GenerateReport.ReadExperiment | scripts/generate_report.py:287-309 | the loop body loads one experiment directory as `LoadExperiment` does |
| GenerateReport.LoadExperiments | scripts/generate_report.py:284-309 | loading fails only on an unreadable CDF file |
| GenerateReport.LoadExperimentsKeys | scripts/generate_report.py:286-292 | there is one entry per listed experiment whose directory exists |
| GenerateReport.LoadExperimentsFailed | scripts/generate_report.py:296-297 | the first failure ends the loading |
| GenerateReport.LoadExperimentsNone | scripts/generate_report.py:288-290 | with no experiment directory present nothing is loaded |
| GenerateReport.ReportMain | scripts/generate_report.py:270-322 | `main` fails on a missing results directory, on an unreadable CDF and when no experiment directory exists; otherwise it produces the text report as written, including its ValueError on a summary without a miss rate |
| GenerateReport.NoDataExit | scripts/generate_report.py:311-313 | the no-data exit happens exactly when none of the three experiment directories exists |
| LbContext.InitialWorker | src/load_balancer/lb_context.cpp:33-43 | worker i starts with id `uint8_t(i)`, its configured address, healthy, capacity 1, no load, an empty queue and an all-zero slack histogram |
| LbContext.Dispatched | src/load_balancer/lb_context.cpp:148-154 | routing a request to a worker adds one to its queue length (in `uint32_t` arithmetic) and moves its load estimate towards the new length; no other worker changes |
| LbContext.ServiceTimeEma | src/load_balancer/lb_context.cpp:186-189 | the truncated `0.9 avg + 0.1 sample` lies between the old average and the new sample |
| LbContext.Completed | src/load_balancer/lb_context.cpp:176-190 | a response takes one off the worker's queue length (never below zero), moves its load estimate towards the new length and its service-time average towards the measured service time; no other worker changes |
| LbContext.Decayed | src/load_balancer/lb_context.cpp:259-267 | one state update multiplies every load estimate by 0.99 and changes nothing else |
| LbContext.TraceOf | src/load_balancer/lb_context.cpp:193-203 | the trace's end-to-end latency runs from the receive time to the completion time, its load-balancer overhead is zero, and it carries the responding worker and the request's deadline |
| LbContext.DispatchKeepsQueuesMatch | src/load_balancer/lb_context.cpp:136-154 | routing a request with a new id keeps every worker's queue length equal to the number of pending requests routed to it, as long as the count does not wrap |
| LbContext.RoutedToAdd | src/load_balancer/lb_context.cpp:145 | a new pending request adds one request to its own worker's set and leaves every other worker's set alone |
| LbContext.CompletionKeepsQueuesMatch | src/load_balancer/lb_context.cpp:163-183 | the response to a pending request from the worker it was routed to keeps that correspondence |
| LbContext.DispatchThenCompleteRestoresQueue | src/load_balancer/lb_context.cpp:148-183 | routing a request to a worker and taking its response back restores that worker's queue length and leaves the others untouched |
| LbContext.DecayShrinksLoads | src/load_balancer/lb_context.cpp:259-267 | decay keeps queue lengths and health and shrinks every non-negative load towards zero |
| LbContext.DeadlineMet | src/load_balancer/lb_context.cpp:218 | the deadline counts as met exactly when the completion time is not after it |
| LbContext.LBContext.constructor | src/load_balancer/lb_context.cpp:14-46 | there is one initial worker state per configured address, in order, nothing pending and no scheduling latency recorded |
| LbContext.LBContext.HandleClientRequest | src/load_balancer/lb_context.cpp:114-158 | the decision time is recorded, the request becomes pending under its id with its receive time, deadline and chosen worker, that worker is marked dispatched, and the worker request copies id, deadline, type and size with the dispatch time |
| LbContext.LBContext.HandleWorkerResponse | src/load_balancer/lb_context.cpp:160-224 | an unknown id changes nothing and sends nothing; a pending one is removed and its worker marked completed; its trace is recorded in full (end-to-end latency, zero LB overhead, one more request, one more miss exactly when the trace missed its deadline, and the latency in its worker's slot for ids below 16); the client response says whether the deadline was met |
| LbContext.LBContext.UpdateWorkerStates | src/load_balancer/lb_context.cpp:251-268 | every load estimate decays by 1%, nobody is marked unhealthy, and the pending requests stay as they are |
| LbMain.Kept | src/load_balancer/main.cpp:74-78 | a token yields nothing exactly when it is all blanks (spaces and tabs), and otherwise one entry |
| LbMain.KeptSlice | src/load_balancer/main.cpp:74-77 | the entry pushed is the token from its first to its last non-blank character |
| LbMain.TrimClean | src/load_balancer/main.cpp:74-77 | trimming leaves a clean address as it is |
| LbMain.ParseWorkerList | src/load_balancer/main.cpp:68-81 | the `getline` loop of `parse_worker_list` returns the trimmed, non-blank tokens between commas, in order |
| LbMain.WorkerListHead | src/load_balancer/main.cpp:72 | one `getline` step: the list of a non-empty input is what its first token keeps, followed by the list of what comes after the first ',' |
| LbMain.WorkerListStep | src/load_balancer/main.cpp:72-79 | a token followed by ',' contributes exactly what it keeps, ahead of everything after the ',', so order is kept and blank tokens drop out |
| LbMain.WorkerListLast | src/load_balancer/main.cpp:72-79 | the last token, without a ',' after it, contributes what it keeps |
| LbMain.KeptClean | src/load_balancer/main.cpp:74-77 | what a token without ',' keeps is a clean address: no ',' and no blank at either end |
| LbMain.WorkerListClean | src/load_balancer/main.cpp:68-81 | every entry of a parsed list is a clean address |
| LbMain.WorkerListJoin | src/load_balancer/main.cpp:68-81 | round trip: clean addresses written with ',' between them parse back to the same list |
| LbMain.ParseCommandLine | src/load_balancer/main.cpp:83-142 | the `getopt_long` loop and the empty-list check give the outcome the option list defines: a run, an exit status, or an exception from `std::stoi`/`std::stoul` |
| LbMain.RunHasWorkers | src/load_balancer/main.cpp:138-142 | a run always has at least one worker, and every worker address is clean |
| LbMain.FirstStopDecides | src/load_balancer/main.cpp:110-134 | the first option that stops `main` (help, an unknown option, an unknown algorithm) decides the exit status, whatever follows it |
| LbMain.NoStopOutcome | src/load_balancer/main.cpp:101-142 | when no option stops `main`, the outcome is decided after the loop by the settings the options made |
| LbMain.SettleWorkers | src/load_balancer/main.cpp:107-109 | only `--workers` touches the worker list, and it replaces it |
| LbMain.LastWorkersWin | src/load_balancer/main.cpp:107-109 | the worker list is the one the last `--workers` option gives, or the default when there is none |
| LbMain.NoStopRunsWithLastWorkers | src/load_balancer/main.cpp:107-142 | without a stopping option `main` runs exactly when the last `--workers` list is non-empty, and then with that list |
| Config.AlgorithmNames | src/common/config.cpp:44-52 | exactly "po2", "malcolm" and "malcolm_strict" are accepted, each for its own scheduler type |
| Config.LocalSchedulerOf | src/common/config.cpp:53-59 | `--scheduler` selects EDF exactly for "edf" and FCFS for every other name |
| Config.StoULTo32 | src/common/config.cpp:66-71 | `std::stoul` stored in a `uint32_t` field fails exactly when the conversion throws, and otherwise keeps the low 32 bits |
| Config.AppendTokens | src/common/config.cpp:35-43 | the `getline` loop of `--workers` appends every token between commas as read, untrimmed, to the existing list |
| Config.ParseConfig | src/common/config.cpp:9-89 | `parse_config` applies the options in order to the defaults of config.h, stopping at the first conversion that throws |
| Config.ApplyOption | src/common/config.cpp:31-85 | one pass of the switch applies one option as the option table defines |
| Config.ConfigOfOptionsAppend | src/common/config.cpp:29-86 | applying two runs of options one after the other is applying their concatenation |
| Config.UnknownAlgorithmKeeps | src/common/config.cpp:44-52 | an unknown algorithm name leaves the whole configuration unchanged |
| Config.SettleWorkers | src/common/config.cpp:35-43 | only `--workers` touches the worker list, and it appends its tokens |
| Config.WorkersAccumulate | src/common/config.cpp:35-43 | the worker list is the tokens of every `--workers` option, in order, appended to the starting list |
| Config.ConversionErrorStops | src/common/config.cpp:63-74 | a conversion that throws ends the parse with that error, whatever follows |
| Config.LineOf | src/common/config.cpp:101-120 | a line is skipped exactly when it is empty, starts with '#' or has no ':' |
| Config.Trim | src/common/config.cpp:112-118 | the trim lambda strips spaces and tabs at both ends, and leaves an all-blank string as it is |
| Config.LoadConfigFile | src/common/config.cpp:91-135 | `load_config_file` gives the defaults when the file cannot be opened and otherwise applies its lines in order, stopping at a conversion that throws |
| Config.ReadLine | src/common/config.cpp:103-131 | one loop pass skips the line or applies the trimmed key and value |
| Config.SetKey | src/common/config.cpp:122-130 | the if-chain sets `lb_address`, `target_rps`, `duration_sec` or `pareto_alpha` from the value, and ignores other keys |
| Config.ApplyLinesCons | src/common/config.cpp:101-132 | the first line is applied, then the rest, unless the first one throws |
| Config.SettingLine | src/common/config.cpp:105-120 | key and value are split at the first ':', so a value may itself contain ':' such as an address with a port |
| Config.UnknownKeyIgnored | src/common/config.cpp:122-131 | a key the reader does not know leaves the configuration unchanged |
| Config.LaterSettingOverrides | src/common/config.cpp:122-130 | of two settings of the same key the later decides |
| Config.SettingAddress | src/common/config.cpp:122-123 | only an `lb_address` setting changes `lb_address` |
| Config.LineAddress | src/common/config.cpp:103-123 | after one line, `lb_address` is the line's value when it sets that key, and otherwise unchanged |
| Config.LastAddressWins | src/common/config.cpp:101-132 | the file's `lb_address` is the value of its last `lb_address` line, or the starting one when there is none |

## Left out

- IEEE doubles are modelled as exact reals, with no rounding, infinities or NaN. `DBL_MAX` is kept as its literal value.
- 64-bit counters in the metrics and in the load balancer's totals are unbounded naturals. Their overflow after 2^64 events is not modelled.
- MalcolmStrictScheduler.ProjectedSlack subtracts the expected latency from the signed deadline distance with unbounded integers. In the C++ both are `int64_t`, and the subtraction can overflow (undefined behaviour) when the two are far apart; that case is not modelled.
- Threads, locks, atomics and memory ordering are left out, because every operation is modelled as one sequential step. This covers the load balancer's worker threads, the eRPC transport, `send_to_worker` and the state-update thread with its sleep (`src/load_balancer/lb_context.cpp:52-103`, `226-249`).
- `LBContext::export_metrics` (`src/load_balancer/lb_context.cpp:105-112`) and `MetricsCollector::print_summary` (`src/common/metrics.h:249-257`) only write files or the console.
- `LatencyHistogram` is modelled as the multiset of recorded values. HdrHistogram's bucket precision and value range are left out, and so are the `export_hdr` and `export_cdf` file formats.
- The libtorch model paths of Malcolm and the IQN paths of Malcolm-Strict (`schedule_iqn`, `build_state_vector` and the warm-up) are left out, because they call into a neural network. In the model both schedulers always take their heuristic path.
- `MalcolmStrictScheduler.ComputeCvar` works on quantiles given as input, not on the output of the IQN model.
- `on_request_complete` of Malcolm-Strict is modelled as the no-op it is in the source.
- The Power-of-2 random number generator is left out, because its draws are a parameter of `Po2Scheduler.Candidates`.
- `get_local_ip`, the listen URI printing, `print_usage`, the signal handler and starting or waiting on the load balancer (`src/load_balancer/main.cpp:23-66`, `145-175`) are left out, because they are host networking and I/O.
- `getopt_long` itself is left out: the options reach `ParseConfig` and `ParseCommandLine` already split into a list.
- `parse_hdr_log` (`scripts/merge_histograms.py:53-69`) is left out, because in the source it is a stub that returns no data.
- The plots of `generate_report.py` (`scripts/generate_report.py:57-182`, `324-328`) are left out, because matplotlib is drawing only. Writing the report file (`261-263`) is left out too; the model returns the report's lines.
- `Numerals.StoD` and `float()` accept only plain decimals (sign, ASCII digits, optional point and digits). Exponents, `inf`, `nan`, hexadecimal, underscores and the non-ASCII decimal digits that Python's `float()` also accepts are left out.
- Text.Lower folds only the ASCII capitals, while Python's `str.lower()` folds every cased character. The scripts use it only for the test `'latency' in line.lower()` (`scripts/merge_histograms.py:83`). No non-ASCII character lowers to a letter of "latency", so that test gives the same answer as in Python.
- `Numerals.FormatFixed` rounds the exact value half up, while Python rounds the binary double half to even. The two can differ in the last printed digit.
- `MalcolmScheduler.HealthyChosen` assumes the healthy worker's load increase is below `DBL_MAX`. Without that assumption the strict comparison against the `DBL_MAX` sentinel can keep worker 0 even when it is unhealthy.
- The worker heartbeat check in `LBContext::update_worker_states` is commented out in the source, so it is not modelled.
- `HierarchicalTimingWheel` keeps the source's `current_tick_`, which only the constructor sets and which no other operation reads. The model states only that the other operations leave it unchanged.

## Findings

| source | as written | input that shows it | evidently intended | confidence | as-written member | corrected member |
|---|---|---|---|---|---|---|
| scripts/generate_report.py:216 | `summary.get('Deadline Miss Rate', 'N/A')` is formatted with `:.4f`, so a missing key gives the string `'N/A'`, which `:.4f` rejects with a ValueError | the `.summary.txt` file that `merge_histograms.py` writes beside its CDF (`scripts/merge_histograms.py:211-220`), which never contains a `Deadline Miss Rate` line | print `N/A` for a missing value | not executed | GenerateReport.MissingRateAsWritten | GenerateReport.MissingRateIntended |
| scripts/generate_report.py:212 | the summary block looks up the key `P50`, but the `summary.txt` that `export_all` writes names it `P50 Latency (us)` (`src/common/metrics.h:273-276`), so the lookup falls back to `'N/A'` and `:.2f` raises a ValueError | any `summary.txt` written by `MetricsCollector::export_all`, which `generate_report.py` reads when no merged summary exists (`scripts/generate_report.py:305`) | print `N/A` for a missing key, or match the exported key names | not executed | Metrics.ExportedSummaryBreaksBlock | Metrics.ExportedSummaryRate |

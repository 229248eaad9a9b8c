# Verified models of an operating-systems course repository

The project models, in Dafny, the parts of the repository that compute something hard, and proves what they
are for. Everything is checked by `dafny verify dfyconfig.toml`.

* **Page replacement** (`Page*.dfy`, `Paging*.dfy`, `Clock*.dfy`). OPT, FIFO, LRU and CLOCK as loops over the shifting
  array queue, each proved equal to a pure specification; then Belady's theorem against arbitrary policies (even
  ones that prefetch), competitiveness also against fewer frames, LRU inclusion, and CLOCK as a circular buffer with
  the meaning of its use bits and hand, an amortised scan cost and the exact competitive ratio `2 * k - 1`. Belady's
  anomaly is decided exactly: `big` frames instead of `k` can make FIFO fault more often if and only if
  `k < big < 2 * k - 1`.
* **CPU scheduling** (`Counting`, `Schedule`, `Srtf`, `Policies`, `Simulation`, `CpuScheduler`, `NonPreemptive`,
  `Fcfs`, `RoundRobin*`, `Comparison`, `Determined`, `AllPolicies`). The four tick loops over a mutable process
  table, each proved to draw the one Gantt chart of its policy and to report true times; then SRTF optimality
  against every feasible preemptive schedule, work conservation across all four, the FCFS recurrence, SJF
  optimality for simultaneous arrivals, and the round-robin invariant with its waiting bounds, queue counts and the
  rule by which it chooses. A time slice of zero or less is covered too: it never runs out, and the chart is the one
  of FCFS.
* **FAT file system** (`Fat*.dfy`). The tables updated in place, an invariant on block chains, refinement to a
  bounded map from names to contents with a place for each file, the character-level save and load round trip, and
  whole histories of processes that each load, run one command and save, up to the first file name that saving
  cannot keep; that the next process does not find such a file is proved of what it reads back.
* **Process tree** (`ProcessTree`, `ProcessVisits`, `ForkWalks`). The stackless, goto-driven traversal of the kernel
  file against recursive preorder, on the links that forking builds, and what each fork does to every walk.
* **Thread stacks** (`ThreadStacks`, `StackRefs`, `StackOperations`). The cached kernel-stack allocator, its reference
  counts and the failure paths of task duplication as a state machine with one step per atomic access, over all
  interleavings.
* **Parallel sums** (`ParallelSum`). The tree of forked processes and the heap-indexed tree of threads.

Conventions. Integers are unbounded. A Gantt chart is the sequence of job indices per tick, with -1 for an idle
tick; it stands for what the loops print. A policy for paging is the sequence of frame sets it holds. A disk
block is the C string it stores. `ENTRY`, `BLOCK_SIZE` and `BYTES` are the fields of `FatSpec.Geometry`, so the
file-system results hold for all sizes; likewise the process tree of the parallel sum has any depth. `Basics`,
`Products` and `Counting` hold what several parts share.

Where a comment in the source and its code differ, the code is followed: the comment at Assignment5-2/fat.c:20
calls an entry free when its use bit is 1, but every operation treats 0 as free, and so does the model.

## Model

| member | source | states |
|---|---|---|
| `PageQueue.Queue.constructor` | Assignment4-2/page_replacement_simulator.c:17-20 | a new queue is empty and has the given capacity, whatever the slots hold |
| `PageQueue.Queue.Push` | Assignment4-2/page_replacement_simulator.c:25-30 | the shifting loop inserts one page at the index and keeps the order of all others |
| `PageQueue.Queue.Pop` | Assignment4-2/page_replacement_simulator.c:34-38 | the shifting loop removes exactly the slot at the index; it needs the slot at `tail` to exist |
| `PageQueue.Queue.Set` | Assignment4-2/page_replacement_simulator.c:185-219 | a use-bit update changes one slot only |
| `PageQueue.Queue.IsFull` | Assignment4-2/page_replacement_simulator.c:41-46 | true exactly when as many pages are held as there are frames |
| `PageQueue.Queue.IsHere` | Assignment4-2/page_replacement_simulator.c:49-55 | the first index of the page, or -1 exactly when it is absent |
| `Paging.FurthestAmong` | Assignment4-2/page_replacement_simulator.c:73-96 | the victim has the latest next use of all slots, and is the first slot with that property |
| `Paging.NextElements` | Assignment4-2/page_replacement_simulator.c:67-152 | a reference keeps pages distinct, brings in the referenced page and drops only the victim of a full queue |
| `Paging.PolicyFrames` | Assignment4-2/page_replacement_simulator.c:58-156 | each simulated policy is one of the arbitrary policies and loads one page per fault |
| `Paging.LoadsAreMisses` | Assignment4-2/page_replacement_simulator.c:58-224 | for demand paging, pages loaded and references missed are the same number |
| `PagingOptimality.OptMiss` | Assignment4-2/page_replacement_simulator.c:72-99 | after an eviction by OPT no look-ahead count drops, or everything kept is needed within it |
| `PagingOptimality.OptFromLead` | Assignment4-2/page_replacement_simulator.c:58-106 | from any states, OPT's faults are at most the rival's loads plus the rival's lead in pages needed soon |
| `PagingOptimality.OptIsOptimal` | Assignment4-2/page_replacement_simulator.c:58-106 | Belady: OPT's faults are at most the loads of any policy with the same number of frames, on every string |
| `PagingOptimality.OptMissesLeast` | Assignment4-2/page_replacement_simulator.c:58-106 | hence at most the misses of any on-demand policy |
| `PagingOptimality.OptBeatsQueuePolicies` | Assignment4-2/page_replacement_simulator.c:58-156 | OPT never faults more often than FIFO or LRU |
| `PagingCompetitive.CompetitiveStep` | Assignment4-2/page_replacement_simulator.c:58-156 | per reference, what the queue policy pays for its fault plus the change of potential is covered by `k` times the fault of OPT with `h <= k` frames |
| `PagingCompetitive.CompetitiveWithFewer` | Assignment4-2/page_replacement_simulator.c:58-156 | FIFO and LRU with `k` frames against OPT with `h <= k`: `k - h + 1` times their faults are at most `k` times OPT's plus `(k - h) * (k - h + 1)` |
| `PagingCompetitive.Competitive` | Assignment4-2/page_replacement_simulator.c:58-156 | FIFO and LRU fault at most `k` times as often as OPT with the same `k` frames |
| `PagingCompetitive.CompetitiveAgainstAll` | Assignment4-2/page_replacement_simulator.c:108-156 | the same bound against any policy with `h` frames |
| `PagingInclusion.InclusionStep` | Assignment4-2/page_replacement_simulator.c:138-152 | one reference keeps the smaller LRU queue the tail end of the larger |
| `PagingInclusion.LruInclusion` | Assignment4-2/page_replacement_simulator.c:130-156 | the LRU queue for fewer frames is a suffix of that for more, and faults never increase with frames |
| `PagingInclusion.LruIsMostRecent` | Assignment4-2/page_replacement_simulator.c:130-152 | the LRU queue holds exactly the `k` most recently used distinct pages in recency order |
| `PagingAnomaly.MarkedNext` | Assignment4-2/page_replacement_simulator.c:115-124 | for `big >= 2 * k - 1`, a fault of the larger FIFO queue and the marks left are paid by a fault of the smaller one and its marks |
| `PagingAnomaly.FifoMonotone` | Assignment4-2/page_replacement_simulator.c:108-128 | with the same number of frames, or at least `2 * k - 1`, FIFO never faults more often than with `k`, on any string |
| `PagingAnomaly.AnomalyBig` | Assignment4-2/page_replacement_simulator.c:108-128 | a string for every `k < big` on which FIFO with `big` frames faults `2 * big + 2` times |
| `PagingAnomaly.AnomalySmall` | Assignment4-2/page_replacement_simulator.c:108-128 | for `k < big < 2 * k - 1` the same string costs `k` frames only `2 * big + 1` faults |
| `PagingAnomaly.FifoMonotoneExactly` | Assignment4-2/page_replacement_simulator.c:108-128 | FIFO is monotone from `k` to `big` frames on all strings if and only if `big == k` or `big >= 2 * k - 1` |
| `PagingAnomaly.FifoIsLastBroughtIn` | Assignment4-2/page_replacement_simulator.c:108-128 | the FIFO queue holds the `k` pages brought in last, in that order, and as many were brought in as it faulted |
| `PagingClock.Sweep` | Assignment4-2/page_replacement_simulator.c:179-200 | the victim is the first clear bit in circular order from the hand, or the hand itself after a full turn |
| `PagingClock.Cleared` | Assignment4-2/page_replacement_simulator.c:179-195 | after a sweep over `d` slots those are clear, and the others as they were |
| `PagingClock.NextTicking` | Assignment4-2/page_replacement_simulator.c:169-220 | pages stay distinct, bits and pages in step, the hand in range; only the referenced page comes in |
| `PagingClock.ScanStep` | Assignment4-2/page_replacement_simulator.c:169-220 | bits read plus bits set afterwards exceed bits set before by at most one |
| `PagingClock.ScanCost` | Assignment4-2/page_replacement_simulator.c:158-224 | over a whole run the eviction scans read at most one use bit per reference |
| `PagingClock.OptBeatsClock` | Assignment4-2/page_replacement_simulator.c:58-224 | OPT never faults more often than CLOCK |
| `ClockBits.BitMeaning` | Assignment4-2/page_replacement_simulator.c:169-220 | after every reference string a use bit is set if and only if its page was hit and the hand has not come to its slot since |
| `ClockBits.HitSets` | Assignment4-2/page_replacement_simulator.c:218-219 | every hit, with room left or not, leaves the bit of its page set and the page in its slot |
| `ClockBits.HandBehindLast` | Assignment4-2/page_replacement_simulator.c:196-217 | after every string that fills the buffer the hand is right behind the page loaded last |
| `ClockBits.VictimIs` | Assignment4-2/page_replacement_simulator.c:174-217 | a fault replaces the page in the first slot from the hand on with a clear bit, or the one at the hand when all are set, and moves no other |
| `ClockRatio.OptPays` | Assignment4-2/page_replacement_simulator.c:58-106 | OPT faults at least once for every phase of `k` different pages after the first |
| `ClockRatio.FaultAffords` | Assignment4-2/page_replacement_simulator.c:169-220 | while pages from before a phase are left, each fault of CLOCK uses up one of at most `2 * k - 1` |
| `ClockRatio.ClockCompetitive` | Assignment4-2/page_replacement_simulator.c:158-224 | CLOCK faults at most `2 * k - 1` times as often as OPT with the same `k` frames, on every string |
| `ClockTight.HardPhase` | Assignment4-2/page_replacement_simulator.c:169-220 | a phase in which every one of `2 * k - 1` references faults and the buffer ends up as it began, with one page exchanged |
| `ClockTight.WorstFaults` | Assignment4-2/page_replacement_simulator.c:158-224 | strings of `n` such phases cost CLOCK `k + n * (2 * k - 1)` faults |
| `ClockTight.WorstForOpt` | Assignment4-2/page_replacement_simulator.c:58-224 | and OPT at most `k + n` |
| `ClockTight.NoSmallerRatio` | Assignment4-2/page_replacement_simulator.c:158-224 | so for `k >= 2` no smaller ratio holds for CLOCK, whatever constant is added; in particular not `k` |
| `PagingSimulator.ChooseVictim` | Assignment4-2/page_replacement_simulator.c:73-96 | the forward scan with visit marks finds the furthest-use victim |
| `PagingSimulator.SimulateOpt` | Assignment4-2/page_replacement_simulator.c:58-106 | the loop reports OPT's specified fault count and leaves its specified queue |
| `PagingSimulator.SimulateFifo` | Assignment4-2/page_replacement_simulator.c:108-128 | the loop reports FIFO's specified fault count and leaves its specified queue |
| `PagingSimulator.SimulateLru` | Assignment4-2/page_replacement_simulator.c:130-156 | the loop reports LRU's specified fault count and leaves its specified queue |
| `PagingSimulator.Scan` | Assignment4-2/page_replacement_simulator.c:179-195 | one scan loop stops at the first zero bit of its range, zeroes what it passed and nothing else, and reads each bit up to there once |
| `PagingSimulator.SweepBits` | Assignment4-2/page_replacement_simulator.c:179-200 | both scan loops together are one circular sweep: where it stops, what it clears, and how many bits the loops read |
| `PagingSimulator.Evict` | Assignment4-2/page_replacement_simulator.c:174-202 | the victim of the sweep leaves both queues |
| `PagingSimulator.Miss` | Assignment4-2/page_replacement_simulator.c:171-217 | pop-then-push at one index in two queues refines overwriting one slot of the circular buffer |
| `PagingSimulator.SimulateClock` | Assignment4-2/page_replacement_simulator.c:158-224 | the loop reports the circular buffer's fault count and leaves its specified buffer; its scans, counted read by read, read the specified number of bits |
| `PagingComparison.RunAll` | Assignment4-2/page_replacement_simulator.c:58-224 | of the numbers the four loops report, OPT's is least (also against every policy), FIFO's and LRU's are at most `max` times it, CLOCK's at most `2 * max - 1` times |
| `PagingComparison.GrowLru` | Assignment4-2/page_replacement_simulator.c:130-156 | run with more frames, the LRU loop never reports more faults and ends with the recency order of which the smaller run holds the newest part |
| `PagingComparison.GrowFifo` | Assignment4-2/page_replacement_simulator.c:108-128 | run with at least `2 * max - 1` frames, the FIFO loop never reports more faults than with `max` |
| `PagingComparison.ShowAnomaly` | Assignment4-2/page_replacement_simulator.c:108-128 | for any numbers of frames in between, a string on which the FIFO loop reports one fault more with more frames |
| `Schedule.FinishIsFirst` | Assignment3-3/cpu_scheduler.c:173-178 | the finishing time of a chart is the first tick at which nothing of the job is left |
| `Schedule.SumByTick` | Assignment3-3/cpu_scheduler.c:330-331 | the sum of finishing times is the number of unfinished jobs summed over the ticks |
| `Srtf.RunShortest` | Assignment3-3/cpu_scheduler.c:180-203 | running a shortest live job lowers the work outside the `k` longest jobs, for every `k`, until it is zero |
| `Srtf.SrtfAhead` | Assignment3-3/cpu_scheduler.c:171-205 | at every tick SRTF is ahead of every feasible schedule, whichever `k` jobs are left out |
| `Srtf.FewestUnfinished` | Assignment3-3/cpu_scheduler.c:171-205 | at every tick no feasible schedule has fewer unfinished jobs than SRTF |
| `Srtf.SrtfIsOptimal` | Assignment3-3/cpu_scheduler.c:163-216 | SRTF minimises the total turnaround over all feasible preemptive one-CPU schedules |
| `Policies.LeastBacklog` | Assignment3-3/cpu_scheduler.c:71-98 | a work-conserving schedule never has more work left than any feasible one |
| `Policies.SameWork` | Assignment3-3/cpu_scheduler.c:71-272 | work-conserving schedules agree at every tick on the work left and on whether the CPU is busy |
| `Policies.ChartLength` | Assignment3-3/cpu_scheduler.c:340-341 | the latest finishing time is the length of the chart without trailing idle ticks |
| `Policies.EarliestEnd` | Assignment3-3/cpu_scheduler.c:340-341 | no feasible schedule ends before a work-conserving one |
| `Policies.SameMakespan` | Assignment3-3/cpu_scheduler.c:340-341 | all work-conserving schedules have the same latest finish |
| `Policies.FcfsRecurrence` | Assignment3-3/cpu_scheduler.c:71-98 | FCFS finishing times obey finish(i) = max(arrival(i), finish(i-1)) + burst(i) |
| `Policies.SjfOptimalTogether` | Assignment3-3/cpu_scheduler.c:120-157 | with equal arrivals SJF minimises the total turnaround and the total waiting over all schedules |
| `Simulation.TrackRun` | Assignment3-3/cpu_scheduler.c:195-204 | a tick of one process keeps the table in step with the chart |
| `Simulation.TrackRetire` | Assignment3-3/cpu_scheduler.c:173-178 | retiring a finished process records the true finishing time |
| `Simulation.TrackEnd` | Assignment3-3/cpu_scheduler.c:171-205 | when all have ended, the chart is feasible and start and finish fields are true of it |
| `CpuScheduler.PickLeast` | Assignment3-3/cpu_scheduler.c:132-139 | the scan finds the first of the live processes with least key, or none exactly if none is live |
| `CpuScheduler.Advance` | Assignment3-3/cpu_scheduler.c:191-204 | each iteration extends the chart by the chosen process or an idle tick and lowers a termination measure |
| `CpuScheduler.Report` | Assignment3-3/cpu_scheduler.c:207-212 | the closing loops derive waiting, response and turnaround from the recorded times |
| `CpuScheduler.LatestFinish` | Assignment3-3/cpu_scheduler.c:328-341 | the last loop computes the latest finish, which is the length of the chart |
| `CpuScheduler.SimulateSrtf` | Assignment3-3/cpu_scheduler.c:163-216 | the loop terminates with the SRTF chart, in which every tick goes to the first of the shortest live processes, with true times and the number of its switches |
| `NonPreemptive.SimulateSjf` | Assignment3-3/cpu_scheduler.c:112-161 | the loop terminates with the SJF chart, in which a free CPU goes to the first of the live processes with least burst; finish = start + burst, and the switches really number `len` |
| `Determined.SrtfChartIsOne` | Assignment3-3/cpu_scheduler.c:163-216 | a table has only one SRTF chart |
| `Determined.SjfChartIsOne` | Assignment3-3/cpu_scheduler.c:112-161 | a table has only one SJF chart |
| `Determined.FcfsChartIsOne` | Assignment3-3/cpu_scheduler.c:50-110 | a table in arrival order has only one FCFS chart |
| `Determined.SameReport` | Assignment3-3/cpu_scheduler.c:207-212 | so the reported start, finish, turnaround and response of every process are determined by the input |
| `Fcfs.Insert` | Assignment3-3/cpu_scheduler.c:59-67 | the inner loop moves one row down past exactly the rows that arrive later |
| `Fcfs.SortByArrival` | Assignment3-3/cpu_scheduler.c:58-68 | the insertion sort permutes the table into arrival order, ties in input order |
| `Fcfs.SimulateFcfs` | Assignment3-3/cpu_scheduler.c:50-110 | terminates on the stably sorted table, draws an in-order chart, finish = start + burst, `len` switches |
| `RoundRobin.StepKeeps` | Assignment3-3/cpu_scheduler.c:233-272 | one iteration keeps the invariant: queue without repetition or the running process, exactly the waiting ones, waits bounded |
| `RoundRobin.StateInv` | Assignment3-3/cpu_scheduler.c:233-272 | the invariant holds at every tick of every run |
| `RoundRobinRuns.DispatchedInTime` | Assignment3-3/cpu_scheduler.c:233-262 | in every run, from joining the queue to dispatch at most (len-1)*time_slice ticks pass |
| `RoundRobinRuns.WaitBetweenTurns` | Assignment3-3/cpu_scheduler.c:233-271 | in every chart, between two turns of a process lie at most (len-1)*time_slice ticks |
| `RoundRobinRuns.NeverOutIsFirstCome` | Assignment3-3/cpu_scheduler.c:247-270 | with a slice no process uses up, every tick goes to the first live process in order of arrival |
| `RoundRobinOrder.ObeysTurns` | Assignment3-3/cpu_scheduler.c:218-283 | in every tick of a round-robin chart a process that is not done keeps the CPU until its slice is used up; then it goes to the one that has been in line longest, newcomers before one that comes back at the same time and in the order of the table |
| `RoundRobinOrder.TurnsAreRoundRobin` | Assignment3-3/cpu_scheduler.c:218-283 | a chart obeys this rule if and only if it is the round-robin chart of the table |
| `RoundRobin.RoundRobinConserves` | Assignment3-3/cpu_scheduler.c:233-272 | round robin runs only live processes and never idles while there is one |
| `RoundRobin.TailBound` | Assignment3-3/cpu_scheduler.c:226-249 | pushes never exceed the total number of slices |
| `RoundRobin.QueueArithmetic` | Assignment3-3/cpu_scheduler.c:226-272 | at exit head and tail both equal the sum of ceil(burst/time_slice) |
| `RoundRobin.QuantaIsCeiling` | Assignment3-3/cpu_scheduler.c:247-254 | the number of slices of a process is its burst divided by the slice, rounded up |
| `RoundRobin.ResponseBound` | Assignment3-3/cpu_scheduler.c:263-264 | the first tick of a process comes at most (len-1)*time_slice after its arrival |
| `RoundRobin.WaitingBound` | Assignment3-3/cpu_scheduler.c:274-275 | waiting is at most ceil(burst/time_slice) times that |
| `RoundRobinSimulator.SettleRunning` | Assignment3-3/cpu_scheduler.c:241-251 | retiring and requeueing in the array mirror the machine and stay in bounds, also with a slice counter below zero |
| `RoundRobinSimulator.TakeNext` | Assignment3-3/cpu_scheduler.c:253-267 | dispatch from the array mirrors the machine, notes a first start and counts a change of process |
| `RoundRobinSimulator.UninitialisedPrevious` | Assignment3-3/cpu_scheduler.c:223-269 | whatever `prev_run` holds initially changes the switch count by at most one |
| `RoundRobinSimulator.SimulateRr` | Assignment3-3/cpu_scheduler.c:218-283 | for every time slice, zero and negative ones included: terminates, draws the round-robin chart of the effective slice, reports true times; head = tail = total slices; array in bounds if these are at most MAX_SIZE |
| `Comparison.SrtfBeatsReordered` | Assignment3-3/cpu_scheduler.c:50-216 | SRTF's total turnaround is at most that of any schedule of the same jobs listed in another order |
| `Comparison.FourPoliciesAgree` | Assignment3-3/cpu_scheduler.c:50-341 | the four charts are busy in the same ticks, end together, and none has a smaller total turnaround than SRTF |
| `Comparison.FourPoliciesWork` | Assignment3-3/cpu_scheduler.c:71-272 | at every tick all four have the same work left of the arrived processes |
| `Comparison.NeverOutIsFcfs` | Assignment3-3/cpu_scheduler.c:218-283 | round robin with a slice that never runs out, such as zero, draws the very chart of FCFS |
| `AllPolicies.FcfsRows` | Assignment3-3/cpu_scheduler.c:71-106 | reported FCFS rows: start = max(arrival, previous finish), turnaround = waiting + burst |
| `AllPolicies.SjfRows` | Assignment3-3/cpu_scheduler.c:152-157 | reported SJF rows: turnaround = waiting + burst, and the reported total waiting is the chart's |
| `AllPolicies.SjfWaitsLeast` | Assignment3-3/cpu_scheduler.c:112-161 | with equal arrivals no schedule waits less in total than SJF reports |
| `AllPolicies.RrRows` | Assignment3-3/cpu_scheduler.c:233-279 | reported RR rows: response and waiting within their bounds |
| `AllPolicies.RunAll` | Assignment3-3/cpu_scheduler.c:304-341 | running all four simulations on one table: the reported totals, rows and latest finishes compare as the theorems say, SJF's total waiting and a slice of zero included |
| `FatOps.PutByteKeeps` | Assignment5-2/fat.c:94-103 | a byte in a last block with room keeps the chain invariant, appends to that file and leaves all others |
| `FatOps.GrowKeeps` | Assignment5-2/fat.c:106-117 | chaining a free block after a full one keeps the invariant and every content, one free block less |
| `FatOps.CreateKeeps` | Assignment5-2/fat.c:41-66 | taking a free entry and block keeps the invariant: one empty file more, the others unchanged |
| `FatOps.RemoveKeeps` | Assignment5-2/fat.c:170-180 | freeing a whole chain keeps the invariant and all other files |
| `FatOps.ChainsDisjoint` | Assignment5-2/fat.c:46-53 | no block is on two chains or twice on one |
| `FatSpec.ChainIsNumBlocks` | Assignment5-2/fat.c:85-122 | a used entry's chain has max(1, ceil(size/BYTES)) blocks, an unused one's none |
| `FatSpec.FreeIsRest` | Assignment5-2/fat.c:46-53 | the number of free blocks is what the file contents leave of the disk |
| `FatSpec.RoomIsRoom` | Assignment5-2/fat.c:85-122 | the room of a file is the rest of its last block plus all free blocks |
| `FatSpec.RoomIsWhatFits` | Assignment5-2/fat.c:90-122 | a file can grow by some text exactly when the blocks of all files, that one grown, fit the disk |
| `FatSpec.InsertSaveable` | Assignment5-2/fat.c:41-66 | taking the first free entry keeps named entries a prefix of the table and the rest zero |
| `FatAppend.AppendByte` | Assignment5-2/fat.c:94-103 | during a write, bytes stored plus room left stay constant |
| `FatAppend.AppendLink` | Assignment5-2/fat.c:106-117 | and a new block moves one block of room from the disk to the file |
| `FatAppend.AppendEnd` | Assignment5-2/fat.c:90-122 | after the loops the map differs only in the written file, by the text stored |
| `FatFileSystem.FileSystem.constructor` | Assignment5-2/fat.c:248-259 | without saved state: no files, all blocks free, invariant holds |
| `FatFileSystem.FileSystem.Create` | Assignment5-2/fat.c:28-72 | refines creation on the map, with its three refusals in the same order, puts the file into the first empty place of the directory, and keeps the invariant |
| `FatFileSystem.FileSystem.LastBlock` | Assignment5-2/fat.c:85-89 | following the FAT terminates at the last block of the file's chain |
| `FatFileSystem.FileSystem.Write` | Assignment5-2/fat.c:74-130 | appends exactly the longest prefix that fits, newlines as blanks; other files and all places untouched; reports a partial write exactly then |
| `FatFileSystem.FileSystem.Fill` | Assignment5-2/fat.c:93-103 | the byte loop fills the block or uses up the content |
| `FatFileSystem.FileSystem.WriteFrom` | Assignment5-2/fat.c:90-122 | the outer loop ends with everything stored, or with as much as there was room for |
| `FatFileSystem.FileSystem.Read` | Assignment5-2/fat.c:132-157 | returns the whole content of the file, or nothing exactly if there is none |
| `FatFileSystem.FileSystem.ReadChain` | Assignment5-2/fat.c:143-151 | the printed blocks are the content of the chain |
| `FatFileSystem.FileSystem.Delete` | Assignment5-2/fat.c:159-187 | removes exactly that file from the map and empties its place, and keeps the invariant |
| `FatFileSystem.FileSystem.FreeFile` | Assignment5-2/fat.c:170-180 | frees exactly the blocks of the chain although it overwrites the links it follows |
| `FatFileSystem.FileSystem.List` | Assignment5-2/fat.c:189-202 | lists every file once, with the length of its content, in the order of the places in the directory |
| `FatPlaces.ListingOrder` | Assignment5-2/fat.c:189-202 | of two files in a listing the earlier one has the earlier entry of the table, and both entries are in use |
| `FatPlaces.PutNames` | Assignment5-2/fat.c:41-66 | a new file is listed behind exactly the files that fill the places before the first empty one |
| `FatFileSystem.FileSystem.Save` | Assignment5-2/fat.c:222-234 | writes the three texts of the current tables |
| `FatFileSystem.FileSystem.Loaded` | Assignment5-2/fat.c:270-285 | reads three arbitrary texts over zeroed tables, field by field as the scanners do |
| `FatText.IntScans` | Assignment5-2/fat.c:224-280 | a printed number between blanks is scanned back, whatever its sign |
| `FatText.WordScans` | Assignment5-2/fat.c:224-275 | a name without white space is scanned back |
| `FatText.LineGets` | Assignment5-2/fat.c:234-284 | a line that fits the buffer is read back whole |
| `FatStore.FatBack` | Assignment5-2/fat.c:229-280 | loading restores the FAT |
| `FatStore.DiskBack` | Assignment5-2/fat.c:233-285 | loading restores the disk because no block holds a newline or more than BYTES characters |
| `FatStore.LineFields` | Assignment5-2/fat.c:222-226 | the line of a named entry holds its name, size, first block and use bit, in this order |
| `FatStore.EntriesBack` | Assignment5-2/fat.c:222-276 | loading restores every named entry and leaves never-used ones unused, although their lines have only three words |
| `FatStore.NameSurvives` | Assignment5-2/fat.c:57-276 | a created file is loaded as itself if and only if its name is one nonempty word |
| `FatStore.LoadedNames` | Assignment5-2/fat.c:270-276 | whatever the text, an entry that is loaded as used has a nonempty name without white space |
| `FatStore.LoadedSaveable` | Assignment5-2/fat.c:204-276 | whatever the text, the loaded directory can be saved and loaded again |
| `FatSession.LoadedDirectory` | Assignment5-2/fat.c:241-291 | the loaded tables satisfy the invariant and hold the same files at the same places |
| `FatSession.RoundTrip` | Assignment5-2/fat.c:204-291 | load after save restores FAT, disk, use bits and used entries, so what is read back satisfies the invariant and stands for the same files and places |
| `FatSession.StoredFits` | Assignment5-2/fat.c:8-26 | what the state files hold never exceeds the entries or the blocks there are |
| `FatSession.StoredFinds` | Assignment5-2/fat.c:241-291 | a process finds exactly the files that the state files it has read stand for |
| `FatSession.NotKept` | Assignment5-2/fat.c:204-291 | a created file whose name is not a single word is in the folder, but no state files let a process find it, nor stand for that folder when read |
| `FatSession.LookUp` | Assignment5-2/fat.c:80-291 | what a process that has read any state files finds; only names that are one word |
| `FatSession.BlankInName` | Assignment5-2/fat.c:293-321 | creating "a b" is accepted, and the next process does not find it |
| `FatSession.Session` | Assignment5-2/fat.c:293-321 | one process gives the answer of the folder; what the next one reads back stands for the specified folder if and only if no name was created that is not a single word, and such a file it does not find |
| `FatSession.RunSessions` | Assignment5-2/fat.c:293-321 | every history of processes answers, command by command, as one folder (a bounded map and the places of its files) that lives on between them, up to and including the first creation of a name that is not a single word; what is read back after that one does not stand for the folder, and the file is not found |
| `FatHistory.HistoryPlaced` | Assignment5-2/fat.c:28-187 | after every history each file is at one place of the directory and nothing else is |
| `FatHistory.ListedInCreationOrder` | Assignment5-2/fat.c:28-202 | without deletions files are listed once each, with their lengths, in the order of their creation |
| `FatHistory.CreatedAtFirstFree` | Assignment5-2/fat.c:28-202 | after any history a new file takes the first empty place and is listed accordingly |
| `FatHistory.CreatedInItsPlace` | Assignment5-2/fat.c:28-202 | a file created after a deletion is listed where the deleted one was, if no earlier place was empty |
| `ProcessTree.CloneThreadKeeps` | Assignment3-1/fork.c:2156-2233 | a new thread keeps groups, parents and child lists well-formed and acyclic |
| `ProcessTree.CloneProcessKeeps` | Assignment3-1/fork.c:2156-2233 | a new process keeps groups, parents and child lists well-formed and acyclic, with or without CLONE_PARENT |
| `ProcessTree.Forked` | Assignment3-1/fork.c:2156-2233 | every tree grown by forks from the first task is well-formed |
| `ProcessTree.StepVisit` | Assignment3-1/fork.c:2684-2692 | the three answers of a visitor lead to what the recursive walk would do next |
| `ProcessTree.StepUp` | Assignment3-1/fork.c:2698-2703 | going up by `real_parent` and `group_leader` resumes exactly behind the child that was entered |
| `ProcessTree.WalkProcessTree` | Assignment3-1/fork.c:2675-2705 | for every visitor with state, the loop terminates with the outcome of recursive preorder: descend on positive, stop on negative |
| `ProcessVisits.EachDescendantOnce` | Assignment3-1/fork.c:2675-2705 | a walk visits no task twice and only leaders properly below the start; all of them if the visitor always descends |
| `ForkWalks.WalkIsPre` | Assignment3-1/fork.c:2675-2705 | a walk whose visitor always descends makes its calls in preorder, to the end |
| `ForkWalks.ListBelow` | Assignment3-1/fork.c:2675-2705 | the loop with such a visitor lists everything below the group of the start in preorder |
| `ForkWalks.PlainFork` | Assignment3-1/fork.c:2156-2220 | after a plain fork of `c` the walk from its group is as before with the new task right behind the children of `c` and what is below them; walks from above change in that part only, all others not at all |
| `ForkWalks.SiblingFork` | Assignment3-1/fork.c:2156-2220 | with CLONE_PARENT the same holds with the real parent of `c` instead of `c` |
| `ForkWalks.ThreadFork` | Assignment3-1/fork.c:2156-2233 | a new thread changes no walk, and has the leader and the real parent of the task that made it |
| `ForkWalks.PlainForkSeen` | Assignment3-1/fork.c:2156-2220 | after any history of forks a plain fork of `c` is visited in exactly the walks from the group of `c` and from above |
| `ForkWalks.SiblingForkSeen` | Assignment3-1/fork.c:2156-2220 | with CLONE_PARENT in exactly those from the group of the real parent of `c` and from above |
| `ForkWalks.ThreadUnseen` | Assignment3-1/fork.c:2221-2233 | and a new thread in none |
| `ForkWalks.ForkedByThread` | Assignment3-1/fork.c:2156-2233 | a process forked by a new thread comes last in the walk from its group |
| `ThreadStacks.TidyKept` | Assignment3-1/fork.c:194-298 | every atomic step keeps slots, task fields and local variables consistent, through the copy that clobbers the fields |
| `ThreadStacks.OwnedKept` | Assignment3-1/fork.c:194-298 | every atomic step passes a stack from one holder to one other, or allocates or frees it |
| `ThreadStacks.OneHolder` | Assignment3-1/fork.c:864-962 | in every interleaving each live stack is held by exactly one task, cache slot or operation, and no freed one by any |
| `ThreadStacks.FreesAreSafe` | Assignment3-1/fork.c:864-962 | no step of any run frees a running task's stack, frees twice, or changes a running task's stack fields |
| `ThreadStacks.ReleasedOnce` | Assignment3-1/fork.c:431-450 | whoever drops the last reference to a dead task finds it with its stack and nobody else at work on it |
| `StackRefs.RefsCounted` | Assignment3-1/fork.c:864-962 | in every run, from its publication on, the reference count of a task's stack is one plus the references taken minus those dropped, until that is zero; and it is dead exactly if it died |
| `StackRefs.ReleasedExactlyOnce` | Assignment3-1/fork.c:431-450 | in every run, when all references to a published task are gone, one step dropped the last; that step and no other starts to free the stack if the task had died by then, and otherwise none does |
| `ThreadStacks.NoneStuck` | Assignment3-1/fork.c:213-442 | no operation ever meets a missing task or stack, or a slot out of range |
| `StackOperations.Allocates` | Assignment3-1/fork.c:213-231 | undisturbed, an allocation takes the first cached stack of its CPU; with none cached it has looked at every slot and left the cache as it was |
| `StackOperations.AllocatesNew` | Assignment3-1/fork.c:233-255 | only then is the page allocator asked; where it fails the task gets no stack |
| `StackOperations.Returns` | Assignment3-1/fork.c:268-293 | undisturbed, a freed stack goes to the first empty slot of its CPU, and back to the page allocator only if there is none |
| `StackOperations.Duplicates` | Assignment3-1/fork.c:864-956 | a successful duplication publishes a live task with the stack that was allocated and one reference to it |
| `StackOperations.GivesUp` | Assignment3-1/fork.c:876-961 | where the charge or the copy fails, exactly the stack that was allocated is freed, although the copy clobbered the fields |
| `StackOperations.ComesUpEmpty` | Assignment3-1/fork.c:194-210 | in every run a CPU that comes up again has an empty cache |
| `ParallelSum.ForkIndices` | Assignment3-2/fork.c:46-50 | the forked processes have the indices 0 to 2^d - 1, each exactly once |
| `ParallelSum.SubtreeIndices` | Assignment3-2/fork.c:47-50 | from round `level` on a process and its descendants have the indices that agree with it in the low bits |
| `ParallelSum.Reap` | Assignment3-2/fork.c:59-62 | the wait loop adds every child's status once, in any order |
| `ParallelSum.Process` | Assignment3-2/fork.c:46-63 | the exit status is the sum of the subtree modulo 256 |
| `ParallelSum.ForkSum` | Assignment3-2/fork.c:43-68 | the printed value is the total modulo 256 for every reaping order |
| `ParallelSum.ThreadSum` | Assignment3-2/thread.c:40-54 | every thread is joined exactly once, after its creation, and the last join yields the total |
| `ParallelSum.Compare` | Assignment3-2/fork.c:43-68 | the two programs agree modulo 256 |

## Left out

- Printing, percentages, averages, argument parsing, timing and the reading of input files, in all programs.
- Overflow of 32-bit times, sums, sizes and status values: integers are unbounded.
- Paging with no frames, or with MAX_SIZE frames or more on a string longer than MAX_SIZE: the queue would leave its array.
- Scheduling a burst below 1, a burst of INT_MAX under SJF or SRTF, or a negative arrival under RR: the loops do not end.
- RoundRobinSimulator.SimulateRr: requires that the slices of all processes together number at most MAX_SIZE, because the source writes past its queue otherwise.
- RoundRobinSimulator.SimulateRr: the uninitialised `prev_run` is a parameter and the uninitialised `cur_slice` an arbitrary value.
- FatFileSystem.FileSystem.Create: names longer than FILE_NAME are excluded, because the source copies them past the field.
- FatSession.RunSessions: after the creation of a name that is not a single word, what later processes do with the state files is not described beyond the names they find.
- Failures to open the state files, wrong commands, and damaged state files; a sign without digits is pushed back whole by the `%d` scanner of the model.
- Blocks are strings, so the writing of each terminating zero is not a step of its own.
- ProcessTree.WalkProcessTree: children that exit and are handed to another parent are covered only through the well-formedness requirement; the code that does so is not part of the repository.
- ThreadStacks.OneHolder: users other than the task take and drop references to its stack in single steps; page contents, memory accounting and configurations without CONFIG_VMAP_STACK are not modelled; a CPU's cache is drained only while the CPU is down, as the hotplug registration at Assignment3-1/fork.c:841 has it.
- The pipes and the failure of `fork` in the process sum, and pointer-width stores of joined values in the thread sum.
- The rest of Assignment3-1/fork.c, the system-call hooking modules and the proc file of Assignment5-1: their meaning depends on kernel code that is not part of the repository.

# A verified model of elastic-agent-system-metrics

The library samples processes, CPUs, disks, mounts and cgroups of a host from `/proc` and `/sys`,
remembers the last sample, and publishes rates and percentages. This project models the logic over
those bytes and samples in Dafny 4.11 and proves what it promises, on every input, run or
interleaving the code admits. Check it with `dafny verify dfyconfig.toml`.

| file | component |
|---|---|
| `Tracker`, `TrackerRuns`, `CpuPercent` | samples remembered per pid, sequential scrapes, percentages over runs |
| `Interleaving`, `SoloCalls` | the same calls running concurrently, one access to the shared map per step |
| `TickOrder`, `PublishedPct`, `StoreOrder`, `CachedArgs`, `CallEnds` | what overlapping calls may do to ticks, percentages, sample times and cached arguments |
| `TopProcesses`, `Sorting` | the top-N filter over two unstable sorts |
| `CpuMonitor`, `Rounding` | CPU percentages and the rounding all percentages share |
| `DiskIO` | per-device deltas, 32-bit rollover, averages, the sampler |
| `Filesystem` | one entry per mounted device |
| `MountInfo`, `CgroupPaths`, `CgroupFile`, `CgroupMetadata` | cgroup mountpoints, version, controller paths, printed cgroup files, shared path |
| `Blkio`, `DeviceNumbers` | cgroup I/O totals, Linux device numbers |
| `NumCpu`, `ProcStat` | the CPU list and `/proc/PID/stat` parsers, against printers |
| `Strings`, `Decimal`, `Collections`, `GoNumbers`, `RealArithmetic`, `ProcessState`, `Wrappers` | shared vocabulary |

Modelling choices: `float64` is `real`; `uint64` and `int64` arithmetic wraps explicitly; optional
values are an option type; an iteration over a Go map picks keys in any order, so what is proved
holds for every order; file texts, directory listings, kernel counters and clock readings are
parameters, and so are the regular expressions and the path functions.

## Where the code and its description differ

Each of these is proved, with the exact condition under which the code does what is said of it.

- Ticks are measured before the remembered sample is read, so overlapping calls can compare a process
  with a sample that has more ticks (`TickOrder.OverlapGivesNegativeTicks`); time never goes back
  (`Interleaving.TimeDeltaNeverNegative`). The schedule decides: ticks never go back exactly when each
  comparison is with a sample measured no later (`TickOrder.TicksAdvanceExactly`), and no call can be
  made to see it exactly when no sample of its process measured later is stored between its measurement
  and its lookup (`TickOrder.QuietExactly`). The same decides whether a negative percentage is published
  (`PublishedPct.PercentagesAdvanceExactly`, `PublishedPct.OverlapPublishesNegative`). Calls on different processes never disturb each other
  (`TickOrder.DisjointIsQuiet`).
- A slow call can put an older sample over a newer one (`StoreOrder.OlderSampleStored`), so that the
  time between them is compared again. Samples are stored in the order they were stamped exactly when
  no call, brought to its end at any moment, could do that (`StoreOrder.TimelyMeansForward`).
- Two calls that fill a process for the first time can replace each other's arguments
  (`CachedArgs.FirstFillsReplaceArgs`). They are settled when every sample of the process on its way
  agrees with the tracked one, which is exactly when no call brought to its end could change them
  (`CachedArgs.SettledExactly`); they are after any moment with no fill of it under way, and stay so
  while it stays tracked (`CachedArgs.OverlapsKeepCached`).
- On a monitor used for both, the time up to a FetchCores is never reported by Fetch; nothing is missed
  exactly when the totals did not advance before a FetchCores (`CpuMonitor.NothingMissedExactly`).
- A counter that rolls over at 32 bits is reconstructed one unit short (`DiskIO.RolloverConservation`),
  for instance from 2^32 - 1 to 2^32 (`DiskIO.RolloverMissesOperation`).
- CPU percentages add up to the number of CPUs exactly when each delta is below 2^63
  (`CpuMonitor.PercentagesSumToCPUs`, `CpuMonitor.HugeDeltaFails`).
- Rounding takes negative values down, not to the nearest (`Rounding.NearestExactlyWhen`).
- The CPU times of a process are read from whole-line fields, right exactly for names without spaces
  (`ProcStat.WholeLineFieldsAlign`); the user time of a `tmux: server` is published as system time
  (`ProcStat.TmuxMisread`).
- A process stopped by its tracer is reported with an unknown state (`ProcStat.StateOfLetter`).
- A cgroup line is passed over exactly when its path holds a colon (`CgroupFile.ColonPathFeedsNothing`).
- The shared cgroup path depends on map order exactly when one non-empty path takes part beside an
  empty one (`CgroupMetadata.OrderIndependentExactly`). Such a file is malformed: the kernel prints at
  least `/`, and then the order never matters (`CgroupMetadata.PrintedPathsAgree`); the parser accepts
  it all the same (`CgroupMetadata.EmptyPathMatters`). Where no path takes part the id is `.`, not the
  empty string its comment announces.

## Model

| member | source | states |
|---|---|---|
| Interleaving.TimeDeltaNeverNegative | metric/system/process/process.go:212-278 | in every interleaving of concurrent GetSelf, GetOne and Get, no sample is compared with one stamped later than itself, or with one of another process |
| Interleaving.ExecKeepsInvariant | metric/system/process/process.go:166-209 | every run keeps: ticks read, then stamped, then stored; tracked, local and compared samples all carry the kernel's ticks of their own reading time |
| TickOrder.TickDeltaExactly | metric/system/process/process.go:226-273 | in every interleaving the tick delta is the kernel's count when one sample was measured less its count when the other was |
| TickOrder.TicksAdvanceExactly | metric/system/process/process.go:226-273 | for every schedule: no tick delta is negative under any kernel exactly when each comparison is with a sample measured no later, a fact no kernel changes |
| TickOrder.QuietExactly | metric/system/process/process.go:166-278 | no later-measured sample of a process is stored between a call's measurement and its lookup, exactly when no call going on at any moment could see ticks go back |
| TickOrder.QuietTicksAdvance | metric/system/process/process.go:166-278 | a run with such a schedule has no negative tick delta |
| TickOrder.DisjointIsQuiet | metric/system/process/process.go:166-209 | calls that overlap only when they share no process make such a schedule |
| TickOrder.SequentialTicksNeverNegative | metric/system/process/process.go:166-188 | when no call starts before the others have ended, no tick delta is negative |
| TickOrder.OverlapGivesNegativeTicks | metric/system/process/process.go:226-273 | two overlapping calls that publish a negative tick delta over a positive interval, under every configuration |
| PublishedPct.PublishedExactly | metric/system/process/process.go:242-277 | in every interleaving, the percentages of a compared sample are the kernel's counts at the two measuring times, subtracted, over the whole milliseconds between the two stamps; for each CPU, that divided by their number |
| PublishedPct.EveryPercentageIsLogged | metric/system/process/process.go:242-277 | a sample that is tracked, or still to be stored, has percentages only as the current one of a comparison |
| PublishedPct.ComparedWereTracked | metric/system/process/process.go:242 | what a fill is compared with was the tracked sample of its process at some moment of the run |
| PublishedPct.PercentagesAdvanceExactly | metric/system/process/process.go:226-277 | no published percentage is negative under any kernel exactly when each comparison over a whole millisecond is with a sample measured no later |
| PublishedPct.QuietPublishesNoNegative | metric/system/process/process.go:166-278 | with no later-measured sample stored between a call's measurement and its lookup, no sample tracked or still to be stored has a negative percentage |
| PublishedPct.OverlapPublishesNegative | metric/system/process/process.go:226-277 | the overlap of two calls publishes a negative percentage under every configuration |
| StoreOrder.TimelyExactly | metric/system/process/process.go:166-188 | samples are stored in the order they were stamped exactly when at no moment a call has yet to store one older than the tracked one |
| StoreOrder.TimelyMeansForward | metric/system/process/process.go:166-209 | the same order of stores, where no directory is listed twice, exactly when no call brought to its end at any moment could take a tracked sample back |
| StoreOrder.TimelyGoesForward | metric/system/process/process_common.go:62-73 | then no step takes the tracked sample of a process back in time |
| StoreOrder.DisjointIsTimely | metric/system/process/process.go:166-209 | calls that overlap only when they share no process make such a schedule |
| StoreOrder.OlderSampleStored | metric/system/process/process.go:172-186 | two overlapping calls of which the last to store takes the tracked sample back, under every configuration |
| CachedArgs.SettledForGood | metric/system/process/process.go:283-293 | once all samples of a pid on their way agree on what is cached, every interleaving keeps it while the pid stays tracked |
| CachedArgs.SettledExactly | metric/system/process/process.go:212-293 | in every interleaving, the samples of a tracked pid on their way agree on what is cached exactly when no call brought to its end, with whatever readings, could change it |
| CachedArgs.OverlapsKeepCached | metric/system/process/process.go:283-293 | a moment without a fill of the pid under way is enough for that |
| CachedArgs.RunKeepsJoined | metric/system/process/process.go:228-230 | in every interleaving command lines are the arguments joined |
| CachedArgs.FirstFillsReplaceArgs | metric/system/process/process.go:283-293 | two overlapping first fills of which the second to store replaces the arguments of the first |
| SoloCalls.SoloGetOneIsScrape | metric/system/process/process.go:166-175 | the atomic steps of an undisturbed GetOne or GetSelf amount to one sequential scrape of the pid |
| SoloCalls.SoloGetIsScrape | metric/system/process/process.go:109-122 | the atomic steps of an undisturbed Get amount to one sequential scan of the directories, published at once |
| Tracker.ProcsTrack.GetPid | metric/system/process/process_common.go:55-60 | answers the remembered sample, or none |
| Tracker.ProcsTrack.SetPid | metric/system/process/process_common.go:62-66 | replaces one sample and keeps all others |
| Tracker.ProcsTrack.SetMap | metric/system/process/process_common.go:68-73 | replaces every sample |
| Tracker.Stats.PidFill | metric/system/process/process.go:212-278 | the whole outcome of a fill, with its failure and filter branches, from the tracked samples and the kernel's answers |
| Tracker.Stats.PidIter | metric/system/process/process.go:192-206 | a filled sample goes to the map and the list alike; otherwise both stay |
| Tracker.Stats.FetchPids | metric/system/process/process_linux_common.go:49-83 | the map and list of a scan of the directories named by a number, in directory order |
| Tracker.Stats.Get | metric/system/process/process.go:109-125 | after a readable listing the tracked samples are those of the scan and the result is a top selection of it; otherwise nothing changes |
| Tracker.Stats.GetOne | metric/system/process/process.go:166-175 | a filled sample is tracked and returned; a failed one changes nothing |
| Tracker.Stats.GetSelf | metric/system/process/process.go:178-188 | the same for the caller's pid, success and failure alike |
| TrackerRuns.FillSucceedsExactly | metric/system/process/process.go:212-256 | a fill is left out exactly when its name does not match, and succeeds exactly when the name does and everything read is; arguments need not be read where they are cached |
| TrackerRuns.ReducedFill | metric/system/process/process.go:219-222 | reduced sampling reports what the stat file says and nothing else |
| TrackerRuns.FillReportsReading | metric/system/process/process_linux_common.go:85-130 | a filled sample carries the kernel's answers, each in its own place, and its total value equals its ticks despite the rounding |
| TrackerRuns.FillArgs | metric/system/process/process.go:283-293 | arguments and command line are the tracked ones exactly when caching is on and there are some; otherwise they are the answer, joined, and a failed answer fails the fill |
| TrackerRuns.FillEnv | metric/system/process/process_linux_common.go:113-116 | the environment is the tracked one, or else exactly the allowed variables of the answer with their values |
| TrackerRuns.FillPercentages | metric/system/process/process.go:275-277 | percentages are the ticks since the tracked sample over the whole milliseconds since then, and there are none without one |
| TrackerRuns.FillFacts | metric/system/process/process.go:212-293 | a fill keeps cached arguments, command line and environment, joins arguments into the command line, and only passes matching names |
| TrackerRuns.ScanFacts | metric/system/process/process.go:192-209 | after a scan exactly the pids with a successful, matching fill are in the map |
| TrackerRuns.VisitsAreDistinct | metric/system/process/process_linux_common.go:66-80 | distinct directory names with numbers printed plainly give distinct pids, each the name of a directory |
| TrackerRuns.VisitsAreDirectories | metric/system/process/process_linux_common.go:66-80 | exactly the directories named by digits are visited, each under the number of its name |
| TrackerRuns.EveryPidIsVisited | metric/system/process/process_linux_common.go:66-80 | every process listed under its printed pid is visited |
| TrackerRuns.ScanAgrees | metric/system/process/process.go:192-209 | for distinct directories the list has distinct pids and the map holds exactly the listed samples |
| TrackerRuns.GetReturnsTracked | metric/system/process/process.go:109-125 | everything Get returns is tracked as returned, pids distinct |
| TrackerRuns.RunsStayWellTracked | metric/system/process/process.go:228-230 | over any run, every tracked sample is under its own pid and its command line is its arguments joined |
| TrackerRuns.CachedForGood | metric/system/process/process.go:283-293 | over any run of calls that do not overlap and keep a pid tracked, non-empty arguments, their command line, and a non-nil environment never change |
| TrackerRuns.PercentagesAccountForTicks | metric/system/process/process.go:232-277 | over any run that keeps a pid tracked, percentage times interval sums to the ticks used, exactly unrounded and within the rounding published |
| CpuPercent.PercentagesFromTicks | metric/system/process/helpers.go:77-101 | both percentages in terms of ticks, nanoseconds and the number of CPUs |
| CpuPercent.IntervalGivesTicks | metric/system/process/helpers.go:77-101 | one interval: unrounded percentage times milliseconds is the tick increase; published within half a unit |
| CpuPercent.NormalizedPct | metric/system/process/helpers.go:96-98 | normalized percentage times the number of CPUs is the percentage, up to rounding |
| CpuPercent.PercentagesDoNotDrift | metric/system/process/helpers.go:77-101 | the same over any history of samples; rounding errors never accumulate beyond half a unit per millisecond |
| Sorting.SortSlice | metric/system/process/process.go:340-342 | sorts in place into some descending arrangement of the same elements |
| TopProcesses.IsProcessInSlice | metric/system/process/helpers.go:57-64 | finds a process exactly when one with its pid is present |
| TopProcesses.IncludeTopProcesses | metric/system/process/process.go:326-364 | permutes the input and returns a selection built from the two sorted prefixes |
| TopProcesses.FilterOff | metric/system/process/process.go:327-331 | with the filter off, or no limit set, everything is returned |
| TopProcesses.SelectionSound | metric/system/process/process.go:326-364 | distinct pids, nothing invented, size between the larger and the sum of the limits; every excluded process has that many included ones with at least its CPU percentage, and with at least its resident size |
| TopProcesses.TopByRank | metric/system/process/process.go:340-343 | ties included: few enough strictly ahead is necessary for the top, few enough at or ahead is sufficient |
| TopProcesses.SelectionExact | metric/system/process/process.go:326-364 | with distinct percentages and sizes the result is exactly the processes with fewer above them than asked for, on one or the other |
| TopProcesses.RefilterKeepsAll | metric/system/process/process.go:326-364 | filtering the result again loses nothing |
| Rounding.RoundWithPrecisionMonotone | metric/math.go:32-45 | rounding keeps order, for every precision and sign |
| Rounding.RoundWithPrecisionIdempotent | metric/math.go:32-45 | a rounded value is a fixed point |
| Rounding.NearestExactlyWhen | metric/math.go:32-45 | within half a unit exactly for non-negative values and negative ones at most half a unit above the grid point below |
| Rounding.NegativeRoundsAway | metric/math.go:26-45 | a negative value rounded by nine tenths of a unit |
| Rounding.ShiftIsPow10 | metric/math.go:34-43 | shifting decimal places is multiplying or dividing by the power of ten |
| CpuMonitor.Monitor.Fetch | metric/cpu/metrics.go:101-111 | pairs the last sample with the new one and remembers the new one; an error changes nothing |
| CpuMonitor.Monitor.FetchCores | metric/cpu/metrics.go:115-144 | pairs each core with its own last sample, or none for a new core, and with its own details; an error, or details for too few cores, changes nothing |
| CpuMonitor.FetchedTimeConserved | metric/cpu/metrics.go:101-144 | over any run of both calls, errors included, reported and missed time add up to the counter advance modulo 2^64 |
| CpuMonitor.NothingMissedExactly | metric/cpu/metrics.go:101-144 | where totals do not go back, Fetch reports the whole advance exactly when no FetchCores found more ticks than the sample before it |
| CpuMonitor.FillMetric | metric/cpu/metrics.go:221-234 | adds exactly the enabled entries of one state |
| CpuMonitor.ReportOptMetric | metric/cpu/metrics.go:169-190 | one more available state adds its entries and changes no other |
| CpuMonitor.Format | metric/cpu/metrics.go:156-209 | fails exactly when no time passed; otherwise publishes exactly the enabled and available entries, each with its own value, and the details of a core that has some |
| CpuMonitor.IntervalIsAllTicks | metric/cpu/metrics.go:76-80 | the interval is the advance of all eight counters together |
| CpuMonitor.ReportIsByName | metric/cpu/metrics.go:156-246 | under the name of each counter are its ticks and its share of the interval, times the number of CPUs for totals, one for a core |
| CpuMonitor.PercentagesSumToCPUs | metric/cpu/metrics.go:156-246 | state percentages sum to the number of CPUs within half a unit per reported state, exactly when every delta fits an int64 |
| CpuMonitor.HugeDeltaFails | metric/cpu/metrics.go:242-246 | a sample whose percentages do not add up |
| CpuMonitor.TotalPctExact | metric/cpu/metrics.go:211-219 | total.pct is exactly CPUs less idle less iowait as published, between -0.0001 and CPUs, and within 0.0001 of the unrounded share |
| CpuMonitor.TotalFromIdle | metric/cpu/metrics.go:211-219 | the last rounding of the total never changes it |
| CpuMonitor.NormalizedIsOneCPU | metric/cpu/metrics.go:178-183 | normalized entries are those of the same sample on one CPU |
| DiskIO.RolloverLosesOneUnit | metric/system/diskio/diskstat_linux.go:63-78 | one step is exact if and only if the 32-bit counter did not roll over |
| DiskIO.RolloverConservation | metric/system/diskio/diskstat_linux.go:62-78 | over any run the deltas sum to the true advance less one unit per rollover |
| DiskIO.RolloverMissesOperation | metric/system/diskio/diskstat_linux.go:62-78 | one operation that takes a 32-bit counter over its end is not counted |
| DiskIO.WideCounters | metric/system/diskio/diskstat_linux.go:63-73 | wider counters are exact while they advance, and a reset counts for nothing |
| DiskIO.AwaitBetweenReadAndWrite | metric/system/diskio/diskstat_linux.go:97-141 | the rounded average wait lies between the rounded read and write waits |
| DiskIO.IOStat.constructor | metric/system/diskio/diskstat_linux.go:46-50 | a new sampler remembers nothing |
| DiskIO.IOStat.OpenSampling | metric/system/diskio/diskstat_linux.go:54-56 | takes the current CPU total and nothing else; a failed reading changes nothing |
| DiskIO.IOStat.CalcIOStatistics | metric/system/diskio/diskstat_linux.go:81-151 | answer and remembered counters for a first sample, an empty interval, and a success |
| DiskIO.AnswerOverInterval | metric/system/diskio/diskstat_linux.go:92-150 | when each CPU ticked so often between the samplings, a known device gets its rates, queue and busy share over ten milliseconds a tick, and its averages over its operations, each from its own counters |
| DiskIO.FailsExactly | metric/system/diskio/diskstat_linux.go:85-95 | a first sample gives zeros; a later one fails, changing nothing, exactly when the CPU total did not move |
| DiskIO.IOStat.CloseSampling | metric/system/diskio/diskstat_linux.go:154-156 | the current CPU total becomes the last one |
| DiskIO.AccountingConserved | metric/system/diskio/diskstat_linux.go:81-151 | over any run, what was accounted to a device sums modulo 2^64 to its latest accepted counter less its first; errors lose nothing |
| DiskIO.AccountingFromFirstSample | metric/system/diskio/diskstat_linux.go:85-89 | the same from an empty sampler; a device is remembered exactly when it was sampled |
| DiskIO.DevicesIsolated | metric/system/diskio/diskstat_linux.go:81-151 | removing all calls on other devices changes nothing for a device |
| Filesystem.FilterDuplicates | metric/system/filesystem/filesystem.go:154-178 | relative entries first in order, then the kept entry of each device in some order |
| Filesystem.KeptExtends | metric/system/filesystem/filesystem.go:164-170 | one more entry keeps the map right: earliest among the shortest |
| Filesystem.OnePerDevice | metric/system/filesystem/filesystem.go:152-178 | an absolute entry occurs once if it is the earliest with its device's shortest path, otherwise never; no device is lost |
| Filesystem.FilteredIsPart | metric/system/filesystem/filesystem.go:154-178 | the result is a sub-multiset of the input, relative entries as its prefix and every one of them kept |
| Filesystem.OrderIndependent | metric/system/filesystem/filesystem.go:173-175 | any two map orders give the same entries |
| Filesystem.Idempotent | metric/system/filesystem/filesystem.go:154-178 | filtering again changes nothing but the order of the tail |
| MountInfo.ParseMountinfoLine | metric/system/cgroup/util.go:85-118 | succeeds exactly on lines that read as a mount, with that mount |
| MountInfo.PrintedEntryReads | metric/system/cgroup/util.go:82-118 | every well-formed entry, with any number of optional fields, reads back its mountpoint, type and options |
| MountInfo.SubsystemMountpoints | metric/system/cgroup/util.go:170-229 | each supported subsystem is at the first in-root cgroup mount naming it, V2 at the last cgroup2 mount, nothing else; fails only on an unreadable line |
| MountInfo.OptionNames | metric/system/cgroup/util.go:204-207 | an option names what follows its first sign, or itself without one |
| MountInfo.AddSubsystems | metric/system/cgroup/util.go:200-214 | adds the supported subsystems the options name, never replacing one |
| MountInfo.FirstNamingIsFirst | metric/system/cgroup/util.go:209-212 | the mount kept for a subsystem is the first that names it |
| MountInfo.LastUnifiedIsLast | metric/system/cgroup/util.go:217-220 | the V2 mount kept is the last one |
| MountInfo.PrintedFileTable | metric/system/cgroup/util.go:170-229 | every well-formed file is answered by the table of exactly the printed entries |
| MountInfo.EveryMountCounts | metric/system/cgroup/util.go:194-214 | on every well-formed file, a supported subsystem named by an option of a cgroup mount under the root, plainly or after a key, is in the table |
| MountInfo.OnlyMountsCount | metric/system/cgroup/util.go:194-220 | only cgroup mounts under the root are in the table, and the V2 one is a cgroup2 mount under the root whenever there is one |
| MountInfo.TooFewFields | metric/system/cgroup/util.go:88-92 | a line of fewer than ten fields is refused |
| CgroupPaths.MarkedLineHasFields | metric/system/cgroup/reader.go:350-354 | a line with the V2 mark always has the third field that is indexed |
| CgroupPaths.ReadControllerList | metric/system/cgroup/reader.go:343-371 | the controllers listed under the last marked line's path, or none |
| CgroupPaths.CgroupsVersion | metric/system/cgroup/reader.go:142-174 | the version for unmarked, V2-only and hybrid text |
| CgroupPaths.ProcessCgroupPaths | metric/system/cgroup/util.go:233-307 | each map holds for each key the entry of the last line feeding it; fails exactly on an unreadable V2 directory |
| CgroupPaths.AddSubsystems | metric/system/cgroup/util.go:292-297 | every subsystem of the line gets the line's entry |
| CgroupPaths.AddControllers | metric/system/cgroup/util.go:285-290 | every listed controller gets the line's entry |
| CgroupPaths.UnmarkedIsV1 | metric/system/cgroup/reader.go:154-173 | text without the mark is neither V2-only nor hybrid and yields no V2 path |
| CgroupPaths.SingleMarkedIsV2 | metric/system/cgroup/reader.go:154-158 | text whose trimmed form is one marked line yields no V1 path |
| CgroupPaths.V1EntryPaths | metric/system/cgroup/util.go:256-297 | V1 entries carry the override, or the third field of a V1 line, joined to the subsystem's mount |
| CgroupPaths.V2EntryPaths | metric/system/cgroup/util.go:256-290 | V2 entries carry the override, or the third field of a V2 line, joined to the unified mount or the host's |
| CgroupFile.PrintedV1Paths | metric/system/cgroup/util.go:243-298 | the V1 map of every printed cgroup file holds exactly the subsystems of its hierarchies, co-mounted ones included, each with the path of the last |
| CgroupFile.PrintedV2Paths | metric/system/cgroup/util.go:243-290 | its V2 map holds exactly the controllers its unified groups list, each with the path of the last |
| CgroupFile.ListsExactly | metric/system/cgroup/util.go:285-290 | a controller is listed by a file of its name ending in ".stat", or one with "stat" elsewhere in its own name |
| CgroupFile.ColonPathFeedsNothing | metric/system/cgroup/util.go:250-253 | a printed line is passed over exactly when its path holds a colon |
| CgroupFile.PrintedMark | metric/system/cgroup/reader.go:154-156 | a printed file carries the V2 mark exactly when it has a line of the unified hierarchy |
| CgroupFile.PrintedVersion | metric/system/cgroup/reader.go:154-173 | a printed file is V2 only when its one line is the unified one, hybrid when that line has others beside it, otherwise neither |
| CgroupFile.PrintedGroupPath | metric/system/cgroup/reader.go:343-361 | the controllers of a printed file are read under the path of its last unified line |
| Strings.ScanUnfinished | metric/system/cgroup/util.go:244-249 | a last line without a newline is scanned |
| Strings.ScanCRLF | metric/system/cgroup/util.go:244-249 | carriage returns before newlines are not part of a line |
| Strings.TrimmedFile | metric/system/cgroup/reader.go:155 | a file of lines without blanks at their ends trims to those lines |
| Strings.BlanksSeparate | metric/system/cgroup/util.go:88 | any ASCII blank separates fields, and no printed character does |
| Strings.ContainsWithinLines | metric/system/cgroup/reader.go:154-156 | a newline-free piece occurs in the text exactly when it occurs in a scanned line |
| CgroupMetadata.GetCommonCgroupMetadata | metric/system/cgroup/reader.go:323-340 | the answer of some order of the map, early return included |
| CgroupMetadata.TakesPartExactly | metric/system/cgroup/reader.go:328-330 | with roots ignored, only the root paths of V1 entries are left out |
| CgroupMetadata.BaseIsLast | metric/system/cgroup/reader.go:339 | the id is the last element of a path whatever slashes follow it, a slash for slashes alone |
| CgroupMetadata.NonEmptyPathsAgree | metric/system/cgroup/reader.go:319-340 | with no empty path taking part, every order gives the shared path, or nothing if two differ; skipped entries never matter |
| CgroupMetadata.OrderIndependentExactly | metric/system/cgroup/reader.go:323-340 | all orders agree exactly unless one non-empty path takes part beside an empty one |
| CgroupMetadata.PrintedPathsAgree | metric/system/cgroup/reader.go:323-340 | on the maps of every file whose lines end in a path the answer never depends on the order |
| CgroupMetadata.EmptyPathMatters | metric/system/cgroup/reader.go:323-340 | a file of two lines, one with an empty path, whose map gives different answers in different orders |
| Blkio.CollectOpValues | metric/system/cgroup/cgv1/blkio.go:206-229 | one new cell per device holding the last value of each operation |
| Blkio.DeviceTable.GetDevice | metric/system/cgroup/cgv1/blkio.go:127-134 | the device's own entry, made on first use and never shared |
| Blkio.DeviceTable.FillBytes | metric/system/cgroup/cgv1/blkio.go:136-144 | every device has the last values of the bytes file, in any order; counts untouched |
| Blkio.DeviceTable.FillIos | metric/system/cgroup/cgv1/blkio.go:146-154 | the same for the operation counts |
| Blkio.DeviceTable.FillLimits | metric/system/cgroup/cgv1/blkio.go:156-164 | limits change no statistic |
| Blkio.BlkioThrottle | metric/system/cgroup/cgv1/blkio.go:124-201 | both totals grow modulo 2^64 by the last read and write of each device, whatever the orders and limits; an error changes nothing |
| Blkio.SumLastRemove | metric/system/cgroup/cgv1/blkio.go:196-199 | the sum over devices is the same in whatever order they are taken |
| Blkio.TotalIsSumOfLines | metric/system/cgroup/cgv1/blkio.go:196-227 | the total per device equals the total of the lines no later line replaces |
| DeviceNumbers.DecodeEncode | metric/system/cgroup/cgv2/io_helper_linux.go:57-61 | encoding the decoded pair gives every id back; decoded numbers have 32 bits |
| DeviceNumbers.EncodeDecode | metric/system/cgroup/cgv2/io_helper_linux.go:57-61 | decoding the encoded pair gives every pair of 32-bit numbers back |
| DeviceNumbers.DecodesExactly | metric/system/cgroup/cgv2/io_helper_linux.go:57-62 | an id matches a pair exactly when it is the pair's number |
| DeviceNumbers.FetchDeviceName | metric/system/cgroup/cgv2/io_helper_linux.go:32-75 | a name is found exactly when a walked block device has the number, and it is the last one's |
| NumCpu.ParseCPUList | metric/system/numcpu/cpu_linux.go:62-78 | succeeds exactly when every element does, with the sum of their counts as a Go int |
| NumCpu.PrintedListCounts | metric/system/numcpu/cpu_linux.go:61-89 | for every printed list, newline or not, the count is the number of ids |
| NumCpu.PrintedSetCounts | metric/system/numcpu/cpu_linux.go:61-78 | a non-empty set of ids counts as its size, as a Go int, however it is printed in runs |
| NumCpu.EverySetCounts | metric/system/numcpu/cpu_linux.go:61-78 | every non-empty set of ids has a list that is counted right |
| NumCpu.SetHasRuns | metric/system/numcpu/cpu_linux.go:61-78 | every set of ids has such a list |
| ProcStat.StateOfLetter | metric/system/process/process_linux_common.go:442-448 | each letter of a state is read as that state, any other as unknown |
| ProcStat.PrintedStatReads | metric/system/process/process_linux_common.go:147-181 | for every comm, spaces and parentheses included, name, state, parent and group read back; a line that stops before its 39th field is refused |
| ProcStat.AcceptedHasFields | metric/system/process/process_linux_common.go:155-323 | a line accepted for its name always has the fields indexed for CPU times |
| ProcStat.WholeLineFieldsAlign | metric/system/process/process_linux_common.go:298-323 | whole-line field i+2 is after-comm field i for all i exactly when the comm has no space; otherwise all are shifted by its pieces |
| ProcStat.CPUTimeOfPlainComm | metric/system/process/process_linux_common.go:290-330 | without spaces the times are those of utime, stime and starttime |
| ProcStat.CPUTimeOfSpacedComm | metric/system/process/process_linux_common.go:298-330 | with one gap in the comm the times are those of the fields before utime, stime and starttime |
| ProcStat.TmuxMisread | metric/system/process/process_linux_common.go:298-330 | a line whose user time is published as system time |

## Left out

- Files, directories, system calls and the Windows, Darwin, AIX and BSD back ends: their results are parameters.
- The `report` package, logging, event conversion, process memory percentages, host, hwmon, network and memory metrics: single-branch plumbing.
- Parsing of blkio lines, `/proc/cgroups`, `/proc/stat`, `cmdline`, `environ` and `limits`: the parsed values are parameters.
- IEEE rounding, NaN and infinities: percentages are exact reals before rounding.
- GetProcCPUPercentage: an interval of zero whole milliseconds gives no percentage here; the program publishes an infinite one when the ticks changed.
- PidFill: cgroup contents, network counters, the working directory, the user and memory fields other than the resident size; readers that only matter by failing are flags.
- AcceptedHasFields: GetInfoForPid and getCPUTime read the stat file in two separate reads; one text stands for both here.
- OpenSampling: what a CPU reading that fails half-way leaves behind; here the sampler keeps what it had.
- ParseStat: the integer prefixes and underscores that fmt.Fscan accepts besides plain decimals.
- ScanLines: the 64 KiB line limit of bufio.Scanner.
- FetchDeviceName: a /dev that cannot be listed at all.
- AwaitBetweenReadAndWrite: sums of operations or waits that overflow 64 bits.
- PercentagesSumToCPUs: samples whose fields disappear between scrapes or whose total overflows 64 bits, where the interval itself is wrong.
- Step: the reduced sampling of ListStates, which never shares its samples with another call.
- Text is a sequence of characters; lengths count characters, not bytes.

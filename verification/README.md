# A model of the datasystem command-line and trace tools

The openYuanrong datasystem ships Python tools around its C++ worker: `dscli start` and
`dscli stop`, which run the services, and scripts that turn service logs into reports. This
project models the logic of those tools in Dafny and proves what they promise.

| module | what it models |
|---|---|
| `ServiceWorld` | the operating system as the commands see it: a monotone clock, processes, signals, files, with arbitrary outcomes |
| `StartService` | starting a worker with retries under a deadline, starting a coordinator, starting both with cleanup |
| `StopService` | SIGTERM, a wait bounded by a resolved timeout, SIGKILL |
| `CommandLine` | parsing arguments, printing the command line of a service, reading a flag back from `/proc` |
| `ReadBack` | the round trip of a command line, and exactly when it holds |
| `ProcessMatch` | which processes the stop command takes for the service it looks for |
| `Attribution` | splitting one client latency into seven exclusive stages, two passes that move time, the dominant problem, the totals |
| `UrmaWrites` | segmentation of URMA work requests into logical writes |
| `Accumulator` | the trace accumulator: facts per trace, global tallies, classification |
| `WorkerIpMapping` | the greedy matching of workers to addresses |
| `TraceFacts` | what the facts and the class of a trace say about its log lines |
| `LogMapping` | the matching built from what the accumulator counts |
| `TimeBuckets` | traces per second and per ten seconds |
| `RequestTable` | merging events per request by maximum, scoring, the first 80 |
| `AccessLogBins`, `AccessLogStats` | time bins and their labels, statistics by bin and API and by API alone |
| `AccessLogReport` | what the figures of that report say about the records |
| `Percentiles`, `Ranks` | the two percentile definitions, and ranks told by counting |
| `PacedLoop` | the rate-limited benchmark loop |
| `Arithmetic`, `Basics`, `Ordering`, `Tally`, `Text` | products and quotients, options, `sorted`, sums and bags, substring search |

Modelling conventions:

- Numbers are exact. Times are integers on the grid the tool rounds to (nanoseconds in
  `Attribution` and `UrmaWrites`, microseconds in `Accumulator` and `RequestTable`), so the
  rounding of the tool is the identity; percentiles and pacing use `real`.
- Log lines are records of what the parser extracts. A `Counter` is a multiset, a `dict` a map,
  or a sequence of items with distinct keys where its order matters.
- A system call is a method of `World` whose outcome is arbitrary within what the operating
  system guarantees: the clock never goes back, a sleep lasts at least as long as asked, an exited
  process stays exited, a delivered SIGKILL is final. What is proved of a command holds for every
  such environment. `StopService` assumes this of the wall clock that `wait_exit` reads.
- `validate_no_injection` is the identity on the strings it accepts.

Where the code does not do what its surroundings suggest, the model follows the code:

- A request that succeeded although a URMA timeout was seen keeps the problem label of the initial
  split when the URMA pass changes the dominant stage. `Attribution.StaleProblemExample` shows
  it, `Attribution.SuccessfulTimeoutProblem` says exactly when.
- `dscli stop` can fail although the process is gone: of a process that was running, exactly when
  SIGTERM or SIGKILL finds no process, or SIGKILL is delivered and the wait after it does not see the
  process gone. `StopService.StopCommand.Stop` states this.
- When SIGKILL is refused, a failing `start_worker` leaves its last worker running. This is the
  `KillRefused` case of `StartService.StartWorker`; in every other case nothing is left.
- The per-source error counters of a trace leave out the status of access lines;
  `Accumulator.SourceErrorsComplete` says exactly when they are complete.
- A worker whose best address is the empty string gives up the free ones behind it
  (`WorkerIpMapping.EmptyBestAddressIsGivenUp`); a free address is given up for no other reason
  (`WorkerIpMapping.GivenUpForEmpty`). `WorkerIpMapping.MappingIsParetoOptimal` says that the matching
  is Pareto optimal exactly when no left-out worker has a free address. The accumulator counts no empty
  address, so a matching built from a log always is (`LogMapping.LogMappingIsGood`).
- A parameter can be read back as another one when its name extends the other name by '=' or by a
  leading '-' (`ReadBack.KeyWithEqualsMisread`, `ReadBack.KeyWithDashMisread`).
  `ReadBack.ReadsBackExactly` says exactly for which keys every choice of values reads back.
- A worker is taken for the coordinator it uses when a value on its command line is a path to
  something called `datasystem_coordinator` (`ProcessMatch.LogDirMakesACoordinator`);
  `ProcessMatch.WorkerTakenForCoordinator` says exactly when.
- `%Y` prints years before 1000 without leading zeros, as the C library of Linux does, so labels of
  bins need not sort by time (`AccessLogBins.ShortYearMisplaced`).
  `AccessLogBins.LabelsChronological` and `AccessLogStats.BinsInOrderOfTime` say exactly when they do.

## Model

| member | source | states |
|---|---|---|
| StartService.HandleExitedWorkerStart | cli/start.py:598-630 | a running worker continues unchanged; an exited one is retried only for a held store lock that is not an address conflict and only when retrying is allowed; a raise means that it has exited, with the code and output that the error names |
| StartService.AwaitReady | cli/start.py:694-726 | readiness is reported exactly when the ready file is seen, right after polling the worker as running; every poll that finds it running is followed by a look for the file; giving up means that the deadline has passed and the worker still runs; a retry means that it exited with output that reports a held lock, an error that it exited as the error says; nothing but this worker changes |
| StartService.AttemptStart | cli/start.py:684-745 | one spawn at most, still at most one worker alive; an attempt that ends without readiness leaves no worker alive unless SIGKILL was refused; every error has a cause that was seen |
| StartService.RetryRound | cli/start.py:673-751 | one iteration of the loop: the same, and every way to come back for another round is exactly one lock conflict |
| StartService.RetryUntilDeadline | cli/start.py:670-751 | over every run, however it ends: at most one worker alive at any time, no more spawns and no more lock conflicts than seconds in the timeout, the retry count reported is the number of conflicts and each of them is a busy lock or an exit whose output reports one, the plain timeout is reported only when no attempt was made, and no failure is reported without a cause that was seen |
| StartService.Preflight | cli/start.py:649-669 | the checks pass only with one backend, a valid address that refuses connections, a command that can be built and a ready file that is gone; each error names the check that failed |
| StartService.StartWorker | cli/start.py:632-767 | the same for the whole operation with its checks; it succeeds exactly when it sees the ready file, with the latest worker polled running just before; every poll that finds a worker running is followed by a look for the file, or by SIGKILL at the deadline; it sleeps only after a look, for a second or for what is left until the deadline; spawns only after the lock was seen free; failure has a cause that was seen and leaves nothing alive, except that a refused SIGKILL leaves the last worker running |
| StartService.StartCoordinator | cli/start.py:769-834 | it succeeds exactly when the coordinator accepts a connection and runs on, polled once in every round and once more after the connection; it sleeps a second after every refused connection and nowhere else; failure leaves it exited or killed, and running exactly when SIGKILL was refused; it is killed only after the full wait of one round per second; every failure has a cause that was seen |
| StartService.KillStartedProcess | cli/start.py:852-883 | SIGTERM first, SIGKILL last and only after the grace period or a refused probe; all probes within less than the grace period, and a short sleep after each that finds the process; the process is gone afterwards unless a signal was refused; other processes are untouched |
| StartService.StartBoth | cli/start.py:246-263 | all or nothing: it succeeds exactly when the worker's ready file is seen, and then the coordinator and the latest worker are up and earlier workers down; failure has a cause that was seen, the coordinator's or the worker's, and leaves running only processes that refused a signal in this run |
| StopService.StopTimeout | cli/stop.py:248-318 | a positive override is the timeout; without one it is 180 seconds for a coordinator and more for a worker, whatever the command line and the config hold |
| StopService.TimeoutOfStartedWorker | cli/stop.py:248-318 | without an override a worker is stopped with 180 seconds plus its memory size over its rate limit, both as it was started with, else as configured, else the defaults, whatever launched it |
| StopService.SettingMeans | cli/stop.py:248-277 | each of the two settings: the value the worker was started with, the default even in place of one that is no positive integer; without one the config, a plain value, the value of an object or its default; without either the default |
| StopService.TimeoutByDefault | cli/stop.py:279-303 | with nothing said about either setting the timeout is 205.6 seconds |
| StopService.StopCommand.WaitExit | cli/stop.py:455-479 | success only when the process was seen gone or a zombie; a timeout only after the whole timeout with the process there at every look; an exception only after a look that failed; all looks within less than the timeout; a short sleep only after its state and a null signal have shown the process there; nothing but looks at the process, and without success nothing changes |
| StopService.StopCommand.ForceStop | cli/stop.py:340-356 | one SIGKILL and a wait shortened to ten seconds; the process is seen gone, or the error says whether the signal, a look or the process itself is to blame; a failure leaves the process gone exactly when SIGKILL was delivered or found none; the timeout field is restored on every exit |
| StopService.EndingsExact | cli/stop.py:320-356 | the last event alone decides how the operation ended, outcome by outcome in both directions; after a delivered SIGKILL only the wait can fail |
| StopService.StopCommand.Stop | cli/stop.py:320-356 | SIGTERM first; SIGKILL at most once, only after SIGTERM was delivered and the whole timeout passed with the process there at every look; neither wait looks for longer than it should, and each sleep follows a look that found the process; a normal return means that it is gone; every ending has a cause that was seen and is decided by the last event; a failing stop of a running process leaves it gone exactly when a signal found no process or SIGKILL was delivered; the timeout field holds the resolved value on every exit |
| CommandLine.ParseCliArgs | cli/start.py:419-454 | accepts exactly the lists that decode into flag/value pairs and returns their map; each error names a dangling flag or a stray value that is really there |
| CommandLine.DecodeFlatten | cli/start.py:435-451 | parsing undoes flattening |
| CommandLine.AcceptedArguments | cli/start.py:435-451 | the accepted lists are exactly the flattenings of pairs with bare "--" tokens between them |
| CommandLine.PairIsParam | cli/start.py:438-447 | every flag given is in the result |
| CommandLine.LastPairWins | cli/start.py:438-447 | a key of the result has the value of the last pair with that key |
| CommandLine.FillParams | cli/start.py:456-480 | a supplied key keeps its value, a default fills a gap, relocated when it is a relative path, and no other key appears |
| CommandLine.BuildCommand | cli/start.py:885-961 | the loop prints the launcher and then one flag per emitted parameter, in order |
| CommandLine.SplitJoin | cli/stop.py:227-234 | the NUL-separated form of an argument list splits back into the list |
| CommandLine.ReadFlag | cli/stop.py:210-246 | the two scans find the first assignment to the key, or else the value after the first bare option |
| ReadBack.ReadsBackExactly | cli/stop.py:236-246 | for any launcher and any distinct keys, every choice of values reads back exactly when no launcher argument assigns the key and no key that extends it, or is extended by it, by '=' or by a leading '-' is printed before it |
| ReadBack.CommandReadsBack | cli/stop.py:236-246 | every emitted parameter that no clashing one precedes reads back as its value and every other key as absent, with or without ums_run and numactl |
| ReadBack.CmdlineReadsBack | cli/stop.py:210-246 | the same through the kernel's form of the command line |
| ReadBack.CleanKeyReadsBack | cli/stop.py:236-246 | a key without '=' and leading '-' that numactl does not use is never disturbed by the launcher |
| ReadBack.PrintedMeans | cli/start.py:885-896 | a parameter is printed exactly when it is given, neither excluded nor the service type, and has a character that is no space |
| ReadBack.NumactlReadsBack | cli/start.py:921-939 | the numactl options on the command line read back as they were given, every other key as absent |
| ReadBack.KeyWithEqualsMisread | cli/stop.py:236-240 | a key with '=' that reads as the value of another parameter |
| ReadBack.KeyWithDashMisread | cli/stop.py:236-240 | a key with a leading '-' that reads as the value of another parameter |
| ProcessMatch.StopFindsStartedWorker | cli/stop.py:402-420 | the process of a started worker is accepted for exactly the address it was started with, unless a parameter whose name extends the address flag by '=' is printed before it |
| ProcessMatch.StopFindsStartedCoordinator | cli/stop.py:402-420 | so is the process of a started coordinator |
| ProcessMatch.DscliIsSkipped | cli/stop.py:414-415 | `dscli` itself is never accepted |
| ProcessMatch.StopSkipsCoordinator | cli/stop.py:402-420 | under the same condition the process of a started coordinator is never taken for a worker |
| ProcessMatch.WorkerTakenForCoordinator | cli/stop.py:402-420 | a worker is taken for a coordinator exactly when it was given that coordinator address and a value on its command line is a path to something called like the coordinator binary |
| ProcessMatch.LogDirMakesACoordinator | cli/stop.py:415-418 | a log directory that does it |
| Attribution.Split | scripts/ds_trace_bottleneck.py:909-947 | the stages sum to the client latency for any evidence; for non-negative evidence all are non-negative and equal a closed form without running remainder |
| Attribution.SplitWithinEvidence | scripts/ds_trace_bottleneck.py:909-937 | no measured stage gets more than its evidence, worker stages stay within the worker budget, and the residual vanishes exactly when the evidence covers the client time |
| Attribution.PrimaryStage | scripts/ds_trace_bottleneck.py:948 | the dominant stage is the first maximal one |
| Attribution.PrimaryUnique | scripts/ds_trace_bottleneck.py:948 | there is only one first maximal stage |
| Attribution.PrimaryIsOneSeventh | scripts/ds_trace_bottleneck.py:948 | it holds at least one seventh of the total |
| Attribution.UrmaCoversCriticalPath | scripts/ds_trace_bottleneck.py:1622-1629 | after the URMA pass URMA covers the critical path or the parent window is used up; it has grown exactly that far; repeating the pass changes nothing |
| Attribution.Row.constructor | scripts/ds_trace_bottleneck.py:909-958 | a new row satisfies the row invariant: conservation, non-negativity, first maximal stage, a problem among the problem names |
| Attribution.Row.ReattributeUrma | scripts/ds_trace_bottleneck.py:1605-1632 | the row records the logical writes; its critical path is the wall clock of some complete write and at least that of every one or, with none complete, the cost of some request and at least every cost; URMA then is at least the wall clock of every complete write or the parent window is 0; the pass moves exactly the missing part, limited by the parent window, and keeps the invariant |
| Attribution.Row.RefineProvider | scripts/ds_trace_bottleneck.py:1474-1530 | the provider pass moves provider time not explained by URMA exactly when no earlier explanation applies, and keeps the invariant |
| Attribution.BuildRow | scripts/ds_trace_bottleneck.py:1569-1688 | through all passes: conservation, first maximal stage with a seventh of the client time, the writes and their critical path as recorded, URMA at least the wall clock of every complete write unless the parent window is 0; without a URMA timeout the problem is that stage, a failed request with one keeps the timeout label |
| Attribution.LaterPassesKeep | scripts/ds_trace_bottleneck.py:1605-1632 | the two later passes keep the total and four stages; URMA ends at the critical path as far as the parent window allows, the parent window only shrinks and remote supply only grows |
| Attribution.SupplyGrowsExactly | scripts/ds_trace_bottleneck.py:1474-1527 | remote supply grows exactly when some parent window is left, the longer provider time is at least 1 ms and more than twice the critical path, and no URMA timeout, named deadline, queue, client network or metadata query explains the trace; it grows by the provider time beyond the critical path, limited by that window |
| Attribution.NoProviderNoSupply | scripts/ds_trace_bottleneck.py:1516-1518 | without a provider time it does not grow |
| Attribution.OvertakenExactly | scripts/ds_trace_bottleneck.py:1622-1630 | arithmetic condition for a dominant stage to lose its place in the URMA pass, both directions |
| Attribution.SuccessfulTimeoutProblem | scripts/ds_trace_bottleneck.py:1630-1632 | for a successful request with a URMA timeout the initial dominant stage is the final one exactly when it was not overtaken |
| Attribution.ReportedTimeoutProblem | scripts/ds_trace_bottleneck.py:1630-1632 | the label reported for such a request names the dominant stage reported exactly then |
| Attribution.StaleProblemExample | scripts/ds_trace_bottleneck.py:1630-1632 | an input where it does not |
| Attribution.ProblemsPartitionRows | scripts/ds_trace_bottleneck.py:2056-2080 | the problem counts add up to the number of rows |
| Attribution.StageTotalsAddUp | scripts/ds_trace_bottleneck.py:2034-2041 | the stage totals, successes and failures together, add up to the client time of all rows |
| Attribution.BuildTraceRows | scripts/ds_trace_bottleneck.py:1569-1689 | for every list of traces the rows are the finished rows of the traces with their writes, critical path, stages, dominant stage and label in all three error cases, sorted by timestamp and id, with URMA at least the wall clock of every complete write unless the parent window is 0, and both totals hold |
| UrmaWrites.GroupRequests | scripts/ds_trace_bottleneck.py:1298-1315 | the loop computes the recursive grouping |
| UrmaWrites.GroupsSegment | scripts/ds_trace_bottleneck.py:1298-1315 | groups concatenate to the input, are runs of consecutive chunks, and cannot be merged with a neighbour |
| UrmaWrites.SegmentationUnique | scripts/ds_trace_bottleneck.py:1298-1315 | no other grouping has these properties |
| UrmaWrites.InsideGroup | scripts/ds_trace_bottleneck.py:1300-1309 | inside a group each request numbers the next chunk of the same write |
| UrmaWrites.BetweenGroups | scripts/ds_trace_bottleneck.py:1300-1309 | the first request of a later group does not |
| UrmaWrites.CompleteWritesRegroup | scripts/ds_trace_bottleneck.py:1298-1315 | complete writes laid end to end are split back into exactly those writes |
| UrmaWrites.LogicalWrites | scripts/ds_trace_bottleneck.py:1295-1346 | one row per group, in order: complete exactly when the group has all its chunks, every chunk both clocks and some completion is not before some post; the wall clock is then the longest time from a post to a completion in the group; the slowest cost, the sums and the ids are those of the group |
| UrmaWrites.CompleteWriteCoversMembers | scripts/ds_trace_bottleneck.py:1319-1328 | a complete write has all its chunks and clocks, and its wall clock is at least every member's own span |
| UrmaWrites.WritesConserve | scripts/ds_trace_bottleneck.py:1329-1340 | request counts, costs and sizes of the reported writes add up to those of the requests |
| Accumulator.TraceAccumulator.Ingest | scripts/ds_trace_triage.py:901-1045 | after every line each trace has the facts of exactly its lines and the tallies those of all lines |
| Accumulator.TraceOfSnoc | scripts/ds_trace_triage.py:901-934 | adding a line to the facts of a trace gives the facts of the longer trace, field by field |
| Accumulator.TalliesAreSums | scripts/ds_trace_triage.py:911-958 | the global worker, flow, RPC and error tallies are the sums over the traces |
| Accumulator.LatenciesAreSums | scripts/ds_trace_triage.py:959-964 | so is the bag of access latencies |
| Accumulator.AccumulatorAddsUp | scripts/ds_trace_triage.py:901-964 | after any lines, the tallies that the accumulator holds are the sums over the traces that it holds |
| Accumulator.TraceCounts | scripts/ds_trace_triage.py:904-925 | a trace's line count is the sum over its workers and over its sources; kept evidence is min(lines, 200) and kept plus dropped is the line count |
| Accumulator.SourcesSplitTrace | scripts/ds_trace_triage.py:909-913 | the per-source statistics split lines and workers of the trace, and its error patterns |
| Accumulator.SourceErrorsComplete | scripts/ds_trace_triage.py:956-958 | they hold all errors exactly when no access line reports a failure |
| Accumulator.NoEmptyIp | scripts/ds_trace_triage.py:915-917 | no worker is counted under an empty address |
| TraceFacts.CountersMean | scripts/ds_trace_triage.py:909-953 | how often each worker, source, operation and slow RPC is counted in a trace: once for every line that has it |
| TraceFacts.ErrorsMean | scripts/ds_trace_triage.py:956-958 | how often each error is counted: every matched pattern, and the status of every access that failed |
| TraceFacts.TimesMean | scripts/ds_trace_triage.py:959-964 | which latencies, client latencies and URMA totals a trace lists, and how often |
| TraceFacts.EvidenceMeans | scripts/ds_trace_triage.py:922-925 | the kept evidence is that of the first 200 lines, in order |
| TraceFacts.SourceMeans | scripts/ds_trace_triage.py:909-913 | the statistics of a source count the lines of that source, latencies and patterns only under a non-empty name |
| TraceFacts.IpCountsMean | scripts/ds_trace_triage.py:915-917 | an address is counted for a worker once for every line of a worker pod that carries it |
| TraceFacts.ClassMeans | scripts/ds_trace_triage.py:727-749 | each of the nine classes by what the lines of the trace show, both directions: the concurrency error, an error or failed status, a URMA total of at least 50 ms, a longest (client) access of 18 to 25 ms, dominating copy time, a slow RPC, an access |
| Accumulator.ClassificationIgnoresOrder | scripts/ds_trace_triage.py:727-749 | the classification of a trace does not depend on the order of its lines |
| Accumulator.LogOrderDoesNotMatter | scripts/ds_trace_triage.py:901-1045 | reordering the log changes no tally, no address counter and no classification |
| LogMapping.LogOrderKeepsMapping | scripts/ds_trace_triage.py:915-917 | nor the matching of workers to addresses, whatever the insertion orders of the dicts |
| LogMapping.LogMappingIsGood | scripts/ds_trace_triage.py:1303-1323 | the matching built from a log is Pareto optimal, and no matching is more than twice as large |
| WorkerIpMapping.BuildWorkerIpMapping | scripts/ds_trace_triage.py:1303-1323 | the rows are exactly the matching, in the string order of the worker names |
| WorkerIpMapping.MappingIsSerialDictatorship | scripts/ds_trace_triage.py:1310-1315 | every worker holds what it likes best among its addresses not held by a worker before it |
| WorkerIpMapping.SerialDictatorshipUnique | scripts/ds_trace_triage.py:1310-1315 | that determines the matching |
| WorkerIpMapping.MoreLinesChooseFirst | scripts/ds_trace_triage.py:1306-1315 | who comes first: when a worker holds an address that another one with more lines (or as many and a smaller name) has counted, the other holds one that it counted more often (or as often, and no larger), or has counted the empty address at least as often |
| WorkerIpMapping.MappingIsMatching | scripts/ds_trace_triage.py:1310-1322 | no address is given twice, and each was seen in the worker's own lines |
| WorkerIpMapping.GivenUpForEmpty | scripts/ds_trace_triage.py:1312-1314 | a left-out worker with an address that is free in the end has counted the empty address at least as often |
| WorkerIpMapping.EmptyBestAddressIsGivenUp | scripts/ds_trace_triage.py:1312-1314 | an empty address makes a worker give up a free one |
| WorkerIpMapping.HoldersKeepTheirs | scripts/ds_trace_triage.py:1303-1323 | whatever the counts, a matching that is no worse for any worker leaves every worker the address it holds |
| WorkerIpMapping.MappingIsParetoOptimal | scripts/ds_trace_triage.py:1303-1323 | every matching to non-empty addresses that is no worse for any worker is the same matching, exactly when every non-empty address of a left-out worker is held by another |
| WorkerIpMapping.MappingIsHalfOfAnyMatching | scripts/ds_trace_triage.py:1303-1323 | under that condition no matching is more than twice as large |
| WorkerIpMapping.MappingIgnoresItemOrder | scripts/ds_trace_triage.py:1306-1309 | the matching depends neither on the insertion order of the dict nor on that of its counters |
| TimeBuckets.BuildTimeBuckets | scripts/ds_trace_triage.py:1930-1982 | the rows are the non-empty buckets in ascending order with the counts, the burst score and the access percentiles of their traces, and every timed trace has one |
| TimeBuckets.OneBucketEach | scripts/ds_trace_triage.py:1944-1948 | a timed trace is in exactly the bucket that starts at a multiple of the size at most its time and less than the size before it |
| TimeBuckets.RowMeans | scripts/ds_trace_triage.py:1945-1978 | a reported row starts at a multiple of the size; its error, concurrency and slow counts are sums over the traces whose time falls into it, and the burst score is the largest of slow count, error count and 1 |
| TimeBuckets.AccessMeans | scripts/ds_trace_triage.py:1953-1954 | the access latencies it summarises are those of these traces |
| TimeBuckets.Coarsening | scripts/ds_trace_triage.py:1206-1208 | any sum over the traces of a ten-second bucket is the sum over the reported one-second buckets inside it |
| TimeBuckets.CoarseBucketIsSum | scripts/ds_trace_triage.py:1206-1208 | every reported ten-second row has the trace, error, concurrency and slow counts of the reported one-second rows inside it, added up |
| RequestTable.MergeEvents | scripts/ds_trace_triage.py:2185-2244 | the table holds a row exactly for the requests that an event touches, with the merged fields |
| RequestTable.MergeIsMaxima | scripts/ds_trace_triage.py:2179-2183 | a merged row has exactly the fields given, each the largest value given |
| RequestTable.FieldMeans | scripts/ds_trace_triage.py:2185-2244 | each of the eleven fields: it is there exactly when an event of the request has the reading that counts for it, and it is the largest of these readings |
| RequestTable.KeySeparates | scripts/ds_trace_triage.py:2107-2123 | events with request ids share a row exactly when trace and request id agree, for trace ids without a bar |
| RequestTable.NamedByFirst | scripts/ds_trace_triage.py:2107-2128 | a row is named after the first event that makes it |
| RequestTable.MergedFieldsIgnoreOrder | scripts/ds_trace_triage.py:2179-2244 | the merged fields do not depend on the order of the events |
| RequestTable.ScoreIsMax | scripts/ds_trace_triage.py:2250-2261 | the score is the largest scored field, a missing one counting as 0 |
| RequestTable.ScoreMeans | scripts/ds_trace_triage.py:2250-2261 | the score of a row is at least each of the eight scored fields and equal to one of them |
| RequestTable.BuildRequestTable | scripts/ds_trace_triage.py:2246-2275 | min(80, n) rows by descending score, then trace and request id, and no dropped row has a larger score than a kept one |
| AccessLogBins.BinContains | scripts/generate_access_log_report.py:51-63 | the bin is on the same day, at or before the timestamp, less than one interval before it |
| AccessLogBins.BinIdempotent | scripts/generate_access_log_report.py:51-63 | binning a bin changes nothing |
| AccessLogBins.BinMonotone | scripts/generate_access_log_report.py:51-63 | binning keeps the chronological order |
| AccessLogBins.LabelsIdentifyBins | scripts/generate_access_log_report.py:66-73 | two timestamps of any years share a label exactly when they share a bin |
| AccessLogBins.LabelsChronological | scripts/generate_access_log_report.py:66-73 | two labels compare as strings the way their bins compare in time exactly when their years have the same number of digits or the shorter one is at most the leading digits of the longer one |
| AccessLogBins.FourDigitYearsAgree | scripts/generate_access_log_report.py:66-73 | that holds of all years from 1000 on |
| AccessLogBins.ShortYearMisplaced | scripts/generate_access_log_report.py:66-73 | every bin of the year 999 sorts after every bin of the year 1000 |
| AccessLogStats.ComputeStats | scripts/generate_access_log_report.py:159-236 | every series has one entry per bin, the statistics, success rate and rate of calls of that bin and API, absent exactly for an empty group; the table lists the non-empty entries |
| AccessLogStats.BinsListedOnce | scripts/generate_access_log_report.py:137-165 | for records labelled by their time bin the report lists every bin exactly once |
| AccessLogStats.BinsInOrderOfTime | scripts/generate_access_log_report.py:165 | it lists them in the order of time exactly when the years of all records compare alike as strings and as numbers |
| AccessLogStats.KeysOfRecords | scripts/generate_access_log_report.py:165-166 | bins and APIs are those of the records, each once, in string order |
| AccessLogStats.CellOrdered | scripts/generate_access_log_report.py:169-204 | minimum, percentiles and maximum of a cell are ordered and bound its latencies and their mean; the success rate is between 0 and 100, and 100 exactly when nothing failed |
| AccessLogReport.CellRanks | scripts/generate_access_log_report.py:169-200 | minimum, percentiles and maximum of a cell by the number of latencies below and above them |
| AccessLogReport.CellSums | scripts/generate_access_log_report.py:196-204 | count, errors by return code, latency sum, and the success rate as the share of the other calls |
| AccessLogReport.EntryMeans | scripts/generate_access_log_report.py:183-196 | an entry is missing exactly when no record has the bin and the API; the rate times the span of the bin, an hour without one, is the number of records |
| AccessLogReport.TableMeans | scripts/generate_access_log_report.py:183-228 | the table has one row for every bin and API with a record, by bin and then API, with that entry |
| AccessLogStats.TotalByApi | scripts/generate_access_log_report.py:241-247 | the per-API totals are those of the API's records |
| AccessLogStats.ComputeOverall | scripts/generate_access_log_report.py:239-293 | totals, one summary row per API with the statistics of its records, overall errors and success rate, and the error distribution as specified over the records |
| AccessLogReport.SummaryMeans | scripts/generate_access_log_report.py:249-268 | a summary row holds the cell, the mean size and the largest size of the records of its API |
| AccessLogReport.CodeCountMeans | scripts/generate_access_log_report.py:271-274 | how often an API returned an error code; code 0 is none |
| AccessLogReport.BarsMean | scripts/generate_access_log_report.py:276-281 | the error distribution has a bar for every API and error code, with that count |
| AccessLogStats.BinsAddUpToApi | scripts/generate_access_log_report.py:159-247 | for each API the bins together carry what the API carries overall |
| AccessLogStats.ErrorsAgree | scripts/generate_access_log_report.py:270-283 | per-API errors, the overall errors and the total of the error distribution agree |
| AccessLogStats.TableAccountsForLog | scripts/generate_access_log_report.py:183-228 | the counts and errors of the table add up to the records and errors of the log |
| Percentiles.PercentileWithinRange | scripts/ds_trace_bottleneck.py:122-131 | an interpolated percentile lies between the least and the greatest value |
| Percentiles.PercentileMonotone | scripts/ds_trace_bottleneck.py:122-131 | it is monotone in the quantile |
| Percentiles.PercentileExactly | scripts/ds_trace_bottleneck.py:122-131 | where (n - 1) * q is k + t with 0 <= t < 1, it lies the share t of the way from the value of rank k to the value of rank k + 1, ranks being told by counting smaller and larger values |
| Percentiles.PercentilePermutation | scripts/ds_trace_bottleneck.py:122-131 | it does not depend on the order of the values |
| Percentiles.SummaryOrdered | scripts/ds_trace_bottleneck.py:409-416 | p50, p90, p99 and the maximum are in order |
| Percentiles.SpreadOrdered | scripts/ds_trace_triage.py:578-595 | minimum, median, p90, p99 and maximum are in order |
| Percentiles.SpreadExactly | scripts/ds_trace_triage.py:578-595 | the median is the mean of the two middle ranks; p90 and p99 have the ranks floor(9n / 10) and floor(99n / 100) |
| Percentiles.SpreadPermutation | scripts/ds_trace_triage.py:578-595 | they do not depend on the order of the values |
| PacedLoop.Loop | example/kv_set_exist_get.py:93-176 | for every environment and every interrupt the loop records exactly the times of a schedule given by recursion over the cycles and, without it, by the recorded times alone (origin, tick, loop head and start of every cycle), counts every cycle once under its outcome except one interrupted before it had one, and stops exactly at the first loop head past its end |
| PacedLoop.BacklogDropped | example/kv_set_exist_get.py:168-173 | however late a cycle is, the tick of any later cycle makes up for at most eleven intervals of it |
| PacedLoop.ScheduleIsPaced | example/kv_set_exist_get.py:93-173 | on that schedule cycle k starts no earlier than k intervals after the start, catching up is bounded after every check, and a limited run starts fewer than duration * qps + 1 cycles |
| PacedLoop.TimesAreExact | example/kv_set_exist_get.py:168-173 | the recorded times read off themselves: origin of the present schedule, tick, loop head and start of every cycle |
| PacedLoop.Run | example/kv_set_exist_get.py:57-176 | bad arguments are refused exactly when one is not positive; otherwise all of the above hold of the run, and its times are exact: ticks are whole intervals after the start, or after the reset that follows a check more than ten intervals past its tick; every cycle starts at the later of its tick, reached by a sleep, and the check before it; while no check was that late the ticks are start + k intervals; the run stops exactly at the first loop head past its end |
| PacedLoop.WindowBound | example/kv_set_exist_get.py:168-173 | a window of length d after a pacing check sees at most floor(d / interval) + 11 cycle starts |

## Left out

- The C++ worker, client and transfer engine.
- HTML, JavaScript and Markdown rendering, and all free-text conclusions, confidence labels and evidence wording.
- Regular expressions, reading of tar, gzip and log files, configuration files: the model starts from extracted records.
- What address syntax, path safety and injection checks accept: their outcome is arbitrary; and the pgrep search for candidate processes.
- `dscli` commands other than start and stop, and parallel SSH.
- Rounding of displayed statistics, including the step-wise rounding of breakdown sums; binary floating point.
- The choice of the worker budget and QueryMeta evidence: it would only add easy members.
- TimeBuckets.BuildTimeBuckets: does not model the stage latencies and top workers of a bucket, which are collected the same way as the access latencies.
- Attribution.Split: for negative evidence only conservation and the signs of the last three stages are stated, because the log promises non-negative times.
- RequestTable.MergeEvents: does not model the work-request counts and descriptive fields of a row, which the latest event overwrites; only the latency fields.
- RequestTable.BuildRequestTable: the same.
- Accumulator.TraceAccumulator.Ingest: does not model timestamps, breakdown sums, URMA sub-phases, custom metrics, transfer events and surface counts, which are updated the same way as the fields modelled.

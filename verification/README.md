# Verification of the dashboard backend

This project models the parts of the backend that turn what engines, the
process table, Docker and the kernel say into the dashboard's snapshots, and
proves what they promise.  `dafny verify dfyconfig.toml` checks all of it.

Code that updates state in place is a class or a method with loops here, proved
equal to a function of its inputs or of its old state; the promises are proved
of those functions, over whole runs and every interleaving.

- **The latency pipeline** (`Histogram`, `Observations`, `Prometheus`,
  `LabelSeries`, `Warmup`, `LatencyPipeline`).  A histogram is compared with
  the observations it counts.  Label series merge into the histogram of all
  observations, a warmup baseline leaves exactly the observations made since,
  and percentile and goodput invert each other and are within one bucket of
  the truth.  So nothing about a warmup can be told from any later reading.
- **Engine discovery** (`PidTree`, `HostScan`, `DockerMerge`, `Verification`,
  `Discovery`).  Process trees by reachability in parent data that may be
  cyclic, ownership of descendants, containers that claim processes, candidates
  joined by engine type and endpoint, the probe that settles the endpoint, and
  the whole pass.
- **The document store** (`ConfigStore`).  Stores and deletes as interleaved
  steps over a directory and its files.  Each step may fail; a crash may lose
  what was not synced and bring back any earlier directory entry.
- **The log streams** (`LogStreams`, `LineFramer`).  The registry protocol of
  clients and background tasks, and the cutting of frames into lines.
- **The polled engine** (`EngineState`, `Collector`, `TokenRates`).  Grace
  period, model clocks, the engine map, counter rates and the live token count.
- **Addresses and disks** (`OllamaHost`, `Disk`).  Reading `OLLAMA_HOST` and
  printing it back; whole-device names and disk rates.

`Basics` and `Engines` hold what these share.

Where the code and its own comments differ, the model follows the code:

- A merged histogram is that of all observations only for series that agree on
  their bounds (src/engines/prometheus.rs:56-63 says every count is summed per
  bound); `MergeIsUnionExactly` says when.  Otherwise the merged counts may even
  drop from one bucket to the next, as in `DisagreeingSeriesMiscount`, and what
  is proved of well-formed buckets does not apply to them.
- A restart is recognised by a counter below the baseline
  (src/engines/warmup.rs:189-198), not below the last reading; a restarted
  engine that has passed the baseline again by the next scrape goes unnoticed.
  The pipeline theorems therefore speak of engines whose series only grow from
  the baseline on, and `NegativePromptRateIsShownExactly` says when a negative
  prompt rate reaches the dashboard.
- Deregistration leaves a moment in which a client joins a channel about to
  close, although src/logs.rs:182-183 means to rule it out; see
  `ConnectsToDyingExactly` and `DyingChannelIsJoined`.
- The served model depends on the order of the candidates where containers
  disagree (src/engines/detector.rs:164-168), as in `OrderDecidesTheModel`; see
  `ServedModelIsOrderFreeExactly`.
- An answer with neither a model nor an error, over a cached model, leaves the
  refresh clock old (src/engines/mod.rs:677-685), so the engine is asked again
  on every poll once the refresh is due; see `SpacingFailsExactly`.
- The model is also asked for on a tick whose probe failed
  (src/engines/mod.rs:783-794), not only on a first success, after a restart or
  for a refresh: `FailedProbeAsksExactly` says when.  The failed ask starts the
  retry clock, so a first success may go without, as in
  `FirstSuccessIsNotAsked`; after a stop it never does (`RestartIsAskedAtOnce`).

## Model

| member | source | states |
|---|---|---|
| `Histogram.ComputeFractionLe` | src/engines/histogram.rs:74-117 | the bucket walk, with its two running variables, computes the function that the goodput laws below are about |
| `Histogram.WalkIsMass` | src/engines/histogram.rs:93-116 | from any bucket on, the walk returns the share of observations at most the threshold when each bucket spreads its own evenly |
| `Histogram.FractionIsMass` | src/engines/histogram.rs:74-117 | on well-formed buckets goodput is that share for every threshold, the separate first-bucket branch included |
| `Histogram.PercentileInBucket` | src/engines/histogram.rs:32-61 | for q > 0 the percentile lies in the first bucket whose count reaches q of the total, at the point where that bucket's line takes the target; past the finite bounds it is the last finite one |
| `Histogram.PercentileAtZero` | src/engines/histogram.rs:32-61 | q = 0 gives 0, or the whole first bound when the first bucket is empty |
| `Histogram.GoodputOfPercentile` | src/engines/histogram.rs:22-117 | for every q in [0, 1], goodput at the percentile of q is min(q, share of observations under the finite bounds) |
| `Histogram.AdjointExactly` | src/engines/histogram.rs:22-117 | "percentile(q) is at most t" and "q is at most goodput(t)" agree for all t if and only if 0 < q and q of the total is covered by the finite bounds |
| `Histogram.ReadingsAreMonotone` | src/engines/histogram.rs:22-117 | percentiles never decrease with q, from q = 0 on, goodput never with the threshold |
| `Histogram.FractionIsShare` | src/engines/histogram.rs:68-90 | whatever the buckets, goodput is absent exactly for no buckets or no total, and otherwise in [0, 1]; under a first bound it is 0 for thresholds up to 0 |
| `Histogram.WalkInBucket` | src/engines/histogram.rs:93-113 | where counts drop from one bucket to the next, goodput stays at the earlier count; otherwise it lies between the two |
| `Histogram.PercentileInAnyBucket` | src/engines/histogram.rs:48-61 | of any buckets, a percentile lies between the bounds of the bucket it is read from, and on the upper bound where they enclose nothing |
| `Histogram.NoPercentileWithoutBound` | src/engines/histogram.rs:38-46 | without a finite bound there is no percentile |
| `Observations.OrderDoesNotMatter` | src/engines/histogram.rs:11-22 | a cumulative histogram, its sum and its count do not depend on the order of the observations |
| `Observations.TargetIsRank` | src/engines/histogram.rs:32-36 | a bucket reaches the target of q exactly when the observation of rank ceil(q*n) is within its bound |
| `Observations.PercentileIsAccurate` | src/engines/histogram.rs:22-61 | the ceil(q*n)-th smallest observation lies in the bucket the percentile is read from, so they differ by at most its width; past the last finite bound the percentile is that bound and the true quantile exceeds it |
| `Observations.GoodputIsAccurate` | src/engines/histogram.rs:64-117 | goodput and the true share of observations at most the threshold lie between the shares at the ends of one bucket, agree at every finite bound, and past the last one goodput is the share up to it and at most the truth |
| `Observations.ReadingsAreNoneExactly` | src/engines/histogram.rs:22-81 | there is no percentile if and only if nothing was observed under the last bound or q is outside [0, 1], and no goodput if and only if nothing was |
| `Prometheus.MergeBuckets` | src/engines/prometheus.rs:97-111 | folding one label series into the merged buckets keeps bounds distinct, unites the bounds and adds counts bound for bound |
| `Prometheus.SortBuckets` | src/engines/prometheus.rs:136-138 | the final sort permutes the buckets into order |
| `Prometheus.SortedMerge` | src/engines/prometheus.rs:136-138 | after sorting, the merged buckets still hold the same bounds and sums, now strictly ascending |
| `Prometheus.AddSample` | src/engines/prometheus.rs:83-132 | one sample of any kind extends the merge of the samples before it to one sample more |
| `Prometheus.Parse` | src/engines/prometheus.rs:79-145 | the parsed metrics hold exactly the names, gauge series, counter totals and per-bound bucket totals of all samples, buckets strictly ascending |
| `Prometheus.UntypedExactly` | src/engines/prometheus.rs:116-131 | an untyped sample is a counter exactly when its name ends in _sum, _count or _total, and a gauge otherwise |
| `Prometheus.GaugeReadings` | src/engines/prometheus.rs:30-48 | a gauge reads as the sum or the mean of its label series, and not at all when it has none |
| `LabelSeries.TotalsOfPermutation` | src/engines/prometheus.rs:56-63 | counter totals and bucket totals are the same for every permutation of the samples |
| `LabelSeries.AscendingIsUnique` | src/engines/prometheus.rs:136-138 | buckets in strictly ascending order are determined by their bounds and counts |
| `LabelSeries.MergeIgnoresOrder` | src/engines/prometheus.rs:34-138 | permuted scrapes give equal counters, equal histograms and equal gauge sums and means |
| `LabelSeries.ScrapeTotals` | src/engines/prometheus.rs:83-138 | merged from any order and among other metrics, a histogram holds at each bound the observations of the series that have that bound, and its sum and count are those of all observations |
| `LabelSeries.MergeIsUnionExactly` | src/engines/prometheus.rs:56-63 | the merged buckets are the cumulative histogram of all observations if and only if no series lacks a merged bound below which it has observations |
| `LabelSeries.SharedBoundsMergeToUnion` | src/engines/prometheus.rs:56-63 | series sharing their bounds merge into the histogram of the union of their observations |
| `LabelSeries.DisagreeingSeriesMiscount` | src/engines/prometheus.rs:97-111 | two series that disagree on a bound merge to counts 5, 0, 5: not those of the observations, and not even nondecreasing |
| `Warmup.CounterRegression` | src/engines/warmup.rs:189-198 | true exactly when some counter of the baseline is still there and below it |
| `Warmup.SubtractBaseline` | src/engines/warmup.rs:208-246 | counters less their baseline and never negative, histograms likewise, dropped if their bounds changed and passed through if new |
| `Warmup.SubtractedExactly` | src/engines/warmup.rs:200-246 | key by key: gauges stay, counters lose their baseline and stop at 0, a histogram is dropped exactly when the baseline has it with other bounds |
| `Warmup.BucketsSubtract` | src/engines/warmup.rs:217-228 | bucket by bucket: the count less the baseline's, 0 where that is larger |
| `Warmup.GaugesPassThrough` | src/engines/warmup.rs:95-174 | in every state the gauges of a scrape pass through |
| `Warmup.WarmupTracker.constructor` | src/engines/warmup.rs:82-90 | a new tracker is warming up with no cursor |
| `Warmup.WarmupTracker.Observe` | src/engines/warmup.rs:95-174 | state and answer after a scrape are those of the step function, in all branches of both states |
| `Warmup.RunIsBaselined` | src/engines/warmup.rs:95-174 | in any run, from the scrape at which a warmup ended every scrape is reported less that one baseline while no counter drops below it, whatever restarts and warmups came before |
| `Warmup.ActiveHasBaseline` | src/engines/warmup.rs:95-174 | conversely, an active tracker stands on the baseline of some scrape that ended a warmup, with no counter below it since |
| `Warmup.AnswersExactly` | src/engines/warmup.rs:95-174 | over any run a scrape is passed through raw exactly when no baseline stands, and otherwise reported less the one that does |
| `Warmup.WarmingHasStart` | src/engines/warmup.rs:95-174 | a tracker that is warming up has been since the first scrape or since a scrape that showed a restart |
| `Warmup.CursorIsLeast` | src/engines/warmup.rs:108-127 | its cursor is the least request count of that warmup: a restart while warming up lowers it |
| `Warmup.WarmupEndsExactly` | src/engines/warmup.rs:102-150 | a warmup ends at exactly the scrape that has seen skip requests more than some earlier scrape of it |
| `Warmup.FirstScrapeEndsExactly` | src/engines/warmup.rs:103-112 | the first scrape ends it exactly when nothing is to be skipped |
| `Warmup.AsU64Truncates` | src/engines/warmup.rs:96-100 | the count is the counter truncated, 0 below 0 and saturated at 2^64 - 1 |
| `Warmup.CursorIsLeastTrigger` | src/engines/warmup.rs:108-127 | the cursor is the least value the trigger counter has had in that warmup |
| `Warmup.WarmupEndsByTrigger` | src/engines/warmup.rs:96-143 | a warmup ends at exactly the scrape whose trigger counter is skip above that of some earlier scrape of it |
| `LatencyPipeline.ObsSplit` | src/engines/warmup.rs:208-246 | counts, sums and numbers of observations split into those before the baseline scrape and those since |
| `LatencyPipeline.BaselinedIsSince` | src/engines/warmup.rs:208-246 | the merged, baselined scrape holds exactly the histogram, sum and count of the observations since the baseline |
| `LatencyPipeline.RunReportsSinceWarmup` | src/engines/warmup.rs:95-246 | while the tracker stands on a baseline and the series only grow from it, its answer reports exactly the observations since, whatever the run held before |
| `LatencyPipeline.WarmupDoesNotShow` | src/engines/warmup.rs:1-20 | two runs with any warmups and restarts at all before their baselines, and the same observations since, give equal buckets, percentiles, goodput and means |
| `LatencyPipeline.WarmPercentileIsAccurate` | src/engines/histogram.rs:22-61 | end to end: the percentile of a warm engine shares a bucket with the true quantile of what it observed since warmup |
| `LatencyPipeline.WarmGoodputIsAccurate` | src/engines/histogram.rs:64-117 | end to end: so does the goodput of a warm engine with the true share of what it observed since warmup |
| `LatencyPipeline.WarmReadingsExistExactly` | src/engines/histogram.rs:122-174 | a warm engine has a percentile, a goodput and a mean exactly once something was observed since warmup, and the mean is that of the observations in milliseconds |
| `PidTree.ExpandPidTree` | src/engines/detector.rs:1097-1121 | for any parent data, cycles included, the result is exactly the roots and all they reach, strictly ascending; the search terminates |
| `HostScan.OwnedPids` | src/engines/detector.rs:942-955 | the owned processes are exactly the proper descendants of Ollama and llama.cpp servers |
| `HostScan.EnginesFromProcesses` | src/engines/detector.rs:930-1034 | one candidate per (type, endpoint), in order of first server, holding exactly the process trees of the servers on it and what the first of them says; none of a server below an owner |
| `HostScan.ServersAreNested` | src/engines/detector.rs:920-955 | with one parent a process, two servers above one process are nested, and the upper one is no owner |
| `HostScan.SharedPidsAreNested` | src/engines/detector.rs:920-1034 | candidates share a process only where a server of one sits below a server of the other that is neither Ollama nor llama.cpp |
| `HostScan.OwnersAreDisjoint` | src/engines/detector.rs:1036-1050 | the processes of two Ollama or llama.cpp candidates are disjoint, whatever the process table |
| `HostScan.NoServerBelowAnOwner` | src/engines/detector.rs:920-926 | the only servers among the processes of an Ollama or llama.cpp candidate are its own |
| `HostScan.OwnedExactly` | src/engines/detector.rs:936-955 | a process is left out exactly when it is below one that launches an Ollama or a llama.cpp server |
| `HostScan.FoundExactly` | src/engines/detector.rs:920-1034 | a candidate stands for a type and address exactly when a listening server below none of those is there |
| `DockerMerge.JoinOnEndpoint` | src/engines/detector.rs:156-187 | the in-place join computes the join function below |
| `DockerMerge.JoinUnites` | src/engines/detector.rs:156-187 | a join keeps one candidate a key, unites keys, processes and the endpoints to probe, and is Docker where either side is |
| `DockerMerge.JoinKeepsOrder` | src/engines/detector.rs:157-163 | a join leaves the candidates in their places and puts a new one last |
| `DockerMerge.FallbacksKeepOrder` | src/engines/detector.rs:181-185 | fallbacks keep their order, the existing ones first |
| `DockerMerge.KeptInOrder` | src/engines/detector.rs:222-234 | what a container leaves keeps its order |
| `DockerMerge.AbsorbContainerProcesses` | src/engines/detector.rs:218-235 | the claim in place computes the claim function below |
| `DockerMerge.AbsorbKeeps` | src/engines/detector.rs:222-234 | what is kept is a candidate less the claimed processes, and every candidate with an unclaimed process is kept |
| `DockerMerge.ModelIsTakenOver` | src/engines/detector.rs:230-232 | a container without a model takes that of the first candidate of its type it claims whole that names one; any other container keeps its own |
| `DockerMerge.MergeDockerCandidates` | src/engines/detector.rs:130-141 | claims first, joins after, as the merge function says |
| `DockerMerge.MergeConserves` | src/engines/detector.rs:119-141 | keys stay unique and no process is lost: a container's process is under the container's keys alone, any other under exactly the keys it had |
| `DockerMerge.ContainerProcessIsDocker` | src/engines/detector.rs:119-124 | with disjoint containers every container process is in exactly one engine, the container's, and it is Docker |
| `DockerMerge.NativesAreNoContainers` | src/engines/detector.rs:188-217 | an engine still native after the merge is a host candidate with just its unclaimed processes |
| `Verification.VerifyCandidates` | src/engines/detector.rs:88-117 | the probing loop joins, in order, the candidates placed on their first answering endpoint |
| `Verification.FirstAnswer` | src/engines/detector.rs:95-115 | the endpoint found is the first that answers; none is found only if none answers |
| `Verification.VerifiedExactly` | src/engines/detector.rs:80-117 | an engine is verified under a type and endpoint exactly when that is the first answering place of some candidate, its own endpoint before its fallbacks; it holds exactly the processes of those candidates and is Docker exactly when one of them is |
| `Verification.VerifiedAnswers` | src/engines/detector.rs:80-117 | whatever is verified answers as its type at its endpoint, and has no fallback left |
| `Verification.JoinedEngine` | src/engines/detector.rs:88-117 | one entry per key, present exactly if a candidate was placed there, Docker exactly if one of them is, its processes their union |
| `Verification.JoinedModel` | src/engines/detector.rs:164-177 | an entry's model is the fold of the candidates' models, and its processes stay ascending |
| `Verification.FirstContainerIsKept` | src/engines/detector.rs:178-180 | an entry keeps the first container found for it, whatever joins later |
| `Verification.MergedServes` | src/engines/detector.rs:130-186 | a merged engine serves the fold of the models of the host candidates left and the containers there, each container with the model it took over |
| `Verification.ModelIsNamed` | src/engines/detector.rs:164-168 | the model comes from a container that names one, failing that from a native candidate that does |
| `Verification.ModelIsOrderFreeExactly` | src/engines/detector.rs:164-168 | the model is the same for every order of the candidates if and only if the naming containers agree or, with none, the naming natives agree |
| `Verification.PlacedInAnyOrder` | src/engines/detector.rs:94-116 | any order of the candidates places the same candidates on the same endpoints |
| `Verification.VerifiedInAnyOrder` | src/engines/detector.rs:88-187 | with answers that depend on engine type and endpoint, any order of the candidates yields the same engines with equal mode and processes, and equal models where those placed on them agree |
| `Verification.ServedModelIs` | src/engines/detector.rs:88-117 | a verified engine serves the model of its key |
| `Verification.ServedModelIsOrderFreeExactly` | src/engines/detector.rs:88-168 | over all orders of the candidates the served model is the same if and only if the containers placed there that name one agree or, with none, the natives do |
| `Verification.OrderDecidesTheModel` | src/engines/detector.rs:164-168 | two containers on one endpoint that name different models: each order verifies an engine with another model |
| `Discovery.DetectEngines` | src/engines/detector.rs:64-78 | scan, merge and probes, one after the other |
| `Discovery.DetectedOwnersAreDisjoint` | src/engines/detector.rs:61-78 | of the whole pass, no two Ollama or llama.cpp engines share a process, for any process table with unique PIDs, containers that share no process, and any probe answers |
| `Discovery.DetectedContainersStayApart` | src/engines/detector.rs:61-78 | with containers that share no process, a container's process is in at most one detected engine, which is Docker |
| `Discovery.DetectedDockerExactly` | src/engines/detector.rs:61-78 | an engine is Docker exactly when a candidate with a container's key is verified there |
| `ConfigStore.StepKeepsInv` | src/config_store.rs:87-155 | every step of every writer and deleter, every failure and every crash keeps the directory invariant |
| `ConfigStore.RunKeepsInv` | src/config_store.rs:87-155 | the invariant holds in every reachable state of every interleaving |
| `ConfigStore.OnlyRenameAndDeleteChangeTheDocument` | src/config_store.rs:87-117 | a store refines an atomic write: only its rename changes the document, to all of its bytes, and no step of a failing store does |
| `ConfigStore.DocumentIsWhole` | src/config_store.rs:81-86 | at every moment of every run, crashes included, the document is the original, all the bytes of one finished store, or absent with a cause |
| `ConfigStore.CrashRevertsToEarlier` | src/config_store.rs:81-86 | a crash can only take the document back to what it was at an earlier moment |
| `ConfigStore.CrashMayRevertTo` | src/config_store.rs:87-117 | conversely to any of them: since the directory is never synced, a crash may undo any store or delete |
| `ConfigStore.CrashMayLoseUnsynced` | src/config_store.rs:127-133 | what is not synced may come back as anything, which is why the rename waits for the sync |
| `ConfigStore.NothingWaits` | src/config_store.rs:98-100 | in every reachable state any store may begin, go on or fail, and a delete may come, whatever others do |
| `ConfigStore.LastWriteWins` | src/config_store.rs:98-100 | until another rename, a delete or a crash the document is what the last rename put there, whatever other stores do |
| `ConfigStore.TemporaryFilesAreAccountedFor` | src/config_store.rs:88-106 | a temporary file belongs to a store still at work, one that could not remove it, or one from before a crash |
| `ConfigStore.ConfigStore.WriteAll` | src/config_store.rs:127-133 | writing in pieces of any size either writes all bytes or fails with the document unchanged |
| `ConfigStore.ConfigStore.WriteAndSync` | src/config_store.rs:127-133 | succeeds exactly when creation, writing and sync do; the document is unchanged either way |
| `ConfigStore.ConfigStore.Store` | src/config_store.rs:87-107 | succeeds exactly when no step fails and then the document is its bytes; otherwise the document is what it was; its temporary file is gone unless removing it failed too |
| `ConfigStore.ConfigStore.DeleteDocument` | src/config_store.rs:111-117 | deleting succeeds on an absent document and leaves none |
| `ConfigStore.ConfigStore.UniqueSuffix` | src/config_store.rs:148-155 | no two calls of one process get the same suffix |
| `ConfigStore.ConfigStore.LoadDocument` | src/config_store.rs:72-78 | a load finds the original document or all the bytes of one store that succeeded, never a part of one |
| `LogStreams.RunKeepsInv` | src/logs.rs:170-199 | in every interleaving of connects, leaves, sends, ends and exits the registry invariant holds |
| `LogStreams.OneTaskPerContainer` | src/logs.rs:165-191 | a container has an entry exactly when it has a task not deregistered; there is one such task and the entry is its |
| `LogStreams.DeregistersItself` | src/logs.rs:184-199 | a task that ends removes its own entry and no other |
| `LogStreams.ClientsAreServedOrClosed` | src/logs.rs:170-199 | counting senders as they are cloned and dropped, a client's channel has none left exactly when its task has returned |
| `LogStreams.ClosedForGood` | src/logs.rs:170-199 | a channel once closed stays closed, and nobody joins it |
| `LogStreams.ClientlessAfterLeaving` | src/logs.rs:165-169 | a channel is without clients only after one has left it: a stream never starts with none |
| `LogStreams.StoppedStreamWasLeft` | src/logs.rs:226-233 | a channel on which a send finds nobody subscribed had a viewer who left |
| `LogStreams.PhaseChangesExactly` | src/logs.rs:196-271 | over runs: a streaming task stops if and only if its stream ends or a send finds nobody subscribed; every other phase changes only by its own step |
| `LogStreams.ClientStays` | src/logs.rs:170-180 | a client stays on its channel until it leaves |
| `LogStreams.ViewerKeepsStream` | src/logs.rs:223-246 | as long as a viewer stays and the output goes on, the task streams on with its entry and both senders, whatever others do |
| `LogStreams.StreamedWasConnected` | src/logs.rs:201-217 | a task that streams has connected to the daemon |
| `LogStreams.ConnectsToDyingExactly` | src/logs.rs:170-199 | a client that connects gets an open channel; it joins an ending task exactly if it finds that task's entry, which is possible |
| `LogStreams.DyingChannelIsJoined` | src/logs.rs:196-199 | the seven-step run in which it happens and the new client's channel closes |
| `LogStreams.StreamRegistry.SubscribeContainer` | src/logs.rs:170-180 | subscribing under the lock is the connect step, on the container's own channel |
| `LogStreams.StreamRegistry.RemoveStream` | src/logs.rs:184-191 | removing the entry of an ending task under the lock is one step, and leaves the task's own sender |
| `LogStreams.StreamRegistry.DropSender` | src/logs.rs:196-199 | the return of the task is another, and closes the channel |
| `LineFramer.LineBuffer.BufferLines` | src/logs.rs:319-334 | the lines emitted are the complete lines of buffer and chunk, prefixed; the buffer keeps what follows the last newline |
| `LineFramer.LineBuffer.FlushTrailing` | src/logs.rs:339-349 | emits the buffered partial line, if any, and empties the buffer |
| `LineFramer.LinesRejoin` | src/logs.rs:311-318 | lines and remainder rejoined with newlines are the input; no line and no remainder holds a newline |
| `LineFramer.LinesAreTheCut` | src/logs.rs:311-318 | they are the only newline-free pieces that do |
| `LineFramer.LinesResume` | src/logs.rs:319-334 | cutting resumes from the remainder: what was emitted need not be seen again |
| `LineFramer.FramesDoNotMatter` | src/logs.rs:311-334 | for every division into frames, what is emitted and buffered are the lines and the remainder of the undivided stream |
| `LineFramer.StreamLines` | src/logs.rs:223-268 | the published lines are those of the whole output, its unfinished last line only if the output ended without an error, up to the first line that no subscriber is left for |
| `LineFramer.AllLinesRejoin` | src/logs.rs:262-268 | the lines of a stream that ends in peace, rejoined, are the whole output |
| `LineFramer.PrefixedExactly` | src/logs.rs:325-333 | each line carries its prefix in front, and is untouched without one |
| `LineFramer.AcceptedExactly` | src/logs.rs:226-233 | a failed send stops the stream there and not before |
| `EngineState.EngineState.CacheResolution` | src/engines/mod.rs:677-685 | an answer stamps attempt and error, and model and refresh clock only when it names a model |
| `EngineState.EngineState.InvalidateModelCache` | src/engines/mod.rs:688-693 | all four cache fields are cleared together |
| `EngineState.EngineState.RecordProbeResult` | src/engines/mod.rs:700-718 | the new state for either outcome of a probe |
| `EngineState.EngineState.PollOnce` | src/engines/mod.rs:776-795 | the new state after a poll, and whether it asked for the model |
| `EngineState.StoppedIsThreeFailures` | src/engines/mod.rs:695-718 | in every reachable state Stopped, a stopping time and three failures in a row are equivalent, and the time is that of the third |
| `EngineState.RemovedExactly` | src/engines/mod.rs:813-821 | removal is due exactly when the last three or more probes failed and more than 30 s passed since the third |
| `EngineState.CacheChangesOnly` | src/engines/mod.rs:677-718 | the cache changes only by an ask or a stop, and a stop clears all of it |
| `EngineState.AsksAreSpaced` | src/engines/mod.rs:647-671 | over whole runs without a stop between, asks are 30 s apart unless the answer was blank over a cached model due for its refresh within 30 s, and 600 s after an error-free model |
| `EngineState.SpacingFailsExactly` | src/engines/mod.rs:655-685 | the next ask may come within 30 s if and only if the answer was blank over a cached model whose refresh is due by then |
| `EngineState.BlankAnswersAreAskedAgainAtOnce` | src/engines/mod.rs:677-685 | a run in which the model is asked for on successive polls one second apart |
| `EngineState.FailedProbeAsksExactly` | src/engines/mod.rs:776-794 | in any reachable state a failed probe still lets the model be asked for if and only if it is the first or second failure in a row and the cache's clocks allow it |
| `EngineState.FirstSuccessIsNotAsked` | src/engines/mod.rs:785-794 | a run in which the model is asked for on a failed first probe and not at the first success |
| `EngineState.StoppedHasNoModel` | src/engines/mod.rs:700-718 | while an engine is stopped all four cache fields are empty |
| `EngineState.RestartIsAskedAtOnce` | src/engines/mod.rs:785-794 | after a stop the first poll that finds the engine running asks at once |
| `EngineState.AsksExactly` | src/engines/mod.rs:776-794 | a loading engine is never asked, a running one exactly when the cache's clocks allow it, a failing one only before it is stopped |
| `EngineState.AskedAgainExactly` | src/engines/mod.rs:655-685 | since the last ask a running engine is asked again exactly after 600 s following a clean model, 30 s following an error or no model at all, and when its last model is 600 s old following a blank answer |
| `EngineState.LastSeenIs` | src/engines/mod.rs:700-705 | an engine was last seen at its last successful probe |
| `Collector.DetectionPass` | src/engines/mod.rs:1010-1060 | entering the engines found: each is in the map with this pass's processes, no engine is lost, a known container is kept and a first one makes the engine Docker, poll state is kept |
| `Collector.Collector.constructor` | src/engines/mod.rs:985-1003 | the map starts with the configured engines, all new |
| `Collector.Collector.ClearStalePids` | src/engines/mod.rs:827-836 | engine by engine: those found stay as they are, the others lose their processes and nothing else |
| `Collector.Collector.DetectionTick` | src/engines/mod.rs:1010-1061 | the map after the detection arm, engine by engine: exactly those found have processes, those of this pass; mode, container and poll state as they should be; each keeping the history its state stands for |
| `Collector.DetectionIsTick` | src/engines/mod.rs:1010-1061 | entering the engines found and clearing the stale ones leaves that map |
| `Collector.SweepIsExact` | src/engines/mod.rs:1076-1077 | one sweep removes exactly the engines past their grace period, in terms of their probes |
| `Collector.Collector.PollTick` | src/engines/mod.rs:1063-1083 | an engine leaves the map exactly when its probes have failed three times or more up to now and more than 30 s passed since the third failure |
| `TokenRates.CounterRate.Observe` | src/engines/common.rs:101-125 | rate, mean and new state for any reading and any gap |
| `TokenRates.CounterRate.Reset` | src/engines/common.rs:130-132 | reading and mean are forgotten |
| `TokenRates.LlamaCppAdapter.GetMetrics` | src/engines/llamacpp.rs:339-379 | warmup, resets, the live count and both rates after a scrape, all blank while warming up |
| `TokenRates.FloorAndReadingAgree` | src/engines/llamacpp.rs:339-379 | over any run of polls, restarts and missing counters included, the live-count floor and the rate's previous reading are one value |
| `TokenRates.GenerationRateIsNeverNegative` | src/engines/llamacpp.rs:743-750 | so every reported generation rate is non-negative |
| `TokenRates.PromptReadingIsLast` | src/engines/llamacpp.rs:339-379 | the prompt rate's previous reading is the last since the rates were cleared, over any run |
| `TokenRates.ShownExactly` | src/engines/llamacpp.rs:816-860 | rates are shown exactly when warmup ends or no counter is below the baseline |
| `TokenRates.NegativePromptRateIsShownExactly` | src/engines/llamacpp.rs:374-379 | over any run a negative prompt rate is shown exactly when the counter is below its last reading, taken earlier and since the rates were cleared, while no counter is below the baseline |
| `TokenRates.RestartShowsNegativePromptRate` | src/engines/llamacpp.rs:374-379 | a run in which it happens: 0, 100 and, after a restart, 5 show minus 95 tokens a second |
| `TokenRates.ShownMeansExactly` | src/engines/llamacpp.rs:816-860 | while warming up none of the four rates is shown; otherwise the means are those of the positive generation rates and of the positive prompt rates since the last clearing |
| `TokenRates.RateAtExactly` | src/engines/common.rs:106-112 | a rate exists exactly after an earlier reading, and times the seconds between is the difference |
| `TokenRates.AccumulatesPositiveRates` | src/engines/common.rs:117-123 | the accumulator is the sum and number of the positive rates since the last reset |
| `TokenRates.MeanIsBetween` | src/engines/common.rs:91-124 | the running mean lies between the least and the greatest of them |
| `TokenRates.FloorIsGreatestCount` | src/engines/llamacpp.rs:743-750 | the floor is the greatest live count since the last reset |
| `TokenRates.RatesAccountForTokens` | src/engines/common.rs:101-125 | over any stretch of polls in clock order, rates times elapsed time add up to exactly the growth of the live count |
| `OllamaHost.ValueOfDecimal` | src/engines/ollama.rs:307-313 | a printed number parses back to itself |
| `OllamaHost.SplitHostPortExactly` | src/engines/ollama.rs:373-395 | a split succeeds exactly on `host:port` with a colonless host and on `[host]:port`, without stray brackets or colons |
| `OllamaHost.JoinedSplits` | src/engines/ollama.rs:364-395 | what is joined splits back into host and decimal port, colons and the empty host included |
| `OllamaHost.JoinIsInjective` | src/engines/ollama.rs:364-371 | no two host and port pairs print alike |
| `OllamaHost.ReadsBackExactly` | src/engines/ollama.rs:276-330 | reading a printed URL gives the address back if and only if the scheme holds no "://", the host no bracket or slash, and the URL has no whitespace or quote at either end |
| `OllamaHost.ReadingIsStableExactly` | src/engines/ollama.rs:276-330 | an address that was read reads back from its own URL exactly when its host is bracket-free and its ends plain |
| `OllamaHost.SchemeChoosesThePort` | src/engines/ollama.rs:262-297 | a bare host takes port 80 with `http`, 443 with `https`, 11434 with any other scheme |
| `OllamaHost.BareHostMeansOllamaPort` | src/engines/ollama.rs:262-297 | without a scheme it takes 11434, except `ollama.com`, which means https and 443 |
| `OllamaHost.UnsetMeansDefault` | src/engines/ollama.rs:262-264 | unset or empty means http on 127.0.0.1:11434 |
| `OllamaHost.AddressAlone` | src/engines/ollama.rs:265-270 | an address without a scheme is taken as written, `:port` included |
| `OllamaHost.LiteralAlone` | src/engines/ollama.rs:270-306 | a bare IPv6 literal, bracketed or not, is read in canonical form on 11434 |
| `OllamaHost.QuotedIsRead` | src/engines/ollama.rs:274-282 | whitespace about a value and quotes inside that are trimmed |
| `OllamaHost.PortsExactly` | src/engines/ollama.rs:307-313 | a port is a number that fits 16 bits, a sign allowed; anything else falls back |
| `OllamaHost.EndpointIsIdentity` | src/engines/ollama.rs:332-349 | two servers share an endpoint exactly when port and host agree, an empty or unspecified host being 127.0.0.1 |
| `OllamaHost.EndpointReadsBack` | src/engines/ollama.rs:332-349 | an endpoint reads back as plain HTTP at the root of that host and port |
| `Disk.NamespaceExactly` | src/metrics/disk.rs:55-63 | the NVMe names accepted are a controller and a namespace number about an `n` |
| `Disk.PartitionsAreRejected` | src/metrics/disk.rs:51-79 | the name of any partition of an accepted device is rejected |
| `Disk.WholeDeviceExactly` | src/metrics/disk.rs:8-73 | the names accepted: no loop or RAM device, and an NVMe namespace, a numbered family with its number alone, or no digit at the end |
| `Disk.WholeDevicesExactly` | src/metrics/disk.rs:109-113 | exactly the devices with such names are remembered |
| `Disk.MovedExactly` | src/metrics/disk.rs:137-145 | a device adds the growth of each counter, nothing where it went back, nothing where the device was not there before |
| `Disk.AppearingDeviceAddsNothing` | src/metrics/disk.rs:137-145 | a device that appears does not change what is counted |
| `Disk.IoRates` | src/metrics/disk.rs:127-150 | both rates are those of the sectors moved by the devices in both readings |
| `Disk.DiskIoSampler.Sample` | src/metrics/disk.rs:109-124 | the whole devices of this reading are remembered, and the rates are those since the previous one, 0 without one or without time passing |
| `Disk.RatesAccount` | src/metrics/disk.rs:109-154 | over any run, devices and clocks behaving as they may, the rates account for the bytes moved to within half a byte per second |
| `Disk.MovedIsDifference` | src/metrics/disk.rs:135-145 | among the same devices in any order, what moved is the difference of the totals |
| `Disk.SteadyRatesAccount` | src/metrics/disk.rs:109-154 | with an advancing clock, fixed devices and non-decreasing counters, the rates sum to 512 bytes a sector between first and last reading, within half the elapsed seconds |

## Left out

- Floating point: readings are `real`, so rounding, NaN, overflow and negative infinity are not modelled; disk rates do round to whole numbers.
- Machine integers: counters, failure counts and PIDs are unbounded naturals; only the saturating cast of the request counter, ports and 32-bit port parsing have their widths.
- Text parsing inside the `prometheus-parse` crate is not part of this model, which starts from its samples.
- UTF-8: frames and environment values are character sequences, so the lossy decoding of a frame cut inside a character is not covered.
- IP addresses: parsing and canonical printing are one function parameter, of whose answers only the absence of slashes and brackets is assumed.
- Network, Docker, NVML, procfs and clock access: scrapes, process tables, listings, probe answers and instants are inputs. Instants are integers or reals, and a run that needs them in order says so.
- Command lines, environments and image names: which server a process launches, where it listens and what it serves are inputs of the scan.
- Adapters beyond llama.cpp's rates: health answers, role and access latches, `/slots` parsing, field mappings, speculative-decoding rates and `reported_only` are settled by reading one branch.
- Broadcast channels: capacity, lagging receivers and message delivery; a send only fails when nobody is subscribed.
- Console and stdin frames of a log stream, and the closing notices, are not framed into lines and are not modelled.
- Store errors: a load that fails for another reason than absence, the read-only probe at startup, and the creation of the state directory.
- Discovery.DetectedOwnersAreDisjoint: assumes that no process is listed twice, on the host or by two containers.
- ConfigStore.ConfigStore.UniqueSuffix: two processes sharing a state directory under one PID are assumed not to happen; suffixes are numbers here.
- Collector.Collector.PollTick: the map holds values, not objects, so aliasing of engine states is not captured, and engines are polled in any order.
- Snapshots, GPU matching, the log viewer's wait for a container, the WebSocket and HTTP handlers, memory and network metrics, the CLI and the frontend.
- `wire_buckets`, the millisecond conversions of percentiles and SLO thresholds, and `/proc/diskstats` line parsing, which are one expression each.
